/** pdnsd's cache file (cache.c: write_disk_cache, write_rrset, read_disk_cache). Integers are stored
    as on a little-endian machine with 32-bit words; times are 32-bit words. */
module DiskFormat {
  import opened Names

  type word16 = x: int | 0 <= x < 0x1_0000
  type word32 = x: int | 0 <= x < 0x1_0000_0000

  /** What the file says of an RR set, and of an entry, with its sets in ascending order of type. */
  datatype FileSet = FileSet(tp: nat, flags: word16, ttl: word32, ts: word32, rrs: seq<seq<byte>>)
  datatype FileEntry = FileEntry(qname: seq<byte>, flags: word16, cns: byte, csoa: byte, negTtl: word32, negTs: word32, sets: seq<FileSet>)

  /** DF_NEGATIVE is bit 0; DF_LOCAL and CF_LOCAL are bit 1. */
  predicate Negative(flags: word16) { flags % 2 == 1 }
  predicate Local(flags: word16) { (flags / 2) % 2 == 1 }

  function Positive(flags: word16): (r: word16)
    ensures !Negative(r) && Local(r) == Local(flags)
  {
    if Negative(flags) then flags - 1 else flags
  }

  const CACHVERID: seq<byte> := [112, 100, 49, 51]

  /** The types that are cached (rrcachiterlist). */
  predicate Cached(tp: int) { 1 <= tp <= 37 || 42 <= tp <= 51 }

  // ----- integers -----

  function U16(x: word16): (s: seq<byte>) ensures |s| == 2 { [x % 256, x / 256] }

  function U32(x: word32): (s: seq<byte>)
    ensures |s| == 4
  {
    [x % 256, x / 0x100 % 256, x / 0x1_0000 % 256, x / 0x100_0000]
  }

  function G16(d: seq<byte>, p: nat): word16
    requires p + 2 <= |d|
  {
    var a: int, b: int := d[p], d[p + 1];
    a + b * 0x100
  }

  function G32(d: seq<byte>, p: nat): word32
    requires p + 4 <= |d|
  {
    var a: int, b: int, c: int, e: int := d[p], d[p + 1], d[p + 2], d[p + 3];
    a + b * 0x100 + c * 0x1_0000 + e * 0x100_0000
  }

  /** x stands at p in d. */
  ghost predicate At(d: seq<byte>, p: nat, x: seq<byte>)
  {
    p + |x| <= |d| && d[p..p + |x|] == x
  }

  lemma AtSplit(d: seq<byte>, p: nat, x: seq<byte>, y: seq<byte>)
    requires At(d, p, x + y)
    ensures At(d, p, x) && At(d, p + |x|, y)
  {
    assert d[p..p + |x|] == (x + y)[..|x|];
    assert d[p + |x|..p + |x| + |y|] == (x + y)[|x|..];
  }

  lemma AtIndex(d: seq<byte>, p: nat, x: seq<byte>, i: nat)
    requires At(d, p, x) && i < |x|
    ensures d[p + i] == x[i]
  {
    assert d[p..p + |x|][i] == x[i];
  }

  lemma Read16(d: seq<byte>, p: nat, x: word16)
    requires At(d, p, U16(x))
    ensures G16(d, p) == x
  {
    AtIndex(d, p, U16(x), 0);
    AtIndex(d, p, U16(x), 1);
  }

  lemma Bytes32(x: word32)
    ensures x % 256 + x / 0x100 % 256 * 0x100 + x / 0x1_0000 % 256 * 0x1_0000 + x / 0x100_0000 * 0x100_0000 == x
  {
    assert x / 0x1_0000 == x / 0x100 / 0x100 && x / 0x100_0000 == x / 0x1_0000 / 0x100;
  }

  lemma Read32(d: seq<byte>, p: nat, x: word32)
    requires At(d, p, U32(x))
    ensures G32(d, p) == x
  {
    var u := U32(x);
    AtIndex(d, p, u, 0);
    AtIndex(d, p, u, 1);
    AtIndex(d, p, u, 2);
    AtIndex(d, p, u, 3);
    Bytes32(x);
  }

  // ----- what is written -----

  function Record(r: seq<byte>): seq<byte> { U16(|r| % 0x1_0000) + r }

  function Records(rrs: seq<seq<byte>>): seq<byte>
  {
    if rrs == [] then [] else Records(rrs[..|rrs| - 1]) + Record(rrs[|rrs| - 1])
  }

  /** The records that are written: at most 255. */
  function Kept(rrs: seq<seq<byte>>): seq<seq<byte>> { if |rrs| <= 255 then rrs else rrs[..255] }

  function SetHeader(s: FileSet): seq<byte>
  {
    [s.tp % 256, |Kept(s.rrs)|] + U16(s.flags) + U32(s.ttl) + U32(s.ts)
  }

  function SetBytes(s: FileSet): seq<byte> { SetHeader(s) + Records(Kept(s.rrs)) }

  /** The sets that are written: those that are not local. */
  function Remote(sets: seq<FileSet>): seq<FileSet>
  {
    if sets == [] then []
    else
      var rest, last := Remote(sets[..|sets| - 1]), sets[|sets| - 1];
      if Local(last.flags) then rest else rest + [last]
  }

  function SetsBytes(sets: seq<FileSet>): seq<byte>
  {
    if sets == [] then [] else SetsBytes(sets[..|sets| - 1]) + SetBytes(sets[|sets| - 1])
  }

  function CentHeader(c: FileEntry): seq<byte>
    requires |c.qname| > 0
  {
    [(|c.qname| - 1) % 256, |Remote(c.sets)| % 256] + U16(c.flags) + [c.cns, c.csoa] +
    (if Negative(c.flags) then U32(c.negTtl) + U32(c.negTs) else []) + c.qname[..|c.qname| - 1]
  }

  function CentBytes(c: FileEntry): seq<byte>
    requires |c.qname| > 0
  {
    CentHeader(c) + SetsBytes(Remote(c.sets))
  }

  /** Which entries are written: negative ones that are not local, and those with a set that is not. */
  predicate Written(c: FileEntry)
  {
    if Negative(c.flags) then !Local(c.flags) else Remote(c.sets) != []
  }

  predicate Named(cs: seq<FileEntry>) { forall i :: 0 <= i < |cs| ==> |cs[i].qname| > 0 }

  function CentsBytes(cs: seq<FileEntry>): seq<byte>
    requires Named(cs)
  {
    if cs == [] then []
    else
      var rest, last := CentsBytes(cs[..|cs| - 1]), cs[|cs| - 1];
      if Written(last) then rest + CentBytes(last) else rest
  }

  function Selected(cs: seq<FileEntry>): seq<FileEntry>
  {
    if cs == [] then []
    else
      var rest, last := Selected(cs[..|cs| - 1]), cs[|cs| - 1];
      if Written(last) then rest + [last] else rest
  }

  function FileBytes(cs: seq<FileEntry>): seq<byte>
    requires Named(cs)
  {
    CACHVERID + U32(|Selected(cs)| % 0x1_0000_0000) + CentsBytes(cs)
  }

  // ----- the writer -----

  /** write_rrset. */
  method WriteRrset(s: FileSet, f: seq<byte>) returns (f': seq<byte>)
    ensures f' == f + SetBytes(s)
  {
    var n := 0;
    while n < |s.rrs| && n < 255
      invariant 0 <= n <= |s.rrs| && n <= 255
    {
      n := n + 1;
    }
    f' := f + ([s.tp % 256, n] + U16(s.flags) + U32(s.ttl) + U32(s.ts));
    var i := 0;
    while i < n
      invariant 0 <= i <= n && f' == f + (SetHeader(s) + Records(s.rrs[..i]))
    {
      assert s.rrs[..i + 1][..i] == s.rrs[..i];
      f' := f' + Record(s.rrs[i]);
      i := i + 1;
    }
    assert s.rrs[..n] == Kept(s.rrs);
  }

  /** Whether an entry is to be written: the test made both when counting and when writing. */
  method ToWrite(c: FileEntry) returns (b: bool)
    ensures b == Written(c)
  {
    if Negative(c.flags) { return !Local(c.flags); }
    var j := 0;
    while j < |c.sets|
      invariant 0 <= j <= |c.sets| && Remote(c.sets[..j]) == []
    {
      assert c.sets[..j + 1][..j] == c.sets[..j];
      if !Local(c.sets[j].flags) {
        RemoteGrows(c.sets, j + 1);
        return true;
      }
      j := j + 1;
    }
    assert c.sets[..j] == c.sets;
    return false;
  }

  lemma {:induction false} RemoteGrows(sets: seq<FileSet>, j: nat)
    requires j <= |sets|
    ensures |Remote(sets[..j])| <= |Remote(sets)|
  {
    if j < |sets| {
      RemoteGrows(sets[..|sets| - 1], j);
      assert sets[..|sets| - 1][..j] == sets[..j];
    } else {
      assert sets[..j] == sets;
    }
  }

  method CountRemote(sets: seq<FileSet>) returns (num: nat)
    ensures num == |Remote(sets)|
  {
    num := 0;
    var j := 0;
    while j < |sets|
      invariant 0 <= j <= |sets| && num == |Remote(sets[..j])|
    {
      assert sets[..j + 1][..j] == sets[..j];
      if !Local(sets[j].flags) { num := num + 1; }
      j := j + 1;
    }
    assert sets[..j] == sets;
  }

  /** f with sets appended one after the other. */
  function WithSets(f: seq<byte>, sets: seq<FileSet>): seq<byte>
  {
    if sets == [] then f else WithSets(f, sets[..|sets| - 1]) + SetBytes(sets[|sets| - 1])
  }

  lemma {:induction false} WithSetsIs(f: seq<byte>, sets: seq<FileSet>)
    ensures WithSets(f, sets) == f + SetsBytes(sets)
  {
    if sets != [] {
      var before, b := sets[..|sets| - 1], SetBytes(sets[|sets| - 1]);
      WithSetsIs(f, before);
      Regroup(f, SetsBytes(before), b);
    }
  }

  lemma Regroup(a: seq<byte>, b: seq<byte>, c: seq<byte>)
    ensures a + b + c == a + (b + c)
  {
  }

  lemma RemoteStep(sets: seq<FileSet>, j: nat)
    requires j < |sets|
    ensures Remote(sets[..j + 1]) == if Local(sets[j].flags) then Remote(sets[..j]) else Remote(sets[..j]) + [sets[j]]
  {
    assert sets[..j + 1][..j] == sets[..j];
  }

  method WriteSets(sets: seq<FileSet>, f: seq<byte>) returns (f': seq<byte>)
    ensures f' == f + SetsBytes(Remote(sets))
  {
    f' := f;
    var j := 0;
    while j < |sets|
      invariant 0 <= j <= |sets| && f' == WithSets(f, Remote(sets[..j]))
    {
      RemoteStep(sets, j);
      if !Local(sets[j].flags) {
        assert (Remote(sets[..j]) + [sets[j]])[..|Remote(sets[..j])|] == Remote(sets[..j]);
        f' := WriteRrset(sets[j], f');
      }
      j := j + 1;
    }
    assert sets[..j] == sets;
    WithSetsIs(f, Remote(sets));
  }

  /** The entry's header, and its sets that are not local. */
  method WriteCent(c: FileEntry, f: seq<byte>) returns (f': seq<byte>)
    requires |c.qname| > 0
    ensures f' == f + CentBytes(c)
  {
    var h := WriteHeader(c);
    f' := WriteSets(c.sets, f + h);
  }

  method WriteHeader(c: FileEntry) returns (h: seq<byte>)
    requires |c.qname| > 0
    ensures h == CentHeader(c)
  {
    var num := CountRemote(c.sets);
    h := [(|c.qname| - 1) % 256, num % 256] + U16(c.flags) + [c.cns, c.csoa];
    h := h + if Negative(c.flags) then U32(c.negTtl) + U32(c.negTs) else [];
    h := h + c.qname[..|c.qname| - 1];
  }

  method CountWritten(cs: seq<FileEntry>) returns (en: nat)
    ensures en == |Selected(cs)|
  {
    en := 0;
    var i := 0;
    while i < |cs|
      invariant 0 <= i <= |cs| && en == |Selected(cs[..i])|
    {
      assert cs[..i + 1][..i] == cs[..i];
      var b := ToWrite(cs[i]);
      if b { en := en + 1; }
      i := i + 1;
    }
    assert cs[..i] == cs;
  }

  /** f with the entries that are to be written appended one after the other. */
  function WithCents(f: seq<byte>, cs: seq<FileEntry>): seq<byte>
    requires Named(cs)
  {
    if cs == [] then f
    else
      var rest, last := WithCents(f, cs[..|cs| - 1]), cs[|cs| - 1];
      if Written(last) then rest + CentBytes(last) else rest
  }

  lemma {:induction false} WithCentsIs(f: seq<byte>, cs: seq<FileEntry>)
    requires Named(cs)
    ensures WithCents(f, cs) == f + CentsBytes(cs)
  {
    if cs != [] {
      var before, b := cs[..|cs| - 1], CentBytes(cs[|cs| - 1]);
      WithCentsIs(f, before);
      Regroup(f, CentsBytes(before), b);
    }
  }

  /** write_disk_cache: the entries are given in the order of the hash table. */
  method WriteDiskCache(cs: seq<FileEntry>) returns (f: seq<byte>)
    requires Named(cs)
    ensures f == FileBytes(cs)
  {
    var en := CountWritten(cs);
    var head := CACHVERID + U32(en % 0x1_0000_0000);
    f := head;
    var i := 0;
    while i < |cs|
      invariant 0 <= i <= |cs| && f == WithCents(head, cs[..i])
    {
      assert cs[..i + 1][..i] == cs[..i];
      var b := ToWrite(cs[i]);
      if b { f := WriteCent(cs[i], f); }
      i := i + 1;
    }
    assert cs[..i] == cs;
    WithCentsIs(head, cs);
  }

  // ----- what is read -----

  /** The records of a set, as far as they have been read, and the position after them. */
  datatype Parsed<T> = Parsed(value: T, pos: nat) | Bad

  /** add_cent_rr: a record that is there already is not added, nor is one that is not local to a
      local entry. */
  function AddRecord(acc: seq<seq<byte>>, r: seq<byte>, loc: bool): seq<seq<byte>>
  {
    if loc || r in acc then acc else acc + [r]
  }

  function ReadRecords(d: seq<byte>, p: nat, n: nat, acc: seq<seq<byte>>, loc: bool): Parsed<seq<seq<byte>>>
    decreases n
  {
    if n == 0 then Parsed(acc, p)
    else
      match ReadRecord(d, p)
      case Bad => Bad
      case Parsed(r, q) => ReadRecords(d, q, n - 1, AddRecord(acc, r, loc), loc)
  }

  /** A record: its length, and its bytes. */
  function ReadRecord(d: seq<byte>, p: nat): (r: Parsed<seq<byte>>)
    ensures r.Parsed? ==> |r.value| < 0x1_0000 && p + 2 <= r.pos <= |d|
  {
    if p + 2 > |d| || p + 2 + G16(d, p) > |d| then Bad else Parsed(d[p + 2..p + 2 + G16(d, p)], p + 2 + G16(d, p))
  }

  /** The sets of an entry, in strictly ascending order of type. */
  function ReadSets(d: seq<byte>, p: nat, n: nat, prevtp: int, acc: seq<FileSet>, loc: bool): Parsed<seq<FileSet>>
    decreases n
  {
    if n == 0 then Parsed(acc, p)
    else if p + 12 > |d| || !Cached(d[p]) || d[p] <= prevtp then Bad
    else
      var flags := G16(d, p + 2);
      match ReadRecords(d, p + 12, d[p + 1], [], loc && !Local(flags))
      case Bad => Bad
      case Parsed(rrs, q) => ReadSets(d, q, n - 1, d[p], acc + [FileSet(d[p], flags, G32(d, p + 4), G32(d, p + 8), rrs)], loc)
  }

  /** The labels of a name fill nb exactly. */
  predicate NameOk(nb: seq<byte>, i: nat)
    decreases |nb| - i
  {
    i == |nb| || (i < |nb| && 1 <= nb[i] <= 63 && NameOk(nb, i + 1 + nb[i]))
  }

  /** The header of an entry, up to its name. */
  datatype Header = Header(flags: word16, num: byte, cns: byte, csoa: byte, negTtl: word32, negTs: word32, nb: seq<byte>)

  function ReadHeader(d: seq<byte>, p: nat): (r: Parsed<Header>)
    ensures r.Parsed? ==> p + 6 <= r.pos <= |d| && |r.value.nb| <= 255 && NameOk(r.value.nb, 0)
  {
    if p + 6 > |d| then Bad
    else
      var flags := G16(d, p + 2);
      var q := NamePos(p, flags);
      if q + d[p] > |d| || !NameOk(d[q..q + d[p]], 0) then Bad
      else
        var neg := Negative(flags);
        Parsed(Header(flags, d[p + 1], d[p + 4], d[p + 5], if neg then G32(d, p + 6) else 0, if neg then G32(d, p + 10) else 0,
          d[q..q + d[p]]), q + d[p])
  }

  /** Where the name of an entry starts. */
  function NamePos(p: nat, flags: word16): nat { p + if Negative(flags) then 14 else 6 }

  /** The entry. Adding a set makes it one that is not negative. */
  function Entry(h: Header, sets: seq<FileSet>): FileEntry
  {
    FileEntry(h.nb + [0], if h.num == 0 then h.flags else Positive(h.flags), h.cns, h.csoa, h.negTtl, h.negTs, sets)
  }

  function ReadCent(d: seq<byte>, p: nat): Parsed<FileEntry>
  {
    match ReadHeader(d, p)
    case Bad => Bad
    case Parsed(h, q) =>
      match ReadSets(d, q, h.num, 0, [], Local(h.flags))
      case Bad => Bad
      case Parsed(sets, r) => Parsed(Entry(h, sets), r)
  }

  function ReadCents(d: seq<byte>, p: nat, n: nat, acc: seq<FileEntry>): seq<FileEntry>
    decreases n
  {
    if n == 0 then acc
    else
      match ReadCent(d, p)
      case Bad => acc
      case Parsed(c, q) => ReadCents(d, q, n - 1, acc + [c])
  }

  /** The entries that are read from a file, one after the other, until something is wrong. */
  function ReadFile(d: seq<byte>): seq<FileEntry>
  {
    if |d| < 8 || d[..4] != CACHVERID then [] else ReadCents(d, 8, G32(d, 4), [])
  }

  // ----- the round trip -----

  /** Records without repetitions, as add_cent_rr keeps them. */
  function Distinct(rrs: seq<seq<byte>>): seq<seq<byte>> { Onto([], rrs, false) }

  /** What is read back of a set that is not local, of an entry that is local, or not. */
  function Back(s: FileSet, loc: bool): FileSet { s.(rrs := if loc then [] else Distinct(Kept(s.rrs))) }

  function Backs(acc: seq<FileSet>, sets: seq<FileSet>, loc: bool): seq<FileSet>
  {
    if sets == [] then acc else Backs(acc, sets[..|sets| - 1], loc) + [Back(sets[|sets| - 1], loc)]
  }

  function BackCent(c: FileEntry): FileEntry
  {
    c.(sets := Backs([], Remote(c.sets), Local(c.flags)), negTtl := if Negative(c.flags) then c.negTtl else 0,
      negTs := if Negative(c.flags) then c.negTs else 0)
  }

  ghost predicate Small(rrs: seq<seq<byte>>) { forall i :: 0 <= i < |rrs| ==> |rrs[i]| < 0x1_0000 }

  ghost predicate NoDup(rrs: seq<seq<byte>>) { forall i, j :: 0 <= i < j < |rrs| ==> rrs[i] != rrs[j] }

  lemma {:induction false} DistinctIs(rrs: seq<seq<byte>>)
    ensures |Distinct(rrs)| <= |rrs| && (forall r :: r in Distinct(rrs) <==> r in rrs)
    ensures NoDup(rrs) ==> Distinct(rrs) == rrs
    ensures NoDup(Distinct(rrs))
  {
    if rrs != [] {
      DistinctIs(rrs[..|rrs| - 1]);
      assert rrs == rrs[..|rrs| - 1] + [rrs[|rrs| - 1]];
    }
  }

  /** A set is read back as it was just if it has at most 255 records, all different; in an entry that
      is local, just if it has no records at all. */
  lemma BackExact(s: FileSet, loc: bool)
    ensures Back(s, loc) == s <==> if loc then s.rrs == [] else |s.rrs| <= 255 && NoDup(s.rrs)
  {
    DistinctIs(Kept(s.rrs));
  }

  lemma RecordBack(d: seq<byte>, q: nat, r: seq<byte>)
    requires At(d, q, Record(r)) && |r| < 0x1_0000
    ensures ReadRecord(d, q) == Parsed(r, q + |Record(r)|)
  {
    AtSplit(d, q, U16(|r|), r);
    Read16(d, q, |r|);
  }

  function Onto(acc: seq<seq<byte>>, rrs: seq<seq<byte>>, loc: bool): seq<seq<byte>>
  {
    if rrs == [] then acc else AddRecord(Onto(acc, rrs[..|rrs| - 1], loc), rrs[|rrs| - 1], loc)
  }

  /** A record that is there twice, or any record in a local entry, does not come back. */
  lemma LosesRecords()
    ensures Back(FileSet(1, 0, 0, 0, [[7], [7]]), false) != FileSet(1, 0, 0, 0, [[7], [7]])
    ensures Back(FileSet(1, 0, 0, 0, [[7]]), true) != FileSet(1, 0, 0, 0, [[7]])
  {
    var twice := FileSet(1, 0, 0, 0, [[7], [7]]);
    BackExact(twice, false);
    assert twice.rrs[0] == twice.rrs[1];
  }

  /** Reading records goes on where reading the first of them ended. */
  lemma {:induction false} RecordsBack(d: seq<byte>, p: nat, rrs: seq<seq<byte>>, acc: seq<seq<byte>>, n: nat, e: nat, m: nat, loc: bool)
    requires At(d, p, Records(rrs)) && Small(rrs) && n == |rrs| + m && e == p + |Records(rrs)|
    ensures ReadRecords(d, p, n, acc, loc) == ReadRecords(d, e, m, Onto(acc, rrs, loc), loc)
  {
    if rrs != [] {
      var before, r := rrs[..|rrs| - 1], rrs[|rrs| - 1];
      var q := p + |Records(before)|;
      AtSplit(d, p, Records(before), Record(r));
      RecordsBack(d, p, before, acc, n, q, m + 1, loc);
      RecordBack(d, q, r);
      ReadOne(d, q, m, Onto(acc, before, loc), r, e, loc);
    }
  }

  lemma {:induction false} OntoLocal(acc: seq<seq<byte>>, rrs: seq<seq<byte>>)
    ensures Onto(acc, rrs, true) == acc
  {
    if rrs != [] { OntoLocal(acc, rrs[..|rrs| - 1]); }
  }

  lemma ReadOne(d: seq<byte>, q: nat, m: nat, acc: seq<seq<byte>>, r: seq<byte>, e: nat, loc: bool)
    requires ReadRecord(d, q) == Parsed(r, e)
    ensures ReadRecords(d, q, m + 1, acc, loc) == ReadRecords(d, e, m, AddRecord(acc, r, loc), loc)
  {
  }

  ghost predicate SetOk(s: FileSet) { Cached(s.tp) && Small(s.rrs) }

  lemma SetHeaderBack(d: seq<byte>, p: nat, s: FileSet)
    requires At(d, p, SetHeader(s)) && SetOk(s)
    ensures p + 12 <= |d| && d[p] == s.tp && d[p + 1] == |Kept(s.rrs)|
    ensures G16(d, p + 2) == s.flags && G32(d, p + 4) == s.ttl && G32(d, p + 8) == s.ts
  {
    var a, b, c, e := [s.tp % 256, |Kept(s.rrs)|], U16(s.flags), U32(s.ttl), U32(s.ts);
    AtSplit(d, p, a + b + c, e);
    AtSplit(d, p, a + b, c);
    AtSplit(d, p, a, b);
    AtIndex(d, p, a, 0);
    AtIndex(d, p, a, 1);
    Read16(d, p + 2, s.flags);
    Read32(d, p + 4, s.ttl);
    Read32(d, p + 8, s.ts);
  }

  ghost predicate Readable(s: FileSet) { SetOk(s) && !Local(s.flags) }

  lemma SetBack(d: seq<byte>, p: nat, s: FileSet, e: nat, loc: bool)
    requires At(d, p, SetBytes(s)) && Readable(s) && e == p + |SetBytes(s)|
    ensures p + 12 <= |d| && d[p] == s.tp && G16(d, p + 2) == s.flags && G32(d, p + 4) == s.ttl && G32(d, p + 8) == s.ts
    ensures ReadRecords(d, p + 12, d[p + 1], [], loc) == Parsed(Back(s, loc).rrs, e)
  {
    AtSplit(d, p, SetHeader(s), Records(Kept(s.rrs)));
    SetHeaderBack(d, p, s);
    RecordsBack(d, p + 12, Kept(s.rrs), [], d[p + 1], e, 0, loc);
    OntoLocal([], Kept(s.rrs));
  }

  /** Whatever is read, a set of a local entry that is not local itself ends up without records, ... */
  lemma {:induction false} LocalEntryKeepsNone(d: seq<byte>, p: nat, n: nat, acc: seq<seq<byte>>)
    ensures ReadRecords(d, p, n, acc, true).Parsed? ==> ReadRecords(d, p, n, acc, true).value == acc
    decreases n
  {
    if n > 0 && ReadRecord(d, p).Parsed? {
      LocalEntryKeepsNone(d, ReadRecord(d, p).pos, n - 1, acc);
    }
  }

  /** ... so a set that has been written is read back as it was just if that leaves it as it is. */
  lemma SetReadExact(d: seq<byte>, p: nat, s: FileSet, e: nat, loc: bool)
    requires At(d, p, SetBytes(s)) && Readable(s) && e == p + |SetBytes(s)|
    ensures ReadSets(d, p, 1, 0, [], loc) == Parsed([s], e) <==> if loc then s.rrs == [] else |s.rrs| <= 255 && NoDup(s.rrs)
  {
    SetNext(d, p, 0, 0, [], s, e, loc);
    BackExact(s, loc);
    assert [] + [Back(s, loc)] == [Back(s, loc)];
    assert [Back(s, loc)] == [s] <==> Back(s, loc) == s;
  }

  function LastTp(prevtp: int, sets: seq<FileSet>): int { if sets == [] then prevtp else sets[|sets| - 1].tp }

  ghost predicate Ascending(prevtp: int, sets: seq<FileSet>)
  {
    sets == [] || (sets[|sets| - 1].tp > LastTp(prevtp, sets[..|sets| - 1]) && Ascending(prevtp, sets[..|sets| - 1]))
  }

  ghost predicate AllReadable(sets: seq<FileSet>) { forall i :: 0 <= i < |sets| ==> Readable(sets[i]) }

  lemma {:induction false} SetsBack(d: seq<byte>, p: nat, sets: seq<FileSet>, loc: bool, prevtp: int, acc: seq<FileSet>, n: nat, e: nat, m: nat)
    requires At(d, p, SetsBytes(sets)) && AllReadable(sets) && Ascending(prevtp, sets)
    requires n == |sets| + m && e == p + |SetsBytes(sets)|
    ensures ReadSets(d, p, n, prevtp, acc, loc) == ReadSets(d, e, m, LastTp(prevtp, sets), Backs(acc, sets, loc), loc)
  {
    if sets != [] {
      var before, s := sets[..|sets| - 1], sets[|sets| - 1];
      var q := SetsAt(d, p, sets, e);
      SetsBack(d, p, before, loc, prevtp, acc, n, q, m + 1);
      SetNext(d, q, m, LastTp(prevtp, before), Backs(acc, before, loc), s, e, loc);
    }
  }

  lemma SetsAt(d: seq<byte>, p: nat, sets: seq<FileSet>, e: nat) returns (q: nat)
    requires sets != [] && At(d, p, SetsBytes(sets)) && e == p + |SetsBytes(sets)|
    ensures At(d, p, SetsBytes(sets[..|sets| - 1])) && q == p + |SetsBytes(sets[..|sets| - 1])|
    ensures At(d, q, SetBytes(sets[|sets| - 1])) && e == q + |SetBytes(sets[|sets| - 1])|
  {
    var before, s := sets[..|sets| - 1], sets[|sets| - 1];
    q := p + |SetsBytes(before)|;
    AtSplit(d, p, SetsBytes(before), SetBytes(s));
  }

  lemma SetNext(d: seq<byte>, q: nat, m: nat, prevtp: int, acc: seq<FileSet>, s: FileSet, e: nat, loc: bool)
    requires At(d, q, SetBytes(s)) && Readable(s) && e == q + |SetBytes(s)| && s.tp > prevtp
    ensures ReadSets(d, q, m + 1, prevtp, acc, loc) == ReadSets(d, e, m, s.tp, acc + [Back(s, loc)], loc)
  {
    SetBack(d, q, s, e, loc);
    SetOnce(d, q, m, prevtp, acc, s, e, loc);
  }

  lemma SetOnce(d: seq<byte>, q: nat, m: nat, prevtp: int, acc: seq<FileSet>, s: FileSet, e: nat, loc: bool)
    requires q + 12 <= |d| && d[q] == s.tp && G16(d, q + 2) == s.flags && G32(d, q + 4) == s.ttl && G32(d, q + 8) == s.ts
    requires ReadRecords(d, q + 12, d[q + 1], [], loc) == Parsed(Back(s, loc).rrs, e) && Cached(s.tp) && s.tp > prevtp && !Local(s.flags)
    ensures ReadSets(d, q, m + 1, prevtp, acc, loc) == ReadSets(d, e, m, s.tp, acc + [Back(s, loc)], loc)
  {
  }

  /** What the cache promises of an entry: its name is a name, and its sets are those of types that are
      cached, one of each. */
  ghost predicate CentOk(c: FileEntry, n: Name)
  {
    c.qname == Wire(n) && |c.qname| <= DNSNAMEBUFSIZE && SetsOk(c.sets) && Ascending(0, c.sets) &&
    |c.sets| < 256 && (Negative(c.flags) ==> c.sets == [])
  }

  ghost predicate SetsOk(sets: seq<FileSet>)
  {
    forall i :: 0 <= i < |sets| && !Local(sets[i].flags) ==> Readable(sets[i])
  }

  lemma {:induction false} RemoteOk(sets: seq<FileSet>, prevtp: int)
    requires SetsOk(sets) && Ascending(prevtp, sets)
    ensures AllReadable(Remote(sets)) && Ascending(prevtp, Remote(sets)) && |Remote(sets)| <= |sets|
    ensures LastTp(prevtp, Remote(sets)) <= LastTp(prevtp, sets)
  {
    if sets != [] {
      RemoteOk(sets[..|sets| - 1], prevtp);
    }
  }

  /** A name is accepted. */
  lemma {:induction false} NameAccepted(n: Name, k: nat)
    requires k <= |n|
    ensures Offset(n, k) <= |Wire(n)| - 1 && NameOk(Wire(n)[..|Wire(n)| - 1], Offset(n, k))
    decreases |n| - k
  {
    OffsetEnd(n);
    if k < |n| {
      WireAt(n, k);
      OffsetStep(n, k);
      NameAccepted(n, k + 1);
    }
  }

  /** The fixed part of an entry's header. */
  lemma FixedBack(d: seq<byte>, p: nat, a: seq<byte>, flags: word16, b: seq<byte>)
    requires |a| == 2 && |b| == 2 && At(d, p, a + U16(flags) + b)
    ensures p + 6 <= |d| && d[p] == a[0] && d[p + 1] == a[1] && G16(d, p + 2) == flags && d[p + 4] == b[0] && d[p + 5] == b[1]
  {
    AtSplit(d, p, a + U16(flags), b);
    AtSplit(d, p, a, U16(flags));
    AtIndex(d, p, a, 0);
    AtIndex(d, p, a, 1);
    Read16(d, p + 2, flags);
    AtIndex(d, p + 4, b, 0);
    AtIndex(d, p + 4, b, 1);
  }

  lemma TimesBack(d: seq<byte>, p: nat, ttl: word32, ts: word32)
    requires At(d, p, U32(ttl) + U32(ts))
    ensures p + 8 <= |d| && G32(d, p) == ttl && G32(d, p + 4) == ts
  {
    AtSplit(d, p, U32(ttl), U32(ts));
    Read32(d, p, ttl);
    Read32(d, p + 4, ts);
  }

  function HeaderOf(c: FileEntry, nb: seq<byte>): Header
    requires |Remote(c.sets)| < 256
  {
    var neg := Negative(c.flags);
    Header(c.flags, |Remote(c.sets)|, c.cns, c.csoa, if neg then c.negTtl else 0, if neg then c.negTs else 0, nb)
  }

  lemma CentHeaderBack(d: seq<byte>, p: nat, c: FileEntry, nb: seq<byte>)
    requires 1 <= |c.qname| <= 256 && nb == c.qname[..|c.qname| - 1] && |Remote(c.sets)| < 256 && At(d, p, CentHeader(c))
    ensures p + 6 <= |d| && d[p] == |nb| && d[p + 1] == |Remote(c.sets)|
    ensures G16(d, p + 2) == c.flags && d[p + 4] == c.cns && d[p + 5] == c.csoa
    ensures At(d, NamePos(p, c.flags), nb) && NamePos(p, c.flags) + |nb| == p + |CentHeader(c)|
    ensures Negative(c.flags) ==> p + 14 <= |d| && G32(d, p + 6) == c.negTtl && G32(d, p + 10) == c.negTs
  {
    var a, b: seq<byte> := [(|c.qname| - 1) % 256, |Remote(c.sets)| % 256], [c.cns, c.csoa];
    var t := if Negative(c.flags) then U32(c.negTtl) + U32(c.negTs) else [];
    var f := a + U16(c.flags) + b;
    AtSplit(d, p, f + t, nb);
    AtSplit(d, p, f, t);
    FixedBack(d, p, a, c.flags, b);
    if Negative(c.flags) { TimesBack(d, p + 6, c.negTtl, c.negTs); }
  }

  /** An entry that is written is read back. */
  lemma CentBack(d: seq<byte>, p: nat, c: FileEntry, n: Name, e: nat)
    requires CentOk(c, n) && At(d, p, CentBytes(c)) && Written(c) && e == p + |CentBytes(c)|
    ensures ReadCent(d, p) == Parsed(BackCent(c), e)
  {
    CentParts(d, p, c, n, e);
    PartsBack(d, p, c, c.qname[..|c.qname| - 1], p + |CentHeader(c)|, e);
  }

  /** An entry that may be written has been, with its header at p, its sets at q and its end at e. */
  ghost predicate Laid(d: seq<byte>, p: nat, c: FileEntry, nb: seq<byte>, q: nat, e: nat)
  {
    var ok := 1 <= |c.qname| <= 256 && nb == c.qname[..|c.qname| - 1] && NameOk(nb, 0) && nb + [0] == c.qname &&
      At(d, p, CentHeader(c)) && q == p + |CentHeader(c)| && |Remote(c.sets)| < 256 &&
      At(d, q, SetsBytes(Remote(c.sets))) && e == q + |SetsBytes(Remote(c.sets))|;
    ok
  }

  lemma CentParts(d: seq<byte>, p: nat, c: FileEntry, n: Name, e: nat)
    requires CentOk(c, n) && At(d, p, CentBytes(c)) && e == p + |CentBytes(c)|
    ensures Laid(d, p, c, c.qname[..|c.qname| - 1], p + |CentHeader(c)|, e)
  {
    NameParts(c, n);
    CentSplit(d, p, c, e, p + |CentHeader(c)|);
  }

  lemma NameParts(c: FileEntry, n: Name)
    requires CentOk(c, n)
    ensures 1 <= |c.qname| <= 256 && |Remote(c.sets)| < 256
    ensures NameOk(c.qname[..|c.qname| - 1], 0) && c.qname[..|c.qname| - 1] + [0] == c.qname
  {
    NameBack(n, c.qname);
    RemoteOk(c.sets, 0);
  }

  lemma CentSplit(d: seq<byte>, p: nat, c: FileEntry, e: nat, q: nat)
    requires |c.qname| > 0 && At(d, p, CentBytes(c)) && e == p + |CentBytes(c)| && q == p + |CentHeader(c)|
    ensures At(d, p, CentHeader(c)) && At(d, q, SetsBytes(Remote(c.sets))) && e == q + |SetsBytes(Remote(c.sets))|
  {
    AtSplit(d, p, CentHeader(c), SetsBytes(Remote(c.sets)));
  }

  lemma PartsBack(d: seq<byte>, p: nat, c: FileEntry, nb: seq<byte>, q: nat, e: nat)
    requires Laid(d, p, c, nb, q, e) && SetsOk(c.sets) && Ascending(0, c.sets) && Written(c)
    requires Negative(c.flags) ==> c.sets == []
    ensures ReadCent(d, p) == Parsed(BackCent(c), e)
  {
    HeaderRead(d, p, c, nb, q);
    AllSetsBack(d, q, c.sets, e, Local(c.flags));
    EntryBack(c, nb);
    EntryOf(d, p, HeaderOf(c, nb), q, Backs([], Remote(c.sets), Local(c.flags)), e);
  }

  lemma HeaderRead(d: seq<byte>, p: nat, c: FileEntry, nb: seq<byte>, q: nat)
    requires 1 <= |c.qname| <= 256 && nb == c.qname[..|c.qname| - 1] && |Remote(c.sets)| < 256 && At(d, p, CentHeader(c))
    requires NameOk(nb, 0) && q == p + |CentHeader(c)|
    ensures ReadHeader(d, p) == Parsed(HeaderOf(c, nb), q)
  {
    CentHeaderBack(d, p, c, nb);
    HeaderFields(d, p, HeaderOf(c, nb), q);
  }

  lemma HeaderFields(d: seq<byte>, p: nat, h: Header, q: nat)
    requires p + 6 <= |d| && d[p] == |h.nb| && d[p + 1] == h.num && G16(d, p + 2) == h.flags && d[p + 4] == h.cns && d[p + 5] == h.csoa
    requires At(d, NamePos(p, h.flags), h.nb) && q == NamePos(p, h.flags) + |h.nb| && NameOk(h.nb, 0)
    requires if Negative(h.flags) then p + 14 <= |d| && G32(d, p + 6) == h.negTtl && G32(d, p + 10) == h.negTs else h.negTtl == h.negTs == 0
    ensures ReadHeader(d, p) == Parsed(h, q)
  {
  }

  lemma EntryOf(d: seq<byte>, p: nat, h: Header, q: nat, sets: seq<FileSet>, e: nat)
    requires ReadHeader(d, p) == Parsed(h, q) && ReadSets(d, q, h.num, 0, [], Local(h.flags)) == Parsed(sets, e)
    ensures ReadCent(d, p) == Parsed(Entry(h, sets), e)
  {
  }

  /** An entry that is written is negative just if no sets are. */
  lemma EntryBack(c: FileEntry, nb: seq<byte>)
    requires Written(c) && (Negative(c.flags) ==> c.sets == []) && |Remote(c.sets)| < 256 && nb + [0] == c.qname
    ensures Entry(HeaderOf(c, nb), Backs([], Remote(c.sets), Local(c.flags))) == BackCent(c)
  {
  }

  lemma AllSetsBack(d: seq<byte>, q: nat, sets: seq<FileSet>, e: nat, loc: bool)
    requires SetsOk(sets) && Ascending(0, sets) && At(d, q, SetsBytes(Remote(sets))) && e == q + |SetsBytes(Remote(sets))|
    ensures ReadSets(d, q, |Remote(sets)|, 0, [], loc) == Parsed(Backs([], Remote(sets), loc), e)
  {
    RemoteOk(sets, 0);
    SetsBack(d, q, Remote(sets), loc, 0, [], |Remote(sets)|, e, 0);
  }

  lemma NameBack(n: Name, w: seq<byte>)
    requires w == Wire(n)
    ensures |w| > 0 && NameOk(w[..|w| - 1], 0) && w[..|w| - 1] + [0] == w
  {
    NameAccepted(n, 0);
    OffsetEnd(n);
    WireAt(n, |n|);
  }

  function BackCents(acc: seq<FileEntry>, cs: seq<FileEntry>): seq<FileEntry>
  {
    if cs == [] then acc else BackCents(acc, cs[..|cs| - 1]) + [BackCent(cs[|cs| - 1])]
  }

  ghost predicate CentsOk(cs: seq<FileEntry>, ns: seq<Name>)
  {
    |ns| == |cs| && forall i :: 0 <= i < |cs| ==> Written(cs[i]) ==> CentOk(cs[i], ns[i])
  }

  /** Reading entries goes on where reading the first of them ended. */
  lemma {:induction false} CentsBack(d: seq<byte>, p: nat, cs: seq<FileEntry>, ns: seq<Name>, acc: seq<FileEntry>, n: nat, e: nat, m: nat)
    requires Named(cs) && At(d, p, CentsBytes(cs)) && CentsOk(cs, ns)
    requires n == |Selected(cs)| + m && e == p + |CentsBytes(cs)|
    ensures ReadCents(d, p, n, acc) == ReadCents(d, e, m, BackCents(acc, Selected(cs)))
  {
    if cs != [] {
      var k := |cs| - 1;
      var before, c := cs[..k], cs[k];
      if Written(c) {
        var q := CentsAt(d, p, cs, e);
        CentsBack(d, p, before, ns[..k], acc, n, q, m + 1);
        CentBack(d, q, c, ns[k], e);
        CentOnce(d, q, m, BackCents(acc, Selected(before)), c, e);
        BackLast(acc, Selected(before), c);
      } else {
        CentsBack(d, p, before, ns[..k], acc, n, e, m);
      }
    }
  }

  lemma BackLast(acc: seq<FileEntry>, cs: seq<FileEntry>, c: FileEntry)
    ensures BackCents(acc, cs + [c]) == BackCents(acc, cs) + [BackCent(c)]
  {
    assert (cs + [c])[..|cs|] == cs;
  }

  lemma CentsAt(d: seq<byte>, p: nat, cs: seq<FileEntry>, e: nat) returns (q: nat)
    requires Named(cs) && cs != [] && Written(cs[|cs| - 1]) && At(d, p, CentsBytes(cs)) && e == p + |CentsBytes(cs)|
    ensures At(d, p, CentsBytes(cs[..|cs| - 1])) && q == p + |CentsBytes(cs[..|cs| - 1])|
    ensures At(d, q, CentBytes(cs[|cs| - 1])) && e == q + |CentBytes(cs[|cs| - 1])|
  {
    var before, c := cs[..|cs| - 1], cs[|cs| - 1];
    q := p + |CentsBytes(before)|;
    AtSplit(d, p, CentsBytes(before), CentBytes(c));
  }

  lemma CentOnce(d: seq<byte>, q: nat, m: nat, acc: seq<FileEntry>, c: FileEntry, e: nat)
    requires ReadCent(d, q) == Parsed(BackCent(c), e)
    ensures ReadCents(d, q, m + 1, acc) == ReadCents(d, e, m, acc + [BackCent(c)])
  {
  }

  /** Main result: what is read from the file that has been written are just the entries that are to
      be written, in their order, each with its sets that are not local; the number at the start of
      the file is theirs. (BackExact says when a set is read back as it was.) */
  lemma FileRoundTrip(cs: seq<FileEntry>, ns: seq<Name>)
    requires Named(cs) && CentsOk(cs, ns) && |Selected(cs)| < 0x1_0000_0000
    ensures ReadFile(FileBytes(cs)) == BackCents([], Selected(cs))
    ensures |FileBytes(cs)| >= 8 && G32(FileBytes(cs), 4) == |Selected(cs)| == |ReadFile(FileBytes(cs))|
  {
    var d, num, body := FileBytes(cs), |Selected(cs)|, CentsBytes(cs);
    FileHeader(d, num, body);
    CentsBack(d, 8, cs, ns, [], num, |d|, 0);
    BackCentsLength([], Selected(cs));
    assert ReadFile(d) == ReadCents(d, 8, num, []);
  }

  lemma FileHeader(d: seq<byte>, num: word32, rest: seq<byte>)
    requires d == CACHVERID + U32(num) + rest
    ensures |d| >= 8 && d[..4] == CACHVERID && G32(d, 4) == num && At(d, 8, rest) && |d| == 8 + |rest|
  {
    assert At(d, 4, U32(num));
    Read32(d, 4, num);
  }

  lemma {:induction false} BackCentsLength(acc: seq<FileEntry>, cs: seq<FileEntry>)
    ensures |BackCents(acc, cs)| == |acc| + |cs|
  {
    if cs != [] { BackCentsLength(acc, cs[..|cs| - 1]); }
  }

  // ----- what is accepted -----

  /** The labels fill nb from i on exactly if they, and a final zero, are a name. */
  lemma {:induction false} NameFrom(nb: seq<byte>, i: nat) returns (n: Name)
    requires i <= |nb| && NameOk(nb, i)
    ensures Wire(n) == nb[i..] + [0]
    decreases |nb| - i
  {
    if i == |nb| {
      n := [];
    } else {
      var j: nat := i + 1 + nb[i];
      NameOkWithin(nb, j);
      var rest := NameFrom(nb, j);
      var l: Label := nb[i + 1..j];
      n := [l] + rest;
      WireCons(l, rest);
      assert nb[i..] == [nb[i]] + nb[i + 1..j] + nb[j..];
    }
  }

  lemma NameOkWithin(nb: seq<byte>, i: nat)
    requires NameOk(nb, i)
    ensures i <= |nb|
  {
  }

  /** A name is accepted just if it is the encoding of one, without its final zero. */
  lemma NameOkIs(nb: seq<byte>)
    ensures NameOk(nb, 0) <==> exists n: Name :: Wire(n) == nb + [0]
  {
    if NameOk(nb, 0) {
      var n := NameFrom(nb, 0);
      assert nb[0..] == nb;
    }
    forall n: Name | Wire(n) == nb + [0] ensures NameOk(nb, 0) {
      NameAccepted(n, 0);
      assert Wire(n)[..|Wire(n)| - 1] == nb;
    }
  }

  /** What can be said of a set that has been read, from whatever file. */
  ghost predicate SetRead(s: FileSet, loc: bool)
  {
    Cached(s.tp) && |s.rrs| <= 255 && NoDup(s.rrs) && Small(s.rrs) && (loc && !Local(s.flags) ==> s.rrs == [])
  }

  ghost predicate SetsRead(sets: seq<FileSet>, loc: bool)
  {
    Ascending(0, sets) && forall i :: 0 <= i < |sets| ==> SetRead(sets[i], loc)
  }

  lemma {:induction false} RecordsRead(d: seq<byte>, p: nat, n: nat, acc: seq<seq<byte>>, loc: bool)
    requires ReadRecords(d, p, n, acc, loc).Parsed? && NoDup(acc) && Small(acc) && p <= |d|
    ensures var r := ReadRecords(d, p, n, acc, loc);
      NoDup(r.value) && Small(r.value) && |r.value| <= |acc| + n && (loc ==> r.value == acc) && p <= r.pos <= |d|
    decreases n
  {
    if n > 0 {
      var r := ReadRecord(d, p);
      RecordsRead(d, r.pos, n - 1, AddRecord(acc, r.value, loc), loc);
    }
  }

  /** One set more. */
  lemma SetReadNext(d: seq<byte>, p: nat, n: nat, prevtp: int, acc: seq<FileSet>, loc: bool) returns (s: FileSet, q: nat)
    requires n > 0 && ReadSets(d, p, n, prevtp, acc, loc).Parsed? && p <= |d|
    ensures p <= q <= |d| && s.tp > prevtp && SetRead(s, loc)
    ensures ReadSets(d, p, n, prevtp, acc, loc) == ReadSets(d, q, n - 1, s.tp, acc + [s], loc)
  {
    var flags := G16(d, p + 2);
    RecordsRead(d, p + 12, d[p + 1], [], loc && !Local(flags));
    var rs := ReadRecords(d, p + 12, d[p + 1], [], loc && !Local(flags));
    s, q := FileSet(d[p], flags, G32(d, p + 4), G32(d, p + 8), rs.value), rs.pos;
  }

  lemma SetsReadMore(acc: seq<FileSet>, s: FileSet, loc: bool)
    requires SetsRead(acc, loc) && s.tp > LastTp(0, acc) && SetRead(s, loc)
    ensures SetsRead(acc + [s], loc) && LastTp(0, acc + [s]) == s.tp
  {
    assert (acc + [s])[..|acc|] == acc;
  }

  lemma {:induction false} SetsReadIs(d: seq<byte>, p: nat, n: nat, acc: seq<FileSet>, loc: bool)
    requires ReadSets(d, p, n, LastTp(0, acc), acc, loc).Parsed? && SetsRead(acc, loc) && p <= |d|
    ensures var r := ReadSets(d, p, n, LastTp(0, acc), acc, loc); SetsRead(r.value, loc) && |r.value| == |acc| + n && p <= r.pos <= |d|
    decreases n
  {
    if n > 0 {
      var s, q := SetReadNext(d, p, n, LastTp(0, acc), acc, loc);
      SetsReadMore(acc, s, loc);
      SetsReadIs(d, q, n - 1, acc + [s], loc);
    }
  }

  /** What can be said of an entry that has been read: its name is the encoding of one, it has at most
      one set of each type, all of them of types that are cached, and none if it is negative. */
  ghost predicate CentRead(c: FileEntry)
  {
    (exists n: Name :: c.qname == Wire(n)) && |c.qname| <= DNSNAMEBUFSIZE && SetsRead(c.sets, Local(c.flags)) &&
    |c.sets| < 256 && (Negative(c.flags) ==> c.sets == [])
  }

  lemma CentReadIs(d: seq<byte>, p: nat)
    ensures ReadCent(d, p).Parsed? ==> CentRead(ReadCent(d, p).value) && p + 6 <= ReadCent(d, p).pos <= |d|
  {
    if ReadCent(d, p).Parsed? {
      var h := ReadHeader(d, p);
      NameOkIs(h.value.nb);
      SetsReadIs(d, h.pos, h.value.num, [], Local(h.value.flags));
      EntryRead(h.value, ReadCent(d, p).value.sets);
    }
  }

  lemma EntryRead(h: Header, sets: seq<FileSet>)
    requires |h.nb| <= 255 && (exists n: Name :: Wire(n) == h.nb + [0]) && SetsRead(sets, Local(h.flags)) && |sets| == h.num
    ensures CentRead(Entry(h, sets))
  {
  }

  ghost predicate AllRead(cs: seq<FileEntry>) { forall i :: 0 <= i < |cs| ==> CentRead(cs[i]) }

  lemma {:induction false} CentsRead(d: seq<byte>, p: nat, n: nat, acc: seq<FileEntry>)
    requires AllRead(acc)
    ensures AllRead(ReadCents(d, p, n, acc)) && |acc| <= |ReadCents(d, p, n, acc)| <= |acc| + n
    decreases n
  {
    if n > 0 {
      CentReadIs(d, p);
      var r := ReadCent(d, p);
      if r.Parsed? { CentsRead(d, r.pos, n - 1, acc + [r.value]); }
    }
  }

  /** Main result on files that may hold anything: every entry that is taken from them is a proper one,
      and there are no more than their number says. */
  lemma FileRead(d: seq<byte>)
    ensures AllRead(ReadFile(d)) && |ReadFile(d)| <= if |d| < 8 then 0 else G32(d, 4)
  {
    if |d| >= 8 && d[..4] == CACHVERID { CentsRead(d, 8, G32(d, 4), []); }
  }

  // ----- the reader -----

  /** The loop over the records of a set. */
  method ParseRecords(d: seq<byte>, p0: nat, n0: nat, loc: bool) returns (r: Parsed<seq<seq<byte>>>)
    ensures r == ReadRecords(d, p0, n0, [], loc)
  {
    ghost var whole := ReadRecords(d, p0, n0, [], loc);
    var p: nat, n: nat, rrs: seq<seq<byte>> := p0, n0, [];
    while n > 0
      invariant ReadRecords(d, p, n, rrs, loc) == whole
    {
      var rr := ParseRecord(d, p);
      if rr.Bad? { return Bad; }
      rrs := AddRecord(rrs, rr.value, loc);
      p := rr.pos;
      n := n - 1;
    }
    r := Parsed(rrs, p);
  }

  method ParseRecord(d: seq<byte>, p: nat) returns (r: Parsed<seq<byte>>)
    ensures r == ReadRecord(d, p)
  {
    if p + 2 > |d| { return Bad; }
    var rdlen := G16(d, p);
    if p + 2 + rdlen > |d| { return Bad; }
    r := Parsed(d[p + 2..p + 2 + rdlen], p + 2 + rdlen);
  }

  /** The sets of an entry. */
  method ParseSets(d: seq<byte>, p0: nat, n0: nat, loc: bool) returns (r: Parsed<seq<FileSet>>)
    requires p0 <= |d|
    ensures r == ReadSets(d, p0, n0, 0, [], loc)
    ensures r.Parsed? ==> SetsRead(r.value, loc) && |r.value| == n0 && p0 <= r.pos <= |d|
  {
    r := SetsLoop(d, p0, n0, loc);
    if r.Parsed? { SetsReadIs(d, p0, n0, [], loc); }
  }

  method SetsLoop(d: seq<byte>, p0: nat, n0: nat, loc: bool) returns (r: Parsed<seq<FileSet>>)
    ensures r == ReadSets(d, p0, n0, 0, [], loc)
  {
    ghost var whole := ReadSets(d, p0, n0, 0, [], loc);
    var p: nat, n: nat, prevtp: int, sets: seq<FileSet> := p0, n0, 0, [];
    while n > 0
      invariant ReadSets(d, p, n, prevtp, sets, loc) == whole
    {
      if p + 12 > |d| { return Bad; }
      var tp := d[p];
      if !Cached(tp) || tp <= prevtp { return Bad; }
      var flags := G16(d, p + 2);
      var rs := ParseRecords(d, p + 12, d[p + 1], loc && !Local(flags));
      if rs.Bad? { return Bad; }
      sets := sets + [FileSet(tp, flags, G32(d, p + 4), G32(d, p + 8), rs.value)];
      prevtp := tp;
      p := rs.pos;
      n := n - 1;
    }
    r := Parsed(sets, p);
  }

  /** The check of a domain name. */
  method CheckName(nb: seq<byte>) returns (ok: bool)
    ensures ok == NameOk(nb, 0)
    ensures ok <==> exists n: Name :: Wire(n) == nb + [0]
  {
    NameOkIs(nb);
    var i: nat := 0;
    while i < |nb|
      invariant i <= |nb| && NameOk(nb, 0) == NameOk(nb, i)
    {
      var lb := nb[i];
      if lb == 0 || lb > 63 || i + (lb + 1) > |nb| { return false; }
      i := i + (lb + 1);
    }
    return true;
  }

  method ParseCent(d: seq<byte>, p: nat) returns (r: Parsed<FileEntry>)
    ensures r == ReadCent(d, p)
    ensures r.Parsed? ==> CentRead(r.value) && p + 6 <= r.pos <= |d|
  {
    r := ParseFields(d, p);
    CentReadIs(d, p);
  }

  method ParseFields(d: seq<byte>, p: nat) returns (r: Parsed<FileEntry>)
    ensures r == ReadCent(d, p)
  {
    var h := ParseHeader(d, p);
    if h.Bad? { return Bad; }
    var sets := ParseSets(d, h.pos, h.value.num, Local(h.value.flags));
    if sets.Bad? { return Bad; }
    r := Parsed(Entry(h.value, sets.value), sets.pos);
  }

  method ParseHeader(d: seq<byte>, p: nat) returns (r: Parsed<Header>)
    ensures r == ReadHeader(d, p)
  {
    if p + 6 > |d| { return Bad; }
    var flags := G16(d, p + 2);
    var q := NamePos(p, flags);
    if q + d[p] > |d| { return Bad; }
    var ok := CheckName(d[q..q + d[p]]);
    if !ok { return Bad; }
    var neg := Negative(flags);
    r := Parsed(Header(flags, d[p + 1], d[p + 4], d[p + 5], if neg then G32(d, p + 6) else 0, if neg then G32(d, p + 10) else 0,
      d[q..q + d[p]]), q + d[p]);
  }

  /** read_disk_cache: the entries in the order in which they are added to the cache. */
  method ReadDiskCache(d: seq<byte>) returns (cs: seq<FileEntry>)
    ensures cs == ReadFile(d)
    ensures AllRead(cs) && |cs| <= if |d| < 8 then 0 else G32(d, 4)
  {
    cs := CentsLoop(d);
    FileRead(d);
  }

  method CentsLoop(d: seq<byte>) returns (cs: seq<FileEntry>)
    ensures cs == ReadFile(d)
  {
    cs := [];
    if |d| < 4 || d[..4] != CACHVERID || |d| < 8 { return; }
    ghost var whole := ReadFile(d);
    var cnt: nat, p: nat := G32(d, 4), 8;
    while cnt > 0
      invariant ReadCents(d, p, cnt, cs) == whole
    {
      var r := ParseCent(d, p);
      if r.Bad? { return; }
      cs := cs + [r.value];
      p := r.pos;
      cnt := cnt - 1;
    }
  }
}
