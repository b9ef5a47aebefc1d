/** pdnsd's hash table of cache entries (hash.c). A name is hashed twice: the first hash selects a
    chain, the second orders the chain and is compared before the names are. */
module HashTable {
  import opened Names

  // ----- the hash -----

  const HASH_SZ: nat := 10
  const HASH_NUM_BUCKETS: nat := 1024

  /** Bytes of an unsigned long, as on 32-bit ARM; it then has the width of an unsigned int. */
  const SIZEOF_LONG: nat := 4
  const WORD: nat := 0x1_0000_0000

  /** c << k. */
  function Shl(c: nat, k: nat): nat { if k == 0 then c else 2 * Shl(c, k - 1) }

  /** s += c << i % m, in a word. */
  function Add(s: nat, c: nat, i: nat, m: nat): nat
    requires m > 0
  {
    (s + Shl(c, i % m)) % WORD
  }

  /** The sum of the first i bytes in upper case, each shifted by its position modulo m, in a word. */
  function Sum(str: seq<byte>, i: nat, m: nat): nat
    requires i <= |str| && m > 0
  {
    if i == 0 then 0 else Add(Sum(str, i - 1, m), ToUpper(str[i - 1]), i - 1, m)
  }

  /** (s & HASH_BITMASK) + ((s & ~HASH_BITMASK) >> HASH_SZ). */
  function Fold10(s: nat): nat { s % HASH_NUM_BUCKETS + s / HASH_NUM_BUCKETS }

  /** The number of the chain. */
  function Bucket(w: seq<byte>): (b: nat)
    ensures b < HASH_NUM_BUCKETS
  {
    if w == [] then 0 else Fold10(Fold10(Sum(w, |w| - 1, HASH_SZ - 5))) % HASH_NUM_BUCKETS
  }

  function RHash(w: seq<byte>): nat
  {
    if w == [] then 0 else Sum(w, |w| - 1, 8 * SIZEOF_LONG - 7)
  }

  lemma {:induction false} SumSame(a: seq<byte>, b: seq<byte>, i: nat, m: nat)
    requires i <= |a| && i <= |b| && m > 0 && forall j :: 0 <= j < i ==> ToUpper(a[j]) == ToUpper(b[j])
    ensures Sum(a, i, m) == Sum(b, i, m)
  {
    if i > 0 { SumSame(a, b, i - 1, m); }
  }

  /** What identifies a name, whatever its case. */
  ghost function Key(w: seq<byte>): seq<byte> { Fold(w) }

  /** Names that are the same have the same hashes. */
  lemma SameKeyHashes(v: seq<byte>, w: seq<byte>)
    requires Key(v) == Key(w)
    ensures Bucket(v) == Bucket(w) && RHash(v) == RHash(w)
  {
    assert |v| == |w|;
    forall j | 0 <= j < |v| ensures ToUpper(v[j]) == ToUpper(w[j]) {
      assert Fold(v)[j] == Fold(w)[j];
    }
    if v != [] {
      SumSame(v, w, |v| - 1, HASH_SZ - 5);
      SumSame(v, w, |v| - 1, 8 * SIZEOF_LONG - 7);
    }
  }

  /** ... so a case-insensitive comparison of names that finds them equal implies equal hashes. */
  lemma SameNameHashes(a: Name, b: Name)
    requires SameName(a, b)
    ensures Bucket(Wire(a)) == Bucket(Wire(b)) && RHash(Wire(a)) == RHash(Wire(b))
  {
    FoldWire(a, b);
    SameKeyHashes(Wire(a), Wire(b));
  }

  /** dns_hash: the number of the chain, and the second hash, of the name at the start of a buffer. */
  method HashOf(str: seq<byte>, ghost n: Name) returns (bucket: nat, rhash: nat)
    requires Wire(n) <= str
    ensures bucket == Bucket(Wire(n)) && rhash == RHash(Wire(n))
  {
    var s, r, i: nat := 0, 0, 0;
    ghost var k := 0;
    BufferAt(str, n, 0);
    while str[i] != 0
      invariant k <= |n| && i == Offset(n, k) < |str|
      invariant s == Sum(str, i, HASH_SZ - 5) && r == Sum(str, i, 8 * SIZEOF_LONG - 7)
      decreases |n| - k
    {
      BufferAt(str, n, k);
      BufferAt(str, n, k + 1);
      s, r, i := HashSegment(str, s, r, i);
      k := k + 1;
    }
    BufferAt(str, n, k);
    OffsetEnd(n);
    HashEnds(str, n, i);
    s := Fold10(Fold10(s));
    bucket, rhash := s % HASH_NUM_BUCKETS, r;
  }

  /** The body of the outer loop: the length of a label, and its bytes. */
  method HashSegment(str: seq<byte>, s0: nat, r0: nat, i0: nat) returns (s: nat, r: nat, i: nat)
    requires i0 < |str| && 1 <= str[i0] <= 63 && i0 + 1 + str[i0] <= |str|
    requires s0 == Sum(str, i0, HASH_SZ - 5) && r0 == Sum(str, i0, 8 * SIZEOF_LONG - 7)
    ensures i == i0 + 1 + str[i0] && s == Sum(str, i, HASH_SZ - 5) && r == Sum(str, i, 8 * SIZEOF_LONG - 7)
  {
    var lb := str[i0];
    s, r := Add(s0, lb, i0, HASH_SZ - 5), Add(r0, lb, i0, 8 * SIZEOF_LONG - 7);
    s, r, i := HashLabel(str, s, r, i0 + 1, lb);
  }

  lemma HashEnds(str: seq<byte>, n: Name, i: nat)
    requires Wire(n) <= str && i == |Wire(n)| - 1
    ensures Fold10(Fold10(Sum(str, i, HASH_SZ - 5))) % HASH_NUM_BUCKETS == Bucket(Wire(n))
    ensures Sum(str, i, 8 * SIZEOF_LONG - 7) == RHash(Wire(n))
  {
    SumSame(str, Wire(n), i, HASH_SZ - 5);
    SumSame(str, Wire(n), i, 8 * SIZEOF_LONG - 7);
  }

  /** The inner loop of dns_hash: the bytes of a label. */
  method HashLabel(str: seq<byte>, s0: nat, r0: nat, i0: nat, lb0: nat) returns (s: nat, r: nat, i: nat)
    requires 0 < lb0 && i0 + lb0 <= |str|
    requires s0 == Sum(str, i0, HASH_SZ - 5) && r0 == Sum(str, i0, 8 * SIZEOF_LONG - 7)
    ensures i == i0 + lb0 && s == Sum(str, i, HASH_SZ - 5) && r == Sum(str, i, 8 * SIZEOF_LONG - 7)
  {
    s, r, i := s0, r0, i0;
    var lb := lb0;
    while true
      invariant 0 < lb && i + lb == i0 + lb0
      invariant s == Sum(str, i, HASH_SZ - 5) && r == Sum(str, i, 8 * SIZEOF_LONG - 7)
      decreases lb
    {
      var c := ToUpper(str[i]);
      s := Add(s, c, i, HASH_SZ - 5);
      r := Add(r, c, i, 8 * SIZEOF_LONG - 7);
      i := i + 1;
      lb := lb - 1;
      if lb == 0 { break; }
    }
  }

  // ----- the table -----

  /** A cache entry, as far as the hash table is concerned. */
  class DnsCent {
    const qname: seq<byte>
    ghost const name: Name

    constructor (qname: seq<byte>, ghost name: Name)
      requires qname == Wire(name)
      ensures this.qname == qname && this.name == name
    {
      this.qname, this.name := qname, name;
    }
  }

  /** A hash entry: the second hash of its cache entry's name is kept beside it. */
  datatype HashEnt = HashEnt(rhash: nat, data: DnsCent)

  type Chain = seq<HashEnt>

  /** A place in a chain where an entry is or may be inserted (dns_hash_loc_t). */
  datatype Loc = Loc(bucket: nat, pos: nat, rhash: nat)

  /** The entry's hashes are those of its name. */
  ghost predicate EntOk(e: HashEnt, bucket: nat)
  {
    e.data.qname == Wire(e.data.name) && e.rhash == RHash(e.data.qname) && bucket == Bucket(e.data.qname)
  }

  /** A chain is ordered by the second hash and has each name once. */
  ghost predicate ChainOk(c: Chain, bucket: nat)
  {
    (forall j :: 0 <= j < |c| ==> EntOk(c[j], bucket)) &&
    (forall j, k :: 0 <= j < k < |c| ==> c[j].rhash <= c[k].rhash && Key(c[j].data.qname) != Key(c[k].data.qname))
  }

  type View = map<seq<byte>, DnsCent>

  /** A chain holds those entries of a map that are hashed to it. */
  ghost predicate Holds(c: Chain, bucket: nat, v: View)
  {
    (forall j :: 0 <= j < |c| ==> Key(c[j].data.qname) in v && v[Key(c[j].data.qname)] == c[j].data) &&
    (forall key :: key in v && Bucket(v[key].qname) == bucket ==> exists j :: 0 <= j < |c| && c[j].data == v[key])
  }

  ghost predicate TableOk(buckets: seq<Chain>, v: View)
  {
    |buckets| == HASH_NUM_BUCKETS &&
    (forall key :: key in v ==> Key(v[key].qname) == key) &&
    (forall b {:trigger ChainOk(buckets[b], b)} :: 0 <= b < |buckets| ==> ChainOk(buckets[b], b)) &&
    (forall b {:trigger Holds(buckets[b], b, v)} :: 0 <= b < |buckets| ==> Holds(buckets[b], b, v))
  }

  /** An entry for a name w that is not in the chain belongs at pos. */
  ghost predicate Gap(c: Chain, pos: nat, w: seq<byte>)
  {
    pos <= |c| && (forall j :: 0 <= j < pos ==> c[j].rhash <= RHash(w)) &&
    (forall j :: pos <= j < |c| ==> c[j].rhash > RHash(w)) &&
    forall j :: 0 <= j < |c| ==> Key(c[j].data.qname) != Key(w)
  }

  /** The entry for the name w is at pos. */
  ghost predicate Found(c: Chain, pos: nat, w: seq<byte>)
  {
    pos < |c| && Key(c[pos].data.qname) == Key(w)
  }

  /** The search has passed the first pos entries. */
  ghost predicate Passed(c: Chain, pos: nat, w: seq<byte>)
  {
    pos <= |c| && forall j :: 0 <= j < pos ==> c[j].rhash <= RHash(w) && Key(c[j].data.qname) != Key(w)
  }

  /** Where the search stops, the name is not further on: equal names have equal hashes, and the
      chain is ordered by them. */
  lemma StopIsGap(c: Chain, bucket: nat, pos: nat, w: seq<byte>)
    requires ChainOk(c, bucket) && Passed(c, pos, w) && (pos == |c| || c[pos].rhash > RHash(w))
    ensures Gap(c, pos, w)
  {
    forall j | pos <= j < |c| ensures c[j].rhash > RHash(w) && Key(c[j].data.qname) != Key(w) {
      if Key(c[j].data.qname) == Key(w) { SameKeyHashes(c[j].data.qname, w); }
    }
  }

  /** What the table holds for a name is what its chain holds. */
  lemma LookupRight(buckets: seq<Chain>, v: View, w: seq<byte>, pos: nat)
    requires TableOk(buckets, v)
    ensures Found(buckets[Bucket(w)], pos, w) ==> Key(w) in v && v[Key(w)] == buckets[Bucket(w)][pos].data
    ensures Gap(buckets[Bucket(w)], pos, w) ==> Key(w) !in v
  {
    var b := Bucket(w);
    assert ChainOk(buckets[b], b) && Holds(buckets[b], b, v);
    if Key(w) in v { SameKeyHashes(v[Key(w)].qname, w); }
  }

  function Added(c: Chain, pos: nat, e: HashEnt): Chain
    requires pos <= |c|
  {
    c[..pos] + [e] + c[pos..]
  }

  function Deleted(c: Chain, pos: nat): Chain
    requires pos < |c|
  {
    c[..pos] + c[pos + 1..]
  }

  /** A new entry inserted at its place is an addition to the map. */
  lemma AddRight(buckets: seq<Chain>, v: View, pos: nat, e: HashEnt, b: nat)
    requires TableOk(buckets, v) && EntOk(e, b) && b < |buckets| && Gap(buckets[b], pos, e.data.qname)
    ensures TableOk(buckets[b := Added(buckets[b], pos, e)], v[Key(e.data.qname) := e.data])
  {
    var w := e.data.qname;
    LookupRight(buckets, v, w, pos);
    var buckets', v' := buckets[b := Added(buckets[b], pos, e)], v[Key(w) := e.data];
    forall x | 0 <= x < |buckets| ensures ChainOk(buckets'[x], x) {
      assert ChainOk(buckets[x], x);
      if x == b { AddChain(buckets[b], b, pos, e); }
    }
    forall x | 0 <= x < |buckets| ensures Holds(buckets'[x], x, v') {
      assert Holds(buckets[x], x, v);
      if x == b { AddHolds(buckets[b], v, pos, e, b); }
    }
  }

  lemma AddChain(c: Chain, b: nat, pos: nat, e: HashEnt)
    requires ChainOk(c, b) && EntOk(e, b) && Gap(c, pos, e.data.qname)
    ensures ChainOk(Added(c, pos, e), b)
  {
    var c' := Added(c, pos, e);
    forall j | 0 <= j < |c'| ensures j != pos ==> c'[j] == c[if j < pos then j else j - 1] {}
  }

  lemma AddHolds(c: Chain, v: View, pos: nat, e: HashEnt, b: nat)
    requires Holds(c, b, v) && EntOk(e, b) && Gap(c, pos, e.data.qname) && Key(e.data.qname) !in v
    ensures Holds(Added(c, pos, e), b, v[Key(e.data.qname) := e.data])
  {
    var v', c' := v[Key(e.data.qname) := e.data], Added(c, pos, e);
    assert c'[pos] == e;
    forall key | key in v' && Bucket(v'[key].qname) == b ensures exists j :: 0 <= j < |c'| && c'[j].data == v'[key] {
      if key != Key(e.data.qname) {
        var j :| 0 <= j < |c| && c[j].data == v[key];
        assert c'[if j < pos then j else j + 1] == c[j];
      }
    }
  }

  /** Taking an entry out is a removal from the map. */
  lemma DeleteRight(buckets: seq<Chain>, v: View, pos: nat, w: seq<byte>)
    requires TableOk(buckets, v) && Found(buckets[Bucket(w)], pos, w)
    ensures TableOk(buckets[Bucket(w) := Deleted(buckets[Bucket(w)], pos)], v - {Key(w)})
  {
    var b := Bucket(w);
    var buckets', v' := buckets[b := Deleted(buckets[b], pos)], v - {Key(w)};
    assert ChainOk(buckets[b], b);
    forall x | 0 <= x < |buckets| ensures ChainOk(buckets'[x], x) { assert ChainOk(buckets[x], x); }
    forall x | 0 <= x < |buckets| ensures Holds(buckets'[x], x, v') {
      assert Holds(buckets[x], x, v) && ChainOk(buckets[x], x);
      if x == b {
        DeleteHolds(buckets[b], v, pos, w, b);
      } else {
        forall j | 0 <= j < |buckets[x]| ensures Key(buckets[x][j].data.qname) != Key(w) {
          if Key(buckets[x][j].data.qname) == Key(w) { SameKeyHashes(buckets[x][j].data.qname, w); }
        }
      }
    }
  }

  lemma DeleteHolds(c: Chain, v: View, pos: nat, w: seq<byte>, b: nat)
    requires ChainOk(c, b) && Holds(c, b, v) && Found(c, pos, w) && forall key :: key in v ==> Key(v[key].qname) == key
    ensures Holds(Deleted(c, pos), b, v - {Key(w)})
  {
    var v', c' := v - {Key(w)}, Deleted(c, pos);
    forall j | 0 <= j < |c'| ensures Key(c'[j].data.qname) in v' && v'[Key(c'[j].data.qname)] == c'[j].data {
      var k := if j < pos then j else j + 1;
      assert c'[j] == c[k] && Key(c[k].data.qname) != Key(c[pos].data.qname);
    }
    forall key | key in v' && Bucket(v'[key].qname) == b ensures exists j :: 0 <= j < |c'| && c'[j].data == v'[key] {
      StillThere(c, pos, v[key]);
    }
  }

  lemma StillThere(c: Chain, pos: nat, data: DnsCent)
    requires pos < |c| && data != c[pos].data && exists j :: 0 <= j < |c| && c[j].data == data
    ensures exists j :: 0 <= j < |Deleted(c, pos)| && Deleted(c, pos)[j].data == data
  {
    var j :| 0 <= j < |c| && c[j].data == data;
    assert Deleted(c, pos)[if j < pos then j else j - 1] == c[j];
  }

  class DnsHash {
    var buckets: seq<Chain>
    ghost var view: View

    /** mk_dns_hash. */
    constructor ()
      ensures Valid() && view == map[]
    {
      buckets, view := seq(HASH_NUM_BUCKETS, _ => []), map[];
    }

    ghost predicate Valid()
      reads this
    {
      TableOk(buckets, view)
    }

    /** dns_lookup: find a name, and the place where it is or belongs. */
    method Lookup(key: seq<byte>, ghost n: Name) returns (cent: DnsCent?, loc: Loc)
      requires Valid() && Wire(n) <= key
      ensures cent == if Key(Wire(n)) in view then view[Key(Wire(n))] else null
      ensures loc.bucket == Bucket(Wire(n)) && loc.rhash == RHash(Wire(n))
      ensures if cent != null then Found(buckets[loc.bucket], loc.pos, Wire(n)) else Gap(buckets[loc.bucket], loc.pos, Wire(n))
    {
      var idx, rh := HashOf(key, n);
      var found, pos := Search(key, n, idx, rh);
      LookupRight(buckets, view, Wire(n), pos);
      cent := if found then buckets[idx][pos].data else null;
      loc := Loc(idx, pos, rh);
    }

    /** The loop of dns_lookup and del_dns_hash. */
    method Search(key: seq<byte>, ghost n: Name, idx: nat, rh: nat) returns (found: bool, pos: nat)
      requires Valid() && Wire(n) <= key && idx == Bucket(Wire(n)) && rh == RHash(Wire(n))
      ensures if found then Found(buckets[idx], pos, Wire(n)) else Gap(buckets[idx], pos, Wire(n))
    {
      pos, found := 0, false;
      var c := buckets[idx];
      assert ChainOk(c, idx);
      while pos < |c| && c[pos].rhash <= rh
        invariant Passed(c, pos, Wire(n))
      {
        if c[pos].rhash == rh {
          FoldWire(n, c[pos].data.name);
          var same := Rhnicmp(key, c[pos].data.qname, n, c[pos].data.name);
          if same { return true, pos; }
        } else {
          if Key(c[pos].data.qname) == Key(Wire(n)) { SameKeyHashes(c[pos].data.qname, Wire(n)); }
        }
        pos := pos + 1;
      }
      StopIsGap(c, idx, pos, Wire(n));
    }

    /** add_dns_hash, at a place found by Lookup since which the table has not changed. */
    method Add(data: DnsCent, loc: Loc)
      requires Valid() && data.qname == Wire(data.name)
      requires loc.bucket == Bucket(data.qname) && loc.rhash == RHash(data.qname) && Gap(buckets[loc.bucket], loc.pos, data.qname)
      modifies this
      ensures Valid() && view == old(view)[Key(data.qname) := data] && Key(data.qname) !in old(view)
    {
      var he := HashEnt(loc.rhash, data);
      LookupRight(buckets, view, data.qname, loc.pos);
      AddRight(buckets, view, loc.pos, he, loc.bucket);
      buckets := buckets[loc.bucket := Added(buckets[loc.bucket], loc.pos, he)];
      view := view[Key(data.qname) := data];
    }

    /** del_dns_hash_ent, for an entry found by Lookup. */
    method DelEnt(loc: Loc, ghost w: seq<byte>) returns (data: DnsCent)
      requires Valid() && loc.bucket == Bucket(w) && Found(buckets[loc.bucket], loc.pos, w)
      modifies this
      ensures Valid() && Key(w) in old(view) && data == old(view)[Key(w)] && view == old(view) - {Key(w)}
    {
      LookupRight(buckets, view, w, loc.pos);
      DeleteRight(buckets, view, loc.pos, w);
      data := buckets[loc.bucket][loc.pos].data;
      buckets := buckets[loc.bucket := Deleted(buckets[loc.bucket], loc.pos)];
      view := view - {Key(w)};
    }

    /** del_dns_hash. */
    method Del(key: seq<byte>, ghost n: Name) returns (data: DnsCent?)
      requires Valid() && Wire(n) <= key
      modifies this
      ensures Valid() && view == old(view) - {Key(Wire(n))}
      ensures data == if Key(Wire(n)) in old(view) then old(view)[Key(Wire(n))] else null
    {
      var idx, rh := HashOf(key, n);
      var found, pos := Search(key, n, idx, rh);
      LookupRight(buckets, view, Wire(n), pos);
      if found {
        data := DelEnt(Loc(idx, pos, rh), Wire(n));
      } else {
        data := null;
      }
    }
  }
}
