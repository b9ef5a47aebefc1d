/** The compression law: the encoder of `Compress` and the decoder of `Decompress` are inverse
    to each other over a whole message, however many names it holds. */
module RoundTrip {
  import opened Names
  import opened Decompress
  import opened Compress

  /** One call of compress_name: the name, and the offset at which its output was placed. */
  datatype Call = Call(name: Name, offs: nat)

  ghost predicate Short(calls: seq<Call>)
  {
    forall k :: 0 <= k < |calls| ==> |Wire(calls[k].name)| <= DNSNAMEBUFSIZE
  }

  /** The compression list after the calls. */
  ghost function ListAfter(calls: seq<Call>): (cb: seq<Compel>)
    requires Short(calls)
    ensures ValidList(cb)
  {
    if calls == [] then []
    else
      var last := calls[|calls| - 1];
      NameOfWire(last.name);
      Grown(last.name, ListAfter(calls[..|calls| - 1]), last.offs)
  }

  /** What call number k wrote. */
  ghost function Written(calls: seq<Call>, k: nat): seq<byte>
    requires Short(calls) && k < |calls|
  {
    Output(calls[k].name, ListAfter(calls[..k]))
  }

  /** Where the output of call number k ends. */
  ghost function WrittenEnd(calls: seq<Call>, k: nat): nat
    requires Short(calls) && k < |calls|
  {
    calls[k].offs + |Written(calls, k)|
  }

  ghost predicate PlacedAt(msg: seq<byte>, pos: nat, out: seq<byte>)
  {
    pos + |out| <= |msg| && msg[pos..pos + |out|] == out
  }

  /** Every offset fits into a pointer. */
  predicate WithinReach(msg: seq<byte>) { |msg| <= MAXOFFSET + 1 }

  /** The outputs stand in the message, with anything in between: in a message that is too long for
      pointers to reach everywhere, one after the other, otherwise in any order. */
  ghost predicate Placed(calls: seq<Call>, msg: seq<byte>)
  {
    Short(calls) &&
    (forall k {:trigger PlacedCall(calls, msg, k)} :: 0 <= k < |calls| ==> PlacedCall(calls, msg, k)) &&
    (WithinReach(msg) || forall j, k {:trigger Before(calls, j, k)} :: 0 <= j < k < |calls| ==> Before(calls, j, k))
  }

  ghost predicate PlacedCall(calls: seq<Call>, msg: seq<byte>, k: nat)
    requires Short(calls) && k < |calls|
  {
    PlacedAt(msg, calls[k].offs, Written(calls, k))
  }

  ghost predicate Before(calls: seq<Call>, j: nat, k: nat)
    requires Short(calls) && j < k < |calls|
  {
    WrittenEnd(calls, j) <= calls[k].offs
  }

  // ----- what the message holds -----

  /** At `pos` the message spells n up to case, with at most `hops` pointers. */
  ghost predicate Reads(msg: seq<byte>, pos: nat, n: Name, hops: nat)
    decreases hops, |n|
  {
    pos < |msg| &&
    if msg[pos] >= 0xc0 then
      hops > 0 && pos + 1 < |msg| && Reads(msg, Target(msg[pos], msg[pos + 1]), n, hops - 1)
    else if msg[pos] == 0 then n == []
    else
      msg[pos] <= 63 && n != [] && pos + 1 + msg[pos] < |msg| &&
      SameLabel(msg[pos + 1..pos + 1 + msg[pos]], n[0]) &&
      Reads(msg, pos + 1 + msg[pos], n[1..], hops)
  }

  lemma {:induction false} ReadsSpells(msg: seq<byte>, pos: nat, n: Name, hops: nat) returns (n': Name, h: nat)
    requires Reads(msg, pos, n, hops)
    ensures h <= hops && Spells(msg, pos, n', h) && SameName(n', n)
    decreases hops, |n|
  {
    if msg[pos] >= 0xc0 {
      n', h := ReadsSpells(msg, Target(msg[pos], msg[pos + 1]), n, hops - 1);
      h := h + 1;
    } else if msg[pos] == 0 {
      n', h := [], 0;
    } else {
      var l: Label, rest := msg[pos + 1..pos + 1 + msg[pos]], n[1..];
      n', h := ReadsSpells(msg, pos + 1 + msg[pos], rest, hops);
      SameNameCons(l, n', n);
      assert ([l] + n')[1..] == n';
      n' := [l] + n';
    }
  }

  lemma SameNameCons(l: Label, a: Name, n: Name)
    requires n != [] && SameLabel(l, n[0]) && SameName(a, n[1..])
    ensures SameName([l] + a, n)
  {
    forall k | 0 <= k < |n| ensures SameLabel(([l] + a)[k], n[k]) {
      if k > 0 { assert SameLabel(a[k - 1], n[1..][k - 1]); }
    }
  }

  lemma {:induction false} ReadsSame(msg: seq<byte>, pos: nat, m: Name, n: Name, hops: nat, more: nat)
    requires Reads(msg, pos, m, hops) && SameName(m, n) && hops <= more
    ensures Reads(msg, pos, n, more)
    decreases hops, |m|
  {
    if msg[pos] >= 0xc0 {
      ReadsSame(msg, Target(msg[pos], msg[pos + 1]), m, n, hops - 1, more - 1);
    } else if msg[pos] != 0 {
      assert SameLabel(m[0], n[0]);
      SameTail(m, n);
      ReadsSame(msg, pos + 1 + msg[pos], m[1..], n[1..], hops, more);
    }
  }

  /** A label stands in the message as it is. */
  ghost predicate LabelAt(msg: seq<byte>, pos: nat, l: Label)
  {
    pos + 1 + |l| < |msg| && msg[pos] == |l| && msg[pos + 1..pos + 1 + |l|] == l
  }

  /** Label k of a name that starts at `pos` stands in the message as it is. */
  ghost predicate LabelOf(msg: seq<byte>, pos: nat, n: Name, k: nat)
    requires k < |n|
  {
    LabelAt(msg, pos + Offset(n, k), n[k])
  }

  /** From label k on, the message spells the rest of the name that starts at `pos`. */
  ghost predicate ReadsRest(msg: seq<byte>, pos: nat, n: Name, k: nat, hops: nat)
    requires k <= |n|
  {
    Reads(msg, pos + Offset(n, k), n[k..], hops)
  }

  /** ... with fewer pointers than labels. */
  ghost predicate ReadsTail(msg: seq<byte>, pos: nat, n: Name, k: nat)
    requires k < |n|
  {
    ReadsRest(msg, pos, n, k, |n| - k - 1)
  }

  lemma PointerReads(msg: seq<byte>, pos: nat, m: Name, n: Name, hops: nat)
    requires pos + 1 < |msg| && msg[pos] >= 0xc0
    requires Reads(msg, Target(msg[pos], msg[pos + 1]), m, hops) && SameName(m, n)
    ensures Reads(msg, pos, n, hops + 1)
  {
    ReadsSame(msg, Target(msg[pos], msg[pos + 1]), m, n, hops, hops);
  }

  lemma ReadsStep(msg: seq<byte>, pos: nat, n: Name, hops: nat)
    requires n != [] && LabelAt(msg, pos, n[0])
    requires Reads(msg, pos + 1 + |n[0]|, n[1..], hops)
    ensures Reads(msg, pos, n, hops)
  {
  }

  /** The first p labels of n stand at `pos`; what follows them is read as the rest of n. */
  lemma {:induction false} ReadsFromLabel(msg: seq<byte>, pos: nat, n: Name, p: nat, k: nat, hops: nat, more: nat)
    requires k <= p <= |n| && hops <= more
    requires forall j :: 0 <= j < p ==> LabelOf(msg, pos, n, j)
    requires ReadsRest(msg, pos, n, p, hops)
    ensures ReadsRest(msg, pos, n, k, more)
    decreases p - k
  {
    if k < p {
      ReadsFromLabel(msg, pos, n, p, k + 1, hops, more);
      assert LabelOf(msg, pos, n, k);
      OffsetStep(n, k);
      assert n[k..][0] == n[k] && n[k..][1..] == n[k + 1..];
      ReadsStep(msg, pos + Offset(n, k), n[k..], more);
    } else {
      ReadsSame(msg, pos + Offset(n, p), n[p..], n[p..], hops, more);
    }
  }

  /** Bytes copied from the encoding of n hold its labels. */
  lemma CopiedLabel(msg: seq<byte>, pos: nat, n: Name, p: nat, k: nat)
    requires k < p <= |n| && Offset(n, p) <= |Wire(n)|
    requires pos + Offset(n, p) < |msg| && msg[pos..pos + Offset(n, p)] == Wire(n)[..Offset(n, p)]
    ensures LabelOf(msg, pos, n, k)
  {
    var w, len, o := Wire(n), Offset(n, p), Offset(n, k);
    assert w[o] == |n[k]| && w[o + 1..o + 1 + |n[k]|] == n[k] && o + 1 + |n[k]| <= len by {
      WireAt(n, k);
      OffsetStep(n, k);
      OffsetMonotone(n, k + 1, p);
    }
    CopiedSlice(msg, pos, w, len, o, n[k]);
  }

  lemma CopiedSlice(msg: seq<byte>, pos: nat, w: seq<byte>, len: nat, o: nat, l: Label)
    requires o + 1 + |l| <= len <= |w| && pos + len < |msg| && msg[pos..pos + len] == w[..len]
    requires w[o] == |l| && w[o + 1..o + 1 + |l|] == l
    ensures LabelAt(msg, pos + o, l)
  {
    forall i | 0 <= i < len ensures msg[pos + i] == w[i] {
      assert msg[pos..pos + len][i] == w[..len][i];
    }
    var a := msg[pos + o + 1..pos + o + 1 + |l|];
    forall i | 0 <= i < |l| ensures a[i] == l[i] {
      assert a[i] == msg[pos + (o + 1 + i)] && l[i] == w[o + 1..o + 1 + |l|][i];
    }
  }

  lemma SameNameTrans(a: Name, b: Name, c: Name)
    requires SameName(a, b) && SameName(b, c)
    ensures SameName(a, c)
  {
    forall k | 0 <= k < |a| ensures SameLabel(a[k], c[k]) {
      assert SameLabel(a[k], b[k]) && SameLabel(b[k], c[k]);
    }
  }

  lemma SameNameFrom(a: Name, b: Name, k: nat)
    requires SameName(a, b) && k <= |a|
    ensures SameName(a[k..], b[k..])
  {
    forall j | 0 <= j < |a| - k ensures SameLabel(a[k..][j], b[k..][j]) {
      assert SameLabel(a[k + j], b[k + j]);
    }
  }

  // ----- the invariant of the compression list -----

  /** `phys[i]` is the number of labels of element i that stand uncompressed in the message. */
  ghost predicate Good(cb: seq<Compel>, phys: seq<nat>, msg: seq<byte>, bound: nat)
  {
    var ok := ValidList(cb) && |phys| == |cb| &&
      (forall i :: 0 <= i < |cb| ==> Physical(cb[i], phys[i], msg, bound)) &&
      (forall i, k :: 0 <= i < |cb| && phys[i] <= k < |NameOf(cb[i].s)| ==> HeldBefore(cb, phys, i, k)) &&
      (WithinReach(msg) || Ascending(cb, phys));
    ok
  }

  ghost predicate Ascending(cb: seq<Compel>, phys: seq<nat>)
    requires ValidList(cb) && |phys| == |cb|
  {
    forall i, j :: 0 <= i < j < |cb| ==> End(cb[i], phys[i]) <= cb[j].index
  }

  /** Where the uncompressed labels of an element end. */
  ghost function End(e: Compel, p: nat): nat
    requires IsName(e.s)
  {
    if p <= |NameOf(e.s)| then e.index + Offset(NameOf(e.s), p) else 0
  }

  /** From every uncompressed label on, the message spells the rest of the name. */
  ghost predicate Physical(e: Compel, p: nat, msg: seq<byte>, bound: nat)
    requires IsName(e.s)
  {
    var n := NameOf(e.s);
    p <= |n| && (WithinReach(msg) || End(e, p) <= bound) &&
    forall k :: 0 <= k < p ==> ReadsTail(msg, e.index, n, k)
  }

  /** What element i holds from its compressed label k on, an earlier element holds uncompressed. */
  ghost predicate HeldBefore(cb: seq<Compel>, phys: seq<nat>, i: nat, k: nat)
    requires ValidList(cb) && |phys| == |cb| && i < |cb| && k <= |NameOf(cb[i].s)|
  {
    exists j, q :: 0 <= j < i && Holds(cb[j], phys[j], q, NameOf(cb[i].s)[k..])
  }

  ghost predicate Holds(e: Compel, p: nat, q: nat, n: Name)
    requires IsName(e.s)
  {
    var m := NameOf(e.s);
    q < p && q <= |m| && SameName(m[q..], n)
  }

  /** A choice comes from an element, and no earlier element offers as much within reach. */
  lemma {:induction false} ChosenElement(n: Name, cb: seq<Compel>) returns (x: nat)
    requires ValidList(cb) && Choose(n, cb).longest > 0
    ensures x < |cb| && Choose(n, cb) == Offer(n, cb[x]) && Offer(n, cb[x]).coffs <= MAXOFFSET
    ensures forall y :: 0 <= y < x ==>
              Offer(n, cb[y]).longest < Choose(n, cb).longest || Offer(n, cb[y]).coffs > MAXOFFSET
  {
    var before, last := cb[..|cb| - 1], cb[|cb| - 1];
    if Choose(n, cb) == Choose(n, before) && Choose(n, before).longest > 0 {
      x := ChosenElement(n, before);
      assert forall y :: 0 <= y <= x ==> before[y] == cb[y];
    } else {
      x := |cb| - 1;
      forall y | 0 <= y < x
        ensures Offer(n, cb[y]).longest <= Choose(n, before).longest || Offer(n, cb[y]).coffs > MAXOFFSET
      {
        ChooseMost(n, before, y);
        assert before[y] == cb[y];
      }
    }
  }

  lemma {:induction false} ChooseMost(n: Name, cb: seq<Compel>, y: nat)
    requires ValidList(cb) && y < |cb|
    ensures Offer(n, cb[y]).longest <= Choose(n, cb).longest || Offer(n, cb[y]).coffs > MAXOFFSET
  {
    if y < |cb| - 1 {
      ChooseMost(n, cb[..|cb| - 1], y);
    }
  }

  /** The heart of the matter: the offset chosen always lies in a part of an earlier name that
      stands uncompressed in the message, also when candidates were passed over because their
      offset did not fit into a pointer. */
  lemma ChosenIsPhysical(n: Name, cb: seq<Compel>, phys: seq<nat>, msg: seq<byte>, bound: nat)
    returns (x: nat, q: nat)
    requires Good(cb, phys, msg, bound) && Choose(n, cb).longest > 0
    ensures x < |cb| && q < phys[x] <= |NameOf(cb[x].s)|
    ensures Choose(n, cb).coffs == cb[x].index + Offset(NameOf(cb[x].s), q)
    ensures var c := Choose(n, cb);
            c.longest <= |n| && SameName(NameOf(cb[x].s)[q..], n[|n| - c.longest..])
  {
    ChoiceFits(n, cb);
    x := ChosenElement(n, cb);
    var c, m := Choose(n, cb), NameOf(cb[x].s);
    q := |m| - c.longest;
    OfferEnds(n, cb[x]);
    if q >= phys[x] {
      var j := EarlierHolder(n, cb, phys, msg, bound, x, q);
      assert false;
    }
    assert Physical(cb[x], phys[x], msg, bound);
  }

  /** If the match of element x starts in its compressed part, an earlier element offers as much. */
  lemma EarlierHolder(n: Name, cb: seq<Compel>, phys: seq<nat>, msg: seq<byte>, bound: nat, x: nat, q: nat)
    returns (j: nat)
    requires Good(cb, phys, msg, bound) && x < |cb|
    requires var c := Offer(n, cb[x]);
             0 < c.longest <= |n| && c.coffs <= MAXOFFSET && phys[x] <= q == |NameOf(cb[x].s)| - c.longest
    ensures j < x && Offer(n, cb[j]).longest >= Offer(n, cb[x]).longest && Offer(n, cb[j]).coffs <= MAXOFFSET
  {
    assert HeldBefore(cb, phys, x, q);
    var i, r :| 0 <= i < x && Holds(cb[i], phys[i], r, NameOf(cb[x].s)[q..]);
    j := i;
    assert Physical(cb[j], phys[j], msg, bound);
    EarlierWouldFit(n, Offer(n, cb[x]), cb[j], phys[j], cb[x], r, msg, bound);
  }

  lemma SameNameSym(a: Name, b: Name)
    requires SameName(a, b)
    ensures SameName(b, a)
  {
    forall k | 0 <= k < |b| ensures SameLabel(b[k], a[k]) {
      assert SameLabel(a[k], b[k]);
    }
  }

  /** A name that ends like another has at least that many labels in common with it. */
  lemma MatchAtLeast(n: Name, m: Name, r: nat, len: nat)
    requires r <= |m| && len <= |n| && SameName(m[r..], n[|n| - len..])
    ensures |m| - r == len <= MatchCount(n, m)
  {
    SameNameSym(m[r..], n[|n| - len..]);
    CommonSuffixNames(n, m, len);
    MatchCountLongest(n, m, len);
  }

  lemma OfferEnds(n: Name, e: Compel)
    requires IsName(e.s) && Offer(n, e).longest <= |n|
    ensures var m, k := NameOf(e.s), Offer(n, e).longest;
            k <= |m| && SameName(m[|m| - k..], n[|n| - k..])
  {
    var m, k := NameOf(e.s), Offer(n, e).longest;
    MatchCountLongest(n, m, k);
    CommonSuffixNames(n, m, k);
    SameNameSym(n[|n| - k..], m[|m| - k..]);
  }

  /** An earlier element that holds the suffix uncompressed would have been chosen first. */
  lemma EarlierWouldFit(n: Name, c: Choice, e: Compel, p: nat, x: Compel, r: nat, msg: seq<byte>, bound: nat)
    requires IsName(e.s) && IsName(x.s) && c == Offer(n, x) && c.coffs <= MAXOFFSET
    requires 0 < c.longest <= |n| && c.longest <= |NameOf(x.s)|
    requires Physical(e, p, msg, bound) && (WithinReach(msg) || End(e, p) <= x.index)
    requires Holds(e, p, r, NameOf(x.s)[|NameOf(x.s)| - c.longest..])
    ensures Offer(n, e).longest >= c.longest && Offer(n, e).coffs <= MAXOFFSET
  {
    var m, mj := NameOf(x.s), NameOf(e.s);
    OfferEnds(n, x);
    SameNameTrans(mj[r..], m[|m| - c.longest..], n[|n| - c.longest..]);
    MatchAtLeast(n, mj, r, c.longest);
    var q := |mj| - MatchCount(n, mj);
    OffsetMonotone(mj, q, p);
    assert ReadsTail(msg, e.index, mj, q);
  }

  // ----- one call -----

  lemma PlacedParts(msg: seq<byte>, pos: nat, a: seq<byte>, b: seq<byte>)
    requires PlacedAt(msg, pos, a + b)
    ensures PlacedAt(msg, pos, a) && PlacedAt(msg, pos + |a|, b)
  {
    var w := a + b;
    assert msg[pos..pos + |a|] == msg[pos..pos + |w|][..|a|] == w[..|a|] == a;
    assert msg[pos + |a|..pos + |w|] == msg[pos..pos + |w|][|a|..] == w[|a|..] == b;
  }

  /** An output is a copied part followed by a pointer or a zero byte. */
  ghost function Closing(c: Choice): (t: seq<byte>)
    requires c.longest > 0 ==> c.coffs <= MAXOFFSET
    ensures |t| == if c.longest > 0 then 2 else 1
  {
    if c.longest > 0 then PointerTo(c.coffs) else [0]
  }

  lemma OutputParts(n: Name, cb: seq<Compel>, p: nat)
    requires ValidList(cb) && p == |n| - Choose(n, cb).longest
    ensures Choose(n, cb).longest > 0 ==> Choose(n, cb).coffs <= MAXOFFSET
    ensures Offset(n, p) < |Wire(n)|
    ensures Output(n, cb) == Wire(n)[..Offset(n, p)] + Closing(Choose(n, cb))
  {
    var c := Choose(n, cb);
    ChoiceFits(n, cb);
    if c.longest == 0 {
      WholeName(n);
      assert Output(n, cb) == Wire(n);
    } else {
      assert Output(n, cb) == Wire(n)[..c.lrem] + PointerTo(c.coffs);
    }
  }

  lemma WholeName(n: Name)
    ensures Offset(n, |n|) < |Wire(n)| && Wire(n) == Wire(n)[..Offset(n, |n|)] + [0]
  {
    WireAt(n, |n|);
    OffsetEnd(n);
    var w, o := Wire(n), Offset(n, |n|);
    assert w == w[..o] + [w[o]];
  }

  lemma OutputLabels(msg: seq<byte>, offs: nat, n: Name, p: nat)
    requires p <= |n| && Offset(n, p) < |Wire(n)| && offs + Offset(n, p) < |msg|
    requires PlacedAt(msg, offs, Wire(n)[..Offset(n, p)])
    ensures forall k :: 0 <= k < p ==> LabelOf(msg, offs, n, k)
  {
    forall k | 0 <= k < p ensures LabelOf(msg, offs, n, k) {
      CopiedLabel(msg, offs, n, p, k);
    }
  }

  lemma ClosingBytes(msg: seq<byte>, pos: nat, c: Choice)
    requires (c.longest > 0 ==> c.coffs <= MAXOFFSET) && PlacedAt(msg, pos, Closing(c))
    ensures pos < |msg|
    ensures if c.longest > 0
            then msg[pos] >= 0xc0 && pos + 1 < |msg| && Target(msg[pos], msg[pos + 1]) == c.coffs
            else msg[pos] == 0
  {
    assert msg[pos] == msg[pos..pos + |Closing(c)|][0];
    if c.longest > 0 {
      assert msg[pos + 1] == msg[pos..pos + 2][1];
    }
  }

  /** What stands where an output was placed. */
  lemma OutputShape(n: Name, cb: seq<Compel>, msg: seq<byte>, offs: nat, p: nat)
    requires ValidList(cb) && p == |n| - Choose(n, cb).longest
    requires PlacedAt(msg, offs, Output(n, cb))
    ensures forall k :: 0 <= k < p ==> LabelOf(msg, offs, n, k)
    ensures Choose(n, cb).longest > 0 ==> Choose(n, cb).coffs <= MAXOFFSET
    ensures PlacedAt(msg, offs + Offset(n, p), Closing(Choose(n, cb)))
    ensures |Output(n, cb)| == Offset(n, p) + |Closing(Choose(n, cb))|
  {
    OutputParts(n, cb, p);
    PlacedParts(msg, offs, Wire(n)[..Offset(n, p)], Closing(Choose(n, cb)));
    OutputLabels(msg, offs, n, p);
  }

  /** What the chosen offset leads to. */
  lemma ChosenReads(n: Name, cb: seq<Compel>, phys: seq<nat>, msg: seq<byte>, bound: nat)
    returns (index: nat, m: Name, q: nat)
    requires Good(cb, phys, msg, bound) && Choose(n, cb).longest > 0
    ensures q < |m| && Choose(n, cb).coffs == index + Offset(m, q) && ReadsTail(msg, index, m, q)
    ensures Choose(n, cb).longest <= |n| && SameName(m[q..], n[|n| - Choose(n, cb).longest..])
  {
    var x;
    x, q := ChosenIsPhysical(n, cb, phys, msg, bound);
    index, m := cb[x].index, NameOf(cb[x].s);
    assert Physical(cb[x], phys[x], msg, bound);
  }

  /** What the pointer or the zero byte of an output leads to. */
  lemma OutputTail(n: Name, cb: seq<Compel>, phys: seq<nat>, msg: seq<byte>, bound: nat, offs: nat, p: nat)
    requires Good(cb, phys, msg, bound) && p == |n| - Choose(n, cb).longest
    requires Choose(n, cb).longest > 0 ==> Choose(n, cb).coffs <= MAXOFFSET
    requires PlacedAt(msg, offs + Offset(n, p), Closing(Choose(n, cb)))
    ensures ReadsRest(msg, offs, n, p, Choose(n, cb).longest)
  {
    if Choose(n, cb).longest > 0 {
      var index, m, q := ChosenReads(n, cb, phys, msg, bound);
      FollowChoice(msg, offs, n, p, Choose(n, cb), index, m, q);
    } else {
      EndOfName(msg, offs + Offset(n, p), n[p..], Choose(n, cb));
    }
  }

  lemma EndOfName(msg: seq<byte>, pos: nat, rest: Name, c: Choice)
    requires c.longest == 0 && PlacedAt(msg, pos, Closing(c)) && |rest| == 0
    ensures Reads(msg, pos, rest, 0)
  {
    ClosingBytes(msg, pos, c);
  }

  lemma FollowChoice(msg: seq<byte>, offs: nat, n: Name, p: nat, c: Choice, index: nat, m: Name, q: nat)
    requires p <= |n| && q < |m| && 0 < c.longest == |n| - p && SameName(m[q..], n[p..])
    requires c.coffs == index + Offset(m, q) && c.coffs <= MAXOFFSET
    requires PlacedAt(msg, offs + Offset(n, p), Closing(c))
    requires ReadsTail(msg, index, m, q)
    ensures ReadsRest(msg, offs, n, p, c.longest)
  {
    assert |m| - q == |m[q..]| == |n[p..]|;
    TailReads(msg, index, m, q, c.coffs, c.longest - 1);
    FollowPointer(msg, offs + Offset(n, p), c, m[q..], n[p..]);
  }

  lemma TailReads(msg: seq<byte>, index: nat, m: Name, q: nat, pos: nat, hops: nat)
    requires q < |m| && ReadsTail(msg, index, m, q) && pos == index + Offset(m, q) && hops == |m| - q - 1
    ensures Reads(msg, pos, m[q..], hops)
  {
  }

  lemma FollowPointer(msg: seq<byte>, pos: nat, c: Choice, m: Name, n: Name)
    requires c.longest > 0 && c.coffs <= MAXOFFSET && PlacedAt(msg, pos, Closing(c))
    requires Reads(msg, c.coffs, m, c.longest - 1) && SameName(m, n)
    ensures Reads(msg, pos, n, c.longest)
  {
    ClosingBytes(msg, pos, c);
    PointerReads(msg, pos, m, n, c.longest - 1);
  }

  /** Where a compressed name stands, the message spells it; and its labels from any
      uncompressed one on, with fewer pointers than labels. */
  lemma OutputReads(n: Name, cb: seq<Compel>, phys: seq<nat>, msg: seq<byte>, bound: nat, offs: nat, p: nat)
    requires Good(cb, phys, msg, bound) && p == |n| - Choose(n, cb).longest
    requires PlacedAt(msg, offs, Output(n, cb))
    ensures Reads(msg, offs, n, |n|)
    ensures forall k :: 0 <= k < p ==> ReadsTail(msg, offs, n, k)
    ensures EncodedSize(msg, offs) == |Output(n, cb)|
  {
    var c := Choose(n, cb);
    OutputShape(n, cb, msg, offs, p);
    OutputTail(n, cb, phys, msg, bound, offs, p);
    ClosingSize(n, cb, msg, offs, p);
    forall k | 0 <= k < p ensures ReadsTail(msg, offs, n, k) {
      TailFromLabel(msg, offs, n, p, k, c.longest);
    }
    ReadsFromLabel(msg, offs, n, p, 0, c.longest, |n|);
    assert n[0..] == n;
  }

  lemma TailFromLabel(msg: seq<byte>, pos: nat, n: Name, p: nat, k: nat, hops: nat)
    requires k < p && p + hops == |n| && (forall j :: 0 <= j < p ==> LabelOf(msg, pos, n, j)) && ReadsRest(msg, pos, n, p, hops)
    ensures ReadsTail(msg, pos, n, k)
  {
    ReadsFromLabel(msg, pos, n, p, k, hops, |n| - k - 1);
  }

  lemma ClosingSize(n: Name, cb: seq<Compel>, msg: seq<byte>, offs: nat, p: nat)
    requires ValidList(cb) && p == |n| - Choose(n, cb).longest
    requires PlacedAt(msg, offs, Output(n, cb))
    ensures EncodedSize(msg, offs) == |Output(n, cb)|
  {
    ChoiceFits(n, cb);
    OutputShape(n, cb, msg, offs, p);
    ClosedSize(msg, offs, n, p, Choose(n, cb));
  }

  lemma ClosedSize(msg: seq<byte>, offs: nat, n: Name, p: nat, c: Choice)
    requires p <= |n| && (forall k :: 0 <= k < p ==> LabelOf(msg, offs, n, k))
    requires (c.longest > 0 ==> c.coffs <= MAXOFFSET) && PlacedAt(msg, offs + Offset(n, p), Closing(c))
    ensures EncodedSize(msg, offs) == Offset(n, p) + |Closing(c)|
  {
    ClosingBytes(msg, offs + Offset(n, p), c);
    SizeInPlace(msg, offs, n, p, 0);
    assert offs + Offset(n, 0) == offs;
  }

  lemma {:induction false} SizeInPlace(msg: seq<byte>, pos: nat, n: Name, p: nat, k: nat)
    requires k <= p <= |n| && pos + Offset(n, p) < |msg|
    requires forall j :: 0 <= j < p ==> LabelOf(msg, pos, n, j)
    requires msg[pos + Offset(n, p)] >= 0xc0 || msg[pos + Offset(n, p)] == 0
    ensures EncodedSize(msg, pos + Offset(n, k)) ==
            Offset(n, p) - Offset(n, k) + if msg[pos + Offset(n, p)] == 0 then 1 else 2
    decreases p - k
  {
    if k < p {
      SizeInPlace(msg, pos, n, p, k + 1);
      OffsetStep(n, k);
      assert LabelOf(msg, pos, n, k);
    }
  }

  /** The invariant is kept by a call. */
  lemma GoodStep(n: Name, cb: seq<Compel>, phys: seq<nat>, msg: seq<byte>, bound: nat, offs: nat)
    returns (phys': seq<nat>)
    requires Good(cb, phys, msg, bound) && (WithinReach(msg) || bound <= offs) && |Wire(n)| <= DNSNAMEBUFSIZE
    requires PlacedAt(msg, offs, Output(n, cb))
    ensures Good(Grown(n, cb, offs), phys', msg, offs + |Output(n, cb)|)
  {
    var c, bound' := Choose(n, cb), offs + |Output(n, cb)|;
    ChoiceFits(n, cb);
    GoodLater(cb, phys, msg, bound, bound');
    if c.longest > 0 && c.lrem == 0 {
      phys' := phys;
    } else {
      var p := |n| - c.longest;
      phys' := phys + [p];
      NewElement(n, cb, phys, msg, bound, offs, p);
      HeldStep(n, cb, phys, msg, bound, offs, p);
      GrownGood(cb, phys, msg, bound, Compel(offs, Wire(n)), p, bound');
    }
  }

  lemma GoodLater(cb: seq<Compel>, phys: seq<nat>, msg: seq<byte>, bound: nat, bound': nat)
    requires Good(cb, phys, msg, bound) && (WithinReach(msg) || bound <= bound')
    ensures Good(cb, phys, msg, bound')
  {
    forall i | 0 <= i < |cb| ensures Physical(cb[i], phys[i], msg, bound') {
      assert Physical(cb[i], phys[i], msg, bound);
    }
  }

  /** What is known of the list with a new element. */
  lemma GrownGood(cb: seq<Compel>, phys: seq<nat>, msg: seq<byte>, bound: nat, e: Compel, p: nat, bound': nat)
    requires Good(cb, phys, msg, bound) && (WithinReach(msg) || bound <= e.index <= bound')
    requires ValidList(cb + [e]) && IsName(e.s) && Physical(e, p, msg, bound')
    requires forall i, k :: 0 <= i < |cb + [e]| && (phys + [p])[i] <= k < |NameOf((cb + [e])[i].s)| ==> HeldBefore(cb + [e], phys + [p], i, k)
    ensures Good(cb + [e], phys + [p], msg, bound')
  {
    var cb', phys' := cb + [e], phys + [p];
    forall i | 0 <= i < |cb'| ensures Physical(cb'[i], phys'[i], msg, bound') {
      if i < |cb| { assert Physical(cb[i], phys[i], msg, bound); }
    }
    if !WithinReach(msg) {
      forall i, j | 0 <= i < j < |cb'| ensures End(cb'[i], phys'[i]) <= cb'[j].index {
        assert Physical(cb[i], phys[i], msg, bound);
      }
    }
  }

  lemma HeldStep(n: Name, cb: seq<Compel>, phys: seq<nat>, msg: seq<byte>, bound: nat, offs: nat, p: nat)
    requires Good(cb, phys, msg, bound) && |Wire(n)| <= DNSNAMEBUFSIZE
    requires Choose(n, cb).longest <= |n| && p == |n| - Choose(n, cb).longest
    ensures ValidList(cb + [Compel(offs, Wire(n))])
    ensures var cb', phys' := cb + [Compel(offs, Wire(n))], phys + [p];
            forall i, k :: 0 <= i < |cb'| && phys'[i] <= k < |NameOf(cb'[i].s)| ==> HeldBefore(cb', phys', i, k)
  {
    NameOfWire(n);
    var cb', phys' := cb + [Compel(offs, Wire(n))], phys + [p];
    forall i, k | 0 <= i < |cb'| && phys'[i] <= k < |NameOf(cb'[i].s)| ensures HeldBefore(cb', phys', i, k) {
      var j, q;
      if i < |cb| {
        assert HeldBefore(cb, phys, i, k);
        j, q :| 0 <= j < i && Holds(cb[j], phys[j], q, NameOf(cb[i].s)[k..]);
      } else {
        j, q := TailIsHeld(n, cb, phys, msg, bound, k);
      }
      assert cb'[j] == cb[j] && phys'[j] == phys[j];
      assert 0 <= j < i && Holds(cb'[j], phys'[j], q, NameOf(cb'[i].s)[k..]);
    }
  }

  lemma NewElement(n: Name, cb: seq<Compel>, phys: seq<nat>, msg: seq<byte>, bound: nat, offs: nat, p: nat)
    requires Good(cb, phys, msg, bound) && p == |n| - Choose(n, cb).longest
    requires PlacedAt(msg, offs, Output(n, cb))
    ensures IsName(Wire(n)) && Physical(Compel(offs, Wire(n)), p, msg, offs + |Output(n, cb)|)
  {
    NameOfWire(n);
    OutputShape(n, cb, msg, offs, p);
    OutputReads(n, cb, phys, msg, bound, offs, p);
  }

  /** Every suffix of the part that was replaced by a pointer is held uncompressed earlier. */
  lemma TailIsHeld(n: Name, cb: seq<Compel>, phys: seq<nat>, msg: seq<byte>, bound: nat, k: nat)
    returns (j: nat, q: nat)
    requires Good(cb, phys, msg, bound) && Choose(n, cb).longest <= |n|
    requires |n| - Choose(n, cb).longest <= k < |n|
    ensures j < |cb| && Holds(cb[j], phys[j], q, n[k..])
  {
    var x, r := ChosenIsPhysical(n, cb, phys, msg, bound);
    var m, p := NameOf(cb[x].s), |n| - Choose(n, cb).longest;
    var s := r + (k - p);
    SameNameFrom(m[r..], n[p..], k - p);
    assert m[r..][k - p..] == m[s..] && n[p..][k - p..] == n[k..];
    if s < phys[x] {
      j, q := x, s;
    } else {
      assert HeldBefore(cb, phys, x, s);
      j, q :| 0 <= j < x && Holds(cb[j], phys[j], q, m[s..]);
      SameNameTrans(NameOf(cb[j].s)[q..], m[s..], n[k..]);
    }
  }

  // ----- all calls -----

  lemma ListAfterStep(calls: seq<Call>, k: nat)
    requires Short(calls) && 0 < k <= |calls|
    ensures Short(calls[..k]) && Short(calls[..k - 1])
    ensures ListAfter(calls[..k]) == Grown(calls[k - 1].name, ListAfter(calls[..k - 1]), calls[k - 1].offs)
  {
    assert calls[..k][..k - 1] == calls[..k - 1];
  }

  /** Nothing that was written before call k reaches beyond this. */
  ghost function BoundBefore(calls: seq<Call>, k: nat): nat
    requires Short(calls) && k <= |calls|
  {
    if k == 0 then 0 else WrittenEnd(calls, k - 1)
  }

  /** The invariant holds of the list before every call. */
  lemma {:induction false} GoodBefore(calls: seq<Call>, msg: seq<byte>, k: nat) returns (phys: seq<nat>)
    requires Placed(calls, msg) && k <= |calls|
    ensures Good(ListAfter(calls[..k]), phys, msg, BoundBefore(calls, k))
    decreases k
  {
    if k == 0 {
      phys := [];
    } else {
      phys := GoodBefore(calls, msg, k - 1);
      phys := GoodAfter(calls, msg, k - 1, phys);
    }
  }

  lemma GoodAfter(calls: seq<Call>, msg: seq<byte>, k: nat, phys: seq<nat>) returns (phys': seq<nat>)
    requires Placed(calls, msg) && k < |calls| && Good(ListAfter(calls[..k]), phys, msg, BoundBefore(calls, k))
    ensures Good(ListAfter(calls[..k + 1]), phys', msg, BoundBefore(calls, k + 1))
  {
    var n, offs, cb, bound := calls[k].name, calls[k].offs, ListAfter(calls[..k]), BoundBefore(calls, k);
    ListAfterStep(calls, k + 1);
    assert PlacedCall(calls, msg, k);
    BoundStep(calls, msg, k);
    phys' := GoodStep(n, cb, phys, msg, bound, offs);
  }

  lemma BoundStep(calls: seq<Call>, msg: seq<byte>, k: nat)
    requires Placed(calls, msg) && k < |calls|
    ensures WithinReach(msg) || BoundBefore(calls, k) <= calls[k].offs
  {
    if k > 0 && !WithinReach(msg) { assert Before(calls, k - 1, k); }
  }

  /** Main result: decompressing at the place of any compressed name yields that name up to
      ASCII case, reads exactly the bytes that were written for it, and those are no more than
      the name has uncompressed. */
  lemma CompressionRoundTrip(calls: seq<Call>, msg: seq<byte>, k: nat, sz: nat)
    requires Placed(calls, msg) && k < |calls| && sz >= |Written(calls, k)|
    ensures exists n: Name :: SameName(n, calls[k].name) &&
                              Decode(msg, calls[k].offs, sz) == Ok(Wire(n), |Written(calls, k)|)
    ensures |Written(calls, k)| <= |Wire(calls[k].name)|
  {
    var n, offs := calls[k].name, calls[k].offs;
    var phys := GoodBefore(calls, msg, k);
    var bound, cb := BoundBefore(calls, k), ListAfter(calls[..k]);
    ChoiceFits(n, cb);
    assert PlacedCall(calls, msg, k);
    OutputReads(n, cb, phys, msg, bound, offs, |n| - Choose(n, cb).longest);
    var n', h := ReadsSpells(msg, offs, n, |n|);
    SameNameLength(n', n);
    assert SpellsWithin(msg, offs, n', h);
    DecodeExact(msg, offs, sz, Wire(n'), |Written(calls, k)|);
  }

  // ----- how much is shared -----

  /** Label q of the name m stands as it is in the output w for m. */
  ghost predicate Stands(w: seq<byte>, m: Name, q: nat)
    requires q < |m|
  {
    Offset(m, q) < |w| && w[Offset(m, q)] == |m[q]|
  }

  predicate Bare(c: Choice) { c.longest > 0 && c.lrem == 0 }

  lemma BarePointer(m: Name, cb: seq<Compel>)
    requires ValidList(cb) && Bare(Choose(m, cb))
    ensures |Output(m, cb)| == 2 && Output(m, cb)[0] >= 0xc0
  {
    ChoiceFits(m, cb);
    assert Output(m, cb) == Wire(m)[..0] + PointerTo(Choose(m, cb).coffs);
  }

  lemma StandsNotBare(m: Name, cb: seq<Compel>, q: nat)
    requires ValidList(cb) && q < |m| && Stands(Output(m, cb), m, q)
    ensures !Bare(Choose(m, cb))
  {
    if Bare(Choose(m, cb)) { BarePointer(m, cb); }
  }

  lemma GrownIs(m: Name, cb: seq<Compel>, offs: nat)
    requires ValidList(cb) && !Bare(Choose(m, cb))
    ensures Grown(m, cb, offs) == cb + [Compel(offs, Wire(m))]
  {
  }

  /** What stands was not replaced by a pointer, so the name has been added to the list. */
  lemma StandingIsListed(m: Name, cb: seq<Compel>, offs: nat, q: nat)
    requires ValidList(cb) && q < |m| && Stands(Output(m, cb), m, q)
    ensures Grown(m, cb, offs) == cb + [Compel(offs, Wire(m))]
  {
    StandsNotBare(m, cb, q);
    GrownIs(m, cb, offs);
  }

  lemma {:induction false} ListGrows(calls: seq<Call>, j: nat)
    requires Short(calls) && j <= |calls|
    ensures Short(calls[..j]) && ListAfter(calls[..j]) <= ListAfter(calls)
  {
    if j < |calls| {
      var before := calls[..|calls| - 1];
      ListGrows(before, j);
      assert before[..j] == calls[..j];
    } else {
      assert calls[..j] == calls;
    }
  }

  /** The length of an output. */
  lemma OutputLength(n: Name, cb: seq<Compel>, p: nat, out: seq<byte>)
    requires ValidList(cb) && 0 < |n| - p <= Choose(n, cb).longest <= |n| && out == Output(n, cb)
    ensures |out| <= Offset(n, p) + 2
  {
    var p' := |n| - Choose(n, cb).longest;
    OutputParts(n, cb, p');
    OffsetMonotone(n, p', p);
  }

  /** What an element offers that ends like the name, from a label within reach on. */
  lemma OffersAtLeast(n: Name, e: Compel, m: Name, q: nat, p: nat)
    requires e.s == Wire(m) && p < |n| && q < |m| && SameName(m[q..], n[p..])
    ensures IsName(e.s) && Offer(n, e).longest >= |n| - p && Offer(n, e).coffs <= e.index + Offset(m, q)
  {
    NameOfWire(m);
    assert n[|n| - (|n| - p)..] == n[p..];
    MatchAtLeast(n, m, q, |n| - p);
    OffsetMonotone(m, |m| - MatchCount(n, m), q);
  }

  /** Such a name is written with no more than a pointer from there on. */
  lemma SharesElement(n: Name, cb: seq<Compel>, y: nat, m: Name, q: nat, p: nat)
    requires ValidList(cb) && y < |cb| && cb[y].s == Wire(m) && p < |n| && q < |m|
    requires SameName(m[q..], n[p..]) && cb[y].index + Offset(m, q) <= MAXOFFSET
    ensures |Output(n, cb)| <= Offset(n, p) + 2
  {
    OffersAtLeast(n, cb[y], m, q, p);
    ChooseMost(n, cb, y);
    ChoiceFits(n, cb);
    OutputLength(n, cb, p, Output(n, cb));
  }

  /** A name whose label q stands is in the list from then on, at place y. */
  lemma ListedFrom(calls: seq<Call>, j: nat, k: nat, q: nat) returns (y: nat)
    requires Short(calls) && j < k <= |calls| && q < |calls[j].name| && Stands(Written(calls, j), calls[j].name, q)
    ensures y < |ListAfter(calls[..k])| && ListAfter(calls[..k])[y] == Compel(calls[j].offs, Wire(calls[j].name))
  {
    y := |ListAfter(calls[..j])|;
    StandingIsListed(calls[j].name, ListAfter(calls[..j]), calls[j].offs, q);
    ListAfterStep(calls, j + 1);
    ListGrows(calls[..k], j + 1);
    assert calls[..k][..j + 1] == calls[..j + 1];
  }

  /** Main result: a name is compressed as far as anything allows that was written earlier. If a label
      stands in an earlier output, within reach of a pointer, and the names end alike from there on,
      then what is written for the later name is no longer than its own labels up to that point and
      a pointer. */
  lemma CompressesFully(calls: seq<Call>, j: nat, k: nat, q: nat, p: nat)
    requires Short(calls) && j < k < |calls| && q < |calls[j].name| && p < |calls[k].name|
    requires Stands(Written(calls, j), calls[j].name, q) && calls[j].offs + Offset(calls[j].name, q) <= 0x3fff
    requires SameName(calls[j].name[q..], calls[k].name[p..])
    ensures |Written(calls, k)| <= Offset(calls[k].name, p) + 2
  {
    var y := ListedFrom(calls, j, k, q);
    SharesElement(calls[k].name, ListAfter(calls[..k]), y, calls[j].name, q, p);
  }
}
