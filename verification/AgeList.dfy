/** pdnsd's list of RR sets by age (cache.c: insert_rrl, remove_rrl, listmerge, sort_rrl): a doubly
    linked list ordered by time stamp. */
module AgeList {

  /** A list entry (rr_lent_t). The time stamp is that of the RR set or the negative entry it stands for. */
  class Lent {
    const ts: int
    var next: Lent?
    var prev: Lent?

    constructor (ts: int)
      ensures this.ts == ts && next == null && prev == null
    {
      this.ts, next, prev := ts, null, null;
    }
  }

  // ----- lists of entries, as sequences -----

  ghost function Nodes(s: seq<Lent>): set<Lent> { set x | x in s }

  ghost predicate Distinct(s: seq<Lent>)
  {
    forall i, j :: 0 <= i < j < |s| ==> s[i] != s[j]
  }

  /** listmerge: the entries of p and q by time stamp, p's before q's if they are equal. */
  function Merge(done: seq<Lent>, p: seq<Lent>, q: seq<Lent>): seq<Lent>
    decreases |p| + |q|
  {
    if p == [] then done + q
    else if q == [] then done + p
    else if p[0].ts <= q[0].ts then Merge(done + [p[0]], p[1..], q)
    else Merge(done + [q[0]], p, q[1..])
  }

  lemma MergeEmpty(s: seq<Lent>)
    ensures Merge([], [], s) == s && Merge([], s, []) == s
  {
  }

  /** x comes before y: it is older, or of the same age and was before y to begin with. */
  predicate Lower(pos: map<Lent, nat>, x: Lent, y: Lent)
    requires x in pos && y in pos
  {
    x.ts < y.ts || (x.ts == y.ts && pos[x] < pos[y])
  }

  ghost predicate SortedRun(pos: map<Lent, nat>, s: seq<Lent>)
  {
    Nodes(s) <= pos.Keys && forall i, j :: 0 <= i < j < |s| ==> Lower(pos, s[i], s[j])
  }

  /** All of p was before all of q to begin with. */
  ghost predicate Precedes(pos: map<Lent, nat>, p: seq<Lent>, q: seq<Lent>)
  {
    Nodes(p) <= pos.Keys && Nodes(q) <= pos.Keys && forall x, y :: x in p && y in q ==> pos[x] < pos[y]
  }

  ghost predicate AllLower(pos: map<Lent, nat>, s: seq<Lent>, t: seq<Lent>)
    requires Nodes(s) <= pos.Keys && Nodes(t) <= pos.Keys
  {
    forall x, y :: x in s && y in t ==> Lower(pos, x, y)
  }

  lemma RestSorted(pos: map<Lent, nat>, s: seq<Lent>)
    requires SortedRun(pos, s) && s != []
    ensures SortedRun(pos, s[1..]) && AllLower(pos, [s[0]], s[1..])
  {
    assert forall x :: x in s[1..] ==> x in s;
  }

  lemma ExtendSorted(pos: map<Lent, nat>, s: seq<Lent>, t: seq<Lent>)
    requires SortedRun(pos, s) && SortedRun(pos, t) && AllLower(pos, s, t)
    ensures SortedRun(pos, s + t)
  {
    forall x | x in s + t ensures x in pos { assert x in s || x in t; }
  }

  /** A stable merge of two sorted runs is a sorted run, and of the same entries. */
  lemma {:induction false} MergeSorted(pos: map<Lent, nat>, done: seq<Lent>, p: seq<Lent>, q: seq<Lent>)
    requires SortedRun(pos, done) && SortedRun(pos, p) && SortedRun(pos, q) && Precedes(pos, p, q)
    requires AllLower(pos, done, p) && AllLower(pos, done, q)
    ensures SortedRun(pos, Merge(done, p, q))
    ensures Nodes(Merge(done, p, q)) == Nodes(done) + Nodes(p) + Nodes(q)
    ensures |Merge(done, p, q)| == |done| + |p| + |q|
    decreases |p| + |q|
  {
    if p == [] {
      ExtendSorted(pos, done, q);
    } else if q == [] {
      ExtendSorted(pos, done, p);
    } else if p[0].ts <= q[0].ts {
      MergeStep(pos, done, p, q);
      assert Nodes(p) == {p[0]} + Nodes(p[1..]);
      MergeSorted(pos, done + [p[0]], p[1..], q);
    } else {
      MergeStep(pos, done, q, p);
      assert Nodes(q) == {q[0]} + Nodes(q[1..]);
      MergeSorted(pos, done + [q[0]], p, q[1..]);
    }
  }

  /** Taking the first entry of p, which is lower than the first of q. */
  lemma MergeStep(pos: map<Lent, nat>, done: seq<Lent>, p: seq<Lent>, q: seq<Lent>)
    requires SortedRun(pos, done) && SortedRun(pos, p) && SortedRun(pos, q) && p != [] && q != []
    requires AllLower(pos, done, p) && AllLower(pos, done, q) && Lower(pos, p[0], q[0])
    ensures SortedRun(pos, done + [p[0]]) && SortedRun(pos, p[1..])
    ensures AllLower(pos, done + [p[0]], p[1..]) && AllLower(pos, done + [p[0]], q)
    ensures Nodes(done + [p[0]]) == Nodes(done) + {p[0]} && Nodes(p[1..]) <= Nodes(p)
  {
    RestSorted(pos, p);
    ExtendSorted(pos, done, [p[0]]);
    assert AllLower(pos, [p[0]], q) by {
      forall y | y in q ensures Lower(pos, p[0], y) {
        var j :| 0 <= j < |q| && q[j] == y;
        if j > 0 { assert Lower(pos, q[0], q[j]); }
      }
    }
  }

  /** There is only one such order: that of the time stamps, with entries of the same age in the
      order they had. */
  lemma {:induction false} SortedRunUnique(pos: map<Lent, nat>, s: seq<Lent>, t: seq<Lent>)
    requires SortedRun(pos, s) && SortedRun(pos, t) && Nodes(s) == Nodes(t)
    ensures s == t
  {
    assert t == [] || t[0] in Nodes(t);
    if s != [] {
      assert s[0] in Nodes(t);
      assert t != [] && t[0] in Nodes(s);
      var i :| 0 <= i < |t| && t[i] == s[0];
      var j :| 0 <= j < |s| && s[j] == t[0];
      assert s[0] == t[0];
      RestSorted(pos, s);
      RestSorted(pos, t);
      assert s[0] !in s[1..] && t[0] !in t[1..];
      assert Nodes(s[1..]) == Nodes(s) - {s[0]} && Nodes(t[1..]) == Nodes(t) - {t[0]};
      SortedRunUnique(pos, s[1..], t[1..]);
    }
  }

  /** Oldest first. */
  ghost predicate ByAge(s: seq<Lent>)
  {
    forall i, j :: 0 <= i < j < |s| ==> s[i].ts <= s[j].ts
  }

  /** The list with x inserted at k. */
  function Inserted(s: seq<Lent>, k: nat, x: Lent): seq<Lent>
    requires k <= |s|
  {
    s[..k] + [x] + s[k..]
  }

  function Dropped(s: seq<Lent>, k: nat): seq<Lent>
    requires k < |s|
  {
    s[..k] + s[k + 1..]
  }

  /** k is where an entry belongs: behind the last one that is not younger. */
  ghost predicate Place(s: seq<Lent>, k: nat, ts: int)
  {
    k <= |s| && (k > 0 ==> s[k - 1].ts <= ts) && forall j :: k <= j < |s| ==> s[j].ts > ts
  }

  /** Insertion at the right place keeps the order. */
  lemma InsertedByAge(s: seq<Lent>, k: nat, x: Lent)
    requires ByAge(s) && Place(s, k, x.ts)
    ensures ByAge(Inserted(s, k, x))
  {
    forall i | 0 <= i < k ensures s[i].ts <= x.ts { assert i < k - 1 ==> s[i].ts <= s[k - 1].ts; }
  }

  // ----- entries linked together -----

  ghost predicate Linked(s: seq<Lent>)
    reads Nodes(s)`next
  {
    forall i :: 0 <= i < |s| - 1 ==> s[i].next == s[i + 1]
  }

  /** p leads to the entries of s, and to no more. */
  ghost predicate Chain(p: Lent?, s: seq<Lent>)
    reads Nodes(s)`next
  {
    Distinct(s) && Linked(s) && if s == [] then p == null else p == s[0] && s[|s| - 1].next == null
  }

  ghost predicate BackOne(s: seq<Lent>, i: nat)
    requires i < |s|
    reads Nodes(s)`prev
  {
    s[i].prev == if i == 0 then null else s[i - 1]
  }

  ghost predicate Back(s: seq<Lent>)
    reads Nodes(s)`prev
  {
    forall i {:trigger BackOne(s, i)} :: 0 <= i < |s| ==> BackOne(s, i)
  }

  /** What has been put together so far: from l up to `last`. */
  ghost predicate Built(l: Lent?, last: Lent?, s: seq<Lent>)
    reads Nodes(s)`next
  {
    Linked(s) && if s == [] then last == null else l == s[0] && last == s[|s| - 1]
  }

  lemma RestChain(p: Lent?, s: seq<Lent>)
    requires Chain(p, s) && s != []
    ensures p != null && Chain(p.next, s[1..]) && s[0] == p && Nodes(s) == {p} + Nodes(s[1..]) && p !in s[1..]
  {
    forall i | 0 <= i < |s| - 1 ensures s[1..][i] == s[i + 1] {}
  }

  lemma Join(s: seq<Lent>, t: seq<Lent>)
    requires Linked(s) && Linked(t) && (s != [] && t != [] ==> s[|s| - 1].next == t[0])
    ensures Linked(s + t)
  {
    forall i | 0 <= i < |s + t| - 1 ensures (s + t)[i].next == (s + t)[i + 1] {
      if i >= |s| { assert t[i - |s|].next == t[i - |s| + 1]; }
    }
  }

  lemma DistinctJoin(s: seq<Lent>, t: seq<Lent>)
    requires Distinct(s) && Distinct(t) && Nodes(s) !! Nodes(t)
    ensures Distinct(s + t)
  {
    forall i, j | 0 <= i < j < |s + t| ensures (s + t)[i] != (s + t)[j] {
      if i < |s| <= j { assert s[i] in Nodes(s) && t[j - |s|] in Nodes(t); }
    }
  }

  /** *s = x in listmerge: x becomes the first entry or the successor of `last`. */
  method SetLink(l: Lent?, last: Lent?, x: Lent?, ghost done: seq<Lent>, ghost xs: seq<Lent>) returns (l': Lent?)
    requires Built(l, last, done) && Distinct(done) && Chain(x, xs) && Nodes(done) !! Nodes(xs)
    modifies (if last == null then {} else {last})`next
    ensures Chain(x, xs) && Linked(done + xs) && (done + xs != [] ==> l' == (done + xs)[0])
  {
    if last == null {
      l' := x;
    } else {
      l' := l;
      last.next := x;
    }
    assert last != null ==> last in Nodes(done);
    Join(done, xs);
  }

  /** Move the first entry of xs to what has been put together. */
  method Take(l: Lent?, last: Lent?, x: Lent, ghost done: seq<Lent>, ghost xs: seq<Lent>) returns (l': Lent?, rest: Lent?)
    requires Built(l, last, done) && Distinct(done) && Chain(x, xs) && Nodes(done) !! Nodes(xs) && xs != []
    modifies (if last == null then {} else {last})`next
    ensures Built(l', x, done + [x]) && Distinct(done + [x]) && Chain(rest, xs[1..])
    ensures x == xs[0] && Nodes(xs) == {x} + Nodes(xs[1..]) && x !in xs[1..]
  {
    l' := SetLink(l, last, x, done, xs);
    rest := x.next;
    RestChain(x, xs);
    DistinctJoin(done, [x]);
    assert done + xs == done + [x] + xs[1..];
    forall i | 0 <= i < |done + [x]| - 1 ensures (done + [x])[i].next == (done + [x])[i + 1] {
      assert (done + xs)[i].next == (done + xs)[i + 1];
    }
  }

  /** What is left of the other list follows. */
  method Finish(l: Lent?, last: Lent?, x: Lent?, ghost done: seq<Lent>, ghost xs: seq<Lent>) returns (l': Lent?)
    requires Built(l, last, done) && Distinct(done) && Chain(x, xs) && Nodes(done) !! Nodes(xs) && xs != []
    modifies (if last == null then {} else {last})`next
    ensures Chain(l', done + xs)
  {
    l' := SetLink(l, last, x, done, xs);
    DistinctJoin(done, xs);
  }

  /** What has been merged, and what is left of the two lists. */
  datatype Parts = Parts(done: seq<Lent>, ps: seq<Lent>, qs: seq<Lent>)

  ghost function All(m: Parts): set<Lent> { Nodes(m.done) + Nodes(m.ps) + Nodes(m.qs) }

  ghost predicate Merging(l: Lent?, last: Lent?, p: Lent?, q: Lent?, m: Parts)
    reads All(m)`next
  {
    match m
    case Parts(done, ps, qs) =>
      Chain(p, ps) && Chain(q, qs) && Built(l, last, done) && Distinct(done) &&
      Nodes(done) !! Nodes(ps) && Nodes(done) !! Nodes(qs) && Nodes(ps) !! Nodes(qs)
  }

  function Merged(m: Parts): seq<Lent> { Merge(m.done, m.ps, m.qs) }

  /** listmerge: two sorted lists become one, in place. */
  method ListMerge(p0: Lent?, q0: Lent?, ghost ps0: seq<Lent>, ghost qs0: seq<Lent>) returns (l: Lent?)
    requires Chain(p0, ps0) && Chain(q0, qs0) && Nodes(ps0) !! Nodes(qs0)
    modifies (Nodes(ps0) + Nodes(qs0))`next
    ensures Chain(l, Merge([], ps0, qs0))
  {
    MergeEmpty(ps0);
    MergeEmpty(qs0);
    if p0 == null {
      assert ps0 == [];
      l := q0;
    } else if q0 == null {
      assert qs0 == [];
      l := p0;
    } else {
      l := MergeLoop(p0, q0, ps0, qs0);
    }
  }

  /** listmerge for two lists that are not empty. */
  method MergeLoop(p0: Lent, q0: Lent, ghost ps0: seq<Lent>, ghost qs0: seq<Lent>) returns (l: Lent?)
    requires Chain(p0, ps0) && Chain(q0, qs0) && Nodes(ps0) !! Nodes(qs0)
    modifies (Nodes(ps0) + Nodes(qs0))`next
    ensures Chain(l, Merge([], ps0, qs0))
  {
    var p: Lent?, q: Lent?, last: Lent? := p0, q0, null;
    l := null;
    ghost var m := Parts([], ps0, qs0);
    while true
      invariant p != null && q != null && Merging(l, last, p, q, m) && All(m) == Nodes(ps0) + Nodes(qs0)
      invariant Merged(m) == Merge([], ps0, qs0)
      decreases |m.ps| + |m.qs|
    {
      assert last != null ==> last in All(m);
      if p.ts <= q.ts {
        last, l, p, m := MoveFirst(l, last, p, q, m);
        if p == null {
          l := Finish(l, last, q, m.done, m.qs);
          break;
        }
      } else {
        last, l, q, m := MoveSecond(l, last, p, q, m);
        if q == null {
          l := Finish(l, last, p, m.done, m.ps);
          break;
        }
      }
    }
  }

  /** One turn of listmerge's loop, up to the test for the end of the list. */
  method MoveOne(l: Lent?, last: Lent?, x: Lent, ghost y: Lent, ghost m: Parts)
      returns (last': Lent?, l': Lent?, rest: Lent?, ghost m': Parts)
    requires Merging(l, last, x, y, m)
    modifies (if last == null then {} else {last})`next
    ensures x == last' == m.ps[0] && y == m.qs[0] && m' == Parts(m.done + [x], m.ps[1..], m.qs)
    ensures Merging(l', last', rest, y, m') && All(m') == All(m)
  {
    l', rest := Take(l, last, x, m.done, m.ps);
    last', m' := x, Parts(m.done + [x], m.ps[1..], m.qs);
    assert Nodes(m'.done) == Nodes(m.done) + {x};
  }

  /** ... for the first list */
  method MoveFirst(l: Lent?, last: Lent?, p: Lent, q: Lent, ghost m: Parts)
      returns (last': Lent?, l': Lent?, rest: Lent?, ghost m': Parts)
    requires Merging(l, last, p, q, m) && p.ts <= q.ts
    modifies All(m)`next
    ensures Merging(l', last', rest, q, m') && All(m') == All(m) && Merged(m') == Merged(m)
    ensures |m'.ps| + |m'.qs| < |m.ps| + |m.qs| && (rest == null ==> Merged(m') == m'.done + m'.qs && m'.qs != [])
  {
    assert last != null ==> last in Nodes(m.done);
    last', l', rest, m' := MoveOne(l, last, p, q, m);
  }

  /** ... and for the second list. */
  method MoveSecond(l: Lent?, last: Lent?, p: Lent, q: Lent, ghost m: Parts)
      returns (last': Lent?, l': Lent?, rest: Lent?, ghost m': Parts)
    requires Merging(l, last, p, q, m) && p.ts > q.ts
    modifies All(m)`next
    ensures Merging(l', last', p, rest, m') && All(m') == All(m) && Merged(m') == Merged(m)
    ensures |m'.ps| + |m'.qs| < |m.ps| + |m.qs| && (rest == null ==> Merged(m') == m'.done + m'.ps && m'.ps != [])
  {
    assert last != null ==> last in Nodes(m.done);
    last', l', rest, m' := MoveOne(l, last, q, p, Parts(m.done, m.qs, m.ps));
    m' := Parts(m'.done, m'.qs, m'.ps);
  }

  // ----- the binary counter of sort_rrl, on values -----

  function Pow2(i: nat): nat { if i == 0 then 1 else 2 * Pow2(i - 1) }

  type Runs = seq<seq<Lent>>

  ghost function Union(runs: Runs): set<Lent>
  {
    if runs == [] then {} else Union(runs[..|runs| - 1]) + Nodes(runs[|runs| - 1])
  }

  function Total(runs: Runs): nat
  {
    if runs == [] then 0 else Total(runs[..|runs| - 1]) + |runs[|runs| - 1]|
  }

  lemma {:induction false} Emptying(runs: Runs, i: nat)
    requires i < |runs|
    ensures Total(runs[i := []]) == Total(runs) - |runs[i]|
    ensures Union(runs[i := []]) + Nodes(runs[i]) == Union(runs)
  {
    var m := |runs| - 1;
    if i < m {
      Emptying(runs[..m], i);
      assert runs[i := []][..m] == runs[..m][i := []];
    } else {
      assert runs[i := []][..m] == runs[..m];
    }
  }

  lemma {:induction false} Filling(runs: Runs, i: nat, r: seq<Lent>)
    requires i < |runs| && runs[i] == []
    ensures Total(runs[i := r]) == Total(runs) + |r| && Union(runs[i := r]) == Union(runs) + Nodes(r)
  {
    var m := |runs| - 1;
    if i < m {
      Filling(runs[..m], i, r);
      assert runs[i := r][..m] == runs[..m][i := r];
    } else {
      assert runs[i := r][..m] == runs[..m];
    }
  }

  /** Slot i is empty or holds a sorted run of 2^i entries. */
  ghost predicate SlotOk(pos: map<Lent, nat>, runs: Runs, i: nat)
    requires i < |runs|
  {
    SortedRun(pos, runs[i]) && (runs[i] == [] || |runs[i]| == Pow2(i))
  }

  /** The slots, and the run that is carried past the slots below c. */
  datatype Counter = Counter(runs: Runs, carry: seq<Lent>, c: nat)

  ghost predicate InTurn(pos: map<Lent, nat>, runs: Runs, i: nat, j: nat)
    requires i < j < |runs|
  {
    Precedes(pos, runs[j], runs[i])
  }

  ghost predicate BeforeCarry(pos: map<Lent, nat>, runs: Runs, carry: seq<Lent>, j: nat)
    requires j < |runs|
  {
    Precedes(pos, runs[j], carry)
  }

  /** The runs are made of the entries of `all`; those in higher slots were before those in lower ones,
      and these before those that are carried. */
  ghost predicate Gathering(pos: map<Lent, nat>, k: Counter, all: seq<Lent>)
  {
    match k
    case Counter(runs, carry, c) =>
      c <= |runs| && SortedRun(pos, carry) &&
      (forall i {:trigger SlotOk(pos, runs, i)} :: 0 <= i < |runs| ==> SlotOk(pos, runs, i)) &&
      (forall i :: 0 <= i < c ==> runs[i] == []) &&
      (forall i, j {:trigger InTurn(pos, runs, i, j)} :: 0 <= i < j < |runs| ==> InTurn(pos, runs, i, j)) &&
      (forall j {:trigger BeforeCarry(pos, runs, carry, j)} :: 0 <= j < |runs| ==> BeforeCarry(pos, runs, carry, j)) &&
      Union(runs) + Nodes(carry) == Nodes(all) && Total(runs) + |carry| == |all|
  }

  /** The same, taken as a whole. */
  ghost predicate Gathers(pos: map<Lent, nat>, k: Counter, all: seq<Lent>)
  {
    var ok := Gathering(pos, k, all);
    ok
  }

  lemma {:induction false} InUnion(runs: Runs, i: nat)
    requires i < |runs|
    ensures Nodes(runs[i]) <= Union(runs)
  {
    var m := |runs| - 1;
    if i < m {
      InUnion(runs[..m], i);
    }
  }

  lemma StartCarry(pos: map<Lent, nat>, runs: Runs, all: seq<Lent>, x: Lent)
    requires Gathering(pos, Counter(runs, [], 0), all) && x in pos && forall y :: y in all ==> y in pos && pos[y] < pos[x]
    ensures Gathering(pos, Counter(runs, [x], 0), all + [x])
  {
    forall j | 0 <= j < |runs| ensures BeforeCarry(pos, runs, [x], j) {
      InUnion(runs, j);
      assert SlotOk(pos, runs, j);
      assert forall y :: y in runs[j] ==> y in Nodes(runs[j]);
    }
    assert Nodes(all + [x]) == Nodes(all) + {x};
  }

  lemma GatherStep(pos: map<Lent, nat>, runs: Runs, carry: seq<Lent>, c: nat, all: seq<Lent>)
    requires Gathering(pos, Counter(runs, carry, c), all) && c < |runs|
    ensures Gathering(pos, Counter(runs[c := []], Merge([], runs[c], carry), c + 1), all)
    ensures |Merge([], runs[c], carry)| == |runs[c]| + |carry|
  {
    var runs', carry' := runs[c := []], Merge([], runs[c], carry);
    assert SlotOk(pos, runs, c) && BeforeCarry(pos, runs, carry, c);
    MergeSorted(pos, [], runs[c], carry);
    Emptying(runs, c);
    forall i | 0 <= i < |runs| ensures SlotOk(pos, runs', i) { assert SlotOk(pos, runs, i); }
    forall i, j | 0 <= i < j < |runs| ensures InTurn(pos, runs', i, j) { assert InTurn(pos, runs, i, j); }
    forall j | 0 <= j < |runs| ensures BeforeCarry(pos, runs', carry', j) {
      if j > c {
        assert InTurn(pos, runs, c, j) && BeforeCarry(pos, runs, carry, j);
        PrecedesUnion(pos, runs[j], runs[c], carry, carry');
      }
    }
  }

  lemma PrecedesUnion(pos: map<Lent, nat>, p: seq<Lent>, q: seq<Lent>, r: seq<Lent>, qr: seq<Lent>)
    requires Precedes(pos, p, q) && Precedes(pos, p, r) && Nodes(qr) == Nodes(q) + Nodes(r)
    ensures Precedes(pos, p, qr)
  {
    forall y | y in qr ensures y in q || y in r { assert y in Nodes(qr); }
  }

  /** No entry is in two runs. */
  lemma RunsApart(pos: map<Lent, nat>, runs: Runs, carry: seq<Lent>, c: nat, all: seq<Lent>)
    requires Gathering(pos, Counter(runs, carry, c), all)
    ensures forall i, j :: 0 <= i < |runs| && 0 <= j < |runs| && i != j ==> Nodes(runs[i]) !! Nodes(runs[j])
    ensures forall i :: 0 <= i < |runs| ==> Nodes(runs[i]) !! Nodes(carry) && Nodes(runs[i]) <= Nodes(all)
  {
    forall i, j | 0 <= i < j < |runs| ensures Nodes(runs[i]) !! Nodes(runs[j]) {
      assert InTurn(pos, runs, i, j);
    }
    forall i | 0 <= i < |runs| ensures Nodes(runs[i]) !! Nodes(carry) && Nodes(runs[i]) <= Nodes(all) {
      InUnion(runs, i);
      assert BeforeCarry(pos, runs, carry, i);
    }
  }

  lemma {:induction false} AllEmpty(runs: Runs)
    requires forall i :: 0 <= i < |runs| ==> runs[i] == []
    ensures Union(runs) == {} && Total(runs) == 0
  {
    if runs != [] {
      AllEmpty(runs[..|runs| - 1]);
    }
  }

  /** The runs with one more in slot c. */
  ghost function Stored(runs: Runs, c: nat, carry: seq<Lent>): (r: Runs)
    requires c <= |runs|
    ensures |r| == if c == |runs| then c + 1 else |runs|
    ensures r[c] == carry && forall i :: 0 <= i < |runs| && i != c ==> r[i] == runs[i]
  {
    if c == |runs| then runs + [carry] else runs[c := carry]
  }

  lemma StoredUnion(runs: Runs, c: nat, carry: seq<Lent>)
    requires c <= |runs| && (c == |runs| || runs[c] == [])
    ensures var r := Stored(runs, c, carry); Union(r) == Union(runs) + Nodes(carry) && Total(r) == Total(runs) + |carry|
  {
    if c == |runs| {
      assert (runs + [carry])[..|runs|] == runs;
    } else {
      Filling(runs, c, carry);
    }
  }

  lemma CarryEnds(pos: map<Lent, nat>, runs: Runs, carry: seq<Lent>, c: nat, all: seq<Lent>)
    requires Gathering(pos, Counter(runs, carry, c), all) && |carry| == Pow2(c) && (c == |runs| || runs[c] == [])
    ensures Gathering(pos, Counter(Stored(runs, c, carry), [], 0), all)
  {
    var runs' := Stored(runs, c, carry);
    StoredUnion(runs, c, carry);
    forall i | 0 <= i < |runs'| ensures SlotOk(pos, runs', i) {
      assert i != c ==> SlotOk(pos, runs, i);
    }
    forall i, j | 0 <= i < j < |runs'| ensures InTurn(pos, runs', i, j) {
      if i == c {
        assert BeforeCarry(pos, runs, carry, j);
      } else if j != c {
        assert InTurn(pos, runs, i, j);
      }
    }
    forall j | 0 <= j < |runs'| ensures BeforeCarry(pos, runs', [], j) { assert SlotOk(pos, runs', j); }
  }

  lemma CarryStarts(pos: map<Lent, nat>, runs: Runs, all: seq<Lent>)
    requires Gathering(pos, Counter(runs, [], 0), all) && runs != []
    ensures Gathering(pos, Counter(runs[0 := []], runs[0], 1), all)
  {
    assert SlotOk(pos, runs, 0);
    Emptying(runs, 0);
    var runs' := runs[0 := []];
    forall i | 0 <= i < |runs| ensures SlotOk(pos, runs', i) { assert SlotOk(pos, runs, i); }
    forall i, j | 0 <= i < j < |runs| ensures InTurn(pos, runs', i, j) { assert InTurn(pos, runs, i, j); }
    forall j | 0 <= j < |runs| ensures BeforeCarry(pos, runs', runs[0], j) {
      if j > 0 { assert InTurn(pos, runs, 0, j); }
    }
  }

  // ----- sort_rrl -----

  const NTMPSORT := 32

  ghost function InSlots(runs: Runs): set<Lent> { set i, x | 0 <= i < |runs| && x in runs[i] :: x }

  /** The slots from `from` on hold the runs. */
  ghost predicate SlotsHold(tmp: array<Lent?>, runs: Runs, from: nat)
    reads tmp, InSlots(runs)`next
  {
    |runs| <= tmp.Length && forall i :: from <= i < |runs| ==> SlotHolds(tmp[i], runs[i])
  }

  ghost predicate SlotHolds(p: Lent?, s: seq<Lent>)
    reads Nodes(s)`next
  {
    Chain(p, s)
  }

  /** The slots from `from` on hold the runs, and `carry` the run that is carried. */
  ghost predicate Holds(tmp: array<Lent?>, carry: Lent?, k: Counter, from: nat)
    reads tmp, InSlots(k.runs)`next, Nodes(k.carry)`next
  {
    match k case Counter(runs, cs, c) => SlotsHold(tmp, runs, from) && Chain(carry, cs)
  }

  /** carry = listmerge(*counter, carry). The slot itself is out of date then. */
  method MergeSlot(tmp: array<Lent?>, c: nat, carry: Lent?, ghost pos: map<Lent, nat>, ghost k: Counter, ghost all: seq<Lent>, ghost from: nat)
      returns (carry': Lent?, ghost k': Counter)
    requires Holds(tmp, carry, k, from) && Gathers(pos, k, all) && from <= c == k.c < |k.runs|
    modifies Nodes(all)`next
    ensures k'.c == c + 1 && |k'.runs| == |k.runs| && |k'.carry| == |k.runs[c]| + |k.carry| && k'.runs[c] == []
    ensures forall i :: from <= i < |k'.runs| && i != c ==> SlotHolds(tmp[i], k'.runs[i])
    ensures Chain(carry', k'.carry) && Gathers(pos, k', all)
  {
    ghost var runs, cs := k.runs, k.carry;
    GatherStep(pos, runs, cs, c, all);
    RunsApart(pos, runs, cs, c, all);
    assert SlotHolds(tmp[c], runs[c]);
    carry' := ListMerge(tmp[c], carry, runs[c], cs);
    k' := Counter(runs[c := []], Merge([], runs[c], cs), c + 1);
    forall i | from <= i < |runs| && i != c ensures SlotHolds(tmp[i], k'.runs[i]) {
      assert old(SlotHolds(tmp[i], runs[i]));
    }
  }

  /** The run that is carried to slot c has 2^c entries. */
  ghost predicate Full(k: Counter)
  {
    match k case Counter(_, cs, c) => |cs| == Pow2(c)
  }

  /** ... and *counter = NULL. */
  method CarryOne(tmp: array<Lent?>, c: nat, carry: Lent?, ghost pos: map<Lent, nat>, ghost k: Counter, ghost all: seq<Lent>)
      returns (carry': Lent?, ghost k': Counter)
    requires Holds(tmp, carry, k, 0) && Gathers(pos, k, all) && c == k.c < |k.runs| && tmp[c] != null && Full(k)
    modifies tmp, Nodes(all)`next
    ensures k'.c == c + 1 && |k'.runs| == |k.runs| && Full(k')
    ensures Holds(tmp, carry', k', 0) && Gathers(pos, k', all)
  {
    FullSlot(tmp, carry, pos, k, all);
    carry', k' := MergeSlot(tmp, c, carry, pos, k, all, 0);
    ClearSlot(tmp, c, carry', k');
  }

  method ClearSlot(tmp: array<Lent?>, c: nat, ghost carry: Lent?, ghost k: Counter)
    requires c < |k.runs| <= tmp.Length && k.runs[c] == [] && Chain(carry, k.carry)
    requires forall i :: 0 <= i < |k.runs| && i != c ==> SlotHolds(tmp[i], k.runs[i])
    modifies tmp
    ensures Holds(tmp, carry, k, 0)
  {
    tmp[c] := null;
    assert SlotHolds(null, []);
  }

  lemma FullSlot(tmp: array<Lent?>, carry: Lent?, pos: map<Lent, nat>, k: Counter, all: seq<Lent>)
    requires Holds(tmp, carry, k, 0) && Gathers(pos, k, all) && k.c < |k.runs| && Full(k)
    ensures tmp[k.c] != null ==> |k.runs[k.c]| + |k.carry| == Pow2(k.c + 1)
    ensures tmp[k.c] == null ==> k.runs[k.c] == []
  {
    assert SlotHolds(tmp[k.c], k.runs[k.c]) && SlotOk(pos, k.runs, k.c);
  }

  /** The inner loop of sort_rrl: merge runs of equal length, up to the first slot that is empty. */
  method CarryUp(tmp: array<Lent?>, fill: nat, carry0: Lent?, ghost pos: map<Lent, nat>, ghost k0: Counter, ghost all: seq<Lent>)
      returns (counter: nat, carry: Lent?, ghost k: Counter)
    requires fill == |k0.runs| <= tmp.Length && Holds(tmp, carry0, k0, 0) && Gathers(pos, k0, all)
    requires k0.c == 0 && Full(k0)
    modifies tmp, Nodes(all)`next
    ensures k.c == counter <= |k.runs| == fill && (counter < fill ==> k.runs[counter] == [])
    ensures Holds(tmp, carry, k, 0) && Gathers(pos, k, all) && Full(k)
  {
    counter, carry, k := 0, carry0, k0;
    while counter != fill && tmp[counter] != null
      invariant k.c == counter <= |k.runs| == fill
      invariant Holds(tmp, carry, k, 0) && Gathers(pos, k, all) && Full(k)
    {
      carry, k := CarryOne(tmp, counter, carry, pos, k, all);
      counter := counter + 1;
    }
    if counter < fill { FullSlot(tmp, carry, pos, k, all); }
  }

  /** Between two entries nothing is carried. */
  ghost predicate Settled(tmp: array<Lent?>, fill: nat, pos: map<Lent, nat>, k: Counter, all: seq<Lent>)
    reads tmp, InSlots(k.runs)`next, Nodes(k.carry)`next
  {
    k.carry == [] && k.c == 0 && fill == |k.runs| <= tmp.Length == NTMPSORT && Holds(tmp, null, k, 0) && Gathers(pos, k, all)
  }

  lemma CarryFirst(tmp: array<Lent?>, fill: nat, x: Lent, pos: map<Lent, nat>, k: Counter, all: seq<Lent>) returns (k1: Counter)
    requires Settled(tmp, fill, pos, k, all) && Chain(x, [x])
    requires x in pos && forall y :: y in all ==> y in pos && pos[y] < pos[x]
    ensures k1.runs == k.runs && k1.c == 0 && Holds(tmp, x, k1, 0) && Gathers(pos, k1, all + [x]) && Full(k1)
  {
    StartCarry(pos, k.runs, all, x);
    k1 := Counter(k.runs, [x], 0);
  }

  /** The body of sort_rrl's first loop: one entry more. */
  method AddEntry(tmp: array<Lent?>, fill: nat, x: Lent, ghost pos: map<Lent, nat>, ghost k: Counter, ghost all: seq<Lent>)
      returns (fill': nat, ghost k': Counter)
    requires Settled(tmp, fill, pos, k, all) && Chain(x, [x])
    requires x in pos && (forall y :: y in all ==> y in pos && pos[y] < pos[x]) && |all| + 1 < Pow2(NTMPSORT)
    modifies tmp, Nodes(all + [x])`next
    ensures Settled(tmp, fill', pos, k', all + [x]) && fill' > 0
  {
    var counter, carry;
    ghost var k1 := CarryFirst(tmp, fill, x, pos, k, all);
    counter, carry, k1 := CarryUp(tmp, fill, x, pos, k1, all + [x]);
    CarryEnds(pos, k1.runs, k1.carry, counter, all + [x]);
    CarrySize(pos, k1, all + [x]);
    NoOverflow(counter, |all| + 1);
    k' := PlaceRun(tmp, counter, carry, k1);
    fill' := if counter == fill then fill + 1 else fill;
  }

  lemma CarrySize(pos: map<Lent, nat>, k: Counter, all: seq<Lent>)
    requires Gathers(pos, k, all) && Full(k)
    ensures Pow2(k.c) <= |all|
  {
  }

  /** tmp does not overflow. */
  lemma NoOverflow(c: nat, n: nat)
    requires Pow2(c) <= n < Pow2(NTMPSORT)
    ensures c < NTMPSORT
  {
    if c >= NTMPSORT { Pow2Grows(NTMPSORT, c); }
  }

  lemma {:induction false} Pow2Grows(i: nat, j: nat)
    requires i <= j
    ensures Pow2(i) <= Pow2(j)
  {
    if i < j { Pow2Grows(i, j - 1); }
  }

  /** *counter = carry. */
  method PlaceRun(tmp: array<Lent?>, c: nat, carry: Lent?, ghost k: Counter) returns (ghost k': Counter)
    requires Holds(tmp, carry, k, 0) && c == k.c <= |k.runs| && c < tmp.Length
    modifies tmp
    ensures k' == Counter(Stored(k.runs, c, k.carry), [], 0)
    ensures Holds(tmp, null, k', 0)
  {
    tmp[c] := carry;
    k' := Counter(Stored(k.runs, c, k.carry), [], 0);
    forall i | 0 <= i < |k'.runs| ensures SlotHolds(tmp[i], k'.runs[i]) {
      if i != c { assert old(SlotHolds(tmp[i], k.runs[i])); }
    }
  }

  /** Where each entry of a list is. */
  ghost predicate IsPositions(pos: map<Lent, nat>, all: seq<Lent>)
  {
    pos.Keys == Nodes(all) && forall i :: 0 <= i < |all| ==> all[i] in pos && pos[all[i]] == i
  }

  /** Take the first entry off the list that is still to be sorted. */
  method Detach(tmp: array<Lent?>, fill: nat, rem: Lent, ghost pos: map<Lent, nat>, ghost k: Counter, ghost all: seq<Lent>, ghost n: nat)
      returns (rest: Lent?)
    requires n < |all| && Distinct(all) && Chain(rem, all[n..]) && Settled(tmp, fill, pos, k, all[..n])
    modifies rem`next
    ensures rem == all[n] && Chain(rem, [rem]) && Chain(rest, all[n + 1..]) && Settled(tmp, fill, pos, k, all[..n])
  {
    RunsApart(pos, k.runs, [], 0, all[..n]);
    RestChain(rem, all[n..]);
    assert all[n..][1..] == all[n + 1..] && all[n] !in all[..n];
    rest := rem.next;
    rem.next := null;
    forall i | 0 <= i < |k.runs| ensures SlotHolds(tmp[i], k.runs[i]) {
      assert old(SlotHolds(tmp[i], k.runs[i])) && rem !in Nodes(k.runs[i]);
    }
  }

  /** sort_rrl's first loop: put all entries into the slots. */
  method FillSlots(tmp: array<Lent?>, first: Lent, ghost pos: map<Lent, nat>, ghost all: seq<Lent>)
      returns (fill: nat, ghost k: Counter)
    requires tmp.Length == NTMPSORT && Chain(first, all) && all != [] && IsPositions(pos, all) && |all| < Pow2(NTMPSORT)
    modifies tmp, Nodes(all)`next
    ensures fill > 0 && Settled(tmp, fill, pos, k, all)
  {
    fill, k := 0, Counter([], [], 0);
    var rem: Lent? := first;
    ghost var n: nat := 0;
    assert all[..0] == [] && all[0..] == all;
    while true
      invariant n < |all| && Chain(rem, all[n..]) && rem != null && Settled(tmp, fill, pos, k, all[..n])
      decreases |all| - n
    {
      fill, rem, k := FillOne(tmp, fill, rem, pos, k, all, n);
      n := n + 1;
      if rem == null { break; }
    }
    assert n == |all| && all[..n] == all;
  }

  method FillOne(tmp: array<Lent?>, fill: nat, carry: Lent, ghost pos: map<Lent, nat>, ghost k: Counter, ghost all: seq<Lent>, ghost n: nat)
      returns (fill': nat, rem: Lent?, ghost k': Counter)
    requires n < |all| && IsPositions(pos, all) && |all| < Pow2(NTMPSORT) && Distinct(all)
    requires Chain(carry, all[n..]) && Settled(tmp, fill, pos, k, all[..n])
    modifies tmp, Nodes(all)`next
    ensures Chain(rem, all[n + 1..]) && fill' > 0 && Settled(tmp, fill', pos, k', all[..n + 1])
  {
    SplitAt(all, n);
    rem := Detach(tmp, fill, carry, pos, k, all, n);
    fill', k' := AddEntry(tmp, fill, carry, pos, k, all[..n]);
  }

  lemma SplitAt(all: seq<Lent>, n: nat)
    requires Distinct(all) && n < |all|
    ensures all[..n] + [all[n]] == all[..n + 1] && Nodes(all[..n + 1]) <= Nodes(all)
    ensures Nodes(all[..n + 1]) !! Nodes(all[n + 1..]) && all[n] !in all[..n] && all[n] !in all[n + 1..]
  {
  }

  /** sort_rrl's second loop: merge what is in the slots. */
  method MergeSlots(tmp: array<Lent?>, fill: nat, ghost pos: map<Lent, nat>, ghost k0: Counter, ghost all: seq<Lent>)
      returns (carry: Lent?, ghost cs: seq<Lent>)
    requires fill > 0 && Settled(tmp, fill, pos, k0, all)
    modifies tmp, Nodes(all)`next
    ensures Chain(carry, cs) && SortedRun(pos, cs) && Nodes(cs) == Nodes(all) && |cs| == |all|
  {
    assert SlotHolds(tmp[0], k0.runs[0]);
    carry := tmp[0];
    CarryStarts(pos, k0.runs, all);
    ghost var k := Counter(k0.runs[0 := []], k0.runs[0], 1);
    var counter := 1;
    while counter != fill
      invariant k.c == counter <= |k.runs| == fill && Holds(tmp, carry, k, counter) && Gathers(pos, k, all)
    {
      carry, k := MergeSlot(tmp, counter, carry, pos, k, all, counter);
      counter := counter + 1;
    }
    AllEmpty(k.runs);
    cs := k.carry;
  }

  /** sort_rrl, but for the back links. */
  method SortLinks(first: Lent, ghost pos: map<Lent, nat>, ghost all: seq<Lent>) returns (l: Lent?, ghost cs: seq<Lent>)
    requires Chain(first, all) && IsPositions(pos, all) && |all| < Pow2(NTMPSORT)
    modifies Nodes(all)`next
    ensures Chain(l, cs) && SortedRun(pos, cs) && Nodes(cs) == Nodes(all) && |cs| == |all|
  {
    var tmp := new Lent?[NTMPSORT];
    var fill;
    ghost var k;
    fill, k := FillSlots(tmp, first, pos, all);
    l, cs := MergeSlots(tmp, fill, pos, k, all);
  }

  lemma SecondEntry(p: Lent?, s: seq<Lent>)
    requires Chain(p, s) && |s| > 1
    ensures p != null && p.next == s[1]
  {
    assert s[0].next == s[1];
  }

  class RrlList {
    var first: Lent?
    var last: Lent?
    ghost var entries: seq<Lent>

    constructor ()
      ensures Valid() && entries == []
    {
      first, last, entries := null, null, [];
    }

    /** The list and its back links. */
    ghost predicate Valid()
      reads this, Nodes(entries)`next, Nodes(entries)`prev
    {
      Chain(first, entries) && Back(entries) && last == if entries == [] then null else entries[|entries| - 1]
    }

    /** sort_rrl: a stable sort by time stamp. The list must be shorter than 2^32. */
    method SortRrl(ghost pos: map<Lent, nat>)
      requires Valid() && IsPositions(pos, entries) && |entries| < Pow2(NTMPSORT)
      modifies this, Nodes(entries)`next, Nodes(entries)`prev
      ensures Valid() && SortedRun(pos, entries)
      ensures Nodes(entries) == old(Nodes(entries)) && |entries| == |old(entries)|
    {
      if |entries| > 1 { SecondEntry(first, entries); }
      if first != null && first.next != null {
        var l;
        ghost var cs;
        l, cs := SortLinks(first, pos, entries);
        first, entries := l, cs;
        RestoreBack();
      }
    }

    /** Restore the backward links. */
    method RestoreBack()
      requires Chain(first, entries)
      modifies this`last, Nodes(entries)`prev
      ensures Valid()
    {
      var p, q: Lent? := first, null;
      ghost var n := 0;
      while p != null
        invariant 0 <= n <= |entries| && p == (if n < |entries| then entries[n] else null)
        invariant q == if n == 0 then null else entries[n - 1]
        invariant forall i {:trigger BackOne(entries, i)} :: 0 <= i < n ==> BackOne(entries, i)
        decreases |entries| - n
      {
        assert n + 1 < |entries| ==> p.next == entries[n + 1];
        label Before:
        p.prev := q;
        forall i | 0 <= i < n + 1 ensures BackOne(entries, i) {
          if i < n { assert old@Before(BackOne(entries, i)) && entries[i] != entries[n]; }
        }
        q := p;
        p := p.next;
        n := n + 1;
      }
      last := q;
    }

    /** insert_rrl, for an entry that has been made already. */
    method InsertRrl(ne: Lent, insertSort: bool) returns (ghost k: nat)
      requires Valid() && ne !in entries
      modifies this, Nodes(entries)`next, Nodes(entries)`prev, ne
      ensures Valid() && k <= |old(entries)| && entries == Inserted(old(entries), k, ne)
      ensures if insertSort then Place(old(entries), k, ne.ts) else k == |old(entries)|
    {
      k := |entries|;
      var le := last;
      if insertSort {
        while le != null && ne.ts < le.ts
          invariant k <= |entries| && le == if k == 0 then null else entries[k - 1]
          invariant forall j :: k <= j < |entries| ==> entries[j].ts > ne.ts
          decreases k
        {
          assert BackOne(entries, k - 1);
          le := le.prev;
          k := k - 1;
        }
      }
      InsertAfter(ne, le, k);
    }

    /** Link ne in behind le, or as the first entry. */
    method InsertAfter(ne: Lent, le: Lent?, ghost k: nat)
      requires Valid() && ne !in entries && k <= |entries| && le == if k == 0 then null else entries[k - 1]
      modifies this, Nodes(entries)`next, Nodes(entries)`prev, ne
      ensures Valid() && entries == Inserted(old(entries), k, ne)
    {
      ghost var es := entries;
      ne.prev := le;
      if le == null {
        ne.next := first;
        first := ne;
      } else {
        assert k < |es| ==> le.next == es[k];
        ne.next := le.next;
        le.next := ne;
      }
      if ne.next == null {
        last := ne;
      } else {
        ne.next.prev := ne;
      }
      entries := Inserted(es, k, ne);
      forall i | 0 <= i < |entries| ensures BackOne(entries, i) {
        if i != k { assert old(BackOne(es, if i < k then i else i - 1)); }
      }
      forall i | 0 <= i < |entries| - 1 ensures entries[i].next == entries[i + 1] {
        if i < k - 1 { assert old(es[i].next) == es[i + 1]; }
        if i > k { assert old(es[i - 1].next) == es[i]; }
      }
    }

    /** remove_rrl. */
    method RemoveRrl(le: Lent, ghost k: nat)
      requires Valid() && k < |entries| && entries[k] == le
      modifies this, Nodes(entries)`next, Nodes(entries)`prev
      ensures Valid() && entries == Dropped(old(entries), k)
    {
      var next, prev := le.next, le.prev;
      ghost var es := entries;
      assert BackOne(es, k) && (k + 1 < |es| ==> next == es[k + 1]);
      if next != null {
        next.prev := prev;
      } else {
        last := prev;
      }
      if prev != null {
        prev.next := next;
      } else {
        first := next;
      }
      entries := Dropped(es, k);
      forall i | 0 <= i < |entries| ensures BackOne(entries, i) {
        ghost var j := if i < k then i else i + 1;
        assert old(BackOne(es, j)) && (i != k ==> es[j] != next);
      }
      forall i | 0 <= i < |entries| - 1 ensures entries[i].next == entries[i + 1] {
        ghost var j := if i < k then i else i + 1;
        if i != k - 1 { assert old(es[j].next) == es[j + 1] && es[j] != prev; }
      }
    }
  }
}
