/** libev's 4-ary heap of timers (ev.c: downheap, upheap, adjustheap, reheap). The heap functions
    move elements within an array and keep each watcher's own record of its place, `active`. */
module Heap {

  /** The fields of a watcher that the loop keeps. `active` is 0 when the watcher is stopped and
      its index in the heap otherwise; `pending` is 0 or one more than its index in the queue of
      pending events of its priority. */
  class Watcher {
    var active: nat
    var pending: nat
    var priority: int
    var at: real
    var repeat: real

    constructor (priority: int, at: real, repeat: real)
      ensures active == 0 && pending == 0
      ensures this.priority == priority && this.at == at && this.repeat == repeat
    {
      active, pending := 0, 0;
      this.priority, this.at, this.repeat := priority, at, repeat;
    }
  }

  /** A heap element: a watcher and a copy of its time. */
  datatype Anhe = Anhe(w: Watcher, at: real)

  const DHEAP := 4

  /** Index of the first heap element. */
  const HEAP0 := DHEAP - 1

  /** The parent of k; the root is its own parent (C's division truncates -1/4 to 0). */
  function HParent(k: nat): (p: nat)
    requires k >= HEAP0
    ensures HEAP0 <= p <= k && (p == k <==> k == HEAP0)
  {
    if k == HEAP0 then HEAP0 else (k - HEAP0 - 1) / DHEAP + HEAP0
  }

  // ----- heap order -----

  predicate Within(k: int, cnt: nat) { HEAP0 <= k < cnt + HEAP0 }

  /** Element k is not below its parent. */
  predicate Ordered(a: seq<Anhe>, cnt: nat, k: nat)
    requires cnt + HEAP0 <= |a| && Within(k, cnt)
  {
    a[HParent(k)].at <= a[k].at
  }

  ghost predicate IsHeap(a: seq<Anhe>, cnt: nat)
  {
    cnt + HEAP0 <= |a| && forall k {:trigger Within(k, cnt)} :: Within(k, cnt) ==> Ordered(a, cnt, k)
  }

  /** Heap order, but for one element whose time may be anything. */
  ghost predicate HeapBut(a: seq<Anhe>, cnt: nat, k: nat)
  {
    cnt + HEAP0 <= |a| && Within(k, cnt) &&
    (forall i {:trigger Within(i, cnt)} :: Within(i, cnt) && i != k && HParent(i) != k ==> Ordered(a, cnt, i)) &&
    (forall i {:trigger Within(i, cnt)} :: Within(i, cnt) && i != k && HParent(i) == k ==> a[HParent(k)].at <= a[i].at || k == HEAP0)
  }

  /** ... and it is not above its children: it can only move towards the root. */
  ghost predicate UpReady(a: seq<Anhe>, cnt: nat, k: nat)
  {
    HeapBut(a, cnt, k) && forall i {:trigger Within(i, cnt)} :: Within(i, cnt) && HParent(i) == k ==> a[k].at <= a[i].at
  }

  /** ... and it is not below its parent: it can only move away from the root. */
  ghost predicate DownReady(a: seq<Anhe>, cnt: nat, k: nat)
  {
    HeapBut(a, cnt, k) && Ordered(a, cnt, k)
  }

  /** The elements of a heap; each watcher is there once (`Distinct`). */
  ghost function Elements(a: seq<Anhe>, cnt: nat): (m: set<Anhe>)
    requires cnt + HEAP0 <= |a|
  {
    set i | HEAP0 <= i < cnt + HEAP0 :: a[i]
  }

  ghost function WatchersOf(a: seq<Anhe>, cnt: nat): set<Watcher>
    requires cnt + HEAP0 <= |a|
  {
    set i | HEAP0 <= i < cnt + HEAP0 :: a[i].w
  }

  ghost predicate Distinct(a: seq<Anhe>, cnt: nat)
    requires cnt + HEAP0 <= |a|
  {
    forall i, j {:trigger Within(i, cnt), Within(j, cnt)} :: Within(i, cnt) && Within(j, cnt) && a[i].w == a[j].w ==> i == j
  }

  /** The same elements in another order. */
  ghost predicate Reordered(a: seq<Anhe>, b: seq<Anhe>, cnt: nat)
    requires cnt + HEAP0 <= |a|
  {
    |a| == |b| && Elements(a, cnt) == Elements(b, cnt) && WatchersOf(a, cnt) == WatchersOf(b, cnt) &&
    (Distinct(a, cnt) ==> Distinct(b, cnt)) &&
    (forall i :: 0 <= i < HEAP0 || cnt + HEAP0 <= i < |a| ==> b[i] == a[i])
  }

  function Swap(a: seq<Anhe>, i: nat, j: nat): (b: seq<Anhe>)
    requires i < |a| && j < |a|
  {
    a[i := a[j]][j := a[i]]
  }

  lemma SwapElements(a: seq<Anhe>, cnt: nat, i: nat, j: nat)
    requires cnt + HEAP0 <= |a| && Within(i, cnt) && Within(j, cnt)
    ensures Elements(Swap(a, i, j), cnt) == Elements(a, cnt)
  {
    var b := Swap(a, i, j);
    forall k | Within(k, cnt) ensures a[k] in Elements(b, cnt) && b[k] in Elements(a, cnt) {
      var m := if k == i then j else if k == j then i else k;
      assert b[m] == a[k] && a[m] == b[k];
    }
  }

  lemma SameWatchers(a: seq<Anhe>, b: seq<Anhe>, cnt: nat)
    requires cnt + HEAP0 <= |a| && cnt + HEAP0 <= |b| && Elements(a, cnt) == Elements(b, cnt)
    ensures WatchersOf(a, cnt) == WatchersOf(b, cnt)
  {
    forall k | Within(k, cnt) ensures a[k].w in WatchersOf(b, cnt) && b[k].w in WatchersOf(a, cnt) {
      assert a[k] in Elements(b, cnt) && b[k] in Elements(a, cnt);
    }
  }

  lemma SwapReorders(a: seq<Anhe>, cnt: nat, i: nat, j: nat)
    requires cnt + HEAP0 <= |a| && Within(i, cnt) && Within(j, cnt)
    ensures Reordered(a, Swap(a, i, j), cnt)
  {
    SwapElements(a, cnt, i, j);
    SameWatchers(a, Swap(a, i, j), cnt);
  }

  /** In a heap no element is below the root. */
  lemma {:induction false} RootIsLeast(a: seq<Anhe>, cnt: nat, k: nat)
    requires IsHeap(a, cnt) && Within(k, cnt)
    ensures a[HEAP0].at <= a[k].at
    decreases k
  {
    assert Ordered(a, cnt, k);
    if k > HEAP0 {
      RootIsLeast(a, cnt, HParent(k));
    }
  }

  /** An element that fits both ways completes the heap. */
  lemma HeapComplete(a: seq<Anhe>, cnt: nat, k: nat)
    requires HeapBut(a, cnt, k) && Ordered(a, cnt, k)
    requires forall i {:trigger Within(i, cnt)} :: Within(i, cnt) && HParent(i) == k ==> a[k].at <= a[i].at
    ensures IsHeap(a, cnt)
  {
    forall i | Within(i, cnt) ensures Ordered(a, cnt, i) {
    }
  }

  /** One step of upheap: the element and its parent change places. */
  lemma UpStep(a: seq<Anhe>, cnt: nat, k: nat)
    requires UpReady(a, cnt, k) && k > HEAP0 && a[k].at < a[HParent(k)].at
    ensures UpReady(Swap(a, k, HParent(k)), cnt, HParent(k))
  {
    var p := HParent(k);
    var b := Swap(a, k, p);
    forall i | Within(i, cnt) && i != p && HParent(i) != p ensures Ordered(b, cnt, i) {
      if HParent(i) != k { assert Ordered(a, cnt, i); }
    }
    forall i | Within(i, cnt) && i != p && HParent(i) == p ensures b[HParent(p)].at <= b[i].at || p == HEAP0 {
      assert Within(p, cnt);
      assert p != HEAP0 ==> Ordered(a, cnt, p);
      if i != k { assert Ordered(a, cnt, i); }
    }
    forall i | Within(i, cnt) && HParent(i) == p ensures b[p].at <= b[i].at {
      if i != k && i != p { assert Ordered(a, cnt, i); }
    }
  }

  /** One step of downheap: the element and its least child change places. */
  lemma DownStep(a: seq<Anhe>, cnt: nat, k: nat, m: nat)
    requires DownReady(a, cnt, k) && Within(m, cnt) && m != k && HParent(m) == k && a[m].at < a[k].at
    requires forall i {:trigger Within(i, cnt)} :: Within(i, cnt) && i != k && HParent(i) == k ==> a[m].at <= a[i].at
    ensures DownReady(Swap(a, k, m), cnt, m)
  {
    var b := Swap(a, k, m);
    forall i | Within(i, cnt) && i != m && HParent(i) != m ensures Ordered(b, cnt, i) {
      if i == k {
        assert k != HEAP0 ==> a[HParent(k)].at <= a[m].at;
      } else if HParent(i) != k {
        assert Ordered(a, cnt, i);
      }
    }
    forall i | Within(i, cnt) && i != m && HParent(i) == m ensures b[HParent(m)].at <= b[i].at || m == HEAP0 {
      assert Ordered(a, cnt, i);
    }
  }

  // ----- the heap functions -----

  /** An array of heap elements (ANHE *). The functions take the number N of elements in use. */
  class HeapArray {
    var a: seq<Anhe>

    constructor ()
      ensures |a| == HEAP0
    {
      var w := new Watcher(0, 0.0, 0.0);
      a := [Anhe(w, 0.0), Anhe(w, 0.0), Anhe(w, 0.0)];
    }

    /** Every watcher in the heap knows its place. */
    ghost predicate AllBacked(N: nat)
      requires N + HEAP0 <= |a|
      reads this, WatchersOf(a, N)`active
    {
      forall i {:trigger Within(i, N)} :: Within(i, N) ==> a[i].w.active == i
    }

    /** The array while `he` is on its way: the element at k is stale, every other is in place. */
    ghost predicate Moving(N: nat, k: nat, he: Anhe)
      requires N + HEAP0 <= |a|
      reads this, WatchersOf(a, N)`active
    {
      Within(k, N) && Distinct(a[k := he], N) && forall i {:trigger Within(i, N)} :: Within(i, N) && i != k ==> a[i].w.active == i
    }

    /** heap [k] = heap [from]; the hole moves from k to `from`. */
    method Shift(k: nat, from: nat, ghost N: nat, ghost he: Anhe)
      requires N + HEAP0 <= |a| && Moving(N, k, he) && Within(from, N) && from != k
      modifies this, a[from].w`active
      ensures a == old(a)[k := old(a)[from]] && Moving(N, from, he)
      ensures a[from := he] == Swap(old(a)[k := he], k, from)
    {
      SwapReorders(a[k := he], N, k, from);
      assert a[k := a[from]][from := he] == Swap(a[k := he], k, from);
      ghost var v := a[k := he];
      assert v[from].w == a[from].w;
      a := a[k := a[from]];
      a[k].w.active := k;
      forall i | Within(i, N) && i != from ensures a[i].w.active == i {
        if i != k { assert v[i].w != v[from].w; }
      }
    }

    /** heap [k] = he: the element has arrived. */
    method Settle(k: nat, he: Anhe, ghost N: nat)
      requires N + HEAP0 <= |a| && Moving(N, k, he)
      modifies this, he.w`active
      ensures a == old(a)[k := he] && AllBacked(N)
    {
      ghost var v := a[k := he];
      a := a[k := he];
      he.w.active := k;
      forall i | Within(i, N) ensures a[i].w.active == i {
        if i != k { assert v[i].w != v[k].w; }
      }
    }

    /** Towards the root: the first N elements become a heap, all M know their places. */
    method Upheap(k0: nat, ghost N: nat, ghost M: nat)
      requires N <= M && UpReady(a, N, k0) && M + HEAP0 <= |a| && Moving(M, k0, a[k0])
      modifies this, WatchersOf(a, M)`active
      ensures Reordered(old(a), a, M) && IsHeap(a, N) && AllBacked(M)
    {
      var k := k0;
      var he := a[k];
      assert a[k := he] == a;
      while true
        invariant |a| == old(|a|) && Within(k, N) && Moving(M, k, he)
        invariant UpReady(a[k := he], N, k) && Reordered(old(a), a[k := he], M)
        decreases k
      {
        var p := HParent(k);
        if p == k || a[p].at <= he.at { break; }
        ghost var v := a[k := he];
        UpStep(v, N, k);
        SwapReorders(v, M, k, p);
        assert v[p].w in WatchersOf(v, M);
        Shift(k, p, M, he);
        k := p;
      }
      ghost var v := a[k := he];
      assert v[k].w in WatchersOf(v, M);
      Settle(k, he, M);
      HeapComplete(a, N, k);
    }

    /** The body of downheap's loop: `he` changes places with its least child, unless it is not
        above it. */
    method DownOnce(N: nat, k: nat, he: Anhe) returns (m: nat)
      requires N + HEAP0 <= |a| && Moving(N, k, he) && DownReady(a[k := he], N, k)
      modifies this, WatchersOf(a[k := he], N)`active
      ensures |a| == old(|a|) && k <= m && Within(m, N) && Moving(N, m, he) && DownReady(a[m := he], N, m)
      ensures Reordered(old(a)[k := he], a[m := he], N)
      ensures m == k ==> IsHeap(a[k := he], N)
    {
      m := MinChild(N, k);
      ghost var v := a[k := he];
      if m == k || he.at <= a[m].at {
        NoneBelow(v, N, k, m);
        HeapComplete(v, N, k);
        m := k;
      } else {
        DownStep(v, N, k, m);
        SwapReorders(v, N, k, m);
        assert v[m].w in WatchersOf(v, N);
        Shift(k, m, N, he);
      }
    }

    /** Away from the root. */
    method Downheap(N: nat, k0: nat)
      requires DownReady(a, N, k0) && Moving(N, k0, a[k0])
      modifies this, WatchersOf(a, N)`active
      ensures Reordered(old(a), a, N) && IsHeap(a, N) && AllBacked(N)
    {
      var k := k0;
      var he := a[k];
      assert a[k := he] == a;
      while true
        invariant |a| == old(|a|) && Within(k, N) && Moving(N, k, he)
        invariant DownReady(a[k := he], N, k) && Reordered(old(a), a[k := he], N)
        decreases N + HEAP0 - k
      {
        ghost var v := a[k := he];
        var m := DownOnce(N, k, he);
        ReorderTrans(old(a), v, a[m := he], N);
        if m == k { break; }
        k := m;
      }
      ghost var v := a[k := he];
      assert v[k].w in WatchersOf(v, N);
      Settle(k, he, N);
    }

    /** The least child of k, or k itself if it has none. The first branch is the source's fast path
        (four children), the second its slow path. */
    method MinChild(N: nat, k: nat) returns (m: nat)
      requires N + HEAP0 <= |a| && Within(k, N)
      ensures m == k ==> forall i {:trigger Within(i, N)} :: Within(i, N) && i != k ==> HParent(i) != k
      ensures m != k ==> m > k && Within(m, N) && HParent(m) == k
      ensures m != k ==> forall i {:trigger Within(i, N)} :: Within(i, N) && i != k && HParent(i) == k ==> a[m].at <= a[i].at
    {
      var pos, e := DHEAP * (k - HEAP0) + HEAP0 + 1, N + HEAP0;
      assert forall i :: i > HEAP0 ==> (HParent(i) == k <==> pos <= i < pos + DHEAP);
      if pos + DHEAP - 1 < e {
        m := pos;
        if a[pos + 1].at < a[m].at { m := pos + 1; }
        if a[pos + 2].at < a[m].at { m := pos + 2; }
        if a[pos + 3].at < a[m].at { m := pos + 3; }
      } else if pos < e {
        m := pos;
        if pos + 1 < e && a[pos + 1].at < a[m].at { m := pos + 1; }
        if pos + 2 < e && a[pos + 2].at < a[m].at { m := pos + 2; }
        // the source's fourth comparison cannot apply here: there are at most three children
      } else {
        m := k;
      }
    }

    /** One element's time has changed in any way, or another element has been put in its place. */
    method Adjustheap(N: nat, k: nat)
      requires HeapBut(a, N, k) && Moving(N, k, a[k])
      modifies this, WatchersOf(a, N)`active
      ensures Reordered(old(a), a, N) && IsHeap(a, N) && AllBacked(N)
    {
      if k > HEAP0 && a[k].at <= a[HParent(k)].at {
        Upheap(k, N, N);
      } else {
        Downheap(N, k);
      }
    }

    /** Any array becomes a heap. */
    method Reheap(N: nat)
      requires N + HEAP0 <= |a| && Distinct(a, N) && AllBacked(N)
      modifies this, WatchersOf(a, N)`active
      ensures Reordered(old(a), a, N) && IsHeap(a, N) && AllBacked(N)
    {
      var i := 0;
      while i < N
        invariant 0 <= i <= N && |a| == old(|a|)
        invariant IsHeap(a, i) && Reordered(old(a), a, N) && AllBacked(N)
      {
        ghost var b := a;
        ExtendHeap(a, i, N);
        assert a[i + HEAP0 := a[i + HEAP0]] == a;
        Upheap(i + HEAP0, i + 1, N);
        ReorderTrans(old(a), b, a, N);
        i := i + 1;
      }
    }
  }

  /** One more element at the end of a heap can only move up. */
  lemma ExtendHeap(a: seq<Anhe>, cnt: nat, N: nat)
    requires cnt < N && N + HEAP0 <= |a| && IsHeap(a, cnt)
    ensures UpReady(a, cnt + 1, cnt + HEAP0)
  {
    var k := cnt + HEAP0;
    forall i | Within(i, cnt + 1) && i != k ensures Ordered(a, cnt + 1, i) && HParent(i) != k {
      assert Within(i, cnt);
      assert Ordered(a, cnt, i);
    }
    assert HeapBut(a, cnt + 1, k);
  }

  lemma ReorderTrans(a: seq<Anhe>, b: seq<Anhe>, c: seq<Anhe>, N: nat)
    requires N + HEAP0 <= |a| && Reordered(a, b, N) && Reordered(b, c, N)
    ensures Reordered(a, c, N)
  {
  }

  /** The source's break: nothing below k is less. */
  lemma NoneBelow(a: seq<Anhe>, N: nat, k: nat, m: nat)
    requires N + HEAP0 <= |a| && Within(k, N) && Within(m, N) && (m == k || a[k].at <= a[m].at)
    requires forall i {:trigger Within(i, N)} :: Within(i, N) && i != k && HParent(i) == k ==> m != k && a[m].at <= a[i].at
    ensures forall i {:trigger Within(i, N)} :: Within(i, N) && HParent(i) == k ==> a[k].at <= a[i].at
  {
  }
}
