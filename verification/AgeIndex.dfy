/** The list by age as the cache has it: every RR set that is not local, and every negative entry that is
    not local, points to its node in a doubly linked list (cache.h: lent, rr_lent_s; cache.c: insert_rrl,
    remove_rrl, sort_rrl). `Cache` has the list as a value; here the linked list of `AgeList` is proved to
    represent it, with one node for each element. */
module AgeIndex {
  import CacheStore
  import opened AgeList

  type Element = CacheStore.Lent
  type Pointers = map<Element, Lent>

  /** Element i of r points to the node at i. */
  ghost predicate NodeAt(m: CacheStore.Cents, r: CacheStore.Rrl, es: seq<Lent>, node: Pointers, i: nat)
    requires i < |r| == |es|
  {
    r[i] in node && node[r[i]] == es[i] && es[i].ts == CacheStore.Ts(m, r[i])
  }

  /** The elements of r, and no others, point to the nodes es, in their order; these have their time stamps. */
  ghost predicate Pointed(m: CacheStore.Cents, r: CacheStore.Rrl, es: seq<Lent>, node: Pointers)
  {
    |es| == |r| && (forall x :: x in node <==> x in r) &&
    forall i {:trigger NodeAt(m, r, es, node, i)} :: 0 <= i < |r| ==> NodeAt(m, r, es, node, i)
  }

  /** No two elements share a node, and none is listed twice. */
  lemma OneNodeEach(m: CacheStore.Cents, r: CacheStore.Rrl, es: seq<Lent>, node: Pointers)
    requires Pointed(m, r, es, node) && Distinct(es)
    ensures forall x, y :: x in r && y in r && node[x] == node[y] ==> x == y
    ensures CacheStore.Distinct(r)
  {
    forall x, y | x in r && y in r && node[x] == node[y] ensures x == y {
      var i: nat :| i < |r| && r[i] == x;
      var j: nat :| j < |r| && r[j] == y;
      assert NodeAt(m, r, es, node, i) && NodeAt(m, r, es, node, j);
    }
    forall i, j | 0 <= i < j < |r| ensures r[i] != r[j] {
      assert NodeAt(m, r, es, node, i) && NodeAt(m, r, es, node, j);
    }
  }

  /** In a cache whose list is right, there is a node just for what belongs in the list. */
  lemma NodesAreListed(m: CacheStore.Cents, r: CacheStore.Rrl, es: seq<Lent>, node: Pointers)
    requires Pointed(m, r, es, node) && CacheStore.ListOk(m, r)
    ensures forall x :: x in node <==> CacheStore.Listed(m, x)
  {
    forall x ensures x in node <==> CacheStore.Listed(m, x) { assert CacheStore.InList(m, r, x); }
  }

  lemma InsertedPointed(m: CacheStore.Cents, r: CacheStore.Rrl, es: seq<Lent>, node: Pointers, n: Element, ne: Lent, k: nat)
    requires Pointed(m, r, es, node) && n !in r && ne.ts == CacheStore.Ts(m, n) && k <= |r|
    ensures Pointed(m, r[..k] + [n] + r[k..], Inserted(es, k, ne), node[n := ne])
  {
    var r', es', node' := r[..k] + [n] + r[k..], Inserted(es, k, ne), node[n := ne];
    CacheStore.InsertedElements(r, n, k);
    forall i | 0 <= i < |r'| ensures NodeAt(m, r', es', node', i) {
      if i != k {
        CacheStore.InsertedFrom(r, n, k, i);
        assert NodeAt(m, r, es, node, if i < k then i else i - 1);
      }
    }
  }

  /** Where the nodes have a new one, the elements have theirs. */
  lemma PlacedAlike(m: CacheStore.Cents, r: CacheStore.Rrl, es: seq<Lent>, node: Pointers, n: Element, ts: int, sort: bool, k: nat)
    requires Pointed(m, r, es, node) && ts == CacheStore.Ts(m, n)
    requires if sort then Place(es, k, ts) else k == |es|
    ensures CacheStore.Place(m, r, n, sort, k)
  {
    forall i | 0 <= i < |r| ensures es[i].ts == CacheStore.Ts(m, r[i]) { assert NodeAt(m, r, es, node, i); }
  }

  lemma DroppedPointed(m: CacheStore.Cents, r: CacheStore.Rrl, es: seq<Lent>, node: Pointers, n: Element, k: nat)
    requires Pointed(m, r, es, node) && Distinct(es) && k < |r| && r[k] == n
    ensures Pointed(m, CacheStore.Without(r, {n}), Dropped(es, k), node - {n})
  {
    OneNodeEach(m, r, es, node);
    CacheStore.WithoutAt(r, k);
    CacheStore.WithoutIs(r, {n});
    var r', es', node' := CacheStore.Without(r, {n}), Dropped(es, k), node - {n};
    forall i | 0 <= i < |r'| ensures NodeAt(m, r', es', node', i) {
      var j := if i < k then i else i + 1;
      assert NodeAt(m, r, es, node, j) && r'[i] == r[j] && es'[i] == es[j];
    }
  }

  /** The same nodes in another order stand for the same elements in that order. */
  lemma Reordered(m: CacheStore.Cents, r: CacheStore.Rrl, es: seq<Lent>, node: Pointers, es': seq<Lent>) returns (r': CacheStore.Rrl)
    requires Pointed(m, r, es, node) && Nodes(es') == Nodes(es) && |es'| == |es| && Distinct(es)
    ensures Pointed(m, r', es', node) && forall x :: x in r' <==> x in r
  {
    r' := seq(|es'|, i requires 0 <= i < |es'| => ElementOf(m, r, es, node, es'[i]));
    forall i | 0 <= i < |r'| ensures NodeAt(m, r', es', node, i) {
      assert es'[i] in Nodes(es');
      var j := IndexOf(es, es'[i]);
      assert NodeAt(m, r, es, node, j);
    }
    forall x | x in r ensures x in r' {
      var j: nat :| j < |r| && r[j] == x;
      assert NodeAt(m, r, es, node, j);
      assert es[j] in Nodes(es');
      var i: nat :| i < |es'| && es'[i] == es[j];
      assert r'[i] == x;
    }
  }

  ghost function IndexOf(es: seq<Lent>, e: Lent): (j: nat)
    requires e in es
    ensures j < |es| && es[j] == e
  {
    var j :| 0 <= j < |es| && es[j] == e;
    j
  }

  ghost function ElementOf(m: CacheStore.Cents, r: CacheStore.Rrl, es: seq<Lent>, node: Pointers, e: Lent): (x: Element)
    requires |r| == |es| && e in Nodes(es)
  {
    r[IndexOf(es, e)]
  }

  class Index {
    const list: RrlList
    /** The `lent` pointers. */
    var node: Pointers

    constructor ()
      ensures Represents(map[], []) && fresh(list)
    {
      list := new RrlList();
      node := map[];
    }

    ghost predicate Represents(m: CacheStore.Cents, r: CacheStore.Rrl)
      reads this`node, list, Nodes(list.entries)`next, Nodes(list.entries)`prev
    {
      list.Valid() && Pointed(m, r, list.entries, node)
    }

    /** insert_rrl: a new node for n, where the list as a value has it. */
    method Insert(n: Element, ts: int, sort: bool, ghost m: CacheStore.Cents, ghost r: CacheStore.Rrl) returns (ghost r': CacheStore.Rrl)
      requires Represents(m, r) && n !in r && ts == CacheStore.Ts(m, n)
      modifies this`node, list, Nodes(list.entries)`next, Nodes(list.entries)`prev
      ensures CacheStore.InsertedAt(m, r, n, sort, r') && Represents(m, r')
      ensures node.Keys == old(node.Keys) + {n}
    {
      ghost var es, nodes := list.entries, node;
      var ne := new Lent(ts);
      ghost var k := list.InsertRrl(ne, sort);
      PlacedAlike(m, r, es, nodes, n, ts, sort, k);
      InsertedPointed(m, r, es, nodes, n, ne, k);
      node := node[n := ne];
      r' := r[..k] + [n] + r[k..];
    }

    /** remove_rrl, of the node that n points to. */
    method Remove(n: Element, ghost m: CacheStore.Cents, ghost r: CacheStore.Rrl)
      requires Represents(m, r) && n in r
      modifies this`node, list, Nodes(list.entries)`next, Nodes(list.entries)`prev
      ensures Represents(m, CacheStore.Without(r, {n})) && node == old(node) - {n}
    {
      ghost var k: nat :| k < |r| && r[k] == n;
      assert NodeAt(m, r, list.entries, node, k);
      DroppedPointed(m, r, list.entries, node, n, k);
      list.RemoveRrl(node[n], k);
      node := node - {n};
    }

    /** sort_rrl: nothing but the order of the nodes changes. */
    method Sort(ghost m: CacheStore.Cents, ghost r: CacheStore.Rrl) returns (ghost r': CacheStore.Rrl)
      requires Represents(m, r) && |r| < Pow2(NTMPSORT)
      modifies list, Nodes(list.entries)`next, Nodes(list.entries)`prev
      ensures Represents(m, r') && CacheStore.ByAge(m, r') && (forall x :: x in r' <==> x in r) && node == old(node)
    {
      ghost var es := list.entries;
      ghost var pos := Positions(es);
      list.SortRrl(pos);
      r' := Reordered(m, r, es, node, list.entries);
      SortedByAge(m, r', list.entries, node, pos);
    }
  }

  ghost function Positions(es: seq<Lent>): map<Lent, nat> { map e | e in es :: IndexOf(es, e) }

  lemma SortedByAge(m: CacheStore.Cents, r: CacheStore.Rrl, es: seq<Lent>, node: Pointers, pos: map<Lent, nat>)
    requires Pointed(m, r, es, node) && SortedRun(pos, es)
    ensures CacheStore.ByAge(m, r)
  {
    forall i, j | 0 <= i < j < |r| ensures CacheStore.Ts(m, r[i]) <= CacheStore.Ts(m, r[j]) {
      assert NodeAt(m, r, es, node, i) && NodeAt(m, r, es, node, j) && Lower(pos, es[i], es[j]);
    }
  }
}
