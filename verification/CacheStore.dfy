/** pdnsd's cache as a value: entries by name, and the list of RR sets by age (cache.h and cache.c).
    What the functions of cache.c keep of it is stated and proved here; `Cache` has the functions. */
module CacheStore {
  import opened Names

  // ----- entries -----

  /** The flags of RR sets (CF_*) and of entries (DF_*). */
  datatype CFlags = CFlags(negative: bool, loc: bool, auth: bool, nocache: bool, additional: bool, nopurge: bool, rootserv: bool)
  datatype DFlags = DFlags(negative: bool, loc: bool, auth: bool, nocache: bool, wild: bool)

  datatype RrSet = RrSet(ttl: int, ts: int, flags: CFlags, rrs: seq<seq<byte>>)

  /** A name in lower case: what the hash table identifies an entry by. */
  type Key = seq<byte>

  /** A number of trailing name elements, or CUNDEF. */
  type Elements = n: nat | n <= CUNDEF

  const CUNDEF := 0xff

  /** A cache entry. `sets` are the RR sets by index; `ext` says whether the array for the less
      frequently used ones (index NRRMU and up) has been allocated; `cNs` and `cSoa` are the numbers of
      name elements where NS and SOA records are to be found. */
  datatype Cent = Cent(qname: seq<byte>, cs: int, numRrs: int, flags: DFlags, sets: map<nat, RrSet>, ext: bool,
    negTtl: int, negTs: int, cNs: Elements, cSoa: Elements)

  const NRRMU: nat := 8
  const NRREXT: nat := 39
  const NRRTOT: nat := NRRMU + NRREXT

  /** Sizes of the structures on a 32-bit machine. */
  const SIZEOF_CENT := 52
  const SIZEOF_RRSET := 20
  const SIZEOF_BUCKET := 8
  const SIZEOF_PTR := 4

  /** RRARR_LEN. */
  function RrarrLen(c: Cent): nat { if c.flags.negative then 0 else if c.ext then NRRTOT else NRRMU }

  // ----- accounting of one entry -----

  function RecordsSize(rrs: seq<seq<byte>>): nat
  {
    if rrs == [] then 0 else RecordsSize(rrs[..|rrs| - 1]) + SIZEOF_BUCKET + |rrs[|rrs| - 1]|
  }

  function SetSize(s: RrSet): nat { SIZEOF_RRSET + RecordsSize(s.rrs) }

  /** Size of the sets with an index below n. */
  function SetsSize(sets: map<nat, RrSet>, n: nat): nat
  {
    if n == 0 then 0 else SetsSize(sets, n - 1) + if n - 1 in sets then SetSize(sets[n - 1]) else 0
  }

  function SetsCount(sets: map<nat, RrSet>, n: nat): nat
  {
    if n == 0 then 0 else SetsCount(sets, n - 1) + if n - 1 in sets then 1 else 0
  }

  function CentSize(c: Cent): nat
  {
    SIZEOF_CENT + |c.qname| + (if c.ext then SIZEOF_PTR * NRREXT else 0) + SetsSize(c.sets, NRRTOT)
  }

  /** `cs` is the size of what the entry holds, and `numRrs` counts its sets. */
  ghost predicate CentOk(c: Cent)
  {
    c.cs == CentSize(c) && c.numRrs == SetsCount(c.sets, NRRTOT) &&
    (forall i :: i in c.sets ==> i < NRRTOT && (i >= NRRMU ==> c.ext)) &&
    (c.flags.negative ==> c.sets == map[] && !c.ext)
  }

  lemma {:induction false} SetsWithout(sets: map<nat, RrSet>, i: nat, n: nat)
    requires i in sets
    ensures SetsSize(sets - {i}, n) == SetsSize(sets, n) - if i < n then SetSize(sets[i]) else 0
    ensures SetsCount(sets - {i}, n) == SetsCount(sets, n) - if i < n then 1 else 0
  {
    if n > 0 { SetsWithout(sets, i, n - 1); }
  }

  lemma {:induction false} SetsWith(sets: map<nat, RrSet>, i: nat, s: RrSet, n: nat)
    requires i !in sets
    ensures SetsSize(sets[i := s], n) == SetsSize(sets, n) + if i < n then SetSize(s) else 0
    ensures SetsCount(sets[i := s], n) == SetsCount(sets, n) + if i < n then 1 else 0
  {
    if n > 0 { SetsWith(sets, i, s, n - 1); }
  }

  lemma {:induction false} NoneCount(n: nat)
    ensures SetsSize(map[], n) == 0 && SetsCount(map[], n) == 0
  {
    if n > 0 { NoneCount(n - 1); }
  }

  lemma {:induction false} NoSets(sets: map<nat, RrSet>, n: nat)
    requires SetsCount(sets, n) == 0
    ensures forall i :: 0 <= i < n ==> i !in sets
  {
    if n > 0 { NoSets(sets, n - 1); }
  }

  // ----- accounting of all entries -----

  type Cents = map<Key, Cent>

  ghost function Total(m: Cents): int
  {
    if m == map[] then 0 else var k :| k in m; m[k].cs + Total(m - {k})
  }

  lemma {:induction false} TotalWithout(m: Cents, k: Key)
    requires k in m
    ensures Total(m) == m[k].cs + Total(m - {k})
  {
    var x :| x in m && Total(m) == m[x].cs + Total(m - {x});
    if x != k {
      TotalWithout(m - {x}, k);
      TotalWithout(m - {k}, x);
      assert m - {x} - {k} == m - {k} - {x};
    }
  }

  lemma TotalChanged(m: Cents, k: Key, c: Cent)
    ensures Total(m[k := c]) == Total(m - {k}) + c.cs
    ensures k !in m ==> Total(m[k := c]) == Total(m) + c.cs
    ensures k in m ==> Total(m[k := c]) == Total(m) - m[k].cs + c.cs
  {
    TotalWithout(m[k := c], k);
    assert m[k := c] - {k} == m - {k};
    if k in m { TotalWithout(m, k); } else { assert m - {k} == m; }
  }

  // ----- the list by age -----

  /** A list entry stands for an RR set of an entry, or for a negative entry (idx is -1 then). */
  datatype Lent = Lent(key: Key, idx: int)

  type Rrl = seq<Lent>

  ghost predicate Distinct(r: Rrl) { forall i, j :: 0 <= i < j < |r| ==> r[i] != r[j] }

  /** What belongs in the list: what is not local. */
  ghost predicate Listed(m: Cents, n: Lent)
  {
    n.key in m && !m[n.key].flags.loc &&
    if n.idx < 0 then n.idx == -1 && m[n.key].flags.negative
    else n.idx in m[n.key].sets && !m[n.key].sets[n.idx].flags.loc
  }

  /** get_rrlent_ts. */
  function Ts(m: Cents, n: Lent): int
  {
    if n.key !in m then 0 else if n.idx in m[n.key].sets then m[n.key].sets[n.idx].ts else m[n.key].negTs
  }

  ghost predicate ByAge(m: Cents, r: Rrl) { forall i, j :: 0 <= i < j < |r| ==> Ts(m, r[i]) <= Ts(m, r[j]) }

  /** The list without the entries in d (remove_rrl). */
  function Without(r: Rrl, d: set<Lent>): Rrl
  {
    if r == [] then []
    else
      var rest, last := Without(r[..|r| - 1], d), r[|r| - 1];
      if last in d then rest else rest + [last]
  }

  lemma {:induction false} WithoutIs(r: Rrl, d: set<Lent>)
    ensures forall n :: n in Without(r, d) <==> n in r && n !in d
    ensures Distinct(r) ==> Distinct(Without(r, d))
    ensures (forall n :: n in d ==> n !in r) ==> Without(r, d) == r
  {
    if r != [] {
      assert r == r[..|r| - 1] + [r[|r| - 1]];
      WithoutIs(r[..|r| - 1], d);
    }
  }

  lemma {:induction false} WithoutSame(r: Rrl, d: set<Lent>, e: set<Lent>)
    requires forall n :: n in r ==> (n in d <==> n in e)
    ensures Without(r, d) == Without(r, e)
  {
    if r != [] {
      assert r[|r| - 1] in r;
      WithoutSame(r[..|r| - 1], d, e);
    }
  }

  lemma {:induction false} WithoutTwice(r: Rrl, d: set<Lent>, e: set<Lent>)
    ensures Without(Without(r, d), e) == Without(r, d + e)
  {
    if r != [] {
      var before, last := r[..|r| - 1], r[|r| - 1];
      WithoutTwice(before, d, e);
      var w := Without(before, d);
      if last !in d { assert (w + [last])[..|w|] == w; }
    }
  }

  lemma {:induction false} WithoutByAge(m: Cents, r: Rrl, d: set<Lent>)
    requires ByAge(m, r)
    ensures ByAge(m, Without(r, d))
  {
    if r != [] {
      var before, last := r[..|r| - 1], r[|r| - 1];
      WithoutByAge(m, before, d);
      WithoutIs(before, d);
      forall j | 0 <= j < |before| ensures Ts(m, before[j]) <= Ts(m, last) { assert r[j] == before[j]; }
      LastByAge(m, before, Without(before, d), last);
    }
  }

  lemma LastByAge(m: Cents, r: Rrl, r': Rrl, last: Lent)
    requires ByAge(m, r') && (forall x :: x in r' ==> x in r) && forall j :: 0 <= j < |r| ==> Ts(m, r[j]) <= Ts(m, last)
    ensures ByAge(m, r' + [last])
  {
    forall i | 0 <= i < |r'| ensures Ts(m, r'[i]) <= Ts(m, last) { assert r'[i] in r; }
  }

  lemma {:induction false} WithoutAt(r: Rrl, j: nat)
    requires Distinct(r) && j < |r|
    ensures Without(r, {r[j]}) == r[..j] + r[j + 1..]
  {
    var m := |r| - 1;
    if j < m {
      WithoutAt(r[..m], j);
      assert r[..m][..j] + r[..m][j + 1..] + [r[m]] == r[..j] + r[j + 1..];
    } else {
      WithoutIs(r[..m], {r[j]});
    }
  }

  /** The list with n inserted where insert_rrl puts it: at the end, or behind the last entry that
      is not younger. */
  ghost predicate InsertedAt(m: Cents, r: Rrl, n: Lent, sort: bool, r': Rrl)
  {
    exists k: nat :: Place(m, r, n, sort, k) && r' == r[..k] + [n] + r[k..]
  }

  ghost predicate Place(m: Cents, r: Rrl, n: Lent, sort: bool, k: nat)
  {
    k <= |r| &&
    if sort then (k > 0 ==> Ts(m, r[k - 1]) <= Ts(m, n)) && forall j :: k <= j < |r| ==> Ts(m, r[j]) > Ts(m, n)
    else k == |r|
  }

  lemma InsertedIs(m: Cents, r: Rrl, n: Lent, sort: bool, r': Rrl)
    requires InsertedAt(m, r, n, sort, r')
    ensures forall x :: x in r' <==> x in r || x == n
    ensures Distinct(r) && n !in r ==> Distinct(r')
    ensures sort && ByAge(m, r) ==> ByAge(m, r')
  {
    var k: nat :| Place(m, r, n, sort, k) && r' == r[..k] + [n] + r[k..];
    InsertedElements(r, n, k);
    if sort && ByAge(m, r) { InsertedByAge(m, r, n, k); }
  }

  lemma InsertedElements(r: Rrl, n: Lent, k: nat)
    requires k <= |r|
    ensures forall x :: x in r[..k] + [n] + r[k..] <==> x in r || x == n
    ensures Distinct(r) && n !in r ==> Distinct(r[..k] + [n] + r[k..])
  {
    var r' := r[..k] + [n] + r[k..];
    forall x | x in r' ensures x in r || x == n {
      var i :| 0 <= i < |r'| && r'[i] == x;
      if i != k { InsertedFrom(r, n, k, i); }
    }
    forall x | x in r ensures x in r' {
      var i :| 0 <= i < |r| && r[i] == x;
      assert r'[if i < k then i else i + 1] == x;
    }
    assert r'[k] == n;
    if Distinct(r) && n !in r {
      forall i, j | 0 <= i < j < |r'| ensures r'[i] != r'[j] {
        if i != k { InsertedFrom(r, n, k, i); }
        if j != k { InsertedFrom(r, n, k, j); }
      }
    }
  }

  lemma InsertedFrom(r: Rrl, n: Lent, k: nat, i: nat)
    requires k <= |r| && i <= |r| && i != k
    ensures (r[..k] + [n] + r[k..])[i] == r[if i < k then i else i - 1]
  {
  }

  lemma InsertedByAge(m: Cents, r: Rrl, n: Lent, k: nat)
    requires Place(m, r, n, true, k) && ByAge(m, r)
    ensures ByAge(m, r[..k] + [n] + r[k..])
  {
    var r' := r[..k] + [n] + r[k..];
    forall i | 0 <= i < k ensures Ts(m, r[i]) <= Ts(m, n) {
      assert i < k - 1 ==> Ts(m, r[i]) <= Ts(m, r[k - 1]);
    }
    forall i, j | 0 <= i < j < |r'| ensures Ts(m, r'[i]) <= Ts(m, r'[j]) {
      assert i != k ==> r'[i] == r[if i < k then i else i - 1];
      assert j != k ==> r'[j] == r[if j < k then j else j - 1];
    }
  }

  // ----- the invariant -----

  datatype Store = Store(cents: Cents, rrl: Rrl, sort: bool)

  /** The list has each entry that belongs in it once. */
  ghost predicate ListOk(m: Cents, r: Rrl)
  {
    Distinct(r) && forall n {:trigger InList(m, r, n)} :: InList(m, r, n)
  }

  ghost predicate InList(m: Cents, r: Rrl, n: Lent) { n in r <==> Listed(m, n) }

  ghost predicate CentsOk(m: Cents)
  {
    forall k :: k in m ==> CentOk(m[k]) && Fold(m[k].qname) == k
  }

  /** The accounts of each entry are right, the list has what belongs in it, and it is ordered by age
      if entries are inserted in order. */
  ghost predicate Good(s: Store)
  {
    match s
    case Store(m, r, sort) =>
      var ok := CentsOk(m) && ListOk(m, r) && (sort ==> ByAge(m, r));
      ok
  }

  /** ... and so are those of all entries. */
  ghost predicate Whole(s: Store, size: int, num: int)
  {
    var ok := Good(s) && size == Total(s.cents) && num == |s.cents|;
    ok
  }

  /** While an entry is being changed its size is not counted. */
  ghost predicate WholeBut(s: Store, k: Key, size: int, num: int)
  {
    var ok := Good(s) && k in s.cents && size + s.cents[k].cs == Total(s.cents) && num == |s.cents|;
    ok
  }

  lemma AgeSame(m: Cents, m': Cents, r: Rrl)
    requires ByAge(m, r) && forall n :: n in r ==> Ts(m, n) == Ts(m', n)
    ensures ByAge(m', r)
  {
    forall i, j | 0 <= i < j < |r| ensures Ts(m', r[i]) <= Ts(m', r[j]) {
      assert r[i] in r && r[j] in r;
    }
  }

  /** del_cent_rrset_by_index, as far as the entry is concerned. */
  function DelSet(c: Cent, i: nat): (d: Cent)
    requires i in c.sets
  {
    c.(sets := c.sets - {i}, numRrs := c.numRrs - 1, cs := c.cs - SetSize(c.sets[i]), flags := c.flags.(auth := false))
  }

  lemma DelSetOk(c: Cent, i: nat)
    requires CentOk(c) && i in c.sets
    ensures CentOk(DelSet(c, i))
  {
    SetsWithout(c.sets, i, NRRTOT);
  }

  lemma CentsPut(m: Cents, k: Key, c: Cent)
    requires CentsOk(m) && CentOk(c) && Fold(c.qname) == k
    ensures CentsOk(m[k := c])
  {
  }

  lemma DropSet(s: Store, k: Key, i: nat)
    requires Good(s) && k in s.cents && i in s.cents[k].sets
    ensures Good(Store(s.cents[k := DelSet(s.cents[k], i)], Without(s.rrl, {Lent(k, i)}), s.sort))
  {
    DelSetOk(s.cents[k], i);
    CentsPut(s.cents, k, DelSet(s.cents[k], i));
    DropSetListed(s.cents, s.rrl, k, i);
    if s.sort { StillByAge(s.cents, s.cents[k := DelSet(s.cents[k], i)], s.rrl, {Lent(k, i)}); }
  }

  lemma DropSetListed(m: Cents, r: Rrl, k: Key, i: nat)
    requires ListOk(m, r) && k in m && i in m[k].sets
    ensures ListOk(m[k := DelSet(m[k], i)], Without(r, {Lent(k, i)}))
  {
    WithoutIs(r, {Lent(k, i)});
    var m', r' := m[k := DelSet(m[k], i)], Without(r, {Lent(k, i)});
    forall n ensures InList(m', r', n) { assert InList(m, r, n); }
  }

  /** Taking entries out keeps the order, if the others keep their time stamps. */
  lemma StillByAge(m: Cents, m': Cents, r: Rrl, d: set<Lent>)
    requires ByAge(m, r) && forall n :: n in r && n !in d ==> Ts(m, n) == Ts(m', n)
    ensures ByAge(m', Without(r, d))
  {
    WithoutByAge(m, r, d);
    WithoutIs(r, d);
    AgeSame(m, m', Without(r, d));
  }

  ghost function NodesOf(k: Key): set<Lent> { set i | -1 <= i < NRRTOT :: Lent(k, i) }

  lemma DropCent(s: Store, k: Key)
    requires Good(s) && k in s.cents
    ensures Good(Store(s.cents - {k}, Without(s.rrl, NodesOf(k)), s.sort))
  {
    DropCentListed(s.cents, s.rrl, k);
    if s.sort {
      forall n | n in s.rrl && n !in NodesOf(k) ensures Ts(s.cents, n) == Ts(s.cents - {k}, n) {
        NodeOf(s.cents, s.rrl, n);
      }
      StillByAge(s.cents, s.cents - {k}, s.rrl, NodesOf(k));
    }
  }

  /** The list entries that the sets of an entry with an index below n may have. */
  ghost function SetNodes(c: Cent, k: Key, n: nat): set<Lent>
  {
    if n == 0 then {} else if n - 1 in c.sets then SetNodes(c, k, n - 1) + {Lent(k, n - 1)} else SetNodes(c, k, n - 1)
  }

  lemma {:induction false} SetNodesAre(c: Cent, k: Key, n: nat, x: Lent)
    ensures x in SetNodes(c, k, n) <==> x.key == k && 0 <= x.idx < n && x.idx in c.sets
  {
    if n > 0 { SetNodesAre(c, k, n - 1, x); }
  }

  /** All list entries of an entry are those of its sets, or its own if it is negative. */
  lemma AllNodes(m: Cents, r: Rrl, k: Key)
    requires ListOk(m, r) && CentsOk(m) && k in m
    ensures Without(r, if m[k].flags.negative then {Lent(k, -1)} else SetNodes(m[k], k, RrarrLen(m[k]))) == Without(r, NodesOf(k))
  {
    var d := if m[k].flags.negative then {Lent(k, -1)} else SetNodes(m[k], k, RrarrLen(m[k]));
    forall n | n in r ensures n in d <==> n in NodesOf(k) {
      assert InList(m, r, n);
      SetNodesAre(m[k], k, RrarrLen(m[k]), n);
    }
    WithoutSame(r, d, NodesOf(k));
  }

  lemma NodeOf(m: Cents, r: Rrl, n: Lent)
    requires ListOk(m, r) && CentsOk(m) && n in r
    ensures n in NodesOf(n.key) && n.key in m
  {
    assert InList(m, r, n);
  }

  lemma DropCentListed(m: Cents, r: Rrl, k: Key)
    requires ListOk(m, r) && CentsOk(m) && k in m
    ensures ListOk(m - {k}, Without(r, NodesOf(k)))
  {
    WithoutIs(r, NodesOf(k));
    forall n ensures InList(m - {k}, Without(r, NodesOf(k)), n) {
      assert InList(m, r, n);
      if n in r { NodeOf(m, r, n); }
    }
  }

  /** add_cent_rrset_by_index up to the allocation of the set: the entry is not negative any more, and
      has an array for the set. */
  function Opened(c: Cent, i: nat): Cent
  {
    var d := c.(flags := c.flags.(negative := false));
    if i >= NRRMU && !c.ext then d.(ext := true, cs := d.cs + SIZEOF_PTR * NRREXT) else d
  }

  /** The entry with another set. */
  function PutSet(c: Cent, i: nat, s: RrSet): Cent
  {
    var d := Opened(c, i);
    d.(sets := d.sets[i := s], numRrs := d.numRrs + 1, cs := d.cs + SetSize(s))
  }

  lemma PutSetOk(c: Cent, i: nat, s: RrSet)
    requires CentOk(c) && i !in c.sets && i < NRRTOT
    ensures CentOk(PutSet(c, i, s))
  {
    SetsWith(c.sets, i, s, NRRTOT);
  }

  /** What becomes of the list when entry k gets another set: a negative entry leaves it, and the set
      is inserted unless it is local. */
  ghost predicate Relisted(m': Cents, r: Rrl, n: Lent, sort: bool, r': Rrl)
  {
    var r1 := Without(r, {Lent(n.key, -1)});
    if Listed(m', n) then InsertedAt(m', r1, n, sort, r') else r' == r1
  }

  lemma AddSet(s: Store, k: Key, i: nat, set': RrSet, r': Rrl)
    requires Good(s) && k in s.cents && i !in s.cents[k].sets && i < NRRTOT
    requires Relisted(s.cents[k := PutSet(s.cents[k], i, set')], s.rrl, Lent(k, i), s.sort, r')
    ensures Good(Store(s.cents[k := PutSet(s.cents[k], i, set')], r', s.sort))
  {
    var m, m', n, d := s.cents, s.cents[k := PutSet(s.cents[k], i, set')], Lent(k, i), {Lent(k, -1)};
    PutSetOk(m[k], i, set');
    CentsPut(m, k, PutSet(m[k], i, set'));
    AddSetListed(m, s.rrl, k, i, set', s.sort, r');
    if s.sort {
      forall x | x in s.rrl && x !in d ensures Ts(m, x) == Ts(m', x) { AddSetTs(m, s.rrl, k, i, set', x); }
      StillByAge(m, m', s.rrl, d);
      if Listed(m', n) { InsertedIs(m', Without(s.rrl, d), n, s.sort, r'); }
    }
  }

  lemma AddSetTs(m: Cents, r: Rrl, k: Key, i: nat, set': RrSet, x: Lent)
    requires ListOk(m, r) && k in m && i !in m[k].sets && x in r && x != Lent(k, -1)
    ensures Ts(m, x) == Ts(m[k := PutSet(m[k], i, set')], x)
  {
    assert InList(m, r, x);
  }

  lemma AddSetListed(m: Cents, r: Rrl, k: Key, i: nat, set': RrSet, sort: bool, r': Rrl)
    requires ListOk(m, r) && k in m && CentOk(m[k]) && i !in m[k].sets
    requires Relisted(m[k := PutSet(m[k], i, set')], r, Lent(k, i), sort, r')
    ensures ListOk(m[k := PutSet(m[k], i, set')], r')
  {
    var m', n, d := m[k := PutSet(m[k], i, set')], Lent(k, i), {Lent(k, -1)};
    WithoutIs(r, d);
    assert n !in r by { assert InList(m, r, n); }
    if Listed(m', n) { InsertedIs(m', Without(r, d), n, sort, r'); }
    forall x ensures InList(m', r', x) { assert InList(m, r, x); }
  }

  // ----- conflicts -----

  /** The classes of RR types (rr_info): an alias, an ordinary record and a pointer exclude each other. */
  datatype Class = Alias | Record | Idem | Ptr

  function Excludes(c: Class): set<Class>
  {
    match c
    case Alias => {Record, Ptr}
    case Record => {Alias, Ptr}
    case Idem => {}
    case Ptr => {Alias, Record}
  }

  function ClassOf(i: nat): Class
  {
    if i == 2 then Alias
    else if i == 4 || i == 23 then Ptr
    else if i == 0 || i == 7 || 14 <= i <= 15 || 17 <= i <= 22 || 27 <= i <= 28 || 30 <= i <= 36 then Record
    else Idem
  }

  predicate Conflict(i: nat, j: nat)
  {
    ClassOf(i) in Excludes(ClassOf(j)) || ClassOf(j) in Excludes(ClassOf(i))
  }

  /** Two types are in conflict if they are of different classes that exclude others. */
  lemma ConflictsAre(i: nat, j: nat)
    ensures Conflict(i, j) <==> ClassOf(i) != ClassOf(j) && !ClassOf(i).Idem? && !ClassOf(j).Idem?
    ensures Conflict(i, j) <==> Conflict(j, i)
  {
  }

  /** The entry has a set, not a negative one, that is in conflict with sets of index idx. */
  predicate Rival(c: Cent, idx: nat, i: nat)
  {
    i in c.sets && !c.sets[i].flags.negative && Conflict(idx, i)
  }

  /** No two sets that are not negative are in conflict. */
  ghost predicate ConflictFree(c: Cent)
  {
    forall i, j :: i in c.sets && j in c.sets && !c.sets[i].flags.negative && !c.sets[j].flags.negative ==> !Conflict(i, j)
  }

  predicate LocalRival(c: Cent, idx: nat, n: nat)
  {
    n > 0 && ((Rival(c, idx, n - 1) && c.sets[n - 1].flags.loc) || LocalRival(c, idx, n - 1))
  }

  lemma {:induction false} LocalRivalIs(c: Cent, idx: nat, n: nat)
    ensures LocalRival(c, idx, n) <==> exists i: nat :: i < n && Rival(c, idx, i) && c.sets[i].flags.loc
  {
    if n > 0 { LocalRivalIs(c, idx, n - 1); }
  }

  function Rivals(c: Cent, idx: nat, n: nat): nat
  {
    if n == 0 then 0 else Rivals(c, idx, n - 1) + if Rival(c, idx, n - 1) then 1 else 0
  }

  lemma {:induction false} RivalsIs(c: Cent, idx: nat, n: nat)
    ensures Rivals(c, idx, n) == 0 <==> forall i: nat :: i < n ==> !Rival(c, idx, i)
  {
    if n > 0 { RivalsIs(c, idx, n - 1); }
  }

  /** The remaining time to live of a set, summed over the rivals. */
  function RivalTtl(c: Cent, idx: nat, n: nat, now: int): nat
  {
    if n == 0 then 0
    else
      var rest := RivalTtl(c, idx, n - 1, now);
      if Rival(c, idx, n - 1) && c.sets[n - 1].ttl + c.sets[n - 1].ts - now > 0
      then rest + (c.sets[n - 1].ttl + c.sets[n - 1].ts - now) else rest
  }

  /** The entry without the rivals of index below n. */
  function Cleared(c: Cent, idx: nat, n: nat): Cent
  {
    if n == 0 then c
    else
      var d := Cleared(c, idx, n - 1);
      if Rival(d, idx, n - 1) then DelSet(d, n - 1) else d
  }

  lemma {:induction false} ClearedIs(c: Cent, idx: nat, n: nat)
    requires CentOk(c)
    ensures CentOk(Cleared(c, idx, n)) && SameFrame(c, Cleared(c, idx, n))
    ensures Cleared(c, idx, n).sets == map i | i in c.sets && !(i < n && Rival(c, idx, i)) :: c.sets[i]
  {
    if n > 0 {
      ClearedIs(c, idx, n - 1);
      var d := Cleared(c, idx, n - 1);
      assert Rival(d, idx, n - 1) <==> Rival(c, idx, n - 1);
      if Rival(d, idx, n - 1) {
        DelSetOk(d, n - 1);
        assert Cleared(c, idx, n).sets == d.sets - {n - 1};
      }
    }
  }

  /** Nothing but the sets, the accounts and DF_AUTH may differ. */
  predicate SameFrame(c: Cent, d: Cent)
  {
    d.qname == c.qname && d.ext == c.ext && d.negTtl == c.negTtl && d.negTs == c.negTs &&
    d.flags.(auth := c.flags.auth) == c.flags
  }

  /** The outcome of a check for conflicts: whether the new set may be added, and the entry. */
  datatype Checked = Checked(ok: bool, cent: Cent)

  /** cr_check_add. */
  function CrCheck(c: Cent, idx: nat, ttl: int, flags: CFlags, now: int): Checked
  {
    var n := RrarrLen(c);
    if flags.negative then Checked(true, c)
    else if flags.loc then Checked(true, Cleared(c, idx, n))
    else if c.flags.loc || LocalRival(c, idx, n) then Checked(false, c)
    else if Rivals(c, idx, n) == 0 then Checked(true, c)
    else if ttl > RivalTtl(c, idx, n, now) / Rivals(c, idx, n) then Checked(true, Cleared(c, idx, n))
    else Checked(false, c)
  }

  /** After a check that lets the new set in, it has no rivals; local rivals are never removed for a
      set that is not local; nothing else is removed. */
  lemma CrCheckIs(c: Cent, idx: nat, ttl: int, flags: CFlags, now: int)
    requires CentOk(c)
    ensures var r := CrCheck(c, idx, ttl, flags, now);
      CentOk(r.cent) && SameFrame(c, r.cent) &&
      (r.ok && !flags.negative ==> forall i :: !Rival(r.cent, idx, i)) &&
      (forall i :: i in r.cent.sets ==> i in c.sets && r.cent.sets[i] == c.sets[i]) &&
      (forall i :: i in c.sets && i !in r.cent.sets ==> r.ok && Rival(c, idx, i) && (c.sets[i].flags.loc ==> flags.loc))
  {
    var n := RrarrLen(c);
    ClearedIs(c, idx, n);
    RivalsIs(c, idx, n);
    LocalRivalIs(c, idx, n);
  }

  /** The sets in conflict with index idx. */
  ghost function RivalsOf(c: Cent, idx: nat): (m: map<nat, RrSet>)
  {
    map i | i in c.sets && Rival(c, idx, i) :: c.sets[i]
  }

  /** The time some sets still have, all together; none of them less than nothing. */
  ghost function TimeLeft(sets: map<nat, RrSet>, now: int): int
  {
    if sets == map[] then 0
    else
      var i :| i in sets;
      Left(sets[i], now) + TimeLeft(sets - {i}, now)
  }

  function Left(s: RrSet, now: int): int { if s.ttl + s.ts > now then s.ttl + s.ts - now else 0 }

  lemma {:induction false} TimeLeftWithout(sets: map<nat, RrSet>, i: nat, now: int)
    requires i in sets
    ensures TimeLeft(sets, now) == Left(sets[i], now) + TimeLeft(sets - {i}, now)
  {
    var j :| j in sets && TimeLeft(sets, now) == Left(sets[j], now) + TimeLeft(sets - {j}, now);
    if i != j {
      TimeLeftWithout(sets - {j}, i, now);
      TimeLeftWithout(sets - {i}, j, now);
      assert sets - {i} - {j} == sets - {j} - {i};
    }
  }

  ghost function Below(sets: map<nat, RrSet>, n: nat): map<nat, RrSet> { map i | i in sets && i < n :: sets[i] }

  lemma BelowStep(sets: map<nat, RrSet>, n: nat)
    ensures n in sets ==> Below(sets, n + 1) - {n} == Below(sets, n) && |Below(sets, n + 1)| == |Below(sets, n)| + 1
    ensures n !in sets ==> Below(sets, n + 1) == Below(sets, n)
  {
    if n in sets {
      assert Below(sets, n + 1) - {n} == Below(sets, n);
      assert Below(sets, n + 1).Keys == Below(sets, n).Keys + {n};
    }
  }

  ghost predicate AreRivals(c: Cent, idx: nat, rivals: map<nat, RrSet>)
  {
    forall i: nat {:trigger RivalAt(c, idx, rivals, i)} :: RivalAt(c, idx, rivals, i)
  }

  ghost predicate RivalAt(c: Cent, idx: nat, rivals: map<nat, RrSet>, i: nat)
  {
    (i in rivals <==> Rival(c, idx, i)) && (i in rivals ==> rivals[i] == c.sets[i])
  }

  /** The loop of cr_check_add counts the rivals ... */
  lemma {:induction false} RivalsCounted(c: Cent, idx: nat, rivals: map<nat, RrSet>, n: nat)
    requires AreRivals(c, idx, rivals)
    ensures |Below(rivals, n)| == Rivals(c, idx, n)
  {
    if n > 0 {
      RivalsCounted(c, idx, rivals, n - 1);
      assert RivalAt(c, idx, rivals, n - 1);
      BelowStep(rivals, n - 1);
    }
  }

  /** ... and sums up the time they have left. */
  lemma {:induction false} RivalsTimed(c: Cent, idx: nat, rivals: map<nat, RrSet>, n: nat, now: int)
    requires AreRivals(c, idx, rivals)
    ensures TimeLeft(Below(rivals, n), now) == RivalTtl(c, idx, n, now)
  {
    if n > 0 {
      RivalsTimed(c, idx, rivals, n - 1, now);
      assert RivalAt(c, idx, rivals, n - 1);
      BelowStep(rivals, n - 1);
      if n - 1 in rivals { TimeLeftWithout(Below(rivals, n), n - 1, now); }
    }
  }

  /** A set may be added if it is negative or local; otherwise the entry must not be local, nor any of the
      rivals, and the set must live longer than the rivals do on average. */
  ghost predicate Admits(c: Cent, idx: nat, ttl: int, flags: CFlags, now: int)
  {
    var rivals := RivalsOf(c, idx);
    flags.negative || flags.loc ||
    (!c.flags.loc && (forall i :: i in rivals ==> !rivals[i].flags.loc) &&
     (rivals == map[] || ttl * |rivals| > TimeLeft(rivals, now)))
  }

  lemma AboveMean(ttl: int, sum: int, n: nat)
    requires n > 0
    ensures ttl > sum / n <==> ttl * n > sum
  {
    if ttl > sum / n {
      assert ttl * n >= (sum / n + 1) * n;
    } else {
      assert ttl * n <= (sum / n) * n;
    }
  }

  lemma RivalsWithin(c: Cent, idx: nat, rivals: map<nat, RrSet>)
    requires CentOk(c) && AreRivals(c, idx, rivals)
    ensures Below(rivals, RrarrLen(c)) == rivals && Cleared(c, idx, RrarrLen(c)).sets == c.sets - rivals.Keys
  {
    var n := RrarrLen(c);
    ClearedIs(c, idx, n);
    forall i: nat ensures RivalAt(c, idx, rivals, i) && (i in rivals ==> i < n) {}
    assert Cleared(c, idx, n).sets == c.sets - rivals.Keys;
  }

  lemma RivalsLocal(c: Cent, idx: nat, rivals: map<nat, RrSet>)
    requires CentOk(c) && AreRivals(c, idx, rivals)
    ensures LocalRival(c, idx, RrarrLen(c)) <==> exists i :: i in rivals && rivals[i].flags.loc
  {
    var n := RrarrLen(c);
    LocalRivalIs(c, idx, n);
    forall i: nat ensures RivalAt(c, idx, rivals, i) && (i in rivals ==> i < n) {}
    if LocalRival(c, idx, n) {
      var i: nat :| i < n && Rival(c, idx, i) && c.sets[i].flags.loc;
      assert RivalAt(c, idx, rivals, i);
    }
    if i :| i in rivals && rivals[i].flags.loc { assert i < n && Rival(c, idx, i); }
  }

  lemma RivalsAre(c: Cent, idx: nat, rivals: map<nat, RrSet>, now: int)
    requires CentOk(c) && AreRivals(c, idx, rivals)
    ensures |rivals| == Rivals(c, idx, RrarrLen(c)) && TimeLeft(rivals, now) == RivalTtl(c, idx, RrarrLen(c), now)
  {
    RivalsWithin(c, idx, rivals);
    RivalsCounted(c, idx, rivals, RrarrLen(c));
    RivalsTimed(c, idx, rivals, RrarrLen(c), now);
  }

  /** Main result on conflicts: when a set is let in, and what that costs. */
  lemma CrCheckExact(c: Cent, idx: nat, ttl: int, flags: CFlags, now: int)
    requires CentOk(c)
    ensures CrCheck(c, idx, ttl, flags, now).ok <==> Admits(c, idx, ttl, flags, now)
    ensures CrCheck(c, idx, ttl, flags, now).cent.sets ==
            if CrCheck(c, idx, ttl, flags, now).ok && !flags.negative then c.sets - RivalsOf(c, idx).Keys else c.sets
  {
    var rivals := RivalsOf(c, idx);
    forall i: nat ensures RivalAt(c, idx, rivals, i) {}
    RivalsWithin(c, idx, rivals);
    RivalsLocal(c, idx, rivals);
    RivalsAre(c, idx, rivals, now);
    if |rivals| > 0 {
      AboveMean(ttl, TimeLeft(rivals, now), |rivals|);
    } else {
      assert rivals == map[];
      assert c.sets - rivals.Keys == c.sets;
    }
  }

  // ----- merging -----

  const CACHE_LAT := 120

  function Max(a: int, b: int): int { if a < b then b else a }

  /** The time to live has run out, but at least CACHE_LAT seconds have passed. */
  predicate TimedOut(s: RrSet, now: int) { s.ts + Max(s.ttl, CACHE_LAT) < now }

  /** Local sets have precedence; so have answers over additional records, and those of root servers
      over those of other servers, while they have not timed out. */
  predicate Precedence(old': RrSet, new': RrSet, now: int)
  {
    (!new'.flags.loc && old'.flags.loc) ||
    (new'.flags.additional && (!old'.flags.additional || (!new'.flags.rootserv && old'.flags.rootserv)) && !TimedOut(old', now))
  }

  /** The configured limits of times to live. */
  datatype Limits = Limits(minTtl: int, maxTtl: int, negTtl: int)

  function AdjustedTtl(ttl: int, nocache: bool, negative: bool, lim: Limits): int
  {
    var min := if negative && lim.negTtl < lim.minTtl then lim.negTtl else lim.minTtl;
    if nocache then 0 else if ttl < min then min else if ttl > lim.maxTtl then lim.maxTtl else ttl
  }

  /** adjust_ttl. */
  function Adjusted(s: RrSet, lim: Limits): RrSet
  {
    s.(ttl := AdjustedTtl(s.ttl, s.flags.nocache, s.flags.negative, lim), flags := s.flags.(nocache := false))
  }

  function Dropped(c: Cent, i: nat): Cent { if i in c.sets then DelSet(c, i) else c }

  /** add_cache: a set is merged into an existing entry. */
  function MergeOne(c: Cent, i: nat, s: RrSet, now: int, lim: Limits): Cent
  {
    if i in c.sets && Precedence(c.sets[i], s, now) then c
    else
      var r := CrCheck(Dropped(c, i), i, s.ttl, s.flags, now);
      if r.ok then PutSet(r.cent, i, Adjusted(s, lim)) else r.cent
  }

  /** The sets of index below n are merged into an existing entry. */
  function MergeAll(c: Cent, sets: map<nat, RrSet>, n: nat, now: int, lim: Limits): Cent
  {
    if n == 0 then c
    else
      var d := MergeAll(c, sets, n - 1, now, lim);
      if n - 1 in sets then MergeOne(d, n - 1, sets[n - 1], now, lim) else d
  }

  lemma DroppedOk(c: Cent, i: nat)
    requires CentOk(c)
    ensures CentOk(Dropped(c, i)) && Dropped(c, i).sets == c.sets - {i}
  {
    if i in c.sets { DelSetOk(c, i); }
  }

  lemma MergeOneOk(c: Cent, i: nat, s: RrSet, now: int, lim: Limits)
    requires CentOk(c) && i < NRRTOT
    ensures CentOk(MergeOne(c, i, s, now, lim)) && MergeOne(c, i, s, now, lim).qname == c.qname
  {
    DroppedOk(c, i);
    CrCheckIs(Dropped(c, i), i, s.ttl, s.flags, now);
    var r := CrCheck(Dropped(c, i), i, s.ttl, s.flags, now);
    if r.ok { PutSetOk(r.cent, i, Adjusted(s, lim)); }
  }

  /** Merging a set keeps an entry free of conflicts. */
  lemma MergeOneConflictFree(c: Cent, i: nat, s: RrSet, now: int, lim: Limits)
    requires CentOk(c) && i < NRRTOT && ConflictFree(c)
    ensures ConflictFree(MergeOne(c, i, s, now, lim))
  {
    DroppedOk(c, i);
    var r := CrCheck(Dropped(c, i), i, s.ttl, s.flags, now);
    CrCheckIs(Dropped(c, i), i, s.ttl, s.flags, now);
    if !(i in c.sets && Precedence(c.sets[i], s, now)) && r.ok {
      var d := MergeOne(c, i, s, now, lim);
      forall x, y | x in d.sets && y in d.sets && !d.sets[x].flags.negative && !d.sets[y].flags.negative
        ensures !Conflict(x, y)
      {
        assert x != i ==> !Rival(r.cent, i, x) || s.flags.negative;
        assert y != i ==> !Rival(r.cent, i, y) || s.flags.negative;
      }
    }
  }

  /** What is local in one entry is there in the other. */
  ghost predicate LocalKept(c: Cent, d: Cent)
  {
    forall i :: i in c.sets && c.sets[i].flags.loc ==> i in d.sets && d.sets[i] == c.sets[i]
  }

  /** Merging a set that is not local removes or changes no local set. */
  lemma MergeOneLocal(c: Cent, i: nat, s: RrSet, now: int, lim: Limits)
    requires CentOk(c) && i < NRRTOT && !s.flags.loc
    ensures LocalKept(c, MergeOne(c, i, s, now, lim))
  {
    DroppedOk(c, i);
    CrCheckIs(Dropped(c, i), i, s.ttl, s.flags, now);
  }

  lemma {:induction false} MergeAllOk(c: Cent, sets: map<nat, RrSet>, n: nat, now: int, lim: Limits)
    requires CentOk(c) && n <= NRRTOT
    ensures CentOk(MergeAll(c, sets, n, now, lim)) && MergeAll(c, sets, n, now, lim).qname == c.qname
  {
    if n > 0 {
      MergeAllOk(c, sets, n - 1, now, lim);
      if n - 1 in sets { MergeOneOk(MergeAll(c, sets, n - 1, now, lim), n - 1, sets[n - 1], now, lim); }
    }
  }

  lemma {:induction false} MergeAllConflictFree(c: Cent, sets: map<nat, RrSet>, n: nat, now: int, lim: Limits)
    requires CentOk(c) && n <= NRRTOT && ConflictFree(c)
    ensures ConflictFree(MergeAll(c, sets, n, now, lim))
  {
    if n > 0 {
      var d := MergeAll(c, sets, n - 1, now, lim);
      MergeAllOk(c, sets, n - 1, now, lim);
      MergeAllConflictFree(c, sets, n - 1, now, lim);
      if n - 1 in sets { MergeOneConflictFree(d, n - 1, sets[n - 1], now, lim); }
    }
  }

  lemma {:induction false} MergeAllLocal(c: Cent, sets: map<nat, RrSet>, n: nat, now: int, lim: Limits)
    requires CentOk(c) && n <= NRRTOT && forall i :: i in sets ==> !sets[i].flags.loc
    ensures LocalKept(c, MergeAll(c, sets, n, now, lim))
  {
    if n > 0 {
      MergeAllOk(c, sets, n - 1, now, lim);
      MergeAllLocal(c, sets, n - 1, now, lim);
      if n - 1 in sets { MergeOneLocal(MergeAll(c, sets, n - 1, now, lim), n - 1, sets[n - 1], now, lim); }
    }
  }

  /** Main result on merging: whatever is merged, the accounts stay right and an entry free of
      conflicts stays so; if nothing local is merged, no local set is removed or changed. */
  lemma MergeSafe(c: Cent, sets: map<nat, RrSet>, n: nat, now: int, lim: Limits)
    requires CentOk(c) && n <= NRRTOT
    ensures CentOk(MergeAll(c, sets, n, now, lim)) && MergeAll(c, sets, n, now, lim).qname == c.qname
    ensures ConflictFree(c) ==> ConflictFree(MergeAll(c, sets, n, now, lim))
    ensures (forall i :: i in sets ==> !sets[i].flags.loc) ==> LocalKept(c, MergeAll(c, sets, n, now, lim))
  {
    MergeAllOk(c, sets, n, now, lim);
    if ConflictFree(c) { MergeAllConflictFree(c, sets, n, now, lim); }
    if forall i :: i in sets ==> !sets[i].flags.loc { MergeAllLocal(c, sets, n, now, lim); }
  }

  // ----- purging one entry -----

  /** A set that is purged when its time has come. */
  predicate Expired(s: RrSet, now: int) { !s.flags.nopurge && !s.flags.loc && TimedOut(s, now) }

  /** The entry without the expired sets of index below n. */
  function Purged(c: Cent, n: nat, now: int): Cent
  {
    if n == 0 then c
    else
      var d := Purged(c, n - 1, now);
      if n - 1 in d.sets && Expired(d.sets[n - 1], now) then DelSet(d, n - 1) else d
  }

  lemma {:induction false} PurgedIs(c: Cent, n: nat, now: int)
    requires CentOk(c)
    ensures CentOk(Purged(c, n, now)) && SameFrame(c, Purged(c, n, now))
    ensures Purged(c, n, now).sets == Unexpired(c.sets, n, now)
  {
    if n > 0 {
      PurgedIs(c, n - 1, now);
      var d := Purged(c, n - 1, now);
      if n - 1 in d.sets && Expired(d.sets[n - 1], now) {
        DelSetOk(d, n - 1);
        assert d.sets - {n - 1} == Unexpired(c.sets, n, now);
      } else {
        assert d.sets == Unexpired(c.sets, n, now);
      }
    }
  }

  function Unexpired(sets: map<nat, RrSet>, n: nat, now: int): map<nat, RrSet>
  {
    map i | i in sets && !(i < n && Expired(sets[i], now)) :: sets[i]
  }

  /** The array for the less frequently used sets is freed when there are none. */
  function Trimmed(c: Cent): Cent
  {
    if c.ext && SetsCount(c.sets, NRRTOT) == SetsCount(c.sets, NRRMU)
    then c.(ext := false, cs := c.cs - SIZEOF_PTR * NRREXT) else c
  }

  lemma {:induction false} CountAbove(sets: map<nat, RrSet>, m: nat, n: nat)
    requires m <= n
    ensures SetsCount(sets, m) <= SetsCount(sets, n)
    ensures SetsCount(sets, m) == SetsCount(sets, n) <==> forall i :: m <= i < n ==> i !in sets
  {
    if m < n { CountAbove(sets, m, n - 1); }
  }

  lemma TrimmedOk(c: Cent)
    requires CentOk(c)
    ensures CentOk(Trimmed(c)) && Trimmed(c).sets == c.sets && Trimmed(c).qname == c.qname
  {
    CountAbove(c.sets, NRRMU, NRRTOT);
  }

  lemma TrimmedIs(c: Cent, numExt: int)
    requires numExt == SetsCount(c.sets, NRRTOT) - SetsCount(c.sets, NRRMU)
    ensures Trimmed(c) == if c.ext && numExt == 0 then c.(ext := false, cs := c.cs - SIZEOF_PTR * NRREXT) else c
    ensures Trimmed(c).numRrs == c.numRrs && (Trimmed(c) != c <==> c.ext && numExt == 0)
  {
  }

  /** purge_all_rrsets. */
  function PurgedAll(c: Cent, now: int): Cent
  {
    if c.flags.negative then c else Trimmed(Purged(c, RrarrLen(c), now))
  }

  /** Purging an entry keeps just the sets that have not expired. */
  lemma PurgedAllIs(c: Cent, now: int)
    requires CentOk(c)
    ensures CentOk(PurgedAll(c, now)) && PurgedAll(c, now).qname == c.qname
    ensures PurgedAll(c, now).sets == map i | i in c.sets && !Expired(c.sets[i], now) :: c.sets[i]
  {
    PurgedIs(c, RrarrLen(c), now);
    TrimmedOk(Purged(c, RrarrLen(c), now));
  }

  /** The size of an entry may be left out while it is being changed. */
  lemma WithoutSize(s: Store, k: Key, size: int, num: int)
    requires k in s.cents
    ensures Whole(s, size, num) <==> WholeBut(s, k, size - s.cents[k].cs, num)
  {
  }

  /** Dropping a set, with the size of its entry counted or not. */
  lemma DropWhole(s: Store, k: Key, i: nat, size: int, num: int)
    requires Good(s) && k in s.cents && i in s.cents[k].sets
    ensures var s' := Store(s.cents[k := DelSet(s.cents[k], i)], Without(s.rrl, {Lent(k, i)}), s.sort);
      Good(s') && (WholeBut(s, k, size, num) ==> WholeBut(s', k, size, num)) &&
      (Whole(s, size, num) ==> Whole(s', size - SetSize(s.cents[k].sets[i]), num))
  {
    DropSet(s, k, i);
    PutOnly(s.cents, k, DelSet(s.cents[k], i));
  }

  lemma NewWhole(s: Store, k: Key, c: Cent, r: Rrl, size: int, num: int)
    requires Whole(s, size, num) && k !in s.cents && Good(Store(s.cents[k := c], r, s.sort))
    ensures Whole(Store(s.cents[k := c], r, s.sort), size + c.cs, num + 1)
  {
    TotalChanged(s.cents, k, c);
  }

  /** Freeing the array changes nothing else. */
  lemma TrimCent(s: Store, k: Key)
    requires Good(s) && k in s.cents
    ensures Good(Store(s.cents[k := Trimmed(s.cents[k])], s.rrl, s.sort))
  {
    var m, m' := s.cents, s.cents[k := Trimmed(s.cents[k])];
    TrimmedOk(m[k]);
    CentsPut(m, k, Trimmed(m[k]));
    forall n ensures InList(m', s.rrl, n) { assert InList(m, s.rrl, n); }
    if s.sort { AgeSame(m, m', s.rrl); }
  }

  /** One more index in purge_all_rrsets, and what it adds to the numbers of sets that remain. */
  lemma PurgedStep(c: Cent, i: nat, now: int)
    requires CentOk(c)
    ensures var d, d' := Purged(c, i, now), Purged(c, i + 1, now);
      (i in d.sets <==> i in c.sets) && (i in c.sets ==> d.sets[i] == c.sets[i]) &&
      d' == (if i in d.sets && Expired(d.sets[i], now) then DelSet(d, i) else d) &&
      SetsCount(d'.sets, i + 1) == SetsCount(d.sets, i) + (if i in d'.sets then 1 else 0) &&
      SetsCount(d'.sets, Min(i + 1, NRRMU)) == SetsCount(d.sets, Min(i, NRRMU)) + if i < NRRMU && i in d'.sets then 1 else 0
  {
    PurgedIs(c, i, now);
    var d := Purged(c, i, now);
    if i in d.sets {
      SetsWithout(d.sets, i, i);
      SetsWithout(d.sets, i, Min(i, NRRMU));
    }
  }

  /** What the loop of purge_all_rrsets has counted is all there is. */
  lemma PurgedCounts(c: Cent, now: int)
    requires CentOk(c)
    ensures var n, sets := RrarrLen(c), Purged(c, RrarrLen(c), now).sets;
      SetsCount(sets, n) == SetsCount(sets, NRRTOT) && SetsCount(sets, Min(n, NRRMU)) == SetsCount(sets, NRRMU)
  {
    var n, sets := RrarrLen(c), Purged(c, RrarrLen(c), now).sets;
    PurgedIs(c, n, now);
    CountAbove(sets, n, NRRTOT);
    CountAbove(sets, Min(n, NRRMU), NRRMU);
  }

  /** Only the last entry put under a key counts. */
  lemma PutTwice(m: Cents, k: Key, c: Cent, d: Cent)
    ensures m[k := c][k := d] == m[k := d]
  {
  }

  lemma PutThrice(m: Cents, k: Key, c: Cent, d: Cent, e: Cent)
    ensures m[k := c][k := d] == m[k := d] && m[k := c][k := d][k := e] == m[k := e]
  {
  }

  lemma PutSame(m: Cents, k: Key)
    requires k in m
    ensures m[k := m[k]] == m
  {
  }

  // ----- purging the cache -----

  /** timedout_nxdom. */
  predicate NegTimedOut(c: Cent, now: int) { c.negTs + Max(c.negTtl, CACHE_LAT) < now }

  /** Sets and entries have been removed, but no local ones, and none has been changed. */
  ghost predicate Shrunk(m: Cents, m': Cents)
  {
    (forall k, i {:trigger SetShrunk(m, m', k, i)} :: SetShrunk(m, m', k, i)) &&
    forall k {:trigger CentShrunk(m, m', k)} :: CentShrunk(m, m', k)
  }

  /** No entry has become negative or local; a local one is still there, and the same. */
  ghost predicate CentShrunk(m: Cents, m': Cents, k: Key)
  {
    (k in m' ==> k in m && m'[k].flags == m[k].flags.(auth := m'[k].flags.auth) &&
                 m'[k].negTs == m[k].negTs && m'[k].negTtl == m[k].negTtl) &&
    (k in m && m[k].flags.loc ==> k in m' && m'[k] == m[k])
  }

  ghost predicate SetShrunk(m: Cents, m': Cents, k: Key, i: nat)
  {
    (k in m' && i in m'[k].sets ==> k in m && i in m[k].sets && m'[k].sets[i] == m[k].sets[i]) &&
    (k in m && i in m[k].sets && m[k].sets[i].flags.loc ==> k in m' && i in m'[k].sets)
  }

  lemma ShrunkTrans(a: Cents, b: Cents, c: Cents)
    requires Shrunk(a, b) && Shrunk(b, c)
    ensures Shrunk(a, c)
  {
    forall k, i: nat ensures SetShrunk(a, c, k, i) {
      assert SetShrunk(a, b, k, i) && SetShrunk(b, c, k, i);
    }
    forall k ensures CentShrunk(a, c, k) { assert CentShrunk(a, b, k) && CentShrunk(b, c, k); }
  }

  /** No entry has been left with nothing in it. */
  ghost predicate NoneEmptied(m: Cents, m': Cents)
  {
    forall k :: k in m' && k in m && m[k].sets != map[] ==> m'[k].sets != map[]
  }

  lemma NoneEmptiedTrans(a: Cents, b: Cents, c: Cents)
    requires NoneEmptied(a, b) && NoneEmptied(b, c) && Shrunk(a, b) && Shrunk(b, c)
    ensures NoneEmptied(a, c)
  {
    forall k | k in c && k in a && a[k].sets != map[] ensures c[k].sets != map[] {
      assert CentShrunk(b, c, k);
    }
  }

  lemma NoneEmptiedSelf(m: Cents)
    ensures NoneEmptied(m, m) && forall k :: NoneEmptied(m, m - {k})
  {
  }

  /** An entry that has lost a set is not empty, or is deleted. */
  lemma EmptiedGone(m: Cents, k: Key, c: Cent)
    requires k in m && CentOk(c)
    ensures NoneEmptied(m, m[k := c] - {k})
    ensures c.numRrs != 0 ==> NoneEmptied(m, m[k := c])
  {
    HoldsNothing(c);
  }

  /** Deleting one set that is not local. */
  lemma DropShrinks(m: Cents, k: Key, i: nat)
    requires k in m && (i in m[k].sets ==> !m[k].sets[i].flags.loc && !m[k].flags.loc)
    ensures Shrunk(m, m[k := Dropped(m[k], i)])
  {
    var m' := m[k := Dropped(m[k], i)];
    forall x, j: nat ensures SetShrunk(m, m', x, j) {}
    forall x ensures CentShrunk(m, m', x) {}
  }

  /** Deleting an entry that has no sets. */
  lemma EmptyShrinks(m: Cents, k: Key)
    requires k in m && CentOk(m[k]) && m[k].numRrs == 0 && !m[k].flags.loc
    ensures Shrunk(m, m - {k})
  {
    NoSets(m[k].sets, NRRTOT);
    forall x, j: nat ensures SetShrunk(m, m - {k}, x, j) {}
    forall x ensures CentShrunk(m, m - {k}, x) {}
  }

  /** An entry whose last set has been deleted has nothing in the list. */
  lemma NoNodes(m: Cents, r: Rrl, k: Key)
    requires ListOk(m, r) && CentsOk(m) && k in m && m[k].numRrs == 0 && !m[k].flags.negative
    ensures Without(r, NodesOf(k)) == r
  {
    NoSets(m[k].sets, NRRTOT);
    forall n | n in NodesOf(k) ensures n !in r { assert InList(m, r, n); }
    WithoutIs(r, NodesOf(k));
  }

  /** A negative entry has its own place in the list, and no other. */
  lemma OneNode(m: Cents, r: Rrl, k: Key)
    requires ListOk(m, r) && CentsOk(m) && k in m && m[k].flags.negative
    ensures Without(r, NodesOf(k)) == Without(r, {Lent(k, -1)})
  {
    forall n | n in r ensures n in NodesOf(k) <==> n in {Lent(k, -1)} { assert InList(m, r, n); }
    WithoutSame(r, NodesOf(k), {Lent(k, -1)});
  }

  lemma ShrunkSelf(m: Cents)
    ensures Shrunk(m, m)
  {
    forall k, i: nat ensures SetShrunk(m, m, k, i) {}
    forall k ensures CentShrunk(m, m, k) {}
  }

  /** What is left of a list at its end. */
  ghost predicate Suffix(mid: Rrl, r: Rrl)
  {
    |r| <= |mid| && r == mid[|mid| - |r|..]
  }

  /** Removing the first entry of a part that reaches to the end of the list. */
  lemma SuffixStep(mid: Rrl, r: Rrl)
    requires r != [] && Suffix(mid, r)
    ensures Suffix(mid, r[1..])
  {
  }

  /** How long a set or a negation may be used: for its time to live, but at least for two minutes. */
  function Until(ts: int, ttl: int): int { ts + if ttl < 120 then 120 else ttl }

  /** What n stands for is there, may be purged, and its time has run out. */
  ghost predicate Stale(m: Cents, n: Lent, now: int)
  {
    n.key in m &&
    if n.idx < 0 then m[n.key].flags.negative && Until(m[n.key].negTs, m[n.key].negTtl) < now
    else
      n.idx in m[n.key].sets && !m[n.key].sets[n.idx].flags.nopurge && !m[n.key].sets[n.idx].flags.loc &&
      Until(m[n.key].sets[n.idx].ts, m[n.key].sets[n.idx].ttl) < now
  }

  ghost predicate NoneStale(m: Cents, r: Rrl, now: int)
  {
    forall n :: n in r ==> !Stale(m, n, now)
  }

  /** What has been removed from the list was stale. */
  ghost predicate StaleGone(m: Cents, r: Rrl, r': Rrl, now: int)
  {
    forall n :: n in r && n !in r' ==> Stale(m, n, now)
  }

  /** Purging changes nothing about what stays in the list. */
  lemma ShrunkStale(m: Cents, m': Cents, r': Rrl, n: Lent, now: int)
    requires Shrunk(m, m') && ListOk(m', r') && n in r'
    ensures Stale(m', n, now) == Stale(m, n, now) && Ts(m', n) == Ts(m, n)
  {
    assert InList(m', r', n) && CentShrunk(m, m', n.key);
    if n.idx >= 0 { assert SetShrunk(m, m', n.key, n.idx); } else { assert CentShrunk(m, m', n.key); }
  }

  /** Only what x stands for has been removed. */
  ghost predicate OneLess(m: Cents, m': Cents, x: Lent)
  {
    Shrunk(m, m') && Listed(m, x) && forall n {:trigger Listed(m', n)} :: Listed(m', n) <==> Listed(m, n) && n != x
  }

  /** The last thing to be removed had to be: with it, the cache was larger than sz. */
  ghost predicate HadTo(m': Cents, sz: int)
  {
    exists m, x :: OneLess(m, m', x) && Total(m) > sz
  }

  lemma LessOf(m: Cents, r: Rrl, m': Cents, r': Rrl, j: nat)
    requires ListOk(m, r) && ListOk(m', r') && Shrunk(m, m') && j < |r| && r' == r[..j] + r[j + 1..]
    ensures OneLess(m, m', r[j])
  {
    assert InList(m, r, r[j]);
    forall n ensures Listed(m', n) <==> Listed(m, n) && n != r[j] {
      assert InList(m, r, n) && InList(m', r', n);
      assert n in r' <==> n in r && n != r[j];
    }
  }

  /** The entry that a list entry stands for holds something: a set, or it is negative and has none. */
  lemma ListedHolds(m: Cents, n: Lent)
    requires Listed(m, n) && CentOk(m[n.key])
    ensures m[n.key].numRrs == 0 <==> m[n.key].flags.negative
    ensures n.idx < 0 <==> m[n.key].flags.negative
  {
    NoneCount(NRRTOT);
    if m[n.key].numRrs == 0 { NoSets(m[n.key].sets, NRRTOT); }
  }

  /** One turn of the first pass. */
  lemma PassedOne(m: Cents, r: Rrl, m1: Cents, r1: Rrl, m2: Cents, r2: Rrl, j: nat, now: int)
    requires Shrunk(m, m1) && Shrunk(m1, m2) && ListOk(m1, r1) && ListOk(m2, r2) && j < |r1|
    requires r2 == if Stale(m1, r1[j], now) then r1[..j] + r1[j + 1..] else r1
    requires StaleGone(m, r, r1, now) && forall i :: 0 <= i < j ==> !Stale(m1, r1[i], now)
    ensures Shrunk(m, m2) && StaleGone(m, r, r2, now) && (|r2| == |r1| || OneLess(m1, m2, r1[j]))
    ensures forall i :: 0 <= i < (if |r2| == |r1| then j + 1 else j) ==> !Stale(m2, r2[i], now)
  {
    ShrunkTrans(m, m1, m2);
    forall n | n in r && n !in r2 ensures Stale(m, n, now) {
      if n in r1 { ShrunkStale(m, m1, r1, n, now); }
    }
    forall i | 0 <= i < (if |r2| == |r1| then j + 1 else j) ensures !Stale(m2, r2[i], now) {
      assert r2[i] == r1[i];
      ShrunkStale(m1, m2, r2, r2[i], now);
    }
    if |r2| != |r1| { LessOf(m1, r1, m2, r2, j); }
  }

  /** What has been removed without being stale is older than all that is left. */
  ghost predicate OldestGone(m: Cents, r: Rrl, r': Rrl, now: int)
  {
    forall x, n :: x in r && x !in r' && !Stale(m, x, now) && n in r' ==> Ts(m, x) <= Ts(m, n)
  }

  /** What purge_cache may, and must, make of m. Sets and negations go that are stale; all of them, unless
      there is room enough already and it is `lazy`. If anything else goes, nothing stale is left, and
      what goes is the oldest. Nothing goes that need not. */
  ghost predicate PurgedDuly(m: Cents, r: Rrl, m': Cents, r': Rrl, sz: int, lazy: bool, now: int)
  {
    var ok := Shrunk(m, m') && NoneEmptied(m, m') && (Total(m') <= sz || r' == []) &&
      (!lazy ==> NoneStale(m', r', now)) &&
      (lazy ==> m' == m || HadTo(m', sz)) &&
      (lazy && Total(m) <= sz ==> m' == m && r' == r) &&
      (StaleGone(m, r, r', now) || (NoneStale(m', r', now) && HadTo(m', sz) && OldestGone(m, r, r', now)));
    ok
  }

  /** The first pass leaves nothing stale, unless it stops because there is room; it removes nothing else. */
  ghost predicate FirstPass(m: Cents, r: Rrl, m': Cents, r': Rrl, sz: int, lazy: bool, now: int)
  {
    var ok := Shrunk(m, m') && NoneEmptied(m, m') && ((lazy && Total(m') <= sz) || NoneStale(m', r', now)) &&
      StaleGone(m, r, r', now) && (lazy ==> m' == m || HadTo(m', sz)) &&
      (lazy && Total(m) <= sz ==> m' == m && r' == r);
    ok
  }

  /** The second pass removes the first entries of `mid`, the list in order. */
  ghost predicate SecondPass(m: Cents, r: Rrl, m': Cents, r': Rrl, mid: Rrl, sz: int)
  {
    var ok := Shrunk(m, m') && NoneEmptied(m, m') && ByAge(m, mid) && (forall n :: n in mid <==> n in r) && Suffix(mid, r') &&
      (Total(m') <= sz || r' == []) && ((m' == m && r' == mid) || HadTo(m', sz));
    ok
  }

  lemma FirstPassOnly(m: Cents, r: Rrl, m': Cents, r': Rrl, sz: int, lazy: bool, now: int)
    requires FirstPass(m, r, m', r', sz, lazy, now) && Total(m') <= sz
    ensures PurgedDuly(m, r, m', r', sz, lazy, now)
  {
  }

  lemma BothPasses(m: Cents, r: Rrl, m1: Cents, r1: Rrl, m2: Cents, r2: Rrl, mid: Rrl, sz: int, lazy: bool, now: int)
    requires FirstPass(m, r, m1, r1, sz, lazy, now) && Total(m1) > sz && SecondPass(m1, r1, m2, r2, mid, sz)
    requires ListOk(m1, r1) && ListOk(m2, r2)
    ensures PurgedDuly(m, r, m2, r2, sz, lazy, now)
  {
    ShrunkTrans(m, m1, m2);
    NoneEmptiedTrans(m, m1, m2);
    forall n | n in r2 ensures !Stale(m2, n, now) {
      assert n in mid;
      ShrunkStale(m1, m2, r2, n, now);
    }
    forall x, n | x in r && x !in r2 && !Stale(m, x, now) && n in r2 ensures Ts(m, x) <= Ts(m, n) {
      assert n in mid && x in r1;
      DroppedFirst(m1, mid, r2, x, n);
      ShrunkStale(m, m1, r1, x, now);
      ShrunkStale(m, m1, r1, n, now);
    }
  }

  lemma DroppedFirst(m: Cents, mid: Rrl, r: Rrl, x: Lent, n: Lent)
    requires ByAge(m, mid) && Suffix(mid, r) && x in mid && x !in r && n in r
    ensures Ts(m, x) <= Ts(m, n)
  {
    var i: nat :| i < |mid| && mid[i] == x;
    var j: nat :| j < |r| && r[j] == n;
    var d := |mid| - |r|;
    assert mid[d + j] == n;
    assert forall t :: d <= t < |mid| ==> mid[t] == r[t - d];
  }

  // ----- new entries -----

  /** The copy of an entry that is put into the cache, with its times to live adjusted. */
  function AdjustedCent(c: Cent, lim: Limits): Cent
  {
    if c.flags.negative
    then c.(negTtl := AdjustedTtl(c.negTtl, c.flags.nocache, true, lim), flags := c.flags.(nocache := false))
    else c.(sets := map i | i in c.sets :: Adjusted(c.sets[i], lim))
  }

  lemma {:induction false} AdjustedSizes(c: Cent, lim: Limits, n: nat)
    ensures SetsSize(map i | i in c.sets :: Adjusted(c.sets[i], lim), n) == SetsSize(c.sets, n)
    ensures SetsCount(map i | i in c.sets :: Adjusted(c.sets[i], lim), n) == SetsCount(c.sets, n)
  {
    if n > 0 { AdjustedSizes(c, lim, n - 1); }
  }

  lemma AdjustedCentOk(c: Cent, lim: Limits)
    requires CentOk(c)
    ensures CentOk(AdjustedCent(c, lim))
  {
    AdjustedSizes(c, lim, NRRTOT);
  }

  /** The list while the sets of a new entry k are inserted: those of index below n have been. */
  ghost predicate Inserting(m: Cents, r: Rrl, sort: bool, k: Key, n: int)
  {
    Distinct(r) && (sort ==> ByAge(m, r)) &&
    forall x {:trigger Inserted(m, r, k, n, x)} :: Inserted(m, r, k, n, x)
  }

  ghost predicate Inserted(m: Cents, r: Rrl, k: Key, n: int, x: Lent)
  {
    x in r <==> Listed(m, x) && (x.key == k ==> x.idx < n)
  }

  lemma InsertStarts(s: Store, k: Key, c: Cent)
    requires Good(s) && k !in s.cents
    ensures Inserting(s.cents[k := c], s.rrl, s.sort, k, if c.flags.negative then -1 else 0)
  {
    var m := s.cents[k := c];
    var n0 := if c.flags.negative then -1 else 0;
    forall x ensures Inserted(m, s.rrl, k, n0, x) {
      assert InList(s.cents, s.rrl, x);
    }
    if s.sort {
      forall n | n in s.rrl ensures Ts(s.cents, n) == Ts(m, n) { assert InList(s.cents, s.rrl, n); }
      AgeSame(s.cents, m, s.rrl);
    }
  }

  lemma InsertStep(m: Cents, r: Rrl, sort: bool, k: Key, n: int, r': Rrl)
    requires Inserting(m, r, sort, k, n)
    requires if Listed(m, Lent(k, n)) then InsertedAt(m, r, Lent(k, n), sort, r') else r' == r
    ensures Inserting(m, r', sort, k, n + 1)
  {
    assert Inserted(m, r, k, n, Lent(k, n));
    if Listed(m, Lent(k, n)) { InsertedIs(m, r, Lent(k, n), sort, r'); }
    var n1 := n + 1;
    forall x ensures Inserted(m, r', k, n1, x) { assert Inserted(m, r, k, n, x); }
  }

  lemma InsertEnds(s: Store, k: Key, c: Cent, r: Rrl, n: int)
    requires Good(s) && CentOk(c) && Fold(c.qname) == k && Inserting(s.cents[k := c], r, s.sort, k, n)
    requires if c.flags.negative then n == 0 else n >= RrarrLen(c)
    ensures Good(Store(s.cents[k := c], r, s.sort))
  {
    var m := s.cents[k := c];
    CentsPut(s.cents, k, c);
    forall x ensures InList(m, r, x) { assert Inserted(m, r, k, n, x); }
  }

  /** Only a negative entry has a list entry of its own. */
  lemma NotNegative(m: Cents, r: Rrl, k: Key)
    requires ListOk(m, r) && k in m && !m[k].flags.negative
    ensures Without(r, {Lent(k, -1)}) == r
  {
    assert InList(m, r, Lent(k, -1));
    WithoutIs(r, {Lent(k, -1)});
  }

  lemma DropOnly(m: Cents, k: Key)
    requires k in m
    ensures |m - {k}| == |m| - 1 && Total(m - {k}) == Total(m) - m[k].cs
  {
    TotalWithout(m, k);
    assert (m - {k}).Keys == m.Keys - {k};
  }

  lemma PutOnly(m: Cents, k: Key, c: Cent)
    requires k in m
    ensures |m[k := c]| == |m| && Total(m[k := c]) - c.cs == Total(m) - m[k].cs
  {
    TotalChanged(m, k, c);
    assert m[k := c].Keys == m.Keys;
  }

  /** The larger number of name elements, as far as they are defined. */
  function Nearer(a: Elements, b: Elements): (r: Elements)
    ensures r == CUNDEF <==> a == CUNDEF && b == CUNDEF
    ensures a != CUNDEF && b != CUNDEF ==> r >= a && r >= b
    ensures r == a || r == b
  {
    if b != CUNDEF && (a == CUNDEF || a < b) then b else a
  }

  /** What an entry takes over from the one that is merged into it, besides the sets. */
  function Joined(c: Cent, d: Cent): Cent
  {
    c.(flags := c.flags.(auth := c.flags.auth || d.flags.auth, wild := c.flags.wild || d.flags.wild),
       cNs := Nearer(c.cNs, d.cNs), cSoa := Nearer(c.cSoa, d.cSoa))
  }

  lemma JoinCent(s: Store, k: Key, d: Cent, size: int, num: int)
    requires WholeBut(s, k, size, num)
    ensures WholeBut(Store(s.cents[k := Joined(s.cents[k], d)], s.rrl, s.sort), k, size, num)
  {
    var m, m' := s.cents, s.cents[k := Joined(s.cents[k], d)];
    PutOnly(m, k, Joined(m[k], d));
    CentsPut(m, k, Joined(m[k], d));
    forall n ensures InList(m', s.rrl, n) { assert InList(m, s.rrl, n); }
    if s.sort { AgeSame(m, m', s.rrl); }
  }

  /** add_cache, for an entry that is there already and a new one that is not negative. */
  function Merged(c: Cent, new': Cent, now: int, lim: Limits): Cent
  {
    Joined(MergeAll(PurgedAll(c, now), new'.sets, RrarrLen(new'), now, lim), new')
  }

  lemma MergedSafe(c: Cent, new': Cent, now: int, lim: Limits)
    requires CentOk(c)
    ensures ConflictFree(c) ==> ConflictFree(Merged(c, new', now, lim))
    ensures (forall i :: i in new'.sets ==> !new'.sets[i].flags.loc) ==> LocalKept(c, Merged(c, new', now, lim))
  {
    PurgedAllIs(c, now);
    MergeSafe(PurgedAll(c, now), new'.sets, RrarrLen(new'), now, lim);
  }

  // ----- what a merge comes to -----

  /** No set that is not negative is in conflict with index i. */
  ghost predicate Unopposed(sets: map<nat, RrSet>, i: nat)
  {
    forall j :: j in sets && j != i && Conflict(i, j) ==> sets[j].flags.negative
  }

  /** The old set stays: local sets have precedence over others. While they may still be used, so have
      answers over additional records, and what comes from root servers over additional records of
      other servers. */
  ghost predicate OldStays(old': RrSet, new': RrSet, now: int)
  {
    (old'.flags.loc && !new'.flags.loc) ||
    (new'.flags.additional && Until(old'.ts, old'.ttl) >= now &&
     (!old'.flags.additional || (old'.flags.rootserv && !new'.flags.rootserv)))
  }

  /** A time to live within the limits is left as it is, and any other is changed to the nearest limit; what
      is not to be cached has none. The lower limit for negations is neg_ttl, if that is less. */
  ghost predicate TtlWithin(r: int, ttl: int, nocache: bool, negative: bool, lim: Limits)
  {
    var low := if negative && lim.negTtl < lim.minTtl then lim.negTtl else lim.minTtl;
    if nocache then r == 0
    else (low <= lim.maxTtl ==> low <= r <= lim.maxTtl) && (r == ttl || (r == low && ttl < low) || (r == lim.maxTtl && ttl > lim.maxTtl))
  }

  /** A copy of a set, with its time to live within the limits. */
  ghost predicate CopyOf(s: RrSet, d: RrSet, lim: Limits)
  {
    d.ts == s.ts && d.rrs == s.rrs && d.flags == s.flags.(nocache := false) &&
    TtlWithin(d.ttl, s.ttl, s.flags.nocache, s.flags.negative, lim)
  }

  lemma AdjustedCopies(s: RrSet, lim: Limits)
    ensures CopyOf(s, Adjusted(s, lim), lim)
  {
  }

  /** The entry has the set i, as the other one has it, or has none like that one. */
  ghost predicate SameAt(c: Cent, d: Cent, i: nat)
  {
    if i in c.sets then i in d.sets && d.sets[i] == c.sets[i] else i !in d.sets
  }

  /** A new set that is let in if there is no conflict. */
  ghost predicate LetIn(c: Cent, s: RrSet) { s.flags.negative || s.flags.loc || !c.flags.loc }

  /** What becomes of set i when a set of that index is added. */
  ghost predicate SetMerged(c: Cent, s: RrSet, d: Cent, i: nat, now: int, lim: Limits)
  {
    if i in c.sets && OldStays(c.sets[i], s, now) then i in d.sets && d.sets[i] == c.sets[i]
    else
      (!LetIn(c, s) ==> i !in d.sets) &&
      (LetIn(c, s) && (s.flags.negative || Unopposed(c.sets, i)) ==> i in d.sets && CopyOf(s, d.sets[i], lim))
  }

  lemma MergeOneHere(c: Cent, i: nat, s: RrSet, now: int, lim: Limits)
    requires CentOk(c) && i < NRRTOT
    ensures SetMerged(c, s, MergeOne(c, i, s, now, lim), i, now, lim)
  {
    DroppedOk(c, i);
    AdjustedCopies(s, lim);
    var d := Dropped(c, i);
    CrCheckIs(d, i, s.ttl, s.flags, now);
    if Unopposed(c.sets, i) {
      LocalRivalIs(d, i, RrarrLen(d));
      RivalsIs(d, i, RrarrLen(d));
    }
  }

  lemma MergeOneElsewhere(c: Cent, j: nat, s: RrSet, i: nat, now: int, lim: Limits)
    requires CentOk(c) && i != j && (Conflict(i, j) ==> s.flags.negative)
    ensures SameAt(c, MergeOne(c, j, s, now, lim), i)
  {
    DroppedOk(c, j);
    CrCheckIs(Dropped(c, j), j, s.ttl, s.flags, now);
  }

  /** A set of d is one of c, or has been made from one of the others that have an index below n. */
  ghost predicate ComesFrom(c: Cent, sets: map<nat, RrSet>, n: nat, d: Cent, j: nat)
  {
    j in d.sets ==>
      (j in c.sets && d.sets[j] == c.sets[j]) || (j < n && j in sets && d.sets[j].flags.negative == sets[j].flags.negative)
  }

  lemma MergeOneFrom(c: Cent, i: nat, s: RrSet, j: nat, now: int, lim: Limits)
    requires CentOk(c)
    ensures var d := MergeOne(c, i, s, now, lim);
      j in d.sets ==> (j in c.sets && d.sets[j] == c.sets[j]) || (j == i && d.sets[j].flags.negative == s.flags.negative)
  {
    DroppedOk(c, i);
    CrCheckIs(Dropped(c, i), i, s.ttl, s.flags, now);
  }

  lemma MergeOneFrame(c: Cent, i: nat, s: RrSet, now: int, lim: Limits)
    requires CentOk(c)
    ensures MergeOne(c, i, s, now, lim).flags.loc == c.flags.loc
  {
    DroppedOk(c, i);
    CrCheckIs(Dropped(c, i), i, s.ttl, s.flags, now);
  }

  lemma {:induction false} MergeAllFrom(c: Cent, sets: map<nat, RrSet>, n: nat, j: nat, now: int, lim: Limits)
    requires CentOk(c) && n <= NRRTOT
    ensures MergeAll(c, sets, n, now, lim).flags.loc == c.flags.loc
    ensures ComesFrom(c, sets, n, MergeAll(c, sets, n, now, lim), j)
  {
    if n > 0 {
      MergeAllOk(c, sets, n - 1, now, lim);
      MergeAllFrom(c, sets, n - 1, j, now, lim);
      if n - 1 in sets {
        MergeOneFrom(MergeAll(c, sets, n - 1, now, lim), n - 1, sets[n - 1], j, now, lim);
        MergeOneFrame(MergeAll(c, sets, n - 1, now, lim), n - 1, sets[n - 1], now, lim);
      }
    }
  }

  lemma MergeAllUnopposed(c: Cent, sets: map<nat, RrSet>, n: nat, i: nat, now: int, lim: Limits)
    requires CentOk(c) && n <= NRRTOT && Unopposed(sets, i)
    ensures MergeAll(c, sets, n, now, lim).flags.loc == c.flags.loc
    ensures Unopposed(c.sets, i) ==> Unopposed(MergeAll(c, sets, n, now, lim).sets, i)
  {
    MergeAllFrom(c, sets, n, i, now, lim);
    var d := MergeAll(c, sets, n, now, lim);
    if Unopposed(c.sets, i) {
      forall j | j in d.sets && j != i && Conflict(i, j) ensures d.sets[j].flags.negative {
        MergeAllFrom(c, sets, n, j, now, lim);
      }
    }
  }

  /** What becomes of set i when the sets of index below n are merged. */
  lemma {:induction false} MergeAllAt(c: Cent, sets: map<nat, RrSet>, n: nat, i: nat, now: int, lim: Limits)
    requires CentOk(c) && n <= NRRTOT && Unopposed(sets, i)
    ensures var d := MergeAll(c, sets, n, now, lim);
      if i < n && i in sets then SetMerged(c, sets[i], d, i, now, lim) else SameAt(c, d, i)
  {
    if n > 0 {
      var d := MergeAll(c, sets, n - 1, now, lim);
      MergeAllOk(c, sets, n - 1, now, lim);
      MergeAllAt(c, sets, n - 1, i, now, lim);
      if n - 1 in sets {
        if n - 1 == i {
          MergeAllUnopposed(c, sets, n - 1, i, now, lim);
          MergeOneHere(d, i, sets[i], now, lim);
        } else {
          MergeOneElsewhere(d, n - 1, sets[n - 1], i, now, lim);
        }
      }
    }
  }

  /** Set i after the entry new' has been merged into c, unless another set of new' opposes it: a set that
      new' does not have stays until its time has run out. */
  ghost predicate MergedAt(c: Cent, new': Cent, d: Cent, i: nat, now: int, lim: Limits)
  {
    Unopposed(new'.sets, i) ==>
      if i in new'.sets then SetMerged(c, new'.sets[i], d, i, now, lim)
      else if i in c.sets && StillGood(c.sets[i], now) then i in d.sets && d.sets[i] == c.sets[i]
      else i !in d.sets
  }

  predicate StillGood(s: RrSet, now: int) { s.flags.nopurge || s.flags.loc || Until(s.ts, s.ttl) >= now }

  /** Main result on precedence: what a merge leaves of each set. */
  lemma MergedIs(c: Cent, new': Cent, i: nat, now: int, lim: Limits)
    requires CentOk(c) && CentOk(new')
    ensures MergedAt(c, new', Merged(c, new', now, lim), i, now, lim)
  {
    if Unopposed(new'.sets, i) {
      var p := PurgedAll(c, now);
      PurgedAllIs(c, now);
      PurgedFrame(c, now);
      MergeAllAt(p, new'.sets, RrarrLen(new'), i, now, lim);
      assert Unopposed(c.sets, i) ==> Unopposed(p.sets, i);
    }
  }

  lemma PurgedFrame(c: Cent, now: int)
    requires CentOk(c)
    ensures PurgedAll(c, now).flags.loc == c.flags.loc
  {
    PurgedIs(c, RrarrLen(c), now);
  }

  /** No set of c has been removed or changed. */
  ghost predicate AllKept(c: Cent, d: Cent) { forall i :: i in c.sets ==> i in d.sets && d.sets[i] == c.sets[i] }

  lemma MergeOneAuth(c: Cent, i: nat, s: RrSet, now: int, lim: Limits)
    requires CentOk(c)
    ensures MergeOne(c, i, s, now, lim).flags.auth ==> c.flags.auth && AllKept(c, MergeOne(c, i, s, now, lim))
  {
    var n := RrarrLen(Dropped(c, i));
    DroppedOk(c, i);
    ClearedAuth(Dropped(c, i), i, n);
  }

  lemma {:induction false} ClearedAuth(c: Cent, idx: nat, n: nat)
    requires CentOk(c)
    ensures Cleared(c, idx, n).flags.auth ==> Cleared(c, idx, n) == c
  {
    if n > 0 { ClearedAuth(c, idx, n - 1); }
  }

  lemma {:induction false} MergeAllAuth(c: Cent, sets: map<nat, RrSet>, n: nat, now: int, lim: Limits)
    requires CentOk(c) && n <= NRRTOT
    ensures MergeAll(c, sets, n, now, lim).flags.auth ==> c.flags.auth && AllKept(c, MergeAll(c, sets, n, now, lim))
  {
    if n > 0 {
      MergeAllOk(c, sets, n - 1, now, lim);
      MergeAllAuth(c, sets, n - 1, now, lim);
      if n - 1 in sets { MergeOneAuth(MergeAll(c, sets, n - 1, now, lim), n - 1, sets[n - 1], now, lim); }
    }
  }

  lemma {:induction false} PurgedAuth(c: Cent, n: nat, now: int)
    ensures Purged(c, n, now).flags.auth ==> Purged(c, n, now) == c
  {
    if n > 0 { PurgedAuth(c, n - 1, now); }
  }

  /** An entry is marked authoritative, and that is to say complete, only if what has been merged is, or if
      it was and has lost nothing. */
  lemma MergedAuth(c: Cent, new': Cent, now: int, lim: Limits)
    requires CentOk(c)
    ensures var d := Merged(c, new', now, lim);
      d.flags.auth ==> new'.flags.auth || (c.flags.auth && AllKept(c, d))
    ensures new'.flags.auth ==> Merged(c, new', now, lim).flags.auth
  {
    PurgedAuth(c, RrarrLen(c), now);
    PurgedAllIs(c, now);
    MergeAllAuth(PurgedAll(c, now), new'.sets, RrarrLen(new'), now, lim);
  }

  /** What a merge leaves of an entry: its sets, its flags, and the numbers of name elements. */
  ghost predicate MergedDuly(c: Cent, new': Cent, d: Cent, now: int, lim: Limits)
  {
    (forall i {:trigger MergedAt(c, new', d, i, now, lim)} :: MergedAt(c, new', d, i, now, lim)) &&
    (d.flags.auth ==> new'.flags.auth || (c.flags.auth && AllKept(c, d))) && (new'.flags.auth ==> d.flags.auth) &&
    (d.flags.wild <==> c.flags.wild || new'.flags.wild) && d.flags.loc == c.flags.loc &&
    ReachesFurther(c.cNs, new'.cNs, d.cNs) && ReachesFurther(c.cSoa, new'.cSoa, d.cSoa)
  }

  /** The larger one, of those that are defined. */
  ghost predicate ReachesFurther(a: Elements, b: Elements, r: Elements)
  {
    (r == a || r == b) && (a != CUNDEF ==> CUNDEF != r >= a) && (b != CUNDEF ==> CUNDEF != r >= b)
  }

  lemma {:induction false} MergeAllFrame(c: Cent, sets: map<nat, RrSet>, n: nat, now: int, lim: Limits)
    requires CentOk(c) && n <= NRRTOT
    ensures SameElsewhere(c, MergeAll(c, sets, n, now, lim))
  {
    if n > 0 {
      var d := MergeAll(c, sets, n - 1, now, lim);
      MergeAllOk(c, sets, n - 1, now, lim);
      MergeAllFrame(c, sets, n - 1, now, lim);
      if n - 1 in sets { MergeOneElse(d, n - 1, sets[n - 1], now, lim); }
    }
  }

  ghost predicate SameElsewhere(c: Cent, d: Cent)
  {
    d.flags.wild == c.flags.wild && d.flags.loc == c.flags.loc && d.cNs == c.cNs && d.cSoa == c.cSoa
  }

  lemma {:induction false} ClearedElse(c: Cent, idx: nat, n: nat)
    ensures SameElsewhere(c, Cleared(c, idx, n))
  {
    if n > 0 { ClearedElse(c, idx, n - 1); }
  }

  lemma MergeOneElse(c: Cent, i: nat, s: RrSet, now: int, lim: Limits)
    ensures SameElsewhere(c, MergeOne(c, i, s, now, lim))
  {
    ClearedElse(Dropped(c, i), i, RrarrLen(Dropped(c, i)));
  }

  lemma {:induction false} PurgedElse(c: Cent, n: nat, now: int)
    ensures SameElsewhere(c, Purged(c, n, now))
  {
    if n > 0 { PurgedElse(c, n - 1, now); }
  }

  lemma MergedIsDuly(c: Cent, new': Cent, now: int, lim: Limits)
    requires CentOk(c) && CentOk(new')
    ensures MergedDuly(c, new', Merged(c, new', now, lim), now, lim)
  {
    MergedAuth(c, new', now, lim);
    MergedElse(c, new', now, lim);
    forall i ensures MergedAt(c, new', Merged(c, new', now, lim), i, now, lim) { MergedIs(c, new', i, now, lim); }
  }

  lemma MergedElse(c: Cent, new': Cent, now: int, lim: Limits)
    requires CentOk(c)
    ensures var d := Merged(c, new', now, lim);
      (d.flags.wild <==> c.flags.wild || new'.flags.wild) && d.flags.loc == c.flags.loc &&
      ReachesFurther(c.cNs, new'.cNs, d.cNs) && ReachesFurther(c.cSoa, new'.cSoa, d.cSoa)
  {
    PurgedAllIs(c, now);
    PurgedElse(c, RrarrLen(c), now);
    MergeAllFrame(PurgedAll(c, now), new'.sets, RrarrLen(new'), now, lim);
  }

  /** A copy of an entry, with its times to live within the limits. */
  ghost predicate CentCopied(c: Cent, d: Cent, lim: Limits)
  {
    if c.flags.negative
    then d == c.(negTtl := d.negTtl, flags := c.flags.(nocache := false)) && TtlWithin(d.negTtl, c.negTtl, c.flags.nocache, true, lim)
    else d == c.(sets := d.sets) && d.sets.Keys == c.sets.Keys && forall i :: i in c.sets ==> CopyOf(c.sets[i], d.sets[i], lim)
  }

  lemma AdjustedIsCopy(c: Cent, lim: Limits)
    ensures CentCopied(c, AdjustedCent(c, lim), lim)
  {
  }

  /** Nothing but entry k is different. */
  ghost predicate OnlyAt(m: Cents, m': Cents, k: Key) { k in m' && m' == m[k := m'[k]] }

  /** What add_cache makes of m before it purges the cache. A new entry is put there if it holds anything; a
      negation takes the place of what is there, unless that has local sets; then nothing is done. */
  ghost predicate Entered(m: Cents, m': Cents, k: Key, new': Cent, now: int, lim: Limits, done: bool)
  {
    if k !in m then done && if new'.sets != map[] || new'.flags.negative then OnlyAt(m, m', k) && CentCopied(new', m'[k], lim) else m' == m
    else if !new'.flags.negative then done && OnlyAt(m, m', k) && MergedDuly(m[k], new', m'[k], now, lim)
    else if Foreign(m[k]) then done && OnlyAt(m, m', k) && CentCopied(new', m'[k], lim)
    else !done && m' == m
  }

  lemma HoldsNothing(c: Cent)
    requires CentOk(c)
    ensures c.numRrs == 0 <==> c.sets == map[]
  {
    NoneCount(NRRTOT);
    if c.numRrs == 0 { NoSets(c.sets, NRRTOT); }
  }

  /** A merged set stays, or what keeps it out does: the entry does not end up with nothing in it. */
  lemma MergeOneFills(c: Cent, i: nat, s: RrSet, now: int, lim: Limits)
    requires CentOk(c) && !c.flags.loc
    ensures MergeOne(c, i, s, now, lim).sets != map[]
  {
    var d := Dropped(c, i);
    DroppedOk(c, i);
    CrCheckExact(d, i, s.ttl, s.flags, now);
    var r := CrCheck(d, i, s.ttl, s.flags, now);
    if r.ok {
      assert i in PutSet(r.cent, i, Adjusted(s, lim)).sets;
    } else if RivalsOf(d, i) != map[] {
      var j :| j in RivalsOf(d, i);
      assert j in r.cent.sets;
    }
  }

  lemma {:induction false} MergeAllFills(c: Cent, sets: map<nat, RrSet>, n: nat, now: int, lim: Limits)
    requires CentOk(c) && !c.flags.loc && n <= NRRTOT
    ensures MergeAll(c, sets, n, now, lim).sets != map[] <==> c.sets != map[] || exists i :: i in sets && i < n
  {
    if n > 0 {
      MergeAllOk(c, sets, n - 1, now, lim);
      MergeAllFrame(c, sets, n - 1, now, lim);
      MergeAllFills(c, sets, n - 1, now, lim);
      if n - 1 in sets { MergeOneFills(MergeAll(c, sets, n - 1, now, lim), n - 1, sets[n - 1], now, lim); }
      assert (exists i :: i in sets && i < n) <==> n - 1 in sets || exists i :: i in sets && i < n - 1;
    }
  }

  /** Such an entry would be of no use, and purging could not get rid of it. A new one is not put into the
      cache; but merging leaves one exactly if nothing is merged and the time of everything has run out. */
  lemma LeftEmpty(c: Cent, new': Cent, now: int, lim: Limits)
    requires CentOk(c) && CentOk(new') && !c.flags.loc && !c.flags.negative
    ensures Merged(c, new', now, lim).sets == map[] <==>
            new'.sets == map[] && forall i :: i in c.sets ==> !StillGood(c.sets[i], now)
  {
    var p := PurgedAll(c, now);
    PurgedAllIs(c, now);
    PurgedFrame(c, now);
    MergeAllFills(p, new'.sets, RrarrLen(new'), now, lim);
    forall i | i in c.sets ensures i in p.sets <==> StillGood(c.sets[i], now) {}
    if new'.sets != map[] {
      var i :| i in new'.sets;
      assert i < RrarrLen(new');
    }
    if i :| i in c.sets && StillGood(c.sets[i], now) { assert i in p.sets; }
    if p.sets != map[] {
      var i :| i in p.sets;
      assert i in c.sets;
    }
  }

  // ----- local negation -----

  /** The name is locally said not to exist. */
  predicate Denied(c: Cent) { c.flags.negative && c.flags.loc }

  /** A set, of index below n, that is negative or local. */
  ghost predicate Intrudes(sets: map<nat, RrSet>, n: nat)
  {
    exists i :: i in sets && i < n && (sets[i].flags.negative || sets[i].flags.loc)
  }

  /** Merging a set into such an entry leaves it as it is, unless the set is negative or local. */
  lemma DeniedOne(c: Cent, i: nat, s: RrSet, now: int, lim: Limits)
    requires CentOk(c)
    ensures Denied(c) && !s.flags.negative && !s.flags.loc ==> MergeOne(c, i, s, now, lim) == c
    ensures Denied(c) && (s.flags.negative || s.flags.loc) ==> !Denied(MergeOne(c, i, s, now, lim))
    ensures !c.flags.negative ==> !MergeOne(c, i, s, now, lim).flags.negative
  {
    DroppedOk(c, i);
    CrCheckIs(Dropped(c, i), i, s.ttl, s.flags, now);
  }

  lemma {:induction false} DeniedAll(c: Cent, sets: map<nat, RrSet>, n: nat, now: int, lim: Limits)
    requires CentOk(c) && n <= NRRTOT && Denied(c)
    ensures if Intrudes(sets, n) then !MergeAll(c, sets, n, now, lim).flags.negative else MergeAll(c, sets, n, now, lim) == c
  {
    if n > 0 {
      var d := MergeAll(c, sets, n - 1, now, lim);
      MergeAllOk(c, sets, n - 1, now, lim);
      DeniedAll(c, sets, n - 1, now, lim);
      if n - 1 in sets { DeniedOne(d, n - 1, sets[n - 1], now, lim); }
      assert Intrudes(sets, n) <==> Intrudes(sets, n - 1) || (n - 1 in sets && (sets[n - 1].flags.negative || sets[n - 1].flags.loc));
    }
  }

  /** What may be added to the cache without undoing a local negation: a local negation, or an entry
      that is not negative, all of whose sets are neither negative nor local. */
  ghost predicate Respects(new': Cent)
  {
    if new'.flags.negative then new'.flags.loc else !Intrudes(new'.sets, RrarrLen(new'))
  }

  lemma LocalNegationKept(c: Cent, new': Cent, now: int, lim: Limits)
    requires CentOk(c) && CentOk(new') && Denied(c)
    ensures Denied(if new'.flags.negative then AdjustedCent(new', lim) else Merged(c, new', now, lim)) <==> Respects(new')
  {
    DeniedAll(PurgedAll(c, now), new'.sets, RrarrLen(new'), now, lim);
  }

  /** No local set is lost or changed. */
  ghost predicate LocalSafe(m: Cents, m': Cents)
  {
    forall k {:trigger m[k]} {:trigger m'[k]} :: k in m && (exists i :: i in m[k].sets && m[k].sets[i].flags.loc) ==> k in m' && LocalKept(m[k], m'[k])
  }

  /** Replacing an entry without local sets is safe; so is leaving all as it is. */
  lemma ReplaceSafe(m: Cents, k: Key, c: Cent)
    requires k in m && forall i :: i in m[k].sets ==> !m[k].sets[i].flags.loc
    ensures (m - {k})[k := c] == m[k := c] && LocalSafe(m, m[k := c])
  {
  }

  lemma SameSafe(m: Cents)
    ensures LocalSafe(m, m)
  {
  }

  lemma NewSafe(m: Cents, k: Key, c: Cent)
    requires k !in m
    ensures LocalSafe(m, m[k := c])
  {
  }

  lemma KeptSafe(m: Cents, k: Key, c: Cent)
    requires k in m && LocalKept(m[k], c)
    ensures LocalSafe(m, m[k := c])
  {
  }

  /** The entry holds no local set. */
  ghost predicate Foreign(c: Cent) { forall i :: i in c.sets ==> !c.sets[i].flags.loc }

  /** Purging neither makes nor undoes a local negation. */
  lemma ShrunkDenied(m: Cents, m': Cents, k: Key)
    requires Shrunk(m, m')
    ensures (k in m && Denied(m[k])) <==> (k in m' && Denied(m'[k]))
  {
    assert CentShrunk(m, m', k);
  }

  /** Purging keeps local sets. */
  lemma ShrunkSafe(a: Cents, b: Cents, c: Cents)
    requires LocalSafe(a, b) && Shrunk(b, c)
    ensures LocalSafe(a, c)
  {
    forall k | k in a && (exists i :: i in a[k].sets && a[k].sets[i].flags.loc) ensures k in c && LocalKept(a[k], c[k]) {
      forall i: nat | i in a[k].sets && a[k].sets[i].flags.loc ensures k in c && i in c[k].sets && c[k].sets[i] == a[k].sets[i] {
        assert SetShrunk(b, c, k, i);
      }
    }
  }

  lemma ShrunkConflictFree(b: Cents, c: Cents, k: Key)
    requires Shrunk(b, c) && k in c && k in b && ConflictFree(b[k])
    ensures ConflictFree(c[k])
  {
    forall i: nat | i in c[k].sets ensures i in b[k].sets && b[k].sets[i] == c[k].sets[i] { assert SetShrunk(b, c, k, i); }
  }

  /** What adding `new'` as k may make of m. */
  ghost predicate AddedSafely(m: Cents, m': Cents, k: Key, new': Cent)
  {
    var ok :=
      (Foreign(new') ==> LocalSafe(m, m')) &&
      (k in m && ConflictFree(m[k]) && k in m' ==> ConflictFree(m'[k])) &&
      (k in m && Denied(m[k]) ==> (k in m' && Denied(m'[k]) <==> Respects(new')));
    ok
  }

  lemma PurgedSafely(a: Cents, b: Cents, c: Cents, k: Key, new': Cent)
    requires AddedSafely(a, b, k, new') && Shrunk(b, c)
    ensures AddedSafely(a, c, k, new')
  {
    if LocalSafe(a, b) { ShrunkSafe(a, b, c); }
    ShrunkDenied(b, c, k);
    assert CentShrunk(b, c, k);
    if k in c && ConflictFree(b[k]) { ShrunkConflictFree(b, c, k); }
  }
}
