/** pdnsd's cache (cache.c: insert_rrl, del_cent_rrset_by_index, purge_rrset, purge_all_rrsets,
    purge_cent, purge_cache, cr_check_add, add_cache, del_cache_ent, del_cache). The hash table and
    the list by age are values here; `HashTable` and `AgeList` have them as the source does. */
module Cache {
  import opened Names
  import opened CacheStore

  /** free_cent, as far as the list is concerned. */
  method FreeNodes(rrl: Rrl, k: Key, c: Cent) returns (r: Rrl)
    ensures r == Without(rrl, if c.flags.negative then {Lent(k, -1)} else SetNodes(c, k, RrarrLen(c)))
  {
    if c.flags.negative {
      return Without(rrl, {Lent(k, -1)});
    }
    r := rrl;
    var i := 0;
    WithoutIs(rrl, {});
    while i < RrarrLen(c)
      invariant 0 <= i <= RrarrLen(c) && r == Without(rrl, SetNodes(c, k, i))
    {
      if i in c.sets {
        WithoutTwice(rrl, SetNodes(c, k, i), {Lent(k, i)});
        r := Without(r, {Lent(k, i)});
      }
      i := i + 1;
    }
  }

  /** add_cent_rr_int for each record of a set. */
  method CopyRecords(from: seq<seq<byte>>) returns (rrs: seq<seq<byte>>, size: nat)
    ensures rrs == from && size == RecordsSize(from)
  {
    rrs, size := [], 0;
    var j := 0;
    while j < |from|
      invariant 0 <= j <= |from| && rrs == from[..j] && size == RecordsSize(rrs)
    {
      assert (rrs + [from[j]])[..|rrs|] == rrs;
      rrs := rrs + [from[j]];
      size := size + SIZEOF_BUCKET + |from[j]|;
      j := j + 1;
    }
  }

  /** ... and the set put into an entry. */
  method WithSet(c: Cent, i: nat, s: RrSet, lim: Limits) returns (ce: Cent)
    ensures ce == PutSet(c, i, Adjusted(s, lim))
  {
    ce := c.(flags := c.flags.(negative := false));
    if i >= NRRMU && !ce.ext {
      ce := ce.(ext := true, cs := ce.cs + SIZEOF_PTR * NRREXT);
    }
    var rrs, size := CopyRecords(s.rrs);
    ce := ce.(sets := ce.sets[i := Adjusted(s.(rrs := rrs), lim)], numRrs := ce.numRrs + 1, cs := ce.cs + SIZEOF_RRSET + size);
  }

  const MCSZ := 10240

  /** Whether an entry has a local set. */
  method HasLocal(c: Cent) returns (b: bool)
    requires CentOk(c)
    ensures b <==> exists i :: i in c.sets && c.sets[i].flags.loc
  {
    var i: nat := 0;
    while i < RrarrLen(c)
      invariant i <= RrarrLen(c) && forall j: nat :: j < i && j in c.sets ==> !c.sets[j].flags.loc
    {
      if i in c.sets && c.sets[i].flags.loc { return true; }
      i := i + 1;
    }
    return false;
  }

  /** The end of add_cache for an entry that is there already. */
  method JoinFields(c: Cent, d: Cent) returns (ce: Cent)
    ensures ce == Joined(c, d)
  {
    ce := c.(flags := c.flags.(auth := c.flags.auth || d.flags.auth, wild := c.flags.wild || d.flags.wild));
    if d.cNs != CUNDEF && (c.cNs == CUNDEF || c.cNs < d.cNs) { ce := ce.(cNs := d.cNs); }
    if d.cSoa != CUNDEF && (c.cSoa == CUNDEF || c.cSoa < d.cSoa) { ce := ce.(cSoa := d.cSoa); }
  }

  class Cache {
    var cents: Cents
    var rrl: Rrl
    var cacheSize: int
    var entNum: int
    var insertSort: bool
    const lim: Limits
    const permCache: int

    constructor (lim: Limits, permCache: int)
      ensures Valid() && cents == map[] && cacheSize == 0
    {
      cents, rrl, cacheSize, entNum, insertSort := map[], [], 0, 0, false;
      this.lim, this.permCache := lim, permCache;
    }

    ghost function St(): Store
      reads this
    {
      Store(cents, rrl, insertSort)
    }

    /** The accounts are right: of each entry, of all entries, and the list by age. */
    ghost predicate Valid()
      reads this
    {
      Whole(St(), cacheSize, entNum)
    }

    /** While an entry is being changed its size is not in cacheSize. */
    ghost predicate Open(k: Key)
      reads this
    {
      WholeBut(St(), k, cacheSize, entNum)
    }

    // ----- the list -----

    /** insert_rrl: n stands for a set, or a negative entry, in m. */
    method InsertRrl(n: Lent, m: Cents)
      requires n.key in m
      modifies this`rrl
      ensures if m[n.key].flags.loc || (n.idx in m[n.key].sets && m[n.key].sets[n.idx].flags.loc) then rrl == old(rrl)
        else InsertedAt(m, old(rrl), n, insertSort, rrl)
    {
      if (n.idx in m[n.key].sets && m[n.key].sets[n.idx].flags.loc) || m[n.key].flags.loc { return; }
      var k: nat := |rrl|;
      if insertSort {
        while k > 0 && !(Ts(m, n) >= Ts(m, rrl[k - 1]))
          invariant k <= |rrl|
          invariant forall j :: k <= j < |rrl| ==> Ts(m, rrl[j]) > Ts(m, n)
        {
          k := k - 1;
        }
      }
      assert Place(m, rrl, n, insertSort, k);
      rrl := rrl[..k] + [n] + rrl[k..];
    }

    // ----- deletion -----

    /** del_cent_rrset_by_index: the size of what has been freed is returned; cacheSize is the
        caller's business. */
    method DelCentRrset(k: Key, i: nat) returns (rv: int)
      requires Good(St()) && k in cents
      modifies this`cents, this`rrl
      ensures Good(St()) && cents == old(cents)[k := Dropped(old(cents)[k], i)]
      ensures rrl == if i in old(cents)[k].sets then Without(old(rrl), {Lent(k, i)}) else old(rrl)
      ensures old(Open(k)) ==> Open(k)
      ensures old(Valid()) ==> Whole(St(), cacheSize - rv, entNum)
    {
      var c := cents[k];
      if i in c.sets {
        DropWhole(St(), k, i, cacheSize, entNum);
        rv := SetSize(c.sets[i]);
        rrl := Without(rrl, {Lent(k, i)});
        cents := cents[k := DelSet(c, i)];
      } else {
        rv := 0;
      }
    }

    /** del_cache_ent and del_cent. */
    method DelCent(k: Key)
      requires Valid() && k in cents
      modifies this`cents, this`rrl, this`cacheSize, this`entNum
      ensures Valid() && cents == old(cents) - {k} && rrl == Without(old(rrl), NodesOf(k))
    {
      DropCent(St(), k);
      DropOnly(cents, k);
      Unlink(k);
    }

    method Unlink(k: Key)
      requires ListOk(cents, rrl) && CentsOk(cents) && k in cents
      modifies this`cents, this`rrl, this`cacheSize, this`entNum
      ensures cents == old(cents) - {k} && rrl == Without(old(rrl), NodesOf(k))
      ensures cacheSize == old(cacheSize) - old(cents)[k].cs && entNum == old(entNum) - 1
    {
      AllNodes(cents, rrl, k);
      cacheSize := cacheSize - cents[k].cs;
      rrl := FreeNodes(rrl, k, cents[k]);
      cents := cents - {k};
      entNum := entNum - 1;
    }

    /** del_cache. */
    method DelCache(k: Key)
      requires Valid()
      modifies this`cents, this`rrl, this`cacheSize, this`entNum
      ensures Valid() && cents == old(cents) - {k}
    {
      if k in cents {
        DelCent(k);
      }
    }

    // ----- purging -----

    /** purge_rrset, with `test` zero. */
    method PurgeRrset(k: Key, i: nat, now: int) returns (gone: bool)
      requires Valid() && k in cents
      modifies this`cents, this`rrl, this`cacheSize
      ensures Valid() && gone == (i in old(cents)[k].sets && Expired(old(cents)[k].sets[i], now))
      ensures cents == if gone then old(cents)[k := DelSet(old(cents)[k], i)] else old(cents)
      ensures rrl == if gone then Without(old(rrl), {Lent(k, i)}) else old(rrl)
    {
      gone := false;
      if i in cents[k].sets && !(cents[k].sets[i].flags.nopurge || cents[k].sets[i].flags.loc) && TimedOut(cents[k].sets[i], now) {
        var rv := DelCentRrset(k, i);
        cacheSize := cacheSize - rv;
        gone := true;
      }
    }

    /** purge_all_rrsets, with `test` zero. */
    method PurgeAllRrsets(k: Key, now: int) returns (numRrs: int)
      requires Valid() && k in cents
      modifies this`cents, this`rrl, this`cacheSize
      ensures Valid() && cents == old(cents)[k := PurgedAll(old(cents)[k], now)]
      ensures numRrs == cents[k].numRrs
    {
      ghost var m := cents;
      numRrs := 0;
      if cents[k].flags.negative {
        NoneCount(NRRTOT);
        PutSame(m, k);
      } else {
        var numExt;
        numRrs, numExt := PurgeSets(k, now);
        TrimmedIs(cents[k], numExt);
        PutTwice(m, k, cents[k], PurgedAll(m[k], now));
        if cents[k].ext && numExt == 0 {
          Trim(k);
        }
      }
    }

    /** The loop of purge_all_rrsets. */
    method PurgeSets(k: Key, now: int) returns (numRrs: int, numExt: int)
      requires Valid() && k in cents
      modifies this`cents, this`rrl, this`cacheSize
      ensures Valid() && cents == old(cents)[k := Purged(old(cents)[k], RrarrLen(old(cents)[k]), now)]
      ensures numRrs == SetsCount(cents[k].sets, NRRTOT) && numExt == numRrs - SetsCount(cents[k].sets, NRRMU)
    {
      ghost var m := cents;
      var i: nat, ilim: nat := 0, RrarrLen(cents[k]);
      numRrs, numExt := 0, 0;
      PutSame(m, k);
      while i < ilim
        invariant i <= ilim && Purging(m, k, i, now, numRrs, numExt)
      {
        numRrs, numExt := PurgeIndex(m, k, i, now, numRrs, numExt);
        i := i + 1;
      }
      PurgedCounts(m[k], now);
    }

    /** The sets of index below i of the entry k of m have been purged, and those that remain counted. */
    ghost predicate Purging(m: Cents, k: Key, i: nat, now: int, numRrs: int, numExt: int)
      reads this
    {
      var ok := Valid() && k in m && cents == m[k := Purged(m[k], i, now)] &&
        numRrs == SetsCount(cents[k].sets, i) && numExt == numRrs - SetsCount(cents[k].sets, Min(i, NRRMU));
      ok
    }

    method PurgeIndex(ghost m: Cents, k: Key, i: nat, now: int, numRrs0: int, numExt0: int) returns (numRrs: int, numExt: int)
      requires k in m && CentOk(m[k]) && Purging(m, k, i, now, numRrs0, numExt0)
      modifies this`cents, this`rrl, this`cacheSize
      ensures Purging(m, k, i + 1, now, numRrs, numExt)
    {
      PurgedStep(m[k], i, now);
      PutTwice(m, k, Purged(m[k], i, now), Purged(m[k], i + 1, now));
      numRrs, numExt := numRrs0, numExt0;
      var gone := PurgeRrset(k, i, now);
      if !gone && i in cents[k].sets {
        numRrs := numRrs + 1;
        if i >= NRRMU { numExt := numExt + 1; }
      }
    }

    /** Free the array for the less frequently used sets. */
    method Trim(k: Key)
      requires Valid() && k in cents && Trimmed(cents[k]) != cents[k]
      modifies this`cents, this`cacheSize
      ensures Valid() && cents == old(cents)[k := Trimmed(old(cents)[k])]
    {
      TrimCent(St(), k);
      TotalChanged(cents, k, Trimmed(cents[k]));
      var c := cents[k].(ext := false, cs := cents[k].cs - SIZEOF_PTR * NRREXT);
      assert c == Trimmed(cents[k]);
      cents := cents[k := c];
      cacheSize := cacheSize - SIZEOF_PTR * NRREXT;
    }

    /** del_cache_ent for an entry without sets, reached from its list entry, or the one it had. */
    method DelEmpty(k: Key)
      requires Valid() && k in cents && cents[k].numRrs == 0 && !cents[k].flags.loc
      modifies this`cents, this`rrl, this`cacheSize, this`entNum
      ensures Valid() && Shrunk(old(cents), cents) && cents == old(cents) - {k}
      ensures rrl == if old(cents)[k].flags.negative then Without(old(rrl), {Lent(k, -1)}) else old(rrl)
    {
      EmptyShrinks(cents, k);
      if cents[k].flags.negative { OneNode(cents, rrl, k); } else { NoNodes(cents, rrl, k); }
      DelCent(k);
    }

    /** The body of the first loop of purge_cache: at most one entry leaves the list, the current one. */
    method PurgeAt(j: nat, now: int)
      requires Valid() && j < |rrl|
      modifies this`cents, this`rrl, this`cacheSize, this`entNum
      ensures Valid() && Shrunk(old(cents), cents)
      ensures rrl == if Stale(old(cents), old(rrl)[j], now) then old(rrl)[..j] + old(rrl)[j + 1..] else old(rrl)
      ensures (rrl == old(rrl) ==> cents == old(cents)) && NoneEmptied(old(cents), cents)
    {
      var le := rrl[j];
      assert InList(cents, rrl, le);
      WithoutAt(rrl, j);
      ListedHolds(cents, le);
      ShrunkSelf(cents);
      NoneEmptiedSelf(cents);
      if !((le.idx >= 0 && cents[le.key].sets[le.idx].flags.loc) || cents[le.key].flags.loc) {
        if le.idx >= 0 {
          var gone := PurgeRrset(le.key, le.idx, now);
          if gone {
            DropShrinks(old(cents), le.key, le.idx);
            EmptiedGone(old(cents), le.key, cents[le.key]);
          }
        }
        var ce := cents[le.key];
        if ce.numRrs == 0 && (!ce.flags.negative || (!ce.flags.loc && NegTimedOut(ce, now))) {
          ghost var m := cents;
          EmptiedGone(old(cents), le.key, ce);
          DelEmpty(le.key);
          ShrunkTrans(old(cents), m, cents);
        }
      }
    }

    /** The first loop of purge_cache: delete what has timed out, from the oldest to the newest. */
    method PurgeTimedOut(sz: int, lazy: bool, now: int)
      requires Valid()
      modifies this`cents, this`rrl, this`cacheSize, this`entNum
      ensures Valid() && FirstPass(old(cents), old(rrl), cents, rrl, sz, lazy, now)
    {
      ghost var m, r := cents, rrl;
      ShrunkSelf(m);
      var j: nat := 0;
      while j < |rrl| && (!lazy || cacheSize > sz)
        invariant Passing(m, r, j, sz, lazy, now)
        invariant lazy && Total(m) <= sz ==> cents == m && rrl == r
        decreases |rrl| - j
      {
        j := PurgeNext(j, sz, lazy, now, m, r);
      }
    }

    /** The first j entries of the list are not stale, and what has been removed was. */
    ghost predicate Passing(m: Cents, r: Rrl, j: nat, sz: int, lazy: bool, now: int)
      reads this
    {
      var ok := Valid() && Shrunk(m, cents) && NoneEmptied(m, cents) && j <= |rrl| && (forall i :: 0 <= i < j ==> !Stale(cents, rrl[i], now)) &&
        StaleGone(m, r, rrl, now) && (lazy ==> cents == m || HadTo(cents, sz));
      ok
    }

    method PurgeNext(j: nat, sz: int, lazy: bool, now: int, ghost m: Cents, ghost r: Rrl) returns (j': nat)
      requires Passing(m, r, j, sz, lazy, now) && j < |rrl| && (!lazy || cacheSize > sz)
      modifies this`cents, this`rrl, this`cacheSize, this`entNum
      ensures Passing(m, r, j', sz, lazy, now) && |rrl| - j' < |old(rrl)| - j
    {
      ghost var m1, r1 := cents, rrl;
      var n := |rrl|;
      PurgeAt(j, now);
      j' := if |rrl| == n then j + 1 else j;
      PassedOne(m, r, m1, r1, cents, rrl, j, now);
      NoneEmptiedTrans(m, m1, cents);
    }

    /** sort_rrl. AgeList proves the source's algorithm; here it is an insertion sort. */
    method SortRrl()
      requires Good(St())
      modifies this`rrl, this`insertSort
      ensures Good(St()) && insertSort && ByAge(cents, rrl) && forall n :: n in rrl <==> n in old(rrl)
    {
      var r: Rrl := rrl;
      var i := 0;
      rrl, insertSort := [], true;
      while i < |r|
        invariant 0 <= i <= |r| && insertSort && Distinct(rrl) && ByAge(cents, rrl)
        invariant forall n :: n in rrl <==> n in r[..i]
      {
        InsertSorted(r[i]);
        assert r[..i + 1] == r[..i] + [r[i]];
        assert r[i] !in r[..i];
        i := i + 1;
      }
      assert r[..i] == r;
      forall n ensures InList(cents, rrl, n) { assert InList(cents, r, n); }
    }

    method InsertSorted(n: Lent)
      requires insertSort && Distinct(rrl) && ByAge(cents, rrl)
      modifies this`rrl
      ensures (forall x :: x in rrl <==> x in old(rrl) || x == n) && ByAge(cents, rrl)
      ensures n !in old(rrl) ==> Distinct(rrl)
    {
      var k: nat := |rrl|;
      while k > 0 && Ts(cents, n) < Ts(cents, rrl[k - 1])
        invariant k <= |rrl| && forall j :: k <= j < |rrl| ==> Ts(cents, rrl[j]) > Ts(cents, n)
      {
        k := k - 1;
      }
      assert Place(cents, rrl, n, true, k);
      rrl := rrl[..k] + [n] + rrl[k..];
      InsertedIs(cents, old(rrl), n, true, rrl);
    }

    /** The body of the second loop of purge_cache: the oldest entry goes, whatever its flags; the
        test for local sets never finds one. */
    method DropOldest()
      requires Valid() && rrl != []
      modifies this`cents, this`rrl, this`cacheSize, this`entNum
      ensures Valid() && Shrunk(old(cents), cents) && NoneEmptied(old(cents), cents) && rrl == old(rrl)[1..]
    {
      var le := rrl[0];
      assert InList(cents, rrl, le);
      ListedHolds(cents, le);
      assert Without(rrl, {Lent(le.key, le.idx)}) == rrl[1..] by { WithoutAt(rrl, 0); }
      NoneEmptiedSelf(cents);
      if !((le.idx >= 0 && cents[le.key].sets[le.idx].flags.loc) || cents[le.key].flags.loc) {
        if le.idx >= 0 {
          DropSetAndEmpty(le.key, le.idx);
        } else if cents[le.key].numRrs == 0 {
          DelEmpty(le.key);
        }
      }
    }

    /** ... for an entry of the list that stands for a set. */
    method DropSetAndEmpty(k: Key, i: nat)
      requires Valid() && k in cents && i in cents[k].sets && !cents[k].sets[i].flags.loc && !cents[k].flags.loc
      modifies this`cents, this`rrl, this`cacheSize, this`entNum
      ensures Valid() && Shrunk(old(cents), cents) && NoneEmptied(old(cents), cents) && rrl == Without(old(rrl), {Lent(k, i)})
    {
      var rv := DelCentRrset(k, i);
      cacheSize := cacheSize - rv;
      DropShrinks(old(cents), k, i);
      EmptiedGone(old(cents), k, cents[k]);
      if cents[k].numRrs == 0 {
        ghost var m := cents;
        DelEmpty(k);
        ShrunkTrans(old(cents), m, cents);
      }
    }

    /** The second part of purge_cache: delete the oldest sets until there is room. `mid` is the list
        in order; what remains is its younger end. */
    method PurgeOldest(sz: int) returns (ghost mid: Rrl)
      requires Valid()
      modifies this`cents, this`rrl, this`cacheSize, this`entNum, this`insertSort
      ensures Valid() && insertSort && SecondPass(old(cents), old(rrl), cents, rrl, mid, sz)
    {
      if !insertSort {
        SortRrl();
      }
      mid := rrl;
      DropUntil(sz);
    }

    method DropUntil(sz: int)
      requires Valid()
      modifies this`cents, this`rrl, this`cacheSize, this`entNum
      ensures Valid() && Shrunk(old(cents), cents) && (cacheSize <= sz || rrl == []) && Suffix(old(rrl), rrl)
      ensures (cents == old(cents) && rrl == old(rrl)) || HadTo(cents, sz)
      ensures NoneEmptied(old(cents), cents)
    {
      ghost var m, r := cents, rrl;
      ShrunkSelf(m);
      while rrl != [] && cacheSize > sz
        invariant Valid() && Shrunk(m, cents) && Suffix(r, rrl)
        invariant ((cents == m && rrl == r) || HadTo(cents, sz)) && NoneEmptied(m, cents)
        decreases |rrl|
      {
        DropNext(m, r, sz);
      }
    }

    method DropNext(ghost m: Cents, ghost r: Rrl, ghost sz: int)
      requires Valid() && rrl != [] && Shrunk(m, cents) && NoneEmptied(m, cents) && Suffix(r, rrl) && cacheSize > sz
      modifies this`cents, this`rrl, this`cacheSize, this`entNum
      ensures Valid() && Shrunk(m, cents) && NoneEmptied(m, cents) && Suffix(r, rrl) && |rrl| == |old(rrl)| - 1 && HadTo(cents, sz)
    {
      ghost var m1, r1 := cents, rrl;
      SuffixStep(r, rrl);
      DropOldest();
      LessOf(m1, r1, cents, rrl, 0);
      assert OneLess(m1, cents, r1[0]);
      NoneEmptiedTrans(m, m1, cents);
      ShrunkTrans(m, m1, cents);
    }

    /** purge_cache: bring the cache to a size of at most sz, or empty the list by age. What has
        timed out goes first; then the oldest sets. Local sets stay. */
    method PurgeCache(sz: int, lazy: bool, now: int)
      requires Valid()
      modifies this`cents, this`rrl, this`cacheSize, this`entNum, this`insertSort
      ensures Valid() && PurgedDuly(old(cents), old(rrl), cents, rrl, sz, lazy, now)
    {
      ghost var m, r := cents, rrl;
      PurgeTimedOut(sz, lazy, now);
      if cacheSize > sz {
        ghost var m1, r1 := cents, rrl;
        ghost var mid := PurgeOldest(sz);
        BothPasses(m, r, m1, r1, cents, rrl, mid, sz, lazy, now);
      } else {
        FirstPassOnly(m, r, cents, rrl, sz, lazy, now);
      }
    }

    // ----- merging -----

    /** The first loop of cr_check_add. */
    method CountRivals(c: Cent, idx: nat, now: int) returns (loc: bool, ncf: nat, nttl: int)
      ensures loc <==> LocalRival(c, idx, RrarrLen(c))
      ensures !loc ==> ncf == Rivals(c, idx, RrarrLen(c)) && nttl == RivalTtl(c, idx, RrarrLen(c), now)
    {
      loc, ncf, nttl := false, 0, 0;
      var i: nat, ilim: nat := 0, RrarrLen(c);
      while i < ilim
        invariant i <= ilim && !LocalRival(c, idx, i)
        invariant ncf == Rivals(c, idx, i) && nttl == RivalTtl(c, idx, i, now)
      {
        if Rival(c, idx, i) {
          if c.sets[i].flags.loc {
            LocalRivalIs(c, idx, i + 1);
            LocalRivalIs(c, idx, ilim);
            return true, 0, 0;
          }
          ncf := ncf + 1;
          var rttl := c.sets[i].ttl + c.sets[i].ts - now;
          if rttl > 0 { nttl := nttl + rttl; }
        }
        i := i + 1;
      }
    }

    /** The second loop of cr_check_add. */
    method ClearRivals(k: Key, idx: nat)
      requires Open(k)
      modifies this`cents, this`rrl
      ensures Open(k) && cents == old(cents)[k := Cleared(old(cents)[k], idx, RrarrLen(old(cents)[k]))]
    {
      ghost var m := cents;
      PutSame(m, k);
      var i: nat, ilim: nat := 0, RrarrLen(cents[k]);
      while i < ilim
        invariant i <= ilim && Clearing(m, k, idx, i)
      {
        ClearAt(m, k, idx, i);
        i := i + 1;
      }
    }

    /** The rivals of index below i have been removed from the entry k of m. */
    ghost predicate Clearing(m: Cents, k: Key, idx: nat, i: nat)
      reads this
    {
      var ok := Open(k) && k in m && cents == m[k := Cleared(m[k], idx, i)];
      ok
    }

    method ClearAt(ghost m: Cents, k: Key, idx: nat, i: nat)
      requires Clearing(m, k, idx, i)
      modifies this`cents, this`rrl
      ensures Clearing(m, k, idx, i + 1)
    {
      PutTwice(m, k, Cleared(m[k], idx, i), Cleared(m[k], idx, i + 1));
      if Rival(cents[k], idx, i) {
        var _ := DelCentRrset(k, i);
      }
    }

    /** What cr_check_add makes of the entry k, and its answer. */
    ghost predicate CrChecked(m: Cents, k: Key, idx: nat, ttl: int, flags: CFlags, now: int, ok: bool, m': Cents)
      requires k in m
    {
      var r := CrCheck(m[k], idx, ttl, flags, now);
      r.ok == ok && m' == m[k := r.cent]
    }

    /** cr_check_add: whether a set may be added. */
    method CrCheckAdd(k: Key, idx: nat, ttl: int, flags: CFlags, now: int) returns (ok: bool)
      requires Open(k)
      modifies this`cents, this`rrl
      ensures Open(k) && CrChecked(old(cents), k, idx, ttl, flags, now, ok, cents)
    {
      PutSame(cents, k);
      if flags.negative { return true; }
      var nttl := 0;
      if !flags.loc {
        if cents[k].flags.loc { return false; }
        var loc, ncf, sum := CountRivals(cents[k], idx, now);
        if loc { return false; }
        if ncf == 0 { return true; }
        nttl := sum / ncf;
      }
      if flags.loc || ttl > nttl {
        ClearRivals(k, idx);
        return true;
      }
      return false;
    }

    /** add_cent_rrset_by_index, add_cent_rr_int for each record, adjust_ttl and insert_rrl: a set is
        put into an entry that has none of its type. */
    method AddRrset(k: Key, i: nat, s: RrSet)
      requires Open(k) && i !in cents[k].sets && i < NRRTOT
      modifies this`cents, this`rrl
      ensures Open(k) && cents == old(cents)[k := PutSet(old(cents)[k], i, Adjusted(s, lim))]
    {
      ghost var m, r := cents, rrl;
      if cents[k].flags.negative {
        rrl := Without(rrl, {Lent(k, -1)});
      } else {
        NotNegative(m, r, k);
      }
      var ce := WithSet(cents[k], i, s, lim);
      PutOnly(m, k, ce);
      cents := cents[k := ce];
      ListSet(m, r, k, i, Adjusted(s, lim));
    }

    /** insert_rrl for a set that has been put into an entry. */
    method ListSet(ghost m: Cents, ghost r: Rrl, k: Key, i: nat, ghost s: RrSet)
      requires Good(Store(m, r, insertSort)) && k in m && i !in m[k].sets && i < NRRTOT
      requires cents == m[k := PutSet(m[k], i, s)] && rrl == Without(r, {Lent(k, -1)})
      modifies this`rrl
      ensures Good(St())
    {
      InsertRrl(Lent(k, i), cents);
      AddSet(Store(m, r, insertSort), k, i, s, rrl);
    }

    /** One turn of the loop of add_cache: a set is merged into an entry. */
    method MergeSet(k: Key, i: nat, s: RrSet, now: int)
      requires Open(k) && i < NRRTOT
      modifies this`cents, this`rrl
      ensures Open(k) && cents == old(cents)[k := MergeOne(old(cents)[k], i, s, now, lim)]
    {
      ghost var m := cents;
      PutSame(m, k);
      if !(i in cents[k].sets && Precedence(cents[k].sets[i], s, now)) {
        DroppedOk(cents[k], i);
        CrCheckIs(Dropped(cents[k], i), i, s.ttl, s.flags, now);
        var _ := DelCentRrset(k, i);
        var ok := CrCheckAdd(k, i, s.ttl, s.flags, now);
        if ok {
          AddRrset(k, i, s);
        }
        PutThrice(m, k, Dropped(m[k], i), CrCheck(Dropped(m[k], i), i, s.ttl, s.flags, now).cent, MergeOne(m[k], i, s, now, lim));
      }
    }

    /** add_cache, for an entry that is there already. */
    method MergeInto(k: Key, cent: Cent, now: int)
      requires Valid() && k in cents && CentOk(cent) && !cent.flags.negative
      modifies this`cents, this`rrl, this`cacheSize
      ensures Valid() && cents == old(cents)[k := Merged(old(cents)[k], cent, now, lim)]
    {
      ghost var m := cents;
      var _ := PurgeAllRrsets(k, now);
      WithoutSize(St(), k, cacheSize, entNum);
      cacheSize := cacheSize - cents[k].cs;
      MergeSets(k, cent, now);
      Join(k, cent);
      cacheSize := cacheSize + cents[k].cs;
      WithoutSize(St(), k, cacheSize, entNum);
      PutThrice(m, k, PurgedAll(m[k], now), MergeAll(PurgedAll(m[k], now), cent.sets, RrarrLen(cent), now, lim), cents[k]);
    }

    method MergeSets(k: Key, cent: Cent, now: int)
      requires Open(k)
      modifies this`cents, this`rrl
      ensures Merging(old(cents), k, cent, RrarrLen(cent), now)
    {
      ghost var m := cents;
      PutSame(m, k);
      var i: nat, ilim: nat := 0, RrarrLen(cent);
      while i < ilim
        invariant i <= ilim && Merging(m, k, cent, i, now)
      {
        MergeIndex(k, i, cent, now, m);
        i := i + 1;
      }
    }

    /** The sets of index below i have been merged into the entry k of m. */
    ghost predicate Merging(m: Cents, k: Key, cent: Cent, i: nat, now: int)
      reads this
    {
      var ok := Open(k) && k in m && cents == m[k := MergeAll(m[k], cent.sets, i, now, lim)];
      ok
    }

    method MergeIndex(k: Key, i: nat, cent: Cent, now: int, ghost m: Cents)
      requires i < NRRTOT && Merging(m, k, cent, i, now)
      modifies this`cents, this`rrl
      ensures Merging(m, k, cent, i + 1, now)
    {
      PutTwice(m, k, MergeAll(m[k], cent.sets, i, now, lim), MergeAll(m[k], cent.sets, i + 1, now, lim));
      if i in cent.sets {
        MergeSet(k, i, cent.sets[i], now);
      }
    }

    /** The flags, and the numbers of name elements. */
    method Join(k: Key, cent: Cent)
      requires Open(k)
      modifies this`cents
      ensures Open(k) && cents == old(cents)[k := Joined(old(cents)[k], cent)]
    {
      JoinCent(St(), k, cent, cacheSize, entNum);
      var ce := JoinFields(cents[k], cent);
      cents := cents[k := ce];
    }

    /** add_cache, for an entry that is not there yet: a copy of it is put into the cache. */
    method AddNew(k: Key, cent: Cent)
      requires Valid() && k !in cents && CentOk(cent) && Fold(cent.qname) == k
      modifies this`cents, this`rrl, this`cacheSize, this`entNum
      ensures Valid() && cents == old(cents)[k := AdjustedCent(cent, lim)]
    {
      var ce := AdjustedCent(cent, lim);
      AdjustedCentOk(cent, lim);
      ghost var s := St();
      InsertNodes(k, ce);
      NewWhole(s, k, ce, rrl, cacheSize, entNum);
      cents := cents[k := ce];
      entNum := entNum + 1;
      cacheSize := cacheSize + ce.cs;
    }

    /** The list entries of a new entry. */
    method InsertNodes(k: Key, ce: Cent)
      requires Good(St()) && k !in cents && CentOk(ce) && Fold(ce.qname) == k
      modifies this`rrl
      ensures Good(Store(cents[k := ce], rrl, insertSort))
    {
      var m := cents[k := ce];
      ghost var r := rrl;
      InsertStarts(St(), k, ce);
      if ce.flags.negative {
        InsertRrl(Lent(k, -1), m);
        InsertStep(m, r, insertSort, k, -1, rrl);
        InsertEnds(Store(cents, r, insertSort), k, ce, rrl, 0);
      } else {
        var i: nat, ilim: nat := 0, RrarrLen(ce);
        while i < ilim
          invariant i <= ilim && Inserting(m, rrl, insertSort, k, i)
        {
          ghost var r1 := rrl;
          if i in ce.sets {
            InsertRrl(Lent(k, i), m);
          }
          InsertStep(m, r1, insertSort, k, i, rrl);
          i := i + 1;
        }
        InsertEnds(Store(cents, r, insertSort), k, ce, rrl, i);
      }
    }

    /** add_cache up to the call of purge_cache. A negative entry replaces the one that is there, unless
        that one has local sets; then nothing is done, not even the purging. */
    method Enter(k: Key, cent: Cent, now: int) returns (done: bool)
      requires Valid() && CentOk(cent) && Fold(cent.qname) == k
      modifies this`cents, this`rrl, this`cacheSize, this`entNum
      ensures Valid() && (!done ==> cents == old(cents) && rrl == old(rrl))
      ensures AddedSafely(old(cents), cents, k, cent)
      ensures Entered(old(cents), cents, k, cent, now, lim, done)
    {
      if k !in cents {
        NewSafe(cents, k, AdjustedCent(cent, lim));
        SameSafe(cents);
        HoldsNothing(cent);
        AdjustedIsCopy(cent, lim);
        if cent.numRrs != 0 || cent.flags.negative {
          AddNew(k, cent);
        }
        return true;
      }
      if Denied(cents[k]) { LocalNegationKept(cents[k], cent, now, lim); }
      if cent.flags.negative {
        done := Negate(k, cent);
        return;
      }
      ghost var m := cents;
      MergedSafe(m[k], cent, now, lim);
      MergedIsDuly(m[k], cent, now, lim);
      MergeInto(k, cent, now);
      if Foreign(cent) { KeptSafe(m, k, Merged(m[k], cent, now, lim)); }
      return true;
    }

    /** ... for a new entry that is negative, where there is one already. */
    method Negate(k: Key, cent: Cent) returns (done: bool)
      requires Valid() && CentOk(cent) && Fold(cent.qname) == k && k in cents && cent.flags.negative
      modifies this`cents, this`rrl, this`cacheSize, this`entNum
      ensures Valid() && LocalSafe(old(cents), cents)
      ensures cents == if done then old(cents)[k := AdjustedCent(cent, lim)] else old(cents)
      ensures (done <==> Foreign(old(cents)[k])) && (!done ==> rrl == old(rrl))
      ensures CentCopied(cent, AdjustedCent(cent, lim), lim)
    {
      AdjustedIsCopy(cent, lim);
      var loc := HasLocal(cents[k]);
      if loc {
        SameSafe(cents);
        return false;
      }
      ReplaceSafe(cents, k, AdjustedCent(cent, lim));
      DelCent(k);
      AddNew(k, cent);
      return true;
    }

    /** The cache may hold a little more than configured. */
    function MaxSize(): int { permCache * 1024 + MCSZ }

    /** Where there was nothing, a local negation is what has been added as one. */
    lemma NewDenied(m: Cents, m': Cents, k: Key, cent: Cent, now: int, done: bool)
      requires Entered(m, m', k, cent, now, lim, done) && k !in m
      ensures k in m' && Denied(m'[k]) <==> Denied(cent)
    {
    }

    /** add_cache. The name is given as the hash table identifies it; m and r are the entries and the list
        before the cache is purged. If the name is locally said not to exist, it still is afterwards if
        and only if what is added respects that. */
    method AddCache(k: Key, cent: Cent, now: int) returns (ghost done: bool, ghost m: Cents, ghost r: Rrl)
      requires Valid() && CentOk(cent) && Fold(cent.qname) == k
      modifies this
      ensures Valid()
      ensures Entered(old(cents), m, k, cent, now, lim, done)
      ensures if done then PurgedDuly(m, r, cents, rrl, MaxSize(), true, now) else cents == old(cents) && rrl == old(rrl)
      ensures AddedSafely(old(cents), cents, k, cent)
      ensures k !in old(cents) ==> (k in cents && Denied(cents[k]) <==> Denied(cent))
    {
      var added := Enter(k, cent, now);
      done, m, r := added, cents, rrl;
      if added {
        PurgeCache(MaxSize(), true, now);
        PurgedSafely(old(cents), m, cents, k, cent);
        ShrunkDenied(m, cents, k);
      }
      if k !in old(cents) { NewDenied(old(cents), m, k, cent, now, done); }
    }
  }

  /** A negation, and an entry with a negative set. */
  function Negation(loc: bool): Cent
  {
    Cent([1, 97, 0], SIZEOF_CENT + 3, 0, DFlags(true, loc, false, false, false), map[], false, 900, 0, CUNDEF, CUNDEF)
  }

  function NoAddress(): Cent
  {
    var none := RrSet(900, 0, CFlags(true, false, false, false, false, false, false), []);
    Cent([1, 97, 0], SIZEOF_CENT + 3 + SIZEOF_RRSET, 1, DFlags(false, false, false, false, false), map[0 := none], false, 0, 0, CUNDEF, CUNDEF)
  }

  lemma ExamplesOk(loc: bool)
    ensures CentOk(Negation(loc)) && CentOk(NoAddress())
    ensures Fold(Negation(loc).qname) == Negation(loc).qname == NoAddress().qname
    ensures !Respects(NoAddress()) && !Respects(Negation(false))
  {
    NoneCount(NRRTOT);
    SetsWith(map[], 0, NoAddress().sets[0], NRRTOT);
    assert map[][0 := NoAddress().sets[0]] == NoAddress().sets;
    assert Intrudes(NoAddress().sets, RrarrLen(NoAddress()));
  }

  /** A local negation is lost to a negative set, or to a negation, that is not local. */
  method LosesLocalNegation(remote: bool) returns (before: bool, after: bool)
    ensures before && !after
  {
    ExamplesOk(true);
    ExamplesOk(false);
    var c := new Cache(Limits(120, 604800, 900), 2048);
    var k := NoAddress().qname;
    ghost var _, _, _ := c.AddCache(k, Negation(true), 0);
    before := k in c.cents && Denied(c.cents[k]);
    ghost var _, _, _ := c.AddCache(k, if remote then Negation(false) else NoAddress(), 0);
    after := k in c.cents && Denied(c.cents[k]);
  }
}
