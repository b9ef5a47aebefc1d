/** What two of libev's backends remember of the events of interest: ev_poll.c (a dense array with an
    inverse index) and ev_select.c (two vectors of bits). */
module Backends {
  const EV_READ: bv8 := 0x01
  const EV_WRITE: bv8 := 0x02

  /** The events of interest, by file descriptor; none beyond the end. */
  type Masks = seq<bv8>

  function At(b: Masks, fd: nat): bv8 { if fd < |b| then b[fd] else 0 }

  // ----- poll -----

  const POLLIN: bv16 := 0x0001
  const POLLOUT: bv16 := 0x0004

  datatype PollFd = PollFd(fd: nat, events: bv16)

  function PollMask(ev: bv8): bv16
  {
    (if ev & EV_READ != 0 then POLLIN else 0) | (if ev & EV_WRITE != 0 then POLLOUT else 0)
  }

  /** POLLIN is asked for just if reading is of interest, POLLOUT just if writing is, and nothing else. */
  lemma PollMaskIs(ev: bv8)
    ensures PollMask(ev) & 0x0001 != 0 <==> ev & 0x01 != 0
    ensures PollMask(ev) & 0x0004 != 0 <==> ev & 0x02 != 0
    ensures PollMask(ev) & 0xfffa == 0
  {
  }

  /** Nothing is lost in the translation. */
  lemma PollMaskExact(e1: bv8, e2: bv8)
    requires PollMask(e1) == PollMask(e2)
    ensures e1 & (EV_READ | EV_WRITE) == e2 & (EV_READ | EV_WRITE)
  {
    assert e1 & EV_READ == e2 & EV_READ && e1 & EV_WRITE == e2 & EV_WRITE by {
      assert PollMask(e1) & POLLIN != 0 <==> e1 & EV_READ != 0;
      assert PollMask(e2) & POLLIN != 0 <==> e2 & EV_READ != 0;
      assert PollMask(e1) & POLLOUT != 0 <==> e1 & EV_WRITE != 0;
      assert PollMask(e2) & POLLOUT != 0 <==> e2 & EV_WRITE != 0;
    }
  }

  /** Element i is where the index says, and asks for what is of interest. */
  ghost predicate Element(ps: seq<PollFd>, ix: seq<int>, b: Masks, i: nat)
    requires i < |ps|
  {
    var fd := ps[i].fd;
    fd < |ix| && ix[fd] == i && At(b, fd) != 0 && ps[i].events == PollMask(At(b, fd))
  }

  /** A file descriptor is in the array just if something about it is of interest. */
  ghost predicate Indexed(ps: seq<PollFd>, n: nat, ix: seq<int>, b: Masks, fd: nat)
    requires n <= |ps|
  {
    var i := if fd < |ix| then ix[fd] else -1;
    if At(b, fd) == 0 then i < 0 else 0 <= i < n && ps[i].fd == fd
  }

  /** The array and the index are inverse to each other and hold exactly the masks that are not zero. */
  ghost predicate Encodes(ps: seq<PollFd>, n: nat, ix: seq<int>, b: Masks)
  {
    n <= |ps| && (forall i: nat {:trigger Element(ps, ix, b, i)} :: i < n ==> Element(ps, ix, b, i)) &&
    forall fd: nat {:trigger Indexed(ps, n, ix, b, fd)} :: Indexed(ps, n, ix, b, fd)
  }

  /** ... but for fd, which has the element idx whatever is of interest about it. */
  ghost predicate EncodesBut(ps: seq<PollFd>, n: nat, ix: seq<int>, b: Masks, fd: nat, idx: nat)
  {
    idx < n <= |ps| && ps[idx].fd == fd && fd < |ix| && ix[fd] == idx &&
    (forall i: nat {:trigger Element(ps, ix, b, i)} :: i < n && i != idx ==> Element(ps, ix, b, i)) &&
    forall x: nat {:trigger Indexed(ps, n, ix, b, x)} :: x != fd ==> Indexed(ps, n, ix, b, x)
  }

  lemma Growing(ps: seq<PollFd>, n: nat, ix: seq<int>, b: Masks, more: nat)
    requires Encodes(ps, n, ix, b)
    ensures Encodes(ps, n, ix + seq(more, _ => -1), b)
  {
    var ix' := ix + seq(more, _ => -1);
    forall i: nat {:trigger Element(ps, ix', b, i)} | i < n ensures Element(ps, ix', b, i) {
      assert Element(ps, ix, b, i);
    }
    forall x: nat ensures Indexed(ps, n, ix', b, x) { assert Indexed(ps, n, ix, b, x); }
  }

  lemma Found(ps: seq<PollFd>, n: nat, ix: seq<int>, b: Masks, fd: nat)
    requires Encodes(ps, n, ix, b) && fd < |ix| && ix[fd] >= 0
    ensures EncodesBut(ps, n, ix, b, fd, ix[fd])
  {
    assert Indexed(ps, n, ix, b, fd);
  }

  lemma Added(ps: seq<PollFd>, n: nat, ix: seq<int>, b: Masks, fd: nat, ps': seq<PollFd>)
    requires Encodes(ps, n, ix, b) && fd < |ix| && ix[fd] < 0
    requires n < |ps'| && ps'[n].fd == fd && forall i :: 0 <= i < n ==> ps'[i] == ps[i]
    ensures EncodesBut(ps', n + 1, ix[fd := n], b, fd, n)
  {
    var ix' := ix[fd := n];
    forall i: nat {:trigger Element(ps', ix', b, i)} | i < n ensures Element(ps', ix', b, i) {
      assert Element(ps, ix, b, i);
    }
    forall x: nat {:trigger Indexed(ps', n + 1, ix', b, x)} | x != fd ensures Indexed(ps', n + 1, ix', b, x) { assert Indexed(ps, n, ix, b, x); }
  }

  lemma Changed(ps: seq<PollFd>, n: nat, ix: seq<int>, b: Masks, fd: nat, idx: nat, ev: bv8)
    requires EncodesBut(ps, n, ix, b, fd, idx) && fd < |b| && ev != 0
    ensures Encodes(ps[idx := PollFd(fd, PollMask(ev))], n, ix, b[fd := ev])
  {
    var ps', b' := ps[idx := PollFd(fd, PollMask(ev))], b[fd := ev];
    forall i: nat {:trigger Element(ps', ix, b', i)} | i < n ensures Element(ps', ix, b', i) {
      assert i != idx ==> Element(ps, ix, b, i);
    }
    forall x: nat ensures Indexed(ps', n, ix, b', x) { assert x != fd ==> Indexed(ps, n, ix, b, x); }
  }

  /** The array and the index without the element idx, whose place the last one takes. */
  function Moved(ps: seq<PollFd>, n: nat, idx: nat): (ps': seq<PollFd>)
    requires idx <= n < |ps|
  {
    if idx < n then ps[idx := ps[n]] else ps
  }

  function Reindexed(ps: seq<PollFd>, n: nat, ix: seq<int>, fd: nat, idx: nat): (ix': seq<int>)
    requires idx <= n < |ps| && fd < |ix| && (idx < n ==> ps[n].fd < |ix|)
  {
    if idx < n then ix[fd := -1][ps[n].fd := idx] else ix[fd := -1]
  }

  lemma Removed(ps: seq<PollFd>, n: nat, ix: seq<int>, b: Masks, fd: nat, idx: nat)
    requires EncodesBut(ps, n + 1, ix, b, fd, idx) && fd < |b|
    ensures idx < n ==> ps[n].fd < |ix|
    ensures Encodes(Moved(ps, n, idx), n, Reindexed(ps, n, ix, fd, idx), b[fd := 0])
  {
    assert idx < n ==> Element(ps, ix, b, n);
    var ps', ix', b' := Moved(ps, n, idx), Reindexed(ps, n, ix, fd, idx), b[fd := 0];
    forall i: nat {:trigger Element(ps', ix', b', i)} | i < n ensures Element(ps', ix', b', i) {
      assert i != idx ==> Element(ps, ix, b, i);
    }
    forall x: nat ensures Indexed(ps', n, ix', b', x) {
      assert x != fd ==> Indexed(ps, n + 1, ix, b, x);
    }
  }

  class Poll {
    var polls: seq<PollFd>
    var pollcnt: nat
    var pollidxs: seq<int>

    constructor ()
      ensures Holds([])
    {
      polls, pollcnt, pollidxs := [], 0, [];
    }

    ghost predicate Holds(b: Masks)
      reads this
    {
      Encodes(polls, pollcnt, pollidxs, b)
    }

    /** Only what is of interest matters, not how many file descriptors there are. */
    lemma SameMasks(b: Masks, b': Masks)
      requires Holds(b) && forall fd: nat {:trigger At(b, fd)} {:trigger At(b', fd)} :: At(b, fd) == At(b', fd)
      ensures Holds(b')
    {
      forall i: nat {:trigger Element(polls, pollidxs, b', i)} | i < pollcnt ensures Element(polls, pollidxs, b', i) {
        assert Element(polls, pollidxs, b, i);
      }
      forall x: nat ensures Indexed(polls, pollcnt, pollidxs, b', x) {
        assert Indexed(polls, pollcnt, pollidxs, b, x);
      }
    }

    /** poll_modify: the events of interest about fd have changed from oev to nev. */
    method Modify(fd: nat, oev: bv8, nev: bv8, ghost b: Masks)
      requires Holds(b) && fd < |b| && b[fd] == oev
      modifies this
      ensures Holds(b[fd := nev])
    {
      if oev == nev {
        assert b[fd := nev] == b;
        return;
      }
      var idx := Find(fd, b);
      if nev != 0 {
        Changed(polls, pollcnt, pollidxs, b, fd, idx, nev);
        polls := polls[idx := polls[idx].(events := PollMask(nev))];
      } else {
        Removed(polls, pollcnt - 1, pollidxs, b, fd, idx);
        pollidxs := pollidxs[fd := -1];
        pollcnt := pollcnt - 1;
        if idx < pollcnt {
          polls := polls[idx := polls[pollcnt]];
          pollidxs := pollidxs[polls[idx].fd := idx];
        }
      }
    }

    /** The element for fd, which is added if there is none. */
    method Find(fd: nat, ghost b: Masks) returns (idx: nat)
      requires Holds(b)
      modifies this
      ensures EncodesBut(polls, pollcnt, pollidxs, b, fd, idx)
    {
      if |pollidxs| <= fd {
        Growing(polls, pollcnt, pollidxs, b, fd + 1 - |pollidxs|);
        pollidxs := pollidxs + seq(fd + 1 - |pollidxs|, _ => -1);
      }
      if pollidxs[fd] < 0 {
        idx := pollcnt;
        ghost var ps, ix := polls, pollidxs;
        pollidxs := pollidxs[fd := idx];
        pollcnt := pollcnt + 1;
        if |polls| < pollcnt {
          polls := polls + [PollFd(fd, 0)];
        }
        polls := polls[idx := polls[idx].(fd := fd)];
        Added(ps, idx, ix, b, fd, polls);
      } else {
        Found(polls, pollcnt, pollidxs, b, fd);
        assert Indexed(polls, pollcnt, pollidxs, b, fd);
        idx := pollidxs[fd];
      }
    }
  }

  // ----- select -----

  const NFDBITS := 32

  /** A word (fd_mask), as the set of its bits that are 1. */
  type Word = set<nat>

  predicate Get(v: seq<Word>, fd: nat)
  {
    fd / NFDBITS < |v| && fd % NFDBITS in v[fd / NFDBITS]
  }

  predicate Wants(b: Masks, want: bv8, fd: nat) { At(b, fd) & want != 0 }

  /** The words have fd's bit just if `want` is of interest about it; there are none beyond the end. */
  ghost predicate Bits(v: seq<Word>, b: Masks, want: bv8)
  {
    forall fd: nat {:trigger Get(v, fd)} :: Get(v, fd) == Wants(b, want, fd)
  }

  /** Changing one bit. */
  lemma PutBit(v: seq<Word>, b: Masks, want: bv8, fd: nat, nev: bv8, v': seq<Word>)
    requires Bits(v, b, want) && |v'| == |v| && fd < |b|
    requires forall x: nat {:trigger Get(v', x)} :: Get(v', x) == if x == fd then nev & want != 0 else Get(v, x)
    ensures Bits(v', b[fd := nev], want)
  {
    forall x: nat ensures Get(v', x) == Wants(b[fd := nev], want, x) {
      assert Get(v, x) == Wants(b, want, x);
      WantsPut(b, want, fd, nev, x);
    }
  }

  lemma WantsPut(b: Masks, want: bv8, fd: nat, nev: bv8, x: nat)
    requires fd < |b|
    ensures Wants(b[fd := nev], want, x) == if x == fd then nev & want != 0 else Wants(b, want, x)
  {
  }

  lemma GrowBits(v: seq<Word>, b: Masks, want: bv8)
    requires Bits(v, b, want)
    ensures Bits(v + [{}], b, want)
  {
    forall x: nat ensures Get(v + [{}], x) == Wants(b, want, x) {
      assert Get(v, x) == Wants(b, want, x);
    }
  }

  class Select {
    var vec_ri: seq<Word>
    var vec_wi: seq<Word>

    constructor ()
      ensures Holds([])
    {
      vec_ri, vec_wi := [], [];
    }

    /** vec_max words each: one vector for reading, one for writing. */
    ghost predicate Holds(b: Masks)
      reads this
    {
      |vec_ri| == |vec_wi| && Bits(vec_ri, b, EV_READ) && Bits(vec_wi, b, EV_WRITE)
    }

    lemma SameMasks(b: Masks, b': Masks)
      requires Holds(b) && forall fd: nat {:trigger At(b, fd)} {:trigger At(b', fd)} :: At(b, fd) == At(b', fd)
      ensures Holds(b')
    {
      forall x: nat ensures Wants(b', EV_READ, x) == Wants(b, EV_READ, x) && Wants(b', EV_WRITE, x) == Wants(b, EV_WRITE, x) {
        assert At(b', x) == At(b, x);
      }
    }

    /** select_modify. */
    method Modify(fd: nat, oev: bv8, nev: bv8, ghost b: Masks)
      requires Holds(b) && fd < |b| && b[fd] == oev
      modifies this
      ensures Holds(b[fd := nev])
    {
      if oev == nev {
        assert b[fd := nev] == b;
        return;
      }
      while |vec_ri| <= fd / NFDBITS
        invariant Holds(b)
      {
        GrowBits(vec_ri, b, EV_READ);
        GrowBits(vec_wi, b, EV_WRITE);
        vec_ri, vec_wi := vec_ri + [{}], vec_wi + [{}];
      }
      var ri := Assign(vec_ri, fd, nev & EV_READ != 0);
      PutBit(vec_ri, b, EV_READ, fd, nev, ri);
      var wi := Assign(vec_wi, fd, nev & EV_WRITE != 0);
      PutBit(vec_wi, b, EV_WRITE, fd, nev, wi);
      vec_ri, vec_wi := ri, wi;
    }
  }

  /** Set fd's bit, and clear it again if it is not to be set. */
  method Assign(vec: seq<Word>, fd: nat, on: bool) returns (v: seq<Word>)
    requires fd / NFDBITS < |vec|
    ensures |v| == |vec|
    ensures forall x: nat {:trigger Get(v, x)} :: Get(v, x) == if x == fd then on else Get(vec, x)
  {
    var word, mask := fd / NFDBITS, {fd % NFDBITS};
    v := vec[word := vec[word] + mask];
    if !on {
      v := v[word := v[word] - mask];
    }
  }
}
