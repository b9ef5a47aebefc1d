/** libev's record of the file descriptors it watches (ev.c: fd_change, fd_reify, ev_io_start,
    ev_io_stop). Changes are collected and told to the backend once, before the loop blocks. */
module FdLayer {
  import opened Backends

  const EV__IOFDSET: bv8 := 0x80
  const EV_ANFD_REIFY: bv8 := 1

  /** The fields of an ev_io watcher that matter here. */
  class IoWatcher {
    var active: nat
    var fd: int
    var events: bv8

    constructor (fd: int, events: bv8)
      ensures active == 0 && this.fd == fd && this.events == events | EV__IOFDSET
    {
      active, this.fd, this.events := 0, fd, events | EV__IOFDSET;
    }
  }

  /** What the loop knows about a file descriptor: its watchers, the events the backend has been
      told to report, and whether it is in the list of changes. */
  datatype Anfd = Anfd(head: seq<IoWatcher>, events: bv8, reify: bv8)

  datatype Backend = PollBackend(poll: Poll) | SelectBackend(select: Select)

  /** What a watcher says about itself. */
  datatype Io = Io(active: bool, fd: int, events: bv8)

  type Ios = map<IoWatcher, Io>

  // ----- masks -----

  /** The events that the watchers of a list want. */
  ghost function Want(head: seq<IoWatcher>, io: Ios): bv8
    requires forall w :: w in head ==> w in io
  {
    if head == [] then 0 else Want(head[..|head| - 1], io) | io[head[|head| - 1]].events
  }

  /** An event is wanted just if one of the watchers wants it. */
  lemma {:induction false} WantBit(head: seq<IoWatcher>, io: Ios, bit: bv8)
    requires forall w :: w in head ==> w in io
    ensures Want(head, io) & bit != 0 <==> exists w :: w in head && io[w].events & bit != 0
  {
    if head != [] {
      var before, last := head[..|head| - 1], head[|head| - 1];
      assert head == before + [last];
      WantBit(before, io, bit);
      OrBit(Want(before, io), io[last].events, bit);
    }
  }

  lemma OrBit(x: bv8, y: bv8, bit: bv8)
    ensures (x | y) & bit != 0 <==> x & bit != 0 || y & bit != 0
  {
  }

  lemma {:induction false} WantSame(head: seq<IoWatcher>, io: Ios, io': Ios)
    requires forall w :: w in head ==> w in io && w in io' && io[w].events == io'[w].events
    ensures Want(head, io) == Want(head, io')
  {
    if head != [] {
      WantSame(head[..|head| - 1], io, io');
    }
  }

  // ----- lists of watchers -----

  /** The list after its first element equal to w, if there is one, has been unlinked. */
  function Without(list: seq<IoWatcher>, w: IoWatcher): (r: seq<IoWatcher>)
  {
    if list == [] then [] else if list[0] == w then list[1..] else [list[0]] + Without(list[1..], w)
  }

  ghost predicate NoDup(list: seq<IoWatcher>)
  {
    forall i, j :: 0 <= i < j < |list| ==> list[i] != list[j]
  }

  lemma {:induction false} WithoutIs(list: seq<IoWatcher>, w: IoWatcher)
    requires NoDup(list)
    ensures NoDup(Without(list, w)) && w !in Without(list, w)
    ensures forall x :: x != w ==> (x in Without(list, w) <==> x in list)
  {
    if list != [] && list[0] != w {
      WithoutIs(list[1..], w);
      var r := Without(list[1..], w);
      assert list == [list[0]] + list[1..];
      assert list[0] !in list[1..];
      assert list[0] !in r;
    } else if list != [] {
      assert list == [w] + list[1..];
      assert w !in list[1..];
    }
  }

  /** wlist_del: unlink a watcher. */
  method WlistDel(list: seq<IoWatcher>, w: IoWatcher) returns (r: seq<IoWatcher>)
    ensures r == Without(list, w)
  {
    var i := 0;
    while i < |list| && list[i] != w
      invariant 0 <= i <= |list| && Without(list, w) == list[..i] + Without(list[i..], w)
    {
      Step(list, i, w);
      i := i + 1;
    }
    if i < |list| {
      assert list[i..][1..] == list[i + 1..];
      r := list[..i] + list[i + 1..];
    } else {
      assert list[..i] == list && list[i..] == [];
      r := list;
    }
  }

  lemma Step(list: seq<IoWatcher>, i: nat, w: IoWatcher)
    requires i < |list| && list[i] != w
    ensures list[..i] + Without(list[i..], w) == list[..i + 1] + Without(list[i + 1..], w)
  {
    assert list[i..][1..] == list[i + 1..];
    assert list[..i + 1] == list[..i] + [list[i]];
  }

  // ----- the list of changes -----

  /** An fd is marked just if it is in the list, and then once. */
  ghost predicate ChangesOk(anfds: seq<Anfd>, changes: seq<nat>)
  {
    (forall i, j :: 0 <= i < j < |changes| ==> changes[i] != changes[j]) &&
    (forall i :: 0 <= i < |changes| ==> changes[i] < |anfds|) &&
    forall fd :: 0 <= fd < |anfds| ==> (anfds[fd].reify != 0 <==> fd in changes)
  }

  ghost function Committed(anfds: seq<Anfd>): (b: Masks)
  {
    seq(|anfds|, i requires 0 <= i < |anfds| => anfds[i].events)
  }

  // ----- the invariant, on values -----

  /** The fd's list holds active watchers of the fd, each once; if the fd is not marked, the backend
      has been told what they want. */
  ghost predicate FdOk(anfds: seq<Anfd>, io: Ios, fd: nat)
    requires fd < |anfds|
  {
    var a := anfds[fd];
    NoDup(a.head) && (forall w :: w in a.head ==> w in io && io[w].active && io[w].fd == fd) &&
    (a.reify == 0 ==> a.events == Want(a.head, io))
  }

  /** An active watcher is in the list of its fd. */
  ghost predicate IoOk(anfds: seq<Anfd>, io: Ios, w: IoWatcher)
    requires w in io
  {
    io[w].active ==> 0 <= io[w].fd < |anfds| && w in anfds[io[w].fd].head
  }

  ghost predicate Consistent(anfds: seq<Anfd>, changes: seq<nat>, io: Ios)
  {
    ChangesOk(anfds, changes) &&
    (forall fd {:trigger FdOk(anfds, io, fd)} :: 0 <= fd < |anfds| ==> FdOk(anfds, io, fd)) &&
    forall w {:trigger IoOk(anfds, io, w)} :: w in io ==> IoOk(anfds, io, w)
  }

  const Unused := Anfd([], 0, 0)

  /** New file descriptors are not marked and have no watchers. */
  lemma Grown(anfds: seq<Anfd>, changes: seq<nat>, io: Ios, more: nat)
    requires Consistent(anfds, changes, io)
    ensures Consistent(anfds + seq(more, _ => Unused), changes, io)
  {
    var a := anfds + seq(more, _ => Unused);
    forall fd | 0 <= fd < |a| ensures FdOk(a, io, fd) {
      assert fd < |anfds| ==> FdOk(anfds, io, fd);
    }
    forall w | w in io ensures IoOk(a, io, w) { assert IoOk(anfds, io, w); }
  }

  /** A change of one fd's list: w is added at the front or taken out, and the fd is marked. */
  lemma Relisted(anfds: seq<Anfd>, changes: seq<nat>, io: Ios, w: IoWatcher, i: Io, anfds': seq<Anfd>, changes': seq<nat>)
    requires Consistent(anfds, changes, io) && w in io && i.fd == io[w].fd && 0 <= i.fd < |anfds|
    requires i.active != io[w].active
    requires |anfds'| == |anfds| && ChangesOk(anfds', changes') && anfds'[i.fd].reify != 0
    requires forall fd :: 0 <= fd < |anfds| && fd != i.fd ==> anfds'[fd] == anfds[fd]
    requires anfds'[i.fd].head == if i.active then [w] + anfds[i.fd].head else Without(anfds[i.fd].head, w)
    ensures Consistent(anfds', changes', io[w := i])
  {
    var io' := io[w := i];
    assert IoOk(anfds, io, w) && FdOk(anfds, io, i.fd);
    WithoutIs(anfds[i.fd].head, w);
    forall fd | 0 <= fd < |anfds| ensures FdOk(anfds', io', fd) {
      assert FdOk(anfds, io, fd);
      if fd != i.fd { WantSame(anfds[fd].head, io, io'); }
    }
    forall x | x in io' ensures IoOk(anfds', io', x) {
      assert IoOk(anfds, io, x);
    }
  }

  ghost predicate Known(head: seq<IoWatcher>, io: Ios) { forall w :: w in head ==> w in io }

  /** The first i changes have been told to the backend. */
  ghost predicate Reifying(a0: seq<Anfd>, a: seq<Anfd>, changes: seq<nat>, io: Ios, i: nat)
  {
    i <= |changes| && |a| == |a0| &&
    forall fd {:trigger a[fd]} :: 0 <= fd < |a0| ==>
      Known(a0[fd].head, io) &&
      a[fd] == if fd in changes[..i] then Anfd(a0[fd].head, Want(a0[fd].head, io), 0) else a0[fd]
  }

  /** The backend is to be told of fd: its watchers want something else than before, or the descriptor may be
      another file than before. */
  ghost predicate ToTell(a: Anfd, io: Ios)
    requires Known(a.head, io)
  {
    a.events != Want(a.head, io) || a.reify & EV__IOFDSET != 0
  }

  ghost predicate ToldOf(a0: seq<Anfd>, changes: seq<nat>, io: Ios, told: set<nat>)
  {
    forall fd {:trigger Telling(a0, changes, io, fd)} {:trigger fd in told} :: fd in told <==> Telling(a0, changes, io, fd)
  }

  ghost predicate Telling(a0: seq<Anfd>, changes: seq<nat>, io: Ios, fd: nat)
  {
    fd in changes && fd < |a0| && Known(a0[fd].head, io) && ToTell(a0[fd], io)
  }

  predicate Flagged(reify: bv8, flags: bv8) { flags & EV__IOFDSET != 0 ==> reify & EV__IOFDSET != 0 }

  lemma WithFlags(reify: bv8, flags: bv8)
    ensures Flagged(reify | flags, flags)
  {
  }

  lemma IofdsetKept(events: bv8, reify: bv8)
    requires Flagged(reify, (events & EV__IOFDSET) | EV_ANFD_REIFY)
    ensures Flagged(reify, events)
  {
  }

  lemma ToldStep(a0: seq<Anfd>, changes: seq<nat>, io: Ios, i: nat, told: set<nat>)
    requires i < |changes| && ToldOf(a0, changes[..i], io, told) && changes[i] < |a0| && Known(a0[changes[i]].head, io)
    ensures ToldOf(a0, changes[..i + 1], io, told + if ToTell(a0[changes[i]], io) then {changes[i]} else {})
  {
    assert changes[..i + 1] == changes[..i] + [changes[i]];
    forall fd: nat ensures Telling(a0, changes[..i + 1], io, fd) <==>
      Telling(a0, changes[..i], io, fd) || (fd == changes[i] && ToTell(a0[changes[i]], io)) {}
  }

  lemma ReifyStarts(a0: seq<Anfd>, changes: seq<nat>, io: Ios)
    requires Consistent(a0, changes, io)
    ensures Reifying(a0, a0, changes, io, 0)
  {
    forall fd | 0 <= fd < |a0| ensures Known(a0[fd].head, io) { assert FdOk(a0, io, fd); }
  }

  lemma ReifyStep(a0: seq<Anfd>, a: seq<Anfd>, changes: seq<nat>, io: Ios, i: nat)
    requires Reifying(a0, a, changes, io, i) && i < |changes| && ChangesOk(a0, changes)
    ensures changes[i] < |a0| && a[changes[i]] == a0[changes[i]] && Known(a0[changes[i]].head, io)
    ensures Reifying(a0, a[changes[i] := Anfd(a0[changes[i]].head, Want(a0[changes[i]].head, io), 0)], changes, io, i + 1)
  {
    assert changes[i] !in changes[..i];
    assert a[changes[i]] == a0[changes[i]];
    assert changes[..i + 1] == changes[..i] + [changes[i]];
    forall fd | 0 <= fd < |a0| ensures Known(a0[fd].head, io) { assert a[fd] == a[fd]; }
    var a' := a[changes[i] := Anfd(a0[changes[i]].head, Want(a0[changes[i]].head, io), 0)];
    forall fd | 0 <= fd < |a0|
      ensures a'[fd] == if fd in changes[..i + 1] then Anfd(a0[fd].head, Want(a0[fd].head, io), 0) else a0[fd]
    {
      assert a[fd] == if fd in changes[..i] then Anfd(a0[fd].head, Want(a0[fd].head, io), 0) else a0[fd];
    }
  }

  lemma ReifyEnds(a0: seq<Anfd>, a: seq<Anfd>, changes: seq<nat>, io: Ios)
    requires Consistent(a0, changes, io) && Reifying(a0, a, changes, io, |changes|)
    ensures Consistent(a, [], io) && forall fd :: 0 <= fd < |a| ==> a[fd].reify == 0
  {
    assert changes[..|changes|] == changes;
    forall fd | 0 <= fd < |a| ensures a[fd].reify == 0 && FdOk(a, io, fd) {
      assert FdOk(a0, io, fd) && a[fd].head == a0[fd].head;
    }
    forall w | w in io ensures IoOk(a, io, w) { assert IoOk(a0, io, w); }
  }

  /** The backend is told of a bit about an fd just if an active watcher of the fd wants it. */
  ghost predicate Agreed(b: Masks, io: Ios, fd: nat, bit: bv8)
  {
    At(b, fd) & bit != 0 <==> exists w :: w in io && io[w].active && io[w].fd == fd && io[w].events & bit != 0
  }

  /** When there are no changes left, the backend knows exactly what the active watchers want. */
  lemma AllAgreed(anfds: seq<Anfd>, io: Ios, fd: nat, bit: bv8)
    requires Consistent(anfds, [], io)
    ensures Agreed(Committed(anfds), io, fd, bit)
  {
    if fd < |anfds| {
      assert FdOk(anfds, io, fd);
      assert anfds[fd].reify == 0;
      WantBit(anfds[fd].head, io, bit);
    }
    forall w | w in io && io[w].active && io[w].fd == fd ensures fd < |anfds| && w in anfds[fd].head {
      assert IoOk(anfds, io, w);
    }
  }

  // ----- the loop -----

  class FdLoop {
    var anfds: seq<Anfd>
    var fdchanges: seq<nat>
    const backend: Backend
    ghost var watchers: set<IoWatcher>
    /** The fds of which the backend has been told since the last fd_reify began. */
    ghost var told: set<nat>

    constructor (useSelect: bool)
      ensures Valid() && watchers == {}
    {
      var poll := new Poll();
      var select := new Select();
      backend := if useSelect then SelectBackend(select) else PollBackend(poll);
      anfds, fdchanges, watchers, told := [], [], {}, {};
      new;
      assert Committed(anfds) == [];
    }

    ghost function Ios(): Ios
      reads this`watchers, watchers
    {
      map w | w in watchers :: Io(w.active > 0, w.fd, w.events)
    }

    ghost function Memory(): set<object>
    {
      match backend case PollBackend(p) => {p} case SelectBackend(s) => {s}
    }

    /** The backend has been told just the masks b. */
    ghost predicate BackendHolds(b: Masks)
      reads Memory()
    {
      match backend case PollBackend(p) => p.Holds(b) case SelectBackend(s) => s.Holds(b)
    }

    ghost predicate Valid()
      reads this, watchers, Memory()
    {
      BackendHolds(Committed(anfds)) && Consistent(anfds, fdchanges, Ios())
    }

    /** fd_change: something about fd has changed. */
    method Change(fd: nat, flags: bv8)
      requires fd < |anfds| && flags != 0 && ChangesOk(anfds, fdchanges)
      modifies this`anfds, this`fdchanges
      ensures ChangesOk(anfds, fdchanges) && |anfds| == old(|anfds|) && anfds[fd].reify != 0
      ensures anfds == old(anfds)[fd := old(anfds)[fd].(reify := old(anfds)[fd].reify | flags)]
    {
      var reify := anfds[fd].reify;
      assert reify | flags != 0;
      anfds := anfds[fd := anfds[fd].(reify := anfds[fd].reify | flags)];
      if reify == 0 {
        fdchanges := fdchanges + [fd];
      }
    }

    /** Give an fd another list of watchers, and mark it. */
    method Relist(fd: nat, head: seq<IoWatcher>, flags: bv8)
      requires fd < |anfds| && flags != 0 && ChangesOk(anfds, fdchanges)
      modifies this`anfds, this`fdchanges
      ensures ChangesOk(anfds, fdchanges) && |anfds| == old(|anfds|) && anfds[fd].reify != 0 && anfds[fd].head == head
      ensures forall x :: 0 <= x < |anfds| && x != fd ==> anfds[x] == old(anfds)[x]
      ensures Committed(anfds) == old(Committed(anfds)) && Flagged(anfds[fd].reify, flags)
    {
      anfds := anfds[fd := anfds[fd].(head := head)];
      WithFlags(anfds[fd].reify, flags);
      Change(fd, flags);
    }

    /** array_needsize: make room for fd. */
    method Grow(fd: nat)
      requires Valid()
      modifies this`anfds
      ensures Valid() && fd < |anfds|
    {
      if |anfds| <= fd {
        ghost var b := Committed(anfds);
        Grown(anfds, fdchanges, Ios(), fd + 1 - |anfds|);
        anfds := anfds + seq(fd + 1 - |anfds|, _ => Unused);
        match backend {
          case PollBackend(p) => p.SameMasks(b, Committed(anfds));
          case SelectBackend(s) => s.SameMasks(b, Committed(anfds));
        }
      }
    }

    /** ev_io_start. */
    method IoStart(w: IoWatcher)
      requires Valid() && w in watchers && w.fd >= 0
      requires w.events & !(EV__IOFDSET | EV_READ | EV_WRITE) == 0
      modifies this`anfds, this`fdchanges, w`active, w`events
      ensures Valid() && w.active > 0
      ensures old(w.active) > 0 ==> Ios() == old(Ios())
      ensures old(w.active) == 0 ==> Ios() == old(Ios())[w := Io(true, w.fd, old(w.events) & !EV__IOFDSET)]
      ensures old(w.active) == 0 ==> w.fd < |anfds| && Flagged(anfds[w.fd].reify, old(w.events))
    {
      if w.active > 0 { return; }
      Grow(w.fd);
      Activate(w);
    }

    method Activate(w: IoWatcher)
      requires Valid() && w in watchers && 0 <= w.fd < |anfds| && w.active == 0
      requires w.events & !(EV__IOFDSET | EV_READ | EV_WRITE) == 0
      modifies this`anfds, this`fdchanges, w`active, w`events
      ensures Valid() && w.active > 0 && Ios() == old(Ios())[w := Io(true, w.fd, old(w.events) & !EV__IOFDSET)]
      ensures w.fd < |anfds| && Flagged(anfds[w.fd].reify, old(w.events))
    {
      ghost var io, a, c := Ios(), anfds, fdchanges;
      w.active := 1;
      Relist(w.fd, [w] + anfds[w.fd].head, (w.events & EV__IOFDSET) | EV_ANFD_REIFY);
      IofdsetKept(w.events, anfds[w.fd].reify);
      w.events := w.events & !EV__IOFDSET;
      Relisted(a, c, io, w, Io(true, w.fd, w.events), anfds, fdchanges);
      assert Ios() == io[w := Io(true, w.fd, w.events)];
    }

    /** ev_io_stop, but for clear_pending. */
    method IoStop(w: IoWatcher)
      requires Valid() && w in watchers
      modifies this`anfds, this`fdchanges, w`active
      ensures Valid() && w.active == 0
      ensures Ios() == old(Ios())[w := Io(false, w.fd, w.events)]
    {
      if w.active == 0 { return; }
      ghost var io, a, c := Ios(), anfds, fdchanges;
      assert IoOk(a, io, w);
      var head := WlistDel(anfds[w.fd].head, w);
      w.active := 0;
      Relist(w.fd, head, EV_ANFD_REIFY);
      Relisted(a, c, io, w, Io(false, w.fd, w.events), anfds, fdchanges);
      assert Ios() == io[w := Io(false, w.fd, w.events)];
    }

    method BackendModify(fd: nat, oev: bv8, nev: bv8, ghost b: Masks)
      requires BackendHolds(b) && fd < |b| && b[fd] == oev
      modifies Memory()
      ensures BackendHolds(b[fd := nev])
    {
      match backend {
        case PollBackend(p) => p.Modify(fd, oev, nev, b);
        case SelectBackend(s) => s.Modify(fd, oev, nev, b);
      }
    }

    /** Tell the backend all changes. */
    method FdReify()
      requires Valid()
      modifies this`anfds, this`fdchanges, this`told, Memory()
      ensures ToldOf(old(anfds), old(fdchanges), Ios(), told)
      ensures Valid() && fdchanges == [] && forall fd :: 0 <= fd < |anfds| ==> anfds[fd].reify == 0
      ensures forall fd: nat, bit {:trigger Agreed(Committed(anfds), Ios(), fd, bit)} ::
        Agreed(Committed(anfds), Ios(), fd, bit)
    {
      ghost var a0, changes, io := anfds, fdchanges, Ios();
      ReifyStarts(a0, changes, io);
      TellAll(io);
      ReifyEnds(a0, anfds, changes, io);
      fdchanges := [];
      forall fd: nat, bit ensures Agreed(Committed(anfds), io, fd, bit) {
        AllAgreed(anfds, io, fd, bit);
      }
    }

    /** The loop of fd_reify. */
    method TellAll(ghost io: Ios)
      requires BackendHolds(Committed(anfds)) && ChangesOk(anfds, fdchanges) && Reifying(anfds, anfds, fdchanges, io, 0) && io == Ios()
      modifies this`anfds, this`told, Memory()
      ensures Reifying(old(anfds), anfds, fdchanges, io, |fdchanges|) && BackendHolds(Committed(anfds))
      ensures ToldOf(old(anfds), fdchanges, io, told)
    {
      ghost var a0, changes := anfds, fdchanges;
      told := {};
      var i := 0;
      while i < |fdchanges|
        invariant 0 <= i <= |changes| && fdchanges == changes && io == Ios()
        invariant Reifying(a0, anfds, changes, io, i) && BackendHolds(Committed(anfds))
        invariant ToldOf(a0, changes[..i], io, told)
        decreases |changes| - i
      {
        ReifyStep(a0, anfds, changes, io, i);
        ToldStep(a0, changes, io, i, told);
        ReifyOne(fdchanges[i], io);
        i := i + 1;
      }
      assert changes[..i] == changes;
    }

    /** Unmark an fd, and tell the backend what its watchers want. */
    method ReifyOne(fd: nat, ghost io: Ios)
      requires fd < |anfds| && BackendHolds(Committed(anfds)) && Known(anfds[fd].head, io)
      requires io == Ios()
      modifies this`anfds, this`told, Memory()
      ensures told == old(told) + (if ToTell(old(anfds)[fd], io) then {fd} else {}) && Ios() == io
      ensures anfds == old(anfds)[fd := Anfd(old(anfds)[fd].head, Want(old(anfds)[fd].head, io), 0)]
      ensures BackendHolds(Committed(anfds))
    {
      ghost var b := Committed(anfds);
      var o_events, o_reify, head := anfds[fd].events, anfds[fd].reify, anfds[fd].head;
      var events := 0;
      var i := 0;
      while i < |head|
        invariant 0 <= i <= |head| && events == Want(head[..i], io)
      {
        assert head[..i + 1][..i] == head[..i] && head[i] in head;
        events := events | head[i].events;
        i := i + 1;
      }
      assert head[..|head|] == head;
      anfds := anfds[fd := Anfd(head, events, 0)];
      assert Committed(anfds) == b[fd := events];
      if o_events != events {
        o_reify := EV__IOFDSET;
      }
      if o_reify & EV__IOFDSET != 0 {
        BackendModify(fd, o_events, events, b);
        told := told + {fd};
      } else {
        assert Committed(anfds) == b;
      }
    }
  }
}
