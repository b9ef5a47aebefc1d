/** The mutual recursion of pdnsd's resolver (dns_query.c: r_dns_cached_resolve, p_dns_cached_resolve,
    p_dns_resolve, p_recursive_query, auth_ok). What the cache holds and what the servers do is a parameter
    of every call (World) that may be anything; every call leaves a record of what it has come to and of
    the calls it has led to (Call). The contracts say that each record explains its outcome (Proper); the
    results are about all such records. Names are compared without regard to case, so they are given in
    lower case here. */
module Resolver {
  import opened Names
  import opened QuerySm

  type Key = seq<byte>

  const T_A := 1

  const RC_CACHED := 0xfffb
  const RC_STALE := 0xfffc

  /** These codes come with an answer. */
  predicate Answers(rc: int) { rc == RC_OK || rc == RC_CACHED || rc == RC_STALE }

  /** A name and a type that is being resolved further up (qhintnode_t). */
  datatype Hint = Hint(nm: Key, tp: int)

  /** A server in a list of queries: its address, how it is queried, and whether its query has come to
      an end. */
  datatype Server = Server(addr: int, qm: Method, done: bool)

  type Servers = seq<Server>

  // ----- what a call meets with -----

  /** An address of a name server; whether it is one that is not to be asked; and how to query it. */
  datatype Found = Found(addr: int, local: bool, qm: Method)

  /** A name server that an answer names, and the addresses a look-up of its name yields. */
  datatype NameServer = NameServer(nm: Key, addrs: seq<Found>)

  /** How much a server has failed (query_stat_t's failed). */
  type Failures = n: nat | n <= 3

  /** What a query may return (p_exec_query). */
  type Code = c: int | c != RC_CACHED && c != RC_STALE

  /** A query comes to an end: whether UDP has been tried for TCP, and what it returns. For an answer: how
      much the server has failed, whether it is truncated, whether the server claims to be authoritative
      or to have recursion available, whether no authoritative answer is needed or this is one, and the name
      servers it names. */
  datatype Event = Event(server: int, fallen: bool, rv: Code, failed: Failures, tc: bool, claims: bool,
                         authoritative: bool, ns: seq<NameServer>)

  /** lookup_cache_status: locally defined, locally negated, in the cache, or to be asked for. */
  datatype Status = Local | Negated | Current | Missing

  /** What the cache says of the name, whether the link is down, whether there is an old entry to fall back
      on, whether the entry found is a negative one; the servers configured, the queries that come to an end,
      in this order, and whether time has run out since the last. */
  datatype World = World(status: Status, linkDown: bool, keep: bool, negative: bool, configured: Servers,
                         script: seq<Event>, late: bool)

  // ----- what becomes of queries -----

  predicate Running(q: Servers, e: Event) { 0 <= e.server < |q| && !q[e.server].done }

  /** A truncated answer by UDP makes the query be repeated with TCP, if both may be used. */
  predicate Repeats(q: Servers, e: Event)
    requires Running(q, e)
  {
    e.rv == RC_OK && q[e.server].qm == UdpTcp && e.tc
  }

  /** The query of this event has come to an end. */
  function Ended(q: Servers, e: Event): Servers
    requires Running(q, e)
  {
    q[e.server := Server(q[e.server].addr, if e.fallen && q[e.server].qm == TcpUdp then UdpOnly else q[e.server].qm, true)]
  }

  function Over(q: Servers, e: Event): (over: Servers)
    ensures |over| == |q|
  {
    if !Running(q, e) then q
    else if Repeats(q, e) then q[e.server := Server(q[e.server].addr, TcpOnly, false)]
    else Ended(q, e)
  }

  /** The queries after the first n events. */
  function After(q: Servers, script: seq<Event>, n: nat): (after: Servers)
    requires n <= |script|
    ensures |after| == |q|
  {
    if n == 0 then q else Over(After(q, script, n - 1), script[n - 1])
  }

  /** How often the queries may still come to an end (QuerySm.Query.Ends says why). */
  function Left(q: Servers): nat
  {
    if q == [] then 0 else Left(q[..|q| - 1]) + EndsLeft(q[|q| - 1].qm, q[|q| - 1].done)
  }

  lemma {:induction false} LeftUpdate(q: Servers, i: nat, s: Server)
    requires i < |q|
    ensures Left(q[i := s]) == Left(q) - EndsLeft(q[i].qm, q[i].done) + EndsLeft(s.qm, s.done)
  {
    var k := |q| - 1;
    if i < k {
      LeftUpdate(q[..k], i, s);
      assert q[i := s][..k] == q[..k][i := s];
    } else {
      assert q[i := s][..k] == q[..k];
    }
  }

  lemma LeftOver(q: Servers, e: Event)
    requires Running(q, e)
    ensures Left(Over(q, e)) < Left(q)
  {
    LeftUpdate(q, e.server, Over(q, e)[e.server]);
  }

  // ----- records -----

  /** What was done about one event: the look-ups it has led to, and the servers found by them. */
  datatype Step = Step(lookups: seq<Call>, found: Servers)

  /** A call of p_dns_cached_resolve: what it resolves, first in the chain, and the hops it has left; whether it
      is told which servers to ask, which, and what has been queried further up; what it meets with. The event
      whose answer is used (-1 for none), what has been done about each event, the call that asks the servers
      named by the answer used, and the code returned. */
  datatype Call = Call(chain: seq<Hint>, hops: int, told: bool, servers: Servers, above: seq<Servers>, world: World,
                       used: int, steps: seq<Step>, on: seq<Call>, rc: int)

  /** No address is looked up for a name while its address is being looked up already. */
  ghost predicate NoRepeat(chain: seq<Hint>)
  {
    forall i, j :: 0 <= i < j < |chain| && chain[i].tp == T_A && chain[j].tp == T_A ==> chain[i].nm != chain[j].nm
  }

  function Nat(h: int): nat { if h > 0 then h else 0 }

  /** The queries of a call and what has been done about them. */
  datatype Run = Run(q0: Servers, above: seq<Servers>, chain: seq<Hint>, hops: int, script: seq<Event>, steps: seq<Step>)

  function RunOf(c: Call): Run
  {
    Run(if c.told then c.servers else c.world.configured, if c.told then c.above else [], c.chain, c.hops,
      c.world.script, c.steps)
  }

  /** An answer, as far as it is compared with others: whether it is good enough, or there are servers
      to ask for a better one; how much its server has failed; whether it is truncated, and may be repeated then. */
  datatype Answer = Answer(authok: bool, failed: Failures, tc: bool, again: bool)

  /** Nothing better is to be hoped for. */
  predicate Satisfies(a: Answer) { a.authok && a.failed == 0 && !(a.again && a.tc) }

  /** Better in the first respect in which they differ: good enough, less failed, not truncated. */
  predicate Better(a: Answer, b: Answer)
  {
    if a.authok != b.authok then a.authok else if a.failed != b.failed then a.failed < b.failed else !a.tc && b.tc
  }

  /** An answer of a server that has failed is not good enough, an authoritative one is; another one is
      if servers have been found to ask on. */
  predicate GoodEnough(e: Event, found: Servers) { e.failed <= 1 && (e.authoritative || found != []) }

  function AnswerOf(q: Servers, e: Event, found: Servers): Answer
  {
    Answer(GoodEnough(e, found), e.failed, e.tc, Running(q, e) && q[e.server].qm == UdpTcp)
  }

  function AnswerAt(r: Run, k: nat): Answer
    requires k < |r.steps| <= |r.script|
  {
    AnswerOf(After(r.q0, r.script, k), r.script[k], r.steps[k].found)
  }

  /** What ends the waiting: an answer that satisfies, that the name does not exist, or an error. */
  predicate Satisfied(r: Run, k: nat)
    requires k < |r.steps| <= |r.script|
  {
    r.script[k].rv == RC_OK && Satisfies(AnswerAt(r, k))
  }

  predicate Ends(e: Event) { e.rv == RC_NAMEERR || e.rv == RC_FATALERR }

  /** Event k is of a query that was running, and what was done about it is right. */
  ghost predicate PlayedAt(r: Run, k: nat)
    requires k < |r.steps| <= |r.script|
  {
    var q, e, s := After(r.q0, r.script, k), r.script[k], r.steps[k];
    Running(q, e) &&
    if e.rv == RC_OK then Authorised(Ended(q, e), r.above, r.chain, r.hops, e, s) else s == Step([], [])
  }

  /** The waiting goes on after event k. */
  ghost predicate GoesOn(r: Run, k: nat)
    requires k < |r.steps| <= |r.script|
  {
    var on := PlayedAt(r, k) && !Satisfied(r, k) && !Ends(r.script[k]);
    on
  }

  ghost predicate Played(r: Run)
  {
    var n := |r.steps|;
    n <= |r.script| && (forall k :: 0 <= k < n - 1 ==> GoesOn(r, k)) && (n > 0 ==> PlayedAt(r, n - 1))
  }

  ghost predicate Playing(r: Run)
  {
    |r.steps| <= |r.script| && forall k :: 0 <= k < |r.steps| ==> GoesOn(r, k)
  }

  /** The best answer of all: the first that no other one is better than. */
  ghost predicate BestOf(r: Run, used: int)
    requires |r.steps| <= |r.script|
  {
    0 <= used < |r.steps| && r.script[used].rv == RC_OK &&
    forall k :: 0 <= k < |r.steps| && r.script[k].rv == RC_OK ==>
                  !Better(AnswerAt(r, k), AnswerAt(r, used)) && (k < used ==> Better(AnswerAt(r, used), AnswerAt(r, k)))
  }

  ghost predicate NoAnswer(r: Run)
    requires |r.steps| <= |r.script|
  {
    forall k :: 0 <= k < |r.steps| ==> r.script[k].rv != RC_OK
  }

  /** Whether the last event has ended the waiting. */
  ghost predicate Decided(r: Run)
    requires |r.steps| <= |r.script|
  {
    var n := |r.steps|;
    n > 0 && (Satisfied(r, n - 1) || Ends(r.script[n - 1]))
  }

  /** Which answer is used: the one that satisfies; none, if the name does not exist or there is an error; the
      best when all queries have come to an end or there is no more time. */
  ghost predicate Chosen(r: Run, used: int)
    requires |r.steps| <= |r.script|
  {
    var n := |r.steps|;
    if Decided(r) then used == if Ends(r.script[n - 1]) then -1 else n - 1
    else
      (n == |r.script| || !Running(After(r.q0, r.script, n), r.script[n])) &&
      if used == -1 then NoAnswer(r) else BestOf(r, used)
  }

  /** The code returned if there is no answer to use. */
  function Failure(r: Run, late: bool): int
    requires |r.steps| <= |r.script|
  {
    var n := |r.steps|;
    if n == 0 || r.script[n - 1].rv == RC_FATALERR then RC_SERVFAIL
    else if late && r.script[n - 1].rv != RC_NAMEERR then RC_SERVFAIL
    else r.script[n - 1].rv
  }

  /** What p_recursive_query comes to. */
  ghost predicate Concluded(r: Run, late: bool, used: int, on: seq<Call>, rc: int)
  {
    Played(r) && Chosen(r, used) &&
    if used < 0 then on == [] && rc == Failure(r, late)
    else if r.steps[used].found == [] then on == [] && rc == RC_OK
    else |on| == 1 && AsksOn(r, used, on[0]) &&
         rc == if r.script[used].claims && on[0].rc != RC_CACHED && on[0].rc != RC_NAMEERR then RC_OK else on[0].rc
  }

  /** The same is asked of the servers found, with one hop less. */
  ghost predicate AsksOn(r: Run, used: nat, d: Call)
    requires used < |r.steps| <= |r.script|
  {
    d.chain == r.chain && d.hops == r.hops - 1 && d.told && d.servers == r.steps[used].found &&
    d.above == [After(r.q0, r.script, |r.steps|)] + r.above
  }

  /** What auth_ok has to find out: if servers may be asked on, the name servers named are looked up, but for
      those whose address is being looked up already. */
  ghost predicate Authorised(q: Servers, above: seq<Servers>, chain: seq<Hint>, hops: int, e: Event, s: Step)
  {
    if e.failed > 1 || e.authoritative || hops <= 0 then s == Step([], [])
    else
      var ns := Wanted(chain, e.ns);
      LookedUp(chain, hops, ns, s.lookups) && Collected(q, above, ns, s)
  }

  function Wanted(chain: seq<Hint>, ns: seq<NameServer>): seq<NameServer>
  {
    if ns == [] then []
    else
      var rest, last := Wanted(chain, ns[..|ns| - 1]), ns[|ns| - 1];
      if Hint(last.nm, T_A) in chain then rest else rest + [last]
  }

  ghost predicate LookedUp(chain: seq<Hint>, hops: int, ns: seq<NameServer>, lookups: seq<Call>)
  {
    |lookups| == |ns| && forall i :: 0 <= i < |lookups| ==> LooksUp(lookups[i], chain, hops, ns[i].nm)
  }

  ghost predicate LooksUp(d: Call, chain: seq<Hint>, hops: int, nm: Key)
  {
    d.chain == [Hint(nm, T_A)] + chain && d.hops == hops - 1 && !d.told
  }

  /** r_dns_cached_resolve turns a negative entry into an error. */
  function LookUpCode(d: Call): int
  {
    if !Answers(d.rc) then d.rc else if d.world.negative then RC_NAMEERR else RC_OK
  }

  /** The servers found: all addresses of the name servers that could be looked up, and only these, but for those
      that are local or have been queried. */
  ghost predicate Collected(q: Servers, above: seq<Servers>, ns: seq<NameServer>, s: Step)
  {
    |s.lookups| == |ns| &&
    (forall i :: 0 <= i < |s.found| ==> FoundBy(ns, s.lookups, s.found[i]) && !Queried(q, above, s.found[i].addr)) &&
    forall i :: 0 <= i < |ns| && LookUpCode(s.lookups[i]) == RC_OK ==> AllTaken(q, above, ns[i].addrs, s.found)
  }

  ghost predicate FoundBy(ns: seq<NameServer>, lookups: seq<Call>, s: Server)
    requires |lookups| == |ns|
  {
    exists i :: 0 <= i < |ns| && LookUpCode(lookups[i]) == RC_OK && FoundIn(ns[i].addrs, s)
  }

  ghost predicate FoundIn(addrs: seq<Found>, s: Server)
  {
    exists a :: a in addrs && !a.local && s == Server(a.addr, a.qm, false)
  }

  ghost predicate AllTaken(q: Servers, above: seq<Servers>, addrs: seq<Found>, found: Servers)
  {
    forall a :: a in addrs ==> a.local || Queried(q, above, a.addr) || Among(found, a.addr)
  }

  ghost predicate Among(serv: Servers, addr: int) { exists s :: s in serv && s.addr == addr }

  /** A query has come to an end for a server of this address, here or further up. */
  ghost predicate Queried(q: Servers, above: seq<Servers>, addr: int)
  {
    AmongDone(q, addr) || exists k :: 0 <= k < |above| && AmongDone(above[k], addr)
  }

  ghost predicate AmongDone(q: Servers, addr: int) { exists i :: 0 <= i < |q| && q[i].done && q[i].addr == addr }

  /** The outcome of a call follows from what it has met with and what its calls have come to. */
  ghost predicate Explained(c: Call)
  {
    var w := c.world;
    if Silent(c) then
      c.steps == [] && c.on == [] && c.used == -1 &&
      c.rc == match w.status
              case Local => RC_CACHED
              case Negated => RC_NAMEERR
              case Current => if w.linkDown then RC_SERVFAIL else RC_CACHED
              case Missing => if w.linkDown then RC_SERVFAIL else Kept(w, RC_SERVFAIL)
    else
      exists rc :: Concluded(RunOf(c), w.late, c.used, c.on, rc) && c.rc == Kept(w, rc)
  }

  /** An old entry that is kept is used if there is a failure. */
  function Kept(w: World, rc: int): int { if rc == RC_SERVFAIL && w.keep then RC_STALE else rc }

  /** No server is queried: the cache is enough, the link is down, or there is no server. */
  predicate Silent(c: Call)
  {
    !c.world.status.Missing? || c.world.linkDown || (!c.told && c.world.configured == [])
  }

  /** A call is explained, and so are all that it has led to; it leads to others only if it has hops left. */
  ghost predicate Proper(c: Call)
    decreases c
  {
    NoRepeat(c.chain) && Explained(c) && (c.hops <= 0 ==> c.on == []) &&
    (forall k :: 0 <= k < |c.steps| ==> AllProper(c.steps[k].lookups)) && AllProper(c.on)
  }

  ghost predicate AllProper(calls: seq<Call>)
    decreases calls
  {
    forall i :: 0 <= i < |calls| ==> Proper(calls[i])
  }

  // ----- the recursion -----

  /** r_dns_cached_resolve. */
  method RDnsCachedResolve(name: Key, thint: int, hops: int, qhlist: seq<Hint>, w: World) returns (rc: int, ghost call: Call)
    requires NoRepeat([Hint(name, thint)] + qhlist)
    ensures call.chain == [Hint(name, thint)] + qhlist && call.hops == hops && !call.told && call.world == w
    ensures Proper(call) && rc == LookUpCode(call)
    decreases Nat(hops), 6
  {
    rc, call := PDnsCachedResolve(false, [], name, thint, hops, [], qhlist, w);
    if rc == RC_OK || rc == RC_CACHED || rc == RC_STALE {
      rc := if w.negative then RC_NAMEERR else RC_OK;
    }
  }

  /** p_dns_cached_resolve: `told` says whether there is a list of servers to ask, q. */
  method PDnsCachedResolve(told: bool, q: Servers, name: Key, thint: int, hops: int, qslist: seq<Servers>,
                           qhlist: seq<Hint>, w: World) returns (rc: int, ghost call: Call)
    requires NoRepeat([Hint(name, thint)] + qhlist)
    ensures call.chain == [Hint(name, thint)] + qhlist && call.hops == hops && call.told == told
    ensures call.servers == q && call.above == qslist && call.world == w && call.rc == rc
    ensures Proper(call)
    decreases Nat(hops), 5
  {
    call := Call([Hint(name, thint)] + qhlist, hops, told, q, qslist, w, -1, [], [], 0);
    if w.status.Local? {
      rc := RC_CACHED;
    } else if w.status.Negated? {
      rc := RC_NAMEERR;
    } else if w.linkDown {
      rc := RC_SERVFAIL;
    } else if w.status.Current? {
      rc := RC_CACHED;
    } else {
      ghost var used, steps, on;
      if told {
        rc, used, steps, on := PRecursiveQuery(q, name, thint, hops, qslist, qhlist, w.script, w.late);
      } else {
        rc, used, steps, on := PDnsResolve(name, thint, hops, qhlist, w);
      }
      call := call.(used := used, steps := steps, on := on, rc := Kept(w, rc));
      assert !Silent(call) ==> Concluded(RunOf(call), w.late, used, on, rc);
      if rc == RC_SERVFAIL && w.keep { rc := RC_STALE; }
    }
    call := call.(rc := rc);
  }

  /** p_dns_resolve: the servers to ask are those configured, or known for a top-level domain. */
  method PDnsResolve(name: Key, thint: int, hops: int, qhlist: seq<Hint>, w: World)
      returns (rc: int, ghost used: int, ghost steps: seq<Step>, ghost on: seq<Call>)
    requires NoRepeat([Hint(name, thint)] + qhlist)
    ensures w.configured == [] ==> rc == RC_SERVFAIL && used == -1 && steps == [] && on == []
    ensures w.configured != [] ==>
              Concluded(Run(w.configured, [], [Hint(name, thint)] + qhlist, hops, w.script, steps), w.late, used, on, rc)
    ensures Below(hops, steps, on)
    decreases Nat(hops), 4
  {
    if w.configured == [] { return RC_SERVFAIL, -1, [], []; }
    rc, used, steps, on := PRecursiveQuery(w.configured, name, thint, hops, [], qhlist, w.script, w.late);
  }

  /** The calls that have been made are proper ones. */
  ghost predicate Below(hops: int, steps: seq<Step>, on: seq<Call>)
  {
    var ok := (hops <= 0 ==> on == []) && (forall k :: 0 <= k < |steps| ==> AllProper(steps[k].lookups)) && AllProper(on);
    ok
  }

  lemma BelowNext(hops: int, steps: seq<Step>, s: Step)
    requires Below(hops, steps, []) && AllProper(s.lookups)
    ensures Below(hops, steps + [s], [])
  {
  }

  /** save_query_result: an answer is weighed. */
  const W_AUTHOK := 8
  const W_NOTFAILED := 2
  const W_NOTTRUNC := 1

  function Quality(a: Answer): int
  {
    (if a.authok then W_AUTHOK else 0) + (3 - a.failed) * W_NOTFAILED + if a.tc then 0 else W_NOTTRUNC
  }

  lemma QualityIsBetter(a: Answer, b: Answer)
    ensures Quality(a) > Quality(b) <==> Better(a, b)
  {
  }

  /** The answer that has been saved: its quality, the servers found for it, and what its server claims. */
  datatype Best = Nothing | Saved(quality: int, servers: Servers, claims: bool)

  /** While answers come in that do not satisfy, the best one is saved. */
  ghost predicate Saving(r: Run, used: int, best: Best)
    requires |r.steps| <= |r.script|
  {
    match best
    case Nothing => used == -1 && NoAnswer(r)
    case Saved(quality, servers, claims) =>
      BestOf(r, used) && quality == Quality(AnswerAt(r, used)) && servers == r.steps[used].found &&
      claims == r.script[used].claims
  }

  /** One more event, with or without an answer. */
  lemma SavingNext(r: Run, used: int, best: Best, s: Step)
    requires |r.steps| < |r.script| && Saving(r, used, best)
    ensures var n, more := |r.steps|, r.(steps := r.steps + [s]);
            if r.script[n].rv != RC_OK then Saving(more, used, best)
            else if best.Nothing? || Quality(AnswerAt(more, n)) > best.quality
            then Saving(more, n, Saved(Quality(AnswerAt(more, n)), s.found, r.script[n].claims))
            else Saving(more, used, best)
  {
    var n, more := |r.steps|, r.(steps := r.steps + [s]);
    forall k | 0 <= k < n ensures AnswerAt(more, k) == AnswerAt(r, k) {}
    if best.Saved? {
      QualityIsBetter(AnswerAt(more, n), AnswerAt(r, used));
      forall k | 0 <= k < n && r.script[k].rv == RC_OK ensures !Better(AnswerAt(r, k), AnswerAt(r, used)) {}
    }
  }

  /** One more event, of a running query. */
  lemma PlayedNext(r: Run, s: Step)
    requires |r.steps| < |r.script| && Playing(r) && PlayedAt(r.(steps := r.steps + [s]), |r.steps|)
    ensures var more := r.(steps := r.steps + [s]); Played(more) && (Playing(more) <==> GoesOn(more, |r.steps|))
  {
    var more := r.(steps := r.steps + [s]);
    forall k | 0 <= k < |r.steps| ensures GoesOn(more, k) {
      assert GoesOn(r, k);
      SameAt(r, more, k);
    }
  }

  lemma EachPlayed(r: Run, k: nat)
    requires Played(r) && k < |r.steps|
    ensures PlayedAt(r, k)
  {
    assert k < |r.steps| - 1 ==> GoesOn(r, k);
  }

  lemma SameAt(r: Run, more: Run, k: nat)
    requires k < |r.steps| <= |more.steps| <= |r.script| && r.steps <= more.steps && more == r.(steps := more.steps)
    ensures GoesOn(more, k) == GoesOn(r, k) && AnswerAt(more, k) == AnswerAt(r, k)
  {
    assert more.steps[k] == r.steps[k];
  }

  /** The loop of p_recursive_query: no event has ended the waiting yet. */
  ghost predicate Waiting(r: Run, q: Servers, used: int, best: Best, rc: int)
  {
    var n := |r.steps|;
    var ok := Playing(r) && Saving(r, used, best) && q == After(r.q0, r.script, n) &&
              rc == if n == 0 then RC_SERVFAIL else r.script[n - 1].rv;
    ok
  }

  /** What has been saved when the waiting ends: the answer used, or nothing. */
  ghost predicate Gathered(r: Run, late: bool, q: Servers, used: int, best: Best, rc: int)
  {
    var ok :=
      Played(r) && Chosen(r, used) && q == After(r.q0, r.script, |r.steps|) &&
      match best
      case Nothing => used < 0 && rc == Failure(r, late)
      case Saved(_, servers, claims) =>
        0 <= used && rc == RC_OK && servers == r.steps[used].found && claims == r.script[used].claims;
    ok
  }

  /** The next event, if the waiting goes on: it is of a running query. */
  ghost predicate Comes(r: Run, q: Servers, e: Event)
  {
    |r.steps| < |r.script| && e == r.script[|r.steps|] && Running(q, e)
  }

  /** p_recursive_query: the servers are queried; if the answer used is not authoritative, the servers found for
      it are asked, with one hop less. */
  method PRecursiveQuery(q0: Servers, name: Key, thint: int, hops: int, qslist: seq<Servers>, qhlist: seq<Hint>,
                         script: seq<Event>, late: bool)
      returns (rc: int, ghost used: int, ghost steps: seq<Step>, ghost on: seq<Call>)
    requires NoRepeat([Hint(name, thint)] + qhlist)
    ensures Concluded(Run(q0, qslist, [Hint(name, thint)] + qhlist, hops, script, steps), late, used, on, rc)
    ensures Below(hops, steps, on)
    decreases Nat(hops), 3
  {
    var q, best;
    on := [];
    rc, q, best, used, steps := Gather(q0, name, thint, hops, qslist, qhlist, script, late);
    ghost var r := Run(q0, qslist, [Hint(name, thint)] + qhlist, hops, script, steps);
    if best.Saved? && best.servers != [] {
      EachPlayed(r, used);
      var w: World := *;
      ghost var call;
      rc, call := PDnsCachedResolve(true, best.servers, name, thint, hops - 1, [q] + qslist, qhlist, w);
      on := [call];
      if best.claims && rc != RC_CACHED && rc != RC_NAMEERR { rc := RC_OK; }
    }
  }

  /** The loops of p_recursive_query: queries come to an end in the order of the script. The first answer that
      satisfies is used; if there is none when all have come to an end, or time has run out, the best. */
  method Gather(q0: Servers, name: Key, thint: int, hops: int, qslist: seq<Servers>, qhlist: seq<Hint>,
                script: seq<Event>, late: bool)
      returns (rc: int, q: Servers, best: Best, ghost used: int, ghost steps: seq<Step>)
    requires NoRepeat([Hint(name, thint)] + qhlist)
    ensures var r := Run(q0, qslist, [Hint(name, thint)] + qhlist, hops, script, steps);
            Gathered(r, late, q, used, best, rc)
    ensures Below(hops, steps, [])
    decreases Nat(hops), 2
  {
    ghost var r := Run(q0, qslist, [Hint(name, thint)] + qhlist, hops, script, []);
    var j := 0;
    rc, q, best, used := RC_SERVFAIL, q0, Nothing, -1;
    WaitingBegins(r);
    while j < |script| && Running(q, script[j])
      invariant 0 <= j <= |script| && j == |r.steps|
      invariant r == Run(q0, qslist, [Hint(name, thint)] + qhlist, hops, script, r.steps)
      invariant Waiting(r, q, used, best, rc) && Below(hops, r.steps, [])
      decreases Left(q)
    {
      var e := script[j];
      var qm := q[e.server].qm;
      LeftOver(q, e);
      ghost var was, step := q, Step([], []);
      q := q[e.server := Server(q[e.server].addr, if e.fallen && qm == TcpUdp then UdpOnly else qm, true)];
      rc := e.rv;
      if rc == RC_OK {
        var enough;
        enough, best, step, used := Consider(r, was, q, name, thint, hops, qslist, qhlist, e, qm, late, best, used);
        BelowNext(hops, r.steps, step);
        if enough { return rc, q, best, used, r.steps + [step]; }
        if qm == UdpTcp && e.tc {
          q := q[e.server := Server(q[e.server].addr, TcpOnly, false)];
        }
      } else {
        Failed(r, late, was, used, best, rc, e);
        BelowNext(hops, r.steps, step);
        if rc == RC_NAMEERR || rc == RC_FATALERR {
          // what has been saved is not used
          return if rc == RC_FATALERR then RC_SERVFAIL else rc, q, Nothing, -1, r.steps + [step];
        }
      }
      assert q == Over(was, e);
      r := r.(steps := r.steps + [step]);
      j := j + 1;
    }
    steps := r.steps;
    WaitingEnds(r, late, q, used, best, rc);
    if best.Saved? {
      rc := RC_OK;
    } else if late {
      rc := RC_SERVFAIL;
    }
  }

  /** An answer has come in: is it enough? Otherwise it is saved if it is the best so far. */
  method Consider(ghost r: Run, ghost was: Servers, q: Servers, name: Key, thint: int, hops: int, qslist: seq<Servers>,
                  qhlist: seq<Hint>, e: Event, qm: Method, ghost late: bool, best0: Best, ghost used0: int)
      returns (enough: bool, best: Best, ghost step: Step, ghost used: int)
    requires NoRepeat(r.chain) && r.chain == [Hint(name, thint)] + qhlist && r.hops == hops && r.above == qslist
    requires Comes(r, was, e) && e.rv == RC_OK && qm == was[e.server].qm && q == Ended(was, e)
    requires exists rc :: Waiting(r, was, used0, best0, rc)
    ensures var more := r.(steps := r.steps + [step]);
            AllProper(step.lookups) &&
            if enough then Gathered(more, late, q, used, best, RC_OK) else Waiting(more, Over(was, e), used, best, RC_OK)
    decreases Nat(hops), 1
  {
    var good, serv;
    ghost var lookups;
    good, serv, lookups := AuthOk(q, name, thint, hops, qslist, qhlist, e);
    step := Step(lookups, serv);
    AnsweredNext(r, step);
    SavingNext(r, used0, best0, step);
    best, used := best0, used0;
    if good && e.failed == 0 && !(qm == UdpTcp && e.tc) {
      return true, Saved(0, serv, e.claims), step, |r.steps|;
    }
    enough := false;
    var quality := Quality(Answer(good, e.failed, e.tc, qm == UdpTcp));
    if best.Nothing? || quality > best.quality {
      best, used := Saved(quality, serv, e.claims), |r.steps|;
    }
  }

  lemma AnsweredNext(r: Run, s: Step)
    requires |r.steps| < |r.script| && Playing(r)
    requires var q, e := After(r.q0, r.script, |r.steps|), r.script[|r.steps|];
             e.rv == RC_OK && Running(q, e) && Authorised(Ended(q, e), r.above, r.chain, r.hops, e, s)
    ensures var n, more := |r.steps|, r.(steps := r.steps + [s]);
            Played(more) && (Playing(more) <==> !Satisfied(more, n)) &&
            AnswerAt(more, n) == AnswerOf(After(r.q0, r.script, n), r.script[n], s.found)
  {
    PlayedNext(r, s);
  }

  /** A query has failed. */
  lemma Failed(r: Run, late: bool, q: Servers, used: int, best: Best, rc: int, e: Event)
    requires Comes(r, q, e) && e.rv != RC_OK && exists rc0 :: Waiting(r, q, used, best, rc0)
    requires rc == e.rv
    ensures var more := r.(steps := r.steps + [Step([], [])]);
            if Ends(e) then Gathered(more, late, Ended(q, e), -1, Nothing, if rc == RC_FATALERR then RC_SERVFAIL else rc)
            else Waiting(more, Over(q, e), used, best, rc)
  {
    PlayedNext(r, Step([], []));
    SavingNext(r, used, best, Step([], []));
  }

  lemma WaitingBegins(r: Run)
    requires r.steps == []
    ensures Waiting(r, r.q0, -1, Nothing, RC_SERVFAIL)
  {
  }

  lemma WaitingEnds(r: Run, late: bool, q: Servers, used: int, best: Best, rc: int)
    requires Waiting(r, q, used, best, rc)
    requires |r.steps| < |r.script| ==> !Running(q, r.script[|r.steps|])
    ensures Gathered(r, late, q, used, best, if best.Saved? then RC_OK else if late then RC_SERVFAIL else rc)
  {
    NotDecided(r);
  }

  lemma NotDecided(r: Run)
    requires Playing(r)
    ensures !Decided(r) && Played(r)
  {
    assert r.steps != [] ==> GoesOn(r, |r.steps| - 1);
    if r.steps != [] { SameAt(r, r, |r.steps| - 1); }
  }

  /** auth_ok: whether the answer is good enough or there are servers to ask for a better one, which are in serv
      then. The addresses of name servers are looked up with one hop less: of all those that the answer
      names, but for those that are being looked up already. */
  method AuthOk(q: Servers, name: Key, thint: int, hops: int, qslist: seq<Servers>, qhlist: seq<Hint>, e: Event)
      returns (ok: bool, serv: Servers, ghost lookups: seq<Call>)
    requires NoRepeat([Hint(name, thint)] + qhlist)
    ensures Authorised(q, qslist, [Hint(name, thint)] + qhlist, hops, e, Step(lookups, serv))
    ensures ok == GoodEnough(e, serv) && AllProper(lookups)
    decreases Nat(hops), 0
  {
    ghost var chain := [Hint(name, thint)] + qhlist;
    ok, serv, lookups := false, [], [];
    if e.failed > 1 { return; }
    if e.authoritative { return true, serv, lookups; }
    if hops > 0 {
      var k := 0;
      while k < |e.ns|
        invariant 0 <= k <= |e.ns| && ok == (serv != []) && AllProper(lookups)
        invariant LookedUp(chain, hops, Wanted(chain, e.ns[..k]), lookups)
        invariant Collected(q, qslist, Wanted(chain, e.ns[..k]), Step(lookups, serv))
      {
        assert e.ns[..k + 1][..k] == e.ns[..k];
        var skip := Recurring(name, thint, qhlist, e.ns[k].nm);
        if !skip {
          ChainGrows(chain, e.ns[k].nm);
          var rc;
          var w: World := *;
          ghost var call;
          ghost var was := serv;
          rc, call := RDnsCachedResolve(e.ns[k].nm, T_A, hops - 1, [Hint(name, thint)] + qhlist, w);
          if rc == RC_OK {
            var grew;
            grew, serv := AddServers(q, qslist, serv, e.ns[k].addrs);
            if grew { ok := true; }
          }
          CollectedNext(q, qslist, Wanted(chain, e.ns[..k]), Step(lookups, was), e.ns[k], call, serv);
          lookups := lookups + [call];
        }
        k := k + 1;
      }
      assert e.ns[..|e.ns|] == e.ns;
    }
  }

  /** One more name server has been looked up. */
  lemma CollectedNext(q: Servers, above: seq<Servers>, ns: seq<NameServer>, s: Step, more: NameServer, d: Call,
                      found: Servers)
    requires Collected(q, above, ns, s) && s.found <= found
    requires LookUpCode(d) != RC_OK ==> found == s.found
    requires LookUpCode(d) == RC_OK ==> AllTaken(q, above, more.addrs, found)
    requires forall i :: |s.found| <= i < |found| ==> FoundIn(more.addrs, found[i]) && !Queried(q, above, found[i].addr)
    ensures Collected(q, above, ns + [more], Step(s.lookups + [d], found))
  {
    var ns1, lookups1 := ns + [more], s.lookups + [d];
    forall i | 0 <= i < |found| ensures FoundBy(ns1, lookups1, found[i]) && !Queried(q, above, found[i].addr) {
      if i < |s.found| {
        assert FoundBy(ns, s.lookups, s.found[i]);
        var m :| 0 <= m < |ns| && LookUpCode(s.lookups[m]) == RC_OK && FoundIn(ns[m].addrs, s.found[i]);
        assert lookups1[m] == s.lookups[m] && ns1[m] == ns[m];
      } else {
        assert lookups1[|ns|] == d && ns1[|ns|] == more;
      }
    }
    forall i | 0 <= i < |ns1| && LookUpCode(lookups1[i]) == RC_OK ensures AllTaken(q, above, ns1[i].addrs, found) {
      if i < |ns| {
        assert AllTaken(q, above, ns[i].addrs, s.found);
        forall a | a in ns[i].addrs && !a.local && !Queried(q, above, a.addr) ensures Among(found, a.addr) {
          assert Among(s.found, a.addr);
        }
      }
    }
  }

  /** The chain with one more name server's address, after the test in auth_ok. */
  lemma ChainGrows(chain: seq<Hint>, nsname: Key)
    requires NoRepeat(chain) && Hint(nsname, T_A) !in chain
    ensures NoRepeat([Hint(nsname, T_A)] + chain)
  {
    var c := [Hint(nsname, T_A)] + chain;
    forall j | 0 < j < |c| && c[j].tp == T_A ensures c[j].nm != nsname {
      assert c[j] == chain[j - 1];
    }
  }

  /** The test in auth_ok: is this name server's address being looked up already? */
  method Recurring(name: Key, thint: int, qhlist: seq<Hint>, nsname: Key) returns (skip: bool)
    ensures skip <==> Hint(nsname, T_A) in [Hint(name, thint)] + qhlist
  {
    var nm, tp, ql := name, thint, 0;
    ghost var chain := [Hint(name, thint)] + qhlist;
    while true
      invariant 0 <= ql <= |qhlist| && chain[ql] == Hint(nm, tp)
      invariant forall i :: 0 <= i < ql ==> chain[i] != Hint(nsname, T_A)
      decreases |qhlist| - ql
    {
      if nm == nsname && tp == T_A {
        return true;
      }
      if ql == |qhlist| { return false; }
      nm, tp := qhlist[ql].nm, qhlist[ql].tp;
      ql := ql + 1;
    }
  }

  /** The addresses of a name server are added to the list, unless they are local, were there already
      before this name server, or have been queried. */
  method AddServers(q: Servers, qslist: seq<Servers>, serv0: Servers, addrs: seq<Found>) returns (grew: bool, serv: Servers)
    ensures serv0 <= serv && (grew <==> serv != serv0)
    ensures forall i :: |serv0| <= i < |serv| ==> FoundIn(addrs, serv[i]) && !Queried(q, qslist, serv[i].addr)
    ensures forall i :: |serv0| <= i < |serv| ==> !Among(serv0, serv[i].addr)
    ensures AllTaken(q, qslist, addrs, serv)
  {
    serv, grew := serv0, false;
    var k := 0;
    while k < |addrs|
      invariant 0 <= k <= |addrs| && serv0 <= serv && (grew <==> serv != serv0)
      invariant forall i :: |serv0| <= i < |serv| ==> FoundIn(addrs, serv[i]) && !Queried(q, qslist, serv[i].addr)
      invariant forall i :: |serv0| <= i < |serv| ==> !Among(serv0, serv[i].addr)
      invariant AllTaken(q, qslist, addrs[..k], serv)
    {
      var a := addrs[k];
      var there := InList(serv0, a.addr);
      var queried := AlreadyQueried(q, qslist, a.addr);
      ghost var was := serv;
      if !a.local && !there && !queried {
        serv := serv + [Server(a.addr, a.qm, false)];
        grew := true;
        assert serv[|was|] in serv;
      }
      forall b | b in addrs[..k + 1] && !b.local && !Queried(q, qslist, b.addr) ensures Among(serv, b.addr) {
        if b in addrs[..k] { assert Among(was, b.addr); }
      }
      k := k + 1;
    }
    assert addrs[..|addrs|] == addrs;
  }

  method InList(serv: Servers, addr: int) returns (b: bool)
    ensures b <==> Among(serv, addr)
  {
    var i := 0;
    while i < |serv|
      invariant 0 <= i <= |serv| && forall j :: 0 <= j < i ==> serv[j].addr != addr
    {
      if serv[i].addr == addr { return true; }
      i := i + 1;
    }
    return false;
  }

  /** The test in auth_ok: has a server of this address been queried already? */
  method AlreadyQueried(q: Servers, qslist: seq<Servers>, addr: int) returns (b: bool)
    ensures b <==> Queried(q, qslist, addr)
  {
    b := HasEnded(q, addr);
    if b { return; }
    var k := 0;
    while k < |qslist|
      invariant 0 <= k <= |qslist| && forall m :: 0 <= m < k ==> !AmongDone(qslist[m], addr)
    {
      b := HasEnded(qslist[k], addr);
      if b { return; }
      k := k + 1;
    }
  }

  method HasEnded(q: Servers, addr: int) returns (b: bool)
    ensures b <==> AmongDone(q, addr)
  {
    var i := 0;
    while i < |q|
      invariant 0 <= i <= |q| && forall j :: 0 <= j < i ==> !(q[j].done && q[j].addr == addr)
    {
      if q[i].done && q[i].addr == addr { return true; }
      i := i + 1;
    }
    return false;
  }

  // ----- what holds of every record -----

  /** d is c, or one of the calls that c has led to. */
  ghost predicate Within(d: Call, c: Call)
    decreases c
  {
    d == c || (exists k :: 0 <= k < |c.steps| && WithinAny(d, c.steps[k].lookups)) || WithinAny(d, c.on)
  }

  ghost predicate WithinAny(d: Call, calls: seq<Call>)
    decreases calls
  {
    exists i :: 0 <= i < |calls| && Within(d, calls[i])
  }

  /** A call leads to others only if it has hops left; they have one less, and are for the same name and
      type, or for the address of a name server that is not being looked up yet. */
  ghost predicate Follows(d: Call, c: Call)
  {
    c.hops > 0 && d.hops == c.hops - 1 && (d.chain == c.chain || NewAddress(c.chain, d.chain))
  }

  ghost predicate NewAddress(chain: seq<Hint>, longer: seq<Hint>)
  {
    longer != [] && longer[0].tp == T_A && longer[0] !in chain && longer[1..] == chain
  }

  /** What auth_ok wants to look up. */
  lemma {:induction false} WantedAre(chain: seq<Hint>, ns: seq<NameServer>)
    ensures forall n :: n in Wanted(chain, ns) <==> n in ns && Hint(n.nm, T_A) !in chain
  {
    if ns != [] { WantedAre(chain, ns[..|ns| - 1]); }
  }

  lemma LookupFollows(c: Call, k: nat, i: nat)
    requires Proper(c) && k < |c.steps| && i < |c.steps[k].lookups|
    ensures Follows(c.steps[k].lookups[i], c) && Proper(c.steps[k].lookups[i])
  {
    assert AllProper(c.steps[k].lookups);
    var r := RunOf(c);
    EachPlayed(r, k);
    WantedAre(c.chain, r.script[k].ns);
    assert LooksUp(c.steps[k].lookups[i], c.chain, c.hops, Wanted(c.chain, r.script[k].ns)[i].nm);
  }

  lemma OnFollows(c: Call, i: nat)
    requires Proper(c) && i < |c.on|
    ensures i == 0 && Follows(c.on[i], c) && Proper(c.on[i])
  {
  }

  /** Main result: however deep the recursion, a call has a chain without repetition that ends with the
      chain it all began with, and for every name server whose address is looked up there is a hop
      less. */
  lemma {:induction false} Bounded(d: Call, c: Call)
    requires Proper(c) && Within(d, c)
    ensures Proper(d) && Longer(d, c)
    decreases c
  {
    if d != c {
      var e := Under(d, c);
      Bounded(d, e);
      LongerYet(d, e, c);
    }
  }

  /** The chain of d ends with that of c; it has grown by no more than the hops have become less. */
  ghost predicate Longer(d: Call, c: Call)
  {
    |d.chain| + Nat(d.hops) <= |c.chain| + Nat(c.hops) &&
    |d.chain| >= |c.chain| && d.chain[|d.chain| - |c.chain|..] == c.chain
  }

  lemma LongerYet(d: Call, e: Call, c: Call)
    requires Longer(d, e) && Follows(e, c)
    ensures Longer(d, c)
  {
    var m := |d.chain| - |e.chain|;
    if e.chain != c.chain { assert d.chain[m + 1..] == d.chain[m..][1..]; }
  }

  /** The call of c that has led to d. */
  lemma Under(d: Call, c: Call) returns (e: Call)
    requires Proper(c) && Within(d, c) && d != c
    ensures e < c && Proper(e) && Follows(e, c) && Within(d, e)
  {
    if WithinAny(d, c.on) {
      var i: nat :| i < |c.on| && Within(d, c.on[i]);
      e := c.on[i];
      OnFollows(c, i);
    } else {
      var k: nat :| k < |c.steps| && WithinAny(d, c.steps[k].lookups);
      var i: nat :| i < |c.steps[k].lookups| && Within(d, c.steps[k].lookups[i]);
      e := c.steps[k].lookups[i];
      LookupFollows(c, k, i);
    }
  }

  /** No chain of calls below c is longer than n. */
  ghost predicate NoDeeper(c: Call, n: nat)
    decreases c
  {
    n > 0 && (forall k :: 0 <= k < |c.steps| ==> NoneDeeper(c.steps[k].lookups, n - 1)) && NoneDeeper(c.on, n - 1)
  }

  ghost predicate NoneDeeper(calls: seq<Call>, n: nat)
    decreases calls
  {
    forall i :: 0 <= i < |calls| ==> NoDeeper(calls[i], n)
  }

  /** There are no more levels of calls than there are hops, and one. */
  lemma {:induction false} DepthBounded(c: Call)
    requires Proper(c)
    ensures NoDeeper(c, 1 + Nat(c.hops))
    decreases c
  {
    forall k | 0 <= k < |c.steps| ensures NoneDeeper(c.steps[k].lookups, Nat(c.hops)) {
      forall i | 0 <= i < |c.steps[k].lookups| { LookupFollows(c, k, i); }
      AllBounded(c.steps[k].lookups, c);
    }
    forall i | 0 <= i < |c.on| { OnFollows(c, i); }
    AllBounded(c.on, c);
  }

  lemma {:induction false} AllBounded(calls: seq<Call>, c: Call)
    requires forall i :: 0 <= i < |calls| ==> Proper(calls[i]) && Follows(calls[i], c)
    ensures NoneDeeper(calls, Nat(c.hops))
    decreases calls
  {
    forall i | 0 <= i < |calls| { DepthBounded(calls[i]); }
  }

  /** However the servers behave, no more than two queries to each come to an end. */
  lemma EndsBounded(c: Call)
    requires Proper(c)
    ensures |c.steps| <= 2 * |RunOf(c).q0|
  {
    var r := RunOf(c);
    if c.steps != [] {
      StepsBounded(r, |c.steps|);
      LeftBounded(r.q0);
    }
  }

  lemma {:induction false} StepsBounded(r: Run, n: nat)
    requires Played(r) && n <= |r.steps|
    ensures n + Left(After(r.q0, r.script, n)) <= Left(r.q0)
  {
    if n > 0 {
      StepsBounded(r, n - 1);
      EachPlayed(r, n - 1);
      LeftOver(After(r.q0, r.script, n - 1), r.script[n - 1]);
    }
  }

  lemma {:induction false} LeftBounded(q: Servers)
    ensures Left(q) <= 2 * |q|
  {
    if q != [] { LeftBounded(q[..|q| - 1]); }
  }

  /** Of the first n events none is of server i. */
  ghost predicate Quiet(r: Run, n: nat, i: nat)
    requires n <= |r.script|
  {
    forall k :: 0 <= k < n ==> r.script[k].server != i
  }

  /** Of the first n events k is the last of server i. */
  ghost predicate LastOf(r: Run, n: nat, i: nat, k: nat)
    requires n <= |r.script|
  {
    k < n && r.script[k].server == i && forall m :: k < m < n ==> r.script[m].server != i
  }

  /** The first query to server i brings a truncated answer by UDP, and TCP may be used too. */
  ghost predicate CutOff(r: Run, i: nat, k: nat)
    requires k < |r.script| && i < |r.q0|
  {
    Quiet(r, k, i) && r.q0[i].qm == UdpTcp && r.script[k].rv == RC_OK && r.script[k].tc
  }

  /** Each server is queried once, and once more with TCP exactly if its first answer is truncated and both
      methods may be used. */
  lemma {:induction false} QueriedOnce(r: Run, n: nat, i: nat)
    requires Played(r) && n <= |r.steps| && i < |r.q0| && !r.q0[i].done
    ensures Quiet(r, n, i) ==> After(r.q0, r.script, n)[i] == r.q0[i]
    ensures forall k: nat :: LastOf(r, n, i, k) ==>
                               var s := After(r.q0, r.script, n)[i];
                               if CutOff(r, i, k) then s == Server(r.q0[i].addr, TcpOnly, false) else s.done
  {
    if n > 0 {
      QueriedOnce(r, n - 1, i);
      EachPlayed(r, n - 1);
      SameServers(r, n - 1, i);
      forall k: nat | LastOf(r, n, i, k)
        ensures var s := After(r.q0, r.script, n)[i];
                if CutOff(r, i, k) then s == Server(r.q0[i].addr, TcpOnly, false) else s.done
      {
        if k < n - 1 {
          assert LastOf(r, n - 1, i, k);
        } else if !Quiet(r, k, i) {
          var m := TheLast(r, k, i);
          assert CutOff(r, i, m);
        }
      }
    }
  }

  lemma {:induction false} TheLast(r: Run, n: nat, i: nat) returns (k: nat)
    requires n <= |r.script| && !Quiet(r, n, i)
    ensures LastOf(r, n, i, k)
  {
    k := n - 1;
    if r.script[k].server != i { k := TheLast(r, n - 1, i); }
  }

  // ----- where an answer comes from -----

  /** d is c, or one of the calls that ask on for it. */
  ghost predicate AskingOn(d: Call, c: Call)
    decreases c
  {
    d == c || exists i :: 0 <= i < |c.on| && AskingOn(d, c.on[i])
  }

  /** The outcome originates with this call: with an answer that names no servers to ask on, or whose server
      claims authority while those have not brought an answer from a cache; with the cache; with an old entry; or
      with a server or the cache saying that the name does not exist. */
  ghost predicate Originates(d: Call, rc: int)
  {
    if rc == RC_OK then
      0 <= d.used < |d.steps| <= |d.world.script| && d.world.script[d.used].rv == RC_OK &&
      (d.steps[d.used].found == [] || d.world.script[d.used].claims)
    else if rc == RC_CACHED then d.world.status.Local? || d.world.status.Current?
    else if rc == RC_STALE then d.world.keep && d.world.status.Missing?
    else if rc == RC_NAMEERR then
      d.world.status.Negated? || (0 < |d.steps| <= |d.world.script| && d.world.script[|d.steps| - 1].rv == RC_NAMEERR)
    else true
  }

  /** Nothing is made up: every answer, and that a name does not exist, originates with the cache or with a
      server asked, here or for those that ask on. */
  lemma {:induction false} NothingMadeUp(c: Call) returns (d: Call)
    requires Proper(c)
    ensures AskingOn(d, c) && Originates(d, c.rc)
    decreases c
  {
    d := c;
    if !Silent(c) && !Originates(c, c.rc) {
      var rc :| Concluded(RunOf(c), c.world.late, c.used, c.on, rc) && c.rc == Kept(c.world, rc);
      assert c.used >= 0 && c.on != [];
      OnFollows(c, 0);
      d := NothingMadeUp(c.on[0]);
    }
  }

  // ----- asking a server again -----

  /** A query to this address has come to an end by event k, and has not been repeated. */
  ghost predicate EndedAt(r: Run, k: nat, addr: int)
    requires k < |r.steps| <= |r.script|
  {
    var q, i := After(r.q0, r.script, |r.steps|), r.script[k].server;
    0 <= i < |q| && q[i].done && q[i].addr == addr
  }

  /** A server that is asked on has been queried already, here or further up, exactly if its query came to an end
      after the answer that names it. So it has not, if that is the answer that ended the waiting. */
  lemma AskedAgain(c: Call, s: Server)
    requires Proper(c) && c.on != [] && s in c.on[0].servers
    ensures var d := c.on[0];
            Queried(d.above[0], d.above[1..], s.addr) <==> exists k :: c.used < k < |c.steps| && EndedAt(RunOf(c), k, s.addr)
  {
    var r := RunOf(c);
    EachPlayed(r, c.used);
    assert c.on[0].above[1..] == r.above;
    EndedAfter(r, c.used, s.addr);
  }

  lemma EndedAfter(r: Run, m: nat, addr: int)
    requires m < |r.steps| <= |r.script|
    requires var q := After(r.q0, r.script, m); Running(q, r.script[m]) && !AmongDone(Ended(q, r.script[m]), addr)
    ensures AmongDone(After(r.q0, r.script, |r.steps|), addr) <==> exists k :: m < k < |r.steps| && EndedAt(r, k, addr)
  {
    var q := After(r.q0, r.script, |r.steps|);
    if AmongDone(q, addr) {
      var i: nat :| i < |q| && q[i].done && q[i].addr == addr;
      var k := EndedLater(r, m, i);
      assert EndedAt(r, k, addr);
    }
  }

  lemma EndedLater(r: Run, m: nat, i: nat) returns (k: nat)
    requires m < |r.steps| <= |r.script| && i < |r.q0|
    requires var q, s := After(r.q0, r.script, m), After(r.q0, r.script, |r.steps|)[i];
             Running(q, r.script[m]) && s.done && !AmongDone(Ended(q, r.script[m]), s.addr)
    ensures m < k < |r.steps| && r.script[k].server == i
  {
    SameServers(r, m, i);
    SameServers(r, |r.steps|, i);
    assert !Ended(After(r.q0, r.script, m), r.script[m])[i].done;
    k := EndedSince(r, m + 1, |r.steps|, i);
  }

  lemma {:induction false} SameServers(r: Run, n: nat, i: nat)
    requires |r.steps| <= |r.script| && n <= |r.steps| && i < |r.q0|
    ensures After(r.q0, r.script, n)[i].addr == r.q0[i].addr
  {
    if n > 0 { SameServers(r, n - 1, i); }
  }

  lemma {:induction false} EndedSince(r: Run, m: nat, n: nat, i: nat) returns (k: nat)
    requires m <= n <= |r.steps| <= |r.script| && i < |r.q0|
    requires !After(r.q0, r.script, m)[i].done && After(r.q0, r.script, n)[i].done
    ensures m <= k < n && r.script[k].server == i
  {
    k := n - 1;
    if r.script[k].server != i { k := EndedSince(r, m, n - 1, i); }
  }

  // An example: of two servers the first gives an answer that is not trusted and names the second, whose query
  // fails after that.

  ghost function Stored(chain: seq<Hint>, told: bool, servers: Servers, above: seq<Servers>): Call
  {
    Call(chain, 0, told, servers, above, World(Local, false, false, false, [], [], false), -1, [], [], RC_CACHED)
  }

  ghost function Example(): Run
  {
    var ns := [NameServer([1], [Found(2, false, UdpOnly)])];
    Run([Server(1, UdpOnly, false), Server(2, UdpOnly, false)], [], [Hint([0], T_A)], 1,
      [Event(0, false, RC_OK, 1, false, false, false, ns), Event(1, false, RC_SERVFAIL, 0, false, false, false, [])],
      [Step([Stored([Hint([1], T_A)] + [Hint([0], T_A)], false, [], [])], [Server(2, UdpOnly, false)]), Step([], [])])
  }

  lemma ExampleCollects(q: Servers)
    requires q == [Server(1, UdpOnly, true), Server(2, UdpOnly, false)]
    ensures var r := Example(); Authorised(q, r.above, r.chain, r.hops, r.script[0], r.steps[0])
  {
    var r := Example();
    var ns, s, lookup := r.script[0].ns, r.steps[0].found[0], r.steps[0].lookups[0];
    assert Wanted(r.chain, ns) == Wanted(r.chain, ns[..0]) + ns;
    assert ns[0].addrs[0] in ns[0].addrs && FoundIn(ns[0].addrs, s) && LookUpCode(lookup) == RC_OK;
    assert s in r.steps[0].found && Among(r.steps[0].found, 2);
  }

  lemma ExamplePlayed()
    ensures var r := Example(); PlayedAt(r, 0) && PlayedAt(r, 1) && !Satisfied(r, 0) && !Satisfied(r, 1)
    ensures After(Example().q0, Example().script, 2) == [Server(1, UdpOnly, true), Server(2, UdpOnly, true)]
  {
    var r := Example();
    assert After(r.q0, r.script, 0) == r.q0;
    assert After(r.q0, r.script, 1) == Over(r.q0, r.script[0]) == [Server(1, UdpOnly, true), Server(2, UdpOnly, false)];
    assert After(r.q0, r.script, 2) == Over(After(r.q0, r.script, 1), r.script[1]);
    ExampleCollects(Ended(r.q0, r.script[0]));
  }

  lemma ExampleConcludes(on: Call)
    requires var r := Example(); on == Stored(r.chain, true, r.steps[0].found, [After(r.q0, r.script, 2)])
    ensures Concluded(Example(), false, 0, [on], RC_CACHED)
  {
    var r := Example();
    ExamplePlayed();
    assert GoesOn(r, 0) && BestOf(r, 0) && AsksOn(r, 0, on);
  }

  /** In the example the second server is asked again. */
  lemma AskedTwice() returns (c: Call, s: Server)
    ensures Proper(c) && c.told && c.above == [] && |c.servers| == 2 && !c.servers[0].done && !c.servers[1].done
    ensures |c.on| == 1 && s in c.on[0].servers && s.addr == c.servers[1].addr && AmongDone(c.on[0].above[0], s.addr)
  {
    var r := Example();
    var q2 := After(r.q0, r.script, 2);
    var w := World(Missing, false, false, false, [], r.script, false);
    var on := Stored(r.chain, true, r.steps[0].found, [q2]);
    s := r.steps[0].found[0];
    c := Call(r.chain, 1, true, r.q0, [], w, 0, r.steps, [on], RC_CACHED);
    ExamplePlayed();
    ExampleConcludes(on);
    assert RunOf(c) == r;
    assert Proper(on) && Proper(r.steps[0].lookups[0]);
    assert q2[1].done;
  }
}
