/** pdnsd's outgoing queries (dns_query.c: p_query_sm, p_exec_query as far as requests, retries and
    resources are concerned, p_cancel_query, switch_to_udp, switch_to_tcp). The network may do
    anything: the outcomes of all system calls are parameters, and nothing is required of them. */
module QuerySm {

  datatype State = Initial | TcpInitial | TcpWrite | TcpRead | UdpInitial | UdpReceive | Canceled | Done

  datatype Method = UdpOnly | TcpOnly | TcpUdp | UdpTcp

  const RC_OK := 0
  const RC_FORMAT := 1
  const RC_SERVFAIL := 2
  const RC_NAMEERR := 3
  const RC_NOTSUPP := 4
  const RC_REFUSED := 5
  const RC_FATALERR := 0xffff

  const SIZEOF_HDR := 12
  const MSG_OFFSET := 2
  const UDP_BUFSIZE := 512

  /** Query methods that a query may still be switched from. */
  function Rank(qm: Method): nat { if qm.TcpUdp? || qm.UdpTcp? then 1 else 0 }

  /** How often a query may come to an end, counting the repetition with TCP after a truncated answer. */
  function EndsLeft(qm: Method, done: bool): nat { Rank(qm) + if done then 0 else 1 }

  // ----- what the network and the operating system do -----

  /** A read or a write: EWOULDBLOCK, an error, or some bytes. */
  datatype Io = Again | Broken(refused: bool) | Count(n: nat)

  datatype Connecting = Connected | InProgress | Refused | Unreachable | Failed

  /** socket, bind, fcntl, connect (a second time with the IPv4 fallback address), send. */
  datatype Opening = Opening(fd: int, bound: bool, nonblocking: bool, first: Connecting, second: Connecting, sent: bool)
  {
    function Result(fallback: bool): Connecting { if first.Unreachable? && fallback then second else first }
  }

  /** What an answer says, as far as it decides whether the request is repeated, and what becomes of
      it then: `removed` is the length of the message without its OPT record, `left` says that the
      additional section is not empty then. `tc`, `failed` and `result` stand for the rest. */
  datatype Reply = Reply(malformed: bool, rcode: nat, ra: bool, hasAnswer: bool, lowServer: bool,
    removed: nat, left: bool, tc: bool, failed: int, result: int)

  type uint16 = n: nat | n < 0x1_0000

  /** What the configuration allows for udpbufsize. */
  type BufSize = n: nat | UDP_BUFSIZE <= n <= 65507 witness UDP_BUFSIZE

  /** What happens during one turn of p_query_sm, in any of its states: a TCP connection, the message
      being written, the two bytes of the length and what they say, the address of the buffer
      for the answer, the answer; a UDP socket, and a datagram. */
  datatype Turn = Turn(tcp: Opening, written: Io, prefix: Io, length: uint16, buffer: int, body: Io,
    udp: Opening, datagram: Io, mine: bool, reply: Reply)

  /** The operating system: open sockets and allocated memory. Closing a socket that is not open is
      not allowed; freeing memory that is not allocated is counted. `freesAtZero` says that
      realloc to a size of zero frees the memory and returns NULL, which the C standard leaves open. */
  class Os {
    const freesAtZero: bool
    var socks: set<int>
    var mem: set<int>
    var misfrees: nat

    constructor (freesAtZero: bool)
      ensures socks == {} && mem == {} && misfrees == 0 && this.freesAtZero == freesAtZero
    {
      socks, mem, misfrees := {}, {}, 0;
      this.freesAtZero := freesAtZero;
    }

    /** socket: `want` is the new descriptor, or -1. */
    method Socket(want: int) returns (fd: int)
      modifies this`socks
      ensures fd == if want in old(socks) then -1 else want
      ensures socks == old(socks) + if fd == -1 then {} else {fd}
    {
      fd := if want in socks then -1 else want;
      if fd != -1 { socks := socks + {fd}; }
    }

    method Close(fd: int)
      requires fd in socks
      modifies this`socks
      ensures socks == old(socks) - {fd}
    {
      socks := socks - {fd};
    }

    /** malloc: `want` is the address, or 0 for NULL. */
    method Malloc(want: int) returns (p: int)
      modifies this`mem
      ensures p == if want in old(mem) then 0 else want
      ensures mem == old(mem) + if p == 0 then {} else {p}
    {
      p := if want in mem then 0 else want;
      if p != 0 { mem := mem + {p}; }
    }

    method Free(p: int)
      modifies this`mem, this`misfrees
      ensures mem == old(mem) - {p}
      ensures misfrees == old(misfrees) + if p == 0 || p in old(mem) then 0 else 1
    {
      if p != 0 && p !in mem { misfrees := misfrees + 1; }
      mem := mem - {p};
    }

    /** realloc: if it fails, the memory stays as it is; unless the size was zero. */
    method Realloc(p: int, size: nat, want: int) returns (q: int)
      requires 0 !in mem && (p == 0 || p in mem)
      modifies this`mem
      ensures Vanishes(p, size) ==> q == 0 && mem == old(mem) - {p}
      ensures !Vanishes(p, size) ==> q == if want in old(mem) - {p} then 0 else want
      ensures !Vanishes(p, size) ==> mem == if q == 0 then old(mem) else old(mem) - {p} + {q}
    {
      if size == 0 && p != 0 && freesAtZero {
        mem := mem - {p};
        return 0;
      }
      q := if want in mem - {p} then 0 else want;
      if q != 0 { mem := mem - {p} + {q}; }
    }

    /** realloc frees p and returns NULL. */
    predicate Vanishes(p: int, size: nat) { freesAtZero && p != 0 && size == 0 }

    /** realloc_or_cleanup: without the new memory there is no memory at all. That frees p for a second
        time if realloc has freed it already. */
    method ReallocOrCleanup(p: int, size: nat, want: int) returns (q: int)
      requires 0 !in mem && (p == 0 || p in mem)
      modifies this`mem, this`misfrees
      ensures q == if Vanishes(p, size) || want in old(mem) - {p} then 0 else want
      ensures mem == old(mem) - {p} + if q == 0 then {} else {q}
      ensures misfrees == old(misfrees) + if Vanishes(p, size) then 1 else 0
    {
      q := Realloc(p, size, want);
      if q == 0 { Free(p); }
    }
  }

  /** A request as it is sent: the length of the message, its RD bit, whether it has an OPT record, and
      whether UDP is used. */
  datatype Request = Request(length: nat, rd: bool, opt: bool, udp: bool)

  /** What a step of the state machine comes to: wait for the socket, go on with the next state,
      success, failure, or failure of TCP where UDP may be tried. */
  datatype Outcome = Wait | Next | Success | Failure(rc: int) | TcpFailed

  class Query {
    const os: Os
    var state: State
    var qm: Method
    var edns: bool
    const trusted: bool
    const udpbufsize: BufSize
    var sock: int
    var msg: int
    var recvbuf: int
    var transl: nat
    var recvl: int
    var iolen: int
    var fallback: bool
    /** The RD bit of the query, and whether its additional section has an OPT record. */
    var rd: bool
    var arcount: bool
    /** From the server: the TC bit, and whether the answer is taken tentatively. */
    var tc: bool
    var failed: int
    /** The size of the buffer for the answer. */
    ghost var room: nat
    /** The requests that have been started; how often one has been repeated with the same message; and
        how often the length of an answer was read as zero while there was a buffer already. */
    ghost var requests: seq<Request>
    ghost var repeats: nat
    ghost var zeroReads: nat

    constructor (os: Os, qm: Method, edns: bool, trusted: bool, fallback: bool, udpbufsize: BufSize)
      requires 0 !in os.mem
      ensures this.os == os && Valid() && state == Initial && zeroReads == 0
      ensures this.qm == qm && this.edns == edns && this.trusted == trusted
    {
      this.os, this.qm, this.edns, this.trusted, this.fallback := os, qm, edns, trusted, fallback;
      state, sock, msg, recvbuf, transl, recvl, iolen := Initial, -1, 0, 0, 0, 0, 0;
      this.udpbufsize := udpbufsize;
      rd, arcount, tc, failed, requests, repeats, zeroReads, room := false, false, false, 0, [], 0, 0, 0;
    }

    predicate Waiting()
      reads this`state
    {
      state == TcpWrite || state == TcpRead || state == UdpReceive
    }

    /** The sockets and the memory that belong to the query between two calls. */
    function Socks(): set<int>
      reads this
    {
      if Waiting() then {sock} else {}
    }

    function Mem(): set<int>
      reads this
    {
      if Waiting() then {msg} + Buffer() else {}
    }

    function Buffer(): set<int>
      reads this`recvbuf
    {
      if recvbuf != 0 then {recvbuf} else {}
    }

    /** How many more requests may be started: a hybrid method may be given up once; then the EDNS
        record may be left out once, and the RD bit may be cleared once. A query that is to be
        started counts as one, with the RD bit possibly set. */
    function Budget(): nat
      reads this`qm, this`edns, this`state, this`rd
    {
      4 * Rank(qm) + (if edns then 2 else 0) + if state == Initial then 2 else if rd then 1 else 0
    }

    function Ends(): nat
      reads this
    {
      EndsLeft(qm, state == Done || state == Canceled)
    }

    /** Positions within the message and the answer; a buffer that is there before the length has been
        read is left from the request that is being repeated. */
    ghost predicate Positions()
      reads this`state, this`iolen, this`transl, this`recvl, this`recvbuf, this`repeats, this`room
    {
      var ok := (state == TcpWrite ==> 0 <= iolen <= MSG_OFFSET + transl) &&
        (state == TcpRead ==> iolen == 0 || (2 <= iolen <= 2 + recvl && recvbuf != 0 && recvl == room)) &&
        (recvbuf != 0 && BeforeLength() ==> repeats > 0);
      ok
    }

    predicate BeforeLength()
      reads this`state, this`iolen
    {
      state == TcpInitial || state == TcpWrite || (state == TcpRead && iolen == 0)
    }

    /** How often memory is freed twice if a length of zero is read n times into a buffer. */
    function Doubled(n: int): int { if os.freesAtZero then n else 0 }

    /** Between two calls: the socket is open just while the state is one of waiting, and so is the
        memory allocated; there are at most eight starts. */
    ghost predicate Valid()
      reads this, os
    {
      var ok := 0 !in os.mem && state != TcpInitial && state != UdpInitial && Positions() &&
        (Waiting() ==> sock in os.socks && msg in os.mem && Buffer() <= os.mem && msg !in Buffer()) &&
        |requests| + Budget() <= 8;
      ok
    }

    /** During a call: the message is there; the socket is open if `open`. */
    ghost predicate Busy(open: bool)
      reads this`msg, this`recvbuf, this`sock, os`socks, os`mem
    {
      var ok := 0 !in os.mem && msg in os.mem && Buffer() <= os.mem && msg !in Buffer() && (open ==> sock in os.socks);
      ok
    }

    ghost predicate Within()
      reads this`requests, this`qm, this`edns, this`state, this`rd
    {
      |requests| + Budget() <= 8
    }

    /** What belongs to others. */
    ghost predicate Others(socks: set<int>, mem: set<int>, open: bool)
      reads this`msg, this`recvbuf, this`sock, os`socks, os`mem
    {
      var ok := os.socks - (if open then {sock} else {}) == socks && os.mem - {msg} - Buffer() == mem;
      ok
    }

    predicate Opens(e: Opening)
      reads os
    {
      e.fd != -1 && e.fd !in os.socks && e.bound
    }

    /** How opening and connecting a socket goes; the fallback address is tried at most once. */
    function Opened(e: Opening, fallback: bool): Connecting
      reads os
    {
      if Opens(e) then e.Result(fallback) else Failed
    }

    function OpenedTcp(e: Opening, fallback: bool): Connecting
      reads os
    {
      if !e.nonblocking then Failed else Opened(e, fallback)
    }

    predicate Written(w: Io)
      reads this
    {
      iolen == MSG_OFFSET + transl || (w.Count? && iolen + w.n >= MSG_OFFSET + transl)
    }

    /** The turn gets as far as reading from a TCP connection. */
    predicate Reaches(t: Turn)
      reads this, os
    {
      match state
      case TcpInitial => OpenedTcp(t.tcp, fallback).Connected? && t.written.Count? && t.written.n >= MSG_OFFSET + transl
      case TcpWrite => Written(t.written)
      case TcpRead => true
      case _ => false
    }

    /** The length of the answer has not been read yet. */
    predicate Fresh()
      reads this
    {
      state != TcpRead || iolen == 0
    }

    /** There is memory for an answer of this size. */
    predicate Allocates(t: Turn, size: nat)
      reads this, os
    {
      !os.Vanishes(recvbuf, size) && t.buffer != 0 && t.buffer !in os.mem - {recvbuf}
    }

    /** Of the answer rem bytes are to be read: they are read at once; the connection breaks. */
    static predicate Filled(t: Turn, rem: int) { rem <= 0 || (t.body.Count? && t.body.n >= rem) }

    static predicate Cut(t: Turn, rem: int) { rem > 0 && (t.body.Broken? || t.body == Count(0)) }

    /** In this turn all of an answer has been received. */
    predicate Arrives(t: Turn)
      reads this, os
    {
      if state == UdpReceive
      then Allocates(t, if edns then udpbufsize else UDP_BUFSIZE) && t.datagram.Count? && t.datagram.n >= SIZEOF_HDR && t.mine
      else
        Reaches(t) &&
        if Fresh() then t.prefix == Count(2) && Allocates(t, t.length) && Filled(t, t.length)
        else Filled(t, recvl + 2 - iolen)
    }

    /** How long the answer is then. */
    function AnswerLength(t: Turn): int
      reads this
    {
      if state == UdpReceive then UdpLength(t) else if Fresh() then t.length else recvl
    }

    /** recv cuts off what does not fit the buffer. */
    function UdpLength(t: Turn): int
      reads this`edns
    {
      if !t.datagram.Count? then 0
      else if edns then (if t.datagram.n < udpbufsize then t.datagram.n else udpbufsize)
      else if t.datagram.n < 512 then t.datagram.n else 512
    }

    /** TCP fails such that UDP may be tried: the connection is refused, or breaks before all of the answer
        has been read. */
    predicate TcpFails(t: Turn)
      reads this, os
    {
      if Reaches(t) then
        if Fresh() then
          if t.prefix == Count(2) then Allocates(t, t.length) && Cut(t, t.length) else !t.prefix.Again?
        else Cut(t, recvl + 2 - iolen)
      else
        match state
        case TcpInitial =>
          OpenedTcp(t.tcp, fallback).Refused? || (OpenedTcp(t.tcp, fallback).Connected? && t.written == Broken(true))
        case TcpWrite => iolen == 0 && t.written == Broken(true)
        case _ => false
    }

    /** ... and UDP is tried. */
    predicate Falls(t: Turn)
      reads this, os
    {
      qm == TcpUdp && TcpFails(t)
    }

    predicate NoMemory(t: Turn)
      reads this, os
    {
      Reaches(t) && Fresh() && t.prefix == Count(2) && !Allocates(t, t.length)
    }

    /** In a TCP state the socket is to be waited for: it is not connected yet, or not all has been written or
        read. */
    predicate TcpPauses(t: Turn)
      reads this, os
    {
      if Reaches(t) then
        if Fresh() then t.prefix.Again? || (t.prefix == Count(2) && Allocates(t, t.length) && Awaited(t, t.length))
        else Awaited(t, recvl + 2 - iolen)
      else
        match state
        case TcpInitial =>
          OpenedTcp(t.tcp, fallback).InProgress? || (OpenedTcp(t.tcp, fallback).Connected? && !t.written.Broken?)
        case TcpWrite => !t.written.Broken?
        case _ => false
    }

    static predicate Awaited(t: Turn, rem: int) { rem > 0 && !Filled(t, rem) && !Cut(t, rem) }

    /** In a UDP state: the request has been sent, or what has been received is not an answer to it. */
    predicate UdpPauses(t: Turn)
      reads this, os
    {
      match state
      case UdpInitial => Opened(t.udp, fallback).Connected? && t.udp.sent
      case UdpReceive =>
        Allocates(t, if edns then udpbufsize else UDP_BUFSIZE) && t.datagram.Count? && !(t.datagram.n >= SIZEOF_HDR && t.mine)
      case _ => false
    }

    /** In this turn the query gets to where the socket is to be waited for, perhaps by UDP after TCP has failed. */
    predicate Pauses(t: Turn)
      reads this, os
    {
      if Falls(t) then FallOpens(t) else TcpPauses(t) || UdpPauses(t)
    }

    /** The socket used for UDP after TCP has failed: the other one is closed, and the IPv4 address may have been
        used up. */
    predicate FallOpens(t: Turn)
      reads this, os
    {
      FallConnects(t, os.socks - Socks(), FallbackLeft(t))
    }

    static predicate FallConnects(t: Turn, socks: set<int>, fallback: bool)
    {
      t.udp.fd != -1 && t.udp.fd !in socks && t.udp.bound && t.udp.sent && t.udp.Result(fallback).Connected?
    }

    lemma FallIs(socks: set<int>, mem: set<int>, t: Turn)
      requires Others(socks, mem, Waiting())
      ensures FallOpens(t) <==> FallConnects(t, socks, FallbackLeft(t))
    {
    }

    predicate FallbackLeft(t: Turn)
      reads this, os
    {
      fallback && !(state == TcpInitial && Opens(t.tcp) && t.tcp.nonblocking && t.tcp.first.Unreachable?)
    }

    /** In this turn the length of the answer is read, and it is zero, while there is a buffer. */
    predicate ZeroLength(t: Turn)
      reads this, os
    {
      Reaches(t) && Fresh() && t.prefix == Count(2) && t.length == 0 && recvbuf != 0
    }

    // ----- switching -----

    method SwitchToUdp()
      requires qm == TcpUdp
      modifies this`qm, this`state, this`requests
      ensures qm == UdpOnly && state == UdpInitial && |requests| + Budget() <= old(|requests| + Budget())
      ensures requests == old(requests) + [Request(transl, rd, arcount, true)]
    {
      qm, state := UdpOnly, UdpInitial;
      requests := requests + [Request(transl, rd, arcount, true)];
    }

    /** ... after a reply that was truncated; the query is done. */
    method SwitchToTcp()
      requires Valid() && qm == UdpTcp && state == Done
      modifies this`qm, this`state, this`failed
      ensures Valid() && qm == TcpOnly && state == Initial && failed == 0
      ensures |requests| + Budget() <= old(|requests| + Budget()) - 1
    {
      qm, state, failed := TcpOnly, Initial, 0;
    }

    // ----- p_query_sm, state by state -----

    /** QS_TCPINITIAL: open a socket, bind it, make it non-blocking and connect it. */
    method StartTcp(ghost socks: set<int>, ghost mem: set<int>, e: Opening) returns (o: Outcome)
      requires Busy(false) && Others(socks, mem, false) && state == TcpInitial
      modifies this`sock, this`iolen, this`fallback, this`state, os`socks
      ensures Busy(false)
      ensures o == match old(OpenedTcp(e, fallback)) {
        case Connected => Next
        case InProgress => Wait
        case Refused => TcpFailed
        case _ => Failure(RC_SERVFAIL)
      }
      ensures o.Wait? || o.Next? ==> state == TcpWrite && iolen == 0 && Busy(true) && Others(socks, mem, true)
      ensures o.Failure? || o.TcpFailed? ==> state == TcpInitial && Others(socks, mem, false)
      ensures fallback == (old(fallback) && !(old(Opens(e)) && e.nonblocking && e.first.Unreachable?))
    {
      sock := os.Socket(e.fd);
      if sock == -1 { return Failure(RC_SERVFAIL); }
      if !e.bound || !e.nonblocking {
        os.Close(sock);
        return Failure(RC_SERVFAIL);
      }
      iolen := 0;
      var c := e.first;
      if c.Unreachable? && fallback {
        // retry with the IPv4 fallback address, once
        fallback := false;
        c := e.second;
      }
      if !c.Connected? && !c.InProgress? {
        os.Close(sock);
        return if c.Refused? then TcpFailed else Failure(RC_SERVFAIL);
      }
      state := TcpWrite;
      return if c.Connected? then Next else Wait;
    }

    /** QS_TCPWRITE: write what is left of the message. */
    method Write(ghost socks: set<int>, ghost mem: set<int>, w: Io) returns (o: Outcome)
      requires Busy(true) && Others(socks, mem, true) && state == TcpWrite && Positions()
      modifies this`iolen, this`state, os`socks
      ensures Busy(false) && Positions() && (o.Wait? || o.Next? || o.Failure? || o.TcpFailed?)
      ensures o.Next? <==> old(Written(w))
      ensures o.Wait? ==> state == TcpWrite && Busy(true) && Others(socks, mem, true)
      ensures o.Next? ==> state == TcpRead && iolen == 0 && Busy(true) && Others(socks, mem, true)
      ensures o.Failure? || o.TcpFailed? ==> Others(socks, mem, false) && state == TcpWrite
      ensures o.Failure? ==> o.rc == RC_SERVFAIL
      ensures o.TcpFailed? <==> old(!Written(w) && iolen == 0 && w == Broken(true))
      ensures o.Wait? <==> old(!Written(w) && !w.Broken?)
      ensures o.Wait? ==> iolen == old(iolen) + if w.Count? then w.n else 0
    {
      var rem := MSG_OFFSET + transl - iolen;
      if rem > 0 {
        match w
        case Again => return Wait;
        case Broken(refused) =>
          os.Close(sock);
          return if iolen == 0 && refused then TcpFailed else Failure(RC_SERVFAIL);
        case Count(n) =>
          if n < rem {
            iolen := iolen + n;
            return Wait;
          }
      }
      state, iolen := TcpRead, 0;
      return Next;
    }

    /** QS_TCPREAD: read the length of the answer, then the answer. */
    method Read(ghost socks: set<int>, ghost mem: set<int>, t: Turn) returns (o: Outcome)
      requires Busy(true) && Others(socks, mem, true) && state == TcpRead && Positions()
      modifies this`iolen, this`recvl, this`recvbuf, this`room, this`state, this`zeroReads, os`socks, os`mem, os`misfrees
      ensures Busy(false) && (o.Wait? || o.Success? || o.Failure? || o.TcpFailed?)
      ensures o.Wait? ==> state == TcpRead && Positions() && Busy(true) && Others(socks, mem, true)
      ensures !o.Wait? ==> Others(socks, mem, false)
      ensures o.Success? ==> state == Done && recvbuf != 0
      ensures o.Failure? || o.TcpFailed? ==> state == TcpRead
      ensures o.Failure? ==> o.rc == RC_FATALERR
      ensures Accounted(old(ZeroLength(t)), old(zeroReads), old(os.misfrees))
      ensures old(ZeroLength(t)) ==> o.Failure? || (o.Success? && recvl == 0 && !os.freesAtZero)
      ensures o.Success? <==> old(Arrives(t))
      ensures o.Success? ==> recvl == old(AnswerLength(t)) <= room
      ensures o.TcpFailed? <==> old(TcpFails(t))
      ensures o.Failure? <==> old(NoMemory(t))
      ensures o.Wait? <==> old(TcpPauses(t))
      ensures o.Wait? ==> iolen == if old(Fresh()) && t.prefix.Again? then 0 else
                                   (if old(Fresh()) then 2 else old(iolen)) + if t.body.Count? then t.body.n else 0
    {
      if iolen == 0 {
        o := ReadLength(socks, mem, t);
        if !o.Next? { return; }
      }
      var offset := iolen - 2;
      var rem := recvl - offset;
      if rem > 0 {
        if t.body.Again? { return Wait; }
        if t.body.Broken? || t.body.n == 0 {
          os.Close(sock);
          return TcpFailed;
        }
        if t.body.n < rem {
          iolen := iolen + t.body.n;
          return Wait;
        }
        iolen := iolen + rem;
      }
      os.Close(sock);
      state := Done;
      return Success;
    }

    /** ... the length, and memory for that much. */
    method ReadLength(ghost socks: set<int>, ghost mem: set<int>, t: Turn) returns (o: Outcome)
      requires Busy(true) && Others(socks, mem, true) && state == TcpRead && iolen == 0
      modifies this`iolen, this`recvl, this`recvbuf, this`room, this`zeroReads, os`socks, os`mem, os`misfrees
      ensures Busy(false) && (o.Wait? || o.Next? || o.Failure? || o.TcpFailed?)
      ensures o.Wait? ==> iolen == 0 && recvbuf == old(recvbuf) && Busy(true) && Others(socks, mem, true)
      ensures o.Next? ==> iolen == 2 && recvl == room == t.length && recvbuf != 0 && Busy(true) && Others(socks, mem, true)
      ensures o.Failure? || o.TcpFailed? ==> Others(socks, mem, false)
      ensures o.Failure? ==> o.rc == RC_FATALERR
      ensures Accounted(old(ZeroLength(t)), old(zeroReads), old(os.misfrees))
      ensures old(ZeroLength(t)) ==> o.Failure? || (o.Next? && !os.freesAtZero)
      ensures o.Wait? <==> t.prefix.Again?
      ensures o.TcpFailed? <==> !t.prefix.Again? && t.prefix != Count(2)
      ensures o.Next? <==> t.prefix == Count(2) && old(Allocates(t, t.length))
    {
      if t.prefix.Again? { return Wait; }
      if t.prefix != Count(2) {
        os.Close(sock);
        return TcpFailed;
      }
      iolen, recvl := 2, t.length;
      if recvbuf != 0 && t.length == 0 { zeroReads := zeroReads + 1; }
      recvbuf := os.ReallocOrCleanup(recvbuf, t.length, t.buffer);
      room := t.length;
      if recvbuf == 0 {
        os.Close(sock);
        return Failure(RC_FATALERR);
      }
      return Next;
    }

    /** QS_UDPINITIAL: open a socket, connect it and send the query. */
    method StartUdp(ghost socks: set<int>, ghost mem: set<int>, e: Opening) returns (o: Outcome)
      requires Busy(false) && Others(socks, mem, false) && state == UdpInitial
      modifies this`sock, this`fallback, this`state, os`socks
      ensures Busy(false)
      ensures o == if old(Opened(e, fallback)).Connected? && e.sent then Wait else Failure(RC_SERVFAIL)
      ensures o.Wait? ==> state == UdpReceive && Busy(true) && Others(socks, mem, true)
      ensures o.Failure? ==> Others(socks, mem, false) && state == UdpInitial
      ensures fallback == (old(fallback) && !(old(Opens(e)) && e.first.Unreachable?))
    {
      sock := os.Socket(e.fd);
      if sock == -1 { return Failure(RC_SERVFAIL); }
      if !e.bound {
        os.Close(sock);
        return Failure(RC_SERVFAIL);
      }
      var c := e.first;
      if c.Unreachable? && fallback {
        fallback := false;
        c := e.second;
      }
      if !c.Connected? || !e.sent {
        os.Close(sock);
        return Failure(RC_SERVFAIL);
      }
      state := UdpReceive;
      return Wait;
    }

    /** QS_UDPRECEIVE: receive an answer; one that is not to this query is ignored. The size of the
        buffer is never zero. */
    method Receive(ghost socks: set<int>, ghost mem: set<int>, t: Turn) returns (o: Outcome)
      requires Busy(true) && Others(socks, mem, true) && state == UdpReceive
      modifies this`recvl, this`recvbuf, this`room, this`state, os`socks, os`mem, os`misfrees
      ensures Busy(false) && (o.Wait? || o.Success? || o.Failure?) && os.misfrees == old(os.misfrees)
      ensures o.Wait? ==> state == UdpReceive && Busy(true) && Others(socks, mem, true)
      ensures !o.Wait? ==> Others(socks, mem, false)
      ensures o.Success? ==> state == Done && recvbuf != 0
      ensures o.Failure? ==> state == UdpReceive && (o.rc == RC_SERVFAIL || o.rc == RC_FATALERR)
      ensures o.Success? <==> old(Arrives(t))
      ensures o.Success? ==> recvl == old(AnswerLength(t)) <= room
      ensures o == Failure(RC_FATALERR) <==> !old(Allocates(t, if edns then udpbufsize else UDP_BUFSIZE))
      ensures o == Failure(RC_SERVFAIL) <==> old(Allocates(t, if edns then udpbufsize else UDP_BUFSIZE)) && !t.datagram.Count?
      ensures o.Wait? <==> old(UdpPauses(t))
    {
      var size := if edns then udpbufsize else UDP_BUFSIZE;
      recvbuf := os.ReallocOrCleanup(recvbuf, size, t.buffer);
      room := size;
      if recvbuf == 0 {
        os.Close(sock);
        return Failure(RC_FATALERR);
      }
      if !t.datagram.Count? {
        os.Close(sock);
        return Failure(RC_SERVFAIL);
      }
      recvl := if t.datagram.n < size then t.datagram.n else size;
      if recvl < SIZEOF_HDR || !t.mine {
        return Wait;
      }
      os.Close(sock);
      state := Done;
      return Success;
    }

    // ----- p_query_sm -----

    /** p_query_sm: -1 means that the socket is to be waited for; otherwise the socket is closed. Memory
        is freed twice exactly if a length of zero is read while there is a buffer. */
    method Sm(ghost socks: set<int>, ghost mem: set<int>, t: Turn) returns (rv: int)
      requires Busy(Waiting()) && Others(socks, mem, Waiting()) && Positions()
      requires Waiting() || state == TcpInitial || state == UdpInitial
      modifies this, os`socks, os`mem, os`misfrees
      ensures Busy(false) && Kept(old(edns), old(rd), old(arcount), old(transl), old(repeats)) && Rank(qm) <= Rank(old(qm))
      ensures rv == -1 ==> Paused(socks, mem)
      ensures rv != -1 ==> state == Done && Others(socks, mem, false)
      ensures rv == RC_OK ==> recvbuf != 0
      ensures |requests| + Budget() <= old(|requests| + Budget())
      ensures SwitchedIf(old(Falls(t)), old(qm), old(requests))
      ensures rv == RC_OK <==> old(Arrives(t))
      ensures rv == RC_OK ==> recvl == old(AnswerLength(t)) <= room
      ensures rv == -1 || rv == RC_OK || rv == RC_SERVFAIL || rv == RC_FATALERR
      ensures old(TcpFails(t)) && !old(Falls(t)) ==> rv == RC_SERVFAIL
      ensures rv == -1 <==> old(Pauses(t))
      ensures Accounted(old(ZeroLength(t)), old(zeroReads), old(os.misfrees))
      ensures old(ZeroLength(t)) ==> repeats > 0
      ensures old(ZeroLength(t)) ==> rv == RC_FATALERR || (rv == RC_OK && recvl == 0 && !os.freesAtZero)
    {
      var o := States(socks, mem, t);
      match o {
        case Wait => return -1;
        case Success => return RC_OK;
        case Failure(rc) =>
          state := Done;
          return rc;
      }
    }

    /** Where TCP has failed and UDP may be tried, that is what has been started. */
    ghost predicate SwitchedIf(falls: bool, qm0: Method, requests0: seq<Request>)
      reads this
    {
      var ok := if falls then qm == UdpOnly && requests == requests0 + [Request(transl, rd, arcount, true)]
        else qm == qm0 && requests == requests0;
      ok
    }

    /** All the states, from the present one on. */
    method States(ghost socks: set<int>, ghost mem: set<int>, t: Turn) returns (o: Outcome)
      requires Busy(Waiting()) && Others(socks, mem, Waiting()) && Positions()
      requires Waiting() || state == TcpInitial || state == UdpInitial
      modifies this, os`socks, os`mem, os`misfrees
      ensures Kept(old(edns), old(rd), old(arcount), old(transl), old(repeats)) && Placed(o, socks, mem)
      ensures !o.TcpFailed? && !o.Next?
      ensures SwitchedIf(old(Falls(t)), old(qm), old(requests))
      ensures o.Success? <==> old(Arrives(t))
      ensures o.Success? ==> recvl == old(AnswerLength(t)) <= room
      ensures old(TcpFails(t)) && !old(Falls(t)) ==> o == Failure(RC_SERVFAIL)
      ensures o.Wait? <==> old(Pauses(t))
      ensures ZeroRead(o, old(ZeroLength(t)), old(zeroReads), old(os.misfrees))
    {
      if state == UdpInitial || state == UdpReceive {
        o := Udp(socks, mem, t);
      } else {
        o := TcpOrFall(socks, mem, t);
      }
    }

    /** The TCP states; UDP where TCP has failed and UDP may be tried. */
    method TcpOrFall(ghost socks: set<int>, ghost mem: set<int>, t: Turn) returns (o: Outcome)
      requires Busy(Waiting()) && Others(socks, mem, Waiting()) && Positions()
      requires state == TcpInitial || state == TcpWrite || state == TcpRead
      modifies this, os`socks, os`mem, os`misfrees
      ensures Kept(old(edns), old(rd), old(arcount), old(transl), old(repeats)) && Placed(o, socks, mem)
      ensures !o.TcpFailed? && !o.Next?
      ensures SwitchedIf(old(Falls(t)), old(qm), old(requests))
      ensures o.Success? <==> old(Arrives(t))
      ensures o.Success? ==> recvl == old(AnswerLength(t)) <= room
      ensures old(TcpFails(t)) && !old(Falls(t)) ==> o == Failure(RC_SERVFAIL)
      ensures o.Wait? <==> old(if Falls(t) then FallOpens(t) else TcpPauses(t))
      ensures ZeroRead(o, old(ZeroLength(t)), old(zeroReads), old(os.misfrees))
    {
      FallIs(socks, mem, t);
      o := Tcp(socks, mem, t);
      if o.TcpFailed? {
        if qm != TcpUdp { return Failure(RC_SERVFAIL); }
        o := Fall(socks, mem, t);
      }
    }

    /** What belongs to the query after a turn. */
    ghost predicate Placed(o: Outcome, socks: set<int>, mem: set<int>)
      reads this, os
    {
      var ok := Busy(false) && state != Initial &&
        match o
        case Wait => Paused(socks, mem)
        case Next => true
        case Success => state == Done && recvbuf != 0 && Others(socks, mem, false)
        case TcpFailed => Others(socks, mem, false)
        case Failure(rc) => Others(socks, mem, false) && (rc == RC_SERVFAIL || rc == RC_FATALERR);
      ok
    }

    /** Memory is freed twice exactly if a length of zero has been read while there was a buffer. */
    ghost predicate ZeroRead(o: Outcome, zero: bool, zeroReads0: nat, misfrees0: nat)
      reads this, os
    {
      var ok := Accounted(zero, zeroReads0, misfrees0) &&
        (zero ==> repeats > 0 && (o == Failure(RC_FATALERR) || (o.Success? && recvl == 0 && !os.freesAtZero)));
      ok
    }

    /** TCP has failed where UDP may be tried. */
    method Fall(ghost socks: set<int>, ghost mem: set<int>, t: Turn) returns (o: Outcome)
      requires Busy(false) && Others(socks, mem, false) && qm == TcpUdp
      modifies this`qm, this`requests, this`sock, this`fallback, this`state, this`recvl, this`recvbuf, this`room
      modifies os`socks, os`mem, os`misfrees
      ensures Placed(o, socks, mem) && (o.Wait? || o.Failure?) && os.misfrees == old(os.misfrees) && qm == UdpOnly
      ensures requests == old(requests) + [Request(transl, rd, arcount, true)]
      ensures |requests| + Budget() <= old(|requests| + Budget())
      ensures o.Wait? <==> old(FallConnects(t, os.socks, fallback))
    {
      SwitchToUdp();
      o := Udp(socks, mem, t);
    }

    /** What a request, and repeating it, depends on. */
    ghost predicate Kept(edns: bool, rd: bool, arcount: bool, transl: nat, repeats: nat)
      reads this
    {
      var ok := this.edns == edns && this.rd == rd && this.arcount == arcount && this.transl == transl && this.repeats == repeats;
      ok
    }

    /** The connection is made at once, all of the message is written and the length of the answer read. */
    static predicate Swift(t: Turn, socks: set<int>, length: nat)
    {
      t.tcp.fd != -1 && t.tcp.fd !in socks && t.tcp.bound && t.tcp.nonblocking && t.tcp.first.Connected? &&
      t.written.Count? && t.written.n >= MSG_OFFSET + length && t.prefix == Count(2)
    }

    /** The TCP states, each falling through to the next. */
    method Tcp(ghost socks: set<int>, ghost mem: set<int>, t: Turn) returns (o: Outcome)
      requires Busy(Waiting()) && Others(socks, mem, Waiting()) && Positions()
      requires state == TcpInitial || state == TcpWrite || state == TcpRead
      modifies this`sock, this`iolen, this`fallback, this`state, this`recvl, this`recvbuf, this`room, this`zeroReads
      modifies os`socks, os`mem, os`misfrees
      ensures Placed(o, socks, mem) && !o.Next?
      ensures ZeroRead(o, old(ZeroLength(t)), old(zeroReads), old(os.misfrees))
      ensures o.Success? <==> old(Arrives(t))
      ensures o.Success? ==> recvl == old(AnswerLength(t)) <= room
      ensures o.TcpFailed? <==> old(TcpFails(t))
      ensures o.TcpFailed? ==> fallback == old(FallbackLeft(t))
      ensures o.Wait? <==> old(TcpPauses(t))
    {
      o := Next;
      if state == TcpInitial { o := StartTcp(socks, mem, t.tcp); }
      if o.Next? && state == TcpWrite { o := Write(socks, mem, t.written); }
      if o.Next? && state == TcpRead { o := Read(socks, mem, t); }
    }

    /** The UDP states. */
    method Udp(ghost socks: set<int>, ghost mem: set<int>, t: Turn) returns (o: Outcome)
      requires Busy(Waiting()) && Others(socks, mem, Waiting()) && (state == UdpInitial || state == UdpReceive)
      modifies this`sock, this`fallback, this`state, this`recvl, this`recvbuf, this`room, os`socks, os`mem, os`misfrees
      ensures Placed(o, socks, mem) && (o.Wait? || o.Success? || o.Failure?) && os.misfrees == old(os.misfrees)
      ensures o.Success? <==> old(Arrives(t))
      ensures o.Success? ==> recvl == old(AnswerLength(t)) <= room
      ensures o.Wait? <==> old(UdpPauses(t))
    {
      if state == UdpInitial {
        o := StartUdp(socks, mem, t.udp);
      } else {
        o := Receive(socks, mem, t);
      }
    }

    // ----- p_exec_query, p_cancel_query -----

    /** Start or continue a query. -1 means that the socket is to be waited for; otherwise the query is
        done, and nothing belongs to it any more. `hasName` and `wantsEntry` say whether the query is
        for a name, and whether the answer is wanted (name and entp in the source); `at` and `length`
        are the address and the length of the message, and net(k) is the turn after k repeats. What
        belonged to the query has been freed once, unless a length of zero was read while there was a
        buffer: that happens at most once, as the end of a query that has been repeated, and then the
        buffer is freed twice. An answer that arrives at once is used, or discarded, or makes the
        request be repeated with less. */
    method ExecQuery(hasName: bool, wantsEntry: bool, at: int, length: nat, net: nat -> Turn) returns (rv: int)
      requires Valid()
      modifies this, os`socks, os`mem, os`misfrees
      ensures Settled(old(os.socks - Socks()), old(os.mem - Mem()), rv) && Rank(qm) <= Rank(old(qm))
      ensures |requests| + Budget() <= old(|requests| + Budget())
      ensures Ends() <= old(Ends()) && (rv != -1 && old(state != Done && state != Canceled) ==> Ends() < old(Ends()))
      ensures CountedOnce(old(zeroReads), old(os.misfrees), rv)
      ensures os.misfrees == old(os.misfrees) <==> !os.freesAtZero || zeroReads == old(zeroReads)
      ensures old(Waiting() && ZeroLength(net(0))) ==> zeroReads > old(zeroReads)
      ensures old(state) == Initial && zeroReads > old(zeroReads) ==> wantsEntry && hasName && (trusted || old(edns))
      ensures old(TcpFirst(at)) && hasName && wantsEntry && LostAnswer(net, old(os.socks), old(os.mem) + {at}, length) ==>
                zeroReads > old(zeroReads)
      ensures old(state == Canceled || state == Done) ==> rv == RC_SERVFAIL && requests == old(requests)
      ensures old(state == Initial && !Room(at)) ==> rv == RC_FATALERR && requests == old(requests)
      ensures old(state == Initial && Room(at) && WaitsFirst(net(0))) ==> rv == -1
      ensures old(state == Initial && Room(at)) ==>
                FollowsUp(old(ArrivesFirst(net(0), at, length)), rv == -1, wantsEntry, old(FirstRequest(hasName, length)), old(edns),
                  net(0).length, net(0).reply, old(requests + [FirstRequest(hasName, length)]), rv)
      ensures old(Waiting()) ==>
                FollowsUp(old(Arrives(net(0))), old(Pauses(net(0))), wantsEntry, old(Asked()), old(edns), old(AnswerLength(net(0))),
                  net(0).reply, old(requests), rv)
    {
      if state == Initial {
        rv := Begin(hasName, wantsEntry, at, length, net);
      } else if state == Canceled || state == Done {
        state := Done;
        rv := RC_SERVFAIL;
      } else {
        rv := Exec(os.socks - Socks(), os.mem - Mem(), wantsEntry, net);
      }
    }

    /** ... from QS_INITIAL on. */
    method Begin(hasName: bool, wantsEntry: bool, at: int, length: nat, net: nat -> Turn) returns (rv: int)
      requires Valid() && state == Initial
      modifies this, os`socks, os`mem, os`misfrees
      ensures Settled(old(os.socks), old(os.mem), rv) && Rank(qm) <= Rank(old(qm))
      ensures |requests| + Budget() <= old(|requests| + Budget())
      ensures CountedOnce(old(zeroReads), old(os.misfrees), rv)
      ensures zeroReads > old(zeroReads) ==> wantsEntry && hasName && (trusted || old(edns))
      ensures old(TcpFirst(at)) && hasName && wantsEntry && LostAnswer(net, old(os.socks), old(os.mem) + {at}, length) ==>
                zeroReads > old(zeroReads)
      ensures old(!Room(at)) ==> rv == RC_FATALERR && requests == old(requests)
      ensures old(Room(at) && WaitsFirst(net(0))) ==> rv == -1
      ensures old(Room(at)) ==>
                FollowsUp(old(ArrivesFirst(net(0), at, length)), rv == -1, wantsEntry, old(FirstRequest(hasName, length)), old(edns),
                  net(0).length, net(0).reply, old(requests + [FirstRequest(hasName, length)]), rv)
    {
      ghost var socks, mem := os.socks, os.mem;
      var ok := Foresee(socks, mem, hasName, at, length, net);
      if !ok { return RC_FATALERR; }
      rv := Exec(socks, mem, wantsEntry, net);
    }

    /** malloc yields the address. */
    predicate Room(at: int)
      reads os`mem
    {
      at != 0 && at !in os.mem
    }

    /** The first request of a query: recursion is desired of servers that are trusted. */
    function FirstRequest(hasName: bool, length: nat): Request
      reads this
    {
      Request(length, hasName && trusted, hasName && edns, qm == UdpOnly || qm == UdpTcp)
    }

    /** The answer to it arrives at once. */
    predicate ArrivesFirst(t: Turn, at: int, length: nat)
      reads this, os
    {
      (qm == TcpOnly || qm == TcpUdp) && OpenedTcp(t.tcp, fallback).Connected? &&
      t.written.Count? && t.written.n >= MSG_OFFSET + length && t.prefix == Count(2) &&
      t.buffer != 0 && t.buffer !in os.mem + {at} && Filled(t, t.length)
    }

    /** It is to be waited for: the request has been sent, or the connection is being made. */
    predicate WaitsFirst(t: Turn)
      reads this, os
    {
      if qm == UdpOnly || qm == UdpTcp then Opened(t.udp, fallback).Connected? && t.udp.sent
      else OpenedTcp(t.tcp, fallback).InProgress?
    }

    /** Memory for the message. */
    method Allocate(ghost socks: set<int>, ghost mem: set<int>, at: int) returns (ok: bool)
      requires 0 !in os.mem && os.socks == socks && os.mem == mem
      modifies this`msg, this`recvbuf, os`mem
      ensures ok <==> at != 0 && at !in mem
      ensures if ok then Busy(false) && Others(socks, mem, false) && recvbuf == 0 && os.mem == mem + {at} else os.mem == mem
    {
      msg := os.Malloc(at);
      if msg == 0 { return false; }
      recvbuf := 0;
      assert mem + {at} - {at} - {} == mem;
      return true;
    }

    /** The first request can be started. */
    ghost predicate Prepared(socks: set<int>, mem: set<int>, hasName: bool, at: int, length: nat, requests0: seq<Request>)
      reads this, os
    {
      var ok := Busy(false) && Others(socks, mem, false) && Positions() && Within() &&
        rd == (hasName && trusted) && arcount == (hasName && edns) && transl == length &&
        state == (if qm == UdpOnly || qm == UdpTcp then UdpInitial else TcpInitial) &&
        requests == requests0 + [Request(length, rd, arcount, state == UdpInitial)] &&
        recvbuf == repeats == 0 && os.mem == mem + {at};
      ok
    }

    /** ... and what comes of it has been foreseen. */
    method Foresee(ghost socks: set<int>, ghost mem: set<int>, hasName: bool, at: int, length: nat, ghost net: nat -> Turn)
        returns (ok: bool)
      requires Valid() && state == Initial && os.socks == socks && os.mem == mem
      modifies this`msg, this`state, this`rd, this`arcount, this`transl, this`recvbuf, this`repeats, this`requests, os`mem
      ensures ok <==> at != 0 && at !in mem
      ensures ok ==> Prepared(socks, mem, hasName, at, length, old(requests))
      ensures ok ==> (old(ArrivesFirst(net(0), at, length)) <==> Arrives(net(0)))
      ensures ok && old(WaitsFirst(net(0))) ==> Pauses(net(0)) && !Arrives(net(0))
      ensures ok && old(TcpFirst(at)) && hasName && LostAnswer(net, socks, mem + {at}, length) ==>
                TcpNow() && LostAnswer(net, os.socks, os.mem, transl)
      ensures !ok ==> Valid() && state == Done && os.mem == mem && requests == old(requests)
      ensures |requests| + Budget() <= old(|requests| + Budget())
    {
      ok := Prepare(socks, mem, hasName, at, length);
    }

    /** QS_INITIAL: the message is made. */
    method Prepare(ghost socks: set<int>, ghost mem: set<int>, hasName: bool, at: int, length: nat) returns (ok: bool)
      requires Valid() && state == Initial && os.socks == socks && os.mem == mem
      modifies this`msg, this`state, this`rd, this`arcount, this`transl, this`recvbuf, this`repeats, this`requests, os`mem
      ensures ok <==> at != 0 && at !in mem
      ensures ok ==> Prepared(socks, mem, hasName, at, length, old(requests))
      ensures !ok ==> Valid() && state == Done && os.mem == mem && requests == old(requests)
      ensures |requests| + Budget() <= old(|requests| + Budget())
    {
      ok := Allocate(socks, mem, at);
      if !ok {
        state := Done;
        return;
      }
      rd, arcount := hasName && trusted, hasName && edns;
      transl, repeats := length, 0;
      Start();
    }

    /** Set the state for a new request. */
    method Start()
      modifies this`state, this`requests
      ensures requests == old(requests) + [Request(transl, rd, arcount, qm == UdpOnly || qm == UdpTcp)]
      ensures state == if qm == UdpOnly || qm == UdpTcp then UdpInitial else TcpInitial
    {
      state := if qm == UdpOnly || qm == UdpTcp then UdpInitial else TcpInitial;
      requests := requests + [Request(transl, rd, arcount, state == UdpInitial)];
    }

    /** A new query, with recursion desired, that only TCP may be used for. */
    predicate TcpFirst(at: int)
      reads this, os
    {
      state == Initial && qm == TcpOnly && trusted && at != 0 && at !in os.mem
    }

    predicate TcpNow()
      reads this
    {
      state == TcpInitial && qm == TcpOnly && rd
    }

    /** Two turns: an answer that makes the request be repeated without the RD bit, and one whose
        length is zero. */
    static predicate LostAnswer(net: nat -> Turn, socks: set<int>, mem: set<int>, length: nat)
    {
      var t, u := net(0), net(1);
      Swift(t, socks, length) && Swift(u, socks, length) &&
      Refused(t) && t.body.Count? && t.body.n >= t.length && t.buffer != 0 && t.buffer !in mem &&
      u.length == 0
    }

    /** The answer of a server that does not recurse. */
    static predicate Refusal(r: Reply)
    {
      !r.malformed && !r.ra && (r.rcode == RC_SERVFAIL || r.rcode == RC_NOTSUPP || r.rcode == RC_REFUSED)
    }

    /** The RD bit and the OPT record are not set again. */
    predicate Spent(edns0: bool, rd0: bool, arcount0: bool)
      reads this
    {
      var ok := (edns ==> edns0) && (rd ==> rd0) && (arcount ==> arcount0);
      ok
    }

    /** The request that is being made. */
    function Asked(): Request
      reads this`transl, this`rd, this`arcount, this`qm
    {
      Request(transl, rd, arcount, qm == UdpOnly || qm == UdpTcp)
    }

    /** The part of p_exec_query after tryagain; net(0) is the turn that comes next. */
    method Exec(ghost socks: set<int>, ghost mem: set<int>, wantsEntry: bool, net: nat -> Turn) returns (rv: int)
      requires Busy(Waiting()) && Others(socks, mem, Waiting()) && Positions()
      requires Waiting() || state == TcpInitial || state == UdpInitial
      requires Within()
      modifies this, os`socks, os`mem, os`misfrees
      ensures Settled(socks, mem, rv) && Rank(qm) <= Rank(old(qm))
      ensures |requests| + Budget() <= old(|requests| + Budget()) && old(requests) <= requests
      ensures Spent(old(edns), old(rd), old(arcount))
      ensures CountedOnce(old(zeroReads), old(os.misfrees), rv)
      ensures zeroReads > old(zeroReads) ==> old(ZeroLength(net(0))) || (wantsEntry && old(rd || (edns && arcount)))
      ensures old(ZeroLength(net(0))) ==> zeroReads > old(zeroReads)
      ensures FollowsUp(old(Arrives(net(0))), old(Pauses(net(0))), wantsEntry, old(Asked()), old(edns), old(AnswerLength(net(0))),
                net(0).reply, old(requests), rv)
      ensures old(TcpNow()) && wantsEntry && LostAnswer(net, old(os.socks), old(os.mem), old(transl)) ==>
                zeroReads > old(zeroReads)
      decreases Rank(qm), if edns then 1 else 0, if rd then 1 else 0
    {
      ghost var lost := TcpNow() && wantsEntry && LostAnswer(net, os.socks, os.mem, transl);
      assert lost ==> os.socks - {} == os.socks && Arrives(net(0)) && Refused(net(0));
      var again;
      again, rv := Once(socks, mem, wantsEntry, net(0));
      if again {
        assert lost ==> ZeroLength(net(1));
        rv := Exec(socks, mem, wantsEntry, (k: nat) => net(k + 1));
      }
    }

    /** Memory is freed twice at most once, as the end of a query that has been repeated. */
    ghost predicate CountedOnce(zeroReads0: nat, misfrees0: nat, rv: int)
      reads this, os
    {
      var ok := zeroReads0 <= zeroReads <= zeroReads0 + 1 && os.misfrees == misfrees0 + Doubled(zeroReads - zeroReads0) &&
        (zeroReads > zeroReads0 ==> rv != -1 && repeats > 0 && (os.freesAtZero ==> rv == RC_FATALERR));
      ok
    }

    /** One turn, and what is done with the answer if there is one. */
    method Once(ghost socks: set<int>, ghost mem: set<int>, wantsEntry: bool, t: Turn) returns (again: bool, rv: int)
      requires Busy(Waiting()) && Others(socks, mem, Waiting()) && Positions()
      requires Waiting() || state == TcpInitial || state == UdpInitial
      requires Within()
      modifies this, os`socks, os`mem, os`misfrees
      ensures if again then Asking(socks, mem) else Settled(socks, mem, rv)
      ensures Progress(again, old(|requests| + Budget()), old(qm), old(repeats))
      ensures Spent(old(edns), old(rd), old(arcount))
      ensures Accounted(old(ZeroLength(t)), old(zeroReads), old(os.misfrees))
      ensures old(ZeroLength(t)) ==> !again && rv != -1 && repeats > 0 && (os.freesAtZero ==> rv == RC_FATALERR)
      ensures again <==> old(Arrives(t)) && Repeats(wantsEntry, old(rd), old(edns && arcount), old(AnswerLength(t)), t.reply)
      ensures again ==> AsksLess(old(AnswerLength(t)), t.reply, old(rd), old(edns), old(arcount), old(transl), old(qm), old(requests))
      ensures !again && old(Arrives(t)) ==>
                Taken(wantsEntry, old(rd), old(edns && arcount), old(AnswerLength(t)), t.reply, rv) && requests == old(requests)
      ensures !old(Arrives(t)) ==> NoAnswer(rv, old(Pauses(t)), old(requests))
    {
      again := false;
      rv := Advance(socks, mem, t);
      if rv == RC_OK {
        again, rv := Answered(socks, mem, wantsEntry, t.reply);
      } else if rv != -1 {
        Release(socks, mem);
      }
    }

    /** p_query_sm, as far as its caller is concerned. */
    method Advance(ghost socks: set<int>, ghost mem: set<int>, t: Turn) returns (rv: int)
      requires Busy(Waiting()) && Others(socks, mem, Waiting()) && Positions()
      requires Waiting() || state == TcpInitial || state == UdpInitial
      requires Within()
      modifies this, os`socks, os`mem, os`misfrees
      ensures Kept(old(edns), old(rd), old(arcount), old(transl), old(repeats)) && Within()
      ensures rv == -1 ==> Settled(socks, mem, rv)
      ensures rv != -1 ==> state == Done && Busy(false) && Others(socks, mem, false)
      ensures |requests| + Budget() <= old(|requests| + Budget()) && Rank(qm) <= Rank(old(qm))
      ensures rv == RC_OK <==> old(Arrives(t))
      ensures rv == RC_OK ==> recvbuf != 0 && recvl == old(AnswerLength(t)) && qm == old(qm) && requests == old(requests)
      ensures rv != RC_OK ==> NoAnswer(rv, old(Pauses(t)), old(requests))
      ensures Accounted(old(ZeroLength(t)), old(zeroReads), old(os.misfrees))
      ensures old(ZeroLength(t)) ==> repeats > 0 && (rv == RC_FATALERR || (rv == RC_OK && recvl == 0 && !os.freesAtZero))
    {
      rv := Sm(socks, mem, t);
      if rv == -1 { PauseSettles(socks, mem); }
    }

    lemma PauseSettles(socks: set<int>, mem: set<int>)
      requires Within() && Paused(socks, mem)
      ensures Settled(socks, mem, -1)
    {
    }

    static predicate Refused(t: Turn) { t.length >= SIZEOF_HDR && Refusal(t.reply) }

    /** What is done with an answer: it is used or discarded, and the resources are freed, or a new request is
        set up. */
    method Answered(ghost socks: set<int>, ghost mem: set<int>, wantsEntry: bool, r: Reply) returns (again: bool, rv: int)
      requires Within() && Busy(false) && Others(socks, mem, false) && state == Done && recvbuf != 0
      modifies this`rd, this`edns, this`arcount, this`transl, this`failed, this`tc, this`state, this`requests, this`repeats
      modifies os`mem, os`misfrees
      ensures |requests| + Budget() <= old(|requests| + Budget())
      ensures repeats == old(repeats) + if again then 1 else 0
      ensures again ==> Asking(socks, mem)
      ensures !again ==> Settled(socks, mem, rv) && rv != -1
      ensures os.misfrees == old(os.misfrees)
      ensures Spent(old(edns), old(rd), old(arcount))
      ensures again <==> Repeats(wantsEntry, old(rd), old(edns && arcount), recvl, r)
      ensures again ==> AsksLess(recvl, r, old(rd), old(edns), old(arcount), old(transl), qm, old(requests))
      ensures !again ==> Taken(wantsEntry, old(rd), old(edns && arcount), recvl, r, rv) && requests == old(requests)
    {
      var verdict := Judge(wantsEntry, r);
      again := verdict.TryAgain?;
      if again {
        repeats := repeats + 1;
        Start();
        rv := RC_OK;
      } else {
        rv := Conclude(socks, mem, verdict, r);
      }
    }

    /** The answer is used or discarded, and the query is done. */
    method Conclude(ghost socks: set<int>, ghost mem: set<int>, verdict: Verdict, r: Reply) returns (rv: int)
      requires Within() && Busy(false) && Others(socks, mem, false) && state == Done && !verdict.TryAgain?
      modifies this`tc, this`failed, this`state, os`mem, os`misfrees
      ensures Settled(socks, mem, rv) && rv != -1 && os.misfrees == old(os.misfrees)
      ensures match verdict
              case Accept(rcode) =>
                rv == (if r.result == -1 then rcode else r.result) && tc == r.tc && failed == if old(failed) == 0 then r.failed else old(failed)
              case Discard(rc) => rv == rc
    {
      match verdict {
        case Accept(rcode) =>
          Finish(socks, mem, r);
          rv := if r.result == -1 then rcode else r.result;
        case Discard(rc) =>
          Release(socks, mem);
          rv := rc;
      }
    }

    /** The answer is not followed by another request; from one that is used, the TC bit is kept, and that of
        a failing server is marked as such. */
    ghost predicate Taken(wantsEntry: bool, rd0: bool, opt0: bool, len: int, r: Reply, rv: int)
      reads this`tc, this`failed
    {
      var ok := rv == Code(wantsEntry, rd0, opt0, len, r) &&
        (Used(wantsEntry, rd0, opt0, len, r) ==> tc == r.tc && (r.rcode != RC_OK && r.rcode != RC_NAMEERR ==> failed == 3));
      ok
    }

    /** The socket is to be waited for, or the query has failed, perhaps after another request by UDP. */
    ghost predicate NoAnswer(rv: int, pauses: bool, before: seq<Request>)
      reads this`requests
    {
      var ok := (if pauses then rv == -1 else rv == RC_SERVFAIL || rv == RC_FATALERR) && before <= requests;
      ok
    }

    /** The request is repeated, without the RD bit if it was the reason, otherwise without the OPT record. */
    ghost predicate AsksLess(len: int, r: Reply, rd0: bool, edns0: bool, arcount0: bool, transl0: nat, qm0: Method, requests0: seq<Request>)
      reads this
    {
      var ok := qm == qm0 && state == (if qm == UdpOnly || qm == UdpTcp then UdpInitial else TcpInitial) &&
        requests == requests0 + [Request(transl, rd, arcount, state == UdpInitial)] && Less(len, r, rd0, edns0, arcount0, transl0);
      ok
    }

    ghost predicate Less(len: int, r: Reply, rd0: bool, edns0: bool, arcount0: bool, transl0: nat)
      reads this`rd, this`edns, this`arcount, this`transl
    {
      var ok := if WithoutRd(true, rd0, len, r) then rd0 && !rd && edns == edns0 && arcount == arcount0 && transl == transl0
        else rd == rd0 && edns0 && !edns && arcount0 && !arcount && transl == r.removed;
      ok
    }

    /** The measure falls, and the methods left do not become more. */
    ghost predicate Progress(again: bool, measure0: int, qm0: Method, repeats0: nat)
      reads this
    {
      var ok := |requests| + Budget() <= measure0 && Rank(qm) <= Rank(qm0) && repeats == repeats0 + if again then 1 else 0;
      ok
    }

    /** The socket is to be waited for. */
    ghost predicate Paused(socks: set<int>, mem: set<int>)
      reads this, os
    {
      var ok := Waiting() && Positions() && Busy(true) && Others(socks, mem, true);
      ok
    }

    /** Between two calls; rv says whether the query is done. */
    ghost predicate Settled(socks: set<int>, mem: set<int>, rv: int)
      reads this, os
    {
      var ok := Valid() && (if rv == -1 then Waiting() else state == Done) && os.socks - Socks() == socks && os.mem - Mem() == mem;
      ok
    }

    /** The request that follows on an answer after which it is repeated: without the RD bit if the server
        does not recurse, otherwise without the OPT record. */
    static function AskedNext(first: Request, len: int, r: Reply): Request
    {
      if WithoutRd(true, first.rd, len, r) then first.(rd := false) else first.(length := r.removed, opt := false)
    }

    /** What comes of the answer to the first request: `arrives` says that there is one, of length len, `pauses` that
        there may be one later. */
    ghost predicate FollowsUp(arrives: bool, pauses: bool, wantsEntry: bool, first: Request, edns0: bool, len: int, r: Reply,
      before: seq<Request>, rv: int)
      reads this`requests, this`edns, this`tc, this`failed
    {
      var opt := edns0 && first.opt;
      var ok := if !arrives then NoAnswer(rv, pauses, before)
        else if Repeats(wantsEntry, first.rd, opt, len, r) then
          before <= requests && before + [AskedNext(first, len, r)] <= requests && (!WithoutRd(wantsEntry, first.rd, len, r) ==> !edns)
        else Taken(wantsEntry, first.rd, opt, len, r, rv) && requests == before;
      ok
    }

    /** A request is to be started again, with the buffer left from before. */
    ghost predicate Asking(socks: set<int>, mem: set<int>)
      reads this, os
    {
      var ok := Within() && Busy(false) && Others(socks, mem, false) && Positions() && recvbuf != 0 &&
        (state == TcpInitial || state == UdpInitial);
      ok
    }

    /** `doubled` says whether a length of zero has been read while there was a buffer. */
    ghost predicate Accounted(doubled: bool, zeroReads0: nat, misfrees0: nat)
      reads this, os
    {
      var ok := zeroReads == zeroReads0 + (if doubled then 1 else 0) && os.misfrees == misfrees0 + if doubled then Doubled(1) else 0;
      ok
    }

    /** The answer makes the request be repeated without the RD bit. */
    static predicate WithoutRd(wantsEntry: bool, rd: bool, len: int, r: Reply)
    {
      wantsEntry && rd && len >= SIZEOF_HDR && Refusal(r)
    }

    /** The answer makes the request be repeated without the EDNS record, `opt` being whether it has one: the
        server says that the format is wrong, or refuses although recursion is not the reason. */
    static predicate WithoutEdns(wantsEntry: bool, rd: bool, opt: bool, len: int, r: Reply)
    {
      wantsEntry && opt && len >= SIZEOF_HDR && !r.malformed &&
      (r.rcode == RC_FORMAT || ((r.rcode == RC_NOTSUPP || r.rcode == RC_REFUSED) && !(rd && !r.ra))) &&
      r.removed != 0 && !r.left
    }

    static predicate Repeats(wantsEntry: bool, rd: bool, opt: bool, len: int, r: Reply)
    {
      WithoutRd(wantsEntry, rd, len, r) || WithoutEdns(wantsEntry, rd, opt, len, r)
    }

    /** The answer is used: the name is there, or there is no such name; or it is the answer of a failing
        server lower down, and there is nothing better. */
    static predicate Used(wantsEntry: bool, rd: bool, opt: bool, len: int, r: Reply)
    {
      len >= SIZEOF_HDR && !r.malformed &&
      (r.rcode == RC_OK || r.rcode == RC_NAMEERR ||
       (wantsEntry && r.hasAnswer && r.lowServer && !(rd && !r.ra) &&
        (r.rcode == RC_SERVFAIL || ((r.rcode == RC_NOTSUPP || r.rcode == RC_REFUSED) && !opt))))
    }

    /** What p_exec_query returns for an answer that does not make it repeat the request. */
    static function Code(wantsEntry: bool, rd: bool, opt: bool, len: int, r: Reply): int
    {
      if Used(wantsEntry, rd, opt, len, r) then (if r.result == -1 then r.rcode else r.result)
      else if len < SIZEOF_HDR || r.malformed then RC_SERVFAIL
      else r.rcode
    }

    /** The checks of an answer. A request is repeated at most without the RD bit or without the EDNS
        record, and then with less than before. */
    method Judge(wantsEntry: bool, r: Reply) returns (v: Verdict)
      requires Busy(false) && state == Done
      modifies this`rd, this`edns, this`arcount, this`transl, this`failed
      ensures Busy(false)
      ensures v.TryAgain? <==> Repeats(wantsEntry, old(rd), old(edns && arcount), recvl, r)
      ensures v.TryAgain? ==> Less(recvl, r, old(rd), old(edns), old(arcount), old(transl))
      ensures !v.TryAgain? ==> rd == old(rd) && edns == old(edns)
      ensures Spent(old(edns), old(rd), old(arcount)) && Budget() <= old(Budget()) - if v.TryAgain? then 1 else 0
      ensures v.Accept? && r.rcode != RC_OK && r.rcode != RC_NAMEERR ==> failed == 3
      ensures !v.TryAgain? ==> v == if Used(wantsEntry, old(rd), old(edns && arcount), recvl, r) then Accept(r.rcode)
                                    else Discard(if recvl < SIZEOF_HDR || r.malformed then RC_SERVFAIL else r.rcode)
    {
      if recvl < SIZEOF_HDR || r.malformed { return Discard(RC_SERVFAIL); }
      if r.rcode == RC_OK || r.rcode == RC_NAMEERR { return Accept(r.rcode); }
      if wantsEntry {
        var without := r.rcode == RC_FORMAT && edns && arcount;
        if r.rcode == RC_SERVFAIL || r.rcode == RC_NOTSUPP || r.rcode == RC_REFUSED {
          if rd && !r.ra {
            rd := false;
            return TryAgain;
          } else if r.rcode != RC_SERVFAIL && edns && arcount {
            without := true;
          } else if r.hasAnswer && r.lowServer {
            failed := 3;
            return Accept(r.rcode);
          }
        }
        if without {
          arcount := r.left;
          if r.removed != 0 && !arcount {
            transl := r.removed;
            edns := false;
            return TryAgain;
          }
        }
      }
      return Discard(r.rcode);
    }

    /** Free the message and the answer. */
    method Release(ghost socks: set<int>, ghost mem: set<int>)
      requires Within() && Busy(false) && Others(socks, mem, false) && state == Done
      modifies this`state, os`mem, os`misfrees
      ensures Valid() && state == Done && os.socks == socks && os.mem == mem && os.misfrees == old(os.misfrees)
    {
      os.Free(msg);
      os.Free(recvbuf);
      state := Done;
    }

    /** The rest of p_exec_query: the message is freed, the answer is used, and then freed. */
    method Finish(ghost socks: set<int>, ghost mem: set<int>, r: Reply)
      requires Within() && Busy(false) && Others(socks, mem, false) && state == Done
      modifies this`tc, this`failed, os`mem, os`misfrees
      ensures Valid() && os.socks == socks && os.mem == mem && os.misfrees == old(os.misfrees)
      ensures tc == r.tc && failed == if old(failed) == 0 then r.failed else old(failed)
    {
      os.Free(msg);
      tc, failed := r.tc, if failed == 0 then r.failed else failed;
      os.Free(recvbuf);
    }

    /** p_cancel_query: in any state; afterwards nothing belongs to the query any more. */
    method Cancel()
      requires Valid()
      modifies this`state, os`socks, os`mem, os`misfrees
      ensures Valid() && !Waiting() && os.misfrees == old(os.misfrees)
      ensures state == if old(state == Initial || state == Done) then old(state) else Canceled
      ensures os.socks == old(os.socks - Socks()) && os.mem == old(os.mem - Mem())
    {
      if Waiting() {
        os.Close(sock);
      }
      if Waiting() || state == TcpInitial || state == UdpInitial {
        os.Free(recvbuf);
        os.Free(msg);
      }
      if state != Initial && state != Done {
        state := Canceled;
      }
    }

    // ----- what p_recursive_query does with a query besides -----

    /** tentative_tcp_query. */
    predicate Tentative()
      reads this
    {
      qm == TcpUdp && (state == TcpWrite || (state == TcpRead && iolen == 0))
    }

    /** A TCP connection has timed out: the query is tried again using UDP. */
    method TimedOut(wantsEntry: bool, net: nat -> Turn) returns (rv: int)
      requires Valid() && Tentative()
      modifies this, os`socks, os`mem, os`misfrees
      ensures Valid() && (if rv == -1 then Waiting() else state == Done) && Rank(qm) == 0
      ensures os.socks - Socks() == old(os.socks - Socks()) && os.mem - Mem() == old(os.mem - Mem())
      ensures |requests| + Budget() <= old(|requests| + Budget())
      ensures Ends() < old(Ends())
      ensures NoAnswer(rv, old(FallConnects(net(0), os.socks - Socks(), fallback)),
                old(requests + [Request(transl, rd, arcount, true)]))
      ensures os.misfrees == old(os.misfrees) + Doubled(zeroReads - old(zeroReads))
    {
      ghost var socks, mem := os.socks - Socks(), os.mem - Mem();
      ghost var connects := FallConnects(net(0), os.socks - Socks(), fallback);
      os.Close(sock);
      SwitchToUdp();
      assert !Arrives(net(0)) && (Pauses(net(0)) <==> connects);
      rv := Exec(socks, mem, wantsEntry, net);
    }

    /** A UDP reply was truncated: the query is tried again using TCP. */
    method Truncated(hasName: bool, wantsEntry: bool, at: int, length: nat, net: nat -> Turn) returns (rv: int)
      requires Valid() && state == Done && qm == UdpTcp && tc
      modifies this, os`socks, os`mem, os`misfrees
      ensures Valid() && (if rv == -1 then Waiting() else state == Done) && Rank(qm) == 0
      ensures os.socks - Socks() == old(os.socks - Socks()) && os.mem - Mem() == old(os.mem - Mem())
      ensures |requests| + Budget() < old(|requests| + Budget())
      ensures Ends() <= old(Ends()) && (rv != -1 ==> Ends() < old(Ends()))
      ensures if old(Room(at)) then old(requests + [Request(length, hasName && trusted, hasName && edns, false)]) <= requests
              else rv == RC_FATALERR && requests == old(requests)
      ensures old(Room(at) && OpenedTcp(net(0).tcp, fallback).InProgress?) ==> rv == -1
      ensures os.misfrees == old(os.misfrees) + Doubled(zeroReads - old(zeroReads))
    {
      SwitchToTcp();
      rv := ExecQuery(hasName, wantsEntry, at, length, net);
    }
  }

  /** What becomes of an answer. */
  datatype Verdict = Accept(rcode: nat) | Discard(rcode: nat) | TryAgain

  /** Memory is freed twice, with recursion desired from a server that TCP is to be used for: the first
      answer, SERVFAIL without the RA bit, makes the request be repeated, and its buffer stays; the
      second one says that its length is zero. */
  method ZeroLengthFreesTwice() returns (rv: int, misfrees: nat, left: set<int>)
    ensures rv == RC_FATALERR && misfrees == 1 && left == {}
  {
    var os := new Os(true);
    var q := new Query(os, TcpOnly, false, true, false, UDP_BUFSIZE);
    var server := Opening(3, true, true, Connected, Connected, true);
    var reply := Reply(false, RC_SERVFAIL, false, false, false, 0, false, false, 0, 0);
    var first := Turn(server, Count(32), Count(2), SIZEOF_HDR, 2, Count(SIZEOF_HDR), server, Again, false, reply);
    rv := q.ExecQuery(true, true, 1, 30, k => if k == 0 then first else first.(length := 0));
    misfrees, left := os.misfrees, os.mem;
    assert os.mem - {} == os.mem;
  }
}
