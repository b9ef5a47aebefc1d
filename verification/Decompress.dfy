/** Name decompression (pdnsd/src/dns.c, decompress_name; section 4.1.4 of RFC 1035).

    `Decode` follows the program's two loops, limits included. `Spells` is the independent
    meaning of a compressed name: it knows nothing of buffers, remaining sizes or limits.
    `DecodeExact` says that the program accepts exactly the names that the message spells
    within the limits, and `DecompressName` is the program itself, proved to compute `Decode`. */
module Decompress {
  import opened Names

  const MAXHOPS := 255

  datatype Option<+T> = None | Some(value: T)

  datatype Rc = RC_OK | RC_TRUNC | RC_FORMAT

  /** RC_OK with the decoded bytes and the number of bytes read from the data field, or a failure. */
  datatype Outcome = Ok(bytes: seq<byte>, used: nat) | Failed(rc: Rc)

  function Target(hi: byte, lo: byte): (offs: nat)
    requires hi >= 192
    ensures offs <= 0x3fff
  {
    (hi % 64) * 256 + lo
  }

  // ----- what the program computes -----

  /** The second loop, entered after the first jump; `done` is what the buffer holds already. */
  ghost function Chase(msg: seq<byte>, pos: nat, hops: nat, done: seq<byte>): (r: Option<seq<byte>>)
    requires pos < |msg| && hops <= MAXHOPS && |done| < DNSNAMEBUFSIZE
    decreases MAXHOPS - hops, DNSNAMEBUFSIZE - |done|
  {
    var lb := msg[pos];
    if lb > 0x3f then
      if lb < 0xc0 || pos + 1 >= |msg| || hops + 1 > MAXHOPS then None
      else
        var offs := Target(lb, msg[pos + 1]);
        if offs >= |msg| then None else Chase(msg, offs, hops + 1, done)
    else if lb == 0 then Some(done + [0])
    else if pos + 1 + lb >= |msg| || |done| + 1 + lb > DNSNAMEBUFSIZE - 1 then None
    else Chase(msg, pos + 1 + lb, hops, done + [lb] + msg[pos + 1..pos + 1 + lb])
  }

  /** The first loop, up to the first jump; `rem` bytes of the data field are left. */
  ghost function Inline(msg: seq<byte>, pos: nat, rem: nat, done: seq<byte>, used: nat): (r: Outcome)
    requires pos < |msg| && rem > 0 && |done| < DNSNAMEBUFSIZE
    decreases DNSNAMEBUFSIZE - |done|
  {
    var lb := msg[pos];
    if lb > 0x3f then
      if lb < 0xc0 then Failed(RC_FORMAT)
      else if rem == 1 then Failed(RC_TRUNC)
      else if pos + 1 >= |msg| then Failed(RC_FORMAT)
      else
        var offs := Target(lb, msg[pos + 1]);
        if offs >= |msg| then Failed(RC_FORMAT)
        else
          match Chase(msg, offs, 1, done)
          case None => Failed(RC_FORMAT)
          case Some(bytes) => Ok(bytes, used + 2)
    else if lb == 0 then Ok(done + [0], used + 1)
    else if rem - 1 <= lb then Failed(RC_TRUNC)
    else if pos + 1 + lb >= |msg| || |done| + 1 + lb > DNSNAMEBUFSIZE - 1 then Failed(RC_FORMAT)
    else Inline(msg, pos + 1 + lb, rem - 1 - lb, done + [lb] + msg[pos + 1..pos + 1 + lb], used + 1 + lb)
  }

  ghost function Decode(msg: seq<byte>, src: nat, sz: nat): (r: Outcome)
  {
    if sz == 0 then Failed(RC_TRUNC) else if src >= |msg| then Failed(RC_FORMAT) else Inline(msg, src, sz, [], 0)
  }

  // ----- what a compressed name means -----

  /** Reading at `pos`, and following h compression pointers, spells the name n. */
  ghost predicate Spells(msg: seq<byte>, pos: nat, n: Name, h: nat)
    decreases h, |n|
  {
    pos < |msg| &&
    if msg[pos] >= 0xc0 then
      h > 0 && pos + 1 < |msg| && Spells(msg, Target(msg[pos], msg[pos + 1]), n, h - 1)
    else if msg[pos] == 0 then n == [] && h == 0
    else
      msg[pos] <= 63 && n != [] && pos + 1 + msg[pos] < |msg| &&
      n[0] == msg[pos + 1..pos + 1 + msg[pos]] &&
      Spells(msg, pos + 1 + msg[pos], n[1..], h)
  }

  ghost predicate SpellsWithin(msg: seq<byte>, pos: nat, n: Name, h: nat)
  {
    h <= MAXHOPS && Spells(msg, pos, n, h)
  }

  /** Bytes a compressed name takes up where it stands: up to its first pointer or zero byte. */
  ghost function EncodedSize(msg: seq<byte>, pos: nat): nat
    decreases |msg| - pos
  {
    if pos >= |msg| then 0
    else if msg[pos] > 63 then 2
    else if msg[pos] == 0 then 1
    else 1 + msg[pos] + EncodedSize(msg, pos + 1 + msg[pos])
  }

  // ----- the two agree -----

  /** A label in place, and what follows it. */
  lemma SpellsCons(msg: seq<byte>, pos: nat, l: Label, rest: Name, h: nat)
    requires pos + 1 + |l| <= |msg| && msg[pos] == |l| && msg[pos + 1..pos + 1 + |l|] == l
    requires Spells(msg, pos + 1 + |l|, rest, h)
    ensures Spells(msg, pos, [l] + rest, h)
  {
    assert ([l] + rest)[1..] == rest;
  }

  lemma DoneCons(done: seq<byte>, l: Label, rest: Name)
    ensures done + [|l| as byte] + l + Wire(rest) == done + Wire([l] + rest)
  {
    WireCons(l, rest);
    assert done + [|l| as byte] + l + Wire(rest) == done + ([|l| as byte] + l + Wire(rest));
  }

  lemma {:induction false} ChaseSound(msg: seq<byte>, pos: nat, hops: nat, done: seq<byte>) returns (n: Name, h: nat)
    requires pos < |msg| && hops <= MAXHOPS && |done| < DNSNAMEBUFSIZE
    requires Chase(msg, pos, hops, done).Some?
    ensures Spells(msg, pos, n, h) && hops + h <= MAXHOPS
    ensures Chase(msg, pos, hops, done).value == done + Wire(n) && |done + Wire(n)| <= DNSNAMEBUFSIZE
    decreases MAXHOPS - hops, DNSNAMEBUFSIZE - |done|
  {
    var lb := msg[pos];
    if lb > 0x3f {
      n, h := ChaseSound(msg, Target(lb, msg[pos + 1]), hops + 1, done);
      h := h + 1;
    } else if lb == 0 {
      n, h := [], 0;
    } else {
      var l: Label := msg[pos + 1..pos + 1 + lb];
      var rest;
      rest, h := ChaseSound(msg, pos + 1 + lb, hops, done + [lb] + l);
      n := [l] + rest;
      SpellsCons(msg, pos, l, rest, h);
      DoneCons(done, l, rest);
    }
  }

  lemma {:induction false} ChaseComplete(msg: seq<byte>, pos: nat, hops: nat, done: seq<byte>, n: Name, h: nat)
    requires Spells(msg, pos, n, h)
    requires hops + h <= MAXHOPS && |done + Wire(n)| <= DNSNAMEBUFSIZE
    ensures Chase(msg, pos, hops, done) == Some(done + Wire(n))
    decreases h, |n|
  {
    var lb := msg[pos];
    if lb >= 0xc0 {
      ChaseComplete(msg, Target(lb, msg[pos + 1]), hops + 1, done, n, h - 1);
    } else if lb != 0 {
      var l := n[0];
      assert n == [l] + n[1..];
      DoneCons(done, l, n[1..]);
      ChaseComplete(msg, pos + 1 + lb, hops, done + [lb] + l, n[1..], h);
    }
  }

  lemma {:induction false} InlineSound(msg: seq<byte>, pos: nat, rem: nat, done: seq<byte>, used: nat)
    returns (n: Name, h: nat)
    requires pos < |msg| && rem > 0 && |done| < DNSNAMEBUFSIZE
    requires Inline(msg, pos, rem, done, used).Ok?
    ensures Spells(msg, pos, n, h) && h <= MAXHOPS && |done + Wire(n)| <= DNSNAMEBUFSIZE
    ensures EncodedSize(msg, pos) <= rem && pos + EncodedSize(msg, pos) <= |msg|
    ensures Inline(msg, pos, rem, done, used) == Ok(done + Wire(n), used + EncodedSize(msg, pos))
    decreases DNSNAMEBUFSIZE - |done|
  {
    var lb := msg[pos];
    if lb > 0x3f {
      n, h := ChaseSound(msg, Target(lb, msg[pos + 1]), 1, done);
      h := h + 1;
    } else if lb == 0 {
      n, h := [], 0;
    } else {
      var l: Label := msg[pos + 1..pos + 1 + lb];
      var rest;
      rest, h := InlineSound(msg, pos + 1 + lb, rem - 1 - lb, done + [lb] + l, used + 1 + lb);
      n := [l] + rest;
      SpellsCons(msg, pos, l, rest, h);
      DoneCons(done, l, rest);
    }
  }

  lemma {:induction false} InlineComplete(msg: seq<byte>, pos: nat, rem: nat, done: seq<byte>, used: nat, n: Name, h: nat)
    requires Spells(msg, pos, n, h) && h <= MAXHOPS && |done + Wire(n)| <= DNSNAMEBUFSIZE
    requires EncodedSize(msg, pos) <= rem
    ensures rem > 0 && Inline(msg, pos, rem, done, used) == Ok(done + Wire(n), used + EncodedSize(msg, pos))
    decreases |n|
  {
    var lb := msg[pos];
    if lb >= 0xc0 {
      ChaseComplete(msg, Target(lb, msg[pos + 1]), 1, done, n, h - 1);
    } else if lb != 0 {
      var l := n[0];
      assert n == [l] + n[1..];
      DoneCons(done, l, n[1..]);
      InlineComplete(msg, pos + 1 + lb, rem - 1 - lb, done + [lb] + l, used + 1 + lb, n[1..], h);
    }
  }

  /** Main result: the program accepts a name exactly when the message spells it at that place
      with at most 255 pointers and 256 bytes, and its bytes in place fit the data field. */
  lemma DecodeExact(msg: seq<byte>, src: nat, sz: nat, bytes: seq<byte>, used: nat)
    ensures Decode(msg, src, sz) == Ok(bytes, used) <==>
            used == EncodedSize(msg, src) <= sz && |bytes| <= DNSNAMEBUFSIZE &&
            exists n: Name, h: nat :: SpellsWithin(msg, src, n, h) && bytes == Wire(n)
    ensures Decode(msg, src, sz) == Ok(bytes, used) ==> src + used <= |msg|
  {
    if Decode(msg, src, sz) == Ok(bytes, used) {
      var n, h := InlineSound(msg, src, sz, [], 0);
      assert SpellsWithin(msg, src, n, h) && [] + Wire(n) == Wire(n);
    }
    if used == EncodedSize(msg, src) <= sz && |bytes| <= DNSNAMEBUFSIZE {
      if n: Name, h: nat :| SpellsWithin(msg, src, n, h) && bytes == Wire(n) {
        assert [] + Wire(n) == Wire(n);
        InlineComplete(msg, src, sz, [], 0, n, h);
      }
    }
  }

  /** A message spells at most one name at a place, whatever the number of pointers. */
  lemma {:induction false} SpellsUnique(msg: seq<byte>, pos: nat, n: Name, h: nat, n': Name, h': nat)
    requires Spells(msg, pos, n, h) && Spells(msg, pos, n', h')
    ensures n == n' && h == h'
    decreases h, |n|
  {
    var lb := msg[pos];
    if lb >= 0xc0 {
      SpellsUnique(msg, Target(lb, msg[pos + 1]), n, h - 1, n', h' - 1);
    } else if lb != 0 {
      SpellsUnique(msg, pos + 1 + lb, n[1..], h, n'[1..], h');
      assert n == [n[0]] + n[1..] && n' == [n'[0]] + n'[1..];
    }
  }

  /** The labels of n stand at pos, one after the other. */
  ghost predicate InPlace(msg: seq<byte>, pos: nat, n: Name)
    decreases |n|
  {
    pos < |msg| &&
    (n != [] ==> pos + 1 + |n[0]| < |msg| && msg[pos] == |n[0]| && msg[pos + 1..pos + 1 + |n[0]|] == n[0] &&
                 InPlace(msg, pos + 1 + |n[0]|, n[1..]))
  }

  /** What follows on the labels of n, a pointer or a label and the byte after it, goes beyond the rem bytes
      that begin at pos. The labels take up no more than `room` bytes. */
  ghost predicate CutAfter(msg: seq<byte>, pos: nat, rem: nat, room: int, n: Name)
  {
    InPlace(msg, pos, n) &&
    var o := Offset(n, |n|);
    o < rem && o <= room && pos + o < |msg| &&
    var b := msg[pos + o];
    (b >= 0xc0 && o + 2 > rem) || (1 <= b <= 63 && o + 1 + b + 1 > rem)
  }

  lemma CutFirst(msg: seq<byte>, pos: nat, rem: nat, room: int, l: Label, n: Name)
    requires |l| + 1 < rem && pos + 1 + |l| < |msg| && msg[pos] == |l| && msg[pos + 1..pos + 1 + |l|] == l
    ensures CutAfter(msg, pos, rem, room, [l] + n) <==> CutAfter(msg, pos + 1 + |l|, rem - 1 - |l|, room - 1 - |l|, n)
  {
    assert ([l] + n)[1..] == n;
  }

  lemma {:induction false} InlineCut(msg: seq<byte>, pos: nat, rem: nat, done: seq<byte>, used: nat) returns (n: Name)
    requires pos < |msg| && rem > 0 && |done| < DNSNAMEBUFSIZE && Inline(msg, pos, rem, done, used) == Failed(RC_TRUNC)
    ensures CutAfter(msg, pos, rem, 255 - |done|, n)
    decreases DNSNAMEBUFSIZE - |done|
  {
    n := [];
    var lb := msg[pos];
    if lb <= 0x3f && rem - 1 > lb {
      var l: Label := msg[pos + 1..pos + 1 + lb];
      n := InlineCut(msg, pos + 1 + lb, rem - 1 - lb, done + [lb] + l, used + 1 + lb);
      CutFirst(msg, pos, rem, 255 - |done|, l, n);
      n := [l] + n;
    }
  }

  lemma {:induction false} CutInline(msg: seq<byte>, pos: nat, rem: nat, done: seq<byte>, used: nat, n: Name)
    requires |done| < DNSNAMEBUFSIZE && CutAfter(msg, pos, rem, 255 - |done|, n)
    ensures pos < |msg| && rem > 0 && Inline(msg, pos, rem, done, used) == Failed(RC_TRUNC)
    decreases |n|
  {
    if n != [] {
      var l := n[0];
      assert n == [l] + n[1..];
      OffsetMonotone(n, 1, |n|);
      CutFirst(msg, pos, rem, 255 - |done|, l, n[1..]);
      CutInline(msg, pos + 1 + |l|, rem - 1 - |l|, done + [|l| as byte] + l, used + 1 + |l|, n[1..]);
    }
  }

  /** Main result on failures: a name is reported as truncated exactly if the data field is empty, or cuts it
      off after some of its labels; every other failure is an error of format. */
  lemma TruncExact(msg: seq<byte>, src: nat, sz: nat)
    ensures Decode(msg, src, sz) == Failed(RC_TRUNC) <==> sz == 0 || exists n: Name :: CutAfter(msg, src, sz, 255, n)
    ensures Decode(msg, src, sz).Failed? ==> Decode(msg, src, sz).rc == RC_TRUNC || Decode(msg, src, sz).rc == RC_FORMAT
  {
    if sz > 0 && Decode(msg, src, sz) == Failed(RC_TRUNC) {
      var n := InlineCut(msg, src, sz, [], 0);
    }
    if n: Name :| CutAfter(msg, src, sz, 255, n) {
      CutInline(msg, src, sz, [], 0, n);
    }
    if sz > 0 && src < |msg| { NotOkCode(msg, src, sz, [], 0); }
  }

  lemma {:induction false} NotOkCode(msg: seq<byte>, pos: nat, rem: nat, done: seq<byte>, used: nat)
    requires pos < |msg| && rem > 0 && |done| < DNSNAMEBUFSIZE
    ensures var r := Inline(msg, pos, rem, done, used); r.Failed? ==> r.rc != RC_OK
    decreases DNSNAMEBUFSIZE - |done|
  {
    var lb := msg[pos];
    if 0 < lb <= 0x3f && rem - 1 > lb && pos + 1 + lb < |msg| && |done| + 1 + lb <= DNSNAMEBUFSIZE - 1 {
      NotOkCode(msg, pos + 1 + lb, rem - 1 - lb, done + [lb] + msg[pos + 1..pos + 1 + lb], used + 1 + lb);
    }
  }

  /** A pointer that points at itself spells nothing: the hop bound is what stops the program. */
  lemma {:induction false} SelfPointerSpellsNothing(msg: seq<byte>, pos: nat, n: Name, h: nat)
    requires pos + 1 < |msg| && msg[pos] >= 0xc0 && Target(msg[pos], msg[pos + 1]) == pos
    ensures !Spells(msg, pos, n, h)
    decreases h
  {
    if h > 0 {
      SelfPointerSpellsNothing(msg, pos, n, h - 1);
    }
  }

  // ----- the program -----

  method DecompressName(msg: seq<byte>, src: nat, sz: nat, tgt: array<byte>)
    returns (rc: Rc, newSrc: nat, newSz: nat, len: nat)
    requires tgt.Length >= DNSNAMEBUFSIZE
    modifies tgt
    ensures forall i :: DNSNAMEBUFSIZE <= i < tgt.Length ==> tgt[i] == old(tgt[i])
    ensures match Decode(msg, src, sz)
            case Failed(e) => rc == e && newSrc == src && newSz == sz
            case Ok(bytes, used) =>
              rc == RC_OK && len == |bytes| <= DNSNAMEBUFSIZE && tgt[..len] == bytes &&
              newSrc == src + used && newSz == sz - used
  {
    if sz == 0 { return RC_TRUNC, src, sz, 0; }
    if src >= |msg| { return RC_FORMAT, src, sz, 0; }
    ghost var whole, done := Inline(msg, src, sz, [], 0), [];
    var lptr: nat, rem: nat, tpos: nat := src, sz, 0;
    while true
      invariant lptr < |msg| && 0 < rem <= sz && tpos < DNSNAMEBUFSIZE
      invariant lptr - src == sz - rem
      invariant tgt[..tpos] == done
      invariant Inline(msg, lptr, rem, done, lptr - src) == whole
      invariant forall i :: DNSNAMEBUFSIZE <= i < tgt.Length ==> tgt[i] == old(tgt[i])
      decreases DNSNAMEBUFSIZE - tpos
    {
      var lb := msg[lptr];
      if lb > 0x3f {
        if lb < 0xc0 { return RC_FORMAT, src, sz, 0; }
        if rem == 1 { return RC_TRUNC, src, sz, 0; }
        if lptr + 1 >= |msg| { return RC_FORMAT, src, sz, 0; }
        var offs := Target(lb, msg[lptr + 1]);
        if offs >= |msg| { return RC_FORMAT, src, sz, 0; }
        var ok;
        ok, len := FollowPointers(msg, offs, tgt, tpos);
        if !ok { return RC_FORMAT, src, sz, 0; }
        return RC_OK, lptr + 2, rem - 2, len;
      }
      tgt[tpos] := lb;
      assert tgt[..tpos + 1] == done + [lb];
      if lb == 0 { return RC_OK, lptr + 1, rem - 1, tpos + 1; }
      if rem - 1 <= lb { return RC_TRUNC, src, sz, 0; }
      if lptr + 1 + lb >= |msg| { return RC_FORMAT, src, sz, 0; }
      if tpos + 1 + lb > DNSNAMEBUFSIZE - 1 { return RC_FORMAT, src, sz, 0; }
      CopyBytes(msg, lptr + 1, tgt, tpos + 1, lb);
      done := done + [lb] + msg[lptr + 1..lptr + 1 + lb];
      lptr, rem, tpos := lptr + 1 + lb, rem - 1 - lb, tpos + 1 + lb;
    }
  }

  /** The second loop. */
  method FollowPointers(msg: seq<byte>, offs: nat, tgt: array<byte>, tpos0: nat)
    returns (ok: bool, len: nat)
    requires offs < |msg| && tpos0 < DNSNAMEBUFSIZE <= tgt.Length
    modifies tgt
    ensures forall i :: DNSNAMEBUFSIZE <= i < tgt.Length ==> tgt[i] == old(tgt[i])
    ensures match Chase(msg, offs, 1, old(tgt[..tpos0]))
            case None => !ok
            case Some(bytes) => ok && len == |bytes| <= DNSNAMEBUFSIZE && tgt[..len] == bytes
  {
    var hops, lptr: nat, tpos: nat := 1, offs, tpos0;
    ghost var done := tgt[..tpos0];
    ghost var whole := Chase(msg, offs, 1, done);
    while true
      invariant lptr < |msg| && 1 <= hops <= MAXHOPS && tpos < DNSNAMEBUFSIZE
      invariant tgt[..tpos] == done
      invariant Chase(msg, lptr, hops, done) == whole
      invariant forall i :: DNSNAMEBUFSIZE <= i < tgt.Length ==> tgt[i] == old(tgt[i])
      decreases MAXHOPS - hops, DNSNAMEBUFSIZE - tpos
    {
      var lb := msg[lptr];
      if lb > 0x3f {
        if lb < 0xc0 { return false, 0; }
        if lptr + 1 >= |msg| { return false, 0; }
        if hops + 1 > MAXHOPS { return false, 0; }
        hops := hops + 1;
        var target := Target(lb, msg[lptr + 1]);
        if target >= |msg| { return false, 0; }
        lptr := target;
      } else {
        tgt[tpos] := lb;
        assert tgt[..tpos + 1] == done + [lb];
        if lb == 0 { return true, tpos + 1; }
        if lptr + 1 + lb >= |msg| { return false, 0; }
        if tpos + 1 + lb > DNSNAMEBUFSIZE - 1 { return false, 0; }
        CopyBytes(msg, lptr + 1, tgt, tpos + 1, lb);
        done := done + [lb] + msg[lptr + 1..lptr + 1 + lb];
        lptr, tpos := lptr + 1 + lb, tpos + 1 + lb;
      }
    }
  }

  /** Both loops' inner loop: copy the bytes of a label. */
  method CopyBytes(msg: seq<byte>, from: nat, tgt: array<byte>, tpos: nat, lb: nat)
    requires from + lb <= |msg| && tpos + lb <= tgt.Length
    modifies tgt
    ensures tgt[..tpos + lb] == old(tgt[..tpos]) + msg[from..from + lb]
    ensures forall i :: tpos + lb <= i < tgt.Length ==> tgt[i] == old(tgt[i])
  {
    var k := 0;
    while k < lb
      invariant k <= lb
      invariant tgt[..tpos + k] == old(tgt[..tpos]) + msg[from..from + k]
      invariant forall i :: tpos + k <= i < tgt.Length ==> tgt[i] == old(tgt[i])
    {
      ghost var before := tgt[..tpos + k];
      tgt[tpos + k] := msg[from + k];
      assert tgt[..tpos + k + 1] == before + [msg[from + k]];
      assert msg[from..from + k + 1] == msg[from..from + k] + [msg[from + k]];
      k := k + 1;
    }
  }
}
