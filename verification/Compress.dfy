/** Name compression (pdnsd/src/dns.c, domain_match and compress_name) and the law at its
    centre: whatever sequence of names is compressed into one message, decompressing at each
    name's place gives the name back, up to ASCII case. */
module Compress {
  import opened Names
  import opened Decompress

  // ----- matching two names from the back -----

  ghost predicate SameFromEnd(a: Name, b: Name, j: nat)
  {
    1 <= j <= |a| && j <= |b| && SameLabel(a[|a| - j], b[|b| - j])
  }

  /** The last k labels of a and b agree up to case. */
  ghost predicate CommonSuffix(a: Name, b: Name, k: nat)
  {
    forall j :: 1 <= j <= k ==> SameFromEnd(a, b, j)
  }

  /** The number of labels in the longest common suffix. */
  ghost function MatchCount(a: Name, b: Name): (k: nat)
    ensures k <= |a| && k <= |b|
  {
    if !SameFromEnd(a, b, 1) then 0 else MatchCount(a[..|a| - 1], b[..|b| - 1]) + 1
  }

  /** It is a common suffix, and no common suffix is longer. */
  lemma {:induction false} MatchCountLongest(a: Name, b: Name, k: nat)
    ensures CommonSuffix(a, b, k) <==> k <= MatchCount(a, b)
  {
    if SameFromEnd(a, b, 1) {
      var a', b' := a[..|a| - 1], b[..|b| - 1];
      if k > 0 {
        MatchCountLongest(a', b', k - 1);
        if CommonSuffix(a', b', k - 1) {
          forall j | 1 <= j <= k ensures SameFromEnd(a, b, j) {
            if j > 1 { assert SameFromEnd(a', b', j - 1); }
          }
        }
        if CommonSuffix(a, b, k) {
          forall j | 1 <= j <= k - 1 ensures SameFromEnd(a', b', j) {
            assert SameFromEnd(a, b, j + 1);
          }
        }
      }
    }
  }

  lemma MatchStep(a: Name, b: Name, k: nat)
    requires k <= MatchCount(a, b)
    ensures k < MatchCount(a, b) <==> SameFromEnd(a, b, k + 1)
  {
    MatchCountLongest(a, b, k);
    MatchCountLongest(a, b, k + 1);
  }

  lemma CommonSuffixNames(a: Name, b: Name, k: nat)
    requires k <= |a| && k <= |b|
    ensures CommonSuffix(a, b, k) <==> SameName(a[|a| - k..], b[|b| - k..])
  {
    var ta, tb := a[|a| - k..], b[|b| - k..];
    if CommonSuffix(a, b, k) {
      forall i | 0 <= i < k ensures SameLabel(ta[i], tb[i]) {
        assert SameFromEnd(a, b, k - i);
      }
    }
    if SameName(ta, tb) {
      forall j | 1 <= j <= k ensures SameFromEnd(a, b, j) {
        assert SameLabel(ta[k - j], tb[k - j]);
      }
    }
  }

  const MAXSEGS := 128

  /** The first loops of domain_match: collect the length bytes of a name. */
  method CollectLengths(s: seq<byte>, ls: array<byte>, ghost n: Name) returns (i: nat, ns: nat)
    requires Wire(n) <= s && |Wire(n)| <= DNSNAMEBUFSIZE && ls.Length == MAXSEGS
    modifies ls
    ensures ns == |n| && i == Offset(n, |n|)
    ensures forall k :: 0 <= k < ns ==> ls[k] == |n[k]|
  {
    i, ns := 0, 0;
    BufferAt(s, n, 0);
    while s[i] != 0
      invariant ns <= |n| && i == Offset(n, ns) < |s|
      invariant s[i] == if ns == |n| then 0 else |n[ns]|
      invariant forall k :: 0 <= k < ns ==> ls[k] == |n[k]|
      decreases |n| - ns
    {
      var lb := s[i];
      ls[ns] := lb;
      BufferAt(s, n, ns);
      ns := ns + 1;
      i := i + (lb + 1);
      BufferAt(s, n, ns);
    }
  }

  /** What a buffer holds just before the start of label k. */
  lemma LabelBefore(s: seq<byte>, n: Name, k: nat)
    requires Wire(n) <= s && 1 <= k <= |n|
    ensures |n[k - 1]| < Offset(n, k) < |s|
    ensures Offset(n, k - 1) == Offset(n, k) - |n[k - 1]| - 1
    ensures s[Offset(n, k) - |n[k - 1]|..Offset(n, k)] == n[k - 1]
  {
    BufferAt(s, n, k - 1);
    BufferAt(s, n, k);
  }

  lemma SameLabelLength(x: Label, y: Label)
    ensures SameLabel(x, y) ==> |x| == |y|
  {
    assert |Fold(x)| == |x| && |Fold(y)| == |y|;
  }

  /** Compare two names back to forth: the number of labels in the longest common suffix, and
      the offsets in both encodings at which it starts. */
  method DomainMatch(ms: seq<byte>, md: seq<byte>, ghost a: Name, ghost b: Name)
    returns (k: nat, os: nat, od: nat)
    requires Wire(a) <= ms && |Wire(a)| <= DNSNAMEBUFSIZE
    requires Wire(b) <= md && |Wire(b)| <= DNSNAMEBUFSIZE
    ensures k == MatchCount(a, b)
    ensures os == Offset(a, |a| - k) && od == Offset(b, |b| - k)
  {
    var ls, ld := new byte[MAXSEGS], new byte[MAXSEGS];
    var i: nat, ns := CollectLengths(ms, ls, a);
    var j: nat, nd := CollectLengths(md, ld, b);
    k, os, od := MatchBack(ms, md, ls, ld, i, j, ns, nd, a, b);
  }

  /** The loop of domain_match, back from the ends of the names at i and j. */
  method MatchBack(ms: seq<byte>, md: seq<byte>, ls: array<byte>, ld: array<byte>, i0: nat, j0: nat, ns: nat, nd: nat,
                   ghost a: Name, ghost b: Name)
    returns (k: nat, os: nat, od: nat)
    requires Wire(a) <= ms && Wire(b) <= md && i0 == Offset(a, |a|) && j0 == Offset(b, |b|)
    requires ns == |a| <= ls.Length && forall m :: 0 <= m < ns ==> ls[m] == |a[m]|
    requires nd == |b| <= ld.Length && forall m :: 0 <= m < nd ==> ld[m] == |b[m]|
    ensures k == MatchCount(a, b)
    ensures os == Offset(a, |a| - k) && od == Offset(b, |b| - k)
  {
    var n, i, j := if ns > nd then nd else ns, i0, j0;
    k := 0;
    while k < n
      invariant k <= n
      invariant k <= MatchCount(a, b)
      invariant i == Offset(a, |a| - k) && j == Offset(b, |b| - k)
      decreases n - k
    {
      var same;
      same, i, j := StepBack(ms, md, i, j, ls[ns - (k + 1)], ld[nd - (k + 1)], a, b, k);
      if !same { break; }
      k := k + 1;
    }
    os, od := i, j;
  }

  /** The body of domain_match's loop: compare the label before i with the one before j. */
  method StepBack(ms: seq<byte>, md: seq<byte>, i: nat, j: nat, la: byte, lb: byte,
                  ghost a: Name, ghost b: Name, ghost k: nat)
    returns (same: bool, i': nat, j': nat)
    requires Wire(a) <= ms && Wire(b) <= md && k < |a| && k < |b| && k <= MatchCount(a, b)
    requires i == Offset(a, |a| - k) && j == Offset(b, |b| - k)
    requires la == |a[|a| - k - 1]| && lb == |b[|b| - k - 1]|
    ensures same <==> k < MatchCount(a, b)
    ensures i' == if same then Offset(a, |a| - k - 1) else i
    ensures j' == if same then Offset(b, |b| - k - 1) else j
  {
    MatchStep(a, b, k);
    LabelBefore(ms, a, |a| - k);
    LabelBefore(md, b, |b| - k);
    same := SameBefore(ms, md, i, j, la, lb, a[|a| - k - 1], b[|b| - k - 1]);
    i', j' := i, j;
    if same { i', j' := i - la - 1, j - la - 1; }
  }

  /** Compare the labels x and y before i and before j. */
  method SameBefore(ms: seq<byte>, md: seq<byte>, i: nat, j: nat, la: byte, lb: byte, ghost x: Label, ghost y: Label)
    returns (same: bool)
    requires la <= i <= |ms| && lb <= j <= |md| && ms[i - la..i] == x && md[j - lb..j] == y
    ensures same <==> SameLabel(x, y)
    ensures same ==> la == lb
  {
    SameLabelLength(x, y);
    if la != lb { return false; }
    same := SameBytesBackwards(ms, md, i, j, la);
  }

  /** The inner loop of domain_match: compare the lb bytes before i and before j. */
  method SameBytesBackwards(ms: seq<byte>, md: seq<byte>, i: nat, j: nat, lb: nat) returns (same: bool)
    requires lb <= i <= |ms| && lb <= j <= |md|
    ensures same <==> Fold(ms[i - lb..i]) == Fold(md[j - lb..j])
  {
    ghost var x: seq<byte>, y: seq<byte> := ms[i - lb..i], md[j - lb..j];
    assert |x| == lb && |y| == lb;
    var left := lb;
    while left > 0
      invariant 0 <= left <= lb
      invariant forall m :: left <= m < lb ==> ToLower(x[m]) == ToLower(y[m])
    {
      assert ms[i - (lb - left) - 1] == x[left - 1] && md[j - (lb - left) - 1] == y[left - 1];
      if ToLower(ms[i - (lb - left) - 1]) != ToLower(md[j - (lb - left) - 1]) {
        assert Fold(x)[left - 1] != Fold(y)[left - 1];
        return false;
      }
      left := left - 1;
    }
    assert Fold(x) == Fold(y);
    return true;
  }

  // ----- what the encoder computes -----

  /** An element of the compression list: a name written earlier, and where. */
  datatype Compel = Compel(index: nat, s: seq<byte>)

  ghost predicate IsName(s: seq<byte>) { exists n: Name :: Wire(n) == s }

  ghost function NameOf(s: seq<byte>): (n: Name)
    requires IsName(s)
    ensures Wire(n) == s
  {
    var n: Name :| Wire(n) == s;
    n
  }

  lemma NameOfWire(n: Name)
    ensures IsName(Wire(n)) && NameOf(Wire(n)) == n
  {
    WirePrefixFree(NameOf(Wire(n)), n, Wire(n));
  }

  ghost predicate ValidList(cb: seq<Compel>)
  {
    forall i :: 0 <= i < |cb| ==> IsName(cb[i].s) && |cb[i].s| <= DNSNAMEBUFSIZE
  }

  /** The largest offset a pointer can hold. */
  const MAXOFFSET := 0x3fff

  /** The candidate that list element e offers for n. */
  ghost function Offer(n: Name, e: Compel): (c: Choice)
    requires IsName(e.s)
  {
    var m := NameOf(e.s);
    var k := MatchCount(n, m);
    Choice(k, Offset(n, |n| - k), e.index + Offset(m, |m| - k))
  }

  datatype Choice = Choice(longest: nat, lrem: nat, coffs: nat)

  /** Only a strictly longer match with an offset that fits replaces the current choice. */
  ghost function Choose(n: Name, cb: seq<Compel>): (c: Choice)
    requires ValidList(cb)
  {
    if cb == [] then Choice(0, 0, 0)
    else
      var before := Choose(n, cb[..|cb| - 1]);
      var offer := Offer(n, cb[|cb| - 1]);
      if offer.longest > before.longest && offer.coffs <= MAXOFFSET then offer else before
  }

  /** A choice is a real match, and the output gets no longer than the input. */
  lemma {:induction false} ChoiceFits(n: Name, cb: seq<Compel>)
    requires ValidList(cb)
    ensures var c := Choose(n, cb);
            c.longest <= |n| &&
            (c.longest > 0 ==> c.coffs <= MAXOFFSET && c.lrem == Offset(n, |n| - c.longest) &&
                               c.lrem + 2 < |Wire(n)|)
  {
    if cb != [] {
      ChoiceFits(n, cb[..|cb| - 1]);
      OfferFits(n, cb[|cb| - 1]);
    }
  }

  lemma OfferFits(n: Name, e: Compel)
    requires IsName(e.s)
    ensures var c := Offer(n, e);
            c.longest <= |n| && c.lrem == Offset(n, |n| - c.longest) && c.lrem + 2 * c.longest < |Wire(n)|
  {
    var k := Offer(n, e).longest;
    OffsetMonotone(n, |n| - k, |n|);
    OffsetEnd(n);
  }

  /** A compression pointer: two set bits and an offset of 14 bits. */
  function PointerTo(offs: nat): (p: seq<byte>)
    requires offs <= MAXOFFSET
    ensures |p| == 2 && p[0] >= 0xc0 && Target(p[0], p[1]) == offs
  {
    [192 + offs / 256, offs % 256]
  }

  /** The bytes written: what is left of the name, then a pointer; or the whole name. */
  ghost function Output(n: Name, cb: seq<Compel>): (out: seq<byte>)
    requires ValidList(cb)
    ensures 0 < |out| <= |Wire(n)|
  {
    ChoiceFits(n, cb);
    var c := Choose(n, cb);
    if c.longest > 0 then Wire(n)[..c.lrem] + PointerTo(c.coffs) else Wire(n)
  }

  /** The list afterwards: a name written as a bare pointer is not added. */
  ghost function Grown(n: Name, cb: seq<Compel>, offs: nat): (r: seq<Compel>)
    requires ValidList(cb)
  {
    var c := Choose(n, cb);
    if c.longest > 0 && c.lrem == 0 then cb else cb + [Compel(offs, Wire(n))]
  }

  /** Part 1 of compress_name: find the best match among the earlier names. */
  method FindMatch(inn: seq<byte>, cb: seq<Compel>, ghost n: Name)
    returns (longest: nat, lrem: nat, coffs: nat)
    requires Wire(n) <= inn && |Wire(n)| <= DNSNAMEBUFSIZE && ValidList(cb)
    ensures Choice(longest, lrem, coffs) == Choose(n, cb)
  {
    longest, lrem, coffs := 0, 0, 0;
    var i := 0;
    while i < |cb|
      invariant 0 <= i <= |cb|
      invariant Choice(longest, lrem, coffs) == Choose(n, cb[..i])
    {
      var rv, rem, to := DomainMatch(inn, cb[i].s, n, NameOf(cb[i].s));
      assert cb[..i + 1][..i] == cb[..i] && cb[..i + 1][i] == cb[i];
      if rv > longest {
        var newoffs := cb[i].index + to;
        if newoffs <= MAXOFFSET {
          longest, lrem, coffs := rv, rem, newoffs;
        }
      }
      i := i + 1;
    }
    assert cb[..i] == cb;
  }

  /** Compress a name; `pos` is where the output buffer is written, `offs` the offset that place
      will have in the message. */
  method CompressName(inn: seq<byte>, out: array<byte>, pos: nat, offs: nat, cb: seq<Compel>, ghost n: Name)
    returns (rl: nat, cb': seq<Compel>)
    requires Wire(n) <= inn && |Wire(n)| <= DNSNAMEBUFSIZE && ValidList(cb)
    requires pos + |Wire(n)| <= out.Length
    modifies out
    ensures rl == |Output(n, cb)| && 0 < rl <= |Wire(n)|
    ensures out[..] == Overwrite(old(out[..]), pos, Output(n, cb))
    ensures cb' == Grown(n, cb, offs) && ValidList(cb')
  {
    var ilen := Rhnlen(inn, n);
    var longest, lrem, coffs := FindMatch(inn, cb, n);
    ChoiceFits(n, cb);
    var add := true;
    if longest > 0 {
      WriteAt(out, pos, inn[..lrem]);
      WriteAt(out, pos + lrem, PointerTo(coffs));
      rl := lrem + 2;
      add := lrem != 0;
      assert inn[..lrem] == Wire(n)[..lrem];
      WriteTwice(old(out[..]), pos, inn[..lrem], PointerTo(coffs));
    } else {
      WriteAt(out, pos, inn[..ilen]);
      rl := ilen;
      assert inn[..ilen] == Wire(n);
    }
    cb' := cb;
    if add {
      NameOfWire(n);
      assert inn[..ilen] == Wire(n);
      cb' := cb + [Compel(offs, inn[..ilen])];
    }
  }

  ghost function Overwrite(b: seq<byte>, pos: nat, w: seq<byte>): seq<byte>
    requires pos + |w| <= |b|
  {
    b[..pos] + w + b[pos + |w|..]
  }

  lemma WriteTwice(b: seq<byte>, pos: nat, u: seq<byte>, w: seq<byte>)
    requires pos + |u| + |w| <= |b|
    ensures Overwrite(Overwrite(b, pos, u), pos + |u|, w) == Overwrite(b, pos, u + w)
  {
  }

  /** memcpy */
  method WriteAt(out: array<byte>, pos: nat, w: seq<byte>)
    requires pos + |w| <= out.Length
    modifies out
    ensures out[..] == Overwrite(old(out[..]), pos, w)
  {
    var k := 0;
    while k < |w|
      invariant k <= |w|
      invariant out[..] == Overwrite(old(out[..]), pos, w[..k])
    {
      ghost var before := out[..];
      out[pos + k] := w[k];
      assert out[..] == Overwrite(before, pos + k, [w[k]]);
      WriteTwice(old(out[..]), pos, w[..k], [w[k]]);
      assert w[..k + 1] == w[..k] + [w[k]];
      k := k + 1;
    }
    assert w[..k] == w;
  }
}
