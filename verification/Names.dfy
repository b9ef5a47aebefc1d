/** Domain names in length-byte string notation ("rhn"), and the primitives of
    pdnsd/src/helpers.h that every other part of pdnsd rests on.

    A name is a sequence of labels; `Wire` is its encoding: each label preceded by
    its length, and a zero byte at the end. */
module Names {

  type byte = x: int | 0 <= x < 256

  /** A label has 1 to 63 bytes, so a length byte can be told from a compression pointer. */
  type Label = l: seq<byte> | 1 <= |l| <= 63 witness [0]

  type Name = seq<Label>

  /** Size of the buffers that hold a name, including the terminating zero byte. */
  const DNSNAMEBUFSIZE := 256

  function Min(a: int, b: int): int { if a <= b then a else b }

  // ----- encoding -----

  ghost function Wire(n: Name): (w: seq<byte>)
    ensures |w| >= 1 + 2 * |n|
  {
    if n == [] then [0] else [|n[0]| as byte] + n[0] + Wire(n[1..])
  }

  /** Offset in `Wire(n)` at which label number k (or the final zero byte) starts. */
  ghost function Offset(n: Name, k: nat): (o: nat)
    requires k <= |n|
    ensures o >= 2 * k
    decreases k
  {
    if k == 0 then 0 else 1 + |n[0]| + Offset(n[1..], k - 1)
  }

  /** The encoding of a name from label k on is the tail of its encoding. */
  lemma {:induction false} WireFrom(n: Name, k: nat)
    requires k <= |n|
    ensures Offset(n, k) < |Wire(n)|
    ensures Wire(n)[Offset(n, k)..] == Wire(n[k..])
    decreases k
  {
    if k == 0 {
      assert n[0..] == n;
      assert Wire(n)[0..] == Wire(n);
    } else {
      WireFrom(n[1..], k - 1);
      assert n[1..][k - 1..] == n[k..];
      var o := Offset(n[1..], k - 1);
      var h := [|n[0]| as byte] + n[0];
      assert Wire(n) == h + Wire(n[1..]);
      assert Wire(n)[|h| + o..] == Wire(n[1..])[o..];
    }
  }

  /** One label further on. */
  lemma {:induction false} OffsetStep(n: Name, k: nat)
    requires k < |n|
    ensures Offset(n, k + 1) == Offset(n, k) + 1 + |n[k]|
    decreases k
  {
    if k > 0 {
      OffsetStep(n[1..], k - 1);
      assert n[1..][k - 1] == n[k];
    }
  }

  lemma {:induction false} OffsetMonotone(n: Name, j: nat, k: nat)
    requires j <= k <= |n|
    ensures Offset(n, j) + 2 * (k - j) <= Offset(n, k)
    decreases k - j
  {
    if j < k {
      OffsetStep(n, k - 1);
      OffsetMonotone(n, j, k - 1);
    }
  }

  lemma OffsetEnd(n: Name)
    ensures Offset(n, |n|) == |Wire(n)| - 1
  {
    WireFrom(n, |n|);
    assert n[|n|..] == [];
  }

  lemma SliceOfRest(w: seq<byte>, t: seq<byte>, from: nat, o: nat, l: nat)
    requires from <= |w| && w[from..] == t && o + 1 + l <= |t|
    ensures w[from + o] == t[o] && w[from + o + 1..from + o + 1 + l] == t[o + 1..o + 1 + l]
  {
    var a, b := w[from + o + 1..from + o + 1 + l], t[o + 1..o + 1 + l];
    forall i | 0 <= i < l ensures a[i] == b[i] {
      assert a[i] == w[from..][o + 1 + i];
    }
  }

  /** What stands at the start of label k: its length byte, then its bytes. */
  lemma {:induction false} WireAt(n: Name, k: nat)
    requires k <= |n|
    ensures Offset(n, k) < |Wire(n)|
    ensures Wire(n)[Offset(n, k)] == if k == |n| then 0 else |n[k]|
    ensures k < |n| ==> Offset(n, k) + 1 + |n[k]| < |Wire(n)|
    ensures k < |n| ==> Wire(n)[Offset(n, k) + 1..Offset(n, k) + 1 + |n[k]|] == n[k]
    decreases k
  {
    if k > 0 {
      WireAt(n[1..], k - 1);
      var l, o, t := |n[0]|, Offset(n[1..], k - 1), Wire(n[1..]);
      assert Wire(n)[1 + l..] == t;
      SliceOfRest(Wire(n), t, 1 + l, o, if k < |n| then |n[k]| else 0);
    } else if n != [] {
      assert Wire(n)[1..1 + |n[0]|] == n[0];
    }
  }

  /** No encoding is a proper prefix of another: a reader always knows where a name ends. */
  lemma {:induction false} WirePrefixFree(a: Name, b: Name, x: seq<byte>)
    requires Wire(a) <= x && Wire(b) <= x
    ensures a == b
  {
    assert x[0] == Wire(a)[0] == Wire(b)[0];
    if a != [] {
      var l := |a[0]|;
      assert |b[0]| == l;
      assert a[0] == Wire(a)[1..1 + l] == x[1..1 + l] == Wire(b)[1..1 + l] == b[0];
      assert Wire(a)[1 + l..] == Wire(a[1..]) && Wire(b)[1 + l..] == Wire(b[1..]);
      WirePrefixFree(a[1..], b[1..], x[1 + l..]);
    }
  }

  /** Prepending labels. */
  lemma WireCons(l: Label, n: Name)
    ensures Wire([l] + n) == [|l| as byte] + l + Wire(n)
  {
    assert ([l] + n)[1..] == n;
  }

  lemma {:induction false} WireConcat(a: Name, b: Name)
    ensures Wire(a + b) == Wire(a)[..|Wire(a)| - 1] + Wire(b)
  {
    if a == [] {
      assert a + b == b;
    } else {
      WireConcat(a[1..], b);
      assert (a + b)[1..] == a[1..] + b;
      var h := [|a[0]| as byte] + a[0];
      assert Wire(a) == h + Wire(a[1..]);
      assert Wire(a)[..|Wire(a)| - 1] == h + Wire(a[1..])[..|Wire(a[1..])| - 1];
    }
  }

  // ----- comparison up to ASCII case -----

  function ToLower(c: byte): (r: byte) { if 65 <= c <= 90 then c + 32 else c }

  function ToUpper(c: byte): (r: byte) { if 97 <= c <= 122 then c - 32 else c }

  ghost function Fold(s: seq<byte>): (r: seq<byte>)
    ensures |r| == |s|
    ensures forall i :: 0 <= i < |s| ==> r[i] == ToLower(s[i])
  {
    seq(|s|, i requires 0 <= i < |s| => ToLower(s[i]))
  }

  ghost predicate SameLabel(a: Label, b: Label) { Fold(a) == Fold(b) }

  /** Two names are the same when they have the same labels up to case. */
  ghost predicate SameName(a: Name, b: Name)
  {
    |a| == |b| && forall k :: 0 <= k < |a| ==> SameLabel(a[k], b[k])
  }

  lemma SameTail(a: Name, b: Name)
    requires SameName(a, b) && a != []
    ensures SameName(a[1..], b[1..])
  {
    forall k | 0 <= k < |a[1..]| ensures SameLabel(a[1..][k], b[1..][k]) {
      assert SameLabel(a[1 + k], b[1 + k]);
    }
  }

  lemma {:induction false} SameNameLength(a: Name, b: Name)
    requires SameName(a, b)
    ensures |Wire(a)| == |Wire(b)|
  {
    if a != [] {
      assert SameLabel(a[0], b[0]);
      SameTail(a, b);
      SameNameLength(a[1..], b[1..]);
    }
  }

  lemma {:induction false} SameNameOffset(a: Name, b: Name, k: nat)
    requires SameName(a, b) && k <= |a|
    ensures Offset(a, k) == Offset(b, k)
    decreases k
  {
    if k > 0 {
      OffsetStep(a, k - 1);
      OffsetStep(b, k - 1);
      assert SameLabel(a[k - 1], b[k - 1]);
      SameNameOffset(a, b, k - 1);
    }
  }

  lemma FoldConcat(a: seq<byte>, b: seq<byte>)
    ensures Fold(a + b) == Fold(a) + Fold(b)
  {
  }

  lemma FoldHead(l: byte, a: seq<byte>, t: seq<byte>)
    requires l <= 63
    ensures Fold([l] + a + t) == [l] + Fold(a) + Fold(t)
  {
    FoldConcat([l] + a, t);
    FoldConcat([l], a);
  }

  lemma SeqParts<T>(x: T, a: seq<T>, t: seq<T>, y: T, b: seq<T>, u: seq<T>)
    requires x == y ==> |a| == |b|
    ensures [x] + a + t == [y] + b + u <==> x == y && a == b && t == u
  {
    var p, q := [x] + a + t, [y] + b + u;
    if p == q {
      assert p[0] == x && q[0] == y;
      assert a == p[1..1 + |a|] && b == q[1..1 + |b|];
      assert t == p[1 + |a|..] && u == q[1 + |b|..];
    }
  }

  /** Comparing encodings byte by byte without regard to case compares the names: a length
      byte is at most 63 and so is never confused with a letter. */
  lemma {:induction false} FoldWire(a: Name, b: Name)
    ensures Fold(Wire(a)) == Fold(Wire(b)) <==> SameName(a, b)
  {
    if a == [] || b == [] {
      assert a != b ==> Fold(Wire(a))[0] != Fold(Wire(b))[0];
    } else {
      FoldWire(a[1..], b[1..]);
      FoldHead(|a[0]|, a[0], Wire(a[1..]));
      FoldHead(|b[0]|, b[0], Wire(b[1..]));
      SeqParts(|a[0]|, Fold(a[0]), Fold(Wire(a[1..])), |b[0]|, Fold(b[0]), Fold(Wire(b[1..])));
      if SameName(a, b) {
        SameTail(a, b);
        assert SameLabel(a[0], b[0]);
      }
      if SameLabel(a[0], b[0]) && SameName(a[1..], b[1..]) {
        forall k | 0 <= k < |a| ensures SameLabel(a[k], b[k]) {
          if k > 0 {
            assert SameLabel(a[1..][k - 1], b[1..][k - 1]);
          }
        }
      }
    }
  }

  // ----- the primitives -----

  /** Total length of the name at the start of a buffer, terminating zero byte included. */
  method Rhnlen(rhn: seq<byte>, ghost n: Name) returns (i: nat)
    requires Wire(n) <= rhn
    ensures i == |Wire(n)|
  {
    i := 0;
    ghost var k := 0;
    WireAt(n, 0);
    var lb := rhn[i];
    i := i + 1;
    while lb != 0
      invariant 0 <= k <= |n|
      invariant i == Offset(n, k) + 1 <= |Wire(n)|
      invariant lb == Wire(n)[Offset(n, k)]
      decreases |n| - k
    {
      WireAt(n, k);
      OffsetStep(n, k);
      i := i + lb;
      WireAt(n, k + 1);
      lb := rhn[i];
      i := i + 1;
      k := k + 1;
    }
    WireAt(n, k);
    OffsetEnd(n);
  }

  /** Number of labels of the name at the start of a buffer. */
  method Rhnsegcnt(rhn: seq<byte>, ghost n: Name) returns (res: nat)
    requires Wire(n) <= rhn
    ensures res == |n|
  {
    res := 0;
    var p: nat := 0;
    WireAt(n, 0);
    while rhn[p] != 0
      invariant res <= |n| && p == Offset(n, res) < |Wire(n)|
      invariant rhn[p] == Wire(n)[p]
      decreases |n| - res
    {
      WireAt(n, res);
      OffsetStep(n, res);
      WireAt(n, res + 1);
      p := p + 1 + rhn[p];
      res := res + 1;
    }
    WireAt(n, res);
  }

  /** Skip k labels, or as many as there are: what follows is the name without them. */
  method Skipsegs(rhn: seq<byte>, k: nat, ghost n: Name) returns (p: nat)
    requires Wire(n) <= rhn
    ensures p <= |rhn| && Wire(n[Min(k, |n|)..]) <= rhn[p..]
    ensures p == Offset(n, Min(k, |n|))
  {
    p := 0;
    var left := k;
    ghost var done := 0;
    WireAt(n, 0);
    while left > 0 && rhn[p] != 0
      invariant done <= |n| && done + left == k
      invariant p == Offset(n, done) < |Wire(n)|
    {
      WireAt(n, done);
      OffsetStep(n, done);
      p := p + rhn[p] + 1;
      done := done + 1;
      left := left - 1;
      WireAt(n, done);
    }
    WireAt(n, done);
    assert done == Min(k, |n|);
    WireFrom(n, done);
    assert Wire(n)[p..] <= rhn[p..];
  }

  /** The inner loop of `Rhnicmp`: compare lb bytes ignoring case. */
  method SameBytes(a: seq<byte>, b: seq<byte>, i: nat, lb: nat) returns (same: bool)
    requires i + lb <= |a| && i + lb <= |b|
    ensures same <==> Fold(a[i..i + lb]) == Fold(b[i..i + lb])
  {
    var j := 0;
    while j < lb
      invariant j <= lb
      invariant forall m {:trigger Fold(a[i..i + lb])[m]} :: 0 <= m < j ==> Fold(a[i..i + lb])[m] == Fold(b[i..i + lb])[m]
    {
      assert Fold(a[i..i + lb])[j] == ToLower(a[i + j]) && Fold(b[i..i + lb])[j] == ToLower(b[i + j]);
      if ToLower(a[i + j]) != ToLower(b[i + j]) { return false; }
      j := j + 1;
    }
    return true;
  }

  /** What a buffer that starts with a name holds at the start of label k. */
  lemma BufferAt(a: seq<byte>, n: Name, k: nat)
    requires Wire(n) <= a && k <= |n|
    ensures Offset(n, k) < |a|
    ensures a[Offset(n, k)] == if k == |n| then 0 else |n[k]|
    ensures k < |n| ==> Offset(n, k + 1) == Offset(n, k) + 1 + |n[k]| < |a|
    ensures k < |n| ==> a[Offset(n, k) + 1..Offset(n, k + 1)] == n[k]
  {
    WireAt(n, k);
    if k < |n| {
      OffsetStep(n, k);
      var o := Offset(n, k);
      assert a[o + 1..o + 1 + |n[k]|] == Wire(n)[o + 1..o + 1 + |n[k]|];
    }
  }

  /** The body of `Rhnicmp`'s loop: compare the labels, or the final zero bytes, at i. */
  method SameLabelAt(a: seq<byte>, b: seq<byte>, i: nat, ghost na: Name, ghost nb: Name, ghost k: nat)
    returns (same: bool, lb: byte)
    requires Wire(na) <= a && Wire(nb) <= b && k <= |na| && k <= |nb|
    requires i == Offset(na, k) == Offset(nb, k)
    ensures same ==> lb == (if k < |na| then |na[k]| else 0) == (if k < |nb| then |nb[k]| else 0)
    ensures same <==> (k == |na| && k == |nb|) || (k < |na| && k < |nb| && SameLabel(na[k], nb[k]))
  {
    BufferAt(a, na, k);
    BufferAt(b, nb, k);
    lb := a[i];
    if lb != b[i] {
      if k < |na| && k < |nb| {
        assert |Fold(na[k])| == |na[k]| && |Fold(nb[k])| == |nb[k]|;
      }
      return false, lb;
    }
    if lb == 0 { return true, lb; }
    same := SameBytes(a, b, i + 1, lb);
  }

  /** Compare two names ignoring case; each buffer may hold more than the name. */
  method Rhnicmp(a: seq<byte>, b: seq<byte>, ghost na: Name, ghost nb: Name) returns (same: bool)
    requires Wire(na) <= a && Wire(nb) <= b
    ensures same <==> SameName(na, nb)
  {
    var i: nat := 0;
    ghost var k := 0;
    while true
      invariant k <= |na| && k <= |nb|
      invariant i == Offset(na, k) == Offset(nb, k)
      invariant forall j :: 0 <= j < k ==> SameLabel(na[j], nb[j])
      decreases |na| - k
    {
      var eq, lb := SameLabelAt(a, b, i, na, nb, k);
      if !eq { return false; }
      if lb == 0 { return true; }
      OffsetStep(na, k);
      OffsetStep(nb, k);
      i := i + (1 + lb);
      k := k + 1;
    }
  }
}
