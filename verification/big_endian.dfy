/**
 Unsigned big-endian byte strings: the number a string denotes, the minimal
 string of a number (`to_bytes_be`, with no leading zero byte and no bytes
 at all for 0), and the ordering of such strings as magnitudes.
 */
module BigEndian {
  import opened RustCore

  /** The number a big-endian byte string denotes. */
  function FromBytesBE(bs: seq<u8>): (v: nat)
  {
    if bs == [] then 0 else FromBytesBE(bs[..|bs| - 1]) * 256 + bs[|bs| - 1]
  }

  /** The minimal big-endian bytes of `v`. */
  function ToBytesBE(v: nat): (bs: seq<u8>)
    decreases v
    ensures FromBytesBE(bs) == v
    ensures |bs| > 0 ==> bs[0] != 0
  {
    if v == 0 then [] else
      var prefix := ToBytesBE(v / 256);
      var bs := prefix + [v % 256];
      assert bs[..|bs| - 1] == prefix;
      bs
  }

  function Pow256(n: nat): (p: nat)
  {
    if n == 0 then 1 else 256 * Pow256(n - 1)
  }

  lemma {:induction false} Pow256Positive(n: nat)
    ensures Pow256(n) >= 1
  {
    if n > 0 {
      Pow256Positive(n - 1);
    }
  }

  /** `v` needs at most `n` bytes exactly when it is below 256^n. */
  lemma {:induction false} ByteLengthBound(v: nat, n: nat)
    ensures |ToBytesBE(v)| <= n <==> v < Pow256(n)
    decreases n
  {
    Pow256Positive(n);
    if v != 0 {
      if n == 0 {
        assert |ToBytesBE(v)| >= 1;
      } else {
        ByteLengthBound(v / 256, n - 1);
        Pow256Positive(n - 1);
        var p := Pow256(n - 1);
        assert v / 256 < p <==> v < 256 * p;
      }
    }
  }

  /** Leading zero bytes do not change the number denoted. */
  lemma {:induction false} LeadingZerosIgnored(zeros: seq<u8>, bs: seq<u8>)
    requires forall i :: 0 <= i < |zeros| ==> zeros[i] == 0
    ensures FromBytesBE(zeros + bs) == FromBytesBE(bs)
    decreases |bs|
  {
    if bs == [] {
      assert zeros + bs == zeros;
      AllZerosDenoteZero(zeros);
    } else {
      var all := zeros + bs;
      assert all[..|all| - 1] == zeros + bs[..|bs| - 1];
      LeadingZerosIgnored(zeros, bs[..|bs| - 1]);
    }
  }

  lemma {:induction false} AllZerosDenoteZero(zeros: seq<u8>)
    requires forall i :: 0 <= i < |zeros| ==> zeros[i] == 0
    ensures FromBytesBE(zeros) == 0
    decreases |zeros|
  {
    if zeros != [] {
      AllZerosDenoteZero(zeros[..|zeros| - 1]);
    }
  }

  /** An `n`-byte string denotes a number below 256^n. */
  lemma {:induction false} FromBytesBEBound(bs: seq<u8>)
    ensures FromBytesBE(bs) < Pow256(|bs|)
    decreases |bs|
  {
    if bs != [] {
      var init := bs[..|bs| - 1];
      FromBytesBEBound(init);
      var p := Pow256(|init|);
      assert FromBytesBE(init) <= p - 1;
      assert FromBytesBE(init) * 256 <= (p - 1) * 256;
    }
  }

  /** Reading a string from its first byte: that byte weighs 256^(n-1). */
  lemma {:induction false} FromBytesBEFront(bs: seq<u8>)
    requires |bs| > 0
    ensures FromBytesBE(bs) == bs[0] * Pow256(|bs| - 1) + FromBytesBE(bs[1..])
    decreases |bs|
  {
    var n := |bs|;
    if n == 1 {
      assert bs[..0] == [];
      assert bs[1..] == [];
    } else {
      var init := bs[..n - 1];
      FromBytesBEFront(init);
      assert init[0] == bs[0];
      assert bs[1..][..n - 2] == init[1..];
      var p := Pow256(n - 2);
      var a := bs[0];
      var b := FromBytesBE(init[1..]);
      assert FromBytesBE(bs) == (a * p + b) * 256 + bs[n - 1];
      assert (a * p + b) * 256 == a * (256 * p) + b * 256;
    }
  }

  /** A minimal string of `n > 0` bytes denotes at least 256^(n-1). */
  lemma MinimalLengthLowerBound(v: nat)
    requires |ToBytesBE(v)| > 0
    ensures Pow256(|ToBytesBE(v)| - 1) <= v
  {
    ByteLengthBound(v, |ToBytesBE(v)| - 1);
  }

  // ---------------------------------------------------------------------
  // Ordering of big-endian magnitudes
  // ---------------------------------------------------------------------

  /** Byte-by-byte comparison of two strings of equal length. */
  function CmpLex(x: seq<u8>, y: seq<u8>): (r: Ordering)
    requires |x| == |y|
  {
    if x == [] then Equal
    else if x[0] < y[0] then Less
    else if x[0] > y[0] then Greater
    else CmpLex(x[1..], y[1..])
  }

  /** Comparison of minimal big-endian strings as magnitudes: a longer string
      is larger; strings of one length compare byte by byte. */
  function CmpBytesBE(x: seq<u8>, y: seq<u8>): (r: Ordering)
  {
    if |x| != |y| then CmpInt(|x|, |y|) else CmpLex(x, y)
  }

  /** A larger leading digit outweighs whatever follows it. */
  lemma LeadingDigitDominates(a: nat, b: nat, p: nat, r: nat, s: nat)
    requires a < b && r < p
    ensures a * p + r < b * p + s
  {
    assert (b - a) * p >= p by {
      assert b - a >= 1;
    }
    assert b * p - a * p == (b - a) * p;
  }

  /** On strings of equal length, byte-by-byte order is numeric order. */
  lemma {:induction false} CmpLexIsNumeric(x: seq<u8>, y: seq<u8>)
    requires |x| == |y|
    ensures CmpLex(x, y) == CmpInt(FromBytesBE(x), FromBytesBE(y))
    decreases |x|
  {
    if x != [] {
      FromBytesBEFront(x);
      FromBytesBEFront(y);
      FromBytesBEBound(x[1..]);
      FromBytesBEBound(y[1..]);
      var p := Pow256(|x| - 1);
      var rx, ry := FromBytesBE(x[1..]), FromBytesBE(y[1..]);
      if x[0] < y[0] {
        LeadingDigitDominates(x[0], y[0], p, rx, ry);
      } else if x[0] > y[0] {
        LeadingDigitDominates(y[0], x[0], p, ry, rx);
      } else {
        CmpLexIsNumeric(x[1..], y[1..]);
      }
    }
  }

  /** Comparing the minimal big-endian bytes of two numbers as magnitudes
      orders them as the numbers themselves. */
  lemma BytesOrderIsNumericOrder(a: nat, b: nat)
    ensures CmpBytesBE(ToBytesBE(a), ToBytesBE(b)) == CmpInt(a, b)
  {
    var x, y := ToBytesBE(a), ToBytesBE(b);
    if |x| < |y| {
      ShorterIsSmaller(a, b);
    } else if |x| > |y| {
      ShorterIsSmaller(b, a);
    } else {
      CmpLexIsNumeric(x, y);
    }
  }

  /** A number with fewer minimal bytes is the smaller one. */
  lemma ShorterIsSmaller(a: nat, b: nat)
    requires |ToBytesBE(a)| < |ToBytesBE(b)|
    ensures a < b
  {
    var m, n := |ToBytesBE(a)|, |ToBytesBE(b)|;
    ByteLengthBound(a, m);
    MinimalLengthLowerBound(b);
    PowMonotone(m, n - 1);
  }

  lemma {:induction false} PowMonotone(m: nat, n: nat)
    requires m <= n
    ensures Pow256(m) <= Pow256(n)
    decreases n
  {
    if m < n {
      PowMonotone(m, n - 1);
      Pow256Positive(n - 1);
    }
  }
}
