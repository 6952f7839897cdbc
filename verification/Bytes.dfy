/** Numbers as bytes: fixed-width little- and big-endian numbers, and the shortest two's-complement form
    in which arbitrary-precision integers are stored. */
module Bytes {

  type byte = x: int | 0 <= x < 256

  function Pow256(n: nat): (p: nat)
    ensures p >= 1
  {
    if n == 0 then 1 else 256 * Pow256(n - 1)
  }

  /** The low `n` bytes of `v`, the lowest first. */
  function LeBytes(v: nat, n: nat): (s: seq<byte>)
    ensures |s| == n
  {
    if n == 0 then [] else [v % 256] + LeBytes(v / 256, n - 1)
  }

  function LeValue(s: seq<byte>): nat {
    if s == [] then 0 else s[0] + 256 * LeValue(s[1..])
  }

  function BeValue(s: seq<byte>): nat {
    if s == [] then 0 else 256 * BeValue(s[..|s| - 1]) + s[|s| - 1]
  }

  function Reversed(s: seq<byte>): (r: seq<byte>)
    ensures |r| == |s|
  {
    seq(|s|, i requires 0 <= i < |s| => s[|s| - 1 - i])
  }

  function Filled(n: nat, b: byte): seq<byte> {
    seq(n, _ => b)
  }

  /** A natural number in as few bytes as it needs, at least one, the lowest first. */
  function NatBytes(v: nat): (s: seq<byte>)
    ensures |s| >= 1
  {
    if v < 256 then [v] else [v % 256] + NatBytes(v / 256)
  }

  /** An integer in two's complement, in as few bytes as keep its sign, the lowest first. */
  function SignedBytes(v: int): (s: seq<byte>)
    ensures |s| >= 1
    decreases if v < 0 then -v else v
  {
    if -128 <= v < 128 then [v % 256] else [v % 256] + SignedBytes(v / 256)
  }

  /** The integer that bytes in two's complement stand for; no bytes stand for zero. */
  function SignedValue(s: seq<byte>): int {
    if s == [] then 0
    else if s[|s| - 1] > 127 then LeValue(s) - Pow256(|s|)
    else LeValue(s)
  }

  /** The integers that fit in `n` bytes of two's complement. */
  predicate FitsSigned(v: int, n: nat) {
    n >= 1 && -128 * Pow256(n - 1) <= v < 128 * Pow256(n - 1)
  }

  lemma {:induction false} Pow256Grows(a: nat, b: nat)
    requires a <= b
    ensures Pow256(a) <= Pow256(b)
    decreases b
  {
    if a < b { Pow256Grows(a, b - 1); }
  }

  // ----- unsigned -----

  lemma {:induction false} LeRoundTrip(v: nat, n: nat)
    requires v < Pow256(n)
    ensures LeValue(LeBytes(v, n)) == v
  {
    if n > 0 {
      LeRoundTrip(v / 256, n - 1);
      assert LeBytes(v, n)[1..] == LeBytes(v / 256, n - 1);
    }
  }

  lemma {:induction false} LeBounds(s: seq<byte>)
    ensures LeValue(s) < Pow256(|s|)
    ensures LeBytes(LeValue(s), |s|) == s
  {
    if s != [] {
      LeBounds(s[1..]);
      FirstByte(s[0], LeValue(s[1..]), LeValue(s));
      assert s == [s[0]] + s[1..];
    }
  }

  lemma FirstByte(b: byte, rest: nat, v: nat)
    requires v == b as int + 256 * rest
    ensures v % 256 == b as int && v / 256 == rest
  {
  }

  /** A number's bytes are determined by their count and the number. */
  lemma LeInjective(s: seq<byte>, t: seq<byte>)
    requires |s| == |t| && LeValue(s) == LeValue(t)
    ensures s == t
  {
    LeBounds(s);
    LeBounds(t);
  }

  lemma {:induction false} BeIsReversed(s: seq<byte>)
    ensures BeValue(Reversed(s)) == LeValue(s)
  {
    if s != [] {
      assert Reversed(s)[..|s| - 1] == Reversed(s[1..]);
      BeIsReversed(s[1..]);
    }
  }

  lemma ReversedTwice(s: seq<byte>)
    ensures Reversed(Reversed(s)) == s
  {
  }

  lemma BeInjective(s: seq<byte>, t: seq<byte>)
    requires |s| == |t| && BeValue(s) == BeValue(t)
    ensures s == t
  {
    ReversedTwice(s);
    ReversedTwice(t);
    BeIsReversed(Reversed(s));
    BeIsReversed(Reversed(t));
    LeInjective(Reversed(s), Reversed(t));
  }

  lemma {:induction false} NatBytesValue(v: nat)
    ensures LeValue(NatBytes(v)) == v
  {
    if v >= 256 {
      NatBytesValue(v / 256);
      assert NatBytes(v)[1..] == NatBytes(v / 256);
    }
  }

  /** As few bytes as the number needs. */
  lemma {:induction false} NatBytesFit(v: nat, n: nat)
    requires n >= 1
    ensures |NatBytes(v)| <= n <==> v < Pow256(n)
    decreases n
  {
    assert Pow256(1) == 256 * Pow256(0);
    if v >= 256 {
      if n == 1 {
        assert |NatBytes(v)| >= 2;
      } else {
        NatBytesFit(v / 256, n - 1);
      }
    } else {
      }
  }

  lemma {:induction false} LeValueSplit(s: seq<byte>, t: seq<byte>)
    ensures LeValue(s + t) == LeValue(s) + Pow256(|s|) * LeValue(t)
  {
    if s == [] {
      assert s + t == t;
    } else {
      assert (s + t)[1..] == s[1..] + t && (s + t)[0] == s[0];
      LeValueSplit(s[1..], t);
      Distribute(s[0], LeValue(s[1..]), Pow256(|s| - 1), LeValue(t));
    }
  }

  lemma Distribute(a: int, b: int, p: int, x: int)
    ensures a + 256 * (b + p * x) == (a + 256 * b) + (256 * p) * x
  {
  }

  lemma {:induction false} LeValueFilled(n: nat)
    ensures LeValue(Filled(n, 0)) == 0
    ensures LeValue(Filled(n, 255)) == Pow256(n) - 1
  {
    if n > 0 {
      assert Filled(n, 0)[1..] == Filled(n - 1, 0) && Filled(n, 255)[1..] == Filled(n - 1, 255);
      LeValueFilled(n - 1);
    }
  }

  lemma {:induction false} Pow256Add(a: nat, b: nat)
    ensures Pow256(a + b) == Pow256(a) * Pow256(b)
  {
    if a > 0 {
      Pow256Add(a - 1, b);
      var p, x := Pow256(a - 1), Pow256(b);
      assert 256 * (p * x) == (256 * p) * x;
    }
  }

  // ----- two's complement -----

  /** Dropping the lowest byte divides by 256, rounding down. */
  lemma SignedStep(s: seq<byte>)
    requires |s| >= 2
    ensures SignedValue(s) == s[0] + 256 * SignedValue(s[1..])
  {
    assert s[1..][|s| - 2] == s[|s| - 1];
  }

  lemma OneByte(b: byte)
    ensures LeValue([b]) == b
  {
    assert [b][1..] == [];
  }

  lemma {:induction false} SignedRoundTrip(v: int)
    ensures SignedValue(SignedBytes(v)) == v
    decreases if v < 0 then -v else v
  {
    if -128 <= v < 128 {
      OneByte(v % 256);
      assert Pow256(1) == 256 * Pow256(0);
    } else {
      SignedRoundTrip(v / 256);
      SignedStep(SignedBytes(v));
      assert SignedBytes(v)[1..] == SignedBytes(v / 256);
    }
  }

  /** As few bytes as keep the sign. */
  lemma {:induction false} SignedBytesFit(v: int, n: nat)
    requires n >= 1
    ensures |SignedBytes(v)| <= n <==> FitsSigned(v, n)
    decreases n
  {
    assert Pow256(0) == 1;
    if !(-128 <= v < 128) {
      if n == 1 {
        assert |SignedBytes(v)| >= 2;
      } else {
        SignedBytesFit(v / 256, n - 1);
      }
    }
  }

  lemma SignedBytesSign(v: int)
    ensures var s := SignedBytes(v); s[|s| - 1] > 127 <==> v < 0
    decreases if v < 0 then -v else v
  {
    if !(-128 <= v < 128) {
      SignedBytesSign(v / 256);
    }
  }

  lemma LessOne(p: int, q: int)
    ensures p * (q - 1) == p * q - p
  {
  }

  /** Repeating the sign byte keeps the integer. */
  lemma SignExtend(s: seq<byte>, n: nat)
    requires s != []
    ensures SignedValue(s + Filled(n, if s[|s| - 1] > 127 then 255 else 0)) == SignedValue(s)
  {
    var b: byte := if s[|s| - 1] > 127 then 255 else 0;
    var t := s + Filled(n, b);
    LeValueSplit(s, Filled(n, b));
    LeValueFilled(n);
    Pow256Add(|s|, n);
    assert t[|t| - 1] == if n == 0 then s[|s| - 1] else b;
    if b == 255 { LessOne(Pow256(|s|), Pow256(n)); }
  }

  /** Every byte string of `n` bytes stands for an integer that fits in `n` bytes. */
  lemma SignedBounds(s: seq<byte>)
    requires s != []
    ensures FitsSigned(SignedValue(s), |s|)
    ensures (SignedValue(s) < 0) == (s[|s| - 1] > 127)
  {
    var n := |s| - 1;
    assert s == s[..n] + [s[n]];
    LeValueSplit(s[..n], [s[n]]);
    LeBounds(s[..n]);
    OneByte(s[n]);
    TopByte(LeValue(s[..n]), Pow256(n), s[n]);
  }

  lemma TopByte(low: nat, p: nat, top: byte)
    requires low < p
    ensures top > 127 ==> -128 * p <= low + p * top - 256 * p < 0
    ensures top <= 127 ==> 0 <= low + p * top < 128 * p
  {
    if top > 127 {
      Scales(p, 128, top);
      Scales(p, top, 255);
    } else {
      Scales(p, 0, top);
      Scales(p, top, 127);
    }
  }

  lemma Scales(p: nat, a: int, b: int)
    requires a <= b
    ensures p * a <= p * b
  {
  }
}
