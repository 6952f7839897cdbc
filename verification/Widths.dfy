/** The limits that other modules write out are those of the program's integer types: 64-bit blocks, signed 64-bit
    block columns, exponents and orders, 32-bit counts and pointers. */
module Widths {
  import opened ChainModel
  import opened Bytes
  import opened BigDecimal
  import opened HeapLayout

  lemma Powers()
    ensures Pow256(3) == 0x100_0000 && Pow256(4) == 0x1_0000_0000
    ensures Pow256(7) == 0x100_0000_0000_0000 && Pow256(8) == 0x1_0000_0000_0000_0000
  {
    assert Pow256(1) == 256 && Pow256(2) == 0x1_0000;
    assert Pow256(5) == 0x100_0000_0000 && Pow256(6) == 0x1_0000_0000_0000;
  }

  lemma UnsignedWidths(n: nat)
    ensures n <= U64_MAX <==> n < Pow256(8)
    ensures n < W32 <==> n < Pow256(4)
  {
    Powers();
  }

  lemma SignedWidths(x: int)
    ensures -I64_LIMIT <= x < I64_LIMIT <==> FitsSigned(x, 8)
    ensures FitsI64(x) <==> FitsSigned(x, 8)
    ensures -I32_LIMIT <= x < I32_LIMIT <==> FitsSigned(x, 4)
    ensures -x <= W31 && x < W31 <==> FitsSigned(x, 4)
  {
    Powers();
  }

  /** A sum that does not fit becomes the largest number that does. */
  lemma Saturates(a: nat, b: nat)
    ensures a + b < Pow256(8) ==> SaturatingAdd(a, b) == a + b
    ensures a + b >= Pow256(8) ==> SaturatingAdd(a, b) + 1 == Pow256(8)
  {
    Powers();
  }

  /** What is stored has at most 34 digits. */
  lemma Digits(d: Dec, p: nat)
    requires p == 34
    ensures Abs(Normalize(d).digits) < Pow10(p)
  {
    NormalizeIdempotent(d);
    ShiftPositive(p);
  }
}
