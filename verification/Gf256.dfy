/**
 * The byte field GF(2^8) of AES (core/uds_aes_cmac.c): the Russian-peasant product is
 * commutative, associative and distributive, x^254 is an involution, and so the
 * computed S-box has an inverse.
 */
module Gf256 {
  import opened Bytes

  // ---- Bit operations; proofs above them treat them as black boxes ----

  function XorB(a: byte, b: byte): byte {
    a ^ b
  }

  /** Multiplication by x, reduced by x^8 + x^4 + x^3 + x + 1. */
  function Mul2(x: byte): byte {
    (x << 1) ^ (((x >> 7) & 1) * 0x1B)
  }

  /** a if the low bit of b is set, else 0. */
  function Select(a: byte, b: byte): byte {
    a * (b & 1)
  }

  function Half(b: byte): byte {
    b >> 1
  }

  // ---- The product ----

  /** a times x^i. */
  function Shifted(a: byte, i: nat): byte {
    if i == 0 then a else Mul2(Shifted(a, i - 1))
  }

  /** b without its low i bits, moved down. */
  function Dropped(b: byte, i: nat): byte {
    if i == 0 then b else Half(Dropped(b, i - 1))
  }

  /** The sum of a times x^i over the set bits i < n of b. */
  function PartialProduct(a: byte, b: byte, n: nat): byte {
    if n == 0 then 0
    else XorB(PartialProduct(a, b, n - 1), Select(Shifted(a, n - 1), Dropped(b, n - 1)))
  }

  function Mul(a: byte, b: byte): byte {
    PartialProduct(a, b, 8)
  }

  /** gf_mul: eight unconditional iterations. */
  method GfMul(a: byte, b: byte) returns (result: byte)
    ensures result == Mul(a, b)
  {
    hide XorB, Select, Mul2, Half;
    result := 0;
    var aa, bb := a, b;
    for i := 0 to 8
      invariant result == PartialProduct(a, b, i)
      invariant aa == Shifted(a, i) && bb == Dropped(b, i)
    {
      result := XorB(result, Select(aa, bb));
      aa := Mul2(aa);
      bb := Half(bb);
    }
  }

  // ---- Leaf facts about single bytes ----

  lemma XorBZero(b: byte)
    ensures XorB(0, b) == b && XorB(b, 0) == b && XorB(b, b) == 0
  {}

  lemma XorBAssociative(a: byte, b: byte, c: byte)
    ensures XorB(XorB(a, b), c) == XorB(a, XorB(b, c))
  {}

  lemma XorBCommutes(a: byte, b: byte)
    ensures XorB(a, b) == XorB(b, a)
  {}

  lemma XorBInterchange(a: byte, b: byte, c: byte, d: byte)
    ensures XorB(XorB(a, b), XorB(c, d)) == XorB(XorB(a, c), XorB(b, d))
  {
    hide *;
    XorBAssociative(a, b, XorB(c, d));
    XorBAssociative(b, c, d);
    XorBCommutes(b, c);
    XorBAssociative(c, b, d);
    XorBAssociative(a, c, XorB(b, d));
  }

  lemma Mul2Linear(a: byte, b: byte)
    ensures Mul2(XorB(a, b)) == XorB(Mul2(a), Mul2(b))
  {}

  lemma HalfLinear(a: byte, b: byte)
    ensures Half(XorB(a, b)) == XorB(Half(a), Half(b))
  {}

  lemma SelectCases(a: byte, t: byte)
    ensures Select(a, t) == (if t & 1 == 1 then a else 0)
  {}

  lemma SelectLinear(a: byte, b: byte, t: byte)
    ensures Select(XorB(a, b), t) == XorB(Select(a, t), Select(b, t))
  {
    hide *;
    SelectCases(XorB(a, b), t);
    SelectCases(a, t);
    SelectCases(b, t);
    XorBZero(0);
  }

  lemma SelectSplit(a: byte, s: byte, t: byte)
    ensures Select(a, XorB(s, t)) == XorB(Select(a, s), Select(a, t))
  {}

  lemma Mul2Select(a: byte, t: byte)
    ensures Mul2(Select(a, t)) == Select(Mul2(a), t)
  {}

  /** x^8 is x^4 + x^3 + x + 1. */
  lemma Reduction(a: byte)
    ensures Mul2(Mul2(Mul2(Mul2(Mul2(Mul2(Mul2(Mul2(a)))))))) ==
            a ^ Mul2(a) ^ Mul2(Mul2(Mul2(a))) ^ Mul2(Mul2(Mul2(Mul2(a))))
  {}

  // ---- Distributivity ----

  lemma {:induction false} ShiftedLinear(a: byte, b: byte, i: nat)
    ensures Shifted(XorB(a, b), i) == XorB(Shifted(a, i), Shifted(b, i))
  {
    hide XorB, Mul2;
    if i > 0 {
      ShiftedLinear(a, b, i - 1);
      Mul2Linear(Shifted(a, i - 1), Shifted(b, i - 1));
    }
  }

  lemma {:induction false} DroppedLinear(a: byte, b: byte, i: nat)
    ensures Dropped(XorB(a, b), i) == XorB(Dropped(a, i), Dropped(b, i))
  {
    hide XorB, Half;
    if i > 0 {
      DroppedLinear(a, b, i - 1);
      HalfLinear(Dropped(a, i - 1), Dropped(b, i - 1));
    }
  }

  lemma {:induction false} PartialLeft(a: byte, b: byte, c: byte, n: nat)
    ensures PartialProduct(XorB(a, b), c, n) == XorB(PartialProduct(a, c, n), PartialProduct(b, c, n))
  {
    hide XorB, Select, Shifted, Dropped;
    if n == 0 {
      XorBZero(0);
    } else {
      var t := Dropped(c, n - 1);
      PartialLeft(a, b, c, n - 1);
      ShiftedLinear(a, b, n - 1);
      SelectLinear(Shifted(a, n - 1), Shifted(b, n - 1), t);
      XorBInterchange(PartialProduct(a, c, n - 1), PartialProduct(b, c, n - 1),
        Select(Shifted(a, n - 1), t), Select(Shifted(b, n - 1), t));
    }
  }

  lemma {:induction false} PartialRight(a: byte, b: byte, c: byte, n: nat)
    ensures PartialProduct(a, XorB(b, c), n) == XorB(PartialProduct(a, b, n), PartialProduct(a, c, n))
  {
    hide XorB, Select, Shifted, Dropped;
    if n == 0 {
      XorBZero(0);
    } else {
      var s := Shifted(a, n - 1);
      PartialRight(a, b, c, n - 1);
      DroppedLinear(b, c, n - 1);
      SelectSplit(s, Dropped(b, n - 1), Dropped(c, n - 1));
      XorBInterchange(PartialProduct(a, b, n - 1), PartialProduct(a, c, n - 1),
        Select(s, Dropped(b, n - 1)), Select(s, Dropped(c, n - 1)));
    }
  }

  /** Multiplication distributes over addition (xor) on both sides. */
  lemma MulDistributes(a: byte, b: byte, c: byte)
    ensures Mul(XorB(a, b), c) == XorB(Mul(a, c), Mul(b, c))
    ensures Mul(a, XorB(b, c)) == XorB(Mul(a, b), Mul(a, c))
  {
    hide PartialProduct, XorB;
    PartialLeft(a, b, c, 8);
    PartialRight(a, b, c, 8);
  }

  // ---- Multiplying a factor by x multiplies the product by x ----

  lemma {:induction false} ShiftedMul2(a: byte, i: nat)
    ensures Shifted(Mul2(a), i) == Mul2(Shifted(a, i)) == Shifted(a, i + 1)
  {
    hide Mul2;
    if i > 0 {
      ShiftedMul2(a, i - 1);
    }
  }

  lemma {:induction false} PartialMul2(a: byte, b: byte, n: nat)
    ensures PartialProduct(Mul2(a), b, n) == Mul2(PartialProduct(a, b, n))
  {
    hide XorB, Select, Shifted, Dropped, Mul2;
    if n == 0 {
      Mul2Zero();
    } else {
      var t := Dropped(b, n - 1);
      PartialMul2(a, b, n - 1);
      ShiftedMul2(a, n - 1);
      Mul2Select(Shifted(a, n - 1), t);
      Mul2Linear(PartialProduct(a, b, n - 1), Select(Shifted(a, n - 1), t));
    }
  }

  lemma Mul2Zero()
    ensures Mul2(0) == 0
  {}

  lemma {:induction false} PartialZero(a: byte, n: nat)
    ensures PartialProduct(a, 0, n) == 0 && Dropped(0, n) == 0
  {
    hide XorB, Shifted;
    if n > 0 {
      PartialZero(a, n - 1);
      SelectCases(Shifted(a, n - 1), 0);
      XorBZero(0);
    }
  }

  lemma MulSelect(a: byte, c: byte, t: byte)
    ensures Mul(a, Select(c, t)) == Select(Mul(a, c), t)
  {
    hide Select, PartialProduct;
    SelectCases(c, t);
    SelectCases(Mul(a, c), t);
    PartialZero(a, 8);
  }

  function Twice(b: byte): byte {
    b << 1
  }

  /** The low seven bits and the top bit, and what doubling makes of each. */
  lemma SplitTop(b: byte)
    ensures b == XorB(b & 0x7F, Select(0x80, b >> 7))
    ensures Mul2(b) == XorB(Twice(b & 0x7F), Select(0x1B, b >> 7))
    ensures Half(Twice(b & 0x7F)) == b & 0x7F
  {}

  lemma SelectTwice(a: byte, b: byte)
    ensures Select(a, Twice(b)) == 0
  {}

  lemma {:induction false} DroppedHalf(b: byte, i: nat)
    ensures Dropped(b, i + 1) == Dropped(Half(b), i)
  {
    hide Half;
    if i > 0 {
      DroppedHalf(b, i - 1);
    }
  }

  lemma {:induction false} PartialTwice(a: byte, b: byte, n: nat)
    requires Half(Twice(b)) == b
    ensures PartialProduct(a, Twice(b), n + 1) == PartialProduct(Mul2(a), b, n)
  {
    hide XorB, Select, Half, Twice, Mul2;
    if n == 0 {
      SelectTwice(a, b);
      XorBZero(0);
    } else {
      PartialTwice(a, b, n - 1);
      ShiftedMul2(a, n - 1);
      DroppedHalf(Twice(b), n - 1);
    }
  }

  lemma ShiftedUnrolls(a: byte)
    ensures Shifted(a, 1) == Mul2(a) && Shifted(a, 3) == Mul2(Mul2(Mul2(a)))
    ensures Shifted(a, 4) == Mul2(Mul2(Mul2(Mul2(a))))
    ensures Shifted(a, 8) == Mul2(Mul2(Mul2(Mul2(Mul2(Mul2(Mul2(Mul2(a))))))))
  {
    hide Mul2;
    assert Shifted(a, 0) == a;
    assert Shifted(a, 2) == Mul2(Mul2(a));
    assert Shifted(a, 4) == Mul2(Mul2(Shifted(a, 2)));
    assert Shifted(a, 6) == Mul2(Mul2(Shifted(a, 4)));
  }

  lemma DroppedUnrolls(b: byte)
    ensures Dropped(b, 0) == b && Dropped(b, 1) == b >> 1 && Dropped(b, 2) == b >> 2 && Dropped(b, 3) == b >> 3
    ensures Dropped(b, 4) == b >> 4 && Dropped(b, 5) == b >> 5 && Dropped(b, 6) == b >> 6 && Dropped(b, 7) == b >> 7
  {
    assert Dropped(b, 2) == b >> 2 by {
      assert Dropped(b, 0) == b;
    }
    assert Dropped(b, 4) == b >> 4;
    assert Dropped(b, 6) == b >> 6;
  }

  lemma ReductionIsSum(a: byte)
    ensures Shifted(a, 8) == XorB(XorB(XorB(a, Shifted(a, 1)), Shifted(a, 3)), Shifted(a, 4))
  {
    hide Mul2, Shifted;
    ShiftedUnrolls(a);
    Reduction(a);
  }

  lemma MulReduction(a: byte)
    ensures Mul(a, 0x1B) == Shifted(a, 8)
  {
    hide XorB, Shifted, Mul2, Half, Dropped;
    DroppedUnrolls(0x1B);
    forall i: nat | i < 8
      ensures Select(Shifted(a, i), Dropped(0x1B, i)) == if i == 2 || i >= 5 then 0 else Shifted(a, i)
    {
      SelectCases(Shifted(a, i), Dropped(0x1B, i));
    }
    forall b: byte
      ensures XorB(0, b) == b && XorB(b, 0) == b
    {
      XorBZero(b);
    }
    ReductionIsSum(a);
    assert Shifted(a, 0) == a by {
      ShiftedZero(a);
    }
    assert PartialProduct(a, 0x1B, 0) == 0;
    assert PartialProduct(a, 0x1B, 2) == XorB(a, Shifted(a, 1));
    assert PartialProduct(a, 0x1B, 4) == XorB(XorB(a, Shifted(a, 1)), Shifted(a, 3));
    assert PartialProduct(a, 0x1B, 6) == Shifted(a, 8);
    assert PartialProduct(a, 0x1B, 8) == Shifted(a, 8);
  }

  lemma ShiftedZero(a: byte)
    ensures Shifted(a, 0) == a
  {}

  lemma MulTopBit(a: byte)
    ensures Mul(a, 0x80) == Shifted(a, 7)
  {
    hide XorB, Shifted, Mul2, Half, Dropped;
    DroppedUnrolls(0x80);
    forall i: nat | i < 8
      ensures Select(Shifted(a, i), Dropped(0x80, i)) == if i < 7 then 0 else Shifted(a, i)
    {
      SelectCases(Shifted(a, i), Dropped(0x80, i));
    }
    XorBZero(0);
    XorBZero(Shifted(a, 7));
    assert PartialProduct(a, 0x80, 0) == 0;
    assert PartialProduct(a, 0x80, 2) == 0;
    assert PartialProduct(a, 0x80, 4) == 0;
    assert PartialProduct(a, 0x80, 6) == 0;
    assert PartialProduct(a, 0x80, 8) == Shifted(a, 7);
  }

  lemma LowSevenDropped(b: byte)
    ensures Dropped(b & 0x7F, 7) == 0
  {
    DroppedUnrolls(b & 0x7F);
  }

  lemma MulLowTwice(a: byte, low: byte)
    requires Half(Twice(low)) == low && Dropped(low, 7) == 0
    ensures Mul(a, Twice(low)) == Mul2(Mul(a, low))
  {
    hide XorB, Shifted, Half, Twice, Mul2, Dropped, Select;
    PartialTwice(a, low, 7);
    PartialMul2(a, low, 8);
    SelectCases(Shifted(Mul2(a), 7), 0);
    XorBZero(PartialProduct(Mul2(a), low, 7));
  }

  /** Multiplying the second factor by x multiplies the product by x. */
  lemma MulMul2(a: byte, b: byte)
    ensures Mul(a, Mul2(b)) == Mul2(Mul(a, b))
  {
    hide XorB, Select, Half, Twice, Mul2, Dropped, Mul;
    var low := b & 0x7F;
    var t := b >> 7;
    SplitTop(b);
    LowSevenDropped(b);
    MulDistributes(a, Twice(low), Select(0x1B, t));
    MulDistributes(a, low, Select(0x80, t));
    MulLowTwice(a, low);
    MulSelect(a, 0x1B, t);
    MulSelect(a, 0x80, t);
    MulReduction(a);
    MulTopBit(a);
    Mul2Linear(Mul(a, low), Mul(a, Select(0x80, t)));
    Mul2Select(Shifted(a, 7), t);
  }

  // ---- Associativity and commutativity ----

  lemma {:induction false} MulShifted(a: byte, b: byte, i: nat)
    ensures Mul(a, Shifted(b, i)) == Shifted(Mul(a, b), i)
  {
    hide Mul, Mul2;
    if i > 0 {
      MulShifted(a, b, i - 1);
      MulMul2(a, Shifted(b, i - 1));
    }
  }

  lemma {:induction false} MulPartial(a: byte, b: byte, c: byte, n: nat)
    ensures Mul(a, PartialProduct(b, c, n)) == PartialProduct(Mul(a, b), c, n)
  {
    hide Mul, XorB, Select, Shifted, Dropped;
    if n == 0 {
      MulZero(a);
    } else {
      var t := Dropped(c, n - 1);
      MulPartial(a, b, c, n - 1);
      MulDistributes(a, PartialProduct(b, c, n - 1), Select(Shifted(b, n - 1), t));
      MulSelect(a, Shifted(b, n - 1), t);
      MulShifted(a, b, n - 1);
    }
  }

  lemma MulZero(a: byte)
    ensures Mul(a, 0) == 0
  {
    PartialZero(a, 8);
  }

  lemma MulAssociative(a: byte, b: byte, c: byte)
    ensures Mul(a, Mul(b, c)) == Mul(Mul(a, b), c)
  {
    hide PartialProduct;
    MulPartial(a, b, c, 8);
  }

  lemma OneTimes(b: byte)
    ensures Mul(1, b) == b
  {
    hide Shifted, Dropped, Select, XorB;
    DroppedUnrolls(b);
    ShiftedOnes();
    assert PartialProduct(1, b, 1) == XorB(0, Select(1, b));
    assert PartialProduct(1, b, 2) == XorB(XorB(0, Select(1, b)), Select(2, b >> 1));
    LowPairs(b);
    assert PartialProduct(1, b, 4) == XorB(XorB(b & 3, Select(4, b >> 2)), Select(8, b >> 3));
    assert PartialProduct(1, b, 6) == XorB(XorB(b & 15, Select(16, b >> 4)), Select(32, b >> 5));
    HighPairs(b);
    assert PartialProduct(1, b, 8) == XorB(XorB(b & 63, Select(64, b >> 6)), Select(128, b >> 7));
  }

  lemma ShiftedOnes()
    ensures Shifted(1, 0) == 1 && Shifted(1, 1) == 2 && Shifted(1, 2) == 4 && Shifted(1, 3) == 8
    ensures Shifted(1, 4) == 16 && Shifted(1, 5) == 32 && Shifted(1, 6) == 64 && Shifted(1, 7) == 128
  {
    assert Shifted(1, 2) == 4;
    assert Shifted(1, 4) == 16;
    assert Shifted(1, 6) == 64;
  }

  lemma LowPairs(b: byte)
    ensures XorB(XorB(0, Select(1, b)), Select(2, b >> 1)) == b & 3
    ensures XorB(XorB(b & 3, Select(4, b >> 2)), Select(8, b >> 3)) == b & 15
  {}

  lemma HighPairs(b: byte)
    ensures XorB(XorB(b & 15, Select(16, b >> 4)), Select(32, b >> 5)) == b & 63
    ensures XorB(XorB(b & 63, Select(64, b >> 6)), Select(128, b >> 7)) == b
  {}

  lemma TimesOne(a: byte)
    ensures Mul(a, 1) == a
  {
    hide XorB, Shifted, Dropped;
    DroppedUnrolls(1);
    forall i: nat | i < 8
      ensures Select(Shifted(a, i), Dropped(1, i)) == if i == 0 then Shifted(a, i) else 0
    {
      SelectCases(Shifted(a, i), Dropped(1, i));
    }
    ShiftedZero(a);
    XorBZero(a);
    assert PartialProduct(a, 1, 0) == 0;
    assert PartialProduct(a, 1, 2) == a;
    assert PartialProduct(a, 1, 4) == a;
    assert PartialProduct(a, 1, 6) == a;
    assert PartialProduct(a, 1, 8) == a;
  }

  /** Multiplying a sum of shifted ones by b adds up shifted copies of b. */
  lemma {:induction false} PartialTimes(a: byte, b: byte, n: nat)
    ensures Mul(PartialProduct(1, a, n), b) == PartialProduct(b, a, n)
  {
    hide Mul, XorB, Select, Shifted, Dropped;
    if n == 0 {
      ZeroTimes(b);
    } else {
      var t := Dropped(a, n - 1);
      PartialTimes(a, b, n - 1);
      MulDistributes(PartialProduct(1, a, n - 1), Select(Shifted(1, n - 1), t), b);
      SelectTimes(Shifted(1, n - 1), b, t);
      ShiftedTimes(1, b, n - 1);
      OneTimes(b);
    }
  }

  lemma ZeroTimes(b: byte)
    ensures Mul(0, b) == 0
  {
    hide Mul;
    MulDistributes(0, 0, b);
    XorBZero(0);
    XorBZero(Mul(0, b));
  }

  lemma SelectTimes(a: byte, b: byte, t: byte)
    ensures Mul(Select(a, t), b) == Select(Mul(a, b), t)
  {
    hide Mul, Select;
    SelectCases(a, t);
    SelectCases(Mul(a, b), t);
    ZeroTimes(b);
  }

  lemma {:induction false} ShiftedTimes(a: byte, b: byte, i: nat)
    ensures Mul(Shifted(a, i), b) == Shifted(Mul(a, b), i)
  {
    hide Mul2;
    if i > 0 {
      ShiftedTimes(a, b, i - 1);
      PartialMul2(Shifted(a, i - 1), b, 8);
    }
  }

  lemma MulCommutes(a: byte, b: byte)
    ensures Mul(a, b) == Mul(b, a)
  {
    hide PartialProduct;
    OneTimes(a);
    PartialTimes(a, b, 8);
  }

  // ---- Powers ----

  function Pow(x: byte, n: nat): byte {
    if n == 0 then 1 else Mul(Pow(x, n - 1), x)
  }

  lemma {:induction false} PowAdds(x: byte, m: nat, n: nat)
    ensures Pow(x, m + n) == Mul(Pow(x, m), Pow(x, n))
  {
    hide Mul;
    if n == 0 {
      TimesOne(Pow(x, m));
    } else {
      PowAdds(x, m, n - 1);
      MulAssociative(Pow(x, m), Pow(x, n - 1), x);
    }
  }

  lemma {:induction false} PowMultiplies(x: byte, m: nat, n: nat)
    ensures Pow(Pow(x, m), n) == Pow(x, m * n)
  {
    hide Mul;
    if n > 0 {
      PowMultiplies(x, m, n - 1);
      PowAdds(x, m * (n - 1), m);
      assert m * (n - 1) + m == m * n;
    }
  }

  /** x, x^2, x^4, ... by repeated squaring. */
  function Square(x: byte, i: nat): byte {
    if i == 0 then x else Mul(Square(x, i - 1), Square(x, i - 1))
  }

  function Pow2(i: nat): (n: nat)
    ensures n >= 1 && (i > 0 ==> n >= 2)
  {
    if i == 0 then 1 else 2 * Pow2(i - 1)
  }

  lemma {:induction false} SquareIsPow(x: byte, i: nat)
    ensures Square(x, i) == Pow(x, Pow2(i))
  {
    hide Mul;
    if i == 0 {
      assert Pow(x, 1) == Mul(Pow(x, 0), x);
      OneTimes(x);
    } else {
      SquareIsPow(x, i - 1);
      PowAdds(x, Pow2(i - 1), Pow2(i - 1));
    }
  }

  // ---- Squaring eight times is the identity ----

  lemma {:induction false} SquareAdds(a: byte, b: byte, i: nat)
    ensures Square(XorB(a, b), i) == XorB(Square(a, i), Square(b, i))
  {
    hide Mul, XorB;
    if i > 0 {
      SquareAdds(a, b, i - 1);
      var p, q := Square(a, i - 1), Square(b, i - 1);
      MulDistributes(p, q, XorB(p, q));
      MulDistributes(p, p, q);
      MulDistributes(q, p, q);
      MulCommutes(p, q);
      var m := Mul(p, q);
      XorBInterchange(Mul(p, p), m, m, Mul(q, q));
      XorBCommutes(m, Mul(q, q));
      XorBInterchange(Mul(p, p), m, Mul(q, q), m);
      XorBZero(m);
      XorBZero(XorB(Mul(p, p), Mul(q, q)));
    }
  }

  lemma {:induction false} SquareMultiplies(a: byte, b: byte, i: nat)
    ensures Square(Mul(a, b), i) == Mul(Square(a, i), Square(b, i))
  {
    hide Mul;
    if i > 0 {
      SquareMultiplies(a, b, i - 1);
      var p, q := Square(a, i - 1), Square(b, i - 1);
      MulAssociative(Mul(p, q), p, q);
      MulCommutes(Mul(p, q), p);
      MulAssociative(p, p, q);
      MulAssociative(Mul(p, p), q, q);
    }
  }

  lemma {:induction false} SquareConstants(i: nat)
    ensures Square(0, i) == 0 && Square(1, i) == 1
  {
    hide Mul;
    if i > 0 {
      SquareConstants(i - 1);
      MulZero(0);
      OneTimes(1);
    }
  }

  lemma TimesX(a: byte)
    ensures Mul(a, 2) == Mul2(a)
  {
    hide Mul;
    MulMul2(a, 1);
    TimesOne(a);
    assert Mul2(1) == 2;
  }

  lemma XToThe256()
    ensures Square(2, 8) == 2
  {
    hide Mul;
    MulUnrolls(2, 2);
    MulUnrolls(4, 4);
    MulUnrolls(0x10, 0x10);
    MulUnrolls(0x1B, 0x1B);
    MulUnrolls(0x5E, 0x5E);
    MulUnrolls(0xE4, 0xE4);
    MulUnrolls(0x4D, 0x4D);
    MulUnrolls(0xFA, 0xFA);
    assert Square(2, 0) == 2;
    assert Square(2, 2) == 0x10;
    assert Square(2, 4) == 0x5E;
    assert Square(2, 6) == 0x4D;
    assert Square(2, 8) == 2;
  }

  function MulNested(a: byte, b: byte): byte {
    var a1 := Mul2(a);
    var a2 := Mul2(a1);
    var a3 := Mul2(a2);
    var a4 := Mul2(a3);
    var a5 := Mul2(a4);
    var a6 := Mul2(a5);
    XorB(XorB(XorB(XorB(XorB(XorB(XorB(Select(a, b), Select(a1, b >> 1)), Select(a2, b >> 2)), Select(a3, b >> 3)),
      Select(a4, b >> 4)), Select(a5, b >> 5)), Select(a6, b >> 6)), Select(Mul2(a6), b >> 7))
  }

  lemma MulUnrolls(a: byte, b: byte)
    ensures Mul(a, b) == MulNested(a, b)
  {
    hide XorB, Select, Mul2, Half, Dropped;
    DroppedUnrolls(b);
    assert Shifted(a, 0) == a;
    assert Shifted(a, 2) == Mul2(Mul2(a));
    assert Shifted(a, 4) == Mul2(Mul2(Shifted(a, 2)));
    assert Shifted(a, 6) == Mul2(Mul2(Shifted(a, 4)));
    XorBZero(Select(a, b));
    assert PartialProduct(a, b, 1) == XorB(PartialProduct(a, b, 0), Select(a, b));
    assert PartialProduct(a, b, 3) ==
      XorB(XorB(PartialProduct(a, b, 1), Select(Shifted(a, 1), b >> 1)), Select(Shifted(a, 2), b >> 2));
    assert PartialProduct(a, b, 5) ==
      XorB(XorB(PartialProduct(a, b, 3), Select(Shifted(a, 3), b >> 3)), Select(Shifted(a, 4), b >> 4));
    assert PartialProduct(a, b, 7) ==
      XorB(XorB(PartialProduct(a, b, 5), Select(Shifted(a, 5), b >> 5)), Select(Shifted(a, 6), b >> 6));
  }

  lemma {:induction false} SquareShiftedOne(i: nat)
    ensures Square(Shifted(1, i), 8) == Shifted(1, i)
  {
    hide Mul, Square, Mul2;
    if i == 0 {
      SquareConstants(8);
    } else {
      SquareShiftedOne(i - 1);
      TimesX(Shifted(1, i - 1));
      SquareMultiplies(Shifted(1, i - 1), 2, 8);
      XToThe256();
    }
  }

  lemma {:induction false} SquarePartial(x: byte, n: nat)
    ensures Square(PartialProduct(1, x, n), 8) == PartialProduct(1, x, n)
  {
    hide Square, XorB, Select, Shifted, Dropped;
    SquareConstants(8);
    if n > 0 {
      var s, t := Shifted(1, n - 1), Dropped(x, n - 1);
      SquarePartial(x, n - 1);
      SquareAdds(PartialProduct(1, x, n - 1), Select(s, t), 8);
      SquareShiftedOne(n - 1);
      SelectCases(s, t);
    }
  }

  /** x^256 == x. */
  lemma SquareEight(x: byte)
    ensures Square(x, 8) == x && Pow(x, 256) == x
  {
    hide Square, PartialProduct, Pow;
    OneTimes(x);
    SquarePartial(x, 8);
    SquareIsPow(x, 8);
    assert Pow2(4) == 16;
    assert Pow2(8) == 256;
  }

  // ---- The inverse ----

  /** The product of those of the first n squares of x that the bits of 254 select. */
  function Accumulated(x: byte, n: nat): byte {
    if n == 0 then 1
    else if Dropped(254, n - 1) & 1 != 0 then Mul(Accumulated(x, n - 1), Square(x, n - 1))
    else Accumulated(x, n - 1)
  }

  function Inverse(x: byte): byte {
    if x == 0 then 0 else Accumulated(x, 8)
  }

  /** gf_inv: square-and-multiply with the exponent 254. */
  method GfInv(x: byte) returns (result: byte)
    ensures result == Inverse(x)
  {
    hide Mul;
    if x == 0 {
      return 0;
    }
    var p, acc, exp: byte := x, 1, 254;
    for bit := 0 to 8
      invariant p == Square(x, bit) && acc == Accumulated(x, bit) && exp == Dropped(254, bit)
    {
      if exp & 1 != 0 {
        acc := GfMul(acc, p);
      }
      p := GfMul(p, p);
      exp := exp >> 1;
    }
    result := acc;
  }

  lemma {:induction false} AccumulatedIsPow(x: byte, n: nat)
    requires 0 < n <= 8
    ensures Accumulated(x, n) == Pow(x, Pow2(n) - 2)
  {
    hide Mul, Square, Dropped;
    DroppedUnrolls(254);
    if n == 1 {
      assert Accumulated(x, 0) == 1;
    } else {
      AccumulatedIsPow(x, n - 1);
      SquareIsPow(x, n - 1);
      PowAdds(x, Pow2(n - 1) - 2, Pow2(n - 1));
    }
  }

  lemma InverseIsPow(x: byte)
    ensures Inverse(x) == Pow(x, 254)
  {
    hide Accumulated, Mul;
    if x == 0 {
      MulZero(Pow(0, 253));
    } else {
      AccumulatedIsPow(x, 8);
      assert Pow2(4) == 16;
      assert Pow2(8) == 256;
    }
  }

  lemma {:induction false} PowPeriod(x: byte, k: nat)
    ensures Pow(x, 1 + 255 * k) == x
  {
    hide Mul, Pow;
    if k == 0 {
      PowOne(x);
    } else {
      PowPeriod(x, k - 1);
      PowAdds(x, 255 * (k - 1), 256);
      SquareEight(x);
      PowAdds(x, 255 * (k - 1), 1);
      PowOne(x);
    }
  }

  lemma PowOne(x: byte)
    ensures Pow(x, 1) == x
  {
    hide Mul;
    assert Pow(x, 0) == 1;
    OneTimes(x);
  }

  lemma InverseInvolutive(x: byte)
    ensures Inverse(Inverse(x)) == x
  {
    hide Pow, Inverse;
    InverseIsPow(x);
    InverseIsPow(Pow(x, 254));
    PowMultiplies(x, 254, 254);
    PowPeriod(x, 253);
  }

  lemma Idempotent(e: byte)
    requires MulNested(e, e) == e
    ensures e == 0 || e == 1
  {}

  /** gf_inv computes the multiplicative inverse of every non-zero byte. */
  lemma InverseIsInverse(x: byte)
    requires x != 0
    ensures Mul(x, Inverse(x)) == 1
  {
    hide Pow, Inverse, Mul, MulNested;
    var e := Pow(x, 255);
    InverseIsPow(x);
    PowOne(x);
    PowAdds(x, 1, 254);
    PowAdds(x, 255, 255);
    PowAdds(x, 254, 256);
    PowAdds(x, 254, 1);
    SquareEight(x);
    MulUnrolls(e, e);
    Idempotent(e);
    PowAdds(x, 1, 255);
    MulZero(x);
  }

  // ---- Linear combinations of four bytes ----

  type quad = k: seq<byte> | |k| == 4 witness [0, 0, 0, 0]

  function Sum(p: byte, q: byte, r: byte, s: byte): byte {
    XorB(XorB(p, q), XorB(r, s))
  }

  function Lin(v: quad, k: quad): byte {
    Sum(Mul(v[0], k[0]), Mul(v[1], k[1]), Mul(v[2], k[2]), Mul(v[3], k[3]))
  }

  function Scale(k: quad, m: byte): quad {
    [Mul(k[0], m), Mul(k[1], m), Mul(k[2], m), Mul(k[3], m)]
  }

  function AddQuads(k: quad, l: quad): quad {
    [XorB(k[0], l[0]), XorB(k[1], l[1]), XorB(k[2], l[2]), XorB(k[3], l[3])]
  }

  lemma SumInterchange(p: byte, q: byte, r: byte, s: byte, p': byte, q': byte, r': byte, s': byte)
    ensures XorB(Sum(p, q, r, s), Sum(p', q', r', s')) == Sum(XorB(p, p'), XorB(q, q'), XorB(r, r'), XorB(s, s'))
  {
    hide XorB;
    XorBInterchange(XorB(p, q), XorB(r, s), XorB(p', q'), XorB(r', s'));
    XorBInterchange(p, q, p', q');
    XorBInterchange(r, s, r', s');
  }

  lemma LinScales(v: quad, k: quad, m: byte)
    ensures Mul(Lin(v, k), m) == Lin(v, Scale(k, m))
  {
    hide Mul, XorB;
    var p, q, r, s := Mul(v[0], k[0]), Mul(v[1], k[1]), Mul(v[2], k[2]), Mul(v[3], k[3]);
    MulDistributes(XorB(p, q), XorB(r, s), m);
    MulDistributes(p, q, m);
    MulDistributes(r, s, m);
    MulAssociative(v[0], k[0], m);
    MulAssociative(v[1], k[1], m);
    MulAssociative(v[2], k[2], m);
    MulAssociative(v[3], k[3], m);
  }

  lemma LinAdds(v: quad, k: quad, l: quad)
    ensures XorB(Lin(v, k), Lin(v, l)) == Lin(v, AddQuads(k, l))
  {
    hide Mul, XorB, Sum;
    SumInterchange(Mul(v[0], k[0]), Mul(v[1], k[1]), Mul(v[2], k[2]), Mul(v[3], k[3]),
      Mul(v[0], l[0]), Mul(v[1], l[1]), Mul(v[2], l[2]), Mul(v[3], l[3]));
    MulDistributes(v[0], k[0], l[0]);
    MulDistributes(v[1], k[1], l[1]);
    MulDistributes(v[2], k[2], l[2]);
    MulDistributes(v[3], k[3], l[3]);
  }

  /** The product of the row m with the matrix of rows k0..k3. */
  function RowTimesMatrix(m: quad, k0: quad, k1: quad, k2: quad, k3: quad): quad {
    AddQuads(AddQuads(Scale(k0, m[0]), Scale(k1, m[1])), AddQuads(Scale(k2, m[2]), Scale(k3, m[3])))
  }

  lemma LinComposes(v: quad, m: quad, k0: quad, k1: quad, k2: quad, k3: quad)
    ensures Lin([Lin(v, k0), Lin(v, k1), Lin(v, k2), Lin(v, k3)], m) == Lin(v, RowTimesMatrix(m, k0, k1, k2, k3))
  {
    hide Mul, XorB, AddQuads, Scale;
    var w: quad := [Lin(v, k0), Lin(v, k1), Lin(v, k2), Lin(v, k3)];
    assert Lin(w, m) == Sum(Mul(Lin(v, k0), m[0]), Mul(Lin(v, k1), m[1]), Mul(Lin(v, k2), m[2]), Mul(Lin(v, k3), m[3]));
    hide Lin;
    LinScales(v, k0, m[0]);
    LinScales(v, k1, m[1]);
    LinScales(v, k2, m[2]);
    LinScales(v, k3, m[3]);
    LinAdds(v, Scale(k0, m[0]), Scale(k1, m[1]));
    LinAdds(v, Scale(k2, m[2]), Scale(k3, m[3]));
    LinAdds(v, AddQuads(Scale(k0, m[0]), Scale(k1, m[1])), AddQuads(Scale(k2, m[2]), Scale(k3, m[3])));
  }

  const UNIT0: quad := [1, 0, 0, 0]
  const UNIT1: quad := [0, 1, 0, 0]
  const UNIT2: quad := [0, 0, 1, 0]
  const UNIT3: quad := [0, 0, 0, 1]

  /** The unit rows pick out the entries. */
  lemma LinUnit(v: quad)
    ensures Lin(v, UNIT0) == v[0] && Lin(v, UNIT1) == v[1] && Lin(v, UNIT2) == v[2] && Lin(v, UNIT3) == v[3]
  {
    hide Mul;
    TimesOne(v[0]);
    TimesOne(v[1]);
    TimesOne(v[2]);
    TimesOne(v[3]);
    MulZero(v[0]);
    MulZero(v[1]);
    MulZero(v[2]);
    MulZero(v[3]);
  }

  // ---- The S-box ----

  function Affine(s: byte): byte {
    s ^ ((s << 1) | (s >> 7)) ^ ((s << 2) | (s >> 6)) ^ ((s << 3) | (s >> 5)) ^ ((s << 4) | (s >> 4)) ^ 0x63
  }

  function SubByte(x: byte): byte {
    Affine(Inverse(x))
  }

  /** aes_sub_byte */
  method AesSubByte(x: byte) returns (r: byte)
    ensures r == SubByte(x)
  {
    hide Inverse;
    var s := GfInv(x);
    r := s;
    r := r ^ ((s << 1) | (s >> 7));
    r := r ^ ((s << 2) | (s >> 6));
    r := r ^ ((s << 3) | (s >> 5));
    r := r ^ ((s << 4) | (s >> 4));
    r := r ^ 0x63;
  }

  /** The inverse affine map of section 5.3.2 of FIPS 197. */
  function InvAffine(y: byte): byte {
    ((y << 1) | (y >> 7)) ^ ((y << 3) | (y >> 5)) ^ ((y << 6) | (y >> 2)) ^ 0x05
  }

  function InvSubByte(y: byte): byte {
    Inverse(InvAffine(y))
  }

  lemma AffineInverts(s: byte)
    ensures InvAffine(Affine(s)) == s && Affine(InvAffine(s)) == s
  {}

  lemma SubByteInverts(x: byte)
    ensures InvSubByte(SubByte(x)) == x && SubByte(InvSubByte(x)) == x
  {
    hide Affine, InvAffine, Inverse;
    AffineInverts(Inverse(x));
    AffineInverts(x);
    InverseInvolutive(x);
    InverseInvolutive(InvAffine(x));
  }
}
