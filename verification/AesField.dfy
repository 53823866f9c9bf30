// Arithmetic in GF(2^8) and the column mixing of FIPS 197 (sections 4.2, 5.1.3
// and 5.3.3): the maps are linear, and InvMixColumns undoes MixColumns.

module AesField {
  import opened AesSbox

  /** Addition in the field, of two and of four elements. */
  function Add(a: bv8, b: bv8): bv8 { a ^ b }

  function Sum(p: bv8, q: bv8, r: bv8, s: bv8): bv8 { Add(Add(p, q), Add(r, s)) }

  /** Multiplication by {02} modulo x^8 + x^4 + x^3 + x + 1. */
  function Mul02(a: bv8): bv8 { (a << 1) ^ ((a >> 7) * 0x1b) }

  function Mul04(a: bv8): bv8 { Mul02(Mul02(a)) }

  function Mul08(a: bv8): bv8 { Mul02(Mul04(a)) }

  function Mul03(a: bv8): bv8 { Add(Mul02(a), a) }

  function Mul09(a: bv8): bv8 { Add(Mul08(a), a) }

  function Mul0b(a: bv8): bv8 { Add(Mul08(a), Mul03(a)) }

  function Mul0d(a: bv8): bv8 { Add(Mul08(a), Add(Mul04(a), a)) }

  function Mul0e(a: bv8): bv8 { Add(Mul08(a), Add(Mul04(a), Mul02(a))) }

  /** A column of the state, row 0 first. */
  datatype Col = Col(a: bv8, b: bv8, c: bv8, d: bv8)

  function AddCol(x: Col, y: Col): Col {
    Col(Add(x.a, y.a), Add(x.b, y.b), Add(x.c, y.c), Add(x.d, y.d))
  }

  function MixCol(x: Col): Col {
    Col(Sum(Mul02(x.a), Mul03(x.b), x.c, x.d),
        Sum(x.a, Mul02(x.b), Mul03(x.c), x.d),
        Sum(x.a, x.b, Mul02(x.c), Mul03(x.d)),
        Sum(Mul03(x.a), x.b, x.c, Mul02(x.d)))
  }

  function InvMixCol(x: Col): Col {
    Col(Sum(Mul0e(x.a), Mul0b(x.b), Mul0d(x.c), Mul09(x.d)),
        Sum(Mul09(x.a), Mul0e(x.b), Mul0b(x.c), Mul0d(x.d)),
        Sum(Mul0d(x.a), Mul09(x.b), Mul0e(x.c), Mul0b(x.d)),
        Sum(Mul0b(x.a), Mul0d(x.b), Mul09(x.c), Mul0e(x.d)))
  }

  // --------------------------------------------------------------- linearity

  lemma Mul02Linear(a: bv8, b: bv8)
    ensures Mul02(Add(a, b)) == Add(Mul02(a), Mul02(b))
  {
  }

  lemma AddAssociative(a: bv8, b: bv8, c: bv8)
    ensures Add(Add(a, b), c) == Add(a, Add(b, c))
  {
  }

  lemma Swap(a: bv8, b: bv8, c: bv8, d: bv8)
    ensures Add(Add(a, b), Add(c, d)) == Add(Add(a, c), Add(b, d))
  {
    assert Add(b, c) == Add(c, b);
    hide Add;
    AddAssociative(a, b, Add(c, d));
    AddAssociative(b, c, d);
    AddAssociative(c, b, d);
    AddAssociative(a, c, Add(b, d));
  }

  lemma SmallLinear(a: bv8, b: bv8)
    ensures Mul02(Add(a, b)) == Add(Mul02(a), Mul02(b))
    ensures Mul03(Add(a, b)) == Add(Mul03(a), Mul03(b))
    ensures Mul04(Add(a, b)) == Add(Mul04(a), Mul04(b))
    ensures Mul08(Add(a, b)) == Add(Mul08(a), Mul08(b))
  {
    hide Mul02, Add;
    Mul02Linear(a, b);
    Mul02Linear(Mul02(a), Mul02(b));
    Mul02Linear(Mul04(a), Mul04(b));
    Swap(Mul02(a), Mul02(b), a, b);
  }

  lemma LargeLinear(a: bv8, b: bv8)
    ensures Mul09(Add(a, b)) == Add(Mul09(a), Mul09(b))
    ensures Mul0b(Add(a, b)) == Add(Mul0b(a), Mul0b(b))
    ensures Mul0d(Add(a, b)) == Add(Mul0d(a), Mul0d(b))
    ensures Mul0e(Add(a, b)) == Add(Mul0e(a), Mul0e(b))
  {
    hide Mul02, Mul03, Mul04, Mul08, Add;
    SmallLinear(a, b);
    Swap(Mul08(a), Mul08(b), a, b);
    Swap(Mul08(a), Mul08(b), Mul03(a), Mul03(b));
    Swap(Mul04(a), Mul04(b), a, b);
    Swap(Mul08(a), Mul08(b), Add(Mul04(a), a), Add(Mul04(b), b));
    Swap(Mul04(a), Mul04(b), Mul02(a), Mul02(b));
    Swap(Mul08(a), Mul08(b), Add(Mul04(a), Mul02(a)), Add(Mul04(b), Mul02(b)));
  }

  lemma SumOfAdds(p: bv8, p': bv8, q: bv8, q': bv8, r: bv8, r': bv8, s: bv8, s': bv8)
    ensures Sum(Add(p, p'), Add(q, q'), Add(r, r'), Add(s, s')) == Add(Sum(p, q, r, s), Sum(p', q', r', s'))
  {
    hide Add;
    Swap(p, p', q, q');
    Swap(r, r', s, s');
    Swap(Add(p, q), Add(p', q'), Add(r, s), Add(r', s'));
  }

  lemma MixColLinear(x: Col, y: Col)
    ensures MixCol(AddCol(x, y)) == AddCol(MixCol(x), MixCol(y))
  {
    hide Mul02, Mul03, Add, Sum;
    SmallLinear(x.a, y.a);
    SmallLinear(x.b, y.b);
    SmallLinear(x.c, y.c);
    SmallLinear(x.d, y.d);
    SumOfAdds(Mul02(x.a), Mul02(y.a), Mul03(x.b), Mul03(y.b), x.c, y.c, x.d, y.d);
    SumOfAdds(x.a, y.a, Mul02(x.b), Mul02(y.b), Mul03(x.c), Mul03(y.c), x.d, y.d);
    SumOfAdds(x.a, y.a, x.b, y.b, Mul02(x.c), Mul02(y.c), Mul03(x.d), Mul03(y.d));
    SumOfAdds(Mul03(x.a), Mul03(y.a), x.b, y.b, x.c, y.c, Mul02(x.d), Mul02(y.d));
  }

  lemma InvMixColLinear(x: Col, y: Col)
    ensures InvMixCol(AddCol(x, y)) == AddCol(InvMixCol(x), InvMixCol(y))
  {
    hide Mul09, Mul0b, Mul0d, Mul0e, Add, Sum;
    LargeLinear(x.a, y.a);
    LargeLinear(x.b, y.b);
    LargeLinear(x.c, y.c);
    LargeLinear(x.d, y.d);
    SumOfAdds(Mul0e(x.a), Mul0e(y.a), Mul0b(x.b), Mul0b(y.b), Mul0d(x.c), Mul0d(y.c), Mul09(x.d), Mul09(y.d));
    SumOfAdds(Mul09(x.a), Mul09(y.a), Mul0e(x.b), Mul0e(y.b), Mul0b(x.c), Mul0b(y.c), Mul0d(x.d), Mul0d(y.d));
    SumOfAdds(Mul0d(x.a), Mul0d(y.a), Mul09(x.b), Mul09(y.b), Mul0e(x.c), Mul0e(y.c), Mul0b(x.d), Mul0b(y.d));
    SumOfAdds(Mul0b(x.a), Mul0b(y.a), Mul0d(x.b), Mul0d(y.b), Mul09(x.c), Mul09(y.c), Mul0e(x.d), Mul0e(y.d));
  }

  // --------------------------------------------------------- the inverse

  lemma UnitA(a: bv8)
    ensures InvMixCol(MixCol(Col(a, 0, 0, 0))) == Col(a, 0, 0, 0)
  {
  }

  lemma UnitB(b: bv8)
    ensures InvMixCol(MixCol(Col(0, b, 0, 0))) == Col(0, b, 0, 0)
  {
  }

  lemma UnitC(c: bv8)
    ensures InvMixCol(MixCol(Col(0, 0, c, 0))) == Col(0, 0, c, 0)
  {
  }

  lemma UnitD(d: bv8)
    ensures InvMixCol(MixCol(Col(0, 0, 0, d))) == Col(0, 0, 0, d)
  {
  }

  lemma RoundTripLinear(x: Col, y: Col)
    requires InvMixCol(MixCol(x)) == x && InvMixCol(MixCol(y)) == y
    ensures InvMixCol(MixCol(AddCol(x, y))) == AddCol(x, y)
  {
    hide MixCol, InvMixCol, AddCol;
    MixColLinear(x, y);
    InvMixColLinear(MixCol(x), MixCol(y));
  }

  lemma Zero(a: bv8)
    ensures Add(a, 0) == a && Add(0, a) == a
  {
  }

  lemma Parts(x: Col)
    ensures AddCol(AddCol(Col(x.a, 0, 0, 0), Col(0, x.b, 0, 0)),
                   AddCol(Col(0, 0, x.c, 0), Col(0, 0, 0, x.d))) == x
  {
    hide Add;
    Zero(x.a);
    Zero(x.b);
    Zero(x.c);
    Zero(x.d);
    Zero(0);
  }

  /** InvMixColumns undoes MixColumns on every column. */
  lemma InvMixColUndoes(x: Col)
    ensures InvMixCol(MixCol(x)) == x
  {
    hide MixCol, InvMixCol, AddCol;
    UnitA(x.a);
    UnitB(x.b);
    UnitC(x.c);
    UnitD(x.d);
    Parts(x);
    RoundTripLinear(Col(x.a, 0, 0, 0), Col(0, x.b, 0, 0));
    RoundTripLinear(Col(0, 0, x.c, 0), Col(0, 0, 0, x.d));
    RoundTripLinear(AddCol(Col(x.a, 0, 0, 0), Col(0, x.b, 0, 0)),
                    AddCol(Col(0, 0, x.c, 0), Col(0, 0, 0, x.d)));
  }

  // ------------------------------------------------------------------- the S-box

  /** Multiplication in the field, bit by bit of the second factor. */
  function Times(x: bv8, y: bv8): bv8 {
    var x1 := Mul02(x);
    var x2 := Mul02(x1);
    var x3 := Mul02(x2);
    var x4 := Mul02(x3);
    var x5 := Mul02(x4);
    var x6 := Mul02(x5);
    var x7 := Mul02(x6);
    (Bit(y, 0) & x) ^ (Bit(y, 1) & x1) ^ (Bit(y, 2) & x2) ^ (Bit(y, 3) & x3)
    ^ (Bit(y, 4) & x4) ^ (Bit(y, 5) & x5) ^ (Bit(y, 6) & x6) ^ (Bit(y, 7) & x7)
  }

  /** All ones if that bit of y is set. */
  function Bit(y: bv8, i: bv3): bv8 {
    0 - ((y >> i) & 1)
  }

  function Rotate(y: bv8, n: bv3): bv8 { (y << n) | (y >> (8 - n as bv4)) }

  function Affine(y: bv8): bv8 { y ^ Rotate(y, 1) ^ Rotate(y, 2) ^ Rotate(y, 3) ^ Rotate(y, 4) ^ 0x63 }

  function InvAffine(z: bv8): bv8 { Rotate(z, 1) ^ Rotate(z, 3) ^ Rotate(z, 6) ^ 0x05 }

  /** What section 5.1.1 asks of the substitution of one byte. */
  ghost predicate IsSub(x: bv8, z: bv8) {
    exists y: bv8 :: z == Affine(y) && if x == 0 then y == 0 else Times(x, y) == 1
  }

  lemma SubQuarter0(x: bv8)
    requires x >> 6 == 0
    ensures var y := InvAffine(S(x)); S(x) == Affine(y) && if x == 0 then y == 0 else Times(x, y) == 1
  {
  }

  lemma SubQuarter1(x: bv8)
    requires x >> 6 == 1
    ensures var y := InvAffine(S(x)); S(x) == Affine(y) && if x == 0 then y == 0 else Times(x, y) == 1
  {
  }

  lemma SubQuarter2(x: bv8)
    requires x >> 6 == 2
    ensures var y := InvAffine(S(x)); S(x) == Affine(y) && if x == 0 then y == 0 else Times(x, y) == 1
  {
  }

  lemma SubQuarter3(x: bv8)
    requires x >> 6 == 3
    ensures var y := InvAffine(S(x)); S(x) == Affine(y) && if x == 0 then y == 0 else Times(x, y) == 1
  {
  }

  lemma Quarters(x: bv8)
    ensures x >> 6 == 0 || x >> 6 == 1 || x >> 6 == 2 || x >> 6 == 3
  {
  }

  /** The literal table is the S-box of section 5.1.1: the multiplicative inverse, then
      the affine transformation. */
  lemma SboxIsAffineInverse(x: bv8)
    ensures IsSub(x, S(x))
  {
    hide S, Affine, InvAffine, Times;
    Quarters(x);
    if x >> 6 == 0 {
      SubQuarter0(x);
    } else if x >> 6 == 1 {
      SubQuarter1(x);
    } else if x >> 6 == 2 {
      SubQuarter2(x);
    } else {
      SubQuarter3(x);
    }
  }
}
