/** Arithmetic of section 4 of FIPS 197: bytes as elements of GF(2^8), that is as polynomials
    over GF(2) modulo x^8 + x^4 + x^3 + x + 1.

    `Poly` and `Element` wrap the bit vectors so that the solver treats polynomials and field
    elements as opaque values wherever only the algebra matters. */
module GaloisField {

  // ---------------------------------------------------------------- Polynomials over GF(2)

  /** A polynomial over GF(2) of degree below 16; bit i is the coefficient of x^i. */
  datatype Poly = Poly(bits: bv16)

  const ZERO := Poly(0)

  /** x^8 + x^4 + x^3 + x + 1 */
  const MODULUS := Poly(0x11b)

  function Plus(p: Poly, q: Poly): Poly { Poly(p.bits ^ q.bits) }

  function Shift(p: Poly): Poly { Poly(p.bits << 1) }

  function Halve(p: Poly): Poly { Poly(p.bits >> 1) }

  predicate Odd(p: Poly) { p.bits & 1 == 1 }

  /** The carry-less product: the sum of the shifts of p that the coefficients of q select. */
  function Product(p: Poly, q: Poly): Poly
    decreases q.bits
  {
    if q.bits == 0 then ZERO
    else if Odd(q) then Plus(p, Product(Shift(p), Halve(q)))
    else Product(Shift(p), Halve(q))
  }

  lemma PlusExchanges(a: Poly, b: Poly, c: Poly, d: Poly)
    ensures Plus(Plus(a, b), Plus(c, d)) == Plus(Plus(a, c), Plus(b, d))
  {}

  lemma PlusAssociates(a: Poly, b: Poly, c: Poly)
    ensures Plus(Plus(a, b), c) == Plus(a, Plus(b, c))
  {}

  lemma PlusCommutes(a: Poly, b: Poly)
    ensures Plus(a, b) == Plus(b, a)
  {}

  lemma PlusZero(a: Poly)
    ensures Plus(a, ZERO) == a
  {}

  lemma PlusSelf(a: Poly)
    ensures Plus(a, a) == ZERO
  {}

  lemma ShiftPlus(p: Poly, q: Poly)
    ensures Shift(Plus(p, q)) == Plus(Shift(p), Shift(q))
  {}

  lemma OddIsLastBit(p: Poly)
    ensures Odd(p) || p.bits & 1 == 0
  {}

  lemma HalvePlus(p: Poly, q: Poly)
    ensures Halve(Plus(p, q)) == Plus(Halve(p), Halve(q))
    ensures Odd(Plus(p, q)) == (Odd(p) != Odd(q))
  {
    OddIsLastBit(p);
    OddIsLastBit(q);
  }

  lemma HalvesShrink(q: Poly, q': Poly)
    requires q.bits != 0 || q'.bits != 0
    ensures Halve(q).bits | Halve(q').bits < q.bits | q'.bits
  {}

  lemma ProductUnfolds(p: Poly, q: Poly)
    ensures Product(p, q)
         == if Odd(q) then Plus(p, Product(Shift(p), Halve(q))) else Product(Shift(p), Halve(q))
  {}

  lemma {:induction false} ProductOfZero(q: Poly)
    ensures Product(ZERO, q) == ZERO
    decreases q.bits
  {
    if q.bits != 0 {
      assert Shift(ZERO) == ZERO;
      ProductOfZero(Halve(q));
      PlusZero(ZERO);
    }
  }

  lemma {:induction false} ProductLeftLinear(p: Poly, p': Poly, q: Poly)
    ensures Product(Plus(p, p'), q) == Plus(Product(p, q), Product(p', q))
    decreases q.bits
  {
    if q.bits != 0 {
      ShiftPlus(p, p');
      ProductLeftLinear(Shift(p), Shift(p'), Halve(q));
      if Odd(q) {
        PlusExchanges(p, Product(Shift(p), Halve(q)), p', Product(Shift(p'), Halve(q)));
      }
    }
  }

  lemma SelectedSums(p: Poly, x: Poly, y: Poly, first: bool, second: bool)
    ensures Plus(if first then Plus(p, x) else x, if second then Plus(p, y) else y)
         == if first != second then Plus(p, Plus(x, y)) else Plus(x, y)
  {
    if first && second {
      PlusExchanges(p, x, p, y);
      PlusSelf(p);
    } else if first {
      PlusAssociates(p, x, y);
    } else if second {
      PlusAssociates(x, p, y);
      PlusCommutes(x, p);
      PlusAssociates(p, x, y);
    }
  }

  lemma ProductRightStep(p: Poly, q: Poly, q': Poly)
    requires Product(Shift(p), Plus(Halve(q), Halve(q')))
          == Plus(Product(Shift(p), Halve(q)), Product(Shift(p), Halve(q')))
    ensures Product(p, Plus(q, q')) == Plus(Product(p, q), Product(p, q'))
  {
    HalvePlus(q, q');
    ProductUnfolds(p, q);
    ProductUnfolds(p, q');
    ProductUnfolds(p, Plus(q, q'));
    SelectedSums(p, Product(Shift(p), Halve(q)), Product(Shift(p), Halve(q')), Odd(q), Odd(q'));
  }

  lemma ProductByZeros(p: Poly)
    ensures Product(p, Plus(ZERO, ZERO)) == Plus(Product(p, ZERO), Product(p, ZERO))
  {}

  lemma {:induction false} ProductRightLinear(p: Poly, q: Poly, q': Poly)
    ensures Product(p, Plus(q, q')) == Plus(Product(p, q), Product(p, q'))
    decreases q.bits | q'.bits
  {
    if q == ZERO && q' == ZERO {
      ProductByZeros(p);
    } else {
      HalvesShrink(q, q');
      ProductRightLinear(Shift(p), Halve(q), Halve(q'));
      ProductRightStep(p, q, q');
    }
  }

  // ---------------------------------------------------------------- The field

  /** A byte read as a polynomial of degree below 8. */
  datatype Element = Element(bits: bv8)

  const NOTHING := Element(0)
  const ONE := Element(1)

  function Add(x: Element, y: Element): Element { Element(x.bits ^ y.bits) }

  /** Multiplication by x: shift, and fold an overflowing x^8 back in as x^4 + x^3 + x + 1. */
  function XTime(x: Element): Element {
    Element((x.bits << 1) ^ (if x.bits & 0x80 != 0 then 0x1b else 0x00))
  }

  function Rest(y: Element): Element { Element(y.bits >> 1) }

  predicate HasUnit(y: Element) { y.bits & 1 == 1 }

  predicate Overflows(x: Element) { x.bits & 0x80 != 0 }

  /** Multiplication in the field, one XTime per coefficient of y. */
  function Times(x: Element, y: Element): Element
    decreases y.bits
  {
    if y.bits == 0 then NOTHING
    else if HasUnit(y) then Add(x, Times(XTime(x), Rest(y)))
    else Times(XTime(x), Rest(y))
  }

  function AsPoly(x: Element): Poly { Poly(x.bits as bv16) }

  /** r is a remainder of p modulo MODULUS.  Products of two bytes have degree at most 14, so a
      quotient of degree at most 6 is asked for. */
  ghost predicate IsRemainder(r: Element, p: Poly) {
    exists quotient: Poly :: quotient.bits < 0x80 && p == Plus(AsPoly(r), Product(MODULUS, quotient))
  }

  // ---------------------------------------------------------------- Times is multiplication modulo MODULUS

  lemma XTimeReduces(x: Element)
    ensures Shift(AsPoly(x)) == Plus(AsPoly(XTime(x)), if Overflows(x) then MODULUS else ZERO)
  {
    assert Overflows(x) || x.bits & 0x80 == 0;
  }

  lemma AsPolyAdd(x: Element, y: Element)
    ensures AsPoly(Add(x, y)) == Plus(AsPoly(x), AsPoly(y))
  {}

  lemma AsPolyRest(y: Element)
    ensures Halve(AsPoly(y)) == AsPoly(Rest(y))
    ensures Odd(AsPoly(y)) == HasUnit(y)
  {}

  lemma AddUnit(x: Element, t: Element, m: Poly)
    ensures Plus(AsPoly(x), Plus(AsPoly(t), m)) == Plus(AsPoly(Add(x, t)), m)
  {
    AsPolyAdd(x, t);
    PlusAssociates(AsPoly(x), AsPoly(t), m);
  }

  lemma TimesUnfolds(x: Element, y: Element)
    ensures Times(x, y) == if HasUnit(y) then Add(x, Times(XTime(x), Rest(y))) else Times(XTime(x), Rest(y))
  {}

  lemma ShiftedProduct(x: Element, q: Poly)
    ensures Product(Shift(AsPoly(x)), q)
         == Plus(Product(AsPoly(XTime(x)), q), if Overflows(x) then Product(MODULUS, q) else ZERO)
  {
    XTimeReduces(x);
    ProductLeftLinear(AsPoly(XTime(x)), if Overflows(x) then MODULUS else ZERO, q);
    ProductOfZero(q);
  }

  /** What XTime drops from the shifted multiplicand goes into the quotient. */
  function NextQuotient(x: Element, z: Poly, quotient: Poly): Poly {
    if Overflows(x) then Plus(quotient, z) else quotient
  }

  lemma QuotientShift(x: Element, z: Poly, t: Poly, quotient: Poly)
    requires Product(AsPoly(XTime(x)), z) == Plus(t, Product(MODULUS, quotient))
    ensures Product(Shift(AsPoly(x)), z) == Plus(t, Product(MODULUS, NextQuotient(x, z, quotient)))
  {
    ShiftedProduct(x, z);
    if Overflows(x) {
      ProductRightLinear(MODULUS, quotient, z);
      PlusAssociates(t, Product(MODULUS, quotient), Product(MODULUS, z));
    } else {
      PlusZero(Plus(t, Product(MODULUS, quotient)));
    }
  }

  lemma QuotientStep(x: Element, y: Element, quotient: Poly)
    requires Product(AsPoly(XTime(x)), AsPoly(Rest(y)))
          == Plus(AsPoly(Times(XTime(x), Rest(y))), Product(MODULUS, quotient))
    ensures Product(AsPoly(x), AsPoly(y))
         == Plus(AsPoly(Times(x, y)), Product(MODULUS, NextQuotient(x, AsPoly(Rest(y)), quotient)))
  {
    var t := Times(XTime(x), Rest(y));
    var next := NextQuotient(x, AsPoly(Rest(y)), quotient);
    QuotientShift(x, AsPoly(Rest(y)), AsPoly(t), quotient);
    AsPolyRest(y);
    ProductUnfolds(AsPoly(x), AsPoly(y));
    TimesUnfolds(x, y);
    AddUnit(x, t, Product(MODULUS, next));
  }

  lemma QuotientStaysSmall(x: Element, y: Element, quotient: Poly)
    requires quotient.bits < 0x80
    ensures NextQuotient(x, AsPoly(Rest(y)), quotient).bits < 0x80
  {}

  lemma TimesByNothing(x: Element)
    ensures Product(AsPoly(x), AsPoly(NOTHING)) == Plus(AsPoly(Times(x, NOTHING)), Product(MODULUS, ZERO))
  {}

  lemma {:induction false} TimesHasQuotient(x: Element, y: Element) returns (quotient: Poly)
    ensures quotient.bits < 0x80
    ensures Product(AsPoly(x), AsPoly(y)) == Plus(AsPoly(Times(x, y)), Product(MODULUS, quotient))
    decreases y.bits
  {
    if y == NOTHING {
      TimesByNothing(x);
      quotient := ZERO;
    } else {
      var inner := TimesHasQuotient(XTime(x), Rest(y));
      quotient := NextQuotient(x, AsPoly(Rest(y)), inner);
      QuotientStaysSmall(x, y, inner);
      QuotientStep(x, y, inner);
    }
  }

  /** Times computes the product of section 4.2 of FIPS 197 for all pairs of bytes. */
  lemma TimesIsRemainder(x: Element, y: Element)
    ensures IsRemainder(Times(x, y), Product(AsPoly(x), AsPoly(y)))
  {
    var quotient := TimesHasQuotient(x, y);
  }

  /** The multiples of MODULUS by polynomials of degree at most 6, summed up in closed form. */
  function ModulusMultiple(q: Poly): Poly {
    Poly((q.bits << 8) ^ (q.bits << 4) ^ (q.bits << 3) ^ (q.bits << 1) ^ q.bits)
  }

  lemma ModulusMultipleHighHalf(q: Poly)
    requires q.bits < 0x8
    ensures Product(Poly(0x11b0), q) == Shift(Shift(Shift(Shift(ModulusMultiple(q)))))
  {
    ProductUnfolds(Poly(0x11b0), q);
    ProductUnfolds(Poly(0x2360), Poly(q.bits >> 1));
    ProductUnfolds(Poly(0x46c0), Poly(q.bits >> 2));
    assert Poly(q.bits >> 3) == ZERO;
  }

  lemma ModulusMultipleIsProduct(q: Poly)
    requires q.bits < 0x80
    ensures Product(MODULUS, q) == ModulusMultiple(q)
  {
    ModulusMultipleHighHalf(Poly(q.bits >> 4));
    ProductUnfolds(Poly(0x11b), q);
    ProductUnfolds(Poly(0x236), Poly(q.bits >> 1));
    ProductUnfolds(Poly(0x46c), Poly(q.bits >> 2));
    ProductUnfolds(Poly(0x8d8), Poly(q.bits >> 3));
  }

  lemma SmallMultipleIsZero(q: Poly)
    requires q.bits < 0x80 && ModulusMultiple(q).bits < 0x100
    ensures q == ZERO
  {}

  lemma DifferenceOfSums(r: Poly, r': Poly, m: Poly, m': Poly)
    requires Plus(r, m) == Plus(r', m')
    ensures Plus(r, r') == Plus(m, m')
  {}

  lemma EqualIfDifferenceIsZero(r: Poly, r': Poly)
    requires Plus(r, r') == ZERO
    ensures r == r'
  {}

  /** There is only one remainder, so TimesIsRemainder determines Times. */
  lemma RemainderIsUnique(r: Element, r': Element, p: Poly)
    requires IsRemainder(r, p) && IsRemainder(r', p)
    ensures r == r'
  {
    hide Product, Plus, AsPoly;
    var q: Poly :| q.bits < 0x80 && p == Plus(AsPoly(r), Product(MODULUS, q));
    var q': Poly :| q'.bits < 0x80 && p == Plus(AsPoly(r'), Product(MODULUS, q'));
    DifferenceOfSums(AsPoly(r), AsPoly(r'), Product(MODULUS, q), Product(MODULUS, q'));
    ProductRightLinear(MODULUS, q, q');
    SumStaysSmall(q, q');
    OnlyZeroFits(r, r', Plus(q, q'));
    EqualIfDifferenceIsZero(AsPoly(r), AsPoly(r'));
    AsPolyIsInjective(r, r');
  }

  lemma SumStaysSmall(q: Poly, q': Poly)
    requires q.bits < 0x80 && q'.bits < 0x80
    ensures Plus(q, q').bits < 0x80
  {}

  lemma AsPolyIsInjective(r: Element, r': Element)
    requires AsPoly(r) == AsPoly(r')
    ensures r == r'
  {}

  lemma OnlyZeroFits(r: Element, r': Element, q: Poly)
    requires q.bits < 0x80 && Plus(AsPoly(r), AsPoly(r')) == Product(MODULUS, q)
    ensures Product(MODULUS, q) == ZERO
  {
    ModulusMultipleIsProduct(q);
    AsPolyAdd(r, r');
    SmallMultipleIsZero(q);
  }

  // ---------------------------------------------------------------- Field laws

  lemma AddExchanges(a: Element, b: Element, c: Element, d: Element)
    ensures Add(Add(a, b), Add(c, d)) == Add(Add(a, c), Add(b, d))
  {}

  lemma AddAssociates(a: Element, b: Element, c: Element)
    ensures Add(Add(a, b), c) == Add(a, Add(b, c))
  {}

  lemma AddCommutes(a: Element, b: Element)
    ensures Add(a, b) == Add(b, a)
  {}

  lemma AddSelf(a: Element)
    ensures Add(a, a) == NOTHING
  {}

  lemma AddNothing(a: Element)
    ensures Add(a, NOTHING) == a
  {}

  lemma TopBit(x: Element)
    ensures Overflows(x) || x.bits & 0x80 == 0
  {}

  lemma XTimeAdd(x: Element, y: Element)
    ensures XTime(Add(x, y)) == Add(XTime(x), XTime(y))
  {
    TopBit(x);
    TopBit(y);
    assert Add(x, y).bits & 0x80 == (x.bits & 0x80) ^ (y.bits & 0x80);
  }

  /** Multiplication is linear in its first argument. */
  lemma {:induction false} TimesLeftLinear(x: Element, x': Element, y: Element)
    ensures Times(Add(x, x'), y) == Add(Times(x, y), Times(x', y))
    decreases y.bits
  {
    if y.bits != 0 {
      XTimeAdd(x, x');
      TimesLeftLinear(XTime(x), XTime(x'), Rest(y));
      if HasUnit(y) {
        AddExchanges(x, Times(XTime(x), Rest(y)), x', Times(XTime(x'), Rest(y)));
      }
    }
  }

  lemma {:induction false} TimesXTime(x: Element, y: Element)
    ensures Times(XTime(x), y) == XTime(Times(x, y))
    decreases y.bits
  {
    if y.bits != 0 {
      TimesXTime(XTime(x), Rest(y));
      if HasUnit(y) {
        XTimeAdd(x, Times(XTime(x), Rest(y)));
      }
    }
  }

  lemma RestAdd(y: Element, y': Element)
    ensures Rest(Add(y, y')) == Add(Rest(y), Rest(y'))
    ensures HasUnit(Add(y, y')) == (HasUnit(y) != HasUnit(y'))
  {
    LastBit(y);
    LastBit(y');
  }

  lemma LastBit(y: Element)
    ensures HasUnit(y) || y.bits & 1 == 0
  {}

  lemma RestsShrink(y: Element, y': Element)
    requires y.bits != 0 || y'.bits != 0
    ensures Rest(y).bits | Rest(y').bits < y.bits | y'.bits
  {}

  lemma SelectedAdds(p: Element, x: Element, y: Element, first: bool, second: bool)
    ensures Add(if first then Add(p, x) else x, if second then Add(p, y) else y)
         == if first != second then Add(p, Add(x, y)) else Add(x, y)
  {
    if first && second {
      AddExchanges(p, x, p, y);
      AddSelf(p);
    } else if first {
      AddAssociates(p, x, y);
    } else if second {
      AddAssociates(x, p, y);
      AddCommutes(x, p);
      AddAssociates(p, x, y);
    }
  }

  lemma TimesRightStep(x: Element, y: Element, y': Element)
    requires Times(XTime(x), Add(Rest(y), Rest(y'))) == Add(Times(XTime(x), Rest(y)), Times(XTime(x), Rest(y')))
    ensures Times(x, Add(y, y')) == Add(Times(x, y), Times(x, y'))
  {
    RestAdd(y, y');
    TimesUnfolds(x, y);
    TimesUnfolds(x, y');
    TimesUnfolds(x, Add(y, y'));
    SelectedAdds(x, Times(XTime(x), Rest(y)), Times(XTime(x), Rest(y')), HasUnit(y), HasUnit(y'));
  }

  lemma TimesByNothings(x: Element)
    ensures Times(x, Add(NOTHING, NOTHING)) == Add(Times(x, NOTHING), Times(x, NOTHING))
  {}

  lemma {:induction false} TimesRightLinear(x: Element, y: Element, y': Element)
    ensures Times(x, Add(y, y')) == Add(Times(x, y), Times(x, y'))
    decreases y.bits | y'.bits
  {
    if y == NOTHING && y' == NOTHING {
      TimesByNothings(x);
    } else {
      RestsShrink(y, y');
      TimesRightLinear(XTime(x), Rest(y), Rest(y'));
      TimesRightStep(x, y, y');
    }
  }

  /** Two and four multiplications by x at once: what overflows comes back as x^4 + x^3 + x + 1 times itself. */
  function SquareTimes(x: Element): Element {
    var top := x.bits >> 6;
    Element((x.bits << 2) ^ (top << 4) ^ (top << 3) ^ (top << 1) ^ top)
  }

  function FourthTimes(x: Element): Element {
    var top := x.bits >> 4;
    Element((x.bits << 4) ^ (top << 4) ^ (top << 3) ^ (top << 1) ^ top)
  }

  lemma SquareIsTwice(x: Element)
    ensures SquareTimes(x) == XTime(XTime(x))
  {}

  lemma FourthIsSquares(x: Element)
    ensures FourthTimes(x) == SquareTimes(SquareTimes(x))
  {}

  lemma EighthIsSum(x: Element)
    ensures FourthTimes(FourthTimes(x)) == Add(x, Add(XTime(x), Add(XTime(SquareTimes(x)), FourthTimes(x))))
  {}

  lemma EighthPower(x: Element)
    ensures var x4 := XTime(XTime(XTime(XTime(x))));
            XTime(XTime(XTime(XTime(x4)))) == Add(x, Add(XTime(x), Add(XTime(XTime(XTime(x))), x4)))
  {
    hide XTime, Add, SquareTimes, FourthTimes;
    var x2 := XTime(XTime(x));
    var x4 := XTime(XTime(x2));
    SquareIsTwice(x);
    SquareIsTwice(x2);
    FourthIsSquares(x);
    SquareIsTwice(x4);
    SquareIsTwice(XTime(XTime(x4)));
    FourthIsSquares(x4);
    EighthIsSum(x);
  }

  lemma TimesReduction(x: Element)
    ensures Times(x, Element(0x1b)) == Times(XTime(x), Element(0x80))
  {
    var x1 := XTime(x);
    var x2 := XTime(x1);
    var x3 := XTime(x2);
    var x4 := XTime(x3);
    TimesLowPart(x);
    TimesHighPart(x1);
    EighthPower(x);
  }

  lemma TimesLowPart(x: Element)
    ensures Times(x, Element(0x1b)) == Add(x, Add(XTime(x), Add(XTime(XTime(XTime(x))), XTime(XTime(XTime(XTime(x)))))))
  {
    var x1 := XTime(x);
    var x2 := XTime(x1);
    var x3 := XTime(x2);
    TimesUnfolds(x, Element(0x1b));
    TimesUnfolds(x1, Element(0x0d));
    TimesUnfolds(x2, Element(0x06));
    TimesUnfolds(x3, Element(0x03));
    TimesUnfolds(XTime(x3), Element(0x01));
    AddNothing(XTime(x3));
  }

  lemma TimesHighPart(x: Element)
    ensures Times(x, Element(0x80)) == XTime(XTime(XTime(XTime(XTime(XTime(XTime(x)))))))
  {
    var x1 := XTime(x);
    var x2 := XTime(x1);
    var x3 := XTime(x2);
    var x4 := XTime(x3);
    var x5 := XTime(x4);
    var x6 := XTime(x5);
    TimesUnfolds(x, Element(0x80));
    TimesUnfolds(x1, Element(0x40));
    TimesUnfolds(x2, Element(0x20));
    TimesUnfolds(x3, Element(0x10));
    TimesUnfolds(x4, Element(0x08));
    TimesUnfolds(x5, Element(0x04));
    TimesUnfolds(x6, Element(0x02));
    TimesUnfolds(XTime(x6), Element(0x01));
    AddNothing(XTime(x6));
  }

  lemma SplitTop(y: Element)
    ensures XTime(y) == Add(Element(y.bits << 1), if Overflows(y) then Element(0x1b) else NOTHING)
    ensures y == Add(Rest(Element(y.bits << 1)), if Overflows(y) then Element(0x80) else NOTHING)
    ensures !HasUnit(Element(y.bits << 1))
  {
    TopBit(y);
  }

  lemma TimesXTimeRight(x: Element, y: Element)
    ensures Times(x, XTime(y)) == XTime(Times(x, y))
  {
    var doubled := Element(y.bits << 1);
    SplitTop(y);
    TimesUnfolds(x, doubled);
    TimesXTime(x, y);
    if Overflows(y) {
      TimesRightLinear(x, doubled, Element(0x1b));
      TimesRightLinear(XTime(x), Rest(doubled), Element(0x80));
      TimesReduction(x);
    } else {
      AddNothing(doubled);
      AddNothing(Rest(doubled));
    }
  }

  lemma {:induction false} TimesAssociates(x: Element, y: Element, z: Element)
    ensures Times(Times(x, y), z) == Times(x, Times(y, z))
    decreases z.bits
  {
    if z.bits != 0 {
      TimesXTimeRight(x, y);
      TimesAssociates(x, XTime(y), Rest(z));
      if HasUnit(z) {
        TimesRightLinear(x, y, Times(XTime(y), Rest(z)));
      }
    }
  }

  lemma TimesOne(x: Element)
    ensures Times(x, ONE) == x
  {
    TimesUnfolds(x, ONE);
    AddNothing(x);
  }
}
