/** The substitution tables of src/core/crypto/aes.cpp, and their meaning in section 5.1.1 of FIPS 197.

    Each table is laid out as sixteen rows of sixteen bytes; a byte is looked up by its two halves. */
module AesTables {
  import opened GaloisField

  const SBOX: seq<seq<bv8>> := [
    [0x63, 0x7c, 0x77, 0x7b, 0xf2, 0x6b, 0x6f, 0xc5, 0x30, 0x01, 0x67, 0x2b, 0xfe, 0xd7, 0xab, 0x76],
    [0xca, 0x82, 0xc9, 0x7d, 0xfa, 0x59, 0x47, 0xf0, 0xad, 0xd4, 0xa2, 0xaf, 0x9c, 0xa4, 0x72, 0xc0],
    [0xb7, 0xfd, 0x93, 0x26, 0x36, 0x3f, 0xf7, 0xcc, 0x34, 0xa5, 0xe5, 0xf1, 0x71, 0xd8, 0x31, 0x15],
    [0x04, 0xc7, 0x23, 0xc3, 0x18, 0x96, 0x05, 0x9a, 0x07, 0x12, 0x80, 0xe2, 0xeb, 0x27, 0xb2, 0x75],
    [0x09, 0x83, 0x2c, 0x1a, 0x1b, 0x6e, 0x5a, 0xa0, 0x52, 0x3b, 0xd6, 0xb3, 0x29, 0xe3, 0x2f, 0x84],
    [0x53, 0xd1, 0x00, 0xed, 0x20, 0xfc, 0xb1, 0x5b, 0x6a, 0xcb, 0xbe, 0x39, 0x4a, 0x4c, 0x58, 0xcf],
    [0xd0, 0xef, 0xaa, 0xfb, 0x43, 0x4d, 0x33, 0x85, 0x45, 0xf9, 0x02, 0x7f, 0x50, 0x3c, 0x9f, 0xa8],
    [0x51, 0xa3, 0x40, 0x8f, 0x92, 0x9d, 0x38, 0xf5, 0xbc, 0xb6, 0xda, 0x21, 0x10, 0xff, 0xf3, 0xd2],
    [0xcd, 0x0c, 0x13, 0xec, 0x5f, 0x97, 0x44, 0x17, 0xc4, 0xa7, 0x7e, 0x3d, 0x64, 0x5d, 0x19, 0x73],
    [0x60, 0x81, 0x4f, 0xdc, 0x22, 0x2a, 0x90, 0x88, 0x46, 0xee, 0xb8, 0x14, 0xde, 0x5e, 0x0b, 0xdb],
    [0xe0, 0x32, 0x3a, 0x0a, 0x49, 0x06, 0x24, 0x5c, 0xc2, 0xd3, 0xac, 0x62, 0x91, 0x95, 0xe4, 0x79],
    [0xe7, 0xc8, 0x37, 0x6d, 0x8d, 0xd5, 0x4e, 0xa9, 0x6c, 0x56, 0xf4, 0xea, 0x65, 0x7a, 0xae, 0x08],
    [0xba, 0x78, 0x25, 0x2e, 0x1c, 0xa6, 0xb4, 0xc6, 0xe8, 0xdd, 0x74, 0x1f, 0x4b, 0xbd, 0x8b, 0x8a],
    [0x70, 0x3e, 0xb5, 0x66, 0x48, 0x03, 0xf6, 0x0e, 0x61, 0x35, 0x57, 0xb9, 0x86, 0xc1, 0x1d, 0x9e],
    [0xe1, 0xf8, 0x98, 0x11, 0x69, 0xd9, 0x8e, 0x94, 0x9b, 0x1e, 0x87, 0xe9, 0xce, 0x55, 0x28, 0xdf],
    [0x8c, 0xa1, 0x89, 0x0d, 0xbf, 0xe6, 0x42, 0x68, 0x41, 0x99, 0x2d, 0x0f, 0xb0, 0x54, 0xbb, 0x16]
  ]

  const INVERSE_SBOX: seq<seq<bv8>> := [
    [0x52, 0x09, 0x6a, 0xd5, 0x30, 0x36, 0xa5, 0x38, 0xbf, 0x40, 0xa3, 0x9e, 0x81, 0xf3, 0xd7, 0xfb],
    [0x7c, 0xe3, 0x39, 0x82, 0x9b, 0x2f, 0xff, 0x87, 0x34, 0x8e, 0x43, 0x44, 0xc4, 0xde, 0xe9, 0xcb],
    [0x54, 0x7b, 0x94, 0x32, 0xa6, 0xc2, 0x23, 0x3d, 0xee, 0x4c, 0x95, 0x0b, 0x42, 0xfa, 0xc3, 0x4e],
    [0x08, 0x2e, 0xa1, 0x66, 0x28, 0xd9, 0x24, 0xb2, 0x76, 0x5b, 0xa2, 0x49, 0x6d, 0x8b, 0xd1, 0x25],
    [0x72, 0xf8, 0xf6, 0x64, 0x86, 0x68, 0x98, 0x16, 0xd4, 0xa4, 0x5c, 0xcc, 0x5d, 0x65, 0xb6, 0x92],
    [0x6c, 0x70, 0x48, 0x50, 0xfd, 0xed, 0xb9, 0xda, 0x5e, 0x15, 0x46, 0x57, 0xa7, 0x8d, 0x9d, 0x84],
    [0x90, 0xd8, 0xab, 0x00, 0x8c, 0xbc, 0xd3, 0x0a, 0xf7, 0xe4, 0x58, 0x05, 0xb8, 0xb3, 0x45, 0x06],
    [0xd0, 0x2c, 0x1e, 0x8f, 0xca, 0x3f, 0x0f, 0x02, 0xc1, 0xaf, 0xbd, 0x03, 0x01, 0x13, 0x8a, 0x6b],
    [0x3a, 0x91, 0x11, 0x41, 0x4f, 0x67, 0xdc, 0xea, 0x97, 0xf2, 0xcf, 0xce, 0xf0, 0xb4, 0xe6, 0x73],
    [0x96, 0xac, 0x74, 0x22, 0xe7, 0xad, 0x35, 0x85, 0xe2, 0xf9, 0x37, 0xe8, 0x1c, 0x75, 0xdf, 0x6e],
    [0x47, 0xf1, 0x1a, 0x71, 0x1d, 0x29, 0xc5, 0x89, 0x6f, 0xb7, 0x62, 0x0e, 0xaa, 0x18, 0xbe, 0x1b],
    [0xfc, 0x56, 0x3e, 0x4b, 0xc6, 0xd2, 0x79, 0x20, 0x9a, 0xdb, 0xc0, 0xfe, 0x78, 0xcd, 0x5a, 0xf4],
    [0x1f, 0xdd, 0xa8, 0x33, 0x88, 0x07, 0xc7, 0x31, 0xb1, 0x12, 0x10, 0x59, 0x27, 0x80, 0xec, 0x5f],
    [0x60, 0x51, 0x7f, 0xa9, 0x19, 0xb5, 0x4a, 0x0d, 0x2d, 0xe5, 0x7a, 0x9f, 0x93, 0xc9, 0x9c, 0xef],
    [0xa0, 0xe0, 0x3b, 0x4d, 0xae, 0x2a, 0xf5, 0xb0, 0xc8, 0xeb, 0xbb, 0x3c, 0x83, 0x53, 0x99, 0x61],
    [0x17, 0x2b, 0x04, 0x7e, 0xba, 0x77, 0xd6, 0x26, 0xe1, 0x69, 0x14, 0x63, 0x55, 0x21, 0x0c, 0x7d]
  ]

  const RCON: seq<bv8> := [
    0x00, 0x01, 0x02, 0x04, 0x08, 0x10, 0x20, 0x40, 0x80, 0x1b, 0x36, 0x6c, 0xd8, 0xab, 0x4d
  ]

  lemma TableShapes()
    ensures |SBOX| == 16 && forall i :: 0 <= i < 16 ==> |SBOX[i]| == 16
    ensures |INVERSE_SBOX| == 16 && forall i :: 0 <= i < 16 ==> |INVERSE_SBOX[i]| == 16
  {}

  function SubElement(x: Element): Element {
    TableShapes();
    Element(SBOX[(x.bits >> 4) as int][(x.bits & 0xf) as int])
  }

  function InvSubElement(x: Element): Element {
    TableShapes();
    Element(INVERSE_SBOX[(x.bits >> 4) as int][(x.bits & 0xf) as int])
  }

  // ---------------------------------------------------------------- The S-box of the standard

  /** The affine transformation of section 5.1.1: x plus its rotations by one to four bits plus 0x63. */
  function Affine(x: Element): Element {
    var b := x.bits;
    Element(b ^ ((b << 1) | (b >> 7)) ^ ((b << 2) | (b >> 6)) ^ ((b << 3) | (b >> 5)) ^ ((b << 4) | (b >> 4)) ^ 0x63)
  }

  function InverseAffine(x: Element): Element {
    var b := x.bits;
    Element(((b << 1) | (b >> 7)) ^ ((b << 3) | (b >> 5)) ^ ((b << 6) | (b >> 2)) ^ 0x05)
  }

  lemma AffineOfInverse(x: Element)
    ensures Affine(InverseAffine(x)) == x
  {}

  /** What section 5.1.1 says of the S-box value y of x: the multiplicative inverse of x (or zero for
      zero), put through the affine transformation. */
  ghost predicate IsSubstitution(x: Element, y: Element) {
    exists inverse: Element ::
      && Affine(inverse) == y
      && if x == NOTHING then inverse == NOTHING else Times(x, inverse) == ONE
  }

  /** Times, with the coefficients of y written out; used to evaluate it on constants. */
  function UnrolledTimes(x: Element, y: Element): Element {
    var x1 := XTime(x);
    var x2 := XTime(x1);
    var x3 := XTime(x2);
    var x4 := XTime(x3);
    var x5 := XTime(x4);
    var x6 := XTime(x5);
    var x7 := XTime(x6);
    Term(x, y, 0x01, Term(x1, y, 0x02, Term(x2, y, 0x04, Term(x3, y, 0x08,
      Term(x4, y, 0x10, Term(x5, y, 0x20, Term(x6, y, 0x40, Term(x7, y, 0x80, NOTHING))))))))
  }

  function Term(x: Element, y: Element, coefficient: bv8, rest: Element): Element {
    if y.bits & coefficient != 0 then Add(x, rest) else rest
  }

  lemma UnrolledTimesIsTimes(x: Element, y: Element)
    ensures UnrolledTimes(x, y) == Times(x, y)
  {
    var x1 := XTime(x);
    var x2 := XTime(x1);
    var x3 := XTime(x2);
    var x4 := XTime(x3);
    var x5 := XTime(x4);
    var x6 := XTime(x5);
    var x7 := XTime(x6);
    var y4 := Rest(Rest(Rest(Rest(y))));
    FourTerms(x, y, Times(x4, y4));
    FourTerms(x4, y4, Times(XTime(x7), Rest(Rest(Rest(Rest(y4))))));
    HighTerms(x4, y, y4, NOTHING);
    NothingIsLeft(y);
  }

  function FourTermsOf(x: Element, y: Element, c: bv8, rest: Element): Element {
    Term(x, y, c,
         Term(XTime(x), y, c << 1, Term(XTime(XTime(x)), y, c << 2, Term(XTime(XTime(XTime(x))), y, c << 3, rest))))
  }

  lemma FourTerms(x: Element, y: Element, rest: Element)
    requires rest == Times(XTime(XTime(XTime(XTime(x)))), Rest(Rest(Rest(Rest(y)))))
    ensures FourTermsOf(x, y, 1, rest) == Times(x, y)
  {
    var x1 := XTime(x);
    var x2 := XTime(x1);
    var y1 := Rest(y);
    var y2 := Rest(y1);
    TimesUnfolds(x, y);
    TimesUnfolds(x1, y1);
    TimesUnfolds(x2, y2);
    TimesUnfolds(XTime(x2), Rest(y2));
    CoefficientsOf(y);
  }

  lemma CoefficientsOf(y: Element)
    ensures HasUnit(y) == (y.bits & 1 != 0)
    ensures HasUnit(Rest(y)) == (y.bits & 2 != 0)
    ensures HasUnit(Rest(Rest(y))) == (y.bits & 4 != 0)
    ensures HasUnit(Rest(Rest(Rest(y)))) == (y.bits & 8 != 0)
  {}

  lemma HighTerms(x: Element, y: Element, y4: Element, rest: Element)
    requires y4 == Rest(Rest(Rest(Rest(y))))
    ensures FourTermsOf(x, y4, 0x01, rest) == FourTermsOf(x, y, 0x10, rest)
  {
    HighCoefficientsOf(y);
  }

  lemma HighCoefficientsOf(y: Element)
    ensures var y4 := Rest(Rest(Rest(Rest(y))));
            && (y4.bits & 1 != 0) == (y.bits & 0x10 != 0)
            && (y4.bits & 2 != 0) == (y.bits & 0x20 != 0)
            && (y4.bits & 4 != 0) == (y.bits & 0x40 != 0)
            && (y4.bits & 8 != 0) == (y.bits & 0x80 != 0)
  {}

  lemma NothingIsLeft(y: Element)
    ensures Rest(Rest(Rest(Rest(Rest(Rest(Rest(Rest(y)))))))) == NOTHING
  {}

  // ---------------------------------------------------------------- Row by row

  /** What is checked of every byte x: its S-box value is the one section 5.1.1 defines, and the
      inverse table leads back. */
  predicate SubstitutesWell(x: Element) {
    && InvSubElement(SubElement(x)) == x
    && var inverse := InverseAffine(SubElement(x));
       if x == NOTHING then inverse == NOTHING else UnrolledTimes(x, inverse) == ONE
  }

  predicate InverseSubstitutesWell(x: Element) {
    SubElement(InvSubElement(x)) == x
  }

  predicate InRow(x: Element, row: bv8) { x.bits >> 4 == row }

  lemma Row0(x: Element)
    requires InRow(x, 0x0)
    ensures SubstitutesWell(x)
  {
    assert x.bits == 0x00 || x.bits == 0x01 || x.bits == 0x02 || x.bits == 0x03
           || x.bits == 0x04 || x.bits == 0x05 || x.bits == 0x06 || x.bits == 0x07
           || x.bits == 0x08 || x.bits == 0x09 || x.bits == 0x0a || x.bits == 0x0b
           || x.bits == 0x0c || x.bits == 0x0d || x.bits == 0x0e || x.bits == 0x0f;
  }

  lemma InverseRow0(x: Element)
    requires InRow(x, 0x0)
    ensures InverseSubstitutesWell(x)
  {
    assert x.bits == 0x00 || x.bits == 0x01 || x.bits == 0x02 || x.bits == 0x03
           || x.bits == 0x04 || x.bits == 0x05 || x.bits == 0x06 || x.bits == 0x07
           || x.bits == 0x08 || x.bits == 0x09 || x.bits == 0x0a || x.bits == 0x0b
           || x.bits == 0x0c || x.bits == 0x0d || x.bits == 0x0e || x.bits == 0x0f;
  }

  lemma Row1(x: Element)
    requires InRow(x, 0x1)
    ensures SubstitutesWell(x)
  {
    assert x.bits == 0x10 || x.bits == 0x11 || x.bits == 0x12 || x.bits == 0x13
           || x.bits == 0x14 || x.bits == 0x15 || x.bits == 0x16 || x.bits == 0x17
           || x.bits == 0x18 || x.bits == 0x19 || x.bits == 0x1a || x.bits == 0x1b
           || x.bits == 0x1c || x.bits == 0x1d || x.bits == 0x1e || x.bits == 0x1f;
  }

  lemma InverseRow1(x: Element)
    requires InRow(x, 0x1)
    ensures InverseSubstitutesWell(x)
  {
    assert x.bits == 0x10 || x.bits == 0x11 || x.bits == 0x12 || x.bits == 0x13
           || x.bits == 0x14 || x.bits == 0x15 || x.bits == 0x16 || x.bits == 0x17
           || x.bits == 0x18 || x.bits == 0x19 || x.bits == 0x1a || x.bits == 0x1b
           || x.bits == 0x1c || x.bits == 0x1d || x.bits == 0x1e || x.bits == 0x1f;
  }

  lemma Row2(x: Element)
    requires InRow(x, 0x2)
    ensures SubstitutesWell(x)
  {
    assert x.bits == 0x20 || x.bits == 0x21 || x.bits == 0x22 || x.bits == 0x23
           || x.bits == 0x24 || x.bits == 0x25 || x.bits == 0x26 || x.bits == 0x27
           || x.bits == 0x28 || x.bits == 0x29 || x.bits == 0x2a || x.bits == 0x2b
           || x.bits == 0x2c || x.bits == 0x2d || x.bits == 0x2e || x.bits == 0x2f;
  }

  lemma InverseRow2(x: Element)
    requires InRow(x, 0x2)
    ensures InverseSubstitutesWell(x)
  {
    assert x.bits == 0x20 || x.bits == 0x21 || x.bits == 0x22 || x.bits == 0x23
           || x.bits == 0x24 || x.bits == 0x25 || x.bits == 0x26 || x.bits == 0x27
           || x.bits == 0x28 || x.bits == 0x29 || x.bits == 0x2a || x.bits == 0x2b
           || x.bits == 0x2c || x.bits == 0x2d || x.bits == 0x2e || x.bits == 0x2f;
  }

  lemma Row3(x: Element)
    requires InRow(x, 0x3)
    ensures SubstitutesWell(x)
  {
    assert x.bits == 0x30 || x.bits == 0x31 || x.bits == 0x32 || x.bits == 0x33
           || x.bits == 0x34 || x.bits == 0x35 || x.bits == 0x36 || x.bits == 0x37
           || x.bits == 0x38 || x.bits == 0x39 || x.bits == 0x3a || x.bits == 0x3b
           || x.bits == 0x3c || x.bits == 0x3d || x.bits == 0x3e || x.bits == 0x3f;
  }

  lemma InverseRow3(x: Element)
    requires InRow(x, 0x3)
    ensures InverseSubstitutesWell(x)
  {
    assert x.bits == 0x30 || x.bits == 0x31 || x.bits == 0x32 || x.bits == 0x33
           || x.bits == 0x34 || x.bits == 0x35 || x.bits == 0x36 || x.bits == 0x37
           || x.bits == 0x38 || x.bits == 0x39 || x.bits == 0x3a || x.bits == 0x3b
           || x.bits == 0x3c || x.bits == 0x3d || x.bits == 0x3e || x.bits == 0x3f;
  }

  lemma Row4(x: Element)
    requires InRow(x, 0x4)
    ensures SubstitutesWell(x)
  {
    assert x.bits == 0x40 || x.bits == 0x41 || x.bits == 0x42 || x.bits == 0x43
           || x.bits == 0x44 || x.bits == 0x45 || x.bits == 0x46 || x.bits == 0x47
           || x.bits == 0x48 || x.bits == 0x49 || x.bits == 0x4a || x.bits == 0x4b
           || x.bits == 0x4c || x.bits == 0x4d || x.bits == 0x4e || x.bits == 0x4f;
  }

  lemma InverseRow4(x: Element)
    requires InRow(x, 0x4)
    ensures InverseSubstitutesWell(x)
  {
    assert x.bits == 0x40 || x.bits == 0x41 || x.bits == 0x42 || x.bits == 0x43
           || x.bits == 0x44 || x.bits == 0x45 || x.bits == 0x46 || x.bits == 0x47
           || x.bits == 0x48 || x.bits == 0x49 || x.bits == 0x4a || x.bits == 0x4b
           || x.bits == 0x4c || x.bits == 0x4d || x.bits == 0x4e || x.bits == 0x4f;
  }

  lemma Row5(x: Element)
    requires InRow(x, 0x5)
    ensures SubstitutesWell(x)
  {
    assert x.bits == 0x50 || x.bits == 0x51 || x.bits == 0x52 || x.bits == 0x53
           || x.bits == 0x54 || x.bits == 0x55 || x.bits == 0x56 || x.bits == 0x57
           || x.bits == 0x58 || x.bits == 0x59 || x.bits == 0x5a || x.bits == 0x5b
           || x.bits == 0x5c || x.bits == 0x5d || x.bits == 0x5e || x.bits == 0x5f;
  }

  lemma InverseRow5(x: Element)
    requires InRow(x, 0x5)
    ensures InverseSubstitutesWell(x)
  {
    assert x.bits == 0x50 || x.bits == 0x51 || x.bits == 0x52 || x.bits == 0x53
           || x.bits == 0x54 || x.bits == 0x55 || x.bits == 0x56 || x.bits == 0x57
           || x.bits == 0x58 || x.bits == 0x59 || x.bits == 0x5a || x.bits == 0x5b
           || x.bits == 0x5c || x.bits == 0x5d || x.bits == 0x5e || x.bits == 0x5f;
  }

  lemma Row6(x: Element)
    requires InRow(x, 0x6)
    ensures SubstitutesWell(x)
  {
    assert x.bits == 0x60 || x.bits == 0x61 || x.bits == 0x62 || x.bits == 0x63
           || x.bits == 0x64 || x.bits == 0x65 || x.bits == 0x66 || x.bits == 0x67
           || x.bits == 0x68 || x.bits == 0x69 || x.bits == 0x6a || x.bits == 0x6b
           || x.bits == 0x6c || x.bits == 0x6d || x.bits == 0x6e || x.bits == 0x6f;
  }

  lemma InverseRow6(x: Element)
    requires InRow(x, 0x6)
    ensures InverseSubstitutesWell(x)
  {
    assert x.bits == 0x60 || x.bits == 0x61 || x.bits == 0x62 || x.bits == 0x63
           || x.bits == 0x64 || x.bits == 0x65 || x.bits == 0x66 || x.bits == 0x67
           || x.bits == 0x68 || x.bits == 0x69 || x.bits == 0x6a || x.bits == 0x6b
           || x.bits == 0x6c || x.bits == 0x6d || x.bits == 0x6e || x.bits == 0x6f;
  }

  lemma Row7(x: Element)
    requires InRow(x, 0x7)
    ensures SubstitutesWell(x)
  {
    assert x.bits == 0x70 || x.bits == 0x71 || x.bits == 0x72 || x.bits == 0x73
           || x.bits == 0x74 || x.bits == 0x75 || x.bits == 0x76 || x.bits == 0x77
           || x.bits == 0x78 || x.bits == 0x79 || x.bits == 0x7a || x.bits == 0x7b
           || x.bits == 0x7c || x.bits == 0x7d || x.bits == 0x7e || x.bits == 0x7f;
  }

  lemma InverseRow7(x: Element)
    requires InRow(x, 0x7)
    ensures InverseSubstitutesWell(x)
  {
    assert x.bits == 0x70 || x.bits == 0x71 || x.bits == 0x72 || x.bits == 0x73
           || x.bits == 0x74 || x.bits == 0x75 || x.bits == 0x76 || x.bits == 0x77
           || x.bits == 0x78 || x.bits == 0x79 || x.bits == 0x7a || x.bits == 0x7b
           || x.bits == 0x7c || x.bits == 0x7d || x.bits == 0x7e || x.bits == 0x7f;
  }

  lemma Row8(x: Element)
    requires InRow(x, 0x8)
    ensures SubstitutesWell(x)
  {
    assert x.bits == 0x80 || x.bits == 0x81 || x.bits == 0x82 || x.bits == 0x83
           || x.bits == 0x84 || x.bits == 0x85 || x.bits == 0x86 || x.bits == 0x87
           || x.bits == 0x88 || x.bits == 0x89 || x.bits == 0x8a || x.bits == 0x8b
           || x.bits == 0x8c || x.bits == 0x8d || x.bits == 0x8e || x.bits == 0x8f;
  }

  lemma InverseRow8(x: Element)
    requires InRow(x, 0x8)
    ensures InverseSubstitutesWell(x)
  {
    assert x.bits == 0x80 || x.bits == 0x81 || x.bits == 0x82 || x.bits == 0x83
           || x.bits == 0x84 || x.bits == 0x85 || x.bits == 0x86 || x.bits == 0x87
           || x.bits == 0x88 || x.bits == 0x89 || x.bits == 0x8a || x.bits == 0x8b
           || x.bits == 0x8c || x.bits == 0x8d || x.bits == 0x8e || x.bits == 0x8f;
  }

  lemma Row9(x: Element)
    requires InRow(x, 0x9)
    ensures SubstitutesWell(x)
  {
    assert x.bits == 0x90 || x.bits == 0x91 || x.bits == 0x92 || x.bits == 0x93
           || x.bits == 0x94 || x.bits == 0x95 || x.bits == 0x96 || x.bits == 0x97
           || x.bits == 0x98 || x.bits == 0x99 || x.bits == 0x9a || x.bits == 0x9b
           || x.bits == 0x9c || x.bits == 0x9d || x.bits == 0x9e || x.bits == 0x9f;
  }

  lemma InverseRow9(x: Element)
    requires InRow(x, 0x9)
    ensures InverseSubstitutesWell(x)
  {
    assert x.bits == 0x90 || x.bits == 0x91 || x.bits == 0x92 || x.bits == 0x93
           || x.bits == 0x94 || x.bits == 0x95 || x.bits == 0x96 || x.bits == 0x97
           || x.bits == 0x98 || x.bits == 0x99 || x.bits == 0x9a || x.bits == 0x9b
           || x.bits == 0x9c || x.bits == 0x9d || x.bits == 0x9e || x.bits == 0x9f;
  }

  lemma RowA(x: Element)
    requires InRow(x, 0xa)
    ensures SubstitutesWell(x)
  {
    assert x.bits == 0xa0 || x.bits == 0xa1 || x.bits == 0xa2 || x.bits == 0xa3
           || x.bits == 0xa4 || x.bits == 0xa5 || x.bits == 0xa6 || x.bits == 0xa7
           || x.bits == 0xa8 || x.bits == 0xa9 || x.bits == 0xaa || x.bits == 0xab
           || x.bits == 0xac || x.bits == 0xad || x.bits == 0xae || x.bits == 0xaf;
  }

  lemma InverseRowA(x: Element)
    requires InRow(x, 0xa)
    ensures InverseSubstitutesWell(x)
  {
    assert x.bits == 0xa0 || x.bits == 0xa1 || x.bits == 0xa2 || x.bits == 0xa3
           || x.bits == 0xa4 || x.bits == 0xa5 || x.bits == 0xa6 || x.bits == 0xa7
           || x.bits == 0xa8 || x.bits == 0xa9 || x.bits == 0xaa || x.bits == 0xab
           || x.bits == 0xac || x.bits == 0xad || x.bits == 0xae || x.bits == 0xaf;
  }

  lemma RowB(x: Element)
    requires InRow(x, 0xb)
    ensures SubstitutesWell(x)
  {
    assert x.bits == 0xb0 || x.bits == 0xb1 || x.bits == 0xb2 || x.bits == 0xb3
           || x.bits == 0xb4 || x.bits == 0xb5 || x.bits == 0xb6 || x.bits == 0xb7
           || x.bits == 0xb8 || x.bits == 0xb9 || x.bits == 0xba || x.bits == 0xbb
           || x.bits == 0xbc || x.bits == 0xbd || x.bits == 0xbe || x.bits == 0xbf;
  }

  lemma InverseRowB(x: Element)
    requires InRow(x, 0xb)
    ensures InverseSubstitutesWell(x)
  {
    assert x.bits == 0xb0 || x.bits == 0xb1 || x.bits == 0xb2 || x.bits == 0xb3
           || x.bits == 0xb4 || x.bits == 0xb5 || x.bits == 0xb6 || x.bits == 0xb7
           || x.bits == 0xb8 || x.bits == 0xb9 || x.bits == 0xba || x.bits == 0xbb
           || x.bits == 0xbc || x.bits == 0xbd || x.bits == 0xbe || x.bits == 0xbf;
  }

  lemma RowC(x: Element)
    requires InRow(x, 0xc)
    ensures SubstitutesWell(x)
  {
    assert x.bits == 0xc0 || x.bits == 0xc1 || x.bits == 0xc2 || x.bits == 0xc3
           || x.bits == 0xc4 || x.bits == 0xc5 || x.bits == 0xc6 || x.bits == 0xc7
           || x.bits == 0xc8 || x.bits == 0xc9 || x.bits == 0xca || x.bits == 0xcb
           || x.bits == 0xcc || x.bits == 0xcd || x.bits == 0xce || x.bits == 0xcf;
  }

  lemma InverseRowC(x: Element)
    requires InRow(x, 0xc)
    ensures InverseSubstitutesWell(x)
  {
    assert x.bits == 0xc0 || x.bits == 0xc1 || x.bits == 0xc2 || x.bits == 0xc3
           || x.bits == 0xc4 || x.bits == 0xc5 || x.bits == 0xc6 || x.bits == 0xc7
           || x.bits == 0xc8 || x.bits == 0xc9 || x.bits == 0xca || x.bits == 0xcb
           || x.bits == 0xcc || x.bits == 0xcd || x.bits == 0xce || x.bits == 0xcf;
  }

  lemma RowD(x: Element)
    requires InRow(x, 0xd)
    ensures SubstitutesWell(x)
  {
    assert x.bits == 0xd0 || x.bits == 0xd1 || x.bits == 0xd2 || x.bits == 0xd3
           || x.bits == 0xd4 || x.bits == 0xd5 || x.bits == 0xd6 || x.bits == 0xd7
           || x.bits == 0xd8 || x.bits == 0xd9 || x.bits == 0xda || x.bits == 0xdb
           || x.bits == 0xdc || x.bits == 0xdd || x.bits == 0xde || x.bits == 0xdf;
  }

  lemma InverseRowD(x: Element)
    requires InRow(x, 0xd)
    ensures InverseSubstitutesWell(x)
  {
    assert x.bits == 0xd0 || x.bits == 0xd1 || x.bits == 0xd2 || x.bits == 0xd3
           || x.bits == 0xd4 || x.bits == 0xd5 || x.bits == 0xd6 || x.bits == 0xd7
           || x.bits == 0xd8 || x.bits == 0xd9 || x.bits == 0xda || x.bits == 0xdb
           || x.bits == 0xdc || x.bits == 0xdd || x.bits == 0xde || x.bits == 0xdf;
  }

  lemma RowE(x: Element)
    requires InRow(x, 0xe)
    ensures SubstitutesWell(x)
  {
    assert x.bits == 0xe0 || x.bits == 0xe1 || x.bits == 0xe2 || x.bits == 0xe3
           || x.bits == 0xe4 || x.bits == 0xe5 || x.bits == 0xe6 || x.bits == 0xe7
           || x.bits == 0xe8 || x.bits == 0xe9 || x.bits == 0xea || x.bits == 0xeb
           || x.bits == 0xec || x.bits == 0xed || x.bits == 0xee || x.bits == 0xef;
  }

  lemma InverseRowE(x: Element)
    requires InRow(x, 0xe)
    ensures InverseSubstitutesWell(x)
  {
    assert x.bits == 0xe0 || x.bits == 0xe1 || x.bits == 0xe2 || x.bits == 0xe3
           || x.bits == 0xe4 || x.bits == 0xe5 || x.bits == 0xe6 || x.bits == 0xe7
           || x.bits == 0xe8 || x.bits == 0xe9 || x.bits == 0xea || x.bits == 0xeb
           || x.bits == 0xec || x.bits == 0xed || x.bits == 0xee || x.bits == 0xef;
  }

  lemma RowF(x: Element)
    requires InRow(x, 0xf)
    ensures SubstitutesWell(x)
  {
    assert x.bits == 0xf0 || x.bits == 0xf1 || x.bits == 0xf2 || x.bits == 0xf3
           || x.bits == 0xf4 || x.bits == 0xf5 || x.bits == 0xf6 || x.bits == 0xf7
           || x.bits == 0xf8 || x.bits == 0xf9 || x.bits == 0xfa || x.bits == 0xfb
           || x.bits == 0xfc || x.bits == 0xfd || x.bits == 0xfe || x.bits == 0xff;
  }

  lemma InverseRowF(x: Element)
    requires InRow(x, 0xf)
    ensures InverseSubstitutesWell(x)
  {
    assert x.bits == 0xf0 || x.bits == 0xf1 || x.bits == 0xf2 || x.bits == 0xf3
           || x.bits == 0xf4 || x.bits == 0xf5 || x.bits == 0xf6 || x.bits == 0xf7
           || x.bits == 0xf8 || x.bits == 0xf9 || x.bits == 0xfa || x.bits == 0xfb
           || x.bits == 0xfc || x.bits == 0xfd || x.bits == 0xfe || x.bits == 0xff;
  }

  // ---------------------------------------------------------------- The whole tables

  /** The S-box table is the S-box of section 5.1.1. */
  lemma SBoxIsStandard(x: Element)
    ensures IsSubstitution(x, SubElement(x))
  {
    EveryByteSubstitutesWell(x);
    var inverse := InverseAffine(SubElement(x));
    AffineOfInverse(SubElement(x));
    UnrolledTimesIsTimes(x, inverse);
  }

  lemma EveryByteSubstitutesWell(x: Element)
    ensures SubstitutesWell(x)
  {
    var row := x.bits >> 4;
    assert row < 16;
    if row < 8 {
      if InRow(x, 0x0) { Row0(x); }
      if InRow(x, 0x1) { Row1(x); }
      if InRow(x, 0x2) { Row2(x); }
      if InRow(x, 0x3) { Row3(x); }
      if InRow(x, 0x4) { Row4(x); }
      if InRow(x, 0x5) { Row5(x); }
      if InRow(x, 0x6) { Row6(x); }
      if InRow(x, 0x7) { Row7(x); }
    } else {
      if InRow(x, 0x8) { Row8(x); }
      if InRow(x, 0x9) { Row9(x); }
      if InRow(x, 0xa) { RowA(x); }
      if InRow(x, 0xb) { RowB(x); }
      if InRow(x, 0xc) { RowC(x); }
      if InRow(x, 0xd) { RowD(x); }
      if InRow(x, 0xe) { RowE(x); }
      if InRow(x, 0xf) { RowF(x); }
    }
  }

  lemma EveryByteInverseSubstitutesWell(x: Element)
    ensures InverseSubstitutesWell(x)
  {
    var row := x.bits >> 4;
    assert row < 16;
    if row < 8 {
      if InRow(x, 0x0) { InverseRow0(x); }
      if InRow(x, 0x1) { InverseRow1(x); }
      if InRow(x, 0x2) { InverseRow2(x); }
      if InRow(x, 0x3) { InverseRow3(x); }
      if InRow(x, 0x4) { InverseRow4(x); }
      if InRow(x, 0x5) { InverseRow5(x); }
      if InRow(x, 0x6) { InverseRow6(x); }
      if InRow(x, 0x7) { InverseRow7(x); }
    } else {
      if InRow(x, 0x8) { InverseRow8(x); }
      if InRow(x, 0x9) { InverseRow9(x); }
      if InRow(x, 0xa) { InverseRowA(x); }
      if InRow(x, 0xb) { InverseRowB(x); }
      if InRow(x, 0xc) { InverseRowC(x); }
      if InRow(x, 0xd) { InverseRowD(x); }
      if InRow(x, 0xe) { InverseRowE(x); }
      if InRow(x, 0xf) { InverseRowF(x); }
    }
  }

  // ---------------------------------------------------------------- Round constants

  /** x to the power n, as section 5.2 of FIPS 197 defines the round constants. */
  function PowerOfX(n: nat): Element {
    if n == 0 then ONE else XTime(PowerOfX(n - 1))
  }

  lemma RconIsPowerOfX(index: nat)
    requires 1 <= index < |RCON|
    ensures Element(RCON[index]) == PowerOfX(index - 1)
  {
    if index > 1 {
      RconIsPowerOfX(index - 1);
    }
  }
}
