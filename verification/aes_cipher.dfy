/** The forward cipher of FIPS 197 and its inverse, on values.

    The program only decrypts; the forward direction here is the specification it is proved against. */
module AesCipher {
  import opened GaloisField
  import opened AesTables

  datatype Column = Column(r0: Element, r1: Element, r2: Element, r3: Element)

  /** The state of section 3.4: four columns of four bytes. */
  datatype State = State(c0: Column, c1: Column, c2: Column, c3: Column)

  // ---------------------------------------------------------------- Columns and matrices

  function AddColumns(x: Column, y: Column): Column {
    Column(Add(x.r0, y.r0), Add(x.r1, y.r1), Add(x.r2, y.r2), Add(x.r3, y.r3))
  }

  function Scale(x: Column, k: Element): Column {
    Column(Times(x.r0, k), Times(x.r1, k), Times(x.r2, k), Times(x.r3, k))
  }

  /** The product of a matrix row with a column. */
  function Dot(row: Column, v: Column): Element {
    Add(Add(Times(v.r0, row.r0), Times(v.r1, row.r1)), Add(Times(v.r2, row.r2), Times(v.r3, row.r3)))
  }

  datatype Matrix = Matrix(m0: Column, m1: Column, m2: Column, m3: Column)

  function Apply(m: Matrix, v: Column): Column {
    Column(Dot(m.m0, v), Dot(m.m1, v), Dot(m.m2, v), Dot(m.m3, v))
  }

  /** The row vector k times the matrix m. */
  function Combine(k: Column, m: Matrix): Column {
    AddColumns(AddColumns(Scale(m.m0, k.r0), Scale(m.m1, k.r1)), AddColumns(Scale(m.m2, k.r2), Scale(m.m3, k.r3)))
  }

  function Multiply(k: Matrix, m: Matrix): Matrix {
    Matrix(Combine(k.m0, m), Combine(k.m1, m), Combine(k.m2, m), Combine(k.m3, m))
  }

  function Row(a: bv8, b: bv8, c: bv8, d: bv8): Column {
    Column(Element(a), Element(b), Element(c), Element(d))
  }

  /** The matrix of MixColumns, section 5.1.3. */
  const MIX := Matrix(Row(2, 3, 1, 1), Row(1, 2, 3, 1), Row(1, 1, 2, 3), Row(3, 1, 1, 2))

  /** The matrix of InvMixColumns, section 5.3.3. */
  const INVERSE_MIX := Matrix(Row(0x0e, 0x0b, 0x0d, 0x09), Row(0x09, 0x0e, 0x0b, 0x0d),
                              Row(0x0d, 0x09, 0x0e, 0x0b), Row(0x0b, 0x0d, 0x09, 0x0e))

  const IDENTITY := Matrix(Row(1, 0, 0, 0), Row(0, 1, 0, 0), Row(0, 0, 1, 0), Row(0, 0, 0, 1))

  /** The product of polynomials with coefficients in the field, modulo x^4 + 1: section 4.3, where coefficient j of v
      meets coefficient i - j of a, counted modulo 4. */
  function CyclicProduct(a: Column, v: Column): Column {
    Column(Add(Add(Times(v.r0, a.r0), Times(v.r1, a.r3)), Add(Times(v.r2, a.r2), Times(v.r3, a.r1))),
           Add(Add(Times(v.r0, a.r1), Times(v.r1, a.r0)), Add(Times(v.r2, a.r3), Times(v.r3, a.r2))),
           Add(Add(Times(v.r0, a.r2), Times(v.r1, a.r1)), Add(Times(v.r2, a.r0), Times(v.r3, a.r3))),
           Add(Add(Times(v.r0, a.r3), Times(v.r1, a.r2)), Add(Times(v.r2, a.r1), Times(v.r3, a.r0))))
  }

  lemma FourSums(a: Element, b: Element, c: Element, d: Element, a': Element, b': Element, c': Element, d': Element)
    ensures Add(Add(Add(a, b), Add(c, d)), Add(Add(a', b'), Add(c', d')))
         == Add(Add(Add(a, a'), Add(b, b')), Add(Add(c, c'), Add(d, d')))
  {
    AddExchanges(Add(a, b), Add(c, d), Add(a', b'), Add(c', d'));
    AddExchanges(a, b, a', b');
    AddExchanges(c, d, c', d');
  }

  lemma DotSum(row: Column, row': Column, v: Column)
    ensures Dot(AddColumns(row, row'), v) == Add(Dot(row, v), Dot(row', v))
  {
    TimesRightLinear(v.r0, row.r0, row'.r0);
    TimesRightLinear(v.r1, row.r1, row'.r1);
    TimesRightLinear(v.r2, row.r2, row'.r2);
    TimesRightLinear(v.r3, row.r3, row'.r3);
    FourSums(Times(v.r0, row.r0), Times(v.r1, row.r1), Times(v.r2, row.r2), Times(v.r3, row.r3),
             Times(v.r0, row'.r0), Times(v.r1, row'.r1), Times(v.r2, row'.r2), Times(v.r3, row'.r3));
  }

  lemma DotScale(row: Column, v: Column, k: Element)
    ensures Dot(Scale(row, k), v) == Times(Dot(row, v), k)
  {
    var a, b, c, d := Times(v.r0, row.r0), Times(v.r1, row.r1), Times(v.r2, row.r2), Times(v.r3, row.r3);
    TimesLeftLinear(Add(a, b), Add(c, d), k);
    TimesLeftLinear(a, b, k);
    TimesLeftLinear(c, d, k);
    TimesAssociates(v.r0, row.r0, k);
    TimesAssociates(v.r1, row.r1, k);
    TimesAssociates(v.r2, row.r2, k);
    TimesAssociates(v.r3, row.r3, k);
  }

  lemma DotCombine(k: Column, m: Matrix, v: Column)
    ensures Dot(k, Apply(m, v)) == Dot(Combine(k, m), v)
  {
    var s0, s1, s2, s3 := Scale(m.m0, k.r0), Scale(m.m1, k.r1), Scale(m.m2, k.r2), Scale(m.m3, k.r3);
    DotSum(AddColumns(s0, s1), AddColumns(s2, s3), v);
    DotSum(s0, s1, v);
    DotSum(s2, s3, v);
    DotScale(m.m0, v, k.r0);
    DotScale(m.m1, v, k.r1);
    DotScale(m.m2, v, k.r2);
    DotScale(m.m3, v, k.r3);
  }

  lemma ApplyMultiply(k: Matrix, m: Matrix, v: Column)
    ensures Apply(k, Apply(m, v)) == Apply(Multiply(k, m), v)
  {
    DotCombine(k.m0, m, v);
    DotCombine(k.m1, m, v);
    DotCombine(k.m2, m, v);
    DotCombine(k.m3, m, v);
  }

  lemma TimesNothing(x: Element)
    ensures Times(x, NOTHING) == NOTHING
  {}

  lemma ApplyIdentity(v: Column)
    ensures Apply(IDENTITY, v) == v
  {
    TimesOne(v.r0);
    TimesOne(v.r1);
    TimesOne(v.r2);
    TimesOne(v.r3);
    TimesNothing(v.r0);
    TimesNothing(v.r1);
    TimesNothing(v.r2);
    TimesNothing(v.r3);
  }

  lemma MixTimesInverse()
    ensures Times(Element(0x01), Element(0x0e)) == Element(0x0e)
    ensures Times(Element(0x01), Element(0x0b)) == Element(0x0b)
    ensures Times(Element(0x01), Element(0x0d)) == Element(0x0d)
    ensures Times(Element(0x01), Element(0x09)) == Element(0x09)
    ensures Times(Element(0x02), Element(0x0e)) == Element(0x1c)
    ensures Times(Element(0x02), Element(0x0b)) == Element(0x16)
    ensures Times(Element(0x02), Element(0x0d)) == Element(0x1a)
    ensures Times(Element(0x02), Element(0x09)) == Element(0x12)
    ensures Times(Element(0x03), Element(0x0e)) == Element(0x12)
    ensures Times(Element(0x03), Element(0x0b)) == Element(0x1d)
    ensures Times(Element(0x03), Element(0x0d)) == Element(0x17)
    ensures Times(Element(0x03), Element(0x09)) == Element(0x1b)
  {}

  lemma InverseTimesMix()
    ensures Times(Element(0x0e), Element(0x01)) == Element(0x0e)
    ensures Times(Element(0x0b), Element(0x01)) == Element(0x0b)
    ensures Times(Element(0x0d), Element(0x01)) == Element(0x0d)
    ensures Times(Element(0x09), Element(0x01)) == Element(0x09)
    ensures Times(Element(0x0e), Element(0x02)) == Element(0x1c)
    ensures Times(Element(0x0b), Element(0x02)) == Element(0x16)
    ensures Times(Element(0x0d), Element(0x02)) == Element(0x1a)
    ensures Times(Element(0x09), Element(0x02)) == Element(0x12)
    ensures Times(Element(0x0e), Element(0x03)) == Element(0x12)
    ensures Times(Element(0x0b), Element(0x03)) == Element(0x1d)
    ensures Times(Element(0x0d), Element(0x03)) == Element(0x17)
    ensures Times(Element(0x09), Element(0x03)) == Element(0x1b)
  {}

  lemma InverseMixIsInverse()
    ensures Multiply(INVERSE_MIX, MIX) == IDENTITY
    ensures Multiply(MIX, INVERSE_MIX) == IDENTITY
  {
    MixTimesInverse();
    InverseTimesMix();
  }

  function MixColumn(v: Column): Column { Apply(MIX, v) }

  function InvMixColumn(v: Column): Column { Apply(INVERSE_MIX, v) }

  /** Mixing multiplies by 3x^3 + x^2 + x + 2, unmixing by bx^3 + dx^2 + 9x + e (sections 5.1.3 and 5.3.3). */
  lemma MixColumnsAreProducts(v: Column)
    ensures MixColumn(v) == CyclicProduct(Row(0x02, 0x01, 0x01, 0x03), v)
    ensures InvMixColumn(v) == CyclicProduct(Row(0x0e, 0x09, 0x0d, 0x0b), v)
  {
    hide Times, Add;
  }

  /** InvMixColumns undoes MixColumns on every column, and the other way round. */
  lemma MixColumnInverts(v: Column)
    ensures InvMixColumn(MixColumn(v)) == v
    ensures MixColumn(InvMixColumn(v)) == v
  {
    ApplyMultiply(INVERSE_MIX, MIX, v);
    ApplyMultiply(MIX, INVERSE_MIX, v);
    InverseMixIsInverse();
    ApplyIdentity(v);
  }

  // ---------------------------------------------------------------- The round transformations

  function SubColumn(v: Column): Column {
    Column(SubElement(v.r0), SubElement(v.r1), SubElement(v.r2), SubElement(v.r3))
  }

  function InvSubColumn(v: Column): Column {
    Column(InvSubElement(v.r0), InvSubElement(v.r1), InvSubElement(v.r2), InvSubElement(v.r3))
  }

  /** Section 5.1.1 */
  function SubBytes(s: State): State {
    State(SubColumn(s.c0), SubColumn(s.c1), SubColumn(s.c2), SubColumn(s.c3))
  }

  /** Section 5.3.2 */
  function InvSubBytes(s: State): State {
    State(InvSubColumn(s.c0), InvSubColumn(s.c1), InvSubColumn(s.c2), InvSubColumn(s.c3))
  }

  /** Section 5.1.2: row r moves r places to the left, cyclically. */
  function ShiftRows(s: State): State {
    State(Column(s.c0.r0, s.c1.r1, s.c2.r2, s.c3.r3),
          Column(s.c1.r0, s.c2.r1, s.c3.r2, s.c0.r3),
          Column(s.c2.r0, s.c3.r1, s.c0.r2, s.c1.r3),
          Column(s.c3.r0, s.c0.r1, s.c1.r2, s.c2.r3))
  }

  /** Section 5.3.1: row r moves r places to the right, cyclically. */
  function InvShiftRows(s: State): State {
    State(Column(s.c0.r0, s.c3.r1, s.c2.r2, s.c1.r3),
          Column(s.c1.r0, s.c0.r1, s.c3.r2, s.c2.r3),
          Column(s.c2.r0, s.c1.r1, s.c0.r2, s.c3.r3),
          Column(s.c3.r0, s.c2.r1, s.c1.r2, s.c0.r3))
  }

  /** Section 5.1.3 */
  function MixColumns(s: State): State {
    State(MixColumn(s.c0), MixColumn(s.c1), MixColumn(s.c2), MixColumn(s.c3))
  }

  /** Section 5.3.3 */
  function InvMixColumns(s: State): State {
    State(InvMixColumn(s.c0), InvMixColumn(s.c1), InvMixColumn(s.c2), InvMixColumn(s.c3))
  }

  /** Sections 5.1.4 and 5.3.4 */
  function AddRoundKey(s: State, roundKey: State): State {
    State(AddColumns(s.c0, roundKey.c0), AddColumns(s.c1, roundKey.c1),
          AddColumns(s.c2, roundKey.c2), AddColumns(s.c3, roundKey.c3))
  }

  lemma SubColumnInverts(v: Column)
    ensures InvSubColumn(SubColumn(v)) == v
    ensures SubColumn(InvSubColumn(v)) == v
  {
    SubElementInverts(v.r0);
    SubElementInverts(v.r1);
    SubElementInverts(v.r2);
    SubElementInverts(v.r3);
  }

  lemma SubElementInverts(x: Element)
    ensures InvSubElement(SubElement(x)) == x
    ensures SubElement(InvSubElement(x)) == x
  {
    EveryByteSubstitutesWell(x);
    EveryByteInverseSubstitutesWell(x);
  }

  lemma SubBytesInverts(s: State)
    ensures InvSubBytes(SubBytes(s)) == s
    ensures SubBytes(InvSubBytes(s)) == s
  {
    SubColumnInverts(s.c0);
    SubColumnInverts(s.c1);
    SubColumnInverts(s.c2);
    SubColumnInverts(s.c3);
  }

  lemma MixColumnsInverts(s: State)
    ensures InvMixColumns(MixColumns(s)) == s
    ensures MixColumns(InvMixColumns(s)) == s
  {
    MixColumnInverts(s.c0);
    MixColumnInverts(s.c1);
    MixColumnInverts(s.c2);
    MixColumnInverts(s.c3);
  }

  lemma AddColumnsTwice(v: Column, k: Column)
    ensures AddColumns(AddColumns(v, k), k) == v
  {
    AddTwice(v.r0, k.r0);
    AddTwice(v.r1, k.r1);
    AddTwice(v.r2, k.r2);
    AddTwice(v.r3, k.r3);
  }

  lemma AddTwice(x: Element, k: Element)
    ensures Add(Add(x, k), k) == x
  {}

  lemma AddRoundKeyTwice(s: State, k: State)
    ensures AddRoundKey(AddRoundKey(s, k), k) == s
  {
    AddColumnsTwice(s.c0, k.c0);
    AddColumnsTwice(s.c1, k.c1);
    AddColumnsTwice(s.c2, k.c2);
    AddColumnsTwice(s.c3, k.c3);
  }

  // ---------------------------------------------------------------- Bytes and states

  const BLOCK_SIZE := 16
  const KEY_SIZE := 32
  const SCHEDULE_SIZE := 240
  const ROUNDS := 14

  type Block = b: seq<bv8> | |b| == BLOCK_SIZE witness seq(BLOCK_SIZE, i => 0)
  type Schedule = w: seq<bv8> | |w| == SCHEDULE_SIZE witness seq(SCHEDULE_SIZE, i => 0)

  function ColumnAt(b: seq<bv8>, offset: nat): Column
    requires offset + 4 <= |b|
  {
    Row(b[offset], b[offset + 1], b[offset + 2], b[offset + 3])
  }

  /** Bytes enter the state column by column, section 3.4. */
  function StateAt(b: seq<bv8>, offset: nat): State
    requires offset + 16 <= |b|
  {
    State(ColumnAt(b, offset), ColumnAt(b, offset + 4), ColumnAt(b, offset + 8), ColumnAt(b, offset + 12))
  }

  function ColumnBytes(v: Column): seq<bv8> {
    [v.r0.bits, v.r1.bits, v.r2.bits, v.r3.bits]
  }

  function StateBytes(s: State): Block {
    ColumnBytes(s.c0) + ColumnBytes(s.c1) + ColumnBytes(s.c2) + ColumnBytes(s.c3)
  }

  lemma StateOfBytes(s: State)
    ensures StateAt(StateBytes(s), 0) == s
  {}

  lemma BytesOfState(b: Block)
    ensures StateBytes(StateAt(b, 0)) == b
  {}

  function RoundKey(w: Schedule, round: nat): State
    requires round <= ROUNDS
  {
    StateAt(w, 16 * round)
  }

  // ---------------------------------------------------------------- Cipher and inverse cipher

  /** The state after `round` full rounds of section 5.1. */
  function RoundsDone(s: State, w: Schedule, round: nat): State
    requires round < ROUNDS
  {
    if round == 0 then AddRoundKey(s, RoundKey(w, 0))
    else AddRoundKey(MixColumns(ShiftRows(SubBytes(RoundsDone(s, w, round - 1)))), RoundKey(w, round))
  }

  /** Section 5.1, with the 14 rounds of AES-256. */
  function CipherState(s: State, w: Schedule): State {
    AddRoundKey(ShiftRows(SubBytes(RoundsDone(s, w, ROUNDS - 1))), RoundKey(w, ROUNDS))
  }

  function Cipher(block: Block, w: Schedule): Block {
    StateBytes(CipherState(StateAt(block, 0), w))
  }

  /** The state of the inverse cipher of section 5.3 when rounds 13 down to `round` are done. */
  function RoundsUndone(s: State, w: Schedule, round: nat): State
    requires 1 <= round <= ROUNDS
    decreases ROUNDS - round
  {
    if round == ROUNDS then AddRoundKey(s, RoundKey(w, ROUNDS))
    else InvMixColumns(AddRoundKey(InvSubBytes(InvShiftRows(RoundsUndone(s, w, round + 1))), RoundKey(w, round)))
  }

  function InvCipherState(s: State, w: Schedule): State {
    AddRoundKey(InvSubBytes(InvShiftRows(RoundsUndone(s, w, 1))), RoundKey(w, 0))
  }

  function InvCipher(block: Block, w: Schedule): Block {
    StateBytes(InvCipherState(StateAt(block, 0), w))
  }

  lemma ShiftRowsInverts(s: State)
    ensures InvShiftRows(ShiftRows(s)) == s
    ensures ShiftRows(InvShiftRows(s)) == s
  {}

  /** One round of the inverse cipher takes back one round of the cipher. */
  lemma UndoRound(before: State, k: State)
    ensures InvMixColumns(AddRoundKey(AddRoundKey(MixColumns(before), k), k)) == before
  {
    AddRoundKeyTwice(MixColumns(before), k);
    MixColumnsInverts(before);
  }

  lemma RedoRound(after: State, k: State)
    ensures AddRoundKey(MixColumns(InvMixColumns(AddRoundKey(after, k))), k) == after
  {
    MixColumnsInverts(AddRoundKey(after, k));
    AddRoundKeyTwice(after, k);
  }

  lemma SubstitutionLayerInverts(s: State)
    ensures InvSubBytes(InvShiftRows(ShiftRows(SubBytes(s)))) == s
    ensures ShiftRows(SubBytes(InvSubBytes(InvShiftRows(s)))) == s
  {
    ShiftRowsInverts(SubBytes(s));
    SubBytesInverts(s);
    SubBytesInverts(InvShiftRows(s));
    ShiftRowsInverts(s);
  }

  lemma {:induction false} UndoesRounds(s: State, w: Schedule, round: nat)
    requires 1 <= round <= ROUNDS
    ensures RoundsUndone(CipherState(s, w), w, round) == ShiftRows(SubBytes(RoundsDone(s, w, round - 1)))
    decreases ROUNDS - round
  {
    hide SubBytes, InvSubBytes, ShiftRows, InvShiftRows, MixColumns, InvMixColumns, AddRoundKey;
    if round == ROUNDS {
      AddRoundKeyTwice(ShiftRows(SubBytes(RoundsDone(s, w, ROUNDS - 1))), RoundKey(w, ROUNDS));
    } else {
      UndoesRounds(s, w, round + 1);
      SubstitutionLayerInverts(RoundsDone(s, w, round));
      UndoRound(ShiftRows(SubBytes(RoundsDone(s, w, round - 1))), RoundKey(w, round));
    }
  }

  lemma {:induction false} RedoesRounds(s: State, w: Schedule, round: nat)
    requires 1 <= round <= ROUNDS
    ensures ShiftRows(SubBytes(RoundsDone(InvCipherState(s, w), w, round - 1))) == RoundsUndone(s, w, round)
  {
    hide SubBytes, InvSubBytes, ShiftRows, InvShiftRows, MixColumns, InvMixColumns, AddRoundKey;
    if round == 1 {
      AddRoundKeyTwice(InvSubBytes(InvShiftRows(RoundsUndone(s, w, 1))), RoundKey(w, 0));
      SubstitutionLayerInverts(RoundsUndone(s, w, 1));
    } else {
      RedoesRounds(s, w, round - 1);
      RedoRound(InvSubBytes(InvShiftRows(RoundsUndone(s, w, round))), RoundKey(w, round - 1));
      SubstitutionLayerInverts(RoundsUndone(s, w, round));
    }
  }

  /** The two ciphers are inverse to each other for every block and every key schedule. */
  lemma CipherInverts(block: Block, w: Schedule)
    ensures InvCipher(Cipher(block, w), w) == block
    ensures Cipher(InvCipher(block, w), w) == block
  {
    hide SubBytes, InvSubBytes, ShiftRows, InvShiftRows, MixColumns, InvMixColumns, AddRoundKey;
    var s := StateAt(block, 0);
    StateOfBytes(CipherState(s, w));
    StateOfBytes(InvCipherState(s, w));
    BytesOfState(block);
    UndoesRounds(s, w, 1);
    SubstitutionLayerInverts(RoundsDone(s, w, 0));
    AddRoundKeyTwice(s, RoundKey(w, 0));
    RedoesRounds(s, w, ROUNDS);
    AddRoundKeyTwice(s, RoundKey(w, ROUNDS));
  }

  // ---------------------------------------------------------------- Key expansion

  function RotWord(v: Column): Column { Column(v.r1, v.r2, v.r3, v.r0) }

  /** What section 5.2 adds to the word eight places back, for AES-256. */
  function KeyTemp(previous: Column, i: nat): Column
    requires 8 <= i
  {
    if i % 8 == 0 then AddColumns(SubColumn(RotWord(previous)), Column(PowerOfX(i / 8 - 1), NOTHING, NOTHING, NOTHING))
    else if i % 8 == 4 then SubColumn(previous)
    else previous
  }

  /** Word i of the expanded key, section 5.2. */
  function KeyWord(key: seq<bv8>, i: nat): Column
    requires |key| == KEY_SIZE
  {
    if i < 8 then ColumnAt(key, 4 * i) else AddColumns(KeyWord(key, i - 8), KeyTemp(KeyWord(key, i - 1), i))
  }

  /** The expanded key is the concatenation of its first `words` words. */
  function KeyWords(key: seq<bv8>, words: nat): (w: seq<bv8>)
    requires |key| == KEY_SIZE
    ensures |w| == 4 * words
  {
    if words == 0 then [] else KeyWords(key, words - 1) + ColumnBytes(KeyWord(key, words - 1))
  }

  function KeyExpansion(key: seq<bv8>): Schedule
    requires |key| == KEY_SIZE
  {
    KeyWords(key, 60)
  }

  // ---------------------------------------------------------------- CBC mode and padding

  function XorBlocks(x: Block, y: Block): Block {
    StateBytes(AddRoundKey(StateAt(x, 0), StateAt(y, 0)))
  }

  lemma XorBlocksTwice(x: Block, y: Block)
    ensures XorBlocks(XorBlocks(x, y), y) == x
  {
    StateOfBytes(AddRoundKey(StateAt(x, 0), StateAt(y, 0)));
    AddRoundKeyTwice(StateAt(x, 0), StateAt(y, 0));
    BytesOfState(x);
  }

  predicate Aligned(bytes: seq<bv8>) { |bytes| % BLOCK_SIZE == 0 }

  /** CBC encryption, section 6.2 of NIST SP 800-38A. */
  function CbcEncrypt(previous: Block, plain: seq<bv8>, w: Schedule): (cipher: seq<bv8>)
    requires Aligned(plain)
    ensures |cipher| == |plain|
    decreases |plain|
  {
    hide Cipher, XorBlocks;
    if plain == [] then [] else
      var block: Block := Cipher(XorBlocks(plain[..BLOCK_SIZE], previous), w);
      block + CbcEncrypt(block, plain[BLOCK_SIZE..], w)
  }

  function BlockAt(bytes: seq<bv8>, i: nat): Block
    requires BLOCK_SIZE * i + BLOCK_SIZE <= |bytes|
  {
    bytes[BLOCK_SIZE * i..BLOCK_SIZE * i + BLOCK_SIZE]
  }

  /** Block by block: what is enciphered is the block of the text, added to the vector or the cipher block before. */
  lemma {:induction false} CbcBlocks(iv: Block, plain: seq<bv8>, w: Schedule, i: nat)
    requires Aligned(plain) && BLOCK_SIZE * i + BLOCK_SIZE <= |plain|
    ensures var cipher := CbcEncrypt(iv, plain, w);
            InvCipher(BlockAt(cipher, i), w)
            == XorBlocks(BlockAt(plain, i), if i == 0 then iv else BlockAt(cipher, i - 1))
    decreases i
  {
    hide Cipher, XorBlocks, InvCipher;
    var first: Block := Cipher(XorBlocks(plain[..BLOCK_SIZE], iv), w);
    var cipher := CbcEncrypt(iv, plain, w);
    assert BlockAt(cipher, 0) == first && BlockAt(plain, 0) == plain[..BLOCK_SIZE];
    if i == 0 {
      CipherInverts(XorBlocks(plain[..BLOCK_SIZE], iv), w);
    } else {
      CbcBlocks(first, plain[BLOCK_SIZE..], w, i - 1);
      assert cipher[BLOCK_SIZE..] == CbcEncrypt(first, plain[BLOCK_SIZE..], w);
      assert BlockAt(cipher, i) == BlockAt(cipher[BLOCK_SIZE..], i - 1);
      assert BlockAt(plain, i) == BlockAt(plain[BLOCK_SIZE..], i - 1);
      if i > 1 {
        assert BlockAt(cipher, i - 1) == BlockAt(cipher[BLOCK_SIZE..], i - 2);
      }
    }
  }

  /** The block that the next block is chained to. */
  function ChainBlock(iv: Block, cipher: seq<bv8>): Block
    requires Aligned(cipher)
  {
    if cipher == [] then iv else cipher[|cipher| - BLOCK_SIZE..]
  }

  lemma {:induction false} CbcAppends(iv: Block, plain: seq<bv8>, block: Block, w: Schedule)
    requires Aligned(plain)
    ensures CbcEncrypt(iv, plain + block, w)
         == CbcEncrypt(iv, plain, w) + Cipher(XorBlocks(block, ChainBlock(iv, CbcEncrypt(iv, plain, w))), w)
    decreases |plain|
  {
    hide Cipher, XorBlocks;
    if plain == [] {
      assert plain + block == block;
      assert block[..BLOCK_SIZE] == block && block[BLOCK_SIZE..] == [];
    } else {
      var first: Block := Cipher(XorBlocks(plain[..BLOCK_SIZE], iv), w);
      assert (plain + block)[..BLOCK_SIZE] == plain[..BLOCK_SIZE];
      assert (plain + block)[BLOCK_SIZE..] == plain[BLOCK_SIZE..] + block;
      CbcAppends(first, plain[BLOCK_SIZE..], block, w);
      assert ChainBlock(iv, CbcEncrypt(iv, plain, w)) == ChainBlock(first, CbcEncrypt(first, plain[BLOCK_SIZE..], w));
    }
  }

  lemma {:induction false} CbcIsInjective(iv: Block, plain: seq<bv8>, plain': seq<bv8>, w: Schedule)
    requires Aligned(plain) && Aligned(plain')
    requires CbcEncrypt(iv, plain, w) == CbcEncrypt(iv, plain', w)
    ensures plain == plain'
    decreases |plain|
  {
    hide Cipher, XorBlocks, InvCipher;
    if plain != [] {
      var b: Block, b': Block := plain[..BLOCK_SIZE], plain'[..BLOCK_SIZE];
      var c, c' := Cipher(XorBlocks(b, iv), w), Cipher(XorBlocks(b', iv), w);
      assert c == CbcEncrypt(iv, plain, w)[..BLOCK_SIZE] && c' == CbcEncrypt(iv, plain', w)[..BLOCK_SIZE];
      CipherInverts(XorBlocks(b, iv), w);
      CipherInverts(XorBlocks(b', iv), w);
      XorBlocksTwice(b, iv);
      XorBlocksTwice(b', iv);
      assert CbcEncrypt(c, plain[BLOCK_SIZE..], w) == CbcEncrypt(iv, plain, w)[BLOCK_SIZE..];
      assert CbcEncrypt(c, plain'[BLOCK_SIZE..], w) == CbcEncrypt(iv, plain', w)[BLOCK_SIZE..];
      CbcIsInjective(c, plain[BLOCK_SIZE..], plain'[BLOCK_SIZE..], w);
      assert plain == b + plain[BLOCK_SIZE..] && plain' == b' + plain'[BLOCK_SIZE..];
    }
  }

  function Repeat(n: nat): seq<bv8>
    requires 1 <= n <= BLOCK_SIZE
  {
    seq(n, i => n as bv8)
  }

  /** Section 6.3 of RFC 5652 for blocks of 16 bytes: one to sixteen bytes, each holding their number. */
  function Pad(plain: seq<bv8>): (padded: seq<bv8>)
    ensures Aligned(padded) && padded != []
  {
    plain + Repeat(BLOCK_SIZE - |plain| % BLOCK_SIZE)
  }

  /** As many bytes as fill the last block, or a whole block, and each has their number as its value. */
  lemma PadSpelled(plain: seq<bv8>)
    ensures var padded, n := Pad(plain), |Pad(plain)| - |plain|;
            1 <= n <= 16 && |padded| % 16 == 0 && plain <= padded
            && forall i :: |plain| <= i < |padded| ==> padded[i] as nat == n
  {
    SmallByte(|Pad(plain)| - |plain|);
  }

  lemma PadIsInjective(p: seq<bv8>, p': seq<bv8>)
    requires Pad(p) == Pad(p')
    ensures p == p'
  {
    var n, n' := BLOCK_SIZE - |p| % BLOCK_SIZE, BLOCK_SIZE - |p'| % BLOCK_SIZE;
    var padded := Pad(p);
    assert padded[|padded| - 1] == n as bv8 && padded[|padded| - 1] == n' as bv8;
    SmallByte(n);
    SmallByte(n');
    assert p == padded[..|padded| - n];
  }

  lemma SmallByte(n: nat)
    requires 1 <= n <= BLOCK_SIZE
    ensures (n as bv8) as nat == n
  {
    assert n == 1 || n == 2 || n == 3 || n == 4 || n == 5 || n == 6 || n == 7 || n == 8
        || n == 9 || n == 10 || n == 11 || n == 12 || n == 13 || n == 14 || n == 15 || n == 16;
  }

  /** What the decryptor undoes: the initialisation vector as one enciphered block, then CBC. */
  function Envelope(key: seq<bv8>, iv: Block, plain: seq<bv8>): seq<bv8>
    requires |key| == KEY_SIZE
  {
    Cipher(iv, KeyExpansion(key)) + CbcEncrypt(iv, Pad(plain), KeyExpansion(key))
  }

  /** The blocks of an envelope: the vector comes first, enciphered by itself, and each later block is deciphered and
      added to the one before it, the first of them to the vector. */
  lemma EnvelopeBlocks(key: seq<bv8>, iv: Block, plain: seq<bv8>, i: nat)
    requires |key| == KEY_SIZE && BLOCK_SIZE * i + BLOCK_SIZE <= |Pad(plain)|
    ensures var c, w := Envelope(key, iv, plain), KeyExpansion(key);
            |c| == BLOCK_SIZE + |Pad(plain)| && InvCipher(BlockAt(c, 0), w) == iv
            && XorBlocks(InvCipher(BlockAt(c, i + 1), w), if i == 0 then iv else BlockAt(c, i))
               == BlockAt(Pad(plain), i)
  {
    hide Cipher, InvCipher, XorBlocks, KeyExpansion, CbcEncrypt, Pad;
    var c, w := Envelope(key, iv, plain), KeyExpansion(key);
    var chain := CbcEncrypt(iv, Pad(plain), w);
    CipherInverts(iv, w);
    CbcBlocks(iv, Pad(plain), w, i);
    assert BlockAt(c, 0) == Cipher(iv, w);
    assert BlockAt(c, i + 1) == BlockAt(chain, i);
    if i > 0 {
      assert BlockAt(c, i) == BlockAt(chain, i - 1);
    }
    XorBlocksTwice(BlockAt(Pad(plain), i), if i == 0 then iv else BlockAt(c, i));
  }

  /** An envelope determines the initialisation vector and the plaintext. */
  lemma EnvelopeIsInjective(key: seq<bv8>, iv: Block, plain: seq<bv8>, iv': Block, plain': seq<bv8>)
    requires |key| == KEY_SIZE && Envelope(key, iv, plain) == Envelope(key, iv', plain')
    ensures iv == iv' && plain == plain'
  {
    hide Cipher, InvCipher, KeyExpansion, Pad, CbcEncrypt;
    var w := KeyExpansion(key);
    assert Envelope(key, iv, plain)[..BLOCK_SIZE] == Cipher(iv, w);
    assert Envelope(key, iv', plain')[..BLOCK_SIZE] == Cipher(iv', w);
    CipherInverts(iv, w);
    CipherInverts(iv', w);
    assert Envelope(key, iv, plain)[BLOCK_SIZE..] == CbcEncrypt(iv, Pad(plain), w);
    assert Envelope(key, iv', plain')[BLOCK_SIZE..] == CbcEncrypt(iv', Pad(plain'), w);
    CbcIsInjective(iv, Pad(plain), Pad(plain'), w);
    PadIsInjective(plain, plain');
  }
}
