/** The example vector of appendix C.3 of FIPS 197, worked through the definitions of the cipher: it says which
    of two mutually inverse forms is the standard's. */
module AesKnownAnswer {
  import opened GaloisField
  import opened AesTables
  import opened AesCipher
  import opened AesDecrypt

  /** A column in the standard's hexadecimal notation. */
  function Word(w: bv32): Column {
    Row((w >> 24) as bv8, ((w >> 16) & 0xff) as bv8, ((w >> 8) & 0xff) as bv8, (w & 0xff) as bv8)
  }

  function Words(a: bv32, b: bv32, c: bv32, d: bv32): State { State(Word(a), Word(b), Word(c), Word(d)) }

  predicate Substitutes(before: bv32, after: bv32) { SubColumn(Word(before)) == Word(after) }

  // ---------------------------------------------------------------- One round

  function Round(s: State, k: State): State { AddRoundKey(MixColumns(ShiftRows(SubBytes(s))), k) }

  function Triple(x: Element): Element { Add(x, XTime(x)) }

  lemma TimesTwo(x: Element)
    ensures Times(x, Element(2)) == XTime(x)
  {
    TimesOne(XTime(x));
  }

  lemma TimesThree(x: Element)
    ensures Times(x, Element(3)) == Triple(x)
  {
    TimesOne(XTime(x));
  }

  lemma SmallTimes(x: Element)
    ensures Times(x, Element(1)) == x && Times(x, Element(2)) == XTime(x) && Times(x, Element(3)) == Triple(x)
  {
    hide Times;
    TimesOne(x);
    TimesTwo(x);
    TimesThree(x);
  }

  lemma MixColumnSpelled(v: Column)
    ensures MixColumn(v) == MixSpelled(v)
  {
    hide Times, Add, XTime, Triple;
    SmallTimes(v.r0);
    SmallTimes(v.r1);
    SmallTimes(v.r2);
    SmallTimes(v.r3);
  }

  function MixSpelled(v: Column): Column {
    Column(Add(Add(XTime(v.r0), Triple(v.r1)), Add(v.r2, v.r3)),
           Add(Add(v.r0, XTime(v.r1)), Add(Triple(v.r2), v.r3)),
           Add(Add(v.r0, v.r1), Add(XTime(v.r2), Triple(v.r3))),
           Add(Add(Triple(v.r0), v.r1), Add(v.r2, XTime(v.r3))))
  }

  function RoundSpelled(substituted: State, k: State): State {
    var s := ShiftRows(substituted);
    AddRoundKey(State(MixSpelled(s.c0), MixSpelled(s.c1), MixSpelled(s.c2), MixSpelled(s.c3)), k)
  }

  lemma RoundIsSpelled(s: State, k: State)
    ensures Round(s, k) == RoundSpelled(SubBytes(s), k)
  {
    hide SubBytes, MixColumn, MixSpelled;
    var shifted := ShiftRows(SubBytes(s));
    MixColumnSpelled(shifted.c0);
    MixColumnSpelled(shifted.c1);
    MixColumnSpelled(shifted.c2);
    MixColumnSpelled(shifted.c3);
  }

  // ---------------------------------------------------------------- The key schedule

  const KEY: seq<bv8> := StateBytes(Words(0x00010203, 0x04050607, 0x08090a0b, 0x0c0d0e0f))
                        + StateBytes(Words(0x10111213, 0x14151617, 0x18191a1b, 0x1c1d1e1f))

  /** Four words of the expanded key. */
  function KeyState(round: nat): State {
    State(KeyWord(KEY, 4 * round), KeyWord(KEY, 4 * round + 1), KeyWord(KEY, 4 * round + 2),
          KeyWord(KEY, 4 * round + 3))
  }

  function NextKeyState(s: State, t: State, temp: Column): State {
    var c0 := AddColumns(s.c0, temp);
    var c1 := AddColumns(s.c1, c0);
    var c2 := AddColumns(s.c2, c1);
    State(c0, c1, c2, AddColumns(s.c3, c2))
  }

  lemma KeyTempKeeps(previous: Column, i: nat)
    requires 8 <= i && i % 4 != 0
    ensures KeyTemp(previous, i) == previous
  {}

  lemma Powers()
    ensures PowerOfX(0) == Element(0x01) && PowerOfX(1) == Element(0x02) && PowerOfX(2) == Element(0x04)
    ensures PowerOfX(3) == Element(0x08) && PowerOfX(4) == Element(0x10) && PowerOfX(5) == Element(0x20)
    ensures PowerOfX(6) == Element(0x40)
  {
    assert PowerOfX(2) == XTime(PowerOfX(1)) && PowerOfX(4) == XTime(PowerOfX(3)) && PowerOfX(6) == XTime(PowerOfX(5));
  }

  function Temp(previous: Column, round: nat): Column
    requires 2 <= round
  {
    if round % 2 == 1 then SubColumn(previous)
    else AddColumns(SubColumn(RotWord(previous)), Column(PowerOfX(round / 2 - 1), NOTHING, NOTHING, NOTHING))
  }

  lemma KeyTempAt(previous: Column, round: nat)
    requires 2 <= round
    ensures KeyTemp(previous, 4 * round) == Temp(previous, round)
  {
    hide SubColumn, PowerOfX, AddColumns;
  }

  lemma KeyStateUnfolds(round: nat)
    requires 2 <= round
    ensures KeyState(round)
         == NextKeyState(KeyState(round - 2), KeyState(round - 1), Temp(KeyState(round - 1).c3, round))
  {
    hide KeyWord, KeyTemp, AddColumns, Temp;
    KeyTempAt(KeyState(round - 1).c3, round);
    KeyWordUnfolds(KEY, 4 * round);
    KeyWordUnfolds(KEY, 4 * round + 1);
    KeyWordUnfolds(KEY, 4 * round + 2);
    KeyWordUnfolds(KEY, 4 * round + 3);
    KeyTempKeeps(KeyWord(KEY, 4 * round), 4 * round + 1);
    KeyTempKeeps(KeyWord(KEY, 4 * round + 1), 4 * round + 2);
    KeyTempKeeps(KeyWord(KEY, 4 * round + 2), 4 * round + 3);
  }

  lemma KeyHalves(s: State, t: State)
    ensures StateAt(StateBytes(s) + StateBytes(t), 0) == s && StateAt(StateBytes(s) + StateBytes(t), 16) == t
  {
    assert forall i :: 0 <= i < 16 ==> (StateBytes(s) + StateBytes(t))[i] == StateBytes(s)[i];
    assert forall i :: 0 <= i < 16 ==> (StateBytes(s) + StateBytes(t))[16 + i] == StateBytes(t)[i];
    StateOfBytes(s);
    StateOfBytes(t);
  }

  lemma KeyStates0()
    ensures KeyState(0) == Words(0x00010203, 0x04050607, 0x08090a0b, 0x0c0d0e0f)
    ensures KeyState(1) == Words(0x10111213, 0x14151617, 0x18191a1b, 0x1c1d1e1f)
  {
    hide Words, StateBytes, ColumnAt;
    KeyHalves(Words(0x00010203, 0x04050607, 0x08090a0b, 0x0c0d0e0f),
              Words(0x10111213, 0x14151617, 0x18191a1b, 0x1c1d1e1f));
  }

  lemma SubWord2() ensures Substitutes(0x1d1e1f1c, 0xa472c09c) {}

  lemma KeyState2()
    ensures KeyState(2) == Words(0xa573c29f, 0xa176c498, 0xa97fce93, 0xa572c09c)
  {
    hide KeyState, SubColumn, PowerOfX;
    Powers();
    KeyStates0();
    SubWord2();
    KeyStateUnfolds(2);
  }

  lemma SubWord3() ensures Substitutes(0xa572c09c, 0x0640bade) {}

  lemma KeyState3()
    ensures KeyState(3) == Words(0x1651a8cd, 0x0244beda, 0x1a5da4c1, 0x0640bade)
  {
    hide KeyState, SubColumn, PowerOfX;
    Powers();
    KeyStates0();
    KeyState2();
    SubWord3();
    KeyStateUnfolds(3);
  }

  lemma SubWord4() ensures Substitutes(0x40bade06, 0x09f41d6f) {}

  lemma KeyState4()
    ensures KeyState(4) == Words(0xae87dff0, 0x0ff11b68, 0xa68ed5fb, 0x03fc1567)
  {
    hide KeyState, SubColumn, PowerOfX;
    Powers();
    KeyState2();
    KeyState3();
    SubWord4();
    KeyStateUnfolds(4);
  }

  lemma SubWord5() ensures Substitutes(0x03fc1567, 0x7bb05985) {}

  lemma KeyState5()
    ensures KeyState(5) == Words(0x6de1f148, 0x6fa54f92, 0x75f8eb53, 0x73b8518d)
  {
    hide KeyState, SubColumn, PowerOfX;
    Powers();
    KeyState3();
    KeyState4();
    SubWord5();
    KeyStateUnfolds(5);
  }

  lemma SubWord6() ensures Substitutes(0xb8518d73, 0x6cd15d8f) {}

  lemma KeyState6()
    ensures KeyState(6) == Words(0xc656827f, 0xc9a79917, 0x6f294cec, 0x6cd5598b)
  {
    hide KeyState, SubColumn, PowerOfX;
    Powers();
    KeyState4();
    KeyState5();
    SubWord6();
    KeyStateUnfolds(6);
  }

  lemma SubWord7() ensures Substitutes(0x6cd5598b, 0x5003cb3d) {}

  lemma KeyState7()
    ensures KeyState(7) == Words(0x3de23a75, 0x524775e7, 0x27bf9eb4, 0x5407cf39)
  {
    hide KeyState, SubColumn, PowerOfX;
    Powers();
    KeyState5();
    KeyState6();
    SubWord7();
    KeyStateUnfolds(7);
  }

  lemma SubWord8() ensures Substitutes(0x07cf3954, 0xc58a1220) {}

  lemma KeyState8()
    ensures KeyState(8) == Words(0x0bdc905f, 0xc27b0948, 0xad5245a4, 0xc1871c2f)
  {
    hide KeyState, SubColumn, PowerOfX;
    Powers();
    KeyState6();
    KeyState7();
    SubWord8();
    KeyStateUnfolds(8);
  }

  lemma SubWord9() ensures Substitutes(0xc1871c2f, 0x78179c15) {}

  lemma KeyState9()
    ensures KeyState(9) == Words(0x45f5a660, 0x17b2d387, 0x300d4d33, 0x640a820a)
  {
    hide KeyState, SubColumn, PowerOfX;
    Powers();
    KeyState7();
    KeyState8();
    SubWord9();
    KeyStateUnfolds(9);
  }

  lemma SubWord10() ensures Substitutes(0x0a820a64, 0x67136743) {}

  lemma KeyState10()
    ensures KeyState(10) == Words(0x7ccff71c, 0xbeb4fe54, 0x13e6bbf0, 0xd261a7df)
  {
    hide KeyState, SubColumn, PowerOfX;
    Powers();
    KeyState8();
    KeyState9();
    SubWord10();
    KeyStateUnfolds(10);
  }

  lemma SubWord11() ensures Substitutes(0xd261a7df, 0xb5ef5c9e) {}

  lemma KeyState11()
    ensures KeyState(11) == Words(0xf01afafe, 0xe7a82979, 0xd7a5644a, 0xb3afe640)
  {
    hide KeyState, SubColumn, PowerOfX;
    Powers();
    KeyState9();
    KeyState10();
    SubWord11();
    KeyStateUnfolds(11);
  }

  lemma SubWord12() ensures Substitutes(0xafe640b3, 0x798e096d) {}

  lemma KeyState12()
    ensures KeyState(12) == Words(0x2541fe71, 0x9bf50025, 0x8813bbd5, 0x5a721c0a)
  {
    hide KeyState, SubColumn, PowerOfX;
    Powers();
    KeyState10();
    KeyState11();
    SubWord12();
    KeyStateUnfolds(12);
  }

  lemma SubWord13() ensures Substitutes(0x5a721c0a, 0xbe409c67) {}

  lemma KeyState13()
    ensures KeyState(13) == Words(0x4e5a6699, 0xa9f24fe0, 0x7e572baa, 0xcdf8cdea)
  {
    hide KeyState, SubColumn, PowerOfX;
    Powers();
    KeyState11();
    KeyState12();
    SubWord13();
    KeyStateUnfolds(13);
  }

  lemma SubWord14() ensures Substitutes(0xf8cdeacd, 0x41bd87bd) {}

  lemma KeyState14()
    ensures KeyState(14) == Words(0x24fc79cc, 0xbf0979e9, 0x371ac23c, 0x6d68de36)
  {
    hide KeyState, SubColumn, PowerOfX;
    Powers();
    KeyState12();
    KeyState13();
    SubWord14();
    KeyStateUnfolds(14);
  }

  // ---------------------------------------------------------------- The rounds

  function Plain(): Block { StateBytes(Words(0x00112233, 0x44556677, 0x8899aabb, 0xccddeeff)) }

  /** The state after so many rounds. */
  function Done(round: nat): State
    requires round < ROUNDS
  {
    RoundsDone(StateAt(Plain(), 0), KeyExpansion(KEY), round)
  }

  lemma RoundKeyIsKeyState(round: nat)
    requires round <= ROUNDS
    ensures RoundKey(KeyExpansion(KEY), round) == KeyState(round)
  {
    hide KeyWord, ColumnAt, KeyWords;
    KeyWordAt(KEY, 60, 4 * round);
    KeyWordAt(KEY, 60, 4 * round + 1);
    KeyWordAt(KEY, 60, 4 * round + 2);
    KeyWordAt(KEY, 60, 4 * round + 3);
  }

  lemma DoneUnfolds(round: nat)
    requires 1 <= round < ROUNDS
    ensures Done(round) == RoundSpelled(SubBytes(Done(round - 1)), KeyState(round))
  {
    hide SubBytes, RoundKey, KeyExpansion, Plain, KeyState, MixColumns, ShiftRows, AddRoundKey, RoundSpelled;
    RoundKeyIsKeyState(round);
    RoundIsSpelled(Done(round - 1), KeyState(round));
  }

  lemma Done0()
    ensures Done(0) == Words(0x00102030, 0x40506070, 0x8090a0b0, 0xc0d0e0f0)
  {
    hide KeyExpansion, RoundKey, KeyState, StateAt, StateBytes;
    StateOfBytes(Words(0x00112233, 0x44556677, 0x8899aabb, 0xccddeeff));
    RoundKeyIsKeyState(0);
    KeyStates0();
  }

  lemma Sub1_0() ensures Substitutes(0x00102030, 0x63cab704) {}
  lemma Sub1_1() ensures Substitutes(0x40506070, 0x0953d051) {}
  lemma Sub1_2() ensures Substitutes(0x8090a0b0, 0xcd60e0e7) {}
  lemma Sub1_3() ensures Substitutes(0xc0d0e0f0, 0xba70e18c) {}

  lemma Done1()
    ensures Done(1) == Words(0x4f637606, 0x43e0aa85, 0xefa72132, 0x01a4e705)
  {
    hide Done, SubColumn, KeyState;
    DoneUnfolds(1);
    Done0();
    KeyStates0();
    Sub1_0(); Sub1_1(); Sub1_2(); Sub1_3();
  }

  lemma Sub2_0() ensures Substitutes(0x4f637606, 0x84fb386f) {}
  lemma Sub2_1() ensures Substitutes(0x43e0aa85, 0x1ae1ac97) {}
  lemma Sub2_2() ensures Substitutes(0xefa72132, 0xdf5cfd23) {}
  lemma Sub2_3() ensures Substitutes(0x01a4e705, 0x7c49946b) {}

  lemma Done2()
    ensures Done(2) == Words(0x1859fbc2, 0x8a1c00a0, 0x78ed8aad, 0xc42f6109)
  {
    hide Done, SubColumn, KeyState;
    DoneUnfolds(2);
    Done1();
    KeyState2();
    Sub2_0(); Sub2_1(); Sub2_2(); Sub2_3();
  }

  lemma Sub3_0() ensures Substitutes(0x1859fbc2, 0xadcb0f25) {}
  lemma Sub3_1() ensures Substitutes(0x8a1c00a0, 0x7e9c63e0) {}
  lemma Sub3_2() ensures Substitutes(0x78ed8aad, 0xbc557e95) {}
  lemma Sub3_3() ensures Substitutes(0xc42f6109, 0x1c15ef01) {}

  lemma Done3()
    ensures Done(3) == Words(0x975c66c1, 0xcb9f3fa8, 0xa93a28df, 0x8ee10f63)
  {
    hide Done, SubColumn, KeyState;
    DoneUnfolds(3);
    Done2();
    KeyState3();
    Sub3_0(); Sub3_1(); Sub3_2(); Sub3_3();
  }

  lemma Sub4_0() ensures Substitutes(0x975c66c1, 0x884a3378) {}
  lemma Sub4_1() ensures Substitutes(0xcb9f3fa8, 0x1fdb75c2) {}
  lemma Sub4_2() ensures Substitutes(0xa93a28df, 0xd380349e) {}
  lemma Sub4_3() ensures Substitutes(0x8ee10f63, 0x19f876fb) {}

  lemma Done4()
    ensures Done(4) == Words(0x1c05f271, 0xa417e04f, 0xf921c5c1, 0x04701554)
  {
    hide Done, SubColumn, KeyState;
    DoneUnfolds(4);
    Done3();
    KeyState4();
    Sub4_0(); Sub4_1(); Sub4_2(); Sub4_3();
  }

  lemma Sub5_0() ensures Substitutes(0x1c05f271, 0x9c6b89a3) {}
  lemma Sub5_1() ensures Substitutes(0xa417e04f, 0x49f0e184) {}
  lemma Sub5_2() ensures Substitutes(0xf921c5c1, 0x99fda678) {}
  lemma Sub5_3() ensures Substitutes(0x04701554, 0xf2515920) {}

  lemma Done5()
    ensures Done(5) == Words(0xc357aae1, 0x1b45b7b0, 0xa2c7bd28, 0xa8dc99fa)
  {
    hide Done, SubColumn, KeyState;
    DoneUnfolds(5);
    Done4();
    KeyState5();
    Sub5_0(); Sub5_1(); Sub5_2(); Sub5_3();
  }

  lemma Sub6_0() ensures Substitutes(0xc357aae1, 0x2e5bacf8) {}
  lemma Sub6_1() ensures Substitutes(0x1b45b7b0, 0xaf6ea9e7) {}
  lemma Sub6_2() ensures Substitutes(0xa2c7bd28, 0x3ac67a34) {}
  lemma Sub6_3() ensures Substitutes(0xa8dc99fa, 0xc286ee2d) {}

  lemma Done6()
    ensures Done(6) == Words(0x7f074143, 0xcb4e243e, 0xc10c815d, 0x8375d54c)
  {
    hide Done, SubColumn, KeyState;
    DoneUnfolds(6);
    Done5();
    KeyState6();
    Sub6_0(); Sub6_1(); Sub6_2(); Sub6_3();
  }

  lemma Sub7_0() ensures Substitutes(0x7f074143, 0xd2c5831a) {}
  lemma Sub7_1() ensures Substitutes(0xcb4e243e, 0x1f2f36b2) {}
  lemma Sub7_2() ensures Substitutes(0xc10c815d, 0x78fe0c4c) {}
  lemma Sub7_3() ensures Substitutes(0x8375d54c, 0xec9d0329) {}

  lemma Done7()
    ensures Done(7) == Words(0xd653a469, 0x6ca0bc0f, 0x5acaab5d, 0xb96c5e7d)
  {
    hide Done, SubColumn, KeyState;
    DoneUnfolds(7);
    Done6();
    KeyState7();
    Sub7_0(); Sub7_1(); Sub7_2(); Sub7_3();
  }

  lemma Sub8_0() ensures Substitutes(0xd653a469, 0xf6ed49f9) {}
  lemma Sub8_1() ensures Substitutes(0x6ca0bc0f, 0x50e06576) {}
  lemma Sub8_2() ensures Substitutes(0x5acaab5d, 0xbe74624c) {}
  lemma Sub8_3() ensures Substitutes(0xb96c5e7d, 0x565058ff) {}

  lemma Done8()
    ensures Done(8) == Words(0x5aa85839, 0x5fd28d7d, 0x05e1a388, 0x68f3b9c5)
  {
    hide Done, SubColumn, KeyState;
    DoneUnfolds(8);
    Done7();
    KeyState8();
    Sub8_0(); Sub8_1(); Sub8_2(); Sub8_3();
  }

  lemma Sub9_0() ensures Substitutes(0x5aa85839, 0xbec26a12) {}
  lemma Sub9_1() ensures Substitutes(0x5fd28d7d, 0xcfb55dff) {}
  lemma Sub9_2() ensures Substitutes(0x05e1a388, 0x6bf80ac4) {}
  lemma Sub9_3() ensures Substitutes(0x68f3b9c5, 0x450d56a6) {}

  lemma Done9()
    ensures Done(9) == Words(0x4a824851, 0xc57e7e47, 0x643de50c, 0x2af3e8c9)
  {
    hide Done, SubColumn, KeyState;
    DoneUnfolds(9);
    Done8();
    KeyState9();
    Sub9_0(); Sub9_1(); Sub9_2(); Sub9_3();
  }

  lemma Sub10_0() ensures Substitutes(0x4a824851, 0xd61352d1) {}
  lemma Sub10_1() ensures Substitutes(0xc57e7e47, 0xa6f3f3a0) {}
  lemma Sub10_2() ensures Substitutes(0x643de50c, 0x4327d9fe) {}
  lemma Sub10_3() ensures Substitutes(0x2af3e8c9, 0xe50d9bdd) {}

  lemma Done10()
    ensures Done(10) == Words(0xc14907f6, 0xca3b3aa0, 0x70e9aa31, 0x3b52b5ec)
  {
    hide Done, SubColumn, KeyState;
    DoneUnfolds(10);
    Done9();
    KeyState10();
    Sub10_0(); Sub10_1(); Sub10_2(); Sub10_3();
  }

  lemma Sub11_0() ensures Substitutes(0xc14907f6, 0x783bc542) {}
  lemma Sub11_1() ensures Substitutes(0xca3b3aa0, 0x74e280e0) {}
  lemma Sub11_2() ensures Substitutes(0x70e9aa31, 0x511eacc7) {}
  lemma Sub11_3() ensures Substitutes(0x3b52b5ec, 0xe200d5ce) {}

  lemma Done11()
    ensures Done(11) == Words(0x5f9c6abf, 0xbac634aa, 0x50409fa7, 0x66677653)
  {
    hide Done, SubColumn, KeyState;
    DoneUnfolds(11);
    Done10();
    KeyState11();
    Sub11_0(); Sub11_1(); Sub11_2(); Sub11_3();
  }

  lemma Sub12_0() ensures Substitutes(0x5f9c6abf, 0xcfde0208) {}
  lemma Sub12_1() ensures Substitutes(0xbac634aa, 0xf4b418ac) {}
  lemma Sub12_2() ensures Substitutes(0x50409fa7, 0x5309db5c) {}
  lemma Sub12_3() ensures Substitutes(0x66677653, 0x338538ed) {}

  lemma Done12()
    ensures Done(12) == Words(0x51660495, 0x43539503, 0x14fb86e4, 0x01922521)
  {
    hide Done, SubColumn, KeyState;
    DoneUnfolds(12);
    Done11();
    KeyState12();
    Sub12_0(); Sub12_1(); Sub12_2(); Sub12_3();
  }

  lemma Sub13_0() ensures Substitutes(0x51660495, 0xd133f22a) {}
  lemma Sub13_1() ensures Substitutes(0x43539503, 0x1aed2a7b) {}
  lemma Sub13_2() ensures Substitutes(0x14fb86e4, 0xfa0f4469) {}
  lemma Sub13_3() ensures Substitutes(0x01922521, 0x7c4f3ffd) {}

  lemma Done13()
    ensures Done(13) == Words(0x627bceb9, 0x999d5aaa, 0xc945ecf4, 0x23f56da5)
  {
    hide Done, SubColumn, KeyState;
    DoneUnfolds(13);
    Done12();
    KeyState13();
    Sub13_0(); Sub13_1(); Sub13_2(); Sub13_3();
  }

  lemma Sub14_0() ensures Substitutes(0x627bceb9, 0xaa218b56) {}
  lemma Sub14_1() ensures Substitutes(0x999d5aaa, 0xee5ebeac) {}
  lemma Sub14_2() ensures Substitutes(0xc945ecf4, 0xdd6ecebf) {}
  lemma Sub14_3() ensures Substitutes(0x23f56da5, 0x26e63c06) {}

  // ---------------------------------------------------------------- The example

  lemma BytesOfWords(a: bv32, b: bv32, c: bv32, d: bv32)
    ensures StateBytes(Words(a, b, c, d))
         == [Word(a).r0.bits, Word(a).r1.bits, Word(a).r2.bits, Word(a).r3.bits,
             Word(b).r0.bits, Word(b).r1.bits, Word(b).r2.bits, Word(b).r3.bits,
             Word(c).r0.bits, Word(c).r1.bits, Word(c).r2.bits, Word(c).r3.bits,
             Word(d).r0.bits, Word(d).r1.bits, Word(d).r2.bits, Word(d).r3.bits]
  {
    hide Word;
  }

  lemma PlainBytes()
    ensures Plain() == [0x00, 0x11, 0x22, 0x33, 0x44, 0x55, 0x66, 0x77,
                        0x88, 0x99, 0xaa, 0xbb, 0xcc, 0xdd, 0xee, 0xff]
  {
    hide StateBytes;
    BytesOfWords(0x00112233, 0x44556677, 0x8899aabb, 0xccddeeff);
  }

  lemma KeyBytes()
    ensures KEY == [0x00, 0x01, 0x02, 0x03, 0x04, 0x05, 0x06, 0x07,
                    0x08, 0x09, 0x0a, 0x0b, 0x0c, 0x0d, 0x0e, 0x0f,
                    0x10, 0x11, 0x12, 0x13, 0x14, 0x15, 0x16, 0x17,
                    0x18, 0x19, 0x1a, 0x1b, 0x1c, 0x1d, 0x1e, 0x1f]
  {
    hide StateBytes;
    BytesOfWords(0x00010203, 0x04050607, 0x08090a0b, 0x0c0d0e0f);
    BytesOfWords(0x10111213, 0x14151617, 0x18191a1b, 0x1c1d1e1f);
  }

  lemma CipherBytes()
    ensures StateBytes(Words(0x8ea2b7ca, 0x516745bf, 0xeafc4990, 0x4b496089))
         == [0x8e, 0xa2, 0xb7, 0xca, 0x51, 0x67, 0x45, 0xbf,
             0xea, 0xfc, 0x49, 0x90, 0x4b, 0x49, 0x60, 0x89]
  {
    hide StateBytes;
    BytesOfWords(0x8ea2b7ca, 0x516745bf, 0xeafc4990, 0x4b496089);
  }

  /** Appendix C.3 of FIPS 197. */
  lemma CipherOfExample()
    ensures Cipher([0x00, 0x11, 0x22, 0x33, 0x44, 0x55, 0x66, 0x77,
                    0x88, 0x99, 0xaa, 0xbb, 0xcc, 0xdd, 0xee, 0xff],
                   KeyExpansion([0x00, 0x01, 0x02, 0x03, 0x04, 0x05, 0x06, 0x07,
                                 0x08, 0x09, 0x0a, 0x0b, 0x0c, 0x0d, 0x0e, 0x0f,
                                 0x10, 0x11, 0x12, 0x13, 0x14, 0x15, 0x16, 0x17,
                                 0x18, 0x19, 0x1a, 0x1b, 0x1c, 0x1d, 0x1e, 0x1f]))
         == [0x8e, 0xa2, 0xb7, 0xca, 0x51, 0x67, 0x45, 0xbf,
             0xea, 0xfc, 0x49, 0x90, 0x4b, 0x49, 0x60, 0x89]
  {
    hide Done, SubColumn, KeyState, KeyExpansion, RoundKey, StateBytes, Cipher, Plain;
    CipherUnfolds();
    Done13();
    KeyState14();
    Sub14_0(); Sub14_1(); Sub14_2(); Sub14_3();
    PlainBytes();
    KeyBytes();
    CipherBytes();
  }

  lemma CipherUnfolds()
    ensures Cipher(Plain(), KeyExpansion(KEY))
         == StateBytes(AddRoundKey(ShiftRows(SubBytes(Done(13))), KeyState(14)))
  {
    hide SubBytes, RoundKey, KeyExpansion, Plain, KeyState, ShiftRows, AddRoundKey, StateBytes, RoundsDone;
    RoundKeyIsKeyState(14);
  }
}
