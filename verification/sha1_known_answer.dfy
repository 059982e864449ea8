/** The one-block example of FIPS 180-4, worked through the definitions of SHA-1. */
module Sha1KnownAnswer {
  import opened Sha1Spec

  function Hash(a: bv32, b: bv32, c: bv32, d: bv32, e: bv32): Five {
    Five(Word(a), Word(b), Word(c), Word(d), Word(e))
  }

  // ---------------------------------------------------------------- The constants

  /** Each constant is the integer part of 2^30 times a square root: of 2, 3, 5 and 10. */
  predicate IsRoot(k: nat, n: nat) { k * k <= n * 0x1000_0000_0000_0000 < (k + 1) * (k + 1) }

  lemma ConstantsAreRoots(t: nat)
    requires t < 80
    ensures IsRoot(K(t).bits as nat, if t < 20 then 2 else if t < 40 then 3 else if t < 60 then 5 else 10)
  {}

  // ---------------------------------------------------------------- The schedule

  const ABC: seq<bv8> := [0x61, 0x62, 0x63]

  function Block(): (block: seq<bv8>)
    ensures |block| == BLOCK
  {
    ABC + [0x80] + Zeros(52) + [0, 0, 0, 0, 0, 0, 0, 24]
  }

  function W(t: nat): bv32 { Schedule(Block(), t).bits }

  lemma WordsBelow8()
    ensures W(0) == 0x61626380
    ensures W(1) == 0 && W(2) == 0 && W(3) == 0 && W(4) == 0 && W(5) == 0 && W(6) == 0 && W(7) == 0
  {}

  lemma WordsBelow16()
    ensures W(8) == 0 && W(9) == 0 && W(10) == 0 && W(11) == 0 && W(12) == 0 && W(13) == 0 && W(14) == 0 && W(15) == 24
  {}

  lemma Words16()
    ensures W(16) == 0xc2c4c700 && W(17) == 0x00000000 && W(18) == 0x00000030 && W(19) == 0x85898e01
    ensures W(20) == 0x00000000 && W(21) == 0x00000060 && W(22) == 0x0b131c03 && W(23) == 0x00000030
  {
    hide W;
    WordsBelow8();
    WordsBelow16();
    NextWord(16); NextWord(17); NextWord(18); NextWord(19);
    NextWord(20); NextWord(21); NextWord(22); NextWord(23);
  }

  lemma Words24()
    ensures W(24) == 0x85898ec1 && W(25) == 0x16263806 && W(26) == 0x00000000 && W(27) == 0x00000180
    ensures W(28) == 0x2c4c700c && W(29) == 0x000000f0 && W(30) == 0x93afb507 && W(31) == 0x5898e048
  {
    hide W;
    WordsBelow16();
    Words16();
    NextWord(24); NextWord(25); NextWord(26); NextWord(27);
    NextWord(28); NextWord(29); NextWord(30); NextWord(31);
  }

  lemma Words32()
    ensures W(32) == 0x8e9a9202 && W(33) == 0x00000600 && W(34) == 0xb131c0f0 && W(35) == 0x16263bc6
    ensures W(36) == 0x4ebed41e && W(37) == 0x626380a1 && W(38) == 0x16263806 && W(39) == 0x000018c0
  {
    hide W;
    Words16();
    Words24();
    NextWord(32); NextWord(33); NextWord(34); NextWord(35);
    NextWord(36); NextWord(37); NextWord(38); NextWord(39);
  }

  lemma Words40()
    ensures W(40) == 0xd2e138c4 && W(41) == 0x00000f00 && W(42) == 0x3afb5079 && W(43) == 0x898e04e5
    ensures W(44) == 0xe2ba3c2b && W(45) == 0x000060c0 && W(46) == 0x053a37cd && W(47) == 0x74458547
  {
    hide W;
    Words24();
    Words32();
    NextWord(40); NextWord(41); NextWord(42); NextWord(43);
    NextWord(44); NextWord(45); NextWord(46); NextWord(47);
  }

  lemma Words48()
    ensures W(48) == 0xda9415ed && W(49) == 0x26380a16 && W(50) == 0x626383a1 && W(51) == 0x4ebf54de
    ensures W(52) == 0x3835b44b && W(53) == 0x0000f600 && W(54) == 0x1e84c7a3 && W(55) == 0x98e04d98
  {
    hide W;
    Words32();
    Words40();
    NextWord(48); NextWord(49); NextWord(50); NextWord(51);
    NextWord(52); NextWord(53); NextWord(54); NextWord(55);
  }

  lemma Words56()
    ensures W(56) == 0x651d16a0 && W(57) == 0x62658ca1 && W(58) == 0x458544d6 && W(59) == 0x44584cb7
    ensures W(60) == 0x7ba06619 && W(61) == 0x6380aea2 && W(62) == 0x0ae55269 && W(63) == 0x627b49a1
  {
    hide W;
    Words40();
    Words48();
    NextWord(56); NextWord(57); NextWord(58); NextWord(59);
    NextWord(60); NextWord(61); NextWord(62); NextWord(63);
  }

  lemma Words64()
    ensures W(64) == 0x7cd45c9d && W(65) == 0x000f0000 && W(66) == 0xfb50753a && W(67) == 0xec6765e8
    ensures W(68) == 0xba3c2be2 && W(69) == 0x0060c000 && W(70) == 0x3a37cd05 && W(71) == 0x458546f4
  {
    hide W;
    Words48();
    Words56();
    NextWord(64); NextWord(65); NextWord(66); NextWord(67);
    NextWord(68); NextWord(69); NextWord(70); NextWord(71);
  }

  lemma Words72()
    ensures W(72) == 0xb8599dd6 && W(73) == 0x380a1a26 && W(74) == 0x01e02203 && W(75) == 0xe7cc3456
    ensures W(76) == 0xe6e60b69 && W(77) == 0x00f60a00 && W(78) == 0x5795ef4f && W(79) == 0x822e0879
  {
    hide W;
    Words56();
    Words64();
    NextWord(72); NextWord(73); NextWord(74); NextWord(75);
    NextWord(76); NextWord(77); NextWord(78); NextWord(79);
  }

  lemma NextWord(t: nat)
    requires 16 <= t
    ensures W(t) == RotateLeft(Xor4(Word(W(t - 3)), Word(W(t - 8)), Word(W(t - 14)), Word(W(t - 16))), 1).bits
  {
    hide RotateLeft, Xor4;
  }

  // ---------------------------------------------------------------- The turns

  function After(t: nat): Five { Turns(INITIAL, Block(), t) }

  lemma NextTurn(t: nat)
    ensures After(t + 1) == Turn(After(t), t, Word(W(t)))
  {
    hide Turn, Schedule;
  }

  lemma After0()
    ensures After(0) == Hash(0x67452301, 0xefcdab89, 0x98badcfe, 0x10325476, 0xc3d2e1f0)
  {}

  lemma After8()
    ensures After(8) == Hash(0x9e8c07d4, 0x993e30c1, 0x0ff1f290, 0xb3f52677, 0xf3763846)
  {
    hide After, W;
    After0();
    WordsBelow8();
    forall t | 0 <= t < 8 ensures After(t + 1) == Turn(After(t), t, Word(W(t))) {
      NextTurn(t);
    }
  }

  lemma After16()
    ensures After(16) == Hash(0x20bdd62f, 0x196bee77, 0x644a3da5, 0x1181ed99, 0x18c623f9)
  {
    hide After, W;
    After8();
    WordsBelow16();
    forall t | 8 <= t < 16 ensures After(t + 1) == Turn(After(t), t, Word(W(t))) {
      NextTurn(t);
    }
  }

  lemma After24()
    ensures After(24) == Hash(0xd541f12d, 0x21283486, 0x0ce88eff, 0x868dec32, 0x7f67875f)
  {
    hide After, W;
    After16();
    Words16();
    forall t | 16 <= t < 24 ensures After(t + 1) == Turn(After(t), t, Word(W(t))) {
      NextTurn(t);
    }
  }

  lemma After32()
    ensures After(32) == Hash(0x3b845d33, 0x1267b407, 0x717eebd7, 0xa0dc2d4b, 0xd2aa1365)
  {
    hide After, W;
    After24();
    Words24();
    forall t | 24 <= t < 32 ensures After(t + 1) == Turn(After(t), t, Word(W(t))) {
      NextTurn(t);
    }
  }

  lemma After40()
    ensures After(40) == Hash(0x32de1cba, 0x4c986405, 0xf718e5cf, 0x03d447f6, 0xf72eec32)
  {
    hide After, W;
    After32();
    Words32();
    forall t | 32 <= t < 40 ensures After(t + 1) == Turn(After(t), t, Word(W(t))) {
      NextTurn(t);
    }
  }

  lemma After48()
    ensures After(48) == Hash(0xbead02ca, 0xa01b846c, 0x8714787c, 0x503ca382, 0xfb86c6ab)
  {
    hide After, W;
    After40();
    Words40();
    forall t | 40 <= t < 48 ensures After(t + 1) == Turn(After(t), t, Word(W(t))) {
      NextTurn(t);
    }
  }

  lemma After56()
    ensures After(56) == Hash(0x5e6456af, 0x7b71f76d, 0x09fa7c76, 0x792410db, 0x8e11eb59)
  {
    hide After, W;
    After48();
    Words48();
    forall t | 48 <= t < 56 ensures After(t + 1) == Turn(After(t), t, Word(W(t))) {
      NextTurn(t);
    }
  }

  lemma After64()
    ensures After(64) == Hash(0x6b61c9e1, 0xb66c020b, 0x9523272c, 0xf5d5b051, 0x8fd4b796)
  {
    hide After, W;
    After56();
    Words56();
    forall t | 56 <= t < 64 ensures After(t + 1) == Turn(After(t), t, Word(W(t))) {
      NextTurn(t);
    }
  }

  lemma After72()
    ensures After(72) == Hash(0x39859de7, 0xc199f8c7, 0x8fc96230, 0x125c24f0, 0xde37534a)
  {
    hide After, W;
    After64();
    Words64();
    forall t | 64 <= t < 72 ensures After(t + 1) == Turn(After(t), t, Word(W(t))) {
      NextTurn(t);
    }
  }

  lemma After80()
    ensures After(80) == Hash(0x42541b35, 0x5738d5e1, 0x21834873, 0x681e6df6, 0xd8fdf6ad)
  {
    hide After, W;
    After72();
    Words72();
    forall t | 72 <= t < 80 ensures After(t + 1) == Turn(After(t), t, Word(W(t))) {
      NextTurn(t);
    }
  }

  // ---------------------------------------------------------------- The digest

  lemma {:induction false} NoDigits(n: nat)
    ensures BigEndian(0, n) == seq(n, i => 0)
  {
    if n > 0 {
      NoDigits(n - 1);
    }
  }

  lemma DigitsOfExample()
    ensures BigEndian(24, 8) == [0, 0, 0, 0, 0, 0, 0, 24]
  {
    hide BigEndian;
    BigEndianUnfolds(24, 7);
    NoDigits(7);
  }

  lemma BigEndianUnfolds(v: nat, n: nat)
    ensures BigEndian(v, n + 1) == BigEndian(v / 256, n) + [v % 256]
  {}

  lemma LengthOfExample()
    ensures LengthField(3) == [0, 0, 0, 0, 0, 0, 0, 24]
  {
    hide BigEndian;
    DigitsOfExample();
  }

  lemma PaddedExample()
    ensures Padded(ABC) == Block()
  {
    hide LengthField, Zeros;
    LengthOfExample();
    assert ZeroCount(3) == 52;
  }

  lemma HashOfExample()
    ensures FinalHash(ABC) == Hash(0xa9993e36, 0x4706816a, 0xba3e2571, 0x7850c26c, 0x9cd0d89d)
  {
    hide After, Turns, Padded;
    PaddedExample();
    HashOneBlock(INITIAL, Block());
    After80();
    CompressFollows();
  }

  lemma CompressFollows()
    ensures var v := After(80);
            Compress(INITIAL, Block())
            == Five(Plus(INITIAL.a, v.a), Plus(INITIAL.b, v.b), Plus(INITIAL.c, v.c), Plus(INITIAL.d, v.d),
                    Plus(INITIAL.e, v.e))
  {
    hide Turns, Plus;
  }

  lemma BytesOfExample()
    ensures WordBytes(Word(0xa9993e36)) == [0xa9, 0x99, 0x3e, 0x36]
    ensures WordBytes(Word(0x4706816a)) == [0x47, 0x06, 0x81, 0x6a]
    ensures WordBytes(Word(0xba3e2571)) == [0xba, 0x3e, 0x25, 0x71]
    ensures WordBytes(Word(0x7850c26c)) == [0x78, 0x50, 0xc2, 0x6c]
    ensures WordBytes(Word(0x9cd0d89d)) == [0x9c, 0xd0, 0xd8, 0x9d]
  {}

  /** SHA-1 of "abc". */
  lemma Sha1OfExample()
    ensures Sha1(ABC) == [0xa9, 0x99, 0x3e, 0x36, 0x47, 0x06, 0x81, 0x6a,
                          0xba, 0x3e, 0x25, 0x71, 0x78, 0x50, 0xc2, 0x6c,
                          0x9c, 0xd0, 0xd8, 0x9d]
  {
    hide WordBytes, FinalHash;
    HashOfExample();
    BytesOfExample();
  }
}
