/** The decryptor of src/core/crypto/aes.cpp, in its own imperative form, proved against the
    forward cipher of FIPS 197, CBC mode of NIST SP 800-38A and the padding of RFC 5652. */
module AesDecrypt {
  import opened GaloisField
  import opened AesTables
  import opened AesCipher

  // ---------------------------------------------------------------- Field arithmetic

  /** The shift-and-add loop over the bits of `factor`. */
  method MultiplyBytes(value: bv8, factor: bv8) returns (result: bv8)
    ensures Element(result) == Times(Element(value), Element(factor))
  {
    result := 0;
    var current := value;
    var mask := factor;
    while mask != 0
      invariant Add(Element(result), Times(Element(current), Element(mask))) == Times(Element(value), Element(factor))
      decreases mask
    {
      MultiplyStep(result, current, mask);
      if mask & 1 != 0 {
        result := result ^ current;
      }
      current := XTime(Element(current)).bits;
      mask := mask >> 1;
    }
    AddNothing(Element(result));
  }

  lemma MultiplyStep(result: bv8, current: bv8, mask: bv8)
    requires mask != 0
    ensures mask >> 1 < mask
    ensures Add(Element(result), Times(Element(current), Element(mask)))
         == Add(Element(if mask & 1 != 0 then result ^ current else result),
                Times(XTime(Element(current)), Element(mask >> 1)))
  {
    var c, m := Element(current), Element(mask);
    LastBit(m);
    TimesUnfolds(c, m);
    AddAssociates(Element(result), c, Times(XTime(c), Rest(m)));
  }

  // ---------------------------------------------------------------- The state array

  ghost predicate IsState(state: array2<bv8>) {
    state.Length0 == 4 && state.Length1 == 4
  }

  function ColumnOf(state: array2<bv8>, col: nat): Column
    requires IsState(state) && col < 4
    reads state
  {
    Row(state[0, col], state[1, col], state[2, col], state[3, col])
  }

  function View(state: array2<bv8>): State
    requires IsState(state)
    reads state
  {
    State(ColumnOf(state, 0), ColumnOf(state, 1), ColumnOf(state, 2), ColumnOf(state, 3))
  }

  function KeyByte(roundKeys: Schedule, round: nat, row: nat, col: nat): bv8
    requires round <= ROUNDS && row < 4 && col < 4
  {
    roundKeys[round * BLOCK_SIZE + col * 4 + row]
  }

  function Xor(x: bv8, y: bv8): bv8 { x ^ y }

  function XorColumn(x: Column, y: Column): Column {
    Row(Xor(x.r0.bits, y.r0.bits), Xor(x.r1.bits, y.r1.bits), Xor(x.r2.bits, y.r2.bits), Xor(x.r3.bits, y.r3.bits))
  }

  lemma AddRoundKeyByBytes(s: State, k: State)
    ensures AddRoundKey(s, k)
            == State(XorColumn(s.c0, k.c0), XorColumn(s.c1, k.c1), XorColumn(s.c2, k.c2), XorColumn(s.c3, k.c3))
  {
    hide AddColumns, XorColumn;
    AddColumnByBytes(s.c0, k.c0);
    AddColumnByBytes(s.c1, k.c1);
    AddColumnByBytes(s.c2, k.c2);
    AddColumnByBytes(s.c3, k.c3);
  }

  lemma AddColumnByBytes(x: Column, y: Column)
    ensures AddColumns(x, y) == XorColumn(x, y)
  {}

  method AddRoundKeyInPlace(state: array2<bv8>, roundKeys: Schedule, round: nat)
    requires IsState(state) && round <= ROUNDS
    modifies state
    ensures View(state) == AddRoundKey(old(View(state)), RoundKey(roundKeys, round))
  {
    hide Xor, AddRoundKey, AddColumns;
    var roundOffset := round * BLOCK_SIZE;
    for col := 0 to 4
      invariant forall r, c :: 0 <= r < 4 && 0 <= c < 4 ==>
          state[r, c] == if c < col then Xor(old(state[r, c]), KeyByte(roundKeys, round, r, c)) else old(state[r, c])
    {
      for row := 0 to 4
        invariant forall r, c :: 0 <= r < 4 && 0 <= c < 4 ==>
            state[r, c] == if c < col || (c == col && r < row)
                           then Xor(old(state[r, c]), KeyByte(roundKeys, round, r, c))
                           else old(state[r, c])
      {
        state[row, col] := Xor(state[row, col], roundKeys[roundOffset + col * 4 + row]);
      }
    }
    ghost var s := old(View(state));
    AddRoundKeyByBytes(s, RoundKey(roundKeys, round));
  }

  method InvSubBytesInPlace(state: array2<bv8>)
    requires IsState(state)
    modifies state
    ensures View(state) == InvSubBytes(old(View(state)))
  {
    for row := 0 to 4
      invariant forall r, c :: 0 <= r < 4 && 0 <= c < 4 ==>
          state[r, c] == if r < row then InvSubElement(Element(old(state[r, c]))).bits else old(state[r, c])
    {
      for col := 0 to 4
        invariant forall r, c :: 0 <= r < 4 && 0 <= c < 4 ==>
            state[r, c] == if r < row || (r == row && c < col) then InvSubElement(Element(old(state[r, c]))).bits
                           else old(state[r, c])
      {
        state[row, col] := InvSubElement(Element(state[row, col])).bits;
      }
    }
  }

  method InvShiftRowsInPlace(state: array2<bv8>)
    requires IsState(state)
    modifies state
    ensures View(state) == InvShiftRows(old(View(state)))
  {
    var temp := state[1, 3];
    state[1, 3] := state[1, 2];
    state[1, 2] := state[1, 1];
    state[1, 1] := state[1, 0];
    state[1, 0] := temp;

    temp := state[2, 0];
    state[2, 0] := state[2, 2];
    state[2, 2] := temp;
    temp := state[2, 1];
    state[2, 1] := state[2, 3];
    state[2, 3] := temp;

    temp := state[3, 0];
    state[3, 0] := state[3, 1];
    state[3, 1] := state[3, 2];
    state[3, 2] := state[3, 3];
    state[3, 3] := temp;
  }

  /** One output byte of InvMixColumns: four products and their sum. */
  method MixedByte(a: bv8, b: bv8, c: bv8, d: bv8, row: Column) returns (result: bv8)
    ensures Element(result) == Dot(row, Row(a, b, c, d))
  {
    hide Times, Add, Xor;
    var p := MultiplyBytes(a, row.r0.bits);
    var q := MultiplyBytes(b, row.r1.bits);
    var r := MultiplyBytes(c, row.r2.bits);
    var s := MultiplyBytes(d, row.r3.bits);
    result := Xor(Xor(Xor(p, q), r), s);
    AddBytes(p, q);
    AddBytes(Xor(p, q), r);
    AddBytes(Xor(Xor(p, q), r), s);
    AddAssociates(Add(Element(p), Element(q)), Element(r), Element(s));
  }

  method InvMixColumnsInPlace(state: array2<bv8>)
    requires IsState(state)
    modifies state
    ensures View(state) == InvMixColumns(old(View(state)))
  {
    hide InvMixColumn, Dot;
    for col := 0 to 4
      invariant forall c :: 0 <= c < 4 ==>
          ColumnOf(state, c) == if c < col then InvMixColumn(old(ColumnOf(state, c))) else old(ColumnOf(state, c))
    {
      var a, b, c, d := state[0, col], state[1, col], state[2, col], state[3, col];
      var x0 := MixedByte(a, b, c, d, INVERSE_MIX.m0);
      var x1 := MixedByte(a, b, c, d, INVERSE_MIX.m1);
      var x2 := MixedByte(a, b, c, d, INVERSE_MIX.m2);
      var x3 := MixedByte(a, b, c, d, INVERSE_MIX.m3);
      state[0, col], state[1, col], state[2, col], state[3, col] := x0, x1, x2, x3;
      InvMixColumnByRows(Row(a, b, c, d));
    }
  }

  lemma InvMixColumnByRows(v: Column)
    ensures InvMixColumn(v)
            == Column(Dot(INVERSE_MIX.m0, v), Dot(INVERSE_MIX.m1, v), Dot(INVERSE_MIX.m2, v), Dot(INVERSE_MIX.m3, v))
  {}

  // ---------------------------------------------------------------- Key expansion

  method RotWordInPlace(word: array<bv8>)
    requires word.Length == 4
    modifies word
    ensures ColumnAt(word[..], 0) == RotWord(old(ColumnAt(word[..], 0)))
  {
    var first := word[0];
    word[0] := word[1];
    word[1] := word[2];
    word[2] := word[3];
    word[3] := first;
  }

  method SubWordInPlace(word: array<bv8>)
    requires word.Length == 4
    modifies word
    ensures ColumnAt(word[..], 0) == SubColumn(old(ColumnAt(word[..], 0)))
  {
    hide SubElement;
    for i := 0 to 4
      invariant forall k :: 0 <= k < 4 ==>
          word[k] == if k < i then SubElement(Element(old(word[k]))).bits else old(word[k])
    {
      word[i] := SubElement(Element(word[i])).bits;
    }
  }

  method AddRcon(temp: array<bv8>, rconIndex: nat)
    requires temp.Length == 4 && 1 <= rconIndex < |RCON|
    modifies temp
    ensures ColumnAt(temp[..], 0)
         == AddColumns(old(ColumnAt(temp[..], 0)), Column(PowerOfX(rconIndex - 1), NOTHING, NOTHING, NOTHING))
  {
    hide Xor, PowerOfX, Add;
    ghost var before := ColumnAt(temp[..], 0);
    AddBytes(temp[0], RCON[rconIndex]);
    temp[0] := Xor(temp[0], RCON[rconIndex]);
    RconIsPowerOfX(rconIndex);
    AddNothing(before.r1);
    AddNothing(before.r2);
    AddNothing(before.r3);
  }

  /** The word that section 5.2 adds: rotated and substituted at every eighth word, only substituted
      half way between, and taken over unchanged otherwise. */
  method TransformTemp(temp: array<bv8>, bytesGenerated: nat, rconIndex: nat) returns (nextRcon: nat)
    requires temp.Length == 4
    requires KEY_SIZE <= bytesGenerated < SCHEDULE_SIZE && bytesGenerated % 4 == 0
    requires rconIndex == (bytesGenerated + 28) / KEY_SIZE
    modifies temp
    ensures ColumnAt(temp[..], 0) == KeyTemp(old(ColumnAt(temp[..], 0)), bytesGenerated / 4)
    ensures nextRcon == (bytesGenerated + 32) / KEY_SIZE
  {
    hide SubColumn, PowerOfX, ColumnAt, AddColumns, RotWord;
    nextRcon := rconIndex;
    if bytesGenerated % KEY_SIZE == 0 {
      RotWordInPlace(temp);
      SubWordInPlace(temp);
      AddRcon(temp, rconIndex);
      nextRcon := rconIndex + 1;
    } else if bytesGenerated % KEY_SIZE == BLOCK_SIZE {
      SubWordInPlace(temp);
    }
  }

  lemma {:induction false} KeyWordAt(key: seq<bv8>, words: nat, i: nat)
    requires |key| == KEY_SIZE && i < words
    ensures ColumnAt(KeyWords(key, words), 4 * i) == KeyWord(key, i)
  {
    hide KeyWord;
    if i < words - 1 {
      KeyWordAt(key, words - 1, i);
    }
  }

  lemma {:induction false} KeyWordsOfKey(key: seq<bv8>, words: nat)
    requires |key| == KEY_SIZE && words <= 8
    ensures KeyWords(key, words) == key[..4 * words]
  {
    if words > 0 {
      KeyWordsOfKey(key, words - 1);
      assert key[..4 * words] == key[..4 * (words - 1)] + ColumnBytes(ColumnAt(key, 4 * (words - 1)));
    }
  }

  lemma WordByte(done: seq<bv8>, temp: seq<bv8>, offset: nat, index: nat)
    requires offset + 4 <= |done| && |temp| == 4 && index < 4
    ensures ColumnBytes(AddColumns(ColumnAt(done, offset), ColumnAt(temp, 0)))[index]
            == Xor(done[offset + index], temp[index])
  {
    hide Add, Xor;
    AddBytes(done[offset + index], temp[index]);
    assert index == 0 || index == 1 || index == 2 || index == 3;
  }

  lemma AddBytes(x: bv8, y: bv8)
    ensures Add(Element(x), Element(y)) == Element(Xor(x, y))
  {}

  lemma KeyWordUnfolds(key: seq<bv8>, i: nat)
    requires |key| == KEY_SIZE && 8 <= i
    ensures KeyWord(key, i) == AddColumns(KeyWord(key, i - 8), KeyTemp(KeyWord(key, i - 1), i))
  {}

  /** The inner loop that adds the transformed word to the word 32 bytes back and stores it. */
  method StoreWord(roundKeys: array<bv8>, temp: array<bv8>, offset: nat)
    requires KEY_SIZE <= offset && offset + 4 <= roundKeys.Length && temp.Length == 4 && temp != roundKeys
    modifies roundKeys
    ensures roundKeys[..offset] == old(roundKeys[..offset])
    ensures roundKeys[..offset + 4] == old(roundKeys[..offset])
         + ColumnBytes(AddColumns(ColumnAt(old(roundKeys[..]), offset - KEY_SIZE), ColumnAt(temp[..], 0)))
  {
    hide ColumnBytes, Xor, AddColumns;
    ghost var done := roundKeys[..];
    ghost var word := ColumnBytes(AddColumns(ColumnAt(done, offset - KEY_SIZE), ColumnAt(temp[..], 0)));
    ColumnHasFourBytes(AddColumns(ColumnAt(done, offset - KEY_SIZE), ColumnAt(temp[..], 0)));
    for index := 0 to 4
      invariant roundKeys[..offset] == done[..offset]
      invariant roundKeys[offset..offset + index] == word[..index]
    {
      assert roundKeys[offset - KEY_SIZE + index] == roundKeys[..offset][offset - KEY_SIZE + index]
          == done[offset - KEY_SIZE + index];
      roundKeys[offset + index] := Xor(roundKeys[offset - KEY_SIZE + index], temp[index]);
      WordByte(done, temp[..], offset - KEY_SIZE, index);
    }
    assert roundKeys[..offset + 4] == roundKeys[..offset] + roundKeys[offset..offset + 4];
  }

  lemma ColumnHasFourBytes(v: Column)
    ensures |ColumnBytes(v)| == 4
  {}

  lemma NextWord(key: seq<bv8>, words: nat, done: seq<bv8>, all: seq<bv8>, temp: Column)
    requires |key| == KEY_SIZE && 8 <= words && |all| >= 4 * words
    requires done == KeyWords(key, words) == all[..4 * words]
    requires temp == KeyTemp(ColumnAt(done, 4 * words - 4), words)
    ensures done + ColumnBytes(AddColumns(ColumnAt(all, 4 * words - KEY_SIZE), temp)) == KeyWords(key, words + 1)
  {
    hide ColumnBytes, AddColumns, KeyTemp;
    KeyWordAt(key, words, words - 1);
    KeyWordAt(key, words, words - 8);
    KeyWordUnfolds(key, words);
    assert ColumnAt(all, 4 * words - KEY_SIZE) == ColumnAt(done, 4 * words - KEY_SIZE);
  }

  method LoadTemp(roundKeys: array<bv8>, temp: array<bv8>, offset: nat)
    requires offset + 4 <= roundKeys.Length && temp.Length == 4 && temp != roundKeys
    modifies temp
    ensures temp[..] == roundKeys[offset..offset + 4]
  {
    for index := 0 to 4
      invariant forall k :: 0 <= k < index ==> temp[k] == roundKeys[offset + k]
    {
      temp[index] := roundKeys[offset + index];
    }
  }

  /** One turn of the key schedule loop. */
  method GenerateWord(ghost key: seq<bv8>, roundKeys: array<bv8>, temp: array<bv8>, bytesGenerated: nat, rconIndex: nat)
    returns (nextRcon: nat)
    requires |key| == KEY_SIZE && roundKeys.Length == SCHEDULE_SIZE && temp.Length == 4 && temp != roundKeys
    requires KEY_SIZE <= bytesGenerated < SCHEDULE_SIZE && bytesGenerated % 4 == 0
    requires rconIndex == (bytesGenerated + 28) / KEY_SIZE
    requires roundKeys[..bytesGenerated] == KeyWords(key, bytesGenerated / 4)
    modifies roundKeys, temp
    ensures roundKeys[..bytesGenerated + 4] == KeyWords(key, bytesGenerated / 4 + 1)
    ensures nextRcon == (bytesGenerated + 32) / KEY_SIZE
  {
    hide KeyWords, KeyTemp, ColumnAt, ColumnBytes, AddColumns;
    ghost var words, done, all := bytesGenerated / 4, roundKeys[..bytesGenerated], roundKeys[..];
    LoadTemp(roundKeys, temp, bytesGenerated - 4);
    SameColumn(temp[..], done, bytesGenerated - 4);
    nextRcon := TransformTemp(temp, bytesGenerated, rconIndex);
    NextWord(key, words, done, all, ColumnAt(temp[..], 0));
    StoreWord(roundKeys, temp, bytesGenerated);
  }

  lemma SameColumn(temp: seq<bv8>, done: seq<bv8>, offset: nat)
    requires |temp| == 4 && offset + 4 <= |done| && temp == done[offset..offset + 4]
    ensures ColumnAt(temp, 0) == ColumnAt(done, offset)
  {}

  method ExpandKey(key: seq<bv8>) returns (expanded: Schedule)
    requires |key| == KEY_SIZE
    ensures expanded == KeyExpansion(key)
  {
    hide KeyWords;
    var roundKeys := new bv8[SCHEDULE_SIZE](i => 0);
    for i := 0 to KEY_SIZE
      invariant roundKeys[..i] == key[..i]
    {
      roundKeys[i] := key[i];
    }
    KeyWordsOfKey(key, 8);

    var bytesGenerated := KEY_SIZE;
    var rconIndex := 1;
    var temp := new bv8[4](i => 0);
    while bytesGenerated < SCHEDULE_SIZE
      invariant KEY_SIZE <= bytesGenerated <= SCHEDULE_SIZE && bytesGenerated % 4 == 0
      invariant rconIndex == (bytesGenerated + 28) / KEY_SIZE
      invariant roundKeys[..bytesGenerated] == KeyWords(key, bytesGenerated / 4)
    {
      rconIndex := GenerateWord(key, roundKeys, temp, bytesGenerated, rconIndex);
      bytesGenerated := bytesGenerated + 4;
    }
    assert roundKeys[..] == roundKeys[..SCHEDULE_SIZE];
    expanded := roundKeys[..];
  }

  // ---------------------------------------------------------------- One block

  method LoadState(input: Block) returns (state: array2<bv8>)
    ensures fresh(state) && IsState(state) && View(state) == StateAt(input, 0)
  {
    state := new bv8[4, 4]((row, col) => 0);
    for col := 0 to 4
      invariant forall r, c :: 0 <= r < 4 && 0 <= c < col ==> state[r, c] == input[c * 4 + r]
    {
      for row := 0 to 4
        invariant forall r, c :: 0 <= r < 4 && 0 <= c < 4 && (c < col || (c == col && r < row)) ==>
                  state[r, c] == input[c * 4 + r]
      {
        state[row, col] := input[col * 4 + row];
      }
    }
  }

  method DecryptBlock(input: Block, roundKeys: Schedule) returns (output: Block)
    ensures output == InvCipher(input, roundKeys)
    ensures Cipher(output, roundKeys) == input
  {
    hide AddRoundKey, InvSubBytes, InvShiftRows, InvMixColumns, Cipher;
    var state := LoadState(input);
    ghost var s := StateAt(input, 0);

    AddRoundKeyInPlace(state, roundKeys, ROUNDS);
    for round := ROUNDS downto 1
      invariant View(state) == RoundsUndone(s, roundKeys, round)
    {
      InvShiftRowsInPlace(state);
      InvSubBytesInPlace(state);
      AddRoundKeyInPlace(state, roundKeys, round);
      InvMixColumnsInPlace(state);
    }
    InvShiftRowsInPlace(state);
    InvSubBytesInPlace(state);
    AddRoundKeyInPlace(state, roundKeys, 0);
    assert View(state) == InvCipherState(s, roundKeys);

    output := StoreState(state);
    CipherInverts(input, roundKeys);
  }

  method StoreState(state: array2<bv8>) returns (output: Block)
    requires IsState(state)
    ensures output == StateBytes(View(state))
  {
    var bytes := new bv8[BLOCK_SIZE](i => 0);
    for col := 0 to 4
      invariant forall c :: 0 <= c < col ==> ColumnAt(bytes[..], 4 * c) == ColumnOf(state, c)
    {
      for row := 0 to 4
        invariant forall c :: 0 <= c < col ==> ColumnAt(bytes[..], 4 * c) == ColumnOf(state, c)
        invariant forall r :: 0 <= r < row ==> bytes[col * 4 + r] == state[r, col]
      {
        bytes[col * 4 + row] := state[row, col];
      }
    }
    output := bytes[..];
    assert StateAt(output, 0) == View(state);
    BytesOfState(output);
  }

  // ---------------------------------------------------------------- Padding

  const EMPTY_PLAINTEXT := "AES plaintext is empty after decrypt"
  const INVALID_PADDING := "AES plaintext has invalid PKCS7 padding"
  const MISMATCHED_PADDING := "AES plaintext PKCS7 padding bytes do not match"
  const BAD_KEY_SIZE := "AES-256 key must be 32 bytes"
  const BAD_CIPHERTEXT_SIZE := "AES ciphertext must be more than one block and block-aligned"

  /** Does the padding count in the last byte name a possible padding of these bytes? */
  predicate PlausiblePadding(bytes: seq<bv8>)
    requires bytes != []
  {
    var padding := bytes[|bytes| - 1];
    1 <= padding <= 16 && padding as nat <= |bytes|
  }

  function Last(bytes: seq<bv8>): nat
    requires bytes != []
  {
    bytes[|bytes| - 1] as nat
  }

  ghost predicate EndsInPadding(bytes: seq<bv8>, plain: seq<bv8>) {
    exists n: nat | 1 <= n <= BLOCK_SIZE :: bytes == plain + Repeat(n)
  }

  lemma SmallPadding(padding: bv8)
    requires 1 <= padding <= 16
    ensures 1 <= padding as nat <= BLOCK_SIZE && (padding as nat) as bv8 == padding
  {
    assert padding == 1 || padding == 2 || padding == 3 || padding == 4 || padding == 5 || padding == 6
        || padding == 7 || padding == 8 || padding == 9 || padding == 10 || padding == 11 || padding == 12
        || padding == 13 || padding == 14 || padding == 15 || padding == 16;
  }

  lemma PaddingIsPlausible(bytes: seq<bv8>, plain: seq<bv8>, n: nat)
    requires 1 <= n <= BLOCK_SIZE && bytes == plain + Repeat(n)
    ensures PlausiblePadding(bytes) && n == bytes[|bytes| - 1] as nat
    ensures bytes[|bytes| - n..] == Repeat(n) && bytes[..|bytes| - n] == plain
  {
    assert bytes[|bytes| - 1] == Repeat(n)[n - 1] == n as bv8;
    SmallByte(n);
    assert n == 1 || n == 2 || n == 3 || n == 4 || n == 5 || n == 6 || n == 7 || n == 8
        || n == 9 || n == 10 || n == 11 || n == 12 || n == 13 || n == 14 || n == 15 || n == 16;
  }

  lemma AlignedPaddingIsPad(bytes: seq<bv8>, plain: seq<bv8>)
    requires Aligned(bytes) && EndsInPadding(bytes, plain)
    ensures bytes == Pad(plain)
  {
    var n: nat :| 1 <= n <= BLOCK_SIZE && bytes == plain + Repeat(n);
    assert n == BLOCK_SIZE - |plain| % BLOCK_SIZE;
  }

  lemma PadEndsInPadding(plain: seq<bv8>)
    ensures EndsInPadding(Pad(plain), plain)
  {}

  /** What is wrong with bytes that do not end in a padding. */
  function PaddingMessage(bytes: seq<bv8>): string {
    if bytes == [] then EMPTY_PLAINTEXT else if PlausiblePadding(bytes) then MISMATCHED_PADDING else INVALID_PADDING
  }

  /** Succeeds exactly on bytes that end in a padding, which it takes off. */
  method RemovePkcs7Padding(bytes: seq<bv8>) returns (ok: bool, rest: seq<bv8>, errorMessage: string)
    ensures ok ==> EndsInPadding(bytes, rest) && errorMessage == ""
    ensures !ok ==> rest == bytes && forall plain :: !EndsInPadding(bytes, plain)
    ensures !ok ==> errorMessage == PaddingMessage(bytes)
    ensures !ok ==> errorMessage == if bytes == [] then "AES plaintext is empty after decrypt"
                                    else if 1 <= Last(bytes) <= 16 && Last(bytes) <= |bytes|
                                    then "AES plaintext PKCS7 padding bytes do not match"
                                    else "AES plaintext has invalid PKCS7 padding"
  {
    if bytes == [] {
      return false, bytes, EMPTY_PLAINTEXT;
    }
    var padding := bytes[|bytes| - 1];
    if padding == 0 || padding > 16 || padding as nat > |bytes| {
      forall plain ensures !EndsInPadding(bytes, plain) {
        NeedsPlausiblePadding(bytes, plain);
      }
      return false, bytes, INVALID_PADDING;
    }
    SmallPadding(padding);
    var paddingSize := padding as nat;
    var start := |bytes| - paddingSize;
    for i := start to |bytes|
      invariant forall k :: start <= k < i ==> bytes[k] == padding
    {
      if bytes[i] != padding {
        forall plain ensures !EndsInPadding(bytes, plain) {
          NeedsEqualPadding(bytes, plain, i);
        }
        return false, bytes, MISMATCHED_PADDING;
      }
    }
    assert bytes == bytes[..start] + Repeat(paddingSize);
    return true, bytes[..start], "";
  }

  lemma NeedsPlausiblePadding(bytes: seq<bv8>, plain: seq<bv8>)
    requires bytes != []
    ensures EndsInPadding(bytes, plain) ==> PlausiblePadding(bytes)
  {
    if EndsInPadding(bytes, plain) {
      var n: nat :| 1 <= n <= BLOCK_SIZE && bytes == plain + Repeat(n);
      PaddingIsPlausible(bytes, plain, n);
    }
  }

  lemma NeedsEqualPadding(bytes: seq<bv8>, plain: seq<bv8>, i: nat)
    requires bytes != [] && PlausiblePadding(bytes)
    requires |bytes| - bytes[|bytes| - 1] as nat <= i < |bytes|
    ensures EndsInPadding(bytes, plain) ==> bytes[i] == bytes[|bytes| - 1]
  {
    if EndsInPadding(bytes, plain) {
      var n: nat :| 1 <= n <= BLOCK_SIZE && bytes == plain + Repeat(n);
      PaddingIsPlausible(bytes, plain, n);
      assert bytes[i] == Repeat(n)[i - (|bytes| - n)];
    }
  }

  // ---------------------------------------------------------------- The decryptor

  datatype AesDecryptResult = AesDecryptResult(ok: bool, errorMessage: string, bytes: seq<bv8>)

  method XorIntoPlain(plain: array<bv8>, start: nat, decrypted: Block, previous: Block)
    requires start + BLOCK_SIZE <= plain.Length
    modifies plain
    ensures plain[..start] == old(plain[..start])
    ensures plain[..start + BLOCK_SIZE] == old(plain[..start]) + XorBlocks(decrypted, previous)
  {
    hide XorBlocks, Xor;
    ghost var before, block := plain[..start], XorBlocks(decrypted, previous);
    for index := 0 to BLOCK_SIZE
      invariant plain[..start] == before
      invariant plain[start..start + index] == block[..index]
    {
      plain[start + index] := Xor(decrypted[index], previous[index]);
      XorBlockByte(decrypted, previous, index);
    }
    assert plain[..start + BLOCK_SIZE] == plain[..start] + plain[start..start + BLOCK_SIZE];
  }

  lemma XorBlockByte(x: Block, y: Block, index: nat)
    requires index < BLOCK_SIZE
    ensures XorBlocks(x, y)[index] == Xor(x[index], y[index])
  {
    hide Xor, Add;
    AddBytes(x[index], y[index]);
    assert index == 0 || index == 1 || index == 2 || index == 3 || index == 4 || index == 5 || index == 6 || index == 7
        || index == 8 || index == 9 || index == 10 || index == 11 || index == 12 || index == 13 || index == 14
        || index == 15;
  }

  /** One turn of the chaining loop. */
  method DecryptNext(ciphertext: seq<bv8>, offset: nat, previous: Block, roundKeys: Schedule, plain: array<bv8>,
                     ghost iv: Block)
    requires BLOCK_SIZE <= offset && offset + BLOCK_SIZE <= |ciphertext| && plain.Length == |ciphertext| - BLOCK_SIZE
    requires Aligned(ciphertext[BLOCK_SIZE..offset]) && previous == ChainBlock(iv, ciphertext[BLOCK_SIZE..offset])
    requires ChainSoFar(iv, plain[..offset - BLOCK_SIZE], roundKeys, ciphertext[BLOCK_SIZE..offset])
    modifies plain
    ensures ChainSoFar(iv, plain[..offset], roundKeys, ciphertext[BLOCK_SIZE..offset + BLOCK_SIZE])
  {
    hide Cipher, InvCipher, XorBlocks, CbcEncrypt, ChainSoFar, ChainBlock;
    var block: Block := ciphertext[offset..offset + BLOCK_SIZE];
    var decrypted := DecryptBlock(block, roundKeys);
    ghost var done, cipher := plain[..offset - BLOCK_SIZE], ciphertext[BLOCK_SIZE..offset];
    XorIntoPlain(plain, offset - BLOCK_SIZE, decrypted, previous);
    NextBlock(iv, done, previous, decrypted, block, roundKeys, cipher);
    assert ciphertext[BLOCK_SIZE..offset + BLOCK_SIZE] == cipher + block;
  }

  /** The chaining loop: what it leaves in `plain` enciphers back to everything after the first block. */
  method DecryptChain(ciphertext: seq<bv8>, iv: Block, roundKeys: Schedule) returns (result: seq<bv8>)
    requires |ciphertext| > BLOCK_SIZE && Aligned(ciphertext)
    ensures ChainSoFar(iv, result, roundKeys, ciphertext[BLOCK_SIZE..])
  {
    hide Cipher, InvCipher, XorBlocks, CbcEncrypt;
    var plain := new bv8[|ciphertext| - BLOCK_SIZE](i => 0);
    var previous := iv;
    var offset := BLOCK_SIZE;
    NothingEnciphered(iv, roundKeys);
    while offset < |ciphertext|
      invariant BLOCK_SIZE <= offset <= |ciphertext| && offset % BLOCK_SIZE == 0
      invariant ChainSoFar(iv, plain[..offset - BLOCK_SIZE], roundKeys, ciphertext[BLOCK_SIZE..offset])
      invariant previous == ChainBlock(iv, ciphertext[BLOCK_SIZE..offset])
    {
      DecryptNext(ciphertext, offset, previous, roundKeys, plain, iv);
      ghost var cipher := ciphertext[BLOCK_SIZE..offset];
      previous := ciphertext[offset..offset + BLOCK_SIZE];
      EndOfChain(iv, cipher, previous);
      assert ciphertext[BLOCK_SIZE..offset + BLOCK_SIZE] == cipher + previous;
      offset := offset + BLOCK_SIZE;
    }
    assert plain[..] == plain[..offset - BLOCK_SIZE];
    assert ciphertext[BLOCK_SIZE..] == ciphertext[BLOCK_SIZE..offset];
    result := plain[..];
  }

  lemma NothingEnciphered(iv: Block, w: Schedule)
    ensures CbcEncrypt(iv, [], w) == []
  {}

  lemma EndOfChain(iv: Block, cipher: seq<bv8>, block: Block)
    requires Aligned(cipher)
    ensures Aligned(cipher + block) && ChainBlock(iv, cipher + block) == block
  {}

  ghost predicate ChainSoFar(iv: Block, plain: seq<bv8>, w: Schedule, cipher: seq<bv8>) {
    Aligned(plain) && CbcEncrypt(iv, plain, w) == cipher
  }

  ghost predicate Enciphers(plain: Block, w: Schedule, cipher: Block) {
    Cipher(plain, w) == cipher
  }

  lemma NextBlock(iv: Block, done: seq<bv8>, previous: Block, decrypted: Block, block: Block, w: Schedule,
                  cipher: seq<bv8>)
    requires Aligned(cipher) && previous == ChainBlock(iv, cipher)
    requires ChainSoFar(iv, done, w, cipher)
    requires Enciphers(decrypted, w, block)
    ensures ChainSoFar(iv, done + XorBlocks(decrypted, previous), w, cipher + block)
  {
    hide Cipher, XorBlocks, CbcEncrypt;
    CbcAppends(iv, done, XorBlocks(decrypted, previous), w);
    XorBlocksTwice(decrypted, previous);
  }

  /** The text, padded in whatever way, that decryption finds, and the vector. */
  ghost predicate Encloses(key: seq<bv8>, ciphertext: seq<bv8>, iv: Block, padded: seq<bv8>)
    requires |key| == KEY_SIZE
  {
    Aligned(padded) && ciphertext == Cipher(iv, KeyExpansion(key)) + CbcEncrypt(iv, padded, KeyExpansion(key))
  }

  lemma EnclosesOnlyOne(key: seq<bv8>, ciphertext: seq<bv8>, iv: Block, padded: seq<bv8>, iv': Block, padded': seq<bv8>)
    requires |key| == KEY_SIZE && Encloses(key, ciphertext, iv, padded) && Encloses(key, ciphertext, iv', padded')
    ensures iv == iv' && padded == padded'
  {
    hide Cipher, InvCipher, KeyExpansion, CbcEncrypt;
    var w := KeyExpansion(key);
    assert ciphertext[..BLOCK_SIZE] == Cipher(iv, w) && ciphertext[..BLOCK_SIZE] == Cipher(iv', w);
    CipherInverts(iv, w);
    CipherInverts(iv', w);
    assert ciphertext[BLOCK_SIZE..] == CbcEncrypt(iv, padded, w);
    assert ciphertext[BLOCK_SIZE..] == CbcEncrypt(iv', padded', w);
    CbcIsInjective(iv, padded, padded', w);
  }

  /** Decryption succeeds with p exactly on the envelopes of p, whatever the initialisation vector;
      everything else is refused, with the message of the first test that fails. */
  method Aes256EcbThenCbcDecryptPkcs7(ciphertext: seq<bv8>, key: seq<bv8>) returns (r: AesDecryptResult)
    ensures |key| != 32 ==> r == AesDecryptResult(false, "AES-256 key must be 32 bytes", [])
    ensures |key| == 32 && (|ciphertext| <= 16 || |ciphertext| % 16 != 0) ==>
              r == AesDecryptResult(false, "AES ciphertext must be more than one block and block-aligned", [])
    ensures r.ok ==>
            |key| == KEY_SIZE && r.errorMessage == "" && exists iv: Block :: ciphertext == Envelope(key, iv, r.bytes)
    ensures !r.ok ==> r.bytes == []
    ensures |key| == KEY_SIZE ==> forall iv: Block, plain :: ciphertext == Envelope(key, iv, plain) ==>
            r.ok && r.bytes == plain
    ensures !r.ok && |key| == KEY_SIZE && |ciphertext| > BLOCK_SIZE && Aligned(ciphertext) ==>
              exists iv: Block, padded :: Encloses(key, ciphertext, iv, padded)
                  && r.errorMessage == PaddingMessage(padded)
    ensures !r.ok && |key| == KEY_SIZE ==>
              forall iv: Block, padded :: Encloses(key, ciphertext, iv, padded) && |ciphertext| > BLOCK_SIZE ==>
                r.errorMessage == PaddingMessage(padded)
  {
    hide Cipher, InvCipher, KeyExpansion, CbcEncrypt, Pad, PaddingMessage;
    if |key| != KEY_SIZE {
      return AesDecryptResult(false, BAD_KEY_SIZE, []);
    }
    if |ciphertext| <= BLOCK_SIZE || |ciphertext| % BLOCK_SIZE != 0 {
      return AesDecryptResult(false, BAD_CIPHERTEXT_SIZE, []);
    }
    var roundKeys := ExpandKey(key);
    var first: Block := ciphertext[..BLOCK_SIZE];
    var iv := DecryptBlock(first, roundKeys);
    var plain := DecryptChain(ciphertext, iv, roundKeys);
    assert ciphertext == first + ciphertext[BLOCK_SIZE..];

    var ok, rest, errorMessage := RemovePkcs7Padding(plain);
    if !ok {
      assert Encloses(key, ciphertext, iv, plain);
      forall iv': Block, plain' ensures ciphertext != Envelope(key, iv', plain') {
        NotAnEnvelope(key, ciphertext, iv, plain, iv', plain');
      }
      forall iv': Block, plain' | Encloses(key, ciphertext, iv', plain') ensures plain' == plain {
        EnclosesOnlyOne(key, ciphertext, iv, plain, iv', plain');
      }
      return AesDecryptResult(false, errorMessage, []);
    }
    AlignedPaddingIsPad(plain, rest);
    assert ciphertext == Envelope(key, iv, rest);
    forall iv': Block, plain' | ciphertext == Envelope(key, iv', plain') ensures plain' == rest {
      EnvelopeIsInjective(key, iv, rest, iv', plain');
    }
    return AesDecryptResult(true, "", rest);
  }

  lemma NotAnEnvelope(key: seq<bv8>, ciphertext: seq<bv8>, iv: Block, plain: seq<bv8>, iv': Block, plain': seq<bv8>)
    requires |key| == KEY_SIZE && forall p :: !EndsInPadding(plain, p)
    requires Encloses(key, ciphertext, iv, plain)
    ensures ciphertext != Envelope(key, iv', plain')
  {
    hide Cipher, InvCipher, KeyExpansion, CbcEncrypt;
    PadEndsInPadding(plain');
    if ciphertext == Envelope(key, iv', plain') {
      EnclosesOnlyOne(key, ciphertext, iv, plain, iv', Pad(plain'));
    }
  }
}
