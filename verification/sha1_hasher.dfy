/** The streaming hasher of src/core/hash/sha1.cpp, proved to refine the one-shot definition. */
module Sha1 {
  import opened Sha1Spec

  function And(x: Word, y: Word): Word { Word(x.bits & y.bits) }

  function Or(x: Word, y: Word): Word { Word(x.bits | y.bits) }

  function Not(x: Word): Word { Word(!x.bits) }

  lemma ChooseForms(b: Word, c: Word, d: Word)
    ensures Or(And(b, c), And(Not(b), d)) == Ch(b, c, d)
  {}

  lemma MajorityForms(b: Word, c: Word, d: Word)
    ensures Or(Or(And(b, c), And(b, d)), And(c, d)) == Maj(b, c, d)
  {}

  /** The function and the constant of a turn, selected by the chain of comparisons in the loop. */
  method SelectTurn(index: nat, b: Word, c: Word, d: Word) returns (f: Word, k: Word)
    requires index < 80
    ensures f == F(index, b, c, d) && k == K(index)
  {
    hide And, Or, Not, Ch, Maj, Parity;
    if index < 20 {
      ChooseForms(b, c, d);
      f := Or(And(b, c), And(Not(b), d));
      k := Word(0x5a827999);
    } else if index < 40 {
      f := Parity(b, c, d);
      k := Word(0x6ed9eba1);
    } else if index < 60 {
      MajorityForms(b, c, d);
      f := Or(Or(And(b, c), And(b, d)), And(c, d));
      k := Word(0x8f1bbcdc);
    } else {
      f := Parity(b, c, d);
      k := Word(0xca62c1d6);
    }
  }

  method ReadU32Be(data: array<bv8>, offset: nat) returns (word: Word)
    requires data.Length == BLOCK && offset % 4 == 0 && offset < BLOCK
    ensures word == WordAt(data[..], offset / 4)
  {
    word := Word(((data[offset] as bv32) << 24) | ((data[offset + 1] as bv32) << 16)
                 | ((data[offset + 2] as bv32) << 8) | (data[offset + 3] as bv32));
  }

  method ExpandWords(block: array<bv8>) returns (words: array<Word>)
    requires block.Length == BLOCK
    ensures fresh(words) && words.Length == 80
    ensures forall t :: 0 <= t < 80 ==> words[t] == Schedule(block[..], t)
  {
    hide WordAt, RotateLeft, Xor4;
    ghost var bytes := block[..];
    words := new Word[80](i => Word(0));
    for index := 0 to 16
      invariant forall t :: 0 <= t < index ==> words[t] == Schedule(bytes, t)
    {
      words[index] := ReadU32Be(block, index * 4);
    }
    for index := 16 to 80
      invariant forall t :: 0 <= t < index ==> words[t] == Schedule(bytes, t)
    {
      words[index] := RotateLeft(Xor4(words[index - 3], words[index - 8], words[index - 14], words[index - 16]), 1);
    }
  }

  function HashOf(state: array<Word>): Five
    requires state.Length == 5
    reads state
  {
    Five(state[0], state[1], state[2], state[3], state[4])
  }

  /** Section 6.1.2 for one block, in place on the hash state. */
  method ProcessBlock(state: array<Word>, block: array<bv8>)
    requires state.Length == 5 && block.Length == BLOCK
    modifies state
    ensures HashOf(state) == Compress(old(HashOf(state)), old(block[..]))
  {
    hide F, K, Schedule, RotateLeft, Plus;
    ghost var bytes, start := block[..], HashOf(state);
    var words := ExpandWords(block);
    var a, b, c, d, e := state[0], state[1], state[2], state[3], state[4];
    for index := 0 to 80
      invariant Five(a, b, c, d, e) == Turns(start, bytes, index)
      invariant HashOf(state) == start
      invariant forall t :: 0 <= t < 80 ==> words[t] == Schedule(bytes, t)
    {
      var f, k := SelectTurn(index, b, c, d);
      var temp := Plus(Plus(Plus(Plus(RotateLeft(a, 5), f), e), k), words[index]);
      e := d;
      d := c;
      c := RotateLeft(b, 30);
      b := a;
      a := temp;
    }
    state[0] := Plus(state[0], a);
    state[1] := Plus(state[1], b);
    state[2] := Plus(state[2], c);
    state[3] := Plus(state[3], d);
    state[4] := Plus(state[4], e);
  }

  lemma BigEndianStep(v: nat, n: nat)
    ensures Bytes(BigEndian(v, n + 1)) == Bytes(BigEndian(v / 256, n)) + [(v % 256) as bv8]
  {}

  /** The big-endian loop that runs from the last byte to the first. */
  method WriteU64Be(value: nat, out: array<bv8>, offset: nat)
    requires offset + 8 <= out.Length
    modifies out
    ensures out[offset..offset + 8] == Bytes(BigEndian(value, 8))
    ensures out[..offset] == old(out[..offset])
  {
    hide BigEndian;
    var rest := value;
    var index := 8;
    while index > 0
      invariant 0 <= index <= 8
      invariant Bytes(BigEndian(rest, index)) + out[offset + index..offset + 8] == Bytes(BigEndian(value, 8))
      invariant out[..offset] == old(out[..offset])
    {
      index := index - 1;
      BigEndianStep(rest, index);
      ghost var tail := out[offset + index + 1..offset + 8];
      out[offset + index] := (rest % 256) as bv8;
      assert out[offset + index..offset + 8] == [(rest % 256) as bv8] + tail;
      rest := rest / 256;
    }
    NoDigits(rest);
  }

  lemma NoDigits(v: nat)
    ensures Bytes(BigEndian(v, 0)) == []
  {}

  method CopyN(data: seq<bv8>, from: nat, count: nat, out: array<bv8>, offset: nat)
    requires from + count <= |data| && offset + count <= out.Length
    modifies out
    ensures out[..offset] == old(out[..offset])
    ensures out[offset..offset + count] == data[from..from + count]
  {
    for i := 0 to count
      invariant out[..offset] == old(out[..offset])
      invariant out[offset..offset + i] == data[from..from + i]
    {
      out[offset + i] := data[from + i];
    }
  }

  method FillZeros(out: array<bv8>, from: nat, to: nat)
    requires from <= to <= out.Length
    modifies out
    ensures out[..from] == old(out[..from]) && out[from..to] == Zeros(to - from)
  {
    for i := from to to
      invariant out[..from] == old(out[..from])
      invariant forall k :: from <= k < i ==> out[k] == 0
    {
      out[i] := 0;
    }
  }

  method StoreWord(out: array<bv8>, offset: nat, word: Word)
    requires offset + 4 <= out.Length
    modifies out
    ensures out[..offset + 4] == old(out[..offset]) + WordBytes(word)
  {
    out[offset] := ((word.bits >> 24) & 0xff) as bv8;
    out[offset + 1] := ((word.bits >> 16) & 0xff) as bv8;
    out[offset + 2] := ((word.bits >> 8) & 0xff) as bv8;
    out[offset + 3] := (word.bits & 0xff) as bv8;
  }

  function NthWord(h: Five, n: nat): Word {
    if n == 1 then h.a else if n == 2 then h.b else if n == 3 then h.c else if n == 4 then h.d else h.e
  }

  function FirstWords(h: Five, n: nat): seq<bv8>
    requires n <= 5
  {
    hide WordBytes;
    if n == 0 then []
    else FirstWords(h, n - 1) + WordBytes(NthWord(h, n))
  }

  lemma AllWords(h: Five)
    ensures FirstWords(h, 5) == DigestBytes(h)
  {
    hide WordBytes;
    assert FirstWords(h, 1) == WordBytes(h.a);
    assert FirstWords(h, 2) == WordBytes(h.a) + WordBytes(h.b);
    assert FirstWords(h, 3) == WordBytes(h.a) + WordBytes(h.b) + WordBytes(h.c);
    assert FirstWords(h, 4) == WordBytes(h.a) + WordBytes(h.b) + WordBytes(h.c) + WordBytes(h.d);
  }

  method DigestOf(state: array<Word>) returns (digest: seq<bv8>)
    requires state.Length == 5
    ensures digest == DigestBytes(HashOf(state))
  {
    hide WordBytes, DigestBytes;
    var out := new bv8[20](i => 0);
    for index := 0 to 5
      invariant out[..index * 4] == FirstWords(HashOf(state), index)
    {
      StoreWord(out, index * 4, state[index]);
    }
    AllWords(HashOf(state));
    assert out[..] == out[..20];
    digest := out[..];
  }

  // ---------------------------------------------------------------- The shape of the last blocks

  /** With at most 55 bytes left over, padding and length field fit into the block that is under way. */
  lemma PaddedInOneBlock(message: seq<bv8>, n: nat, last: seq<bv8>, totalBits: nat)
    requires n == |message| % BLOCK && n < 56 && totalBits == (8 * |message|) % TWO_64
    requires last == (message[|message| - n..] + [0x80]) + Zeros(56 - (n + 1)) + Bytes(BigEndian(totalBits, 8))
    ensures FinalHash(message) == HashBlocks(INITIAL, message[..|message| - n] + last)
  {
    hide HashBlocks, BigEndian;
    assert Padded(message) == message[..|message| - n] + last;
  }

  /** With more left over, the padding takes one more block. */
  lemma PaddedInTwoBlocks(message: seq<bv8>, n: nat, first: seq<bv8>, last: seq<bv8>, totalBits: nat)
    requires n == |message| % BLOCK && 56 <= n && totalBits == (8 * |message|) % TWO_64
    requires first == (message[|message| - n..] + [0x80]) + Zeros(64 - (n + 1))
    requires last == [] + Zeros(56) + Bytes(BigEndian(totalBits, 8))
    ensures FinalHash(message) == HashBlocks(INITIAL, message[..|message| - n] + first + last)
  {
    hide HashBlocks, BigEndian;
    assert Zeros(119 - n) == Zeros(63 - n) + Zeros(56);
    assert Padded(message) == message[..|message| - n] + first + last;
  }

  lemma TotalBits(length: nat)
    ensures ((length % TWO_64) * 8) % TWO_64 == (8 * length) % TWO_64
  {
    var q := length / TWO_64;
    assert 8 * length == (length % TWO_64) * 8 + (8 * q) * TWO_64;
    ModuloDropsMultiple((length % TWO_64) * 8, 8 * q);
  }

  lemma {:induction false} ModuloDropsMultiple(x: nat, q: nat)
    ensures (x + q * TWO_64) % TWO_64 == x % TWO_64
    decreases q
  {
    if q > 0 {
      ModuloDropsMultiple(x + TWO_64, q - 1);
      assert (x + TWO_64) + (q - 1) * TWO_64 == x + q * TWO_64;
    }
  }

  lemma TotalGrows(length: nat, more: nat)
    ensures (length % TWO_64 + more) % TWO_64 == (length + more) % TWO_64
  {
    ModuloDropsMultiple(length % TWO_64 + more, length / TWO_64);
  }

  lemma HashLastBlock(done: seq<bv8>, last: seq<bv8>)
    requires |done| % BLOCK == 0 && |last| == BLOCK
    ensures HashBlocks(INITIAL, done + last) == Compress(HashBlocks(INITIAL, done), last)
  {
    hide Compress;
    HashBlocksAppends(INITIAL, done, last);
    HashOneBlock(HashBlocks(INITIAL, done), last);
  }

  class Sha1Hasher {
    const state: array<Word>
    const buffer: array<bv8>
    var bufferSize: nat
    var totalSize: nat
    var finished: bool

    /** Everything that was fed to the hasher before it was finished. */
    ghost var fed: seq<bv8>

    ghost predicate Valid()
      reads this, state, buffer
    {
      && state.Length == 5 && buffer.Length == BLOCK
      && bufferSize < BLOCK
      && totalSize == |fed| % TWO_64
      && if finished then HashOf(state) == FinalHash(fed) else Tracks()
    }

    /** The whole blocks fed so far are in the hash state, the rest is in the buffer. */
    ghost predicate Tracks()
      reads this, state, buffer
    {
      && state.Length == 5 && buffer.Length == BLOCK
      && bufferSize == |fed| % BLOCK
      && HashOf(state) == HashBlocks(INITIAL, fed[..|fed| - bufferSize])
      && buffer[..bufferSize] == fed[|fed| - bufferSize..]
    }

    constructor ()
      ensures Valid() && fresh(state) && fresh(buffer)
      ensures fed == [] && !finished
    {
      state := new Word[] [Word(0x67452301), Word(0xefcdab89), Word(0x98badcfe), Word(0x10325476), Word(0xc3d2e1f0)];
      buffer := new bv8[BLOCK](i => 0);
      bufferSize, totalSize, finished, fed := 0, 0, false, [];
    }

    /** Feeds the data, unless the hasher is finished. */
    method Update(data: seq<bv8>)
      requires Valid()
      modifies this, state, buffer
      ensures Valid() && finished == old(finished)
      ensures fed == if old(finished) then old(fed) else old(fed) + data
    {
      if finished || |data| == 0 {
        return;
      }
      hide HashBlocks, FinalHash;
      TotalGrows(|fed|, |data|);
      totalSize := (totalSize + |data|) % TWO_64;
      ghost var total := totalSize;
      var taken := 0;
      assert old(fed) == old(fed) + data[..0];
      while taken < |data|
        invariant 0 <= taken <= |data|
        invariant Tracks() && !finished
        invariant fed == old(fed) + data[..taken]
        invariant totalSize == total
      {
        taken := Absorb(data, taken);
      }
      assert data[..taken] == data;
    }

    /** One turn of the update loop: fill the buffer as far as the data goes, and compress a full one. */
    method Absorb(data: seq<bv8>, taken: nat) returns (next: nat)
      requires taken < |data|
      requires Tracks()
      modifies this`bufferSize, this`fed, state, buffer
      ensures taken < next <= |data|
      ensures Tracks()
      ensures fed == old(fed) + data[taken..next]
    {
      hide HashBlocks, Compress;
      var copySize := if |data| - taken < buffer.Length - bufferSize then |data| - taken
                      else buffer.Length - bufferSize;
      next := taken + copySize;
      ghost var start := |fed| - bufferSize;
      ghost var done := fed[..start];
      CopyN(data, taken, copySize, buffer, bufferSize);
      bufferSize := bufferSize + copySize;
      fed := fed + data[taken..next];
      assert buffer[..bufferSize] == fed[start..];
      assert fed[..start] == done;
      if bufferSize == buffer.Length {
        ProcessBlock(state, buffer);
        HashOneBlock(HashBlocks(INITIAL, done), fed[start..]);
        HashBlocksAppends(INITIAL, done, fed[start..]);
        assert buffer[..] == fed[start..];
        assert fed == done + fed[start..];
        bufferSize := 0;
        assert fed[..|fed|] == fed;
      }
    }

    /** Pads the buffered rest, compresses it and thereby finishes. */
    method PadAndCompress()
      requires Valid() && !finished
      modifies this, state, buffer
      ensures Valid() && finished && fed == old(fed)
    {
      hide HashBlocks, Compress, Padded, LengthField, Zeros, FinalHash, Bytes, BigEndian;
      var totalBits := (totalSize * 8) % TWO_64;
      TotalBits(|fed|);
      ghost var n := bufferSize;
      ghost var done, rest := fed[..|fed| - n], fed[|fed| - n..];
      buffer[bufferSize] := 0x80;
      bufferSize := bufferSize + 1;
      assert buffer[..bufferSize] == rest + [0x80];
      if bufferSize > 56 {
        ghost var first := CompressOverflow(done);
        WriteLastBlock(totalBits, done + first);
        PaddedInTwoBlocks(fed, n, first, buffer[..], totalBits);
      } else {
        WriteLastBlock(totalBits, done);
        PaddedInOneBlock(fed, n, buffer[..], totalBits);
      }
      finished := true;
    }

    /** When the length field does not fit: zeros to the end of the block, and one extra compression. */
    method CompressOverflow(ghost done: seq<bv8>) returns (ghost first: seq<bv8>)
      requires state.Length == 5 && buffer.Length == BLOCK && bufferSize <= BLOCK
      requires |done| % BLOCK == 0 && HashOf(state) == HashBlocks(INITIAL, done)
      modifies this`bufferSize, state, buffer
      ensures bufferSize == 0
      ensures first == old(buffer[..bufferSize]) + Zeros(BLOCK - old(bufferSize))
      ensures HashOf(state) == HashBlocks(INITIAL, done + first)
    {
      hide HashBlocks, Compress, Zeros;
      FillZeros(buffer, bufferSize, buffer.Length);
      first := buffer[..];
      assert first == buffer[..bufferSize] + buffer[bufferSize..];
      ProcessBlock(state, buffer);
      HashLastBlock(done, first);
      bufferSize := 0;
    }

    /** Zeros up to byte 56, the length in the last eight bytes, and one more compression. */
    method WriteLastBlock(totalBits: nat, ghost done: seq<bv8>)
      requires state.Length == 5 && buffer.Length == BLOCK && bufferSize <= 56
      requires |done| % BLOCK == 0 && HashOf(state) == HashBlocks(INITIAL, done)
      modifies state, buffer
      ensures buffer[..] == old(buffer[..bufferSize]) + Zeros(56 - bufferSize) + Bytes(BigEndian(totalBits, 8))
      ensures HashOf(state) == HashBlocks(INITIAL, done + buffer[..])
    {
      hide HashBlocks, Compress, Zeros, BigEndian, Bytes;
      FillZeros(buffer, bufferSize, 56);
      assert buffer[..56] == buffer[..bufferSize] + buffer[bufferSize..56];
      WriteU64Be(totalBits, buffer, 56);
      ghost var last := buffer[..];
      assert last == last[..56] + last[56..64];
      ProcessBlock(state, buffer);
      HashLastBlock(done, last);
    }

    /** Pads and compresses the rest once; the digest is the same ever after. */
    method Finish() returns (digest: seq<bv8>)
      requires Valid()
      modifies this, state, buffer
      ensures Valid() && finished && fed == old(fed)
      ensures digest == Sha1Spec.Sha1(fed)
    {
      if !finished {
        PadAndCompress();
      }
      digest := DigestOf(state);
    }
  }

  method Sha1Digest(bytes: seq<bv8>) returns (digest: seq<bv8>)
    ensures digest == Sha1Spec.Sha1(bytes)
  {
    hide FinalHash, DigestBytes, HashBlocks;
    var hasher := new Sha1Hasher();
    hasher.Update(bytes);
    assert hasher.fed == bytes;
    digest := hasher.Finish();
  }

  function Flatten(chunks: seq<seq<bv8>>): seq<bv8> {
    if chunks == [] then [] else Flatten(chunks[..|chunks| - 1]) + chunks[|chunks| - 1]
  }

  lemma FlattenNothing(chunks: seq<seq<bv8>>)
    ensures Flatten(chunks[..0]) == []
  {}

  lemma FlattenNext(chunks: seq<seq<bv8>>, i: nat)
    requires i < |chunks|
    ensures Flatten(chunks[..i + 1]) == Flatten(chunks[..i]) + chunks[i]
  {
    assert chunks[..i + 1][..i] == chunks[..i];
  }

  /** However a message is cut into updates, the digest is that of the whole message; more updates
      after the first Finish and more calls of Finish do not change it. */
  method DigestOfChunks(chunks: seq<seq<bv8>>, late: seq<bv8>) returns (digest: seq<bv8>, again: seq<bv8>)
    ensures digest == Sha1Spec.Sha1(Flatten(chunks))
    ensures again == digest
  {
    hide *;
    var hasher := new Sha1Hasher();
    FlattenNothing(chunks);
    for i := 0 to |chunks|
      invariant hasher.Valid() && !hasher.finished && fresh(hasher) && fresh(hasher.state) && fresh(hasher.buffer)
      invariant hasher.fed == Flatten(chunks[..i])
    {
      FlattenNext(chunks, i);
      hasher.Update(chunks[i]);
    }
    assert chunks[..|chunks|] == chunks;
    digest := hasher.Finish();
    hasher.Update(late);
    again := hasher.Finish();
  }

  /** The comparison that ends with the digest's own length check. */
  method Sha1Matches(bytes: seq<bv8>, expected: seq<bv8>) returns (matches: bool)
    ensures matches <==> expected == Sha1Spec.Sha1(bytes)
  {
    if |expected| != 20 {
      return false;
    }
    var digest := Sha1Digest(bytes);
    return digest == expected;
  }
}
