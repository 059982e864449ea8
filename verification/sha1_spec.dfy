/** SHA-1 as FIPS 180-4 defines it for a whole message (sections 4.1.1, 4.2.1, 5.1.1, 5.2.1, 5.3.1 and 6.1.2). */
module Sha1Spec {
  import opened Basics

  /** A 32-bit word; wrapped so that the solver treats words as opaque where it can. */
  datatype Word = Word(bits: bv32)

  function RotateLeft(x: Word, n: bv8): Word
    requires 0 < n < 32
  {
    Word((x.bits << n) | (x.bits >> (32 - n)))
  }

  function Plus(x: Word, y: Word): Word { Word(x.bits + y.bits) }

  function Xor4(w: Word, x: Word, y: Word, z: Word): Word { Word(w.bits ^ x.bits ^ y.bits ^ z.bits) }

  function Ch(x: Word, y: Word, z: Word): Word { Word((x.bits & y.bits) ^ (!x.bits & z.bits)) }

  function Parity(x: Word, y: Word, z: Word): Word { Word(x.bits ^ y.bits ^ z.bits) }

  function Maj(x: Word, y: Word, z: Word): Word { Word((x.bits & y.bits) ^ (x.bits & z.bits) ^ (y.bits & z.bits)) }

  /** Section 4.1.1 */
  function F(t: nat, x: Word, y: Word, z: Word): Word {
    if t < 20 then Ch(x, y, z) else if t < 40 then Parity(x, y, z) else if t < 60 then Maj(x, y, z) else Parity(x, y, z)
  }

  /** Section 4.2.1 */
  function K(t: nat): Word {
    if t < 20 then Word(0x5a827999) else if t < 40 then Word(0x6ed9eba1)
    else if t < 60 then Word(0x8f1bbcdc) else Word(0xca62c1d6)
  }

  const BLOCK := 64

  /** Section 5.2.1: big-endian words of a block. */
  function WordAt(block: seq<bv8>, t: nat): Word
    requires |block| == BLOCK && t < 16
  {
    Word(((block[4 * t] as bv32) << 24) | ((block[4 * t + 1] as bv32) << 16)
         | ((block[4 * t + 2] as bv32) << 8) | (block[4 * t + 3] as bv32))
  }

  /** The message schedule, step 1 of section 6.1.2. */
  function Schedule(block: seq<bv8>, t: nat): Word
    requires |block| == BLOCK
  {
    if t < 16 then WordAt(block, t)
    else RotateLeft(Xor4(Schedule(block, t - 3), Schedule(block, t - 8), Schedule(block, t - 14),
                         Schedule(block, t - 16)), 1)
  }

  /** A hash value, and also the working variables a to e. */
  datatype Five = Five(a: Word, b: Word, c: Word, d: Word, e: Word)

  /** Section 5.3.1 */
  const INITIAL := Five(Word(0x67452301), Word(0xefcdab89), Word(0x98badcfe), Word(0x10325476), Word(0xc3d2e1f0))

  /** One turn of step 3 of section 6.1.2. */
  function Turn(v: Five, t: nat, w: Word): Five {
    Five(Plus(Plus(Plus(Plus(RotateLeft(v.a, 5), F(t, v.b, v.c, v.d)), v.e), K(t)), w), v.a,
         RotateLeft(v.b, 30), v.c, v.d)
  }

  function Turns(v: Five, block: seq<bv8>, t: nat): Five
    requires |block| == BLOCK
  {
    if t == 0 then v else Turn(Turns(v, block, t - 1), t - 1, Schedule(block, t - 1))
  }

  /** Section 6.1.2 for one block. */
  function Compress(h: Five, block: seq<bv8>): Five
    requires |block| == BLOCK
  {
    var v := Turns(h, block, 80);
    Five(Plus(h.a, v.a), Plus(h.b, v.b), Plus(h.c, v.c), Plus(h.d, v.d), Plus(h.e, v.e))
  }

  function HashBlocks(h: Five, message: seq<bv8>): Five
    requires |message| % BLOCK == 0
    decreases |message|
  {
    hide Compress;
    if message == [] then h else HashBlocks(Compress(h, message[..BLOCK]), message[BLOCK..])
  }

  lemma {:induction false} HashBlocksAppends(h: Five, first: seq<bv8>, rest: seq<bv8>)
    requires |first| % BLOCK == 0 && |rest| % BLOCK == 0
    ensures HashBlocks(h, first + rest) == HashBlocks(HashBlocks(h, first), rest)
    decreases |first|
  {
    hide Compress;
    if first == [] {
      assert first + rest == rest;
    } else {
      assert (first + rest)[..BLOCK] == first[..BLOCK];
      assert (first + rest)[BLOCK..] == first[BLOCK..] + rest;
      HashBlocksAppends(Compress(h, first[..BLOCK]), first[BLOCK..], rest);
    }
  }

  lemma HashOneBlock(h: Five, block: seq<bv8>)
    requires |block| == BLOCK
    ensures HashBlocks(h, block) == Compress(h, block)
  {
    hide Compress;
    assert block[..BLOCK] == block && block[BLOCK..] == [];
  }

  // ---------------------------------------------------------------- Padding

  const TWO_64 := 0x1_0000_0000_0000_0000

  /** The n last base-256 digits of v, most significant first. */
  function BigEndian(v: nat, n: nat): (digits: seq<nat>)
    ensures |digits| == n && forall i :: 0 <= i < n ==> digits[i] < 256
  {
    if n == 0 then [] else BigEndian(v / 256, n - 1) + [v % 256]
  }

  function ValueOf(digits: seq<nat>): nat {
    if digits == [] then 0 else 256 * ValueOf(digits[..|digits| - 1]) + digits[|digits| - 1]
  }

  /** BigEndian loses nothing of a number that fits. */
  lemma {:induction false} BigEndianValue(v: nat, n: nat)
    requires v < Power256(n)
    ensures ValueOf(BigEndian(v, n)) == v
  {
    if n > 0 {
      BigEndianValue(v / 256, n - 1);
      assert BigEndian(v, n)[..n - 1] == BigEndian(v / 256, n - 1);
    }
  }

  function Bytes(digits: seq<nat>): (bytes: seq<bv8>)
    requires forall i :: 0 <= i < |digits| ==> digits[i] < 256
    ensures |bytes| == |digits|
  {
    seq(|digits|, i requires 0 <= i < |digits| => digits[i] as bv8)
  }

  function Zeros(n: nat): (zeros: seq<bv8>)
    ensures |zeros| == n
  {
    seq(n, i => 0)
  }

  /** The number of zero bytes after the 0x80 byte: the least that leaves 8 bytes to the end of a block. */
  function ZeroCount(length: nat): (zeros: nat)
    ensures (length + 1 + zeros + 8) % BLOCK == 0
  {
    assert length == length / BLOCK * BLOCK + length % BLOCK;
    (119 - length % BLOCK) % BLOCK
  }

  /** The length in bits as 64 bits.  For messages shorter than 2^61 bytes, the longest that section 1
      of FIPS 180-4 allows, nothing is cut off. */
  function LengthField(length: nat): (field: seq<bv8>)
    ensures |field| == 8
  {
    Bytes(BigEndian((8 * length) % TWO_64, 8))
  }

  /** Section 5.1.1 */
  function Padded(message: seq<bv8>): (padded: seq<bv8>)
    ensures |padded| % BLOCK == 0
  {
    hide ZeroCount;
    message + [0x80] + Zeros(ZeroCount(|message|)) + LengthField(|message|)
  }

  lemma LengthFieldIsLength(length: nat)
    requires length < 0x2000_0000_0000_0000
    ensures LengthField(length) == Bytes(BigEndian(8 * length, 8))
    ensures ValueOf(BigEndian(8 * length, 8)) == 8 * length
  {
    hide BigEndian, ValueOf;
    assert Power256(4) == 256 * Power256(3) == 0x1_0000_0000;
    assert Power256(8) == 256 * Power256(7) == 256 * 256 * Power256(6) == 256 * 256 * 256 * Power256(5) == TWO_64;
    BigEndianValue(8 * length, 8);
  }

  /** ZeroCount is the least number of zeros with which padding and length field fill a block. */
  lemma ZeroCountIsLeast(length: nat, zeros: nat)
    ensures (length + 1 + ZeroCount(length) + 8) % BLOCK == 0
    ensures (length + 1 + zeros + 8) % BLOCK == 0 ==> ZeroCount(length) <= zeros
  {}

  function WordBytes(w: Word): (bytes: seq<bv8>)
    ensures |bytes| == 4
  {
    [((w.bits >> 24) & 0xff) as bv8, ((w.bits >> 16) & 0xff) as bv8, ((w.bits >> 8) & 0xff) as bv8,
     (w.bits & 0xff) as bv8]
  }

  function DigestBytes(h: Five): (digest: seq<bv8>)
    ensures |digest| == 20
  {
    WordBytes(h.a) + WordBytes(h.b) + WordBytes(h.c) + WordBytes(h.d) + WordBytes(h.e)
  }

  function FinalHash(message: seq<bv8>): Five {
    HashBlocks(INITIAL, Padded(message))
  }

  function Sha1(message: seq<bv8>): (digest: seq<bv8>)
    ensures |digest| == 20
  {
    DigestBytes(FinalHash(message))
  }
}
