/** The base64 encoder and the two decoders: src/ffi/steam_auth.cpp (block decoder) and
    src/core/encoding/base64url.cpp (accumulator decoder), against sections 4 and 5 of RFC 4648.

    Shifts and masks are written as division, remainder and multiplication; where the program joins
    disjoint bit ranges with `|`, the sum is the same number. */
module Base64 {
  import opened Basics

  type sextet = x: int | 0 <= x < 64

  const UPPER := "ABCDEFGHIJKLMNOPQRSTUVWXYZ"
  const LOWER := "abcdefghijklmnopqrstuvwxyz"
  const DIGITS := "0123456789"
  const ALPHABET := UPPER + LOWER + DIGITS + "+/"

  predicate IsSpace(ch: char) {
    ch == ' ' || '\t' <= ch <= '\r'
  }

  /** The lambda of both decoders: the sextet of a character of either alphabet, -1 for any other. */
  function DecodeChar(ch: char): (value: int)
    ensures -1 <= value < 64
  {
    if 'A' <= ch <= 'Z' then ch as int - 'A' as int
    else if 'a' <= ch <= 'z' then ch as int - 'a' as int + 26
    else if '0' <= ch <= '9' then ch as int - '0' as int + 52
    else if ch == '-' || ch == '+' then 62
    else if ch == '_' || ch == '/' then 63
    else -1
  }

  lemma AlphabetSize()
    ensures |ALPHABET| == 64
  {}

  predicate Decodes(ch: char, value: int) {
    DecodeChar(ch) == value && !IsSpace(ch) && ch != '=' && ch != '-' && ch != '_'
  }

  lemma UpperDecodes(k: nat)
    requires k < 26
    ensures |UPPER| == 26 && Decodes(UPPER[k], k)
  {
    assert UPPER[k] == ('A' as int + k) as char;
  }

  lemma LowerDecodes(k: nat)
    requires k < 26
    ensures |LOWER| == 26 && Decodes(LOWER[k], k + 26)
  {
    assert LOWER[k] == ('a' as int + k) as char;
  }

  lemma DigitDecodes(k: nat)
    requires k < 10
    ensures |DIGITS| == 10 && Decodes(DIGITS[k], k + 52)
  {
    assert DIGITS[k] == ('0' as int + k) as char;
  }

  lemma AlphabetDecodes(value: sextet)
    ensures |ALPHABET| == 64 && Decodes(ALPHABET[value], value)
  {
    hide Decodes;
    if value < 26 {
      UpperDecodes(value);
    } else if value < 52 {
      LowerDecodes(value - 26);
    } else if value < 62 {
      DigitDecodes(value - 52);
    } else {
      LastTwoDecode();
    }
  }

  lemma LastTwoDecode()
    ensures Decodes("+/"[0], 62) && Decodes("+/"[1], 63)
  {}

  // ---------------------------------------------------------------- Sextets and bytes

  /** The 24-bit group of section 4: three bytes, or fewer with zeros on the right. */
  function GroupValue(a: byte, b: byte, c: byte): nat { a * 0x10000 + b * 0x100 + c }

  /** The four 6-bit parts of a group. */
  function Part0(group: nat): sextet { (group / 0x40000) % 64 }

  function Part1(group: nat): sextet { (group / 0x1000) % 64 }

  function Part2(group: nat): sextet { (group / 0x40) % 64 }

  function Part3(group: nat): sextet { group % 64 }

  /** The four characters of one group of up to three bytes, section 4 of RFC 4648. */
  function EncodeGroup(group: seq<byte>): (text: string)
    requires 1 <= |group| <= 3
    ensures |text| == 4
  {
    AlphabetSize();
    var value := GroupValue(group[0], if |group| > 1 then group[1] else 0, if |group| > 2 then group[2] else 0);
    [ALPHABET[Part0(value)], ALPHABET[Part1(value)],
     if |group| > 1 then ALPHABET[Part2(value)] else '=',
     if |group| > 2 then ALPHABET[Part3(value)] else '=']
  }

  function Encode(bytes: seq<byte>): string {
    if bytes == [] then ""
    else if |bytes| <= 3 then EncodeGroup(bytes)
    else EncodeGroup(bytes[..3]) + Encode(bytes[3..])
  }

  lemma FirstPart(a: byte, b: byte, c: byte)
    ensures Part0(GroupValue(a, b, c)) == a / 4
  {
    assert GroupValue(a, b, c) == 0x40000 * (a / 4) + ((a % 4) * 0x10000 + b * 0x100 + c);
  }

  lemma SecondPart(a: byte, b: byte, c: byte)
    ensures Part1(GroupValue(a, b, c)) == (a % 4) * 16 + b / 16
  {
    var group, high, low := GroupValue(a, b, c), a * 16 + b / 16, (b % 16) * 0x100 + c;
    assert group == 0x1000 * high + low;
    QuotientIs(group, 0x1000, high, low);
    QuotientIs(high, 64, a / 4, (a % 4) * 16 + b / 16);
  }

  lemma ThirdPart(a: byte, b: byte, c: byte)
    ensures Part2(GroupValue(a, b, c)) == (b % 16) * 4 + c / 64
  {
    var group, high := GroupValue(a, b, c), a * 1024 + b * 4 + c / 64;
    QuotientIs(group, 0x40, high, c % 64);
    QuotientIs(high, 64, a * 16 + b / 16, (b % 16) * 4 + c / 64);
  }

  lemma FourthPart(a: byte, b: byte, c: byte)
    ensures Part3(GroupValue(a, b, c)) == c % 64
  {
    QuotientIs(GroupValue(a, b, c), 0x40, a * 1024 + b * 4 + c / 64, c % 64);
  }

  /** The pieces that the encoder cuts out of its three bytes are the parts of the group. */
  function GroupPieces(a: byte, b: byte, c: byte): (sextet, sextet, sextet, sextet) {
    (a / 4, (a % 4) * 16 + b / 16, (b % 16) * 4 + c / 64, c % 64)
  }

  lemma PiecesAreParts(a: byte, b: byte, c: byte)
    ensures var group := GroupValue(a, b, c);
            GroupPieces(a, b, c) == (Part0(group), Part1(group), Part2(group), Part3(group))
  {
    FirstPart(a, b, c);
    SecondPart(a, b, c);
    ThirdPart(a, b, c);
    FourthPart(a, b, c);
  }

  /** The encoder masks what it has shifted; the masks change nothing. */
  lemma MasksChangeNothing(a: byte, b: byte, c: byte)
    ensures GroupPieces(a, b, c) == ((a / 4) % 64, (a % 4) * 16 + (b / 16) % 16, (b % 16) * 4 + (c / 64) % 4, c % 64)
  {
    MaskOfSmall(a, 4, 64);
    MaskOfSmall(b, 16, 16);
    MaskOfSmall(c, 64, 4);
  }

  lemma MaskOfSmall(x: byte, d: int, m: int)
    requires d > 0 && m > 0 && d * m == 256
    ensures (x / d) % m == x / d
  {
    var q := x / d;
    assert x == d * q + x % d;
    assert q >= m ==> d * q >= d * m;
    QuotientIs(q, m, 0, q);
  }

  /** The body of the encoding loop. */
  method EncodeOneGroup(group: seq<byte>) returns (text: string)
    requires 1 <= |group| <= 3
    ensures text == EncodeGroup(group)
  {
    hide Part0, Part1, Part2, Part3, GroupValue, GroupPieces;
    AlphabetSize();
    var remaining := |group|;
    var a: byte := group[0];
    var b: byte := if remaining > 1 then group[1] else 0;
    var c: byte := if remaining > 2 then group[2] else 0;
    PiecesAreParts(a, b, c);
    MasksChangeNothing(a, b, c);
    var first, second: sextet := (a / 4) % 64, (a % 4) * 16 + (b / 16) % 16;
    var third, fourth: sextet := (b % 16) * 4 + (c / 64) % 4, c % 64;
    text := WriteGroup(first, second, third, fourth, remaining);
  }

  method WriteGroup(first: sextet, second: sextet, third: sextet, fourth: sextet, remaining: nat) returns (text: string)
    requires |ALPHABET| == 64
    ensures text == [ALPHABET[first], ALPHABET[second], if remaining > 1 then ALPHABET[third] else '=',
                     if remaining > 2 then ALPHABET[fourth] else '=']
  {
    text := [ALPHABET[first]];
    text := text + [ALPHABET[second]];
    text := text + [if remaining > 1 then ALPHABET[third] else '='];
    text := text + [if remaining > 2 then ALPHABET[fourth] else '='];
  }

  method EncodeBytes(bytes: seq<byte>) returns (encoded: string)
    ensures encoded == Encode(bytes)
  {
    hide EncodeGroup;
    encoded := "";
    var index := 0;
    while index < |bytes|
      invariant 0 <= index < |bytes| + 3
      invariant encoded + (if index < |bytes| then Encode(bytes[index..]) else "") == Encode(bytes)
    {
      var end := if |bytes| - index > 3 then index + 3 else |bytes|;
      var text := EncodeOneGroup(bytes[index..end]);
      EncodeSplits(bytes[index..], end - index);
      assert bytes[index..][..end - index] == bytes[index..end];
      assert bytes[index..][end - index..] == bytes[end..];
      assert encoded + (text + Encode(bytes[end..])) == encoded + text + Encode(bytes[end..]);
      encoded := encoded + text;
      index := index + 3;
    }
  }

  lemma EncodeSplits(bytes: seq<byte>, n: nat)
    requires 1 <= |bytes| && n == if |bytes| > 3 then 3 else |bytes|
    ensures Encode(bytes) == EncodeGroup(bytes[..n]) + Encode(bytes[n..])
  {
    hide EncodeGroup;
    if |bytes| <= 3 {
      assert bytes[..n] == bytes;
    }
  }

  function FirstByte(x: sextet, y: sextet): byte { x as int * 4 + y as int / 16 }

  function SecondByte(y: sextet, z: sextet): byte { (y as int % 16) * 16 + z as int / 4 }

  function ThirdByte(z: sextet, u: sextet): byte { (z as int % 4) * 64 + u as int }

  /** The bytes that sextets spell: three from every four, and what two or three left over still determine. */
  function SextetsToBytes(s: seq<sextet>): seq<byte> {
    if |s| < 2 then []
    else if |s| == 2 then [FirstByte(s[0], s[1])]
    else if |s| == 3 then [FirstByte(s[0], s[1]), SecondByte(s[1], s[2])]
    else [FirstByte(s[0], s[1]), SecondByte(s[1], s[2]), ThirdByte(s[2], s[3])] + SextetsToBytes(s[4..])
  }

  function Last(sextets: seq<sextet>): sextet { if sextets == [] then 0 else sextets[|sextets| - 1] }

  /** What the next sextet completes, after n sextets of which `last` is the last. */
  function Completed(n: nat, last: sextet, next: sextet): seq<byte> {
    if n % 4 == 0 then [] else if n % 4 == 1 then [FirstByte(last, next)]
    else if n % 4 == 2 then [SecondByte(last, next)] else [ThirdByte(last, next)]
  }

  ghost predicate AppendsOne(s: seq<sextet>, next: sextet) {
    SextetsToBytes(s + [next]) == SextetsToBytes(s) + Completed(|s|, Last(s), next)
  }

  lemma AppendToNone(s: seq<sextet>, next: sextet)
    requires |s| == 0
    ensures AppendsOne(s, next)
  {}

  lemma AppendToOne(s: seq<sextet>, next: sextet)
    requires |s| == 1
    ensures AppendsOne(s, next)
  {
    hide FirstByte;
  }

  lemma AppendToTwo(s: seq<sextet>, next: sextet)
    requires |s| == 2
    ensures AppendsOne(s, next)
  {
    hide FirstByte, SecondByte;
    assert s + [next] == [s[0], s[1], next];
    assert SextetsToBytes(s) == [FirstByte(s[0], s[1])];
  }

  lemma AppendToThree(s: seq<sextet>, next: sextet)
    requires |s| == 3
    ensures AppendsOne(s, next)
  {
    hide FirstByte, SecondByte, ThirdByte;
    assert (s + [next])[4..] == [];
    assert SextetsToBytes(s) == [FirstByte(s[0], s[1]), SecondByte(s[1], s[2])];
    assert SextetsToBytes(s + [next]) == [FirstByte(s[0], s[1]), SecondByte(s[1], s[2]), ThirdByte(s[2], next)] + [];
  }

  lemma AppendToMore(s: seq<sextet>, next: sextet)
    requires |s| >= 4 && AppendsOne(s[4..], next)
    ensures AppendsOne(s, next)
  {
    hide FirstByte, SecondByte, ThirdByte;
    assert (s + [next])[4..] == s[4..] + [next];
    SamePhase(|s|, Last(s), Last(s[4..]), next);
  }

  lemma SamePhase(n: nat, last: sextet, last': sextet, next: sextet)
    requires n >= 4 && (n % 4 != 0 ==> last == last')
    ensures Completed(n, last, next) == Completed(n - 4, last', next)
  {}

  lemma {:induction false} SextetsAppend(s: seq<sextet>, next: sextet)
    ensures AppendsOne(s, next)
  {
    hide AppendsOne;
    if |s| == 0 {
      AppendToNone(s, next);
    } else if |s| == 1 {
      AppendToOne(s, next);
    } else if |s| == 2 {
      AppendToTwo(s, next);
    } else if |s| == 3 {
      AppendToThree(s, next);
    } else {
      SextetsAppend(s[4..], next);
      AppendToMore(s, next);
    }
  }

  // ---------------------------------------------------------------- The accumulator decoder

  /** The sextets before the first '=', white space skipped; None at a character of neither alphabet. */
  function ScanSextets(text: string): Option<seq<sextet>> {
    if text == "" || text[0] == '=' then Some([])
    else if IsSpace(text[0]) then ScanSextets(text[1..])
    else if DecodeChar(text[0]) < 0 then None
    else match ScanSextets(text[1..])
      case None => None
      case Some(rest) => Some([DecodeChar(text[0]) as sextet] + rest)
  }

  function UrlDecoded(text: string): Option<seq<byte>> {
    match ScanSextets(text)
    case None => None
    case Some(sextets) => Some(SextetsToBytes(sextets))
  }

  /** Two's complement of 32 bits: the value that `int` holds after a left shift in C++20. */
  function Wrap32(x: int): (w: int)
    ensures -0x8000_0000 <= w < 0x8000_0000
  {
    (x + 0x8000_0000) % 0x1_0000_0000 - 0x8000_0000
  }

  /** One turn of the decoder: shift by six with wrap-around, then put in the sextet. */
  function Shifted(accumulator: int, decoded: sextet): int { Wrap32(accumulator * 64) + decoded }

  /** The wrap-around never reaches the low twelve bits. */
  lemma ShiftedKeepsLowBits(accumulator: int, last: sextet, next: sextet)
    requires accumulator % 64 == last
    ensures Shifted(accumulator, next) % 64 == next
    ensures Shifted(accumulator, next) % 4096 == last * 64 + next
  {
    var k := (accumulator * 64 + 0x8000_0000) / 0x1_0000_0000;
    var shifted := Shifted(accumulator, next);
    assert shifted == accumulator * 64 - k * 0x1_0000_0000 + next;
    QuotientIs(shifted, 64, accumulator - k * 0x400_0000, next);
    QuotientIs(shifted, 4096, accumulator / 64 - k * 0x10_0000, last * 64 + next);
  }

  function Power2(n: nat): (p: nat)
    ensures p > 0
  {
    if n == 0 then 1 else 2 * Power2(n - 1)
  }

  /** The low twelve bits hold the last two sextets; what is emitted comes out of them alone. */
  lemma EmittedAfterTwo(accumulator: int, last: sextet, next: sextet)
    requires accumulator % 4096 == last * 64 + next
    ensures (accumulator / 16) % 256 == last * 4 + next / 16
  {
    var k := accumulator / 4096;
    QuotientIs(accumulator, 16, k * 256 + last * 4 + next / 16, next % 16);
    QuotientIs(k * 256 + last * 4 + next / 16, 256, k, last * 4 + next / 16);
  }

  lemma EmittedAfterThree(accumulator: int, last: sextet, next: sextet)
    requires accumulator % 4096 == last * 64 + next
    ensures (accumulator / 4) % 256 == (last % 16) * 16 + next / 4
  {
    var k := accumulator / 4096;
    var rest := k * 1024 + last * 16 + next / 4;
    QuotientIs(accumulator, 4, rest, next % 4);
    QuotientIs(rest, 256, k * 4 + last / 16, (last % 16) * 16 + next / 4);
  }

  lemma EmittedAfterFour(accumulator: int, last: sextet, next: sextet)
    requires accumulator % 4096 == last * 64 + next
    ensures accumulator % 256 == (last % 4) * 64 + next
  {
    QuotientIs(accumulator, 256, (accumulator / 4096) * 16 + last / 4, (last % 4) * 64 + next);
  }

  lemma SmallPowers()
    ensures Power2(0) == 1 && Power2(2) == 4 && Power2(4) == 16
  {
    assert Power2(1) == 2 && Power2(3) == 2 * Power2(2);
  }

  function BitsAfter(n: nat): int {
    if n % 4 == 0 then -8 else if n % 4 == 1 then -2 else if n % 4 == 2 then -4 else -6
  }

  lemma EmittedByteIsCompleted(accumulator: int, n: nat, last: sextet, next: sextet)
    requires accumulator % 4096 == last * 64 + next
    requires n % 4 != 0
    ensures BitsAfter(n) + 6 >= 0
    ensures [(accumulator / Power2(BitsAfter(n) + 6)) % 256] == Completed(n, last, next)
  {
    hide Power2;
    SmallPowers();
    if n % 4 == 1 {
      EmittedAfterTwo(accumulator, last, next);
    } else if n % 4 == 2 {
      EmittedAfterThree(accumulator, last, next);
    } else {
      EmittedAfterFour(accumulator, last, next);
    }
  }

  function Prepend(sextets: seq<sextet>, rest: Option<seq<sextet>>): Option<seq<sextet>> {
    match rest
    case None => None
    case Some(more) => Some(sextets + more)
  }

  lemma ScanStep(value: string, i: nat, sextets: seq<sextet>)
    requires i < |value| && value[i] != '='
    ensures value[i..] != "" && value[i..][0] == value[i] && value[i..][1..] == value[i + 1..]
    ensures IsSpace(value[i]) ==> ScanSextets(value[i..]) == ScanSextets(value[i + 1..])
    ensures !IsSpace(value[i]) && DecodeChar(value[i]) < 0 ==> ScanSextets(value[i..]) == None
    ensures !IsSpace(value[i]) && DecodeChar(value[i]) >= 0 ==>
              Prepend(sextets, ScanSextets(value[i..]))
                  == Prepend(sextets + [DecodeChar(value[i])], ScanSextets(value[i + 1..]))
  {
    assert value[i..][1..] == value[i + 1..];
    if !IsSpace(value[i]) && DecodeChar(value[i]) >= 0 && ScanSextets(value[i + 1..]).Some? {
      var more := ScanSextets(value[i + 1..]).value;
      assert sextets + ([DecodeChar(value[i]) as sextet] + more) == sextets + [DecodeChar(value[i])] + more;
    }
  }

  /** The arithmetic of one turn: after n sextets, the accumulator's low bits hold the last of them,
      and `bits` says how many of its bits are still to be emitted, less eight. */
  method AbsorbSextet(accumulator: int, bits: int, decoded: sextet, ghost n: nat, ghost last: sextet)
    returns (accumulator': int, bits': int, emitted: seq<byte>)
    requires accumulator % 64 == last && bits == BitsAfter(n)
    ensures accumulator' % 64 == decoded && bits' == BitsAfter(n + 1)
    ensures emitted == Completed(n, last, decoded)
  {
    hide Shifted, Power2;
    ShiftedKeepsLowBits(accumulator, last, decoded);
    accumulator' := Shifted(accumulator, decoded);
    bits' := bits + 6;
    emitted := [];
    if bits' >= 0 {
      EmittedByteIsCompleted(accumulator', n, last, decoded);
      emitted := [(accumulator' / Power2(bits')) % 256];
      bits' := bits' - 8;
    }
  }

  method Base64UrlDecode(value: string) returns (result: Option<seq<byte>>)
    ensures result == UrlDecoded(value)
  {
    hide SextetsToBytes, BitsAfter, Completed, DecodeChar, IsSpace, ScanSextets;
    var out: seq<byte> := [];
    var accumulator, bits := 0, -8;
    var i := 0;
    ghost var sextets: seq<sextet> := [];
    NoSextets(value);
    while i < |value| && value[i] != '='
      invariant 0 <= i <= |value|
      invariant out == SextetsToBytes(sextets)
      invariant accumulator % 64 == Last(sextets) && bits == BitsAfter(|sextets|)
      invariant ScanSextets(value) == Prepend(sextets, ScanSextets(value[i..]))
    {
      var ch := value[i];
      ScanStep(value, i, sextets);
      i := i + 1;
      if !IsSpace(ch) {
        var decoded := DecodeChar(ch);
        if decoded < 0 {
          return None;
        }
        var emitted;
        accumulator, bits, emitted := AbsorbSextet(accumulator, bits, decoded, |sextets|, Last(sextets));
        SextetsAppend(sextets, decoded);
        out := out + emitted;
        sextets := sextets + [decoded];
      }
    }
    ScanEnds(value[i..], sextets);
    result := Some(out);
  }

  lemma NoSextets(value: string)
    ensures SextetsToBytes([]) == [] && BitsAfter(0) == -8 && ScanSextets(value) == Prepend([], ScanSextets(value[0..]))
  {
    assert value[0..] == value;
    if ScanSextets(value).Some? {
      assert [] + ScanSextets(value).value == ScanSextets(value).value;
    }
  }

  lemma ScanEnds(text: string, sextets: seq<sextet>)
    requires text == "" || text[0] == '='
    ensures Prepend(sextets, ScanSextets(text)) == Some(sextets)
  {
    assert sextets + [] == sextets;
  }

  // ---------------------------------------------------------------- The block decoder

  /** What the first loop of the block decoder keeps: no white space, the standard alphabet. */
  function Normalized(text: string): string {
    if text == "" then ""
    else NormalizedChar(text[0]) + Normalized(text[1..])
  }

  function NormalizedChar(ch: char): string {
    if ch == '=' then "=" else if ch == '-' then "+" else if ch == '_' then "/" else if IsSpace(ch) then "" else [ch]
  }

  function Equals(n: nat): (padding: string)
    ensures |padding| == n
  {
    seq(n, i => '=')
  }

  function PaddedToBlocks(text: string): (padded: string)
    ensures |padded| % 4 == 0
  {
    text + Equals((4 - |text| % 4) % 4)
  }

  /** One block of four characters, with the tests of the decoding loop. */
  function DecodeBlock(block: string): Option<seq<byte>>
    requires |block| == 4
  {
    var a, b := DecodeChar(block[0]), DecodeChar(block[1]);
    var c := if block[2] == '=' then -1 else DecodeChar(block[2]);
    var d := if block[3] == '=' then -1 else DecodeChar(block[3]);
    if a < 0 || b < 0 || (block[2] != '=' && c < 0) || (block[3] != '=' && d < 0) then None
    else Some([FirstByte(a, b)]
              + (if block[2] != '=' then [SecondByte(b, c)] else [])
              + (if block[3] != '=' then [ThirdByte(c % 64, d)] else []))
  }

  function DecodeBlocks(text: string): Option<seq<byte>>
    requires |text| % 4 == 0
  {
    if text == "" then Some([])
    else match DecodeBlock(text[..4])
      case None => None
      case Some(first) =>
        match DecodeBlocks(text[4..])
        case None => None
        case Some(rest) => Some(first + rest)
  }

  function BlockDecoded(text: string): Option<seq<byte>> {
    if text == "" then None else DecodeBlocks(PaddedToBlocks(Normalized(text)))
  }

  lemma {:induction false} NormalizedAppend(text: string, ch: char)
    ensures Normalized(text + [ch]) == Normalized(text) + NormalizedChar(ch)
  {
    hide NormalizedChar;
    if text == "" {
      assert text + [ch] == [ch];
      assert [ch][1..] == "";
    } else {
      NormalizedAppend(text[1..], ch);
      assert (text + [ch])[1..] == text[1..] + [ch];
    }
  }

  method Normalize(encoded: string) returns (normalized: string)
    ensures normalized == PaddedToBlocks(Normalized(encoded))
  {
    normalized := "";
    for i := 0 to |encoded|
      invariant normalized == Normalized(encoded[..i])
    {
      var ch := encoded[i];
      assert encoded[..i + 1] == encoded[..i] + [ch];
      NormalizedAppend(encoded[..i], ch);
      if ch == '=' {
        normalized := normalized + [ch];
      } else if ch == '-' {
        normalized := normalized + ['+'];
      } else if ch == '_' {
        normalized := normalized + ['/'];
      } else if !IsSpace(ch) {
        normalized := normalized + [ch];
      }
    }
    assert encoded[..|encoded|] == encoded;
    ghost var kept := normalized;
    while |normalized| % 4 != 0
      invariant |kept| <= |normalized| <= |kept| + (4 - |kept| % 4) % 4
      invariant normalized == kept + Equals(|normalized| - |kept|)
      decreases |kept| + 4 - |normalized|
    {
      normalized := normalized + ['='];
    }
  }

  /** The body of the decoding loop. */
  method DecodeOneBlock(block: string) returns (result: Option<seq<byte>>)
    requires |block| == 4
    ensures result == DecodeBlock(block)
    ensures result.Some? <==> DecodeChar(block[0]) >= 0 && DecodeChar(block[1]) >= 0
                              && (block[2] == '=' || DecodeChar(block[2]) >= 0)
                              && (block[3] == '=' || DecodeChar(block[3]) >= 0)
    ensures result.Some? ==>
            |result.value| == 1 + (if block[2] != '=' then 1 else 0) + (if block[3] != '=' then 1 else 0)
  {
    hide DecodeChar;
    var a := DecodeChar(block[0]);
    var b := DecodeChar(block[1]);
    var c := if block[2] == '=' then -1 else DecodeChar(block[2]);
    var d := if block[3] == '=' then -1 else DecodeChar(block[3]);
    if a < 0 || b < 0 || (block[2] != '=' && c < 0) || (block[3] != '=' && d < 0) {
      return None;
    }
    var bytes := [FirstByte(a, b)];
    if block[2] != '=' {
      bytes := bytes + [SecondByte(b, c)];
    }
    if block[3] != '=' {
      bytes := bytes + [ThirdByte(c % 64, d)];
    }
    assert bytes == [FirstByte(a, b)] + (if block[2] != '=' then [SecondByte(b, c)] else [])
                    + (if block[3] != '=' then [ThirdByte(c % 64, d)] else []);
    result := Some(bytes);
  }

  method Base64Decode(encoded: string) returns (result: Option<seq<byte>>)
    ensures result == BlockDecoded(encoded)
  {
    hide DecodeBlock, Normalized, PaddedToBlocks, DecodeChar;
    if encoded == "" {
      return None;
    }
    var normalized := Normalize(encoded);
    var bytes: seq<byte> := [];
    var index := 0;
    assert normalized[0..] == normalized;
    JoinedNothing(DecodeBlocks(normalized));
    while index < |normalized|
      invariant 0 <= index <= |normalized| && (|normalized| - index) % 4 == 0
      invariant DecodeBlocks(normalized) == Joined(bytes, DecodeBlocks(normalized[index..]))
    {
      DecodeBlocksStep(normalized, index, bytes);
      var block := DecodeOneBlock(normalized[index..index + 4]);
      if block == None {
        return None;
      }
      bytes := bytes + block.value;
      index := index + 4;
    }
    assert normalized[index..] == "";
    assert bytes + [] == bytes;
    result := Some(bytes);
  }

  lemma JoinedNothing(rest: Option<seq<byte>>)
    ensures Joined([], rest) == rest
  {
    if rest.Some? {
      assert [] + rest.value == rest.value;
    }
  }

  function Joined(bytes: seq<byte>, rest: Option<seq<byte>>): Option<seq<byte>> {
    match rest
    case None => None
    case Some(more) => Some(bytes + more)
  }

  lemma DecodeBlocksStep(text: string, index: nat, bytes: seq<byte>)
    requires index + 4 <= |text| && (|text| - index) % 4 == 0
    ensures match DecodeBlock(text[index..index + 4])
            case None => DecodeBlocks(text[index..]) == None
            case Some(first) =>
              Joined(bytes, DecodeBlocks(text[index..])) == Joined(bytes + first, DecodeBlocks(text[index + 4..]))
  {
    hide DecodeBlock;
    assert text[index..][..4] == text[index..index + 4];
    assert text[index..][4..] == text[index + 4..];
    match DecodeBlock(text[index..index + 4])
    case None =>
    case Some(first) =>
      if DecodeBlocks(text[index + 4..]).Some? {
        assert bytes + (first + DecodeBlocks(text[index + 4..]).value)
            == bytes + first + DecodeBlocks(text[index + 4..]).value;
      }
  }

  // ---------------------------------------------------------------- Decoding what was encoded

  predicate Spells(text: string, s: seq<sextet>) {
    |text| == |s| && forall i :: 0 <= i < |s| ==> text[i] != '=' && !IsSpace(text[i]) && DecodeChar(text[i]) == s[i]
  }

  /** The sextets of one group of one to three bytes. */
  function GroupSextets(group: seq<byte>): seq<sextet>
    requires 1 <= |group| <= 3
  {
    var pieces := GroupPieces(group[0], if |group| > 1 then group[1] else 0, if |group| > 2 then group[2] else 0);
    if |group| == 1 then [pieces.0, pieces.1]
    else if |group| == 2 then [pieces.0, pieces.1, pieces.2]
    else [pieces.0, pieces.1, pieces.2, pieces.3]
  }

  lemma EncodedGroupSpells(group: seq<byte>)
    requires 1 <= |group| <= 3
    ensures |EncodeGroup(group)| == 4
    ensures Spells(EncodeGroup(group)[..|group| + 1], GroupSextets(group))
    ensures forall i :: |group| + 1 <= i < 4 ==> EncodeGroup(group)[i] == '='
  {
    hide GroupValue, Part0, Part1, Part2, Part3, DecodeChar, IsSpace;
    AlphabetSize();
    var b: byte, c: byte := if |group| > 1 then group[1] else 0, if |group| > 2 then group[2] else 0;
    var pieces := GroupPieces(group[0], b, c);
    PiecesAreParts(group[0], b, c);
    AlphabetDecodes(pieces.0);
    AlphabetDecodes(pieces.1);
    AlphabetDecodes(pieces.2);
    AlphabetDecodes(pieces.3);
    hide GroupPieces;
  }

  lemma PiecesJoin(a: byte, b: byte, c: byte)
    ensures var p := GroupPieces(a, b, c);
            FirstByte(p.0, p.1) == a && SecondByte(p.1, p.2) == b && ThirdByte(p.2, p.3) == c
  {}

  lemma GroupSextetsSpellGroup(group: seq<byte>)
    requires 1 <= |group| <= 3
    ensures SextetsToBytes(GroupSextets(group)) == group
  {
    hide GroupPieces, FirstByte, SecondByte, ThirdByte;
    PiecesJoin(group[0], if |group| > 1 then group[1] else 0, if |group| > 2 then group[2] else 0);
    if |group| == 3 {
      assert GroupSextets(group)[4..] == [];
      assert group == [group[0], group[1], group[2]];
    }
  }

  lemma {:induction false} ScanSpelled(text: string, s: seq<sextet>, rest: string)
    requires Spells(text, s)
    ensures ScanSextets(text + rest) == Prepend(s, ScanSextets(rest))
  {
    hide DecodeChar, IsSpace;
    if text == "" {
      assert text + rest == rest;
      if ScanSextets(rest).Some? {
        assert s + ScanSextets(rest).value == ScanSextets(rest).value;
      }
    } else {
      ScanSpelled(text[1..], s[1..], rest);
      assert (text + rest)[1..] == text[1..] + rest;
      if ScanSextets(rest).Some? {
        assert [s[0]] + (s[1..] + ScanSextets(rest).value) == s + ScanSextets(rest).value;
      }
    }
  }

  /** The accumulator decoder undoes the encoder for every byte string. */
  lemma {:induction false} UrlDecodeUndoesEncode(bytes: seq<byte>)
    ensures UrlDecoded(Encode(bytes)) == Some(bytes)
  {
    hide EncodeGroup, GroupSextets, SextetsToBytes;
    if bytes == [] {
      NoSextets("");
    } else {
      var n := if |bytes| > 3 then 3 else |bytes|;
      var group, rest := bytes[..n], bytes[n..];
      var text, s := EncodeGroup(group), GroupSextets(group);
      EncodedGroupSpells(group);
      GroupSextetsSpellGroup(group);
      EncodeSplits(bytes, n);
      ScanSpelled(text[..n + 1], s, text[n + 1..] + Encode(rest));
      assert text + Encode(rest) == text[..n + 1] + (text[n + 1..] + Encode(rest));
      assert bytes == group + rest;
      if n == 3 {
        UrlDecodeUndoesEncode(rest);
        assert text[4..] + Encode(rest) == Encode(rest);
        FullGroupFirst(s, ScanSextets(Encode(rest)).value);
      } else {
        ScanEnds(text[n + 1..] + Encode(rest), s);
        assert rest == [] && ScanSextets(Encode(bytes)) == Some(s);
        assert bytes == group;
      }
    }
  }

  lemma FullGroupFirst(s: seq<sextet>, more: seq<sextet>)
    requires |s| == 4
    ensures SextetsToBytes(s + more) == SextetsToBytes(s) + SextetsToBytes(more)
  {
    hide FirstByte, SecondByte, ThirdByte;
    assert (s + more)[4..] == more;
    assert s[4..] == [];
  }

  lemma DecodeEncodedGroup(group: seq<byte>)
    requires 1 <= |group| <= 3
    ensures DecodeBlock(EncodeGroup(group)) == Some(group)
  {
    hide EncodeGroup, GroupPieces, FirstByte, SecondByte, ThirdByte, DecodeChar, IsSpace;
    var text, s := EncodeGroup(group), GroupSextets(group);
    EncodedGroupSpells(group);
    PiecesJoin(group[0], if |group| > 1 then group[1] else 0, if |group| > 2 then group[2] else 0);
    assert forall i :: 0 <= i < |s| ==> text[i] == text[..|group| + 1][i];
    assert group == [group[0]] + (if |group| > 1 then [group[1]] else []) + (if |group| > 2 then [group[2]] else []);
  }

  lemma {:induction false} DecodeEncodedBlocks(bytes: seq<byte>)
    ensures |Encode(bytes)| % 4 == 0 && DecodeBlocks(Encode(bytes)) == Some(bytes)
  {
    hide EncodeGroup, DecodeBlock;
    if bytes != [] {
      var n := if |bytes| > 3 then 3 else |bytes|;
      DecodeEncodedGroup(bytes[..n]);
      DecodeEncodedBlocks(bytes[n..]);
      EncodeSplits(bytes, n);
      var text := EncodeGroup(bytes[..n]);
      assert (text + Encode(bytes[n..]))[..4] == text && (text + Encode(bytes[n..]))[4..] == Encode(bytes[n..]);
      assert bytes == bytes[..n] + bytes[n..];
    }
  }

  predicate Standard(ch: char) { ch == '=' || ch in ALPHABET }

  lemma {:induction false} EncodeIsStandard(bytes: seq<byte>)
    ensures forall i :: 0 <= i < |Encode(bytes)| ==> Standard(Encode(bytes)[i])
  {
    hide Standard;
    if bytes != [] {
      var n := if |bytes| > 3 then 3 else |bytes|;
      GroupIsStandard(bytes[..n]);
      EncodeIsStandard(bytes[n..]);
      EncodeSplits(bytes, n);
    }
  }

  lemma GroupIsStandard(group: seq<byte>)
    requires 1 <= |group| <= 3
    ensures forall i :: 0 <= i < 4 ==> Standard(EncodeGroup(group)[i])
  {
    AlphabetSize();
  }

  lemma {:induction false} NormalizedStandard(text: string)
    requires forall i :: 0 <= i < |text| ==> Standard(text[i])
    ensures Normalized(text) == text
  {
    if text != "" {
      if text[0] != '=' {
        var v: nat :| v < |ALPHABET| && ALPHABET[v] == text[0];
        AlphabetSize();
        AlphabetDecodes(v);
      }
      NormalizedStandard(text[1..]);
      assert text == [text[0]] + text[1..];
    }
  }

  lemma NothingToPad(text: string)
    requires |text| % 4 == 0
    ensures PaddedToBlocks(text) == text
  {}

  /** The block decoder undoes the encoder exactly for the non-empty byte strings. */
  lemma BlockDecodeUndoesEncode(bytes: seq<byte>)
    ensures BlockDecoded(Encode(bytes)) == Some(bytes) <==> bytes != []
  {
    hide Normalized, EncodeGroup, DecodeBlocks, Standard, PaddedToBlocks;
    if bytes != [] {
      EncodeIsStandard(bytes);
      NormalizedStandard(Encode(bytes));
      DecodeEncodedBlocks(bytes);
      NothingToPad(Encode(bytes));
      EncodeSplits(bytes, if |bytes| > 3 then 3 else |bytes|);
    }
  }

  // ---------------------------------------------------------------- The standard's alphabet and examples

  /** Table 1 of RFC 4648, by character codes: A to Z, a to z, 0 to 9, '+' and '/'. */
  lemma AlphabetIsStandard(value: sextet)
    ensures |ALPHABET| == 64
    ensures ALPHABET[value] as int == if value < 26 then 65 + value else if value < 52 then 97 + (value - 26)
                                      else if value < 62 then 48 + (value - 52) else if value == 62 then 43 else 47
  {
    AlphabetDecodes(value);
  }

  /** Of other characters, the decoders know '-' and '_' in the places of '+' and '/', and skip white space. */
  lemma OtherCharacters(ch: char)
    ensures DecodeChar(ch) >= 0 <==> ch in ALPHABET || ch as int == 45 || ch as int == 95
    ensures DecodeChar(45 as char) == 62 && DecodeChar(95 as char) == 63
    ensures IsSpace(ch) <==> ch as int == 32 || 9 <= ch as int <= 13
  {
    if ch in ALPHABET {
      LetterDecodes(ch);
    } else if DecodeChar(ch) >= 0 {
      DecodedIsLetter(ch);
    }
  }

  lemma LetterDecodes(ch: char)
    requires ch in ALPHABET
    ensures DecodeChar(ch) >= 0
  {
    hide DecodeChar;
    var v: nat :| v < |ALPHABET| && ALPHABET[v] == ch;
    AlphabetSize();
    AlphabetDecodes(v);
  }

  lemma DecodedIsLetter(ch: char)
    requires DecodeChar(ch) >= 0
    ensures ch in ALPHABET || ch as int == 45 || ch as int == 95
  {
    AlphabetIsStandard(DecodeChar(ch));
    CodesDecode(ch);
    hide DecodeChar;
    assert ALPHABET[DecodeChar(ch)] in ALPHABET;
  }

  lemma CodesDecode(ch: char)
    requires DecodeChar(ch) >= 0
    ensures ch as int == 45 || ch as int == 95
            || ch as int == var v := DecodeChar(ch);
                            if v < 26 then 65 + v else if v < 52 then 97 + (v - 26)
                            else if v < 62 then 48 + (v - 52) else if v == 62 then 43 else 47
  {}

  /** Section 10 of RFC 4648. */
  lemma EncodingExamples()
    ensures Encode(Ascii("f")) == "Zg==" && Encode(Ascii("fo")) == "Zm8=" && Encode(Ascii("foo")) == "Zm9v"
    ensures Encode(Ascii("foobar")) == "Zm9vYmFy"
  {
    hide EncodeGroup;
    GroupF();
    GroupFo();
    GroupFoo();
    GroupBar();
    assert Ascii("f") == [102] && Ascii("fo") == [102, 111] && Ascii("foo") == [102, 111, 111];
    var foobar := Ascii("foobar");
    assert foobar == [102, 111, 111, 98, 97, 114];
    assert foobar[..3] == [102, 111, 111] && foobar[3..] == [98, 97, 114];
  }

  lemma GroupF()
    ensures EncodeGroup([102]) == "Zg=="
  {
    hide EncodeGroup, GroupPieces;
    var f: seq<byte> := [102];
    PiecesOfF();
    GroupOfLetters(f, 102, 0, 0, 25, 32, 0, 0);
    assert Letter(25) == 'Z' && Letter(32) == 'g';
  }

  lemma PiecesOfF()
    ensures GroupPieces(102, 0, 0) == (25, 32, 0, 0)
  {}

  lemma GroupFo()
    ensures EncodeGroup([102, 111]) == "Zm8="
  {
    hide EncodeGroup;
    GroupOfLetters([102, 111], 102, 111, 0, 25, 38, 60, 0);
  }

  lemma GroupFoo()
    ensures EncodeGroup([102, 111, 111]) == "Zm9v"
  {
    hide EncodeGroup;
    GroupOfLetters([102, 111, 111], 102, 111, 111, 25, 38, 61, 47);
  }

  lemma GroupBar()
    ensures EncodeGroup([98, 97, 114]) == "YmFy"
  {
    hide EncodeGroup;
    GroupOfLetters([98, 97, 114], 98, 97, 114, 24, 38, 5, 50);
  }

  /** The letter of the standard for a sextet. */
  function Letter(value: sextet): char {
    (if value < 26 then 65 + value else if value < 52 then 71 + value
     else if value < 62 then value as int - 4 else if value == 62 then 43 else 47) as char
  }

  lemma GroupOfLetters(group: seq<byte>, a: byte, b: byte, c: byte, p0: sextet, p1: sextet, p2: sextet, p3: sextet)
    requires 1 <= |group| <= 3 && group[0] == a && b == (if |group| > 1 then group[1] else 0)
    requires c == (if |group| > 2 then group[2] else 0) && GroupPieces(a, b, c) == (p0, p1, p2, p3)
    ensures EncodeGroup(group) == [Letter(p0), Letter(p1), if |group| > 1 then Letter(p2) else '=',
                                   if |group| > 2 then Letter(p3) else '=']
  {
    hide GroupValue, Part0, Part1, Part2, Part3;
    PiecesAreParts(a, b, c);
    AlphabetIsStandard(p0);
    AlphabetIsStandard(p1);
    AlphabetIsStandard(p2);
    AlphabetIsStandard(p3);
  }

  // ---------------------------------------------------------------- The decoders agree

  /** Only characters of the two alphabets and white space. */
  predicate IsPlain(text: string) {
    forall i :: 0 <= i < |text| ==> IsSpace(text[i]) || DecodeChar(text[i]) >= 0
  }

  /** The number of characters that are not white space. */
  function SolidCount(text: string): nat {
    if text == "" then 0 else (if IsSpace(text[0]) then 0 else 1) + SolidCount(text[1..])
  }

  lemma NormalizedSolid(ch: char)
    requires DecodeChar(ch) >= 0
    ensures !IsSpace(ch) && ch != '=' && Spells(NormalizedChar(ch), [DecodeChar(ch)])
  {}

  lemma NormalizedSpace(ch: char)
    requires IsSpace(ch)
    ensures ch != '=' && NormalizedChar(ch) == ""
  {}

  lemma {:induction false} PlainScans(text: string) returns (s: seq<sextet>)
    requires IsPlain(text)
    ensures ScanSextets(text) == Some(s) && |s| == SolidCount(text)
    ensures Spells(Normalized(text), s)
  {
    hide DecodeChar, IsSpace, NormalizedChar;
    if text == "" {
      s := [];
    } else {
      var rest := PlainScans(text[1..]);
      if IsSpace(text[0]) {
        NormalizedSpace(text[0]);
        s := rest;
        assert "" + Normalized(text[1..]) == Normalized(text[1..]);
      } else {
        NormalizedSolid(text[0]);
        s := [DecodeChar(text[0])] + rest;
      }
    }
  }

  /** The scan ends at the first '='. */
  lemma {:induction false} ScanEndsAtEquals(text: string, tail: string)
    requires tail != "" ==> tail[0] == '='
    ensures ScanSextets(text + tail) == ScanSextets(text)
  {
    hide DecodeChar, IsSpace;
    if text == "" {
      assert text + tail == tail;
    } else {
      ScanEndsAtEquals(text[1..], tail);
      assert (text + tail)[1..] == text[1..] + tail && (text + tail)[0] == text[0];
    }
  }

  lemma SpelledBlock(text: string, s: seq<sextet>)
    requires Spells(text, s) && |s| == 4
    ensures DecodeBlock(text) == Some(SextetsToBytes(s))
  {
    hide DecodeChar, IsSpace, FirstByte, SecondByte, ThirdByte;
    assert s[4..] == [] && SextetsToBytes(s[4..]) == [];
    assert [FirstByte(s[0], s[1])] + [SecondByte(s[1], s[2])] + [ThirdByte(s[2], s[3])]
        == [FirstByte(s[0], s[1]), SecondByte(s[1], s[2]), ThirdByte(s[2], s[3])] + [];
  }

  /** A character that both decoders refuse. */
  predicate IsForeign(ch: char) { ch != '=' && !IsSpace(ch) && DecodeChar(ch) < 0 }

  lemma NormalizedForeign(ch: char)
    requires IsForeign(ch)
    ensures NormalizedChar(ch) == [ch]
  {}

  lemma {:induction false} NormalizedKeepsForeign(text: string, i: nat) returns (j: nat)
    requires i < |text| && IsForeign(text[i])
    ensures j < |Normalized(text)| && IsForeign(Normalized(text)[j])
  {
    hide IsForeign, NormalizedChar;
    if i == 0 {
      NormalizedForeign(text[0]);
      j := 0;
    } else {
      j := NormalizedKeepsForeign(text[1..], i - 1);
      j := j + |NormalizedChar(text[0])|;
    }
  }

  lemma ForeignBlock(block: string, i: nat)
    requires |block| == 4 && i < 4 && IsForeign(block[i])
    ensures DecodeBlock(block) == None
  {
    hide DecodeChar, IsSpace, FirstByte, SecondByte, ThirdByte;
  }

  lemma {:induction false} ForeignIsRefused(text: string, i: nat)
    requires |text| % 4 == 0 && i < |text| && IsForeign(text[i])
    ensures DecodeBlocks(text) == None
  {
    hide DecodeBlock, IsForeign;
    if i < 4 {
      ForeignBlock(text[..4], i);
    } else {
      ForeignIsRefused(text[4..], i - 4);
    }
  }

  lemma BlockIsNotNothing(text: string)
    requires |text| % 4 == 0 && text != ""
    ensures DecodeBlocks(text) != Some([])
  {
    hide DecodeChar, FirstByte, SecondByte, ThirdByte;
  }

  predicate OnlyEquals(text: string) { forall i :: 0 <= i < |text| ==> text[i] == '=' }

  /** The block in which the spelling of fewer than four sextets ends. */
  lemma LastBlock(block: string, s: seq<sextet>)
    requires 1 <= |s| < 4 && |block| == 4
    requires Spells(block[..|s|], s) && block[|s|] == '='
    ensures DecodeBlock(block) == Some(SextetsToBytes(s)) <==> |s| != 1 && block[3] == '='
    ensures DecodeBlock(block).Some? ==> |DecodeBlock(block).value| >= |SextetsToBytes(s)|
  {
    hide IsSpace, FirstByte, SecondByte, ThirdByte;
    assert DecodeChar('=') == -1;
    assert forall i :: 0 <= i < |s| ==> block[i] == block[..|s|][i];
    var none: seq<byte> := [];
    if |s| == 2 {
      assert [FirstByte(s[0], s[1])] + none + none == SextetsToBytes(s);
    } else if |s| == 3 {
      assert [FirstByte(s[0], s[1])] + [SecondByte(s[1], s[2])] + none == SextetsToBytes(s);
    }
  }

  lemma BlocksOf(block: string, more: string, bytes: seq<byte>)
    requires |block| == 4 && |more| % 4 == 0 && |block + more| % 4 == 0
    requires DecodeBlock(block).Some? ==> |DecodeBlock(block).value| >= |bytes|
    ensures DecodeBlocks(block + more) == Some(bytes) <==> DecodeBlock(block) == Some(bytes) && more == ""
  {
    hide DecodeBlock;
    var text := block + more;
    assert text[..4] == block && text[4..] == more;
    if more != "" {
      BlockIsNotNothing(more);
    }
    if DecodeBlock(block).Some? && DecodeBlocks(more).Some? {
      var first, rest := DecodeBlock(block).value, DecodeBlocks(more).value;
      assert first + rest == bytes ==> |rest| == 0;
      assert rest == [] ==> first + rest == first;
    }
  }

  /** What follows the spelling is read as nothing exactly if it only fills up the last block. */
  predicate FillsUp(n: nat, rest: string) { n % 4 != 1 && |rest| < 4 && OnlyEquals(rest) }

  lemma NothingSpelled(rest: string)
    requires |rest| % 4 == 0
    ensures DecodeBlocks(rest) == Some(SextetsToBytes([])) <==> FillsUp(0, rest)
  {
    if rest != "" {
      BlockIsNotNothing(rest);
    }
  }

  lemma DecodeLastBlock(text: string, s: seq<sextet>, rest: string)
    requires Spells(text, s) && 1 <= |s| < 4 && (|s| + |rest|) % 4 == 0 && rest[0] == '='
    ensures DecodeBlocks(text + rest) == Some(SextetsToBytes(s)) <==> FillsUp(|s|, rest)
  {
    hide DecodeBlock, DecodeBlocks, DecodeChar, IsSpace, SextetsToBytes;
    var block, more := (text + rest)[..4], (text + rest)[4..];
    assert block + more == text + rest;
    assert block[..|s|] == text;
    LastBlock(block, s);
    BlocksOf(block, more, SextetsToBytes(s));
    assert forall i :: 0 <= i < |rest| && |s| + i < 4 ==> block[|s| + i] == rest[i];
    if |s| == 2 {
      assert block[3] == rest[1];
    }
  }

  lemma {:induction false} DecodeSpelling(text: string, s: seq<sextet>, rest: string)
    requires Spells(text, s) && (|s| + |rest|) % 4 == 0 && (rest == "" || rest[0] == '=')
    ensures DecodeBlocks(text + rest) == Some(SextetsToBytes(s)) <==> FillsUp(|s|, rest)
  {
    hide DecodeBlock, DecodeBlocks, DecodeChar, IsSpace, FirstByte, SecondByte, ThirdByte, SextetsToBytes;
    if |s| == 0 {
      assert s == [] && text + rest == rest;
      NothingSpelled(rest);
    } else if |s| < 4 {
      DecodeLastBlock(text, s, rest);
    } else {
      DecodeSpelling(text[4..], s[4..], rest);
      assert text + rest == text[..4] + (text[4..] + rest);
      SpelledBlock(text[..4], s[..4]);
      FullGroupFirst(s[..4], s[4..]);
      assert s[..4] + s[4..] == s;
      BlockThen(text[..4], text[4..] + rest, SextetsToBytes(s[4..]));
    }
  }

  lemma BlockThen(block: string, more: string, bytes: seq<byte>)
    requires |block| == 4 && |more| % 4 == 0 && |block + more| % 4 == 0 && DecodeBlock(block).Some?
    ensures DecodeBlocks(block + more) == Some(DecodeBlock(block).value + bytes) <==> DecodeBlocks(more) == Some(bytes)
  {
    hide DecodeBlock;
    assert (block + more)[..4] == block && (block + more)[4..] == more;
    if DecodeBlocks(more).Some? {
      var first, rest := DecodeBlock(block).value, DecodeBlocks(more).value;
      assert first + rest == first + bytes ==> (first + rest)[|first|..] == (first + bytes)[|first|..];
    }
  }

  /** The part of a text before its first '='. */
  function BeforeEquals(text: string): (plain: string)
    ensures |plain| <= |text| && plain == text[..|plain|] && '=' !in plain
    ensures |plain| < |text| ==> text[|plain|] == '='
  {
    if text == "" || text[0] == '=' then "" else [text[0]] + BeforeEquals(text[1..])
  }

  /** The rest, from the first '=' on. */
  function FromEquals(text: string): string { text[|BeforeEquals(text)|..] }

  predicate EqualsOrSpace(text: string) { forall i :: 0 <= i < |text| ==> text[i] == '=' || IsSpace(text[i]) }

  /** Up to k times '=' may follow n solid characters. */
  predicate MayFollow(n: nat, k: nat) { if n % 4 == 0 then k == 0 else n % 4 != 1 && k <= 4 - n % 4 }

  lemma {:induction false} ForeignIsNotScanned(text: string, i: nat)
    requires i < |BeforeEquals(text)| && IsForeign(text[i])
    ensures ScanSextets(text) == None
  {
    hide DecodeChar, IsSpace;
    if i > 0 {
      ForeignIsNotScanned(text[1..], i - 1);
    }
  }

  /** The accumulator decoder fails exactly at a character of neither alphabet before the first '='. */
  lemma UrlDecodeFails(text: string)
    ensures UrlDecoded(text) == None
            <==> exists i :: 0 <= i < |BeforeEquals(text)| && !IsSpace(text[i]) && DecodeChar(text[i]) < 0
  {
    hide ScanSextets, BeforeEquals, DecodeChar, IsSpace;
    var plain := BeforeEquals(text);
    if IsPlain(plain) {
      var s := PlainScans(plain);
      ScanEndsAtEquals(plain, text[|plain|..]);
      assert plain + text[|plain|..] == text;
      assert forall i :: 0 <= i < |plain| ==> plain[i] == text[i];
    } else {
      var i: nat :| i < |plain| && !IsSpace(plain[i]) && DecodeChar(plain[i]) < 0;
      assert plain[i] == text[i] && plain[i] in plain;
      ForeignIsNotScanned(text, i);
    }
  }

  lemma ForeignDecoded(text: string, i: nat)
    requires i < |BeforeEquals(text)| && IsForeign(text[i])
    ensures UrlDecoded(text) == None && BlockDecoded(text) == None
  {
    hide IsForeign, DecodeBlocks, Normalized, ScanSextets, BeforeEquals;
    ForeignIsNotScanned(text, i);
    var j := NormalizedKeepsForeign(text, i);
    assert PaddedToBlocks(Normalized(text))[j] == Normalized(text)[j];
    ForeignIsRefused(PaddedToBlocks(Normalized(text)), j);
  }

  lemma {:induction false} NormalizedJoins(text: string, more: string)
    ensures Normalized(text + more) == Normalized(text) + Normalized(more)
  {
    if text == "" {
      assert text + more == more && Normalized("") + Normalized(more) == Normalized(more);
    } else {
      NormalizedJoins(text[1..], more);
      assert (text + more)[1..] == text[1..] + more && (text + more)[0] == text[0];
      Associates(NormalizedChar(text[0]), Normalized(text[1..]), Normalized(more));
    }
  }

  lemma Associates(a: string, b: string, c: string)
    ensures a + (b + c) == (a + b) + c
  {}

  lemma OnlyEqualsJoins(a: string, b: string)
    ensures OnlyEquals(a + b) <==> OnlyEquals(a) && OnlyEquals(b)
  {
    assert forall i :: 0 <= i < |a| ==> (a + b)[i] == a[i];
    assert forall i :: 0 <= i < |b| ==> (a + b)[|a| + i] == b[i];
  }

  lemma NormalizedOne(ch: char)
    ensures |NormalizedChar(ch)| == if IsSpace(ch) then 0 else 1
    ensures OnlyEquals(NormalizedChar(ch)) <==> ch == '=' || IsSpace(ch)
    ensures NormalizedChar('=') == "="
  {
    if !IsSpace(ch) {
      assert NormalizedChar(ch)[0] == '=' <==> ch == '=';
    }
  }

  /** From the first '=' on, every solid character is kept, be it '=' or another. */
  lemma {:induction false} NormalizedTail(tail: string)
    ensures |Normalized(tail)| == SolidCount(tail)
    ensures OnlyEquals(Normalized(tail)) <==> EqualsOrSpace(tail)
    ensures tail != "" && tail[0] == '=' ==> Normalized(tail) != "" && Normalized(tail)[0] == '='
  {
    hide IsSpace, NormalizedChar;
    if tail != "" {
      NormalizedOne(tail[0]);
      NormalizedTail(tail[1..]);
      OnlyEqualsJoins(NormalizedChar(tail[0]), Normalized(tail[1..]));
    }
  }

  lemma PaddingFits(n: nat, k: nat, missing: nat)
    requires missing == (4 - (n + k) % 4) % 4
    ensures n % 4 != 1 && k + missing < 4 <==> MayFollow(n, k)
  {}

  lemma OnlyEqualsOfEquals(n: nat)
    ensures OnlyEquals(Equals(n))
  {}

  lemma NormalizedNothing()
    ensures Normalized("") == ""
  {}

  /** What the padded text holds after its plain part. */
  lemma TailFills(n: nat, tail: string, filled: string)
    requires tail != "" ==> tail[0] == '='
    requires filled == Normalized(tail) + Equals((4 - (n + |Normalized(tail)|) % 4) % 4)
    ensures FillsUp(n, filled) <==> EqualsOrSpace(tail) && MayFollow(n, SolidCount(tail))
    ensures filled == "" || filled[0] == '='
  {
    hide IsSpace, EqualsOrSpace, NormalizedChar, Normalized, SolidCount, OnlyEquals;
    NormalizedTail(tail);
    var missing := (4 - (n + SolidCount(tail)) % 4) % 4;
    PaddingFits(n, SolidCount(tail), missing);
    OnlyEqualsJoins(Normalized(tail), Equals(missing));
    OnlyEqualsOfEquals(missing);
    if tail == "" {
      NormalizedNothing();
    }
  }

  lemma PaddedJoins(text: string, more: string)
    ensures PaddedToBlocks(text + more) == text + (more + Equals((4 - (|text| + |more|) % 4) % 4))
  {
    Associates(text, more, Equals((4 - (|text| + |more|) % 4) % 4));
  }

  lemma PaddedPlain(text: string, tail: string) returns (filled: string)
    requires tail != "" ==> tail[0] == '='
    ensures PaddedToBlocks(text + Normalized(tail)) == text + filled
    ensures (|text| + |filled|) % 4 == 0 && (filled == "" || filled[0] == '=')
    ensures FillsUp(|text|, filled) <==> EqualsOrSpace(tail) && MayFollow(|text|, SolidCount(tail))
  {
    hide EqualsOrSpace, MayFollow, Normalized, FillsUp, SolidCount;
    var more := Normalized(tail);
    filled := more + Equals((4 - (|text| + |more|) % 4) % 4);
    PaddedJoins(text, more);
    TailFills(|text|, tail, filled);
  }

  lemma PlainDecoded(plain: string, tail: string)
    requires IsPlain(plain) && plain + tail != "" && (tail != "" ==> tail[0] == '=')
    ensures UrlDecoded(plain + tail) == BlockDecoded(plain + tail)
            <==> EqualsOrSpace(tail) && MayFollow(SolidCount(plain), SolidCount(tail))
  {
    hide IsPlain, EqualsOrSpace, MayFollow, Normalized, SextetsToBytes, FillsUp, DecodeBlocks, SolidCount, ScanSextets;
    hide PaddedToBlocks, OnlyEquals;
    var s := PlainScans(plain);
    ScanEndsAtEquals(plain, tail);
    NormalizedJoins(plain, tail);
    var filled := PaddedPlain(Normalized(plain), tail);
    DecodeSpelling(Normalized(plain), s, filled);
  }

  /** On every text: the two decoders agree exactly if it is not empty and either both refuse what is
      before its first '=', or what comes from there on is '=' and white space only and the '=' are
      none after full groups, at most two after two characters and at most one after three. */
  lemma DecodersAgree(text: string)
    ensures var plain, tail := BeforeEquals(text), FromEquals(text);
            UrlDecoded(text) == BlockDecoded(text)
            <==> text != ""
                 && (IsPlain(plain) ==> EqualsOrSpace(tail) && MayFollow(SolidCount(plain), SolidCount(tail)))
  {
    hide EqualsOrSpace, MayFollow, SolidCount, UrlDecoded, BlockDecoded, BeforeEquals;
    var plain, tail := BeforeEquals(text), FromEquals(text);
    assert plain + tail == text;
    if text == "" {
      EmptyDecoded();
    } else if IsPlain(plain) {
      PlainDecoded(plain, tail);
    } else {
      var i: nat :| i < |plain| && !IsSpace(plain[i]) && DecodeChar(plain[i]) < 0;
      assert plain[i] == text[i] && plain[i] in plain;
      ForeignDecoded(text, i);
    }
  }

  lemma EmptyDecoded()
    ensures UrlDecoded("") == Some([]) && BlockDecoded("") == None
  {}
}
