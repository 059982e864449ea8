/** The binary session formats of src/core/session/auth_session_codec.cpp. */
module AuthSessionCodec {
  import opened Basics
  import opened Decimal
  import opened AuthSessions

  type Blob = seq<byte>

  // "CAUTHSESS1\r\n", "CAUTHSESS2\r\n", "CAUTHSESS3\r\n"
  const MAGIC_V1: Blob := [67, 65, 85, 84, 72, 83, 69, 83, 83, 49, 13, 10]
  const MAGIC_V2: Blob := [67, 65, 85, 84, 72, 83, 69, 83, 83, 50, 13, 10]
  const MAGIC_V3: Blob := [67, 65, 85, 84, 72, 83, 69, 83, 83, 51, 13, 10]
  // "CAUTHACCT1\r\n", "CAUTHACCT2\r\n"
  const MAGIC_STORE_V1: Blob := [67, 65, 85, 84, 72, 65, 67, 67, 84, 49, 13, 10]
  const MAGIC_STORE_V2: Blob := [67, 65, 85, 84, 72, 65, 67, 67, 84, 50, 13, 10]
  // "steam"
  const LEGACY_V1_PROVIDER: Text := [115, 116, 101, 97, 109]

  const MAGIC_SIZE := 12
  const MAX_ACCOUNTS := 1024

  // ---------------------------------------------------------------- Little-endian numbers

  function LeBytes(value: nat, width: nat): (bytes: Blob)
    ensures |bytes| == width
  {
    if width == 0 then [] else [value % 256] + LeBytes(value / 256, width - 1)
  }

  function LeValue(bytes: Blob): nat {
    if bytes == [] then 0 else bytes[0] as int + 256 * LeValue(bytes[1..])
  }

  lemma {:induction false} LeValueOfBytes(value: nat, width: nat)
    requires value < Power256(width)
    ensures LeValue(LeBytes(value, width)) == value
  {
    if width > 0 {
      LeValueOfBytes(value / 256, width - 1);
    }
  }

  lemma {:induction false} LeBytesOfValue(bytes: Blob)
    ensures LeValue(bytes) < Power256(|bytes|)
    ensures LeBytes(LeValue(bytes), |bytes|) == bytes
  {
    if bytes != [] {
      LeBytesOfValue(bytes[1..]);
      var value := LeValue(bytes);
      assert value % 256 == bytes[0] && value / 256 == LeValue(bytes[1..]);
      assert bytes == [bytes[0]] + bytes[1..];
    }
  }

  lemma Powers()
    ensures Power256(4) == MAX_U32 + 1 && Power256(8) == MAX_U64 + 1
  {
    assert Power256(3) == 256 * Power256(2) == 256 * 256 * Power256(1) == 0x100_0000;
    assert Power256(6) == 256 * Power256(5) == 256 * 256 * Power256(4);
    assert Power256(8) == 256 * Power256(7) == 256 * 256 * Power256(6);
  }

  lemma {:induction false} LeBytesAppend(value: nat, width: nat)
    ensures LeBytes(value, width + 1) == LeBytes(value, width) + [(value / Power256(width)) % 256]
  {
    if width > 0 {
      LeBytesAppend(value / 256, width - 1);
      DivideTwice(value, 256, Power256(width - 1));
    }
  }

  lemma DivideTwice(x: nat, a: nat, b: nat)
    requires a > 0 && b > 0
    ensures a * b > 0 && x / a / b == x / (a * b)
  {
    DivisionsCompose(x, a, b, x / a, x % a, x / a / b, x / a % b);
  }

  lemma DivisionsCompose(x: nat, a: nat, b: nat, p: nat, m: nat, q: nat, s: nat)
    requires m < a && s < b && x == p * a + m && p == q * b + s
    ensures a * b > 0 && x / (a * b) == q
  {
    Regroup(q, b, s, a);
    Remainder(s, a, b, m);
    QuotientIs(x, a * b, q, s * a + m);
  }

  lemma Regroup(q: nat, b: nat, s: nat, a: nat)
    ensures (q * b + s) * a == q * (a * b) + s * a
  {
    assert (q * b + s) * a == (q * b) * a + s * a;
    assert (q * b) * a == q * (b * a);
  }

  lemma Remainder(s: nat, a: nat, b: nat, m: nat)
    requires s < b && m < a
    ensures 0 <= s * a + m < a * b
  {
    assert s * a <= (b - 1) * a;
    assert (b - 1) * a == a * b - a;
  }

  lemma TimesPower(b: nat, n: nat)
    ensures b * Power256(n + 1) == 256 * (b * Power256(n))
  {
    var p := Power256(n);
    assert b * (256 * p) == 256 * (b * p);
  }

  lemma {:induction false} LeValueAppend(bytes: Blob, b: byte)
    ensures LeValue(bytes + [b]) == LeValue(bytes) + b * Power256(|bytes|)
  {
    if bytes != [] {
      LeValueAppend(bytes[1..], b);
      assert (bytes + [b])[1..] == bytes[1..] + [b];
      TimesPower(b, |bytes| - 1);
    }
  }

  /** append_u32 and append_u64, for widths 4 and 8. */
  method AppendNumber(out: Blob, value: nat, width: nat) returns (appended: Blob)
    ensures appended == out + LeBytes(value, width)
  {
    appended := out;
    for i := 0 to width
      invariant appended == out + LeBytes(value, i)
    {
      LeBytesAppend(value, i);
      appended := appended + [(value / Power256(i)) % 256];
    }
  }

  // ---------------------------------------------------------------- Reading

  /** What a reader makes of the bytes from an offset on: a value and the offset after it. */
  datatype Parsed<+T> = Failed | Parsed(value: T, next: nat)

  function ParseNumber(bytes: Blob, offset: nat, width: nat): (r: Parsed<nat>)
    requires offset <= |bytes|
    ensures r.Parsed? ==> r.next <= |bytes|
  {
    if |bytes| - offset < width then Failed else Parsed(LeValue(bytes[offset..offset + width]), offset + width)
  }

  /** read_u32 and read_u64, for widths 4 and 8. */
  method ReadNumber(bytes: Blob, offset: nat, width: nat) returns (r: Parsed<nat>)
    requires offset <= |bytes|
    ensures r == ParseNumber(bytes, offset, width)
  {
    if |bytes| - offset < width {
      return Failed;
    }
    var value := 0;
    for i := 0 to width
      invariant value == LeValue(bytes[offset..offset + i])
    {
      assert bytes[offset..offset + i + 1] == bytes[offset..offset + i] + [bytes[offset + i]];
      LeValueAppend(bytes[offset..offset + i], bytes[offset + i]);
      value := value + bytes[offset + i] * Power256(i);
    }
    return Parsed(value, offset + width);
  }

  function ParseText(bytes: Blob, offset: nat): (r: Parsed<Text>)
    requires offset <= |bytes|
    ensures r.Parsed? ==> r.next <= |bytes|
  {
    match ParseNumber(bytes, offset, 4)
    case Failed => Failed
    case Parsed(length, start) =>
      if |bytes| - start < length then Failed else Parsed(bytes[start..start + length], start + length)
  }

  method ReadText(bytes: Blob, offset: nat) returns (r: Parsed<Text>)
    requires offset <= |bytes|
    ensures r == ParseText(bytes, offset)
  {
    var length := ReadNumber(bytes, offset, 4);
    if length.Failed? || |bytes| - length.next < length.value {
      return Failed;
    }
    return Parsed(bytes[length.next..length.next + length.value], length.next + length.value);
  }

  function ParseTexts(bytes: Blob, offset: nat, count: nat): (r: Parsed<seq<Text>>)
    requires offset <= |bytes|
    ensures r.Parsed? ==> r.next <= |bytes| && |r.value| == count
  {
    if count == 0 then Parsed([], offset)
    else match ParseTexts(bytes, offset, count - 1)
      case Failed => Failed
      case Parsed(texts, middle) =>
        match ParseText(bytes, middle)
        case Failed => Failed
        case Parsed(text, next) => Parsed(texts + [text], next)
  }

  /** A chain of read_string calls that stops at the first failure. */
  method ReadTexts(bytes: Blob, offset: nat, count: nat) returns (r: Parsed<seq<Text>>)
    requires offset <= |bytes|
    ensures r == ParseTexts(bytes, offset, count)
  {
    var texts: seq<Text> := [];
    var next := offset;
    for i := 0 to count
      invariant 0 <= next <= |bytes| && ParseTexts(bytes, offset, i) == Parsed(texts, next)
    {
      var text := ReadText(bytes, next);
      if text.Failed? {
        FailureStays(bytes, offset, i + 1, count);
        return Failed;
      }
      texts, next := texts + [text.value], text.next;
    }
    return Parsed(texts, next);
  }

  lemma {:induction false} FailureStays(bytes: Blob, offset: nat, i: nat, count: nat)
    requires offset <= |bytes| && i <= count && ParseTexts(bytes, offset, i).Failed?
    ensures ParseTexts(bytes, offset, count).Failed?
  {
    if i < count {
      FailureStays(bytes, offset, i, count - 1);
    }
  }

  // ---------------------------------------------------------------- Timestamps

  const TWO_63 := 0x8000_0000_0000_0000
  const TWO_64 := 0x1_0000_0000_0000_0000

  /** The resolution of the clock is that of the platform: nanoseconds or coarser. */
  type TickRate = x: int | 1 <= x <= 1_000_000_000 witness 1
  const TICKS_PER_SECOND: TickRate

  /** duration_cast to seconds rounds toward zero. */
  function WholeSeconds(t: Ticks): int {
    if t >= 0 then t / TICKS_PER_SECOND else -((0 - t as int) / TICKS_PER_SECOND)
  }

  function ToUnsigned(x: int): nat { x % TWO_64 }

  function ToSigned(x: int): Ticks {
    (x + TWO_63) % TWO_64 - TWO_63
  }

  /** The clock reading for a stored number of seconds, in 64-bit arithmetic. */
  function TicksOf(seconds: nat): Ticks {
    ToSigned(ToSigned(seconds) * TICKS_PER_SECOND)
  }

  /** Is the stored number of seconds within the range of the clock? */
  predicate Representable(seconds: nat) {
    seconds < TWO_64 && -TWO_63 <= ToSigned(seconds) * TICKS_PER_SECOND < TWO_63
  }

  function Truncated(t: Ticks): Ticks {
    WholeSecondsInTicks(t);
    WholeSeconds(t) * TICKS_PER_SECOND
  }

  /** Every clock reading comes back from its stored seconds, cut down to whole seconds. */
  lemma StoredTime(t: Ticks)
    ensures Representable(ToUnsigned(WholeSeconds(t)))
    ensures TicksOf(ToUnsigned(WholeSeconds(t))) == Truncated(t)
    ensures if t >= 0 then 0 <= t - Truncated(t) < TICKS_PER_SECOND else 0 <= Truncated(t) - t < TICKS_PER_SECOND
  {
    FractionIsCut(t);
    hide WholeSeconds, ToUnsigned, ToSigned;
    UnsignedIsSmall(WholeSeconds(t));
    TicksAreRepresentable(t);
    InRange(WholeSeconds(t) * TICKS_PER_SECOND);
  }

  lemma FractionIsCut(t: Ticks)
    ensures if t >= 0 then 0 <= t - WholeSeconds(t) * TICKS_PER_SECOND < TICKS_PER_SECOND
            else 0 <= WholeSeconds(t) * TICKS_PER_SECOND - t < TICKS_PER_SECOND
  {
    var size, rate: int := if t >= 0 then t as int else 0 - t as int, TICKS_PER_SECOND;
    assert size == rate * (size / rate) + size % rate;
    Negated(size / rate, rate);
  }

  lemma UnsignedIsSmall(x: int)
    ensures ToUnsigned(x) < TWO_64
  {}

  lemma WholeSecondsOfProduct(seconds: int, t: Ticks)
    requires t == seconds * TICKS_PER_SECOND
    ensures WholeSeconds(t) == seconds
  {
    var rate: int := TICKS_PER_SECOND;
    if t >= 0 {
      QuotientIs(t, rate, seconds, 0);
    } else {
      QuotientIs(0 - t as int, rate, -seconds, 0);
    }
  }

  /** Whole seconds are between zero and the time, in seconds and in ticks. */
  lemma WholeSecondsInTicks(t: Ticks)
    ensures var seconds := WholeSeconds(t);
            if t >= 0 then 0 <= seconds <= seconds * TICKS_PER_SECOND <= t
            else t <= seconds * TICKS_PER_SECOND <= seconds <= 0
  {
    if t >= 0 {
      QuotientInTicks(t as int, TICKS_PER_SECOND as int);
    } else {
      QuotientInTicks(0 - t as int, TICKS_PER_SECOND as int);
      Negated((0 - t as int) / TICKS_PER_SECOND, TICKS_PER_SECOND as int);
    }
  }

  lemma QuotientInTicks(size: int, rate: int)
    requires size >= 0 && rate >= 1
    ensures 0 <= size / rate <= size / rate * rate <= size
  {
    var q := size / rate;
    assert size == rate * q + size % rate;
    Grows(q, rate);
  }

  lemma Negated(q: int, rate: int)
    ensures (-q) * rate == -(q * rate)
  {}

  lemma Grows(q: int, rate: int)
    requires q >= 0 && rate >= 1
    ensures q <= q * rate
  {
    assert q * rate == q + q * (rate - 1);
    assert q * (rate - 1) >= 0;
  }

  lemma SignedTwice(seconds: nat)
    requires seconds < TWO_64
    ensures ToUnsigned(ToSigned(seconds)) == seconds
  {}

  lemma TicksAreRepresentable(t: Ticks)
    ensures -TWO_63 <= WholeSeconds(t) * TICKS_PER_SECOND < TWO_63
            && ToSigned(ToUnsigned(WholeSeconds(t))) == WholeSeconds(t)
  {
    hide WholeSeconds, ToSigned, ToUnsigned;
    WholeSecondsInTicks(t);
    SignedAgain(WholeSeconds(t));
  }

  lemma SignedAgain(x: int)
    requires -TWO_63 <= x < TWO_63
    ensures ToSigned(ToUnsigned(x)) == x
  {}

  /** The seconds stored for a reading are those it was made from, exactly if they were in range. */
  lemma StoredSeconds(seconds: nat)
    requires seconds < TWO_64
    ensures ToUnsigned(WholeSeconds(TicksOf(seconds))) == seconds <==> Representable(seconds)
  {
    hide WholeSeconds, ToSigned;
    TicksAreRepresentable(TicksOf(seconds));
    if Representable(seconds) {
      InRange(ToSigned(seconds) * TICKS_PER_SECOND);
      WholeSecondsOfProduct(ToSigned(seconds), TicksOf(seconds));
      SignedTwice(seconds);
    }
  }

  lemma InRange(x: int)
    requires -TWO_63 <= x < TWO_63
    ensures ToSigned(x) == x
  {}

  // ---------------------------------------------------------------- One session

  /** The strings of a session in the order of the format. */
  function TextsOf(session: AuthSession): seq<Text> {
    [session.provider, session.subjectId, session.accountName, session.refreshToken, session.accessToken,
     session.sessionType]
  }

  function SessionOf(seconds: nat, texts: seq<Text>): AuthSession
    requires |texts| == 6
  {
    AuthSession(texts[2], texts[3], texts[4], texts[5], TicksOf(seconds), texts[0], texts[1])
  }

  function TextsBytes(texts: seq<Text>): Blob {
    if texts == [] then []
    else TextsBytes(texts[..|texts| - 1]) + LeBytes(|texts[|texts| - 1]|, 4) + texts[|texts| - 1]
  }

  predicate TextsFit(texts: seq<Text>) {
    forall i :: 0 <= i < |texts| ==> |texts[i]| <= MAX_U32
  }

  function SessionBytes(session: AuthSession): Blob {
    LeBytes(ToUnsigned(WholeSeconds(session.createdAt)), 8) + TextsBytes(TextsOf(session))
  }

  function ParseSession(bytes: Blob, offset: nat): (r: Parsed<AuthSession>)
    requires offset <= |bytes|
    ensures r.Parsed? ==> r.next <= |bytes|
  {
    match ParseNumber(bytes, offset, 8)
    case Failed => Failed
    case Parsed(seconds, middle) =>
      match ParseTexts(bytes, middle, 6)
      case Failed => Failed
      case Parsed(texts, next) => Parsed(SessionOf(seconds, texts), next)
  }

  /** append_string for each of the strings, until one is too long. */
  method AppendTexts(out: Blob, texts: seq<Text>) returns (ok: bool, appended: Blob)
    ensures ok <==> TextsFit(texts)
    ensures ok ==> appended == out + TextsBytes(texts)
  {
    appended := out;
    for i := 0 to |texts|
      invariant TextsFit(texts[..i]) && appended == out + TextsBytes(texts[..i])
    {
      if |texts[i]| > MAX_U32 {
        return false, appended;
      }
      appended := AppendNumber(appended, |texts[i]|, 4);
      appended := appended + texts[i];
      assert texts[..i + 1][..i] == texts[..i];
    }
    assert texts[..|texts|] == texts;
    return true, appended;
  }

  method AppendSession(out: Blob, session: AuthSession) returns (ok: bool, appended: Blob)
    ensures ok <==> TextsFit(TextsOf(session))
    ensures ok ==> appended == out + SessionBytes(session)
  {
    hide WholeSeconds, ToUnsigned, LeBytes, TextsBytes, TextsFit, TextsOf;
    appended := AppendNumber(out, ToUnsigned(WholeSeconds(session.createdAt)), 8);
    ok, appended := AppendTexts(appended, TextsOf(session));
  }

  method ReadSession(bytes: Blob, offset: nat) returns (r: Parsed<AuthSession>)
    requires offset <= |bytes|
    ensures r == ParseSession(bytes, offset)
  {
    var seconds := ReadNumber(bytes, offset, 8);
    if seconds.Failed? {
      return Failed;
    }
    var texts := ReadTexts(bytes, seconds.next, 6);
    if texts.Failed? {
      return Failed;
    }
    return Parsed(SessionOf(seconds.value, texts.value), texts.next);
  }

  // Reading at |pre| what was written between pre and post

  lemma NumberReadsBack(pre: Blob, value: nat, width: nat, post: Blob)
    requires value < Power256(width)
    ensures ParseNumber(pre + LeBytes(value, width) + post, |pre|, width) == Parsed(value, |pre| + width)
  {
    var bytes := pre + LeBytes(value, width) + post;
    assert bytes[|pre|..|pre| + width] == LeBytes(value, width);
    LeValueOfBytes(value, width);
  }

  lemma TextReadsBack(pre: Blob, text: Text, post: Blob)
    requires |text| <= MAX_U32
    ensures ParseText(pre + LeBytes(|text|, 4) + text + post, |pre|) == Parsed(text, |pre| + 4 + |text|)
  {
    hide LeBytes, LeValue, Power256;
    Powers();
    var bytes := pre + LeBytes(|text|, 4) + text + post;
    NumberReadsBack(pre, |text|, 4, text + post);
    assert bytes == pre + LeBytes(|text|, 4) + (text + post);
    assert bytes[|pre| + 4..|pre| + 4 + |text|] == text;
  }

  lemma OneMoreText(bytes: Blob, offset: nat, before: seq<Text>, middle: nat, last: Text, next: nat)
    requires offset <= |bytes| && middle <= |bytes|
    requires ParseTexts(bytes, offset, |before|) == Parsed(before, middle)
            && ParseText(bytes, middle) == Parsed(last, next)
    ensures ParseTexts(bytes, offset, |before + [last]|) == Parsed(before + [last], next)
  {}

  lemma {:induction false} TextsReadBack(pre: Blob, texts: seq<Text>, post: Blob)
    requires TextsFit(texts)
    ensures ParseTexts(pre + TextsBytes(texts) + post, |pre|, |texts|) == Parsed(texts, |pre| + |TextsBytes(texts)|)
  {
    hide LeBytes, ParseText, ParseTexts;
    var bytes := pre + TextsBytes(texts) + post;
    if texts == [] {
      NoTexts(bytes, |pre|);
    } else {
      var before, last := texts[..|texts| - 1], texts[|texts| - 1];
      var head, width := TextsBytes(before), LeBytes(|last|, 4);
      TextsReadBack(pre, before, width + last + post);
      TextReadsBack(pre + head, last, post);
      assert bytes == pre + head + (width + last + post);
      assert bytes == (pre + head) + width + last + post;
      assert texts == before + [last];
      OneMoreText(bytes, |pre|, before, |pre| + |head|, last, |pre| + |head| + 4 + |last|);
    }
  }

  lemma NoTexts(bytes: Blob, offset: nat)
    requires offset <= |bytes|
    ensures ParseTexts(bytes, offset, 0) == Parsed([], offset)
  {}

  /** A session with its time cut down to whole seconds, which is all the format keeps of it. */
  function Stored(session: AuthSession): AuthSession {
    session.(createdAt := Truncated(session.createdAt))
  }

  lemma SessionReadsBack(pre: Blob, session: AuthSession, post: Blob)
    requires TextsFit(TextsOf(session))
    ensures ParseSession(pre + SessionBytes(session) + post, |pre|)
            == Parsed(Stored(session), |pre| + |SessionBytes(session)|)
  {
    hide TextsBytes, LeBytes, ParseTexts;
    Powers();
    var seconds := ToUnsigned(WholeSeconds(session.createdAt));
    var bytes := pre + SessionBytes(session) + post;
    NumberReadsBack(pre, seconds, 8, TextsBytes(TextsOf(session)) + post);
    assert bytes == pre + LeBytes(seconds, 8) + (TextsBytes(TextsOf(session)) + post);
    TextsReadBack(pre + LeBytes(seconds, 8), TextsOf(session), post);
    assert bytes == (pre + LeBytes(seconds, 8)) + TextsBytes(TextsOf(session)) + post;
    StoredTime(session.createdAt);
  }

  // Writing what was read gives the bytes it was read from

  lemma TextIsCanonical(bytes: Blob, offset: nat)
    requires offset <= |bytes| && ParseText(bytes, offset).Parsed?
    ensures var r := ParseText(bytes, offset);
            offset <= r.next && |r.value| <= MAX_U32 && bytes[offset..r.next] == LeBytes(|r.value|, 4) + r.value
  {
    Powers();
    var r := ParseText(bytes, offset);
    LeBytesOfValue(bytes[offset..offset + 4]);
    assert bytes[offset..r.next] == bytes[offset..offset + 4] + bytes[offset + 4..r.next];
  }

  lemma {:induction false} TextsAreCanonical(bytes: Blob, offset: nat, count: nat)
    requires offset <= |bytes| && ParseTexts(bytes, offset, count).Parsed?
    ensures var r := ParseTexts(bytes, offset, count);
            offset <= r.next && TextsFit(r.value) && bytes[offset..r.next] == TextsBytes(r.value)
  {
    hide LeBytes, ParseText;
    if count > 0 {
      TextsAreCanonical(bytes, offset, count - 1);
      var before, r := ParseTexts(bytes, offset, count - 1), ParseTexts(bytes, offset, count);
      TextIsCanonical(bytes, before.next);
      assert r.value[..|r.value| - 1] == before.value;
      assert bytes[offset..r.next] == bytes[offset..before.next] + bytes[before.next..r.next];
    }
  }

  /** The stored seconds at an offset. */
  function SecondsAt(bytes: Blob, offset: nat): nat
    requires offset + 8 <= |bytes|
  {
    LeValue(bytes[offset..offset + 8])
  }

  lemma SessionIsCanonical(bytes: Blob, offset: nat)
    requires offset <= |bytes| && ParseSession(bytes, offset).Parsed?
    ensures var r := ParseSession(bytes, offset);
            && offset + 8 <= r.next && TextsFit(TextsOf(r.value)) && |SessionBytes(r.value)| == r.next - offset
            && (bytes[offset..r.next] == SessionBytes(r.value) <==> Representable(SecondsAt(bytes, offset)))
  {
    hide TextsBytes, LeBytes, ParseTexts;
    Powers();
    var r := ParseSession(bytes, offset);
    var middle := offset + 8;
    var seconds, texts := SecondsAt(bytes, offset), ParseTexts(bytes, middle, 6).value;
    LeBytesOfValue(bytes[offset..middle]);
    TextsAreCanonical(bytes, middle, 6);
    assert TextsOf(r.value) == texts;
    assert bytes[offset..r.next] == LeBytes(seconds, 8) + TextsBytes(texts);
    StoredSeconds(seconds);
    var written := ToUnsigned(WholeSeconds(r.value.createdAt));
    LeValueOfBytes(written, 8);
    if LeBytes(written, 8) + TextsBytes(texts) == LeBytes(seconds, 8) + TextsBytes(texts) {
      assert LeBytes(written, 8) == (LeBytes(written, 8) + TextsBytes(texts))[..8] == LeBytes(seconds, 8);
    }
  }

  // ---------------------------------------------------------------- Session blobs

  predicate HasMagic(bytes: Blob, magic: Blob) {
    |magic| <= |bytes| && bytes[..|magic|] == magic
  }

  method EncodeAuthSession(session: AuthSession) returns (out: Blob)
    ensures out == if TextsFit(TextsOf(session)) then MAGIC_V3 + SessionBytes(session) else []
  {
    var ok, appended := AppendSession(MAGIC_V3, session);
    return if ok then appended else [];
  }

  /** The optional access token at the end of the older formats, and the check that nothing follows it. */
  function ParseTail(bytes: Blob, offset: nat): Option<Text>
    requires offset <= |bytes|
  {
    if offset == |bytes| then Some([])
    else match ParseText(bytes, offset)
      case Failed => None
      case Parsed(text, next) => if next == |bytes| then Some(text) else None
  }

  method ReadTail(bytes: Blob, offset: nat) returns (r: Option<Text>)
    requires offset <= |bytes|
    ensures r == ParseTail(bytes, offset)
  {
    var next := offset;
    var text: Text := [];
    if next < |bytes| {
      var read := ReadText(bytes, next);
      if read.Failed? {
        return None;
      }
      text, next := read.value, read.next;
    }
    return if next != |bytes| then None else Some(text);
  }

  function ParseV1(bytes: Blob): Option<AuthSession>
    requires |bytes| >= MAGIC_SIZE
  {
    match ParseNumber(bytes, MAGIC_SIZE, 8)
    case Failed => None
    case Parsed(steamId, o1) =>
      match ParseNumber(bytes, o1, 8)
      case Failed => None
      case Parsed(seconds, o2) =>
        match ParseTexts(bytes, o2, 2)
        case Failed => None
        case Parsed(texts, o3) =>
          match ParseTail(bytes, o3)
          case None => None
          case Some(access) =>
            Some(AuthSession(texts[0], texts[1], access, [], TicksOf(seconds), LEGACY_V1_PROVIDER, ToDecimal(steamId)))
  }

  method DecodeV1(bytes: Blob) returns (r: Option<AuthSession>)
    requires |bytes| >= MAGIC_SIZE
    ensures r == ParseV1(bytes)
  {
    var steamId := ReadNumber(bytes, MAGIC_SIZE, 8);
    if steamId.Failed? {
      return None;
    }
    var seconds := ReadNumber(bytes, steamId.next, 8);
    if seconds.Failed? {
      return None;
    }
    var texts := ReadTexts(bytes, seconds.next, 2);
    if texts.Failed? {
      return None;
    }
    var access := ReadTail(bytes, texts.next);
    if access == None {
      return None;
    }
    return Some(AuthSession(texts.value[0], texts.value[1], access.value, [], TicksOf(seconds.value),
                            LEGACY_V1_PROVIDER, ToDecimal(steamId.value)));
  }

  function ParseV2(bytes: Blob): Option<AuthSession>
    requires |bytes| >= MAGIC_SIZE
  {
    match ParseNumber(bytes, MAGIC_SIZE, 8)
    case Failed => None
    case Parsed(seconds, o1) =>
      match ParseTexts(bytes, o1, 4)
      case Failed => None
      case Parsed(texts, o2) =>
        match ParseTail(bytes, o2)
        case None => None
        case Some(access) => Some(AuthSession(texts[2], texts[3], access, [], TicksOf(seconds), texts[0], texts[1]))
  }

  method DecodeV2(bytes: Blob) returns (r: Option<AuthSession>)
    requires |bytes| >= MAGIC_SIZE
    ensures r == ParseV2(bytes)
  {
    var seconds := ReadNumber(bytes, MAGIC_SIZE, 8);
    if seconds.Failed? {
      return None;
    }
    var texts := ReadTexts(bytes, seconds.next, 4);
    if texts.Failed? {
      return None;
    }
    var access := ReadTail(bytes, texts.next);
    if access == None {
      return None;
    }
    return Some(AuthSession(texts.value[2], texts.value[3], access.value, [], TicksOf(seconds.value),
                            texts.value[0], texts.value[1]));
  }

  function ParseV3(bytes: Blob): Option<AuthSession>
    requires |bytes| >= MAGIC_SIZE
  {
    match ParseSession(bytes, MAGIC_SIZE)
    case Failed => None
    case Parsed(session, next) => if next == |bytes| then Some(session) else None
  }

  method DecodeV3(bytes: Blob) returns (r: Option<AuthSession>)
    requires |bytes| >= MAGIC_SIZE
    ensures r == ParseV3(bytes)
  {
    var session := ReadSession(bytes, MAGIC_SIZE);
    return if session.Failed? || session.next != |bytes| then None else Some(session.value);
  }

  /** The session that a blob of one of the three formats holds. */
  function DecodedSession(bytes: Blob): Option<AuthSession> {
    if |bytes| < MAGIC_SIZE then None
    else
      var session := if HasMagic(bytes, MAGIC_V3) then ParseV3(bytes)
                     else if HasMagic(bytes, MAGIC_V2) then ParseV2(bytes)
                     else if HasMagic(bytes, MAGIC_V1) then ParseV1(bytes)
                     else None;
      if session.Some? && IsValid(session.value) then session else None
  }

  method DecodeAuthSession(bytes: Blob) returns (r: Option<AuthSession>)
    ensures r == DecodedSession(bytes)
  {
    hide ParseV1, ParseV2, ParseV3;
    if |bytes| < MAGIC_SIZE {
      return None;
    }
    if HasMagic(bytes, MAGIC_V3) {
      r := DecodeV3(bytes);
    } else if HasMagic(bytes, MAGIC_V2) {
      r := DecodeV2(bytes);
    } else if HasMagic(bytes, MAGIC_V1) {
      r := DecodeV1(bytes);
    } else {
      return None;
    }
    if r.None? || !IsValid(r.value) {
      return None;
    }
  }

  /** An encoded session decodes to itself with its time in whole seconds, exactly if it is valid and its
      strings have 32-bit lengths. */
  lemma SessionRoundTrips(session: AuthSession)
    ensures var blob := if TextsFit(TextsOf(session)) then MAGIC_V3 + SessionBytes(session) else [];
            DecodedSession(blob) == Some(Stored(session)) <==> TextsFit(TextsOf(session)) && IsValid(session)
  {
    hide SessionBytes, ParseSession;
    if TextsFit(TextsOf(session)) {
      var blob := MAGIC_V3 + SessionBytes(session);
      SessionReadsBack(MAGIC_V3, session, []);
      assert blob == MAGIC_V3 + SessionBytes(session) + [];
      assert blob[..12] == MAGIC_V3;
    }
  }

  /** The V3 format is canonical: encoding what was decoded from a V3 blob gives the blob back, exactly if
      its time was within the range of the clock. */
  lemma V3IsCanonical(bytes: Blob)
    requires HasMagic(bytes, MAGIC_V3) && DecodedSession(bytes).Some?
    ensures var session := DecodedSession(bytes).value;
            TextsFit(TextsOf(session)) && |bytes| >= MAGIC_SIZE + 8
            && (MAGIC_V3 + SessionBytes(session) == bytes <==> Representable(SecondsAt(bytes, MAGIC_SIZE)))
  {
    hide SessionBytes;
    var session := DecodedSession(bytes).value;
    SessionIsCanonical(bytes, MAGIC_SIZE);
    assert bytes == MAGIC_V3 + bytes[MAGIC_SIZE..];
    assert (MAGIC_V3 + SessionBytes(session))[MAGIC_SIZE..] == SessionBytes(session);
    assert bytes[MAGIC_SIZE..|bytes|] == bytes[MAGIC_SIZE..];
  }

  /** Encoding is injective up to the cut in the time. */
  lemma EncodingIsInjective(x: AuthSession, y: AuthSession)
    requires TextsFit(TextsOf(x)) && TextsFit(TextsOf(y)) && SessionBytes(x) == SessionBytes(y)
    ensures Stored(x) == Stored(y)
  {
    SessionReadsBack([], x, []);
    SessionReadsBack([], y, []);
  }

  // ---------------------------------------------------------------- Repository blobs

  function SessionsBytes(sessions: seq<AuthSession>): Blob {
    if sessions == [] then []
    else SessionsBytes(sessions[..|sessions| - 1]) + SessionBytes(sessions[|sessions| - 1])
  }

  predicate AllFit(sessions: seq<AuthSession>) {
    |sessions| <= MAX_U32 && forall i :: 0 <= i < |sessions| ==> TextsFit(TextsOf(sessions[i]))
  }

  function RepositoryBytes(sessions: seq<AuthSession>): Blob {
    MAGIC_STORE_V2 + LeBytes(|sessions|, 4) + SessionsBytes(sessions)
  }

  /** Encodes the normal form; an empty blob where something does not fit. */
  function EncodedRepository(sessions: seq<AuthSession>): Blob {
    if AllFit(Normalized(sessions)) then RepositoryBytes(Normalized(sessions)) else []
  }

  method EncodeRepository(state: AuthSessionRepository) returns (out: Blob)
    ensures out == EncodedRepository(state.sessions)
  {
    hide Normalized, SessionBytes, LeBytes;
    var normalized := new AuthSessionRepository();
    normalized.sessions := state.sessions;
    normalized.Normalize();
    var sessions := normalized.sessions;
    if |sessions| > MAX_U32 {
      return [];
    }
    out := AppendNumber(MAGIC_STORE_V2, |sessions|, 4);
    for i := 0 to |sessions|
      invariant out == MAGIC_STORE_V2 + LeBytes(|sessions|, 4) + SessionsBytes(sessions[..i])
      invariant forall j :: 0 <= j < i ==> TextsFit(TextsOf(sessions[j]))
    {
      assert sessions[..i + 1][..i] == sessions[..i];
      var ok, appended := AppendSession(out, sessions[i]);
      if !ok {
        return [];
      }
      out := appended;
    }
    assert sessions[..|sessions|] == sessions;
  }

  function ParseSessions(bytes: Blob, offset: nat, count: nat): (r: Parsed<seq<AuthSession>>)
    requires offset <= |bytes|
    ensures r.Parsed? ==> r.next <= |bytes| && |r.value| == count
  {
    if count == 0 then Parsed([], offset)
    else match ParseSessions(bytes, offset, count - 1)
      case Failed => Failed
      case Parsed(sessions, middle) =>
        match ParseSession(bytes, middle)
        case Failed => Failed
        case Parsed(session, next) => Parsed(sessions + [session], next)
  }

  /** The part that the two repository formats share: a count, that many sessions, and nothing else. */
  function ParseStore(bytes: Blob, offset: nat): Option<seq<AuthSession>>
    requires offset <= |bytes|
  {
    match ParseNumber(bytes, offset, 4)
    case Failed => None
    case Parsed(count, start) =>
      if count > MAX_ACCOUNTS then None
      else match ParseSessions(bytes, start, count)
        case Failed => None
        case Parsed(sessions, next) => if next == |bytes| then Some(Normalized(sessions)) else None
  }

  method DecodeStore(bytes: Blob, offset: nat) returns (r: Option<seq<AuthSession>>)
    requires offset <= |bytes|
    ensures r == ParseStore(bytes, offset)
  {
    hide Normalized, Upserted, ParseSession;
    var count := ReadNumber(bytes, offset, 4);
    if count.Failed? || count.value > MAX_ACCOUNTS {
      return None;
    }
    var state := new AuthSessionRepository();
    var next := count.next;
    ghost var read: seq<AuthSession> := [];
    NothingNormalized(read);
    for i := 0 to count.value
      invariant 0 <= next <= |bytes| && fresh(state)
      invariant ParseSessions(bytes, count.next, i) == Parsed(read, next)
      invariant state.sessions == Normalized(read)
    {
      var session := ReadSession(bytes, next);
      if session.Failed? {
        SessionFailureStays(bytes, count.next, i + 1, count.value);
        return None;
      }
      NormalizedAppends(read, session.value);
      state.Upsert(session.value);
      read, next := read + [session.value], session.next;
    }
    if next != |bytes| {
      return None;
    }
    NormalizedIffNormal(read);
    state.Normalize();
    return Some(state.sessions);
  }

  lemma {:induction false} SessionFailureStays(bytes: Blob, offset: nat, i: nat, count: nat)
    requires offset <= |bytes| && i <= count && ParseSessions(bytes, offset, i).Failed?
    ensures ParseSessions(bytes, offset, count).Failed?
  {
    if i < count {
      SessionFailureStays(bytes, offset, i, count - 1);
    }
  }

  /** The sessions of a repository blob; a blob of a single session is a repository of one. */
  function DecodedRepository(bytes: Blob): Option<seq<AuthSession>> {
    if |bytes| < MAGIC_SIZE then None
    else if HasMagic(bytes, MAGIC_STORE_V2) then ParseStore(bytes, MAGIC_SIZE)
    else if HasMagic(bytes, MAGIC_STORE_V1) then
      match ParseTexts(bytes, MAGIC_SIZE, 2)
      case Failed => None
      case Parsed(selected, next) => ParseStore(bytes, next)
    else
      match DecodedSession(bytes)
      case None => None
      case Some(session) => Some([session])
  }

  method DecodeRepository(bytes: Blob) returns (r: Option<seq<AuthSession>>)
    ensures r == DecodedRepository(bytes)
  {
    hide ParseStore, ParseV1, ParseV2, ParseV3;
    if |bytes| < MAGIC_SIZE {
      return None;
    }
    if HasMagic(bytes, MAGIC_STORE_V2) {
      r := DecodeStore(bytes, MAGIC_SIZE);
      return;
    }
    if HasMagic(bytes, MAGIC_STORE_V1) {
      var selected := ReadTexts(bytes, MAGIC_SIZE, 2);
      if selected.Failed? {
        return None;
      }
      r := DecodeStore(bytes, selected.next);
      return;
    }
    var legacy := DecodeAuthSession(bytes);
    if legacy == None {
      return None;
    }
    var state := new AuthSessionRepository();
    state.Upsert(legacy.value);
    assert [] + [legacy.value] == [legacy.value];
    return Some(state.sessions);
  }

  // ---------------------------------------------------------------- Round trips of repositories

  function AllStored(sessions: seq<AuthSession>): (stored: seq<AuthSession>)
    ensures |stored| == |sessions|
  {
    seq(|sessions|, i requires 0 <= i < |sessions| => Stored(sessions[i]))
  }

  lemma OneMoreSession(bytes: Blob, offset: nat, before: seq<AuthSession>, middle: nat, last: AuthSession, next: nat)
    requires offset <= |bytes| && middle <= |bytes|
    requires ParseSessions(bytes, offset, |before|) == Parsed(before, middle)
            && ParseSession(bytes, middle) == Parsed(last, next)
    ensures ParseSessions(bytes, offset, |before + [last]|) == Parsed(before + [last], next)
  {}

  lemma {:induction false} SessionsReadBack(pre: Blob, sessions: seq<AuthSession>, post: Blob)
    requires AllFit(sessions)
    ensures ParseSessions(pre + SessionsBytes(sessions) + post, |pre|, |sessions|)
         == Parsed(AllStored(sessions), |pre| + |SessionsBytes(sessions)|)
  {
    hide SessionBytes, ParseSession, ParseSessions, TextsFit;
    var bytes := pre + SessionsBytes(sessions) + post;
    if sessions == [] {
      NoSessions(bytes, |pre|);
    } else {
      var before, last := sessions[..|sessions| - 1], sessions[|sessions| - 1];
      var head, tail := SessionsBytes(before), SessionBytes(last);
      SessionsReadBack(pre, before, tail + post);
      SessionReadsBack(pre + head, last, post);
      assert bytes == pre + head + (tail + post);
      assert bytes == (pre + head) + tail + post;
      assert AllStored(sessions) == AllStored(before) + [Stored(last)];
      OneMoreSession(bytes, |pre|, AllStored(before), |pre| + |head|, Stored(last), |pre| + |head| + |tail|);
    }
  }

  lemma NoSessions(bytes: Blob, offset: nat)
    requires offset <= |bytes|
    ensures ParseSessions(bytes, offset, 0) == Parsed([], offset)
  {}

  lemma StoredKeepsNormal(sessions: seq<AuthSession>)
    requires IsNormal(sessions)
    ensures IsNormal(AllStored(sessions))
  {}

  lemma EncodedStoreParses(sessions: seq<AuthSession>)
    requires AllFit(sessions) && IsNormal(sessions)
    ensures ParseStore(RepositoryBytes(sessions), MAGIC_SIZE)
         == if |sessions| <= 1024 then Some(AllStored(sessions)) else None
  {
    hide SessionBytes, LeBytes, Normalized, ParseSessions, IsNormal;
    Powers();
    var head := MAGIC_STORE_V2 + LeBytes(|sessions|, 4);
    NumberReadsBack(MAGIC_STORE_V2, |sessions|, 4, SessionsBytes(sessions));
    SessionsReadBack(head, sessions, []);
    assert RepositoryBytes(sessions) == head + SessionsBytes(sessions) + [];
    StoredKeepsNormal(sessions);
    NormalizedIffNormal(AllStored(sessions));
  }

  lemma RepositoryBytesHaveMagic(sessions: seq<AuthSession>)
    ensures HasMagic(RepositoryBytes(sessions), MAGIC_STORE_V2) && |RepositoryBytes(sessions)| >= MAGIC_SIZE
  {
    assert RepositoryBytes(sessions)[..12] == MAGIC_STORE_V2;
  }

  /** Decoding an encoded repository gives its normal form with times in whole seconds, exactly if the
      normal form has at most 1024 sessions and all strings have 32-bit lengths. */
  lemma RepositoryRoundTrips(sessions: seq<AuthSession>)
    ensures DecodedRepository(EncodedRepository(sessions)) == Some(AllStored(Normalized(sessions)))
            <==> |Normalized(sessions)| <= 1024 && AllFit(Normalized(sessions))
  {
    hide Normalized, ParseStore, RepositoryBytes, IsNormal;
    NormalizedIsNormal(sessions);
    if AllFit(Normalized(sessions)) {
      EncodedStoreParses(Normalized(sessions));
      RepositoryBytesHaveMagic(Normalized(sessions));
    }
  }

  // ---------------------------------------------------------------- Canonical stores

  /** The stored seconds of the sessions from an offset on. */
  function SecondsOfSessions(bytes: Blob, offset: nat, count: nat): seq<nat>
    requires offset <= |bytes| && ParseSessions(bytes, offset, count).Parsed?
  {
    if count == 0 then []
    else
      var middle := ParseSessions(bytes, offset, count - 1).next;
      SessionStartsWithSeconds(bytes, middle);
      SecondsOfSessions(bytes, offset, count - 1) + [SecondsAt(bytes, middle)]
  }

  lemma SessionStartsWithSeconds(bytes: Blob, offset: nat)
    requires offset <= |bytes| && ParseSession(bytes, offset).Parsed?
    ensures offset + 8 <= |bytes|
  {
    hide ParseTexts;
  }

  predicate AllRepresentable(seconds: seq<nat>) {
    forall i :: 0 <= i < |seconds| ==> Representable(seconds[i])
  }

  lemma {:induction false} SessionsAreCanonical(bytes: Blob, offset: nat, count: nat)
    requires offset <= |bytes| && ParseSessions(bytes, offset, count).Parsed?
    ensures var r := ParseSessions(bytes, offset, count);
            offset <= r.next && |SessionsBytes(r.value)| == r.next - offset
            && (forall i :: 0 <= i < count ==> TextsFit(TextsOf(r.value[i])))
            && (bytes[offset..r.next] == SessionsBytes(r.value)
                <==> AllRepresentable(SecondsOfSessions(bytes, offset, count)))
  {
    hide ParseSession, SessionBytes, Representable, TextsOf, TextsFit;
    if count > 0 {
      var before, r := ParseSessions(bytes, offset, count - 1), ParseSessions(bytes, offset, count);
      SessionsAreCanonical(bytes, offset, count - 1);
      SessionStartsWithSeconds(bytes, before.next);
      SessionIsCanonical(bytes, before.next);
      var last := r.value[count - 1];
      assert r.value[..count - 1] == before.value;
      assert SessionsBytes(r.value) == SessionsBytes(before.value) + SessionBytes(last);
      assert bytes[offset..r.next] == bytes[offset..before.next] + bytes[before.next..r.next];
      SumsAgree(bytes[offset..before.next], bytes[before.next..r.next], SessionsBytes(before.value),
                SessionBytes(last));
      OneMoreRepresentable(SecondsOfSessions(bytes, offset, count - 1), SecondsAt(bytes, before.next));
    }
  }

  lemma SumsAgree(first: Blob, second: Blob, first': Blob, second': Blob)
    requires |first| == |first'|
    ensures first + second == first' + second' <==> first == first' && second == second'
  {
    assert (first + second)[..|first|] == first && (first' + second')[..|first|] == first';
    assert (first + second)[|first|..] == second && (first' + second')[|first|..] == second';
  }

  lemma OneMoreRepresentable(seconds: seq<nat>, last: nat)
    ensures AllRepresentable(seconds + [last]) <==> AllRepresentable(seconds) && Representable(last)
  {
    hide Representable;
    if AllRepresentable(seconds + [last]) {
      assert forall i :: 0 <= i < |seconds| ==> (seconds + [last])[i] == seconds[i];
      assert (seconds + [last])[|seconds|] == last;
    }
  }

  /** The sessions that an accepted V2 store holds, as they stand there. */
  function HeldSessions(bytes: Blob): Parsed<seq<AuthSession>>
    requires |bytes| >= MAGIC_SIZE + 4
  {
    ParseSessions(bytes, MAGIC_SIZE + 4, LeValue(bytes[MAGIC_SIZE..MAGIC_SIZE + 4]))
  }

  /** An accepted store encodes to itself again exactly if the sessions that it holds are normal and the clock can
      represent all their seconds. */
  lemma StoreIsCanonical(bytes: Blob)
    requires HasMagic(bytes, MAGIC_STORE_V2) && DecodedRepository(bytes).Some?
    ensures |bytes| >= MAGIC_SIZE + 4 && HeldSessions(bytes).Parsed?
    ensures var held := HeldSessions(bytes).value;
            EncodedRepository(DecodedRepository(bytes).value) == bytes
            <==> IsNormal(held) && AllRepresentable(SecondsOfSessions(bytes, MAGIC_SIZE + 4, |held|))
  {
    hide LeValue, LeBytes, ParseSessions, Normalized, IsNormal, AllRepresentable, SessionsBytes, DecodedSession;
    var start := MAGIC_SIZE + 4;
    var count, held := LeValue(bytes[MAGIC_SIZE..start]), HeldSessions(bytes).value;
    SessionsAreCanonical(bytes, start, count);
    LeBytesOfValue(bytes[MAGIC_SIZE..start]);
    assert bytes == MAGIC_STORE_V2 + bytes[MAGIC_SIZE..start] + bytes[start..];
    assert bytes[start..|bytes|] == bytes[start..];
    NormalizedIsNormal(held);
    NormalizedIffNormal(held);
    if IsNormal(held) {
      SumsAgree(MAGIC_STORE_V2 + LeBytes(count, 4), bytes[start..], MAGIC_STORE_V2
                + LeBytes(count, 4), SessionsBytes(held));
    } else if EncodedRepository(Normalized(held)) == bytes {
      HeldIsStored(bytes, Normalized(held));
    }
  }

  /** What a written store holds is normal again. */
  lemma HeldIsStored(bytes: Blob, sessions: seq<AuthSession>)
    requires IsNormal(sessions) && AllFit(sessions) && bytes == RepositoryBytes(sessions)
    ensures |bytes| >= MAGIC_SIZE + 4 && HeldSessions(bytes).Parsed? && IsNormal(HeldSessions(bytes).value)
  {
    hide LeBytes, ParseSessions, IsNormal, SessionsBytes;
    Powers();
    var head := MAGIC_STORE_V2 + LeBytes(|sessions|, 4);
    assert bytes[MAGIC_SIZE..MAGIC_SIZE + 4] == LeBytes(|sessions|, 4);
    LeValueOfBytes(|sessions|, 4);
    SessionsReadBack(head, sessions, []);
    assert bytes == head + SessionsBytes(sessions) + [];
    StoredKeepsNormal(sessions);
  }

  // ---------------------------------------------------------------- Single sessions

  /** A single session survives being saved and loaded as a repository, but for the fraction of a second. */
  lemma SingleIsSaved(session: AuthSession)
    requires IsValid(session) && TextsFit(TextsOf(session))
    ensures DecodedRepository(EncodedRepository([session])) == Some([Stored(session)])
  {
    hide Normalized, SessionBytes, TextsOf, Truncated;
    NormalSingleton(session);
    RepositoryRoundTrips([session]);
    assert AllStored([session]) == [Stored(session)];
  }

  lemma NormalSingleton(session: AuthSession)
    requires IsValid(session)
    ensures Normalized([session]) == [session]
  {
    NormalizedIffNormal([session]);
  }

  lemma WholeTimeIsKept(seconds: nat)
    requires Representable(seconds)
    ensures Truncated(TicksOf(seconds)) == TicksOf(seconds)
  {
    hide WholeSeconds, ToSigned;
    InRange(ToSigned(seconds) * TICKS_PER_SECOND);
    WholeSecondsOfProduct(ToSigned(seconds), TicksOf(seconds));
  }
}
