/** The older session formats of src/core/session/auth_session_codec.cpp as layouts: what the decoders accept is
    exactly what has the layout, and it survives being saved in the present format. */
module AuthSessionLayouts {
  import opened Basics
  import opened Decimal
  import opened AuthSessions
  import opened AuthSessionCodec

  // ---------------------------------------------------------------- The last string

  /** The access token at the end may be there or not. */
  function TailBytes(access: Option<Text>): Blob {
    if access == None then [] else LeBytes(|access.value|, 4) + access.value
  }

  predicate TailFits(access: Option<Text>) { access.Some? ==> |access.value| <= MAX_U32 }

  function TailText(access: Option<Text>): Text { if access == None then [] else access.value }

  lemma TailReadsBack(pre: Blob, access: Option<Text>)
    requires TailFits(access)
    ensures ParseTail(pre + TailBytes(access), |pre|) == Some(TailText(access))
  {
    hide ParseText, LeBytes;
    var bytes := pre + TailBytes(access);
    if access.Some? {
      TextReadsBack(pre, access.value, []);
      assert bytes == pre + LeBytes(|access.value|, 4) + access.value + [];
    }
  }

  lemma TailIsLayout(bytes: Blob, offset: nat) returns (access: Option<Text>)
    requires offset <= |bytes| && ParseTail(bytes, offset).Some?
    ensures TailFits(access) && bytes[offset..] == TailBytes(access)
            && ParseTail(bytes, offset) == Some(TailText(access))
  {
    hide ParseText, LeBytes;
    if offset == |bytes| {
      access := None;
    } else {
      TextIsCanonical(bytes, offset);
      access := Some(ParseText(bytes, offset).value);
      assert bytes[offset..|bytes|] == bytes[offset..];
    }
  }

  // ---------------------------------------------------------------- V2

  /** Magic, seconds, provider, subject, account name and refresh token, and perhaps an access token. */
  function V2Bytes(seconds: nat, texts: seq<Text>, access: Option<Text>): Blob {
    MAGIC_V2 + LeBytes(seconds, 8) + TextsBytes(texts) + TailBytes(access)
  }

  function V2Session(seconds: nat, texts: seq<Text>, access: Option<Text>): AuthSession
    requires |texts| == 4
  {
    AuthSession(texts[2], texts[3], TailText(access), [], TicksOf(seconds), texts[0], texts[1])
  }

  predicate V2Fits(seconds: nat, texts: seq<Text>, access: Option<Text>) {
    seconds < TWO_64 && |texts| == 4 && TextsFit(texts) && TailFits(access)
  }

  /** What has the V2 layout is read as its session. */
  lemma V2ReadsBack(seconds: nat, texts: seq<Text>, access: Option<Text>)
    requires V2Fits(seconds, texts, access)
    ensures ParseV2(V2Bytes(seconds, texts, access)) == Some(V2Session(seconds, texts, access))
  {
    hide LeBytes, TextsBytes, TailBytes, ParseTexts, ParseTail, TicksOf, ParseNumber;
    Powers();
    var bytes := V2Bytes(seconds, texts, access);
    var head, tail := MAGIC_V2 + LeBytes(seconds, 8), TailBytes(access);
    NumberReadsBack(MAGIC_V2, seconds, 8, TextsBytes(texts) + tail);
    assert bytes == MAGIC_V2 + LeBytes(seconds, 8) + (TextsBytes(texts) + tail);
    TextsReadBack(head, texts, tail);
    TailReadsBack(head + TextsBytes(texts), access);
  }

  /** And nothing else is: every blob that is accepted has the layout. */
  lemma V2IsLayout(bytes: Blob) returns (seconds: nat, texts: seq<Text>, access: Option<Text>)
    requires HasMagic(bytes, MAGIC_V2) && |bytes| >= MAGIC_SIZE && ParseV2(bytes).Some?
    ensures V2Fits(seconds, texts, access) && bytes == V2Bytes(seconds, texts, access)
    ensures ParseV2(bytes) == Some(V2Session(seconds, texts, access)) && seconds == SecondsAt(bytes, MAGIC_SIZE)
  {
    hide LeBytes, LeValue, TextsBytes, TailBytes, ParseTexts, ParseTail, TicksOf;
    Powers();
    var middle := MAGIC_SIZE + 8;
    var read := ParseTexts(bytes, middle, 4);
    seconds, texts := SecondsAt(bytes, MAGIC_SIZE), read.value;
    LeBytesOfValue(bytes[MAGIC_SIZE..middle]);
    TextsAreCanonical(bytes, middle, 4);
    access := TailIsLayout(bytes, read.next);
    assert bytes == bytes[..MAGIC_SIZE] + bytes[MAGIC_SIZE..middle] + bytes[middle..read.next] + bytes[read.next..];
  }

  /** A V2 blob migrates without loss: saving its session as a repository and loading it gives the same single
      session, with its time if that was in range. */
  lemma V2Migrates(bytes: Blob)
    requires HasMagic(bytes, MAGIC_V2) && DecodedSession(bytes).Some?
    ensures |bytes| >= MAGIC_SIZE + 8
    ensures var session := DecodedSession(bytes).value;
            DecodedRepository(EncodedRepository([session])) == Some([Stored(session)])
            && (Representable(SecondsAt(bytes, MAGIC_SIZE)) ==> Stored(session) == session)
  {
    hide LeValue, Normalized, WholeSeconds, TicksOf;
    var session := DecodedSession(bytes).value;
    var seconds, texts, access := V2IsLayout(bytes);
    SingleIsSaved(session);
    if Representable(seconds) {
      WholeTimeIsKept(seconds);
    }
  }

  // ---------------------------------------------------------------- V1

  /** Magic, Steam id, seconds, account name and refresh token, and perhaps an access token. */
  function V1Bytes(steamId: nat, seconds: nat, texts: seq<Text>, access: Option<Text>): Blob {
    MAGIC_V1 + LeBytes(steamId, 8) + LeBytes(seconds, 8) + TextsBytes(texts) + TailBytes(access)
  }

  function V1Session(steamId: nat, seconds: nat, texts: seq<Text>, access: Option<Text>): AuthSession
    requires |texts| == 2
  {
    AuthSession(texts[0], texts[1], TailText(access), [], TicksOf(seconds), LEGACY_V1_PROVIDER, ToDecimal(steamId))
  }

  predicate V1Fits(steamId: nat, seconds: nat, texts: seq<Text>, access: Option<Text>) {
    steamId <= MAX_U64 && seconds < TWO_64 && |texts| == 2 && TextsFit(texts) && TailFits(access)
  }

  lemma V1ReadsBack(steamId: nat, seconds: nat, texts: seq<Text>, access: Option<Text>)
    requires V1Fits(steamId, seconds, texts, access)
    ensures ParseV1(V1Bytes(steamId, seconds, texts, access)) == Some(V1Session(steamId, seconds, texts, access))
  {
    hide LeBytes, TextsBytes, TailBytes, ParseTexts, ParseTail, TicksOf, ToDecimal, ParseNumber;
    Powers();
    var bytes := V1Bytes(steamId, seconds, texts, access);
    var first, tail := MAGIC_V1 + LeBytes(steamId, 8), TailBytes(access);
    var head := first + LeBytes(seconds, 8);
    NumberReadsBack(MAGIC_V1, steamId, 8, LeBytes(seconds, 8) + TextsBytes(texts) + tail);
    assert bytes == MAGIC_V1 + LeBytes(steamId, 8) + (LeBytes(seconds, 8) + TextsBytes(texts) + tail);
    NumberReadsBack(first, seconds, 8, TextsBytes(texts) + tail);
    assert bytes == first + LeBytes(seconds, 8) + (TextsBytes(texts) + tail);
    TextsReadBack(head, texts, tail);
    TailReadsBack(head + TextsBytes(texts), access);
  }

  lemma V1IsLayout(bytes: Blob) returns (steamId: nat, seconds: nat, texts: seq<Text>, access: Option<Text>)
    requires HasMagic(bytes, MAGIC_V1) && |bytes| >= MAGIC_SIZE && ParseV1(bytes).Some?
    ensures V1Fits(steamId, seconds, texts, access) && bytes == V1Bytes(steamId, seconds, texts, access)
    ensures steamId == LeValue(bytes[MAGIC_SIZE..MAGIC_SIZE + 8]) && seconds == SecondsAt(bytes, MAGIC_SIZE + 8)
    ensures ParseV1(bytes) == Some(V1Session(steamId, seconds, texts, access))
  {
    hide LeBytes, LeValue, TextsBytes, TailBytes, ParseTexts, ParseTail, TicksOf, ToDecimal;
    Powers();
    var first, middle := MAGIC_SIZE + 8, MAGIC_SIZE + 16;
    var read := ParseTexts(bytes, middle, 2);
    steamId, seconds, texts := LeValue(bytes[MAGIC_SIZE..first]), LeValue(bytes[first..middle]), read.value;
    LeBytesOfValue(bytes[MAGIC_SIZE..first]);
    LeBytesOfValue(bytes[first..middle]);
    TextsAreCanonical(bytes, middle, 2);
    access := TailIsLayout(bytes, read.next);
    assert bytes == bytes[..MAGIC_SIZE] + bytes[MAGIC_SIZE..first] + bytes[first..middle] + bytes[middle..read.next]
                    + bytes[read.next..];
  }

  /** A V1 blob migrates without loss: the Steam id comes back out of the subject id, and saving the session as a
      repository and loading it gives the same single session, with its time if that was in range. */
  lemma V1Migrates(bytes: Blob)
    requires HasMagic(bytes, MAGIC_V1) && DecodedSession(bytes).Some?
    ensures |bytes| >= MAGIC_SIZE + 16
    ensures var session := DecodedSession(bytes).value;
            && session.provider == LEGACY_V1_PROVIDER
            && ParseWholeU64(session.subjectId) == Some(LeValue(bytes[12..20]))
            && DecodedRepository(EncodedRepository([session])) == Some([Stored(session)])
            && (Representable(SecondsAt(bytes, 20)) ==> Stored(session) == session)
  {
    hide LeValue, Normalized, ToDecimal, WholeSeconds, TicksOf;
    var session := DecodedSession(bytes).value;
    var steamId, seconds, texts, access := V1IsLayout(bytes);
    DecimalRoundTrips(steamId);
    U64HasTwentyDigits(steamId);
    SingleIsSaved(session);
    if Representable(seconds) {
      WholeTimeIsKept(seconds);
    }
  }

  // ---------------------------------------------------------------- Stores

  /** The same result at another place. */
  function Moved<T>(r: Parsed<T>, distance: nat): Parsed<T> {
    match r
    case Failed => Failed
    case Parsed(value, next) => Parsed(value, next + distance)
  }

  lemma NumberMoves(pre: Blob, body: Blob, offset: nat, width: nat)
    requires offset <= |body|
    ensures ParseNumber(pre + body, |pre| + offset, width) == Moved(ParseNumber(body, offset, width), |pre|)
  {
    if offset + width <= |body| {
      assert (pre + body)[|pre| + offset..|pre| + offset + width] == body[offset..offset + width];
    }
  }

  lemma TextMoves(pre: Blob, body: Blob, offset: nat)
    requires offset <= |body|
    ensures ParseText(pre + body, |pre| + offset) == Moved(ParseText(body, offset), |pre|)
  {
    hide LeValue;
    NumberMoves(pre, body, offset, 4);
    if ParseText(body, offset).Parsed? {
      var next := ParseText(body, offset).next;
      assert (pre + body)[|pre| + offset + 4..|pre| + next] == body[offset + 4..next];
    }
  }

  lemma {:induction false} TextsMove(pre: Blob, body: Blob, offset: nat, count: nat)
    requires offset <= |body|
    ensures ParseTexts(pre + body, |pre| + offset, count) == Moved(ParseTexts(body, offset, count), |pre|)
  {
    hide ParseText;
    if count > 0 {
      TextsMove(pre, body, offset, count - 1);
      var before := ParseTexts(body, offset, count - 1);
      if before.Parsed? {
        TextMoves(pre, body, before.next);
      }
    }
  }

  lemma SessionMoves(pre: Blob, body: Blob, offset: nat)
    requires offset <= |body|
    ensures ParseSession(pre + body, |pre| + offset) == Moved(ParseSession(body, offset), |pre|)
  {
    hide ParseTexts, LeValue, TicksOf;
    NumberMoves(pre, body, offset, 8);
    if offset + 8 <= |body| {
      TextsMove(pre, body, offset + 8, 6);
    }
  }

  lemma {:induction false} SessionsMove(pre: Blob, body: Blob, offset: nat, count: nat)
    requires offset <= |body|
    ensures ParseSessions(pre + body, |pre| + offset, count) == Moved(ParseSessions(body, offset, count), |pre|)
  {
    hide ParseSession;
    if count > 0 {
      SessionsMove(pre, body, offset, count - 1);
      var before := ParseSessions(body, offset, count - 1);
      if before.Parsed? {
        SessionMoves(pre, body, before.next);
      }
    }
  }

  lemma StoreMoves(pre: Blob, body: Blob)
    ensures ParseStore(pre + body, |pre|) == ParseStore(body, 0)
  {
    hide ParseSessions, LeValue, Normalized;
    NumberMoves(pre, body, 0, 4);
    var count := ParseNumber(body, 0, 4);
    if count.Parsed? {
      SessionsMove(pre, body, count.next, count.value);
    }
  }

  /** A V1 store is two strings, which nothing is made of, and then what a V2 store is: the same sessions are
      decoded, and the same blobs refused. */
  lemma StoreV1IsStoreV2(bytes: Blob)
    requires HasMagic(bytes, MAGIC_STORE_V1)
    ensures var selected := ParseTexts(bytes, MAGIC_SIZE, 2);
            if selected.Failed? then DecodedRepository(bytes) == None
            else bytes[MAGIC_SIZE..] == TextsBytes(selected.value) + bytes[selected.next..]
                 && DecodedRepository(bytes) == DecodedRepository(MAGIC_STORE_V2 + bytes[selected.next..])
  {
    hide ParseStore, ParseTexts, TextsBytes, DecodedSession;
    var selected := ParseTexts(bytes, MAGIC_SIZE, 2);
    if selected.Parsed? {
      var body := bytes[selected.next..];
      TextsAreCanonical(bytes, MAGIC_SIZE, 2);
      assert bytes == bytes[..selected.next] + body;
      StoreMoves(bytes[..selected.next], body);
      StoreMoves(MAGIC_STORE_V2, body);
      assert bytes[MAGIC_SIZE..] == bytes[MAGIC_SIZE..selected.next] + body;
      assert (MAGIC_STORE_V2 + body)[..12] == MAGIC_STORE_V2;
    }
  }

  /** And any two strings may stand there. */
  lemma StoreV1ReadsBack(selected: seq<Text>, body: Blob)
    requires |selected| == 2 && TextsFit(selected)
    ensures DecodedRepository(MAGIC_STORE_V1 + TextsBytes(selected) + body) == DecodedRepository(MAGIC_STORE_V2 + body)
  {
    hide ParseStore, ParseTexts, TextsBytes, DecodedSession;
    var bytes := MAGIC_STORE_V1 + TextsBytes(selected) + body;
    TextsReadBack(MAGIC_STORE_V1, selected, body);
    assert bytes[..12] == MAGIC_STORE_V1;
    StoreV1IsStoreV2(bytes);
    assert bytes[MAGIC_SIZE + |TextsBytes(selected)|..] == body;
  }
}
