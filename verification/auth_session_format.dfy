/** The session formats byte by byte: every string stands in its place, after its length, and every number with its
    lowest byte first. */
module AuthSessionFormat {
  import opened Basics
  import opened Decimal
  import opened AuthSessions
  import opened AuthSessionCodec
  import opened AuthSessionLayouts

  function FourBytes(n: nat): Blob { [n % 256, n / 0x100 % 256, n / 0x1_0000 % 256, n / 0x100_0000 % 256] }

  function EightBytes(n: nat): Blob { FourBytes(n) + FourBytes(n / 0x1_0000_0000) }

  /** A string, after its length. */
  function Field(text: Text): Blob { FourBytes(|text|) + text }

  lemma LeBytesUnfold(n: nat, width: nat)
    ensures LeBytes(n, width + 1) == [n % 256] + LeBytes(n / 256, width)
    ensures LeBytes(n, 0) == []
  {}

  lemma FourLittleEndian(n: nat, width: nat)
    ensures LeBytes(n, width + 4) == FourBytes(n) + LeBytes(n / 0x1_0000_0000, width)
  {
    hide LeBytes;
    DivideTwice(n, 0x100, 0x100);
    DivideTwice(n, 0x1_0000, 0x100);
    DivideTwice(n, 0x100_0000, 0x100);
    LeBytesUnfold(n, width + 3);
    LeBytesUnfold(n / 0x100, width + 2);
    LeBytesUnfold(n / 0x1_0000, width + 1);
    LeBytesUnfold(n / 0x100_0000, width);
  }

  lemma FourAreLeBytes(n: nat)
    ensures LeBytes(n, 4) == FourBytes(n)
  {
    hide LeBytes, FourBytes;
    FourLittleEndian(n, 0);
    LeBytesUnfold(n / 0x1_0000_0000, 0);
  }

  lemma EightAreLeBytes(n: nat)
    ensures LeBytes(n, 8) == EightBytes(n)
  {
    hide LeBytes, FourBytes;
    FourLittleEndian(n, 4);
    FourAreLeBytes(n / 0x1_0000_0000);
  }

  lemma OneMoreField(texts: seq<Text>, text: Text)
    ensures TextsBytes(texts + [text]) == TextsBytes(texts) + Field(text)
  {
    hide LeBytes, FourBytes;
    FourAreLeBytes(|text|);
    assert (texts + [text])[..|texts|] == texts;
  }

  lemma SixFields(a: Text, b: Text, c: Text, d: Text, e: Text, f: Text)
    ensures TextsBytes([a, b, c, d, e, f]) == Field(a) + Field(b) + Field(c) + Field(d) + Field(e) + Field(f)
  {
    hide TextsBytes, Field;
    NoFields();
    assert [] + [a] == [a] && [a] + [b] == [a, b] && [a, b] + [c] == [a, b, c] && [a, b, c] + [d] == [a, b, c, d];
    assert [a, b, c, d] + [e] == [a, b, c, d, e] && [a, b, c, d, e] + [f] == [a, b, c, d, e, f];
    assert [] + Field(a) == Field(a);
    OneMoreField([], a);
    OneMoreField([a], b);
    OneMoreField([a, b], c);
    OneMoreField([a, b, c], d);
    OneMoreField([a, b, c, d], e);
    OneMoreField([a, b, c, d, e], f);
  }

  lemma NoFields()
    ensures TextsBytes([]) == []
  {}

  /** A blob of a single session, in whatever format, is a repository of that session. */
  lemma SingleIsRepository(bytes: Blob)
    requires |bytes| >= 12 && bytes[5] == 83
    ensures DecodedRepository(bytes)
         == if DecodedSession(bytes) == None then None else Some([DecodedSession(bytes).value])
  {
    hide DecodedSession, ParseStore, ParseTexts;
    assert bytes[..12][5] == 83;
  }

  // ---------------------------------------------------------------- The present format

  /** The seconds, and the strings of a session in the order of the format. */
  function SessionLayout(seconds: nat, provider: Text, subjectId: Text, accountName: Text, refreshToken: Text,
                         accessToken: Text, sessionType: Text): Blob {
    EightBytes(seconds)
    + (Field(provider) + Field(subjectId) + Field(accountName) + Field(refreshToken) + Field(accessToken)
       + Field(sessionType))
  }

  /** "CAUTHSESS3\r\n" */
  const SESSION_3: Blob := [67, 65, 85, 84, 72, 83, 69, 83, 83, 51, 13, 10]

  /** A session is written with each of its strings in its place. */
  lemma EncodedByFields(session: AuthSession)
    ensures SessionBytes(session)
         == SessionLayout(ToUnsigned(WholeSeconds(session.createdAt)), session.provider, session.subjectId,
                          session.accountName, session.refreshToken, session.accessToken, session.sessionType)
  {
    hide LeBytes, TextsBytes, Field, EightBytes;
    EightAreLeBytes(ToUnsigned(WholeSeconds(session.createdAt)));
    SixFields(session.provider, session.subjectId, session.accountName, session.refreshToken, session.accessToken,
              session.sessionType);
  }

  /** What has the layout is read with each of the strings in its field, if it has a provider, a subject and a refresh
      token; else it is refused. */
  lemma V3ReadsBack(seconds: nat, provider: Text, subjectId: Text, accountName: Text, refreshToken: Text,
                    accessToken: Text, sessionType: Text)
    requires seconds < TWO_64 && TextsFit([provider, subjectId, accountName, refreshToken, accessToken, sessionType])
    ensures var bytes := SESSION_3 + SessionLayout(seconds, provider, subjectId, accountName, refreshToken, accessToken,
                                                   sessionType);
            var r := DecodedSession(bytes);
            DecodedRepository(bytes) == (if r == None then None else Some([r.value]))
            && if provider == [] || subjectId == [] || refreshToken == [] then r == None
               else r.Some? && r.value.provider == provider && r.value.subjectId == subjectId
                    && r.value.accountName == accountName && r.value.refreshToken == refreshToken
                    && r.value.accessToken == accessToken && r.value.sessionType == sessionType
                    && r.value.createdAt == TicksOf(seconds)
  {
    hide LeBytes, TextsBytes, Field, EightBytes, ParseTexts, ParseNumber, TicksOf;
    Powers();
    var texts := [provider, subjectId, accountName, refreshToken, accessToken, sessionType];
    var head := SESSION_3 + LeBytes(seconds, 8);
    var bytes := head + TextsBytes(texts);
    EightAreLeBytes(seconds);
    SixFields(provider, subjectId, accountName, refreshToken, accessToken, sessionType);
    assert bytes == SESSION_3 + (LeBytes(seconds, 8) + TextsBytes(texts));
    assert bytes == head + TextsBytes(texts) + [];
    NumberReadsBack(SESSION_3, seconds, 8, TextsBytes(texts));
    TextsReadBack(head, texts, []);
    assert bytes[..12] == SESSION_3;
    SingleIsRepository(bytes);
    hide DecodedRepository;
  }

  /** And every session blob of the present format that is accepted has the layout. */
  lemma V3IsLayout(bytes: Blob)
    requires HasMagic(bytes, SESSION_3) && DecodedSession(bytes).Some?
    ensures var session := DecodedSession(bytes).value;
            |bytes| >= 20
            && session.createdAt == TicksOf(SecondsAt(bytes, 12))
            && bytes == SESSION_3 + SessionLayout(SecondsAt(bytes, 12), session.provider, session.subjectId,
                                                  session.accountName, session.refreshToken, session.accessToken,
                                                  session.sessionType)
  {
    hide LeBytes, LeValue, TextsBytes, Field, EightBytes, ParseTexts, TicksOf;
    var session := DecodedSession(bytes).value;
    var seconds, texts := SecondsAt(bytes, 12), ParseTexts(bytes, 20, 6).value;
    LeBytesOfValue(bytes[12..20]);
    TextsAreCanonical(bytes, 20, 6);
    EightAreLeBytes(seconds);
    assert texts == [session.provider, session.subjectId, session.accountName, session.refreshToken,
                     session.accessToken, session.sessionType];
    SixFields(session.provider, session.subjectId, session.accountName, session.refreshToken, session.accessToken,
              session.sessionType);
    assert bytes == bytes[..12] + (bytes[12..20] + bytes[20..|bytes|]);
  }

  // ---------------------------------------------------------------- Older formats

  /** "CAUTHSESS2\r\n" and "CAUTHSESS1\r\n" */
  const SESSION_2: Blob := [67, 65, 85, 84, 72, 83, 69, 83, 83, 50, 13, 10]
  const SESSION_1: Blob := [67, 65, 85, 84, 72, 83, 69, 83, 83, 49, 13, 10]

  // "steam"
  const STEAM: Text := [115, 116, 101, 97, 109]

  function LastField(access: Option<Text>): Blob { if access == None then [] else Field(access.value) }

  /** The format before: there is no type, and the access token may be missing. */
  lemma V2ByFields(seconds: nat, provider: Text, subjectId: Text, accountName: Text, refreshToken: Text,
                   access: Option<Text>)
    requires seconds < TWO_64 && TextsFit([provider, subjectId, accountName, refreshToken]) && TailFits(access)
    ensures var bytes := SESSION_2 + EightBytes(seconds)
                         + (Field(provider) + Field(subjectId) + Field(accountName) + Field(refreshToken))
                         + LastField(access);
            var r := DecodedSession(bytes);
            DecodedRepository(bytes) == (if r == None then None else Some([r.value]))
            && if provider == [] || subjectId == [] || refreshToken == [] then r == None
               else r.Some? && r.value.provider == provider && r.value.subjectId == subjectId
                    && r.value.accountName == accountName && r.value.refreshToken == refreshToken
                    && r.value.accessToken == (if access == None then [] else access.value) && r.value.sessionType == []
                    && r.value.createdAt == TicksOf(seconds)
  {
    hide Field, EightBytes, TicksOf, TextsBytes, LeBytes, ParseV1, ParseV2, ParseV3;
    var texts := [provider, subjectId, accountName, refreshToken];
    EightAreLeBytes(seconds);
    FourFields(provider, subjectId, accountName, refreshToken);
    LastIsTail(access);
    V2ReadsBack(seconds, texts, access);
    var bytes := V2Bytes(seconds, texts, access);
    assert bytes[..12] == SESSION_2 && bytes[9] == 50;
    SingleIsRepository(bytes);
    hide DecodedRepository;
  }

  /** The first format: it has a Steam id in place of provider and subject. */
  lemma V1ByFields(steamId: nat, seconds: nat, accountName: Text, refreshToken: Text, access: Option<Text>)
    requires steamId <= MAX_U64 && seconds < TWO_64 && TextsFit([accountName, refreshToken]) && TailFits(access)
    ensures var bytes := SESSION_1 + EightBytes(steamId) + EightBytes(seconds)
                         + (Field(accountName) + Field(refreshToken)) + LastField(access);
            var r := DecodedSession(bytes);
            DecodedRepository(bytes) == (if r == None then None else Some([r.value]))
            && if refreshToken == [] then r == None
               else r.Some? && r.value.provider == STEAM && r.value.subjectId == ToDecimal(steamId)
                    && r.value.accountName == accountName && r.value.refreshToken == refreshToken
                    && r.value.accessToken == (if access == None then [] else access.value) && r.value.sessionType == []
                    && r.value.createdAt == TicksOf(seconds)
  {
    hide Field, EightBytes, TicksOf, TextsBytes, LeBytes, ParseV1, ParseV2, ParseV3, ToDecimal;
    var texts := [accountName, refreshToken];
    EightAreLeBytes(seconds);
    EightAreLeBytes(steamId);
    TwoFields(accountName, refreshToken);
    LastIsTail(access);
    V1ReadsBack(steamId, seconds, texts, access);
    var bytes := V1Bytes(steamId, seconds, texts, access);
    assert bytes[..12] == SESSION_1 && bytes[9] == 49;
    SingleIsRepository(bytes);
    hide DecodedRepository;
    DecimalIsNotEmpty(steamId);
  }

  lemma DecimalIsNotEmpty(n: nat)
    ensures ToDecimal(n) != []
  {}

  lemma LastIsTail(access: Option<Text>)
    ensures LastField(access) == TailBytes(access)
  {
    hide FourBytes, LeBytes;
    if access.Some? {
      FourAreLeBytes(|access.value|);
    }
  }

  lemma FourFields(a: Text, b: Text, c: Text, d: Text)
    ensures TextsBytes([a, b, c, d]) == Field(a) + Field(b) + Field(c) + Field(d)
  {
    hide TextsBytes, Field;
    NoFields();
    assert [] + [a] == [a] && [a] + [b] == [a, b] && [a, b] + [c] == [a, b, c] && [a, b, c] + [d] == [a, b, c, d];
    assert [] + Field(a) == Field(a);
    OneMoreField([], a);
    OneMoreField([a], b);
    OneMoreField([a, b], c);
    OneMoreField([a, b, c], d);
  }

  lemma TwoFields(a: Text, b: Text)
    ensures TextsBytes([a, b]) == Field(a) + Field(b)
  {
    hide TextsBytes, Field;
    NoFields();
    assert [] + [a] == [a] && [a] + [b] == [a, b];
    assert [] + Field(a) == Field(a);
    OneMoreField([], a);
    OneMoreField([a], b);
  }

  // ---------------------------------------------------------------- Stores

  /** "CAUTHACCT2\r\n" */
  const STORE_2: Blob := [67, 65, 85, 84, 72, 65, 67, 67, 84, 50, 13, 10]

  function SessionsLayout(sessions: seq<AuthSession>): Blob {
    if sessions == [] then []
    else
      var session := sessions[0];
      SessionLayout(ToUnsigned(WholeSeconds(session.createdAt)), session.provider, session.subjectId,
                    session.accountName, session.refreshToken, session.accessToken, session.sessionType)
      + SessionsLayout(sessions[1..])
  }

  lemma {:induction false} SessionsLaidOut(sessions: seq<AuthSession>, last: AuthSession)
    ensures SessionsLayout(sessions + [last]) == SessionsLayout(sessions) + SessionBytes(last)
  {
    hide SessionBytes, SessionLayout, WholeSeconds, ToUnsigned;
    EncodedByFields(last);
    if sessions == [] {
      assert [] + [last] == [last] && [last][1..] == [];
      assert SessionBytes(last) + [] == [] + SessionBytes(last);
    } else {
      SessionsLaidOut(sessions[1..], last);
      assert (sessions + [last])[1..] == sessions[1..] + [last];
      EncodedByFields(sessions[0]);
      var first := SessionBytes(sessions[0]);
      assert first + (SessionsLayout(sessions[1..]) + SessionBytes(last))
          == first + SessionsLayout(sessions[1..]) + SessionBytes(last);
    }
  }

  lemma {:induction false} SessionsByFields(sessions: seq<AuthSession>)
    ensures SessionsBytes(sessions) == SessionsLayout(sessions)
  {
    hide SessionBytes, SessionLayout, WholeSeconds, ToUnsigned;
    if sessions != [] {
      var before, last := sessions[..|sessions| - 1], sessions[|sessions| - 1];
      SessionsByFields(before);
      SessionsLaidOut(before, last);
      assert sessions == before + [last];
    }
  }

  /** A store is written as its magic, the number of sessions and the sessions in order; and if they are at most 1024,
      it is read as they are, but for the fractions of seconds. */
  lemma StoreByFields(sessions: seq<AuthSession>)
    requires IsNormal(sessions) && AllFit(sessions)
    ensures EncodedRepository(sessions) == STORE_2 + FourBytes(|sessions|) + SessionsLayout(sessions)
    ensures DecodedRepository(STORE_2 + FourBytes(|sessions|) + SessionsLayout(sessions))
         == if |sessions| <= 1024 then Some(AllStored(sessions)) else None
  {
    hide SessionsBytes, SessionsLayout, LeBytes, FourBytes, IsNormal, Normalized, ParseStore;
    NormalizedIffNormal(sessions);
    FourAreLeBytes(|sessions|);
    SessionsByFields(sessions);
    EncodedStoreParses(sessions);
    RepositoryBytesHaveMagic(sessions);
  }

  /** "CAUTHACCT1\r\n" */
  const STORE_1: Blob := [67, 65, 85, 84, 72, 65, 67, 67, 84, 49, 13, 10]

  /** The older store names an account first, which nothing is made of. */
  lemma StoreV1ByFields(provider: Text, subjectId: Text, body: Blob)
    requires TextsFit([provider, subjectId])
    ensures DecodedRepository(STORE_1 + (Field(provider) + Field(subjectId)) + body)
         == DecodedRepository(STORE_2 + body)
  {
    hide Field, TextsBytes, DecodedRepository;
    TwoFields(provider, subjectId);
    StoreV1ReadsBack([provider, subjectId], body);
  }

  // ---------------------------------------------------------------- An example

  // "1", "alice" and "tok"
  const ONE: Text := [49]
  const ALICE: Text := [97, 108, 105, 99, 101]
  const TOK: Text := [116, 111, 107]

  lemma FieldExamples()
    ensures Field(STEAM) == [5, 0, 0, 0, 115, 116, 101, 97, 109]
    ensures Field(ONE) == [1, 0, 0, 0, 49]
    ensures Field(ALICE) == [5, 0, 0, 0, 97, 108, 105, 99, 101]
    ensures Field(TOK) == [3, 0, 0, 0, 116, 111, 107]
    ensures Field([]) == [0, 0, 0, 0]
    ensures EightBytes(258) == [2, 1, 0, 0, 0, 0, 0, 0]
  {}

  /** Provider "steam", subject "1", account name "alice" and refresh token "tok", 258 seconds after the epoch. */
  lemma V3Example()
    ensures DecodedSession([67, 65, 85, 84, 72, 83, 69, 83, 83, 51, 13, 10] + ([2, 1, 0, 0, 0, 0, 0, 0]
              + ([5, 0, 0, 0, 115, 116, 101, 97, 109] + [1, 0, 0, 0, 49] + [5, 0, 0, 0, 97, 108, 105, 99, 101]
                 + [3, 0, 0, 0, 116, 111, 107] + [0, 0, 0, 0] + [0, 0, 0, 0])))
            == Some(AuthSession(accountName := ALICE, refreshToken := TOK, accessToken := [], sessionType := [],
                                createdAt := TicksOf(258), provider := STEAM, subjectId := ONE))
  {
    hide Field, EightBytes, DecodedSession, TicksOf;
    FieldExamples();
    V3ReadsBack(258, STEAM, ONE, ALICE, TOK, [], []);
  }
}
