/** The session repository of src/core/session/auth_session.cpp and the account list of src/ffi/core.cpp. */
module AuthSessions {
  import opened Basics
  import opened Grouping

  /** Strings are byte strings, as in the program. */
  type Text = seq<byte>

  /** A clock reading: signed 64-bit ticks since the epoch. */
  type Ticks = t: int | -0x8000_0000_0000_0000 <= t < 0x8000_0000_0000_0000

  datatype AuthSessionKey = AuthSessionKey(provider: Text, subjectId: Text)

  datatype AuthSession = AuthSession(
    accountName: Text,
    refreshToken: Text,
    accessToken: Text,
    sessionType: Text,
    createdAt: Ticks,
    provider: Text,
    subjectId: Text)

  /** What two sessions must share to replace each other. */
  datatype Slot = Slot(provider: Text, subjectId: Text, sessionType: Text)

  predicate IsValid(session: AuthSession) {
    session.provider != [] && session.subjectId != [] && session.refreshToken != []
  }

  function KeyOf(session: AuthSession): AuthSessionKey { AuthSessionKey(session.provider, session.subjectId) }

  function SlotOf(session: AuthSession): Slot { Slot(session.provider, session.subjectId, session.sessionType) }

  predicate Always(x: AuthSession, y: AuthSession) { true }

  predicate NotOlder(x: AuthSession, y: AuthSession) { x.createdAt >= y.createdAt }

  // ---------------------------------------------------------------- What the operations compute

  function ValidOnes(sessions: seq<AuthSession>): seq<AuthSession> {
    if sessions == [] then []
    else ValidOnes(sessions[..|sessions| - 1])
         + (if IsValid(sessions[|sessions| - 1]) then [sessions[|sessions| - 1]] else [])
  }

  function Upserted(sessions: seq<AuthSession>, session: AuthSession): seq<AuthSession> {
    if IsValid(session) then Merge(sessions, SlotOf, Always, session) else sessions
  }

  function Normalized(sessions: seq<AuthSession>): seq<AuthSession> {
    MergeAll(ValidOnes(sessions), SlotOf, Always)
  }

  function Without(sessions: seq<AuthSession>, key: AuthSessionKey): seq<AuthSession> {
    if sessions == [] then []
    else Without(sessions[..|sessions| - 1], key)
         + (if KeyOf(sessions[|sessions| - 1]) == key then [] else [sessions[|sessions| - 1]])
  }

  predicate HasAccount(sessions: seq<AuthSession>, key: AuthSessionKey) {
    exists i :: 0 <= i < |sessions| && KeyOf(sessions[i]) == key
  }

  /** The newest session of an account; of several equally new ones the last. */
  function Latest(sessions: seq<AuthSession>, key: AuthSessionKey): Option<AuthSession> {
    Winner(sessions, KeyOf, NotOlder, key)
  }

  function Representatives(sessions: seq<AuthSession>): seq<AuthSession> {
    MergeAll(sessions, KeyOf, NotOlder)
  }

  // ---------------------------------------------------------------- The operations

  class AuthSessionRepository {
    var sessions: seq<AuthSession>

    constructor ()
      ensures sessions == []
    {
      sessions := [];
    }

    method Find(key: AuthSessionKey) returns (selected: Option<AuthSession>)
      ensures selected == Latest(sessions, key)
    {
      selected := None;
      for i := 0 to |sessions|
        invariant selected == Latest(sessions[..i], key)
      {
        var session := sessions[i];
        assert sessions[..i + 1][..i] == sessions[..i];
        if KeyOf(session) == key {
          if selected.None? || session.createdAt >= selected.value.createdAt {
            selected := Some(session);
          }
        }
      }
      assert sessions[..|sessions|] == sessions;
    }

    method Upsert(session: AuthSession)
      modifies this
      ensures sessions == Upserted(old(sessions), session)
    {
      if !IsValid(session) {
        return;
      }
      var found := 0;
      while found < |sessions| && SlotOf(sessions[found]) != SlotOf(session)
        invariant 0 <= found <= |sessions|
        invariant forall j :: 0 <= j < found ==> SlotOf(sessions[j]) != SlotOf(session)
      {
        found := found + 1;
      }
      if found == |sessions| {
        sessions := sessions + [session];
      } else {
        sessions := sessions[found := session];
      }
    }

    method Normalize()
      modifies this
      ensures sessions == Normalized(old(sessions))
    {
      hide Normalized, Upserted;
      var normalized := new AuthSessionRepository();
      NothingNormalized(sessions);
      for i := 0 to |sessions|
        invariant sessions == old(sessions) && fresh(normalized)
        invariant normalized.sessions == Normalized(sessions[..i])
      {
        NormalizedAppends(sessions[..i], sessions[i]);
        assert sessions[..i + 1] == sessions[..i] + [sessions[i]];
        normalized.Upsert(sessions[i]);
      }
      assert sessions[..|sessions|] == sessions;
      sessions := normalized.sessions;
    }

    /** Removes all sessions of the account and normalizes, but touches nothing when there is none. */
    method Remove(key: AuthSessionKey) returns (removed: bool)
      modifies this
      ensures removed <==> HasAccount(old(sessions), key)
      ensures sessions == if removed then Normalized(Without(old(sessions), key)) else old(sessions)
    {
      hide Normalized;
      var before := |sessions|;
      var kept: seq<AuthSession> := [];
      for i := 0 to |sessions|
        invariant sessions == old(sessions) && before == |sessions|
        invariant kept == Without(sessions[..i], key)
        invariant |kept| == i <==> !HasAccount(sessions[..i], key)
        invariant |kept| <= i && (|kept| == i ==> kept == sessions[..i])
      {
        assert sessions[..i + 1][..i] == sessions[..i];
        AccountInPrefix(sessions, i, key);
        if KeyOf(sessions[i]) != key {
          kept := kept + [sessions[i]];
        }
      }
      assert sessions[..|sessions|] == sessions;
      sessions := kept;
      if |sessions| == before {
        return false;
      }
      Normalize();
      return true;
    }
  }

  lemma AccountInPrefix(sessions: seq<AuthSession>, i: nat, key: AuthSessionKey)
    requires i < |sessions|
    ensures HasAccount(sessions[..i + 1], key) <==> HasAccount(sessions[..i], key) || KeyOf(sessions[i]) == key
  {
    var longer, shorter := sessions[..i + 1], sessions[..i];
    assert longer[i] == sessions[i];
    assert forall j :: 0 <= j < i ==> longer[j] == shorter[j];
  }

  lemma NothingNormalized(sessions: seq<AuthSession>)
    ensures Normalized(sessions[..0]) == []
  {}

  lemma NormalizedAppends(sessions: seq<AuthSession>, session: AuthSession)
    ensures Normalized(sessions + [session]) == Upserted(Normalized(sessions), session)
  {
    assert (sessions + [session])[..|sessions|] == sessions;
    if IsValid(session) {
      var valid := ValidOnes(sessions) + [session];
      assert valid[..|valid| - 1] == ValidOnes(sessions);
    } else {
      assert ValidOnes(sessions) + [] == ValidOnes(sessions);
    }
  }

  method AccountRepresentatives(sessions: seq<AuthSession>) returns (representatives: seq<AuthSession>)
    ensures representatives == Representatives(sessions)
  {
    representatives := [];
    for i := 0 to |sessions|
      invariant representatives == Representatives(sessions[..i])
    {
      var session := sessions[i];
      assert sessions[..i + 1][..i] == sessions[..i];
      var found := 0;
      while found < |representatives| && KeyOf(representatives[found]) != KeyOf(session)
        invariant 0 <= found <= |representatives|
        invariant forall j :: 0 <= j < found ==> KeyOf(representatives[j]) != KeyOf(session)
      {
        found := found + 1;
      }
      if found == |representatives| {
        representatives := representatives + [session];
      } else if session.createdAt >= representatives[found].createdAt {
        representatives := representatives[found := session];
      }
    }
    assert sessions[..|sessions|] == sessions;
  }

  // ---------------------------------------------------------------- Normal form

  /** One valid session per slot. */
  ghost predicate IsNormal(sessions: seq<AuthSession>) {
    (forall i :: 0 <= i < |sessions| ==> IsValid(sessions[i])) && DistinctKeys(sessions, SlotOf)
  }

  /** The valid sessions, in order. */
  lemma {:induction false} ValidOnesAreValid(sessions: seq<AuthSession>)
    ensures forall s :: s in ValidOnes(sessions) <==> s in sessions && IsValid(s)
  {
    if sessions != [] {
      ValidOnesAreValid(sessions[..|sessions| - 1]);
      assert sessions == sessions[..|sessions| - 1] + [sessions[|sessions| - 1]];
    }
  }

  lemma NormalizedIsNormal(sessions: seq<AuthSession>)
    ensures IsNormal(Normalized(sessions))
  {
    ValidOnesAreValid(sessions);
    MergeAllIsDistinct(ValidOnes(sessions), SlotOf, Always);
    assert forall i :: 0 <= i < |Normalized(sessions)| ==> Normalized(sessions)[i] in Normalized(sessions);
  }

  lemma {:induction false} AllValid(sessions: seq<AuthSession>)
    requires forall i :: 0 <= i < |sessions| ==> IsValid(sessions[i])
    ensures ValidOnes(sessions) == sessions
  {
    if sessions != [] {
      AllValid(sessions[..|sessions| - 1]);
      assert sessions == sessions[..|sessions| - 1] + [sessions[|sessions| - 1]];
    }
  }

  /** Normalizing changes nothing exactly when there is nothing to do; so it is idempotent. */
  lemma NormalizedIffNormal(sessions: seq<AuthSession>)
    ensures Normalized(sessions) == sessions <==> IsNormal(sessions)
    ensures Normalized(Normalized(sessions)) == Normalized(sessions)
  {
    NormalizedIsNormal(sessions);
    if IsNormal(sessions) {
      NormalIsFixed(sessions);
    }
    NormalIsFixed(Normalized(sessions));
  }

  lemma NormalIsFixed(sessions: seq<AuthSession>)
    requires IsNormal(sessions)
    ensures Normalized(sessions) == sessions
  {
    AllValid(sessions);
    DistinctIsMerged(sessions, SlotOf, Always);
  }

  /** Exactly one session per slot that a valid session has, in the order of the slots' first valid
      sessions, and each of them the slot's last valid session. */
  lemma NormalizedRepresents(sessions: seq<AuthSession>)
    ensures Represents(Normalized(sessions), ValidOnes(sessions), SlotOf, Always)
  {
    MergeAllRepresents(ValidOnes(sessions), SlotOf, Always);
  }

  lemma {:induction false} WinnerIsLast(sessions: seq<AuthSession>, slot: Slot) returns (i: nat)
    requires exists j :: 0 <= j < |sessions| && SlotOf(sessions[j]) == slot
    ensures i < |sessions| && SlotOf(sessions[i]) == slot && Winner(sessions, SlotOf, Always, slot) == Some(sessions[i])
    ensures forall j :: i < j < |sessions| ==> SlotOf(sessions[j]) != slot
  {
    var n := |sessions| - 1;
    if SlotOf(sessions[n]) == slot {
      i := n;
    } else {
      var j :| 0 <= j < |sessions| && SlotOf(sessions[j]) == slot;
      assert sessions[..n][j] == sessions[j];
      i := WinnerIsLast(sessions[..n], slot);
    }
  }

  lemma UpsertKeepsNormal(sessions: seq<AuthSession>, session: AuthSession)
    requires IsNormal(sessions)
    ensures IsNormal(Upserted(sessions, session))
    ensures IsValid(session) ==> session in Upserted(sessions, session)
  {
    if IsValid(session) {
      MergeKeepsDistinct(sessions, SlotOf, Always, session);
      var i := Position(sessions, SlotOf, SlotOf(session));
      assert Upserted(sessions, session)[i] == session;
    }
  }

  // ---------------------------------------------------------------- Lookups

  /** What a lookup finds is the newest of the account's sessions, and the last of the newest. */
  lemma {:induction false} LatestIsLatest(sessions: seq<AuthSession>, key: AuthSessionKey) returns (i: nat)
    ensures Latest(sessions, key).None? <==> !HasAccount(sessions, key)
    ensures HasAccount(sessions, key) ==>
              && i < |sessions| && KeyOf(sessions[i]) == key && Latest(sessions, key) == Some(sessions[i])
              && (forall j :: 0 <= j < |sessions| && KeyOf(sessions[j]) == key ==>
                  sessions[j].createdAt <= sessions[i].createdAt)
              && (forall j :: i < j < |sessions| && KeyOf(sessions[j]) == key ==>
                  sessions[j].createdAt < sessions[i].createdAt)
  {
    i := 0;
    if sessions != [] {
      var n := |sessions| - 1;
      AccountInPrefix(sessions, n, key);
      assert sessions[..n + 1] == sessions;
      var before := LatestIsLatest(sessions[..n], key);
      var newest := KeyOf(sessions[n]) == key
                    && (HasAccount(sessions[..n], key) ==> sessions[n].createdAt >= sessions[..n][before].createdAt);
      i := if newest then n else before;
      assert forall j :: 0 <= j < n ==> sessions[..n][j] == sessions[j];
    }
  }

  lemma {:induction false} RemovedLookups(sessions: seq<AuthSession>, key: AuthSessionKey, other: AuthSessionKey)
    ensures Latest(Without(sessions, key), other) == if other == key then None else Latest(sessions, other)
  {
    if sessions != [] {
      var n := |sessions| - 1;
      RemovedLookups(sessions[..n], key, other);
      if KeyOf(sessions[n]) == key {
        assert Without(sessions, key) == Without(sessions[..n], key);
      } else {
        assert Without(sessions, key)[..|Without(sessions, key)| - 1] == Without(sessions[..n], key);
      }
    }
  }

  lemma {:induction false} WithoutKeepsNormal(sessions: seq<AuthSession>, key: AuthSessionKey)
    requires IsNormal(sessions)
    ensures IsNormal(Without(sessions, key))
    ensures forall s :: s in Without(sessions, key) <==> s in sessions && KeyOf(s) != key
  {
    if sessions != [] {
      var n := |sessions| - 1;
      WithoutKeepsNormal(sessions[..n], key);
      assert sessions == sessions[..n] + [sessions[n]];
      var kept := Without(sessions[..n], key);
      forall i | 0 <= i < |kept| ensures SlotOf(kept[i]) != SlotOf(sessions[n]) {
        assert kept[i] in sessions[..n];
      }
    }
  }

  /** On a normal form, removing an account deletes its sessions and nothing else: the others keep their
      order, and every other account is looked up as before. */
  lemma RemoveFromNormal(sessions: seq<AuthSession>, key: AuthSessionKey, other: AuthSessionKey)
    requires IsNormal(sessions)
    ensures Normalized(Without(sessions, key)) == Without(sessions, key)
    ensures forall s :: s in Without(sessions, key) <==> s in sessions && KeyOf(s) != key
    ensures Latest(Without(sessions, key), other) == if other == key then None else Latest(sessions, other)
  {
    WithoutKeepsNormal(sessions, key);
    NormalIsFixed(Without(sessions, key));
    RemovedLookups(sessions, key, other);
  }

  /** Each entry of the account list is what a lookup of that account returns. */
  lemma RepresentativesAreLookups(sessions: seq<AuthSession>)
    ensures |Representatives(sessions)| == |FirstKeys(sessions, KeyOf)|
    ensures forall i :: 0 <= i < |Representatives(sessions)| ==>
              && KeyOf(Representatives(sessions)[i]) == FirstKeys(sessions, KeyOf)[i]
              && Latest(sessions, KeyOf(Representatives(sessions)[i])) == Some(Representatives(sessions)[i])
    ensures forall i, j :: 0 <= i < j < |Representatives(sessions)| ==>
              KeyOf(Representatives(sessions)[i]) != KeyOf(Representatives(sessions)[j])
    ensures forall key :: HasAccount(sessions, key) ==>
            exists i :: 0 <= i < |Representatives(sessions)| && KeyOf(Representatives(sessions)[i]) == key
  {
    MergeAllRepresents(sessions, KeyOf, NotOlder);
    FirstKeysOccur(sessions, KeyOf);
    forall key | HasAccount(sessions, key)
      ensures exists i :: 0 <= i < |Representatives(sessions)| && KeyOf(Representatives(sessions)[i]) == key
    {
      assert key in FirstKeys(sessions, KeyOf);
      var i :| 0 <= i < |FirstKeys(sessions, KeyOf)| && FirstKeys(sessions, KeyOf)[i] == key;
      assert KeyOf(Representatives(sessions)[i]) == key;
    }
  }

  /** An upsert is seen by lookups of its own account only. */
  lemma UpsertLookups(sessions: seq<AuthSession>, session: AuthSession, other: AuthSessionKey)
    requires other != KeyOf(session)
    ensures Latest(Upserted(sessions, session), other) == Latest(sessions, other)
  {
    if IsValid(session) {
      var i := Position(sessions, SlotOf, SlotOf(session));
      if i == |sessions| {
        assert (sessions + [session])[..|sessions|] == sessions;
      } else {
        ReplacedLookups(sessions, i, session, other);
      }
    }
  }

  lemma {:induction false} ReplacedLookups(sessions: seq<AuthSession>, i: nat, session: AuthSession,
                                           other: AuthSessionKey)
    requires i < |sessions| && KeyOf(sessions[i]) != other && KeyOf(session) != other
    ensures Latest(sessions[i := session], other) == Latest(sessions, other)
  {
    var n := |sessions| - 1;
    if i < n {
      assert sessions[i := session][..n] == sessions[..n][i := session];
      ReplacedLookups(sessions[..n], i, session, other);
    } else {
      assert sessions[i := session][..n] == sessions[..n];
    }
  }

  // ---------------------------------------------------------------- On the fields

  /** A lookup finds the newest, and last, of the sessions with this provider and this subject, if there is one. */
  lemma FoundByFields(sessions: seq<AuthSession>, provider: Text, subjectId: Text) returns (i: nat)
    ensures var found := Latest(sessions, AuthSessionKey(provider, subjectId));
            if found == None then
              forall j :: 0 <= j < |sessions| ==> sessions[j].provider != provider || sessions[j].subjectId != subjectId
            else
              i < |sessions| && found == Some(sessions[i])
              && sessions[i].provider == provider && sessions[i].subjectId == subjectId
              && forall j :: 0 <= j < |sessions| && sessions[j].provider == provider
                             && sessions[j].subjectId == subjectId ==>
                   sessions[j].createdAt < sessions[i].createdAt
                   || (sessions[j].createdAt == sessions[i].createdAt && j <= i)
  {
    i := LatestIsLatest(sessions, AuthSessionKey(provider, subjectId));
  }

  /** An upsert needs provider, subject and refresh token; it replaces the first session with the same provider,
      subject and type, or comes last. */
  lemma UpsertByFields(sessions: seq<AuthSession>, session: AuthSession) returns (i: nat)
    ensures session.provider == [] || session.subjectId == [] || session.refreshToken == [] ==>
              Upserted(sessions, session) == sessions
    ensures i <= |sessions|
    ensures forall j :: 0 <= j < i ==>
              (sessions[j].provider != session.provider || sessions[j].subjectId != session.subjectId
               || sessions[j].sessionType != session.sessionType)
    ensures i < |sessions| ==> sessions[i].provider == session.provider && sessions[i].subjectId == session.subjectId
                               && sessions[i].sessionType == session.sessionType
    ensures session.provider != [] && session.subjectId != [] && session.refreshToken != [] ==>
              Upserted(sessions, session) == if i == |sessions| then sessions + [session] else sessions[i := session]
  {
    i := Position(sessions, SlotOf, SlotOf(session));
    assert forall j :: 0 <= j < i ==> SlotOf(sessions[j]) != SlotOf(session);
  }

  /** No later session has a refresh token and the same provider, subject and type. */
  predicate NoneAfter(sessions: seq<AuthSession>, i: nat)
    requires i < |sessions|
  {
    forall j :: i < j < |sessions| && sessions[j].refreshToken != [] ==>
      (sessions[j].provider != sessions[i].provider || sessions[j].subjectId != sessions[i].subjectId
       || sessions[j].sessionType != sessions[i].sessionType)
  }

  /** A normal form has only given sessions with provider, subject and refresh token, no two of them with the same
      provider, subject and type; and of all such sessions the last with these three is there. */
  lemma NormalizedByFields(sessions: seq<AuthSession>)
    ensures forall s :: s in Normalized(sessions) ==>
              s in sessions && s.provider != [] && s.subjectId != [] && s.refreshToken != []
    ensures forall i, j :: 0 <= i < j < |Normalized(sessions)| ==>
              (Normalized(sessions)[i].provider != Normalized(sessions)[j].provider
               || Normalized(sessions)[i].subjectId != Normalized(sessions)[j].subjectId
               || Normalized(sessions)[i].sessionType != Normalized(sessions)[j].sessionType)
    ensures forall i :: 0 <= i < |sessions| && sessions[i].provider != [] && sessions[i].subjectId != []
                        && sessions[i].refreshToken != [] && NoneAfter(sessions, i) ==>
              sessions[i] in Normalized(sessions)
  {
    hide Normalized;
    NormalizedIsNormal(sessions);
    NormalizedHasGiven(sessions);
    var normal := Normalized(sessions);
    assert forall i, j :: 0 <= i < j < |normal| ==> SlotOf(normal[i]) != SlotOf(normal[j]);
    forall i | 0 <= i < |sessions| && IsValid(sessions[i]) && NoneAfter(sessions, i) ensures sessions[i] in normal {
      LastIsKept(sessions, i);
    }
  }

  lemma NormalizedHasGiven(sessions: seq<AuthSession>)
    ensures forall s :: s in Normalized(sessions) ==> s in sessions && IsValid(s)
  {
    ValidOnesAreValid(sessions);
    MergeAllIsDistinct(ValidOnes(sessions), SlotOf, Always);
  }

  lemma {:induction false} LastIsKept(sessions: seq<AuthSession>, i: nat)
    requires i < |sessions| && IsValid(sessions[i])
    requires forall j :: i < j < |sessions| && IsValid(sessions[j]) ==> SlotOf(sessions[j]) != SlotOf(sessions[i])
    ensures sessions[i] in Normalized(sessions)
  {
    hide Normalized, IsValid, SlotOf;
    var n := |sessions| - 1;
    assert sessions == sessions[..n] + [sessions[n]];
    NormalizedAppends(sessions[..n], sessions[n]);
    if i == n {
      NormalizedIsNormal(sessions[..n]);
      UpsertKeepsNormal(Normalized(sessions[..n]), sessions[n]);
    } else {
      LastIsKept(sessions[..n], i);
      OthersAreKept(Normalized(sessions[..n]), sessions[n], sessions[i]);
    }
  }

  lemma OthersAreKept(sessions: seq<AuthSession>, session: AuthSession, other: AuthSession)
    requires other in sessions && (IsValid(session) ==> SlotOf(session) != SlotOf(other))
    ensures other in Upserted(sessions, session)
  {
    if IsValid(session) {
      var k :| 0 <= k < |sessions| && sessions[k] == other;
      assert Upserted(sessions, session)[k] == other;
    }
  }

  /** Removing keeps exactly what differs in provider or subject, and tells if there was anything else. */
  lemma RemovalByFields(sessions: seq<AuthSession>, provider: Text, subjectId: Text)
    ensures var key := AuthSessionKey(provider, subjectId);
            && (HasAccount(sessions, key)
                <==> exists i :: 0 <= i < |sessions| && sessions[i].provider == provider
                                 && sessions[i].subjectId == subjectId)
            && forall s :: s in Without(sessions, key) <==>
                           s in sessions && (s.provider != provider || s.subjectId != subjectId)
  {
    WithoutFilters(sessions, AuthSessionKey(provider, subjectId));
  }

  lemma {:induction false} WithoutFilters(sessions: seq<AuthSession>, key: AuthSessionKey)
    ensures forall s :: s in Without(sessions, key) <==> s in sessions && KeyOf(s) != key
  {
    if sessions != [] {
      WithoutFilters(sessions[..|sessions| - 1], key);
      assert sessions == sessions[..|sessions| - 1] + [sessions[|sessions| - 1]];
    }
  }

  /** The account list has no two entries with the same provider and subject, and for every session one with its
      provider and subject that is not older. */
  lemma AccountsByFields(sessions: seq<AuthSession>)
    ensures var accounts := Representatives(sessions);
            && (forall i, j :: 0 <= i < j < |accounts| ==>
                  accounts[i].provider != accounts[j].provider || accounts[i].subjectId != accounts[j].subjectId)
            && forall s :: s in sessions ==>
                 exists i :: 0 <= i < |accounts| && accounts[i].provider == s.provider
                             && accounts[i].subjectId == s.subjectId && accounts[i].createdAt >= s.createdAt
  {
    hide Representatives;
    RepresentativesAreLookups(sessions);
    var accounts := Representatives(sessions);
    assert forall i, j :: 0 <= i < j < |accounts| ==> KeyOf(accounts[i]) != KeyOf(accounts[j]);
    forall s | s in sessions
      ensures exists i :: 0 <= i < |accounts| && accounts[i].provider == s.provider
                          && accounts[i].subjectId == s.subjectId && accounts[i].createdAt >= s.createdAt
    {
      var k :| 0 <= k < |sessions| && sessions[k] == s;
      assert HasAccount(sessions, KeyOf(s));
      var i :| 0 <= i < |accounts| && KeyOf(accounts[i]) == KeyOf(s);
      var found := LatestIsLatest(sessions, KeyOf(s));
    }
  }
}
