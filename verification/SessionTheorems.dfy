/**
 What every run of refreshes, revocations and logins keeps: sessions only lose
 validity, a replaced token is dead, and a shut gate stays shut.
 */
module SessionTheorems {
  import opened Prelude
  import opened Sessions

  lemma {:induction false} PrefixIsRun(es: seq<Event>, n: nat)
    requires IsRun(es) && n <= |es|
    ensures IsRun(es[..n])
    decreases |es|
  {
    if n == |es| {
      assert es[..n] == es;
    } else {
      PrefixIsRun(Init(es), n);
      assert Init(es)[..n] == es[..n];
    }
  }

  lemma StepAt(es: seq<Event>, i: nat)
    requires IsRun(es) && i < |es|
    ensures IsRun(es[..i]) && IsRun(es[..i + 1])
    ensures Enabled(After(es[..i]), es[i])
    ensures After(es[..i + 1]) == Step(After(es[..i]), es[i])
  {
    PrefixIsRun(es, i);
    PrefixIsRun(es, i + 1);
    assert Init(es[..i + 1]) == es[..i];
  }

  /** The state after the first `n` events. */
  function StateAt(es: seq<Event>, n: nat): State
    requires IsRun(es) && n <= |es|
  {
    PrefixIsRun(es, n);
    After(es[..n])
  }

  lemma ExtendRun(es: seq<Event>, e: Event)
    ensures IsRun(es + [e]) <==> IsRun(es) && Enabled(After(es), e)
    ensures IsRun(es + [e]) ==> After(es + [e]) == Step(After(es), e)
  {
    assert Init(es + [e]) == es;
  }

  // ---------------------------------------------------------------------
  // Sessions only ever lose validity
  // ---------------------------------------------------------------------

  /** A session stays, keeps its user and its expiry, and its revocation. */
  lemma {:induction false} SessionOnward(es: seq<Event>, i: nat, j: nat, sid: SessionId)
    requires IsRun(es) && i <= j <= |es| && sid in StateAt(es, i).sessions
    ensures var before := StateAt(es, i).sessions[sid];
            && sid in StateAt(es, j).sessions
            && StateAt(es, j).sessions[sid].user == before.user
            && StateAt(es, j).sessions[sid].expiresAt == before.expiresAt
            && (before.revoked ==> StateAt(es, j).sessions[sid].revoked)
    decreases j - i
  {
    if i < j {
      SessionOnward(es, i, j - 1, sid);
      StepAt(es, j - 1);
    }
  }

  /**
   A revoked session never becomes active again, nor does an expired one unless
   the clock is set back; no refresh, nor anything else, moves its expiry or user.
   */
  lemma InactiveForever(es: seq<Event>, i: nat, j: nat, sid: SessionId)
    requires IsRun(es) && i <= j <= |es| && sid in StateAt(es, i).sessions
    ensures sid in StateAt(es, j).sessions
    ensures StateAt(es, j).sessions[sid].expiresAt == StateAt(es, i).sessions[sid].expiresAt
    ensures StateAt(es, j).sessions[sid].user == StateAt(es, i).sessions[sid].user
    ensures StateAt(es, i).sessions[sid].revoked ==> StateAt(es, j).sessions[sid].revoked
    ensures StateAt(es, i).now <= StateAt(es, j).now && IsActive(StateAt(es, j).sessions[sid], StateAt(es, j).now)
      ==> IsActive(StateAt(es, i).sessions[sid], StateAt(es, i).now)
  {
    SessionOnward(es, i, j, sid);
  }

  /**
   A refresh that overtakes a revocation still completes, but gives the client a
   token that opens nothing: rotation leaves the session exactly as active as it was.
   */
  lemma RotationNeverRevives(s: State, r: RequestId, token: Token)
    requires Enabled(s, Rotate(r, token)) && s.refreshes[r].session in s.sessions
    ensures var sid := s.refreshes[r].session; var s' := Step(s, Rotate(r, token));
            && (IsActive(s'.sessions[sid], s'.now) <==> IsActive(s.sessions[sid], s.now))
            && forall q :: q !in s'.refreshes ==>
                 (Enabled(s', Find(q, sid, token)) <==> IsActive(s.sessions[sid], s.now))
  {
  }

  // ---------------------------------------------------------------------
  // Tokens
  // ---------------------------------------------------------------------

  /** A session has one valid token, and no token is valid for two sessions. */
  ghost predicate TokensOk(s: State) {
    && (forall sid :: sid in s.sessions ==> s.sessions[sid].hash in s.issued)
    && (forall a, b :: a in s.sessions && b in s.sessions && a != b ==> s.sessions[a].hash != s.sessions[b].hash)
  }

  lemma TokensStep(s: State, e: Event)
    requires TokensOk(s) && Enabled(s, e)
    ensures TokensOk(Step(s, e))
  {
  }

  lemma {:induction false} RunTokens(es: seq<Event>)
    requires IsRun(es)
    ensures TokensOk(After(es))
  {
    if es != [] {
      RunTokens(Init(es));
      TokensStep(After(Init(es)), Last(es));
    }
  }

  // ---------------------------------------------------------------------
  // When a refresh finds a session
  // ---------------------------------------------------------------------

  /** The event revokes the session of that user. */
  predicate Revokes(e: Event, sid: SessionId, user: Option<UserId>) {
    e == Revoke(sid) || (user.Some? && e == RevokeAll(user.value))
  }

  /** The event replaces the session's token. */
  predicate RotatesAt(es: seq<Event>, k: nat, sid: SessionId)
    requires IsRun(es) && k < |es|
  {
    es[k].Rotate? && es[k].r in StateAt(es, k).refreshes
    && StateAt(es, k).refreshes[es[k].r].Cleared? && StateAt(es, k).refreshes[es[k].r].session == sid
  }

  /** The token last given to a session that was opened at `i`. */
  function LatestToken(es: seq<Event>, i: nat, n: nat): Token
    requires IsRun(es) && i < n <= |es| && es[i].Open?
    decreases n
  {
    if n == i + 1 then es[i].token
    else if RotatesAt(es, n - 1, es[i].session) then es[n - 1].token
    else LatestToken(es, i, n - 1)
  }

  /** One event: a session keeps its user and its expiry; a rotation or a revocation may reach it. */
  lemma SessionMoves(es: seq<Event>, m: nat, sid: SessionId)
    requires IsRun(es) && m < |es| && sid in StateAt(es, m).sessions
    ensures sid in StateAt(es, m + 1).sessions
    ensures var a, b := StateAt(es, m).sessions[sid], StateAt(es, m + 1).sessions[sid];
            && b.user == a.user && b.expiresAt == a.expiresAt
            && b.hash == (if RotatesAt(es, m, sid) then es[m].token else a.hash)
            && (b.revoked <==> a.revoked || Revokes(es[m], sid, a.user))
  {
    StepAt(es, m);
  }

  lemma OpenedAs(es: seq<Event>, i: nat)
    requires IsRun(es) && i < |es| && es[i].Open?
    ensures Lookup(StateAt(es, i + 1).sessions, es[i].session)
         == Some(Session(es[i].principal, es[i].token, es[i].expiresAt, false))
  {
    StepAt(es, i);
  }

  /** What a session that was opened at `i` has become. */
  lemma {:induction false} SessionIs(es: seq<Event>, i: nat, n: nat)
    requires IsRun(es) && i < n <= |es| && es[i].Open?
    ensures es[i].session in StateAt(es, n).sessions
    ensures var se := StateAt(es, n).sessions[es[i].session];
            && se.user == es[i].principal && se.expiresAt == es[i].expiresAt && se.hash == LatestToken(es, i, n)
            && (se.revoked <==> exists k :: i < k < n && Revokes(es[k], es[i].session, es[i].principal))
    decreases n
  {
    hide Step, Enabled, StateAt, RotatesAt, Revokes;
    if n == i + 1 {
      OpenedAs(es, i);
    } else {
      SessionIs(es, i, n - 1);
      SessionMoves(es, n - 1, es[i].session);
    }
  }

  /** A session that exists was opened. */
  lemma {:induction false} OpenedBefore(es: seq<Event>, n: nat, sid: SessionId) returns (i: nat)
    requires IsRun(es) && n <= |es| && sid in StateAt(es, n).sessions
    ensures i < n && es[i].Open? && es[i].session == sid
    decreases n
  {
    StepAt(es, n - 1);
    if es[n - 1].Open? && es[n - 1].session == sid {
      i := n - 1;
    } else {
      i := OpenedBefore(es, n - 1, sid);
    }
  }

  /**
   A new refresh finds a session that was opened at `i` exactly when it presents the
   token last given to it, neither it nor all of its user's sessions have been
   revoked since, and the clock reads less than the expiry it was opened with.
   */
  lemma FindIff(es: seq<Event>, i: nat, r: RequestId, token: Token)
    requires IsRun(es) && i < |es| && es[i].Open? && r !in After(es).refreshes
    ensures IsRun(es + [Find(r, es[i].session, token)])
       <==> && token == LatestToken(es, i, |es|)
            && (forall k :: i < k < |es| ==> !Revokes(es[k], es[i].session, es[i].principal))
            && After(es).now < es[i].expiresAt
  {
    SessionIs(es, i, |es|);
    assert es[..|es|] == es;
    ExtendRun(es, Find(r, es[i].session, token));
  }

  /** Whatever a refresh finds was opened before, is not revoked, and has not expired. */
  lemma FoundIsOpen(es: seq<Event>, j: nat) returns (i: nat)
    requires IsRun(es) && j < |es| && es[j].Find?
    ensures i < j && es[i].Open? && es[i].session == es[j].session && es[j].token == LatestToken(es, i, j)
    ensures forall k :: i < k < j ==> !Revokes(es[k], es[i].session, es[i].principal)
    ensures StateAt(es, j).now < es[i].expiresAt
  {
    StepAt(es, j);
    i := OpenedBefore(es, j, es[j].session);
    SessionIs(es, i, j);
  }

  /** After a revocation no refresh finds the session any more. */
  lemma NothingFoundAfterRevoke(es: seq<Event>, i: nat, k: nat, j: nat)
    requires IsRun(es) && i < k < j < |es| && es[i].Open? && Revokes(es[k], es[i].session, es[i].principal)
    ensures !(es[j].Find? && es[j].session == es[i].session)
  {
    SessionIs(es, i, j);
    StepAt(es, j);
  }

  /**
   The gate passes exactly the root principal, users without a Phira credential, and
   users whose credential is active and has not expired.
   */
  lemma GatePassesIff(es: seq<Event>, j: nat)
    requires IsRun(es) && j < |es| && es[j].Gate?
    ensures es[j].r in StateAt(es, j).refreshes && StateAt(es, j).refreshes[es[j].r].Found?
    ensures var s := StateAt(es, j); var user := s.refreshes[es[j].r].user;
            es[j].passed <==>
              || user == None || user.value !in s.credentials
              || (&& s.credentials[user.value].state == CredentialActive
                  && s.now < s.credentials[user.value].refreshExpiresAt)
  {
    StepAt(es, j);
  }

  /** The token was issued and is not the current one of any session. */
  ghost predicate Spent(s: State, t: Token) {
    t in s.issued && forall sid :: sid in s.sessions ==> s.sessions[sid].hash != t
  }

  lemma SpentStep(s: State, e: Event, t: Token)
    requires Spent(s, t) && Enabled(s, e)
    ensures Spent(Step(s, e), t)
  {
  }

  lemma {:induction false} SpentForever(es: seq<Event>, i: nat, j: nat, t: Token)
    requires IsRun(es) && i <= j <= |es| && IsRun(es[..i]) && Spent(After(es[..i]), t)
    ensures IsRun(es[..j]) && Spent(After(es[..j]), t)
    decreases j - i
  {
    if i < j {
      SpentForever(es, i, j - 1, t);
      StepAt(es, j - 1);
      SpentStep(After(es[..j - 1]), es[j - 1], t);
    }
  }

  /** The token a rotation replaces. */
  function Replaced(s: State, r: RequestId): Option<Token> {
    if r in s.refreshes && s.refreshes[r].Cleared? && s.refreshes[r].session in s.sessions
    then Some(s.sessions[s.refreshes[r].session].hash) else None
  }

  /** Once a rotation has replaced a token, no later request finds a session with it. */
  lemma ReplacedTokenIsDead(es: seq<Event>, i: nat, j: nat, t: Token)
    requires IsRun(es) && i < j < |es| && es[i].Rotate?
    requires IsRun(es[..i]) && Replaced(After(es[..i]), es[i].r) == Some(t)
    ensures !(es[j].Find? && es[j].token == t)
  {
    StepAt(es, i);
    RunTokens(es[..i]);
    SpentForever(es, i + 1, j, t);
    StepAt(es, j);
  }

  /** A refresh carries the token with which it found its session. */
  lemma {:induction false} FoundBefore(es: seq<Event>, j: nat, r: RequestId) returns (k: nat)
    requires IsRun(es) && j <= |es| && IsRun(es[..j])
    requires r in After(es[..j]).refreshes && !After(es[..j]).refreshes[r].Failing?
    ensures k < j && es[k] == Find(r, After(es[..j]).refreshes[r].session, After(es[..j]).refreshes[r].token)
    decreases j
  {
    StepAt(es, j - 1);
    if es[j - 1].Find? && es[j - 1].r == r {
      k := j - 1;
    } else {
      k := FoundBefore(es, j - 1, r);
    }
  }

  /**
   A token used by a completed refresh completes another one only if both
   requests had found the session before the first rotation.
   */
  lemma SecondUseOverlapsTheFirst(es: seq<Event>, i: nat, j: nat, t: Token) returns (k: nat)
    requires IsRun(es) && i < j < |es| && es[i].Rotate? && es[j].Rotate?
    requires IsRun(es[..i]) && Replaced(After(es[..i]), es[i].r) == Some(t)
    requires IsRun(es[..j]) && es[j].r in After(es[..j]).refreshes
    requires After(es[..j]).refreshes[es[j].r].Cleared? && After(es[..j]).refreshes[es[j].r].token == t
    ensures k < i && es[k].Find? && es[k].r == es[j].r && es[k].token == t
  {
    k := FoundBefore(es, j, es[j].r);
    if k > i {
      ReplacedTokenIsDead(es, i, k, t);
    }
  }

  /** Two overlapping refreshes do both complete, and the first one's new token is lost. */
  lemma OverlappingRefreshesBothComplete(s: State, q: RequestId, r: RequestId, a: Token, b: Token)
    requires TokensOk(s) && q != r && a != b && a !in s.issued && b !in s.issued
    requires q in s.refreshes && r in s.refreshes && s.refreshes[q].Cleared? && s.refreshes[r].Cleared?
    requires s.refreshes[q].session == s.refreshes[r].session && s.refreshes[r].session in s.sessions
    ensures Enabled(s, Rotate(q, a)) && Enabled(Step(s, Rotate(q, a)), Rotate(r, b))
    ensures Spent(Step(Step(s, Rotate(q, a)), Rotate(r, b)), a)
  {
  }

  /** Two requests find one session with the same token. */
  lemma BothFound(u: UserId) returns (es: seq<Event>)
    ensures IsRun(es) && es == [Open(0, Some(u), 10, 100), Find(1, 0, 10), Find(2, 0, 10)]
    ensures After(es) == State(map[0 := Session(Some(u), 10, 100, false)], map[],
                               map[1 := Found(0, Some(u), 10), 2 := Found(0, Some(u), 10)], {10}, 0)
  {
    var e0, e1, e2 := Open(0, Some(u), 10, 100), Find(1, 0, 10), Find(2, 0, 10);
    ExtendRun([], e0);
    assert [] + [e0] == [e0];
    assert After([e0]) == State(map[0 := Session(Some(u), 10, 100, false)], map[], map[], {10}, 0);
    ExtendRun([e0], e1);
    assert [e0] + [e1] == [e0, e1];
    ExtendRun([e0, e1], e2);
    es := [e0, e1] + [e2];
  }

  /** And both get through the gate. */
  lemma BothCleared(u: UserId) returns (es: seq<Event>)
    ensures IsRun(es) && |es| == 5 && es[1] == Find(1, 0, 10) && es[2] == Find(2, 0, 10)
    ensures After(es) == State(map[0 := Session(Some(u), 10, 100, false)], map[],
                               map[1 := Cleared(0, 10), 2 := Cleared(0, 10)], {10}, 0)
  {
    var found := BothFound(u);
    var e3, e4 := Gate(1, true), Gate(2, true);
    ExtendRun(found, e3);
    var r4 := found + [e3];
    ExtendRun(r4, e4);
    es := r4 + [e4];
  }

  /** A run in which both complete: the old token and the first new one are dead. */
  lemma OverlapHappens(u: UserId) returns (es: seq<Event>)
    ensures IsRun(es) && |es| == 7
    ensures es[1] == Find(1, 0, 10) && es[2] == Find(2, 0, 10) && es[5] == Rotate(1, 11) && es[6] == Rotate(2, 12)
    ensures Spent(After(es), 10) && Spent(After(es), 11)
  {
    var r5 := BothCleared(u);
    var e5, e6 := Rotate(1, 11), Rotate(2, 12);
    ExtendRun(r5, e5);
    var r6 := r5 + [e5];
    ExtendRun(r6, e6);
    es := r6 + [e6];
  }

  // ---------------------------------------------------------------------
  // The Phira gate
  // ---------------------------------------------------------------------

  predicate Stores(e: Event, u: UserId) { e.StoreCredential? && e.user == u }

  /** The event marks the user's credential as needing reauthentication. */
  predicate MarksAt(es: seq<Event>, k: nat, u: UserId)
    requires IsRun(es) && k < |es|
  {
    es[k].MarkReauth? && es[k].r in StateAt(es, k).refreshes && StateAt(es, k).refreshes[es[k].r] == Failing(u)
  }

  /**
   What a credential is after `n` events: that of the user's last login, active unless
   it has been revoked or marked since, and then the last of these says what it is.
   */
  lemma {:induction false} CredentialIs(es: seq<Event>, n: nat, u: UserId) returns (k: nat, m: nat)
    requires IsRun(es) && n <= |es| && u in StateAt(es, n).credentials
    ensures k <= m < n && es[k] == StoreCredential(u, StateAt(es, n).credentials[u].refreshExpiresAt)
    ensures forall i :: k < i < n ==> !Stores(es[i], u)
    ensures forall i :: m < i < n ==> es[i] != RevokeCredential(u) && !MarksAt(es, i, u)
    ensures var state := StateAt(es, n).credentials[u].state;
            || (m == k && state == CredentialActive)
            || (es[m] == RevokeCredential(u) && state == CredentialRevoked)
            || (MarksAt(es, m, u) && state == ReauthRequired)
    decreases n
  {
    var e := es[n - 1];
    StepAt(es, n - 1);
    if Stores(e, u) {
      k, m := n - 1, n - 1;
    } else {
      k, m := CredentialIs(es, n - 1, u);
      if e == RevokeCredential(u) || MarksAt(es, n - 1, u) {
        m := n - 1;
      }
    }
  }

  /** Until a login, a credential stays, keeps its expiry, and is not active again once it was not. */
  lemma {:induction false} CredentialOnward(es: seq<Event>, i: nat, j: nat, u: UserId)
    requires IsRun(es) && i <= j <= |es| && u in StateAt(es, i).credentials
    requires forall k :: i <= k < j ==> !Stores(es[k], u)
    ensures var before := StateAt(es, i).credentials[u];
            && u in StateAt(es, j).credentials
            && StateAt(es, j).credentials[u].refreshExpiresAt == before.refreshExpiresAt
            && (before.state != CredentialActive ==> StateAt(es, j).credentials[u].state != CredentialActive)
    decreases j - i
  {
    if i < j {
      CredentialOnward(es, i, j - 1, u);
      StepAt(es, j - 1);
    }
  }

  /** Nothing but a login opens the gate again, unless the clock is set back. */
  lemma GateUntilLogin(es: seq<Event>, i: nat, j: nat, u: UserId)
    requires IsRun(es) && i <= j <= |es| && NeedsReauth(StateAt(es, i), Some(u))
    requires StateAt(es, i).now <= StateAt(es, j).now
    requires forall k :: i <= k < j ==> !Stores(es[k], u)
    ensures NeedsReauth(StateAt(es, j), Some(u))
  {
    CredentialOnward(es, i, j, u);
  }

  /** A request of the user reaches the gate. */
  predicate AtGate(es: seq<Event>, i: nat, u: UserId)
    requires IsRun(es) && i < |es|
  {
    && es[i].Gate? && es[i].r in StateAt(es, i).refreshes
    && StateAt(es, i).refreshes[es[i].r].Found? && StateAt(es, i).refreshes[es[i].r].user == Some(u)
  }

  /**
   Once the gate has failed for a user, every refresh of that user that reaches
   the gate later fails too, until a new Phira login stores a credential.
   */
  lemma GateStaysShut(es: seq<Event>, i: nat, j: nat, u: UserId)
    requires IsRun(es) && i < j < |es| && AtGate(es, i, u) && AtGate(es, j, u) && !es[i].passed
    requires StateAt(es, i).now <= StateAt(es, j).now
    requires forall k :: i < k < j ==> !Stores(es[k], u)
    ensures !es[j].passed
  {
    StepAt(es, i);
    GateUntilLogin(es, i, j, u);
    StepAt(es, j);
  }

  /**
   A refresh that was through the gate before it shut is not held back, and
   completes whatever has happened to the credential since.
   */
  lemma ClearedBeforeStillRotates(s: State, r: RequestId, u: UserId, token: Token)
    requires r in s.refreshes && s.refreshes[r].Cleared? && token !in s.issued
    ensures var s' := Step(s, RevokeCredential(u));
            Enabled(s', Rotate(r, token)) && (u in s.credentials ==> NeedsReauth(s', Some(u)))
  {
  }

  // ---------------------------------------------------------------------
  // A late mark
  // ---------------------------------------------------------------------

  /** A failing refresh failed at its gate, which read a credential that needed reauthentication. */
  lemma {:induction false} FailedBefore(es: seq<Event>, j: nat, r: RequestId, u: UserId) returns (g: nat)
    requires IsRun(es) && j <= |es| && r in StateAt(es, j).refreshes && StateAt(es, j).refreshes[r] == Failing(u)
    ensures g < j && es[g] == Gate(r, false) && AtGate(es, g, u) && NeedsReauth(StateAt(es, g), Some(u))
    ensures forall m :: g < m < j ==> !(es[m].Gate? && es[m].r == r)
    decreases j
  {
    StepAt(es, j - 1);
    if es[j - 1].Gate? && es[j - 1].r == r {
      g := j - 1;
    } else {
      g := FailedBefore(es, j - 1, r, u);
    }
  }

  /** A revocation of the user's credential, or another mark on it. */
  predicate Spoils(s: State, e: Event, u: UserId) {
    (e.RevokeCredential? && e.user == u) || (e.MarkReauth? && e.r in s.refreshes && s.refreshes[e.r] == Failing(u))
  }

  /** A login at `k` stored a credential that is still valid at `j`, and nothing has touched it since. */
  ghost predicate GoodLogin(es: seq<Event>, k: nat, j: nat, u: UserId)
    requires IsRun(es) && k < j <= |es|
  {
    && Stores(es[k], u) && StateAt(es, j).now < es[k].refreshExpiresAt
    && forall m :: k < m < j ==> !Stores(es[m], u) && !Spoils(StateAt(es, m), es[m], u)
  }

  lemma {:induction false} UnspoiltSince(es: seq<Event>, k: nat, j: nat, u: UserId)
    requires IsRun(es) && k < j <= |es| && Stores(es[k], u)
    requires forall m :: k < m < j ==> !Stores(es[m], u) && !Spoils(StateAt(es, m), es[m], u)
    ensures u in StateAt(es, j).credentials
    ensures StateAt(es, j).credentials[u] == Credential(es[k].refreshExpiresAt, CredentialActive)
    decreases j
  {
    StepAt(es, j - 1);
    if k < j - 1 {
      UnspoiltSince(es, k, j - 1, u);
      assert !Spoils(StateAt(es, j - 1), es[j - 1], u);
    }
  }

  lemma {:induction false} LastLogin(es: seq<Event>, i: nat, j: nat, u: UserId) returns (k: nat)
    requires i <= j <= |es| && exists m :: i <= m < j && Stores(es[m], u)
    ensures i <= k < j && Stores(es[k], u) && forall m :: k < m < j ==> !Stores(es[m], u)
    decreases j
  {
    if Stores(es[j - 1], u) {
      k := j - 1;
    } else {
      k := LastLogin(es, i, j - 1, u);
    }
  }

  lemma NotSpoilt(es: seq<Event>, k: nat, m: nat, j: nat, u: UserId)
    requires IsRun(es) && k < m < j <= |es| && Stores(es[k], u) && !NeedsReauth(StateAt(es, j), Some(u))
    requires forall n :: k < n < j ==> !Stores(es[n], u)
    ensures !Spoils(StateAt(es, m), es[m], u)
  {
    StepAt(es, k);
    CredentialOnward(es, k + 1, m, u);
    StepAt(es, m);
    CredentialOnward(es, m + 1, j, u);
  }

  /** An open gate was opened by a login that nothing has spoilt. */
  lemma OpenedByLogin(es: seq<Event>, g: nat, j: nat, u: UserId) returns (k: nat)
    requires IsRun(es) && g < j <= |es| && NeedsReauth(StateAt(es, g), Some(u)) && !Stores(es[g], u)
    requires StateAt(es, g).now <= StateAt(es, j).now && !NeedsReauth(StateAt(es, j), Some(u))
    ensures g < k < j && GoodLogin(es, k, j, u)
  {
    if forall m :: g <= m < j ==> !Stores(es[m], u) {
      GateUntilLogin(es, g, j, u);
    }
    k := LastLogin(es, g, j, u);
    StepAt(es, k);
    CredentialOnward(es, k + 1, j, u);
    forall m | k < m < j ensures !Spoils(StateAt(es, m), es[m], u) {
      NotSpoilt(es, k, m, j, u);
    }
  }

  /**
   The gate's reading and its marking are two statements. The mark shuts a gate
   that had opened exactly when, between the two, a login stored a credential
   that is still valid, with no later login, revocation or mark.
   */
  lemma MarkUndoesLoginIff(es: seq<Event>, j: nat, u: UserId) returns (g: nat)
    requires IsRun(es) && j < |es| && es[j].MarkReauth?
    requires es[j].r in StateAt(es, j).refreshes && StateAt(es, j).refreshes[es[j].r] == Failing(u)
    ensures g < j && es[g] == Gate(es[j].r, false) && AtGate(es, g, u)
    ensures forall m :: g < m < j ==> !(es[m].Gate? && es[m].r == es[j].r)
    ensures StateAt(es, g).now <= StateAt(es, j).now ==>
              (!NeedsReauth(StateAt(es, j), Some(u)) <==> exists k :: g < k < j && GoodLogin(es, k, j, u))
    ensures NeedsReauth(StateAt(es, j + 1), Some(u))
  {
    g := FailedBefore(es, j, es[j].r, u);
    if StateAt(es, g).now <= StateAt(es, j).now && !NeedsReauth(StateAt(es, j), Some(u)) {
      var k := OpenedByLogin(es, g, j, u);
    }
    if k :| g < k < j && GoodLogin(es, k, j, u) {
      UnspoiltSince(es, k, j, u);
    }
    CredentialStays(es, g, j, u);
    StepAt(es, j);
  }

  lemma {:induction false} CredentialStays(es: seq<Event>, i: nat, j: nat, u: UserId)
    requires IsRun(es) && i <= j <= |es| && u in StateAt(es, i).credentials
    ensures u in StateAt(es, j).credentials
    decreases j - i
  {
    if i < j {
      CredentialStays(es, i, j - 1, u);
      StepAt(es, j - 1);
    }
  }

  /** A refresh fails at the gate: its user's credential has expired. */
  lemma GateFails(u: UserId) returns (es: seq<Event>)
    ensures IsRun(es) && |es| == 5 && es[4] == Gate(1, false)
    ensures After(es) == State(map[0 := Session(Some(u), 10, 100, false)], map[u := Credential(5, CredentialActive)],
                               map[1 := Failing(u)], {10}, 5)
  {
    var found := FoundWithCredential(u);
    ExtendRun(found, Tick(5));
    var late := found + [Tick(5)];
    ExtendRun(late, Gate(1, false));
    es := late + [Gate(1, false)];
  }

  lemma FoundWithCredential(u: UserId) returns (es: seq<Event>)
    ensures IsRun(es) && |es| == 3
    ensures After(es) == State(map[0 := Session(Some(u), 10, 100, false)], map[u := Credential(5, CredentialActive)],
                               map[1 := Found(0, Some(u), 10)], {10}, 0)
  {
    var e0, e1, e2 := StoreCredential(u, 5), Open(0, Some(u), 10, 100), Find(1, 0, 10);
    ExtendRun([], e0);
    assert [] + [e0] == [e0];
    ExtendRun([e0], e1);
    assert [e0] + [e1] == [e0, e1];
    assert After([e0, e1]) == State(map[0 := Session(Some(u), 10, 100, false)],
                                    map[u := Credential(5, CredentialActive)], map[], {10}, 0);
    ExtendRun([e0, e1], e2);
    es := [e0, e1] + [e2];
  }

  /** A run in which a login is undone: the credential is good, the mark comes, the gate is shut. */
  lemma LateMarkUndoesLogin(u: UserId) returns (es: seq<Event>)
    ensures IsRun(es) && |es| == 7
    ensures es[4] == Gate(1, false) && es[5] == StoreCredential(u, 50) && es[6] == MarkReauth(1)
    ensures !NeedsReauth(StateAt(es, 6), Some(u)) && NeedsReauth(After(es), Some(u))
  {
    var failed := GateFails(u);
    ExtendRun(failed, StoreCredential(u, 50));
    var renewed := failed + [StoreCredential(u, 50)];
    ExtendRun(renewed, MarkReauth(1));
    es := renewed + [MarkReauth(1)];
    assert es[..6] == renewed;
  }
}
