/**
 Sessions and refresh-token rotation.

 A refresh is several database statements: find the active session by the hash
 of the presented token, consult the user's Phira credential, and then either
 mark the credential or overwrite the session's hash. Refreshes, logouts,
 revocations and logins interleave between these statements. Tokens are fresh
 random values and hashing is injective, so a hash stands for its token.
 */
module Sessions {
  import opened Prelude

  type SessionId = nat
  type UserId = nat
  type Token = nat
  type RequestId = nat
  type Time = int

  /** `user` is absent for the root principal. */
  datatype Session = Session(user: Option<UserId>, hash: Token, expiresAt: Time, revoked: bool)

  datatype CredentialState = CredentialActive | ReauthRequired | CredentialRevoked

  datatype Credential = Credential(refreshExpiresAt: Time, state: CredentialState)

  /** A refresh request: it has found its session, passed the gate, or failed it. */
  datatype Refresh =
    | Found(session: SessionId, user: Option<UserId>, token: Token)
    | Cleared(session: SessionId, token: Token)
    | Failing(owner: UserId)

  datatype State = State(
    sessions: map<SessionId, Session>,
    credentials: map<UserId, Credential>,
    refreshes: map<RequestId, Refresh>,
    issued: set<Token>,
    now: Time)

  datatype Event =
    | Tick(now: Time)                                              // the clock may also be set back
    | StoreCredential(user: UserId, refreshExpiresAt: Time)        // a Phira login
    | RevokeCredential(user: UserId)
    | Open(session: SessionId, principal: Option<UserId>, token: Token, expiresAt: Time)
    | Find(r: RequestId, session: SessionId, token: Token)
    | Gate(r: RequestId, passed: bool)
    | MarkReauth(r: RequestId)
    | Rotate(r: RequestId, token: Token)
    | GiveUp(r: RequestId)
    | Revoke(session: SessionId)
    | RevokeAll(user: UserId)

  predicate IsActive(se: Session, now: Time) { !se.revoked && now < se.expiresAt }

  /** The user's credential forbids refreshing. */
  predicate NeedsReauth(s: State, user: Option<UserId>) {
    user.Some? && user.value in s.credentials &&
    (s.credentials[user.value].refreshExpiresAt <= s.now || s.credentials[user.value].state != CredentialActive)
  }

  predicate Enabled(s: State, e: Event) {
    match e
    case Tick(_) => true
    case StoreCredential(_, _) => true
    case RevokeCredential(_) => true
    case Open(sid, _, token, expiresAt) => sid !in s.sessions && token !in s.issued && s.now < expiresAt
    case Find(r, sid, token) =>
      r !in s.refreshes && sid in s.sessions && s.sessions[sid].hash == token && IsActive(s.sessions[sid], s.now)
    case Gate(r, passed) => r in s.refreshes && s.refreshes[r].Found? && passed == !NeedsReauth(s, s.refreshes[r].user)
    case MarkReauth(r) => r in s.refreshes && s.refreshes[r].Failing?
    case Rotate(r, token) => r in s.refreshes && s.refreshes[r].Cleared? && token !in s.issued
    case GiveUp(r) => r in s.refreshes
    case Revoke(_) => true
    case RevokeAll(_) => true
  }

  function SetState(cs: map<UserId, Credential>, u: UserId, st: CredentialState): map<UserId, Credential> {
    if u in cs then cs[u := cs[u].(state := st)] else cs
  }

  function Step(s: State, e: Event): State
    requires Enabled(s, e)
  {
    match e
    case Tick(now) => s.(now := now)
    case StoreCredential(u, exp) => s.(credentials := s.credentials[u := Credential(exp, CredentialActive)])
    case RevokeCredential(u) => s.(credentials := SetState(s.credentials, u, CredentialRevoked))
    case Open(sid, u, token, exp) =>
      s.(sessions := s.sessions[sid := Session(u, token, exp, false)], issued := s.issued + {token})
    case Find(r, sid, token) => s.(refreshes := s.refreshes[r := Found(sid, s.sessions[sid].user, token)])
    case Gate(r, passed) =>
      var f := s.refreshes[r];
      s.(refreshes := s.refreshes[r := if passed then Cleared(f.session, f.token) else Failing(f.user.value)])
    case MarkReauth(r) =>
      s.(credentials := SetState(s.credentials, s.refreshes[r].owner, ReauthRequired), refreshes := s.refreshes - {r})
    case Rotate(r, token) =>
      var sid := s.refreshes[r].session;
      s.(sessions := if sid in s.sessions then s.sessions[sid := s.sessions[sid].(hash := token)] else s.sessions,
         refreshes := s.refreshes - {r},
         issued := s.issued + {token})
    case GiveUp(r) => s.(refreshes := s.refreshes - {r})
    case Revoke(sid) =>
      s.(sessions := if sid in s.sessions then s.sessions[sid := s.sessions[sid].(revoked := true)] else s.sessions)
    case RevokeAll(u) =>
      s.(sessions := map sid | sid in s.sessions ::
           if s.sessions[sid].user == Some(u) then s.sessions[sid].(revoked := true) else s.sessions[sid])
  }

  const INITIAL := State(map[], map[], map[], {}, 0)

  function Run(es: seq<Event>): Option<State> {
    if es == [] then Some(INITIAL)
    else
      var r := Run(Init(es));
      if r.Some? && Enabled(r.value, Last(es)) then Some(Step(r.value, Last(es))) else None
  }

  predicate IsRun(es: seq<Event>) { Run(es).Some? }

  function After(es: seq<Event>): State
    requires IsRun(es)
  {
    Run(es).value
  }
}
