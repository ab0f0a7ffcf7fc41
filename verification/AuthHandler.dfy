/**
 The refresh handler, run without interruption.
 */
module AuthHandler {
  import opened Prelude
  import opened Sessions
  import opened SessionTheorems

  datatype Outcome = SessionExpired | PhiraReauthRequired | Refreshed(session: SessionId)

  class AuthService {
    var sessions: map<SessionId, Session>
    var credentials: map<UserId, Credential>
    var issued: set<Token>

    ghost predicate Valid()
      reads this
    {
      TokensOk(State(sessions, credentials, map[], issued, 0))
    }

    constructor ()
      ensures Valid() && sessions == map[] && credentials == map[] && issued == {}
    {
      sessions, credentials, issued := map[], map[], {};
    }

    predicate Opens(sid: SessionId, token: Token, now: Time)
      reads this
    {
      sid in sessions && sessions[sid].hash == token && IsActive(sessions[sid], now)
    }

    /**
     The refresh handler. Its answer is that no session has the token, or all that
     have are revoked or expired; or that the session's user has a Phira credential
     that is expired or not active; or else the one session that has the token, is
     not revoked and has not expired. Then the token opens nothing any more, and the
     fresh one opens that session alone.
     */
    method Refresh(token: Token, fresh_token: Token, now: Time) returns (o: Outcome)
      requires Valid() && fresh_token !in issued
      modifies this
      ensures Valid()
      ensures o.SessionExpired? <==>
        forall sid :: sid in old(sessions) ==>
          || old(sessions)[sid].hash != token
          || old(sessions)[sid].revoked
          || old(sessions)[sid].expiresAt <= now
      ensures o.SessionExpired? ==>
        sessions == old(sessions) && credentials == old(credentials) && issued == old(issued)
      ensures o.PhiraReauthRequired? ==>
        && sessions == old(sessions) && issued == old(issued)
        && (exists sid, u ::
              && sid in sessions && sessions[sid].hash == token && sessions[sid].user == Some(u)
              && !sessions[sid].revoked && now < sessions[sid].expiresAt
              && u in old(credentials)
              && (old(credentials)[u].refreshExpiresAt <= now || old(credentials)[u].state != CredentialActive)
              && credentials == old(credentials)[u := old(credentials)[u].(state := ReauthRequired)])
      ensures o.Refreshed? ==>
        && o.session in old(sessions)
        && var before := old(sessions)[o.session];
        && before.hash == token && !before.revoked && now < before.expiresAt
        && (before.user.Some? && before.user.value in credentials ==>
              && now < credentials[before.user.value].refreshExpiresAt
              && credentials[before.user.value].state == CredentialActive)
        && credentials == old(credentials) && issued == old(issued) + {fresh_token}
        && sessions == old(sessions)[o.session := before.(hash := fresh_token)]
        && (forall sid, t :: !Opens(sid, token, t))
        && (forall sid :: Opens(sid, fresh_token, now) <==> sid == o.session)
    {
      if sid :| sid in sessions && sessions[sid].hash == token && IsActive(sessions[sid], now) {
        assert Opens(sid, token, now);
        var user := sessions[sid].user;
        if NeedsReauth(State(sessions, credentials, map[], issued, now), user) {
          credentials := credentials[user.value := credentials[user.value].(state := ReauthRequired)];
          o := PhiraReauthRequired;
        } else {
          sessions := sessions[sid := sessions[sid].(hash := fresh_token)];
          issued := issued + {fresh_token};
          o := Refreshed(sid);
        }
      } else {
        o := SessionExpired;
      }
    }
  }
}
