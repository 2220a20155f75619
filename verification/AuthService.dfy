/** The handlers as methods that add session rows and assign their fields, and what they promise. */
module AuthServiceObject {
  import opened Options
  import opened AuthServer
  import opened AuthSafety
  import opened AuthOutcomes
  import opened AuthAccounts

  class AuthService {
    var users: map<UserId, User>
    var sessions: map<Jti, Session>
    var refreshTokens: map<Jti, Claims>
    var accessTokens: set<Claims>
    var logins: set<Jti>
    const activeOrgs: set<OrgId>
    const accessLifetime: nat
    const refreshLifetime: nat

    constructor (users: map<UserId, User>, activeOrgs: set<OrgId>, accessLifetime: nat, refreshLifetime: nat)
      ensures Valid() && Pristine(View())
      ensures View().users == users && View().activeOrgs == activeOrgs
    {
      this.users, this.activeOrgs := users, activeOrgs;
      this.accessLifetime, this.refreshLifetime := accessLifetime, refreshLifetime;
      sessions, refreshTokens, accessTokens, logins := map[], map[], {}, {};
      new;
      PristineOk(View());
    }

    /** Sessions, tokens and users agree, and rotation chains are linear. */
    ghost predicate Valid()
      reads this
    {
      Inv(View())
    }

    function View(): Server
      reads this
    {
      Server(users, activeOrgs, sessions, refreshTokens, accessTokens, logins, accessLifetime, refreshLifetime)
    }

    /** `_issue_token_response` with `session.add` of the new row. */
    method IssueTokens(id: UserId, jti: Jti, now: int) returns (reply: Reply)
      requires id in users
      modifies this
      ensures View() == Issue(old(View()), id, jti, now)
      ensures reply == IssuedReply(old(View()), id, jti, now)
    {
      var user := users[id];
      var access := Claims(Access, jti, id, user.org, user.role, user.tokenVersion, now + accessLifetime);
      var refresh := Claims(Refresh, jti, id, user.org, user.role, user.tokenVersion, now + refreshLifetime);
      accessTokens := accessTokens + {access};
      refreshTokens := refreshTokens[jti := refresh];
      sessions := sessions[jti := Session(id, refresh.exp, None, None)];
      reply := Tokens(access, refresh);
    }

    method Login(row: Option<UserId>, password: string, jti: Jti, now: int) returns (reply: Reply)
      requires Valid() && jti !in sessions
      modifies this
      ensures Valid()
      ensures (View(), reply) == Handle(old(View()), Request.Login(row, password), jti, now)
      ensures reply.Tokens? <==> old(CanLogin(View(), row, password))
      ensures if reply.Tokens? then Usable(View(), reply, now) else View() == old(View())
      ensures OnlySessions(old(View()), View(), {jti})
    {
      hide Inv;
      HandleKeeps(View(), Request.Login(row, password), jti, now);
      LoginOutcome(View(), row, password, jti, now);
      hide OnlySessions, Usable;
      if row.None? || row.value !in users {
        return Failed(401);
      }
      var user := users[row.value];
      if user.org !in activeOrgs || !user.active || user.password != password {
        return Failed(401);
      }
      reply := IssueTokens(row.value, jti, now);
      logins := logins + {jti};
    }

    method RefreshSession(token: Claims, jti: Jti, now: int) returns (reply: Reply)
      requires Valid() && jti !in sessions
      modifies this
      ensures Valid()
      ensures (View(), reply) == Handle(old(View()), Request.RefreshSession(token), jti, now)
      ensures reply.Tokens? <==> old(CanRefresh(View(), token, now))
      ensures if reply.Tokens? then Usable(View(), reply, now) && forall later :: !CanRefresh(View(), token, later)
              else View() == old(View())
      ensures OnlySessions(old(View()), View(), {jti, token.jti})
    {
      hide Inv;
      HandleKeeps(View(), Request.RefreshSession(token), jti, now);
      RefreshOutcome(View(), token, jti, now);
      hide OnlySessions, Usable;
      if !Decodes(View(), token, Refresh, now) || token.jti !in sessions {
        return Failed(401);
      }
      var current := sessions[token.jti];
      if current.user !in users {
        return Failed(401);
      }
      var user := users[current.user];
      if current.revokedAt.Some? || current.expiresAt <= now || !user.active || user.org !in activeOrgs
         || current.user != token.sub || user.org != token.org || user.tokenVersion != token.tv
      {
        return Failed(401);
      }
      reply := IssueTokens(current.user, jti, now);
      sessions := sessions[token.jti := sessions[token.jti].(revokedAt := Some(now))];
      sessions := sessions[token.jti := sessions[token.jti].(replacedBy := Some(jti))];
      assert View() == Rotated(old(View()), token, jti, now);
    }

    method Logout(token: Claims, now: int) returns (reply: Reply)
      requires Valid()
      modifies this
      ensures Valid()
      ensures forall jti :: (View(), reply) == Handle(old(View()), Request.Logout(token), jti, now)
      ensures forall later :: later >= now ==> !CanRefresh(View(), token, later)
      ensures OnlySessions(old(View()), View(), {token.jti})
    {
      hide Inv;
      HandleKeeps(View(), Request.Logout(token), 0, now);
      LogoutOutcome(View(), token, 0, now);
      hide OnlySessions;
      if Decodes(View(), token, Refresh, now) && token.jti in sessions && sessions[token.jti].revokedAt.None? {
        sessions := sessions[token.jti := sessions[token.jti].(revokedAt := Some(now))];
      }
      reply := Done;
    }

    /** The bulk update of a user's un-revoked sessions. */
    method RevokeSessions(id: UserId, now: int)
      modifies this`sessions
      ensures sessions == RevokeAll(old(sessions), id, now)
    {
      sessions := RevokeAll(sessions, id, now);
    }

    method ChangePassword(bearer: Claims, current: string, replacement: string, now: int) returns (reply: Reply)
      requires Valid()
      modifies this
      ensures Valid()
      ensures forall jti ::
                (View(), reply) == Handle(old(View()), Request.ChangePassword(bearer, current, replacement), jti, now)
      ensures if reply == Done then
                bearer.sub in users && users[bearer.sub].password == replacement && Dead(old(View()), View(), bearer.sub)
              else View() == old(View())
      ensures reply == Done <==> old(MayChangePassword(View(), bearer, now, current, replacement))
    {
      hide Inv;
      HandleKeeps(View(), Request.ChangePassword(bearer, current, replacement), 0, now);
      PasswordOutcome(View(), bearer, current, replacement, 0, now);
      PasswordDoneExactly(View(), bearer, current, replacement, 0, now);
      hide Dead;
      if !IsPrincipal(View(), bearer, now) {
        return Failed(401);
      }
      var user := users[bearer.sub];
      if user.password != current || user.password == replacement {
        return Failed(400);
      }
      users := users[bearer.sub := user.(password := replacement)];
      users := users[bearer.sub := users[bearer.sub].(tokenVersion := user.tokenVersion + 1)];
      RevokeSessions(bearer.sub, now);
      assert View() == Expel(old(View()), bearer.sub, user.(password := replacement), now);
      reply := Done;
    }

    method UpdateStatus(bearer: Claims, target: UserId, active: bool, now: int) returns (reply: Reply)
      requires Valid()
      modifies this
      ensures Valid()
      ensures forall jti ::
                (View(), reply) == Handle(old(View()), Request.SetStatus(bearer, target, active), jti, now)
      ensures if reply == Done then
                && target in old(users) && target in users && users[target].active == active
                && (old(users)[target].active && !active ==> Dead(old(View()), View(), target))
              else View() == old(View())
      ensures reply == Done <==> old(MaySetStatus(View(), bearer, now, target, active))
      ensures forall id :: id in old(users) && id != target ==> id in users && users[id] == old(users)[id]
    {
      hide Inv;
      HandleKeeps(View(), Request.SetStatus(bearer, target, active), 0, now);
      StatusOutcome(View(), bearer, target, active, 0, now);
      StatusDoneExactly(View(), bearer, target, active, 0, now);
      hide Dead;
      if !IsPrincipal(View(), bearer, now) {
        return Failed(401);
      }
      var principal := users[bearer.sub];
      if principal.role != Admin {
        return Failed(403);
      }
      if target !in users || users[target].org != principal.org {
        return Failed(404);
      }
      if target == bearer.sub && !active {
        return Failed(400);
      }
      if users[target].active != active {
        users := users[target := users[target].(active := active)];
        if !active {
          users := users[target := users[target].(tokenVersion := users[target].tokenVersion + 1)];
          RevokeSessions(target, now);
          assert View() == Expel(old(View()), target, old(users)[target].(active := false), now);
        }
      }
      reply := Done;
    }
  }
}
