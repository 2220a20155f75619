/** What each request to the server does for its caller, in states that satisfy the session invariant. */
module AuthOutcomes {
  import opened Options
  import opened AuthServer
  import opened AuthSafety

  /** A token pair just issued is accepted as long as its lifetime is not zero. */
  predicate Usable(s: Server, reply: Reply, now: int)
    requires reply.Tokens?
  {
    && (s.accessLifetime > 0 ==> IsPrincipal(s, reply.access, now))
    && (s.refreshLifetime > 0 ==> CanRefresh(s, reply.refresh, now))
  }

  /** Nothing issued to the user before is accepted now, or could be at any time in this state. */
  ghost predicate Dead(before: Server, s: Server, id: UserId) {
    forall token, later :: Genuine(before, token) && token.sub == id ==> !Accepted(s, token, later)
  }

  /** Sessions other than those listed are as before. */
  predicate OnlySessions(s: Server, t: Server, changed: set<Jti>) {
    forall j :: j in s.sessions && j !in changed ==> j in t.sessions && t.sessions[j] == s.sessions[j]
  }

  /** A login succeeds exactly with the right password of an active account, and its tokens can be used. */
  lemma LoginOutcome(s: Server, row: Option<UserId>, password: string, jti: Jti, now: int)
    requires Inv(s) && jti !in s.sessions
    ensures var (t, reply) := Handle(s, Login(row, password), jti, now);
            && (reply.Tokens? <==> CanLogin(s, row, password))
            && (reply.Tokens? ==> Usable(t, reply, now))
            && (!reply.Tokens? ==> t == s)
            && OnlySessions(s, t, {jti})
  {
    hide Acyclic, Linear, FromLogin, SessionsOk, AccessOk;
  }

  /** A refresh succeeds exactly for a live session; the presented token is spent, and the new ones can be used. */
  lemma RefreshOutcome(s: Server, token: Claims, jti: Jti, now: int)
    requires Inv(s) && jti !in s.sessions
    ensures var (t, reply) := Handle(s, RefreshSession(token), jti, now);
            && (reply.Tokens? <==> CanRefresh(s, token, now))
            && (reply.Tokens? ==> Usable(t, reply, now) && forall later :: !CanRefresh(t, token, later))
            && (!reply.Tokens? ==> t == s)
            && OnlySessions(s, t, {jti, token.jti})
  {
    hide Acyclic, Linear, FromLogin, AccessOk;
    if CanRefresh(s, token, now) {
      assert SessionOk(s, token.jti);
    }
  }

  /** After a logout the presented token is never accepted again. */
  lemma LogoutOutcome(s: Server, token: Claims, jti: Jti, now: int)
    requires Inv(s)
    ensures var t := Handle(s, Logout(token), jti, now).0;
            && (forall later :: later >= now ==> !CanRefresh(t, token, later))
            && OnlySessions(s, t, {token.jti})
  {
    hide Acyclic, Linear, FromLogin, AccessOk;
  }

  lemma ExpelledDead(s: Server, request: Request, jti: Jti, now: int, id: UserId)
    requires Inv(s) && Expels(s, request, now, id)
    ensures Dead(s, Handle(s, request, jti, now).0, id)
  {
    hide Acyclic, Linear, FromLogin, Handle;
    var t := Handle(s, request, jti, now).0;
    ExpelRaises(s, request, jti, now, id);
    forall token, later | Genuine(s, token) && token.sub == id
      ensures !Accepted(t, token, later)
    {
      if token.kind == Refresh {
        assert SessionOk(s, token.jti);
      }
      KindsDiffer(t, token, later);
    }
  }

  /** An accepted token carries the current version of its user. */
  lemma KindsDiffer(t: Server, token: Claims, later: int)
    ensures Accepted(t, token, later) ==> token.sub in t.users && t.users[token.sub].tokenVersion == token.tv
  {
  }

  /** A changed password ends all sessions and tokens of the account; a refused change changes nothing. */
  lemma PasswordOutcome(s: Server, bearer: Claims, current: string, replacement: string, jti: Jti, now: int)
    requires Inv(s)
    ensures var (t, reply) := Handle(s, ChangePassword(bearer, current, replacement), jti, now);
            && (reply == Done ==> bearer.sub in t.users && t.users[bearer.sub].password == replacement && Dead(s, t, bearer.sub))
            && (reply != Done ==> t == s)
  {
    hide Inv, Dead;
    if Handle(s, ChangePassword(bearer, current, replacement), jti, now).1 == Done {
      ExpelledDead(s, ChangePassword(bearer, current, replacement), jti, now, bearer.sub);
    }
  }

  /** The account has the status asked for; a deactivation ends all its sessions and tokens. */
  lemma StatusOutcome(s: Server, bearer: Claims, target: UserId, active: bool, jti: Jti, now: int)
    requires Inv(s)
    ensures var (t, reply) := Handle(s, SetStatus(bearer, target, active), jti, now);
            && (reply == Done ==>
                  && target in s.users && target in t.users && t.users[target].active == active
                  && (s.users[target].active && !active ==> Dead(s, t, target)))
            && (reply != Done ==> t == s)
  {
    hide Inv, Dead;
    var request := SetStatus(bearer, target, active);
    if Handle(s, request, jti, now).1 == Done && s.users[target].active && !active {
      ExpelledDead(s, request, jti, now, target);
    }
  }
}
