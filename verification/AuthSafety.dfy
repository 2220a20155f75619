/** What every run of server requests keeps: rotation chains, token versions, single redemption. */
module AuthSafety {
  import opened Options
  import opened AuthServer

  // ----- The invariant

  predicate SessionsOk(s: Server) {
    && s.sessions.Keys == s.refreshTokens.Keys
    && forall j :: j in s.sessions ==> SessionOk(s, j)
  }

  /** A row and its token agree; a replaced row is revoked; an un-revoked one carries the current version. */
  predicate SessionOk(s: Server, j: Jti)
    requires j in s.sessions && s.sessions.Keys == s.refreshTokens.Keys
  {
    var row, token := s.sessions[j], s.refreshTokens[j];
    && token.kind == Refresh && token.jti == j && token.sub == row.user && token.exp == row.expiresAt
    && row.user in s.users && s.users[row.user].org == token.org
    && (row.replacedBy.Some? ==>
          && row.revokedAt.Some?
          && row.replacedBy.value in s.sessions
          && s.sessions[row.replacedBy.value].user == row.user)
    && token.tv <= s.users[row.user].tokenVersion
    && (row.revokedAt.None? ==> token.tv == s.users[row.user].tokenVersion)
  }

  predicate AccessOk(s: Server) {
    forall t :: t in s.accessTokens ==>
      t.kind == Access && t.sub in s.users && t.tv <= s.users[t.sub].tokenVersion
  }

  /** No session replaces two others, and no login's session replaces any. */
  predicate Linear(s: Server) {
    && (forall a, b ::
          a in s.sessions && b in s.sessions && s.sessions[a].replacedBy.Some?
          && s.sessions[a].replacedBy == s.sessions[b].replacedBy ==>
            a == b)
    && forall a :: a in s.sessions && s.sessions[a].replacedBy.Some? ==> s.sessions[a].replacedBy.value !in s.logins
  }

  /** Consecutive sessions, each the replacement of the one before. */
  predicate Chain(s: Server, c: seq<Jti>) {
    && c != []
    && (forall i :: 0 <= i < |c| ==> c[i] in s.sessions)
    && forall i :: 0 <= i < |c| - 1 ==> s.sessions[c[i]].replacedBy == Some(c[i + 1])
  }

  ghost predicate Acyclic(s: Server) {
    forall c :: Chain(s, c) && |c| >= 2 ==> c[0] != c[|c| - 1]
  }

  ghost predicate FromLogin(s: Server, j: Jti) {
    exists c :: Chain(s, c) && c[0] in s.logins && c[|c| - 1] == j
  }

  ghost predicate Inv(s: Server) {
    && SessionsOk(s) && AccessOk(s) && Linear(s) && Acyclic(s)
    && (forall j :: j in s.sessions ==> FromLogin(s, j))
    && s.logins <= s.sessions.Keys
  }

  // ----- Links between sessions

  /** Both servers have the same sessions, linked the same way from the same logins. */
  predicate SameLinks(s: Server, t: Server) {
    && s.sessions.Keys == t.sessions.Keys && s.logins == t.logins
    && forall j :: j in s.sessions ==> s.sessions[j].replacedBy == t.sessions[j].replacedBy
  }

  ghost predicate LinksOk(s: Server) {
    && Linear(s) && Acyclic(s)
    && (forall j :: j in s.sessions ==> FromLogin(s, j))
    && s.logins <= s.sessions.Keys
  }

  lemma SameChains(s: Server, t: Server, c: seq<Jti>)
    requires SameLinks(s, t)
    ensures Chain(s, c) <==> Chain(t, c)
  {
  }

  lemma SameLinear(s: Server, t: Server)
    requires SameLinks(s, t) && Linear(s)
    ensures Linear(t)
  {
  }

  lemma SameFromLogin(s: Server, t: Server, j: Jti)
    requires SameLinks(s, t) && FromLogin(s, j)
    ensures FromLogin(t, j)
  {
    var c :| Chain(s, c) && c[0] in s.logins && c[|c| - 1] == j;
    SameChains(s, t, c);
  }

  lemma SameLinksKeep(s: Server, t: Server)
    requires SameLinks(s, t) && LinksOk(s)
    ensures LinksOk(t)
  {
    hide Chain, Linear, FromLogin;
    SameLinear(s, t);
    forall c | Chain(t, c) && |c| >= 2
      ensures c[0] != c[|c| - 1]
    {
      SameChains(s, t, c);
    }
    forall j | j in t.sessions
      ensures FromLogin(t, j)
    {
      SameFromLogin(s, t, j);
    }
  }

  /** The old chains after a new session without a successor, and perhaps a link to it, has been added. */
  predicate Grows(s: Server, t: Server, jti: Jti, from: Option<Jti>) {
    && jti !in s.sessions
    && t.sessions.Keys == s.sessions.Keys + {jti}
    && t.sessions[jti].replacedBy == None
    && (from.Some? ==> from.value in s.sessions && s.sessions[from.value].replacedBy == None)
    && (forall j :: j in s.sessions ==>
          t.sessions[j].replacedBy == if from == Some(j) then Some(jti) else s.sessions[j].replacedBy)
    && t.logins == (if from.Some? then s.logins else s.logins + {jti})
  }

  predicate TargetsExist(s: Server) {
    forall j :: j in s.sessions && s.sessions[j].replacedBy.Some? ==> s.sessions[j].replacedBy.value in s.sessions
  }

  lemma OldChainStays(s: Server, t: Server, jti: Jti, from: Option<Jti>, c: seq<Jti>)
    requires Grows(s, t, jti, from) && Chain(s, c)
    ensures Chain(t, c)
  {
  }

  lemma CycleIsOld(s: Server, t: Server, jti: Jti, from: Option<Jti>, c: seq<Jti>)
    requires Grows(s, t, jti, from) && Chain(t, c) && |c| >= 2 && c[0] == c[|c| - 1]
    ensures Chain(s, c)
  {
    forall i | 0 <= i < |c|
      ensures c[i] != jti
    {
      if i < |c| - 1 {
        assert t.sessions[c[i]].replacedBy == Some(c[i + 1]);
      } else {
        assert t.sessions[c[0]].replacedBy == Some(c[1]);
      }
    }
    forall i | 0 <= i < |c| - 1
      ensures s.sessions[c[i]].replacedBy == Some(c[i + 1])
    {
      assert c[i + 1] != jti;
    }
  }

  lemma GrowsLinear(s: Server, t: Server, jti: Jti, from: Option<Jti>)
    requires Grows(s, t, jti, from) && Linear(s) && TargetsExist(s) && s.logins <= s.sessions.Keys
    ensures Linear(t)
  {
  }

  lemma GrowsAcyclic(s: Server, t: Server, jti: Jti, from: Option<Jti>)
    requires Grows(s, t, jti, from) && Acyclic(s)
    ensures Acyclic(t)
  {
    hide Grows, Chain;
    forall c | Chain(t, c) && |c| >= 2
      ensures c[0] != c[|c| - 1]
    {
      if c[0] == c[|c| - 1] {
        CycleIsOld(s, t, jti, from, c);
      }
    }
  }

  lemma ChainSnoc(s: Server, t: Server, jti: Jti, from: Jti, c: seq<Jti>)
    requires Grows(s, t, jti, Some(from)) && Chain(s, c) && c[|c| - 1] == from
    ensures Chain(t, c + [jti])
  {
    OldChainStays(s, t, jti, Some(from), c);
  }

  lemma GrowsFromLogin(s: Server, t: Server, jti: Jti, from: Option<Jti>, j: Jti)
    requires Grows(s, t, jti, from) && j in t.sessions
    requires forall k :: k in s.sessions ==> FromLogin(s, k)
    ensures FromLogin(t, j)
  {
    if j != jti {
      assert FromLogin(s, j);
      var c :| Chain(s, c) && c[0] in s.logins && c[|c| - 1] == j;
      OldChainStays(s, t, jti, from, c);
    } else if from.Some? {
      assert FromLogin(s, from.value);
      var c :| Chain(s, c) && c[0] in s.logins && c[|c| - 1] == from.value;
      ChainSnoc(s, t, jti, from.value, c);
      assert (c + [jti])[0] == c[0];
    } else {
      assert Chain(t, [jti]);
    }
  }

  lemma GrowsKeeps(s: Server, t: Server, jti: Jti, from: Option<Jti>)
    requires Grows(s, t, jti, from) && LinksOk(s) && TargetsExist(s)
    ensures LinksOk(t)
  {
    hide Acyclic, Linear, FromLogin;
    GrowsLinear(s, t, jti, from);
    GrowsAcyclic(s, t, jti, from);
    forall j | j in t.sessions
      ensures FromLogin(t, j)
    {
      GrowsFromLogin(s, t, jti, from, j);
    }
  }

  // ----- Each handler keeps the invariant

  lemma IssueOk(s: Server, id: UserId, jti: Jti, now: int)
    requires SessionsOk(s) && AccessOk(s) && id in s.users && jti !in s.sessions
    ensures SessionsOk(Issue(s, id, jti, now)) && AccessOk(Issue(s, id, jti, now))
  {
    var t := Issue(s, id, jti, now);
    forall j | j in t.sessions
      ensures SessionOk(t, j)
    {
      if j != jti {
        assert SessionOk(s, j);
      }
    }
  }

  lemma LoginKeeps(s: Server, id: UserId, jti: Jti, now: int)
    requires Inv(s) && id in s.users && jti !in s.sessions
    ensures Inv(Issue(s, id, jti, now).(logins := s.logins + {jti}))
  {
    hide Acyclic, FromLogin, Linear, Chain;
    var t := Issue(s, id, jti, now).(logins := s.logins + {jti});
    IssueOk(s, id, jti, now);
    forall j | j in t.sessions
      ensures SessionOk(t, j)
    {
      assert SessionOk(Issue(s, id, jti, now), j);
    }
    assert forall j :: j in s.sessions ==> SessionOk(s, j);
    GrowsKeeps(s, t, jti, None);
  }

  lemma RotatedSessions(s: Server, token: Claims, jti: Jti, now: int)
    requires SessionsOk(s) && AccessOk(s) && CanRefresh(s, token, now) && jti !in s.sessions
    ensures SessionsOk(Rotated(s, token, jti, now)) && AccessOk(Rotated(s, token, jti, now))
  {
    var issued, t := Issue(s, token.sub, jti, now), Rotated(s, token, jti, now);
    IssueOk(s, token.sub, jti, now);
    assert SessionOk(s, token.jti);
    forall j | j in t.sessions
      ensures SessionOk(t, j)
    {
      assert SessionOk(issued, j);
    }
  }

  lemma RotatedGrows(s: Server, token: Claims, jti: Jti, now: int)
    requires SessionsOk(s) && CanRefresh(s, token, now) && jti !in s.sessions
    ensures Grows(s, Rotated(s, token, jti, now), jti, Some(token.jti))
    ensures TargetsExist(s)
  {
    assert forall j :: j in s.sessions ==> SessionOk(s, j);
  }

  lemma RefreshKeeps(s: Server, token: Claims, jti: Jti, now: int)
    requires Inv(s) && CanRefresh(s, token, now) && jti !in s.sessions
    ensures Inv(Rotated(s, token, jti, now))
  {
    hide Acyclic, FromLogin, Linear, SessionsOk, AccessOk;
    RotatedSessions(s, token, jti, now);
    RotatedGrows(s, token, jti, now);
    GrowsKeeps(s, Rotated(s, token, jti, now), jti, Some(token.jti));
  }

  lemma LogoutKeeps(s: Server, j0: Jti, now: int)
    requires Inv(s) && j0 in s.sessions && s.sessions[j0].revokedAt.None?
    ensures Inv(s.(sessions := s.sessions[j0 := s.sessions[j0].(revokedAt := Some(now))]))
  {
    hide Acyclic, FromLogin, Linear, Chain;
    var t := s.(sessions := s.sessions[j0 := s.sessions[j0].(revokedAt := Some(now))]);
    forall j | j in t.sessions
      ensures SessionOk(t, j)
    {
      assert SessionOk(s, j);
    }
    SameLinksKeep(s, t);
  }

  lemma ExpelKeeps(s: Server, id: UserId, changed: User, now: int)
    requires Inv(s) && id in s.users && changed.org == s.users[id].org
    ensures Inv(Expel(s, id, changed, now))
  {
    hide Acyclic, FromLogin, Linear, Chain;
    var t := Expel(s, id, changed, now);
    forall j | j in t.sessions
      ensures SessionOk(t, j)
    {
      assert SessionOk(s, j);
    }
    SameLinksKeep(s, t);
  }

  lemma ActivateKeeps(s: Server, id: UserId)
    requires Inv(s) && id in s.users
    ensures Inv(s.(users := s.users[id := s.users[id].(active := true)]))
  {
    hide Acyclic, FromLogin, Linear, Chain;
    var t := s.(users := s.users[id := s.users[id].(active := true)]);
    forall j | j in t.sessions
      ensures SessionOk(t, j)
    {
      assert SessionOk(s, j);
    }
    SameLinksKeep(s, t);
  }

  /** Every request keeps the invariant. */
  lemma HandleKeeps(s: Server, request: Request, jti: Jti, now: int)
    requires Inv(s) && (request.Login? || request.RefreshSession? ==> jti !in s.sessions)
    ensures Inv(Handle(s, request, jti, now).0)
  {
    hide Inv, Issue, Expel;
    match request {
      case Login(row, password) =>
        if CanLogin(s, row, password) {
          LoginKeeps(s, row.value, jti, now);
        }
      case RefreshSession(token) =>
        if CanRefresh(s, token, now) {
          RefreshKeeps(s, token, jti, now);
        }
      case Logout(token) =>
        if token.jti in s.sessions && s.sessions[token.jti].revokedAt.None? {
          LogoutKeeps(s, token.jti, now);
        }
      case ChangePassword(bearer, _, replacement) =>
        if IsPrincipal(s, bearer, now) {
          ExpelKeeps(s, bearer.sub, s.users[bearer.sub].(password := replacement), now);
        }
      case SetStatus(_, target, _) =>
        if target in s.users {
          ActivateKeeps(s, target);
          ExpelKeeps(s, target, s.users[target].(active := false), now);
        }
      case Call(_) =>
    }
  }

  lemma {:induction false} RunKeeps(s: Server, steps: seq<Step>)
    requires Inv(s) && FreshIds(s, steps)
    ensures Inv(After(s, steps))
    decreases |steps|
  {
    hide Inv, Handle;
    if steps != [] {
      HandleKeeps(s, steps[0].request, steps[0].jti, steps[0].now);
      RunKeeps(Handle(s, steps[0].request, steps[0].jti, steps[0].now).0, steps[1..]);
    }
  }

  lemma PristineOk(s: Server)
    requires Pristine(s)
    ensures Inv(s)
  {
  }

  // ----- Main results

  lemma {:induction false} SameStartOneExtends(s: Server, p: seq<Jti>, q: seq<Jti>, n: nat)
    requires Chain(s, p) && Chain(s, q) && p[0] == q[0] && n < |p| <= |q|
    ensures p[..n + 1] == q[..n + 1]
  {
    if n > 0 {
      SameStartOneExtends(s, p, q, n - 1);
      assert p[n - 1] == p[..n][n - 1] == q[..n][n - 1] == q[n - 1];
      assert s.sessions[p[n - 1]].replacedBy == Some(p[n]) && s.sessions[q[n - 1]].replacedBy == Some(q[n]);
      assert p[..n + 1] == p[..n] + [p[n]] && q[..n + 1] == q[..n] + [q[n]];
    }
  }

  lemma LinkedIsRevoked(s: Server, c: seq<Jti>, i: nat)
    requires SessionsOk(s) && Chain(s, c) && i + 1 < |c|
    ensures s.sessions[c[i]].revokedAt.Some?
  {
    assert s.sessions[c[i]].replacedBy == Some(c[i + 1]);
    assert SessionOk(s, c[i]);
  }

  /** In every reachable state a login's rotation chain has at most one un-revoked session. */
  lemma OneLiveSessionPerLogin(s0: Server, steps: seq<Step>, p: seq<Jti>, q: seq<Jti>)
    requires Pristine(s0) && FreshIds(s0, steps)
    requires var s := After(s0, steps);
             && Chain(s, p) && Chain(s, q) && p[0] == q[0]
             && s.sessions[p[|p| - 1]].revokedAt.None? && s.sessions[q[|q| - 1]].revokedAt.None?
    ensures p == q
  {
    hide After, FreshIds, SessionsOk, AccessOk, Linear, Acyclic, FromLogin;
    var s := After(s0, steps);
    PristineOk(s0);
    RunKeeps(s0, steps);
    var a, b := if |p| <= |q| then p else q, if |p| <= |q| then q else p;
    SameStartOneExtends(s, a, b, |a| - 1);
    assert a == a[..|a|] == b[..|a|];
    assert a[|a| - 1] == b[..|a|][|a| - 1] == b[|a| - 1];
    if |a| < |b| {
      LinkedIsRevoked(s, b, |a| - 1);
    }
  }

  lemma SamePredecessor(s: Server, p: seq<Jti>, q: seq<Jti>)
    requires Linear(s) && Chain(s, p) && Chain(s, q) && |p| > 1 && |q| > 1
    requires p[|p| - 1] == q[|q| - 1]
    ensures Chain(s, p[..|p| - 1]) && Chain(s, q[..|q| - 1])
    ensures p[|p| - 2] == q[|q| - 2]
  {
    var m, n := |p|, |q|;
    assert s.sessions[p[m - 2]].replacedBy == Some(p[m - 2 + 1]);
    assert s.sessions[q[n - 2]].replacedBy == Some(q[n - 2 + 1]);
  }

  lemma LoginHasNoPredecessor(s: Server, p: seq<Jti>)
    requires Linear(s) && Chain(s, p) && |p| > 1
    ensures p[|p| - 1] !in s.logins
  {
    assert s.sessions[p[|p| - 2]].replacedBy == Some(p[|p| - 2 + 1]);
  }

  lemma {:induction false} SameEndSameChain(s: Server, p: seq<Jti>, q: seq<Jti>)
    requires Linear(s) && Chain(s, p) && Chain(s, q)
    requires p[0] in s.logins && q[0] in s.logins && p[|p| - 1] == q[|q| - 1]
    ensures p == q
    decreases |p|
  {
    hide Linear;
    var m, n := |p|, |q|;
    if m > 1 && n > 1 {
      SamePredecessor(s, p, q);
      SameEndSameChain(s, p[..m - 1], q[..n - 1]);
      assert p == p[..m - 1] + [p[m - 1]] && q == q[..n - 1] + [q[n - 1]];
    } else if m > 1 {
      LoginHasNoPredecessor(s, p);
    } else if n > 1 {
      LoginHasNoPredecessor(s, q);
    }
  }

  /** Every session lies on exactly one chain from a login, and no chain meets itself. */
  lemma RotationIsLinear(s0: Server, steps: seq<Step>, j: Jti)
    requires Pristine(s0) && FreshIds(s0, steps) && j in After(s0, steps).sessions
    ensures var s := After(s0, steps);
            && (exists c :: Chain(s, c) && c[0] in s.logins && c[|c| - 1] == j)
            && (forall p, q :: Chain(s, p) && Chain(s, q) && p[0] in s.logins && q[0] in s.logins
                               && p[|p| - 1] == j && q[|q| - 1] == j ==>
                 p == q)
            && (forall c :: Chain(s, c) && |c| >= 2 ==> c[0] != c[|c| - 1])
  {
    hide After, FreshIds, SessionsOk, AccessOk, Linear;
    var s := After(s0, steps);
    PristineOk(s0);
    RunKeeps(s0, steps);
    forall p, q | Chain(s, p) && Chain(s, q) && p[0] in s.logins && q[0] in s.logins
                  && p[|p| - 1] == j && q[|q| - 1] == j
      ensures p == q
    {
      SameEndSameChain(s, p, q);
    }
    assert FromLogin(s, j);
  }

  /** A revoked row is never written again. */
  lemma RevokedIsFinal(s: Server, request: Request, jti: Jti, now: int, j: Jti)
    requires jti !in s.sessions && j in s.sessions && s.sessions[j].revokedAt.Some?
    ensures j in Handle(s, request, jti, now).0.sessions
    ensures Handle(s, request, jti, now).0.sessions[j] == s.sessions[j]
  {
  }

  lemma {:induction false} RevokedStays(s: Server, steps: seq<Step>, j: Jti)
    requires FreshIds(s, steps) && j in s.sessions && s.sessions[j].revokedAt.Some?
    ensures j in After(s, steps).sessions && After(s, steps).sessions[j] == s.sessions[j]
    decreases |steps|
  {
    hide Handle;
    if steps != [] {
      RevokedIsFinal(s, steps[0].request, steps[0].jti, steps[0].now, j);
      RevokedStays(Handle(s, steps[0].request, steps[0].jti, steps[0].now).0, steps[1..], j);
    }
  }

  lemma {:induction false} AfterConcat(s: Server, a: seq<Step>, b: seq<Step>)
    ensures After(s, a + b) == After(After(s, a), b)
    ensures FreshIds(s, a + b) <==> FreshIds(s, a) && FreshIds(After(s, a), b)
    decreases |a|
  {
    hide Handle;
    if a == [] {
      assert a + b == b;
    } else {
      assert (a + b)[1..] == a[1..] + b;
      AfterConcat(Handle(s, a[0].request, a[0].jti, a[0].now).0, a[1..], b);
    }
  }

  /** A refresh token is redeemed at most once: after a success, it is refused ever after. */
  lemma RedeemedAtMostOnce(s: Server, token: Claims, jti: Jti, now: int, later: seq<Step>, again: int)
    requires CanRefresh(s, token, now) && jti !in s.sessions
    requires FreshIds(Handle(s, RefreshSession(token), jti, now).0, later)
    ensures !CanRefresh(After(Handle(s, RefreshSession(token), jti, now).0, later), token, again)
  {
    hide After, FreshIds;
    var t := Handle(s, RefreshSession(token), jti, now).0;
    RevokedStays(t, later, token.jti);
  }

  /**
    In every reachable state a genuine refresh token is accepted exactly when its session is neither revoked nor
    expired and its user and organisation are active: the identity and version tests never decide alone.
   */
  lemma RefreshAcceptedExactly(s0: Server, steps: seq<Step>, token: Claims, now: int)
    requires Pristine(s0) && FreshIds(s0, steps)
    requires var s := After(s0, steps); token.jti in s.refreshTokens && s.refreshTokens[token.jti] == token
    ensures var s := After(s0, steps);
            && token.jti in s.sessions && s.sessions[token.jti].user in s.users
            && (CanRefresh(s, token, now) <==>
                  && s.sessions[token.jti].revokedAt.None? && s.sessions[token.jti].expiresAt > now
                  && s.users[s.sessions[token.jti].user].active
                  && s.users[s.sessions[token.jti].user].org in s.activeOrgs)
  {
    hide After, FreshIds, Acyclic, Linear, FromLogin;
    PristineOk(s0);
    RunKeeps(s0, steps);
    assert SessionOk(After(s0, steps), token.jti);
  }

  // ----- Credential changes

  lemma VersionGrows(s: Server, request: Request, jti: Jti, now: int, id: UserId)
    requires id in s.users
    ensures id in Handle(s, request, jti, now).0.users
    ensures s.users[id].tokenVersion <= Handle(s, request, jti, now).0.users[id].tokenVersion
  {
  }

  lemma {:induction false} VersionGrowsOverRun(s: Server, steps: seq<Step>, id: UserId)
    requires id in s.users
    ensures id in After(s, steps).users
    ensures s.users[id].tokenVersion <= After(s, steps).users[id].tokenVersion
    decreases |steps|
  {
    hide Handle;
    if steps != [] {
      VersionGrows(s, steps[0].request, steps[0].jti, steps[0].now, id);
      VersionGrowsOverRun(Handle(s, steps[0].request, steps[0].jti, steps[0].now).0, steps[1..], id);
    }
  }

  /** The request changed the user's password or deactivated the account. */
  predicate Expels(s: Server, request: Request, now: int, id: UserId) {
    && Handle(s, request, 0, now).1 == Done
    && match request
       case ChangePassword(bearer, _, _) => bearer.sub == id
       case SetStatus(_, target, active) => target == id && !active && id in s.users && s.users[id].active
       case _ => false
  }

  /** The server had issued this token before. */
  predicate Issued(s: Server, token: Claims) {
    Genuine(s, token)
  }

  /**
    After a password change or deactivation, no access or refresh token issued to that user before it is accepted
    in any later state, whatever happens in between, reactivation included.
   */
  lemma OldTokensStayDead(
      s0: Server, before: seq<Step>, change: Step, later: seq<Step>, id: UserId, token: Claims, now: int)
    requires Pristine(s0) && FreshIds(s0, before + [change] + later)
    requires Expels(After(s0, before), change.request, change.now, id)
    requires Issued(After(s0, before), token) && token.sub == id
    ensures !Accepted(After(s0, before + [change] + later), token, now)
  {
    hide Acyclic, Linear, FromLogin, After, FreshIds, Handle;
    var s := After(s0, before);
    var t := Handle(s, change.request, change.jti, change.now).0;
    AfterConcat(s0, before + [change], later);
    AfterConcat(s0, before, [change]);
    OneStep(s, change);
    PristineOk(s0);
    RunKeeps(s0, before);
    if token.kind == Refresh {
      assert SessionOk(s, token.jti);
    }
    ExpelRaises(s, change.request, change.jti, change.now, id);
    VersionGrowsOverRun(t, later, id);
  }

  lemma OneStep(s: Server, step: Step)
    ensures After(s, [step]) == Handle(s, step.request, step.jti, step.now).0
  {
    assert [step][1..] == [];
  }

  lemma ExpelRaises(s: Server, request: Request, jti: Jti, now: int, id: UserId)
    requires Expels(s, request, now, id)
    ensures id in s.users && id in Handle(s, request, jti, now).0.users
    ensures Handle(s, request, jti, now).0.users[id].tokenVersion > s.users[id].tokenVersion
  {
  }

  /** Right after such a change every session of the user is revoked. */
  lemma ExpelRevokesAll(s: Server, request: Request, jti: Jti, now: int, id: UserId, j: Jti)
    requires Expels(s, request, now, id) && j in s.sessions && s.sessions[j].user == id
    ensures j in Handle(s, request, jti, now).0.sessions
    ensures Handle(s, request, jti, now).0.sessions[j].revokedAt.Some?
  {
  }
}
