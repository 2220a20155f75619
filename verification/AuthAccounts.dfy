/**
  Accounts and tokens told by the requests answered so far: which requests may change an account, when they are
  carried out, and which tokens and passwords are in force after a run.
 */
module AuthAccounts {
  import opened Options
  import opened AuthServer
  import opened AuthSafety

  // ----- Who may change an account

  /** The bearer presents an unexpired access token of this server that still describes an active account. */
  predicate SignedIn(s: Server, bearer: Claims, now: int) {
    && bearer in s.accessTokens && bearer.kind == Access && now < bearer.exp
    && bearer.sub in s.users
    && s.users[bearer.sub].active && s.users[bearer.sub].org in s.activeOrgs
    && bearer.org == s.users[bearer.sub].org && bearer.role == s.users[bearer.sub].role
    && bearer.tv == s.users[bearer.sub].tokenVersion
  }

  /** The table names the bearer as an active administrator of the organisation. */
  predicate ActiveAdminOf(s: Server, bearer: Claims, now: int, org: OrgId) {
    && SignedIn(s, bearer, now)
    && s.users[bearer.sub].role == Admin && s.users[bearer.sub].org == org
  }

  /** Deactivating or activating `id` is the bearer's to decide: an administrator's, but not over the own account. */
  predicate MaySetStatus(s: Server, bearer: Claims, now: int, id: UserId, active: bool) {
    && id in s.users && ActiveAdminOf(s, bearer, now, s.users[id].org)
    && (active || bearer.sub != id)
  }

  predicate MayChangePassword(s: Server, bearer: Claims, now: int, current: string, replacement: string) {
    && SignedIn(s, bearer, now) && s.users[bearer.sub].password == current && replacement != current
  }

  /** A status request is carried out exactly for whom it may be, and then the row has the status asked for. */
  lemma StatusDoneExactly(s: Server, bearer: Claims, target: UserId, active: bool, jti: Jti, now: int)
    ensures var (t, reply) := Handle(s, SetStatus(bearer, target, active), jti, now);
            && (reply == Done <==> MaySetStatus(s, bearer, now, target, active))
            && (reply == Done ==> t.users.Keys == s.users.Keys && t.users[target].active == active)
            && (reply == Failed(401) <==> !SignedIn(s, bearer, now))
            && (reply == Failed(403) <==> SignedIn(s, bearer, now) && s.users[bearer.sub].role != Admin)
            && (reply != Done ==> t == s)
  {
  }

  /** A password is replaced exactly by the account's own bearer who knows the current one and gives another. */
  lemma PasswordDoneExactly(s: Server, bearer: Claims, current: string, replacement: string, jti: Jti, now: int)
    ensures var (t, reply) := Handle(s, ChangePassword(bearer, current, replacement), jti, now);
            && (reply == Done <==> MayChangePassword(s, bearer, now, current, replacement))
            && (reply == Done ==> t.users.Keys == s.users.Keys && t.users[bearer.sub].password == replacement)
            && (reply == Failed(401) <==> !SignedIn(s, bearer, now))
            && (reply != Done ==> t == s)
  {
  }

  /** The request sets the status of `id` and may. */
  predicate SetsStatus(s: Server, request: Request, now: int, id: UserId) {
    request.SetStatus? && request.target == id && MaySetStatus(s, request.bearer, now, id, request.active)
  }

  /** The request replaces the password of `id` and may. */
  predicate SetsPassword(s: Server, request: Request, now: int, id: UserId) {
    && request.ChangePassword? && request.bearer.sub == id
    && MayChangePassword(s, request.bearer, now, request.current, request.replacement)
  }

  /** The request ends what was issued to `id`: a new password, or the deactivation of an active account. */
  predicate Ends(s: Server, request: Request, now: int, id: UserId) {
    || SetsPassword(s, request, now, id)
    || (SetsStatus(s, request, now, id) && s.users[id].active && !request.active)
  }

  /**
    What any request does to any account: rows neither come nor go, organisation and role stay, the status and the
    password change only by a request that may set them, and the version rises exactly when the account is ended.
   */
  lemma AccountFrame(s: Server, request: Request, jti: Jti, now: int, id: UserId)
    requires id in s.users
    ensures var t := Handle(s, request, jti, now).0;
            && t.users.Keys == s.users.Keys && t.activeOrgs == s.activeOrgs
            && t.accessLifetime == s.accessLifetime && t.refreshLifetime == s.refreshLifetime
            && t.users[id].org == s.users[id].org && t.users[id].role == s.users[id].role
            && t.users[id].active == (if SetsStatus(s, request, now, id) then request.active else s.users[id].active)
            && t.users[id].password
               == (if SetsPassword(s, request, now, id) then request.replacement else s.users[id].password)
            && t.users[id].tokenVersion == s.users[id].tokenVersion + (if Ends(s, request, now, id) then 1 else 0)
  {
  }

  // ----- Sessions

  /** The request starts a session for `id`: a login with the right password, or a live refresh token of `id`. */
  predicate Starts(s: Server, request: Request, now: int, id: UserId) {
    && id in s.users && s.users[id].active && s.users[id].org in s.activeOrgs
    && match request
       case Login(row, password) => row == Some(id) && password == s.users[id].password
       case RefreshSession(token) =>
         && token.kind == Refresh && token.sub == id && now < token.exp
         && token.jti in s.refreshTokens && s.refreshTokens[token.jti] == token
         && token.jti in s.sessions && s.sessions[token.jti].revokedAt.None?
       case _ => false
  }

  /** The request spends session `j`: it is redeemed, its holder logs out, or its account is ended. */
  predicate Spends(s: Server, request: Request, now: int, j: Jti)
    requires j in s.sessions
  {
    || (request.RefreshSession? && request.token.jti == j && Starts(s, request, now, s.sessions[j].user))
    || (request.Logout? && request.token.jti == j && j in s.refreshTokens && request.token == s.refreshTokens[j]
        && now < request.token.exp)
    || Ends(s, request, now, s.sessions[j].user)
  }

  /** Exactly a request that starts a session is answered with tokens, which are the user's and run their lifetime. */
  lemma TokensExactly(s: Server, request: Request, jti: Jti, now: int)
    requires SessionsOk(s) && jti !in s.sessions
    ensures var (t, reply) := Handle(s, request, jti, now);
            && (reply.Tokens? <==> exists id :: Starts(s, request, now, id))
            && (forall id :: reply.Tokens? && Starts(s, request, now, id) ==>
                  && reply.access
                     == Claims(Access, jti, id, s.users[id].org, s.users[id].role, s.users[id].tokenVersion,
                               now + s.accessLifetime)
                  && reply.refresh
                     == Claims(Refresh, jti, id, s.users[id].org, s.users[id].role, s.users[id].tokenVersion,
                               now + s.refreshLifetime)
                  && t.accessTokens == s.accessTokens + {reply.access}
                  && t.refreshTokens == s.refreshTokens[jti := reply.refresh]
                  && t.sessions.Keys == s.sessions.Keys + {jti}
                  && t.sessions[jti] == Session(id, reply.refresh.exp, None, None))
            && (!reply.Tokens? ==>
                  && t.accessTokens == s.accessTokens && t.refreshTokens == s.refreshTokens
                  && t.sessions.Keys == s.sessions.Keys)
  {
    match request {
      case Login(row, password) =>
        if CanLogin(s, row, password) {
          assert Starts(s, request, now, row.value);
        }
      case RefreshSession(token) =>
        if token.jti in s.sessions && token.jti in s.refreshTokens {
          assert SessionOk(s, token.jti);
        }
        if CanRefresh(s, token, now) {
          assert Starts(s, request, now, token.sub);
        }
      case _ =>
    }
  }

  /** A session stays, with its user and expiry, and is revoked by a request exactly when that request spends it. */
  lemma SessionFrame(s: Server, request: Request, jti: Jti, now: int, j: Jti)
    requires SessionsOk(s) && jti !in s.sessions && j in s.sessions
    ensures var t := Handle(s, request, jti, now).0;
            && j in t.sessions
            && t.sessions[j].user == s.sessions[j].user && t.sessions[j].expiresAt == s.sessions[j].expiresAt
            && (s.sessions[j].revokedAt.Some? ==> t.sessions[j] == s.sessions[j])
            && (s.sessions[j].revokedAt.None? ==>
                  t.sessions[j].revokedAt == if Spends(s, request, now, j) then Some(now) else None)
  {
    assert SessionOk(s, j);
    match request {
      case Login(_, _) =>
      case RefreshSession(token) =>
        hide RevokeAll;
      case Logout(_) =>
      case ChangePassword(_, _, _) =>
        hide Issue;
      case SetStatus(_, _, _) =>
        hide Issue;
      case Call(_) =>
    }
  }

  // ----- What a run of requests leaves in force

  /** The server after the first `n` requests of a run. */
  function At(s0: Server, steps: seq<Step>, n: nat): Server
    requires n <= |steps|
  {
    After(s0, steps[..n])
  }

  function ReplyAt(s0: Server, steps: seq<Step>, i: nat): Reply
    requires i < |steps|
  {
    Handle(At(s0, steps, i), steps[i].request, steps[i].jti, steps[i].now).1
  }

  predicate StatusSetAt(s0: Server, steps: seq<Step>, i: nat, id: UserId)
    requires i < |steps|
  {
    steps[i].request.SetStatus? && steps[i].request.target == id && ReplyAt(s0, steps, i) == Done
  }

  predicate PasswordSetAt(s0: Server, steps: seq<Step>, i: nat, id: UserId)
    requires i < |steps|
  {
    steps[i].request.ChangePassword? && steps[i].request.bearer.sub == id && ReplyAt(s0, steps, i) == Done
  }

  /** The status last set for the account. */
  function StatusNow(s0: Server, steps: seq<Step>, n: nat, id: UserId): bool
    requires n <= |steps| && id in s0.users
  {
    if n == 0 then s0.users[id].active
    else if StatusSetAt(s0, steps, n - 1, id) then steps[n - 1].request.active
    else StatusNow(s0, steps, n - 1, id)
  }

  /** The password last set for the account. */
  function PasswordNow(s0: Server, steps: seq<Step>, n: nat, id: UserId): string
    requires n <= |steps| && id in s0.users
  {
    if n == 0 then s0.users[id].password
    else if PasswordSetAt(s0, steps, n - 1, id) then steps[n - 1].request.replacement
    else PasswordNow(s0, steps, n - 1, id)
  }

  predicate EndedAt(s0: Server, steps: seq<Step>, i: nat, id: UserId)
    requires i < |steps| && id in s0.users
  {
    || PasswordSetAt(s0, steps, i, id)
    || (StatusSetAt(s0, steps, i, id) && !steps[i].request.active && StatusNow(s0, steps, i, id))
  }

  /** No password change and no deactivation of the account from request `i` up to request `n`. */
  ghost predicate Undisturbed(s0: Server, steps: seq<Step>, i: nat, n: nat, id: UserId)
    requires i <= n <= |steps| && id in s0.users
  {
    forall k: nat :: i <= k < n ==> !EndedAt(s0, steps, k, id)
  }

  lemma AtNext(s0: Server, steps: seq<Step>, n: nat)
    requires n < |steps|
    ensures At(s0, steps, n + 1) == Handle(At(s0, steps, n), steps[n].request, steps[n].jti, steps[n].now).0
    ensures FreshIds(s0, steps) ==> FreshIds(s0, steps[..n]) && steps[n].jti !in At(s0, steps, n).sessions
  {
    hide Handle;
    AfterConcat(s0, steps[..n], [steps[n]]);
    AfterConcat(s0, steps[..n + 1], steps[n + 1..]);
    assert steps[..n + 1] == steps[..n] + [steps[n]] && steps == steps[..n + 1] + steps[n + 1..];
    OneStep(At(s0, steps, n), steps[n]);
  }

  lemma AtOk(s0: Server, steps: seq<Step>, n: nat)
    requires Pristine(s0) && FreshIds(s0, steps) && n <= |steps|
    ensures Inv(At(s0, steps, n)) && SessionsOk(At(s0, steps, n))
  {
    hide Handle, SessionsOk, AccessOk, Linear, Acyclic, FromLogin;
    AfterConcat(s0, steps[..n], steps[n..]);
    assert steps == steps[..n] + steps[n..];
    PristineOk(s0);
    RunKeeps(s0, steps[..n]);
  }

  /** One request sets what the replies say it sets. */
  lemma SetExactly(s0: Server, steps: seq<Step>, i: nat, id: UserId)
    requires i < |steps|
    ensures StatusSetAt(s0, steps, i, id) <==> SetsStatus(At(s0, steps, i), steps[i].request, steps[i].now, id)
    ensures PasswordSetAt(s0, steps, i, id) <==> SetsPassword(At(s0, steps, i), steps[i].request, steps[i].now, id)
  {
    hide Handle, After, MaySetStatus, MayChangePassword;
    var s, step := At(s0, steps, i), steps[i];
    match step.request {
      case SetStatus(bearer, target, active) => StatusDoneExactly(s, bearer, target, active, step.jti, step.now);
      case ChangePassword(bearer, current, replacement) =>
        PasswordDoneExactly(s, bearer, current, replacement, step.jti, step.now);
      case _ =>
    }
  }

  /** Every account is as the requests answered so far describe it. */
  lemma {:induction false} AccountsFollowLog(s0: Server, steps: seq<Step>, n: nat, id: UserId)
    requires n <= |steps| && id in s0.users
    ensures var s := At(s0, steps, n);
            && s.users.Keys == s0.users.Keys && s.activeOrgs == s0.activeOrgs
            && s.accessLifetime == s0.accessLifetime && s.refreshLifetime == s0.refreshLifetime
            && s.users[id].org == s0.users[id].org && s.users[id].role == s0.users[id].role
            && s.users[id].active == StatusNow(s0, steps, n, id)
            && s.users[id].password == PasswordNow(s0, steps, n, id)
  {
    hide Handle, SetsStatus, SetsPassword, Ends, StatusSetAt, PasswordSetAt;
    if n > 0 {
      var s := At(s0, steps, n - 1);
      AccountsFollowLog(s0, steps, n - 1, id);
      AtNext(s0, steps, n - 1);
      SetExactly(s0, steps, n - 1, id);
      AccountFrame(s, steps[n - 1].request, steps[n - 1].jti, steps[n - 1].now, id);
    }
  }

  /** The version of an account rises by one exactly at the requests that end what was issued to it. */
  lemma VersionStep(s0: Server, steps: seq<Step>, i: nat, id: UserId)
    requires i < |steps| && id in s0.users
    ensures id in At(s0, steps, i).users && id in At(s0, steps, i + 1).users
    ensures At(s0, steps, i + 1).users[id].tokenVersion
         == At(s0, steps, i).users[id].tokenVersion + if EndedAt(s0, steps, i, id) then 1 else 0
  {
    hide Handle, After, SetsStatus, SetsPassword, StatusSetAt, PasswordSetAt, PasswordNow;
    AccountsFollowLog(s0, steps, i, id);
    AtNext(s0, steps, i);
    SetExactly(s0, steps, i, id);
    AccountFrame(At(s0, steps, i), steps[i].request, steps[i].jti, steps[i].now, id);
  }

  /** The version of an account is the same at two points exactly when nothing ended the account between them. */
  lemma {:induction false} VersionTells(s0: Server, steps: seq<Step>, i: nat, n: nat, id: UserId)
    requires i <= n <= |steps| && id in s0.users
    ensures id in At(s0, steps, i).users && id in At(s0, steps, n).users
    ensures At(s0, steps, i).users[id].tokenVersion <= At(s0, steps, n).users[id].tokenVersion
    ensures At(s0, steps, i).users[id].tokenVersion == At(s0, steps, n).users[id].tokenVersion
            <==> Undisturbed(s0, steps, i, n, id)
    decreases n
  {
    hide After, EndedAt;
    if i < n {
      VersionTells(s0, steps, i, n - 1, id);
      VersionStep(s0, steps, n - 1, id);
    } else {
      AccountsFollowLog(s0, steps, n, id);
    }
  }

  // ----- Which tokens and passwords work after a run

  /** The refresh token was redeemed by request `k`, or its holder logged out before it expired. */
  predicate SpentAt(s0: Server, steps: seq<Step>, k: nat, token: Claims)
    requires k < |steps|
  {
    || (steps[k].request == RefreshSession(token) && ReplyAt(s0, steps, k).Tokens?)
    || (steps[k].request == Logout(token) && steps[k].now < token.exp)
  }

  ghost predicate Unspent(s0: Server, steps: seq<Step>, i: nat, n: nat, token: Claims)
    requires i <= n <= |steps|
  {
    forall k: nat :: i <= k < n ==> !SpentAt(s0, steps, k, token)
  }

  /** The session of a refresh token as the server keeps it. */
  predicate HasSession(s: Server, token: Claims) {
    && token.kind == Refresh && token.sub in s.users
    && token.jti in s.refreshTokens && s.refreshTokens[token.jti] == token
    && token.jti in s.sessions && s.sessions[token.jti].user == token.sub
  }

  /** What one request does to the session of a token. */
  lemma SessionStep(s0: Server, steps: seq<Step>, n: nat, token: Claims)
    requires Pristine(s0) && FreshIds(s0, steps) && n < |steps| && token.sub in s0.users
    requires HasSession(At(s0, steps, n), token)
    ensures HasSession(At(s0, steps, n + 1), token)
    ensures At(s0, steps, n + 1).sessions[token.jti].revokedAt.None?
            <==> && At(s0, steps, n).sessions[token.jti].revokedAt.None?
                 && !SpentAt(s0, steps, n, token) && !EndedAt(s0, steps, n, token.sub)
  {
    hide Handle, After, StatusSetAt, PasswordSetAt, PasswordNow, FreshIds, SetsStatus, SetsPassword;
    hide SessionOk, AccessOk, Acyclic, Linear, FromLogin;
    var s, step := At(s0, steps, n), steps[n];
    AtOk(s0, steps, n);
    AtNext(s0, steps, n);
    AccountsFollowLog(s0, steps, n, token.sub);
    AccountFrame(s, step.request, step.jti, step.now, token.sub);
    SetExactly(s0, steps, n, token.sub);
    TokensExactly(s, step.request, step.jti, step.now);
    SessionFrame(s, step.request, step.jti, step.now, token.jti);
    if s.sessions[token.jti].revokedAt.None? {
      SpendsTells(s, step.request, step.jti, step.now, token);
    }
  }

  /** A session that is not revoked is spent through its own token alone, and redeeming it is answered with tokens. */
  lemma SpendsTells(s: Server, request: Request, jti: Jti, now: int, token: Claims)
    requires SessionsOk(s) && jti !in s.sessions && HasSession(s, token) && s.sessions[token.jti].revokedAt.None?
    ensures Spends(s, request, now, token.jti)
            <==> || (request == RefreshSession(token) && Handle(s, request, jti, now).1.Tokens?)
                 || (request == Logout(token) && now < token.exp)
                 || Ends(s, request, now, token.sub)
  {
    hide Handle, Ends, SessionOk;
    TokensExactly(s, request, jti, now);
  }

  lemma {:induction false} SessionTells(s0: Server, steps: seq<Step>, i: nat, n: nat, token: Claims)
    requires Pristine(s0) && FreshIds(s0, steps) && i <= n <= |steps| && token.sub in s0.users
    requires HasSession(At(s0, steps, i), token) && At(s0, steps, i).sessions[token.jti].revokedAt.None?
    ensures HasSession(At(s0, steps, n), token)
    ensures At(s0, steps, n).sessions[token.jti].revokedAt.None?
            <==> Unspent(s0, steps, i, n, token) && Undisturbed(s0, steps, i, n, token.sub)
    decreases n
  {
    hide After, SpentAt, EndedAt, FreshIds;
    if i < n {
      SessionTells(s0, steps, i, n - 1, token);
      SessionStep(s0, steps, n - 1, token);
    }
  }

  /** The state right after a request that was answered with tokens. */
  lemma JustIssued(s0: Server, steps: seq<Step>, i: nat)
    requires Pristine(s0) && FreshIds(s0, steps) && i < |steps| && ReplyAt(s0, steps, i).Tokens?
    ensures var s, access, refresh := At(s0, steps, i + 1), ReplyAt(s0, steps, i).access, ReplyAt(s0, steps, i).refresh;
            && access.kind == Access && access in s.accessTokens && access.sub == refresh.sub
            && access.sub in s0.users && access.sub in s.users
            && access.org == s0.users[access.sub].org && access.role == s0.users[access.sub].role
            && access.tv == s.users[access.sub].tokenVersion
            && access.exp == steps[i].now + s0.accessLifetime && refresh.exp == steps[i].now + s0.refreshLifetime
            && HasSession(s, refresh) && s.sessions[refresh.jti].revokedAt.None?
  {
    hide Handle, After, FreshIds, Inv, SessionsOk, Starts;
    var s, step := At(s0, steps, i), steps[i];
    AtOk(s0, steps, i);
    AtNext(s0, steps, i);
    TokensExactly(s, step.request, step.jti, step.now);
    var id :| Starts(s, step.request, step.now, id);
    StartsNothingElse(s, step.request, step.now, id);
    AccountFrame(s, step.request, step.jti, step.now, id);
    UsersFollow(s0, steps, i);
    AccountsFollowLog(s0, steps, i, id);
  }

  lemma StartsNothingElse(s: Server, request: Request, now: int, id: UserId)
    requires Starts(s, request, now, id)
    ensures id in s.users && !Ends(s, request, now, id)
  {
  }

  lemma {:induction false} UsersFollow(s0: Server, steps: seq<Step>, n: nat)
    requires n <= |steps|
    ensures At(s0, steps, n).users.Keys == s0.users.Keys && At(s0, steps, n).activeOrgs == s0.activeOrgs
  {
    hide Handle;
    if n > 0 {
      UsersFollow(s0, steps, n - 1);
      AtNext(s0, steps, n - 1);
      UsersStay(At(s0, steps, n - 1), steps[n - 1].request, steps[n - 1].jti, steps[n - 1].now);
    }
  }

  lemma UsersStay(s: Server, request: Request, jti: Jti, now: int)
    ensures Handle(s, request, jti, now).0.users.Keys == s.users.Keys
    ensures Handle(s, request, jti, now).0.activeOrgs == s.activeOrgs
  {
  }

  /** The account may be used after the first `n` requests. */
  predicate Open(s0: Server, steps: seq<Step>, n: nat, id: UserId)
    requires n <= |steps|
  {
    id in s0.users && s0.users[id].org in s0.activeOrgs && StatusNow(s0, steps, n, id)
  }

  /** A login is answered with tokens exactly for an open account with the password last set for it. */
  lemma LoginExactly(s0: Server, steps: seq<Step>, row: Option<UserId>, password: string, jti: Jti, now: int)
    requires Pristine(s0) && FreshIds(s0, steps) && jti !in After(s0, steps).sessions
    ensures Handle(After(s0, steps), Login(row, password), jti, now).1.Tokens?
            <==> row.Some? && Open(s0, steps, |steps|, row.value)
                 && password == PasswordNow(s0, steps, |steps|, row.value)
  {
    hide Handle, After, FreshIds, Inv, SessionsOk, StatusNow, PasswordNow;
    var n := |steps|;
    var s := At(s0, steps, n);
    assert steps[..n] == steps;
    AtOk(s0, steps, n);
    TokensExactly(s, Login(row, password), jti, now);
    UsersFollow(s0, steps, n);
    if row.Some? && row.value in s0.users {
      AccountsFollowLog(s0, steps, n, row.value);
      assert Starts(s, Login(row, password), now, row.value)
          <==> Open(s0, steps, n, row.value) && password == PasswordNow(s0, steps, n, row.value);
    }
  }

  /**
    An access token answered by request `i` is accepted exactly until its lifetime is over, while the account is open,
    and as long as no password change and no deactivation has come since.
   */
  lemma AccessExactly(s0: Server, steps: seq<Step>, i: nat, now: int)
    requires Pristine(s0) && FreshIds(s0, steps) && i < |steps| && ReplyAt(s0, steps, i).Tokens?
    ensures var token := ReplyAt(s0, steps, i).access;
            && token.sub in s0.users && token.role == s0.users[token.sub].role && token.org == s0.users[token.sub].org
            && (SignedIn(After(s0, steps), token, now)
                <==> && now < steps[i].now + s0.accessLifetime && Open(s0, steps, |steps|, token.sub)
                     && Undisturbed(s0, steps, i + 1, |steps|, token.sub))
            && (IsPrincipal(After(s0, steps), token, now) <==> SignedIn(After(s0, steps), token, now))
  {
    hide Handle, After, FreshIds, Inv, SessionsOk, StatusNow, Undisturbed, HasSession;
    var n, token := |steps|, ReplyAt(s0, steps, i).access;
    assert steps[..n] == steps;
    JustIssued(s0, steps, i);
    AccountsFollowLog(s0, steps, n, token.sub);
    VersionTells(s0, steps, i + 1, n, token.sub);
    AccessStays(s0, steps, i + 1, n, token);
  }

  lemma {:induction false} AccessStays(s0: Server, steps: seq<Step>, i: nat, n: nat, token: Claims)
    requires Pristine(s0) && FreshIds(s0, steps) && i <= n <= |steps| && token in At(s0, steps, i).accessTokens
    ensures token in At(s0, steps, n).accessTokens
    decreases n
  {
    hide Handle, After, FreshIds, Inv, SessionsOk;
    if i < n {
      AccessStays(s0, steps, i, n - 1, token);
      AtOk(s0, steps, n - 1);
      AtNext(s0, steps, n - 1);
      TokensExactly(At(s0, steps, n - 1), steps[n - 1].request, steps[n - 1].jti, steps[n - 1].now);
    }
  }

  /** No access token is genuine that was not the answer to one of the requests. */
  lemma {:induction false} OnlyAnswered(s0: Server, steps: seq<Step>, n: nat, token: Claims)
    requires Pristine(s0) && FreshIds(s0, steps) && n <= |steps| && token in At(s0, steps, n).accessTokens
    ensures exists i: nat :: i < n && ReplyAt(s0, steps, i).Tokens? && ReplyAt(s0, steps, i).access == token
  {
    hide Handle, FreshIds, Inv, SessionsOk;
    if n > 0 {
      AtOk(s0, steps, n - 1);
      AtNext(s0, steps, n - 1);
      TokensExactly(At(s0, steps, n - 1), steps[n - 1].request, steps[n - 1].jti, steps[n - 1].now);
      if token in At(s0, steps, n - 1).accessTokens {
        OnlyAnswered(s0, steps, n - 1, token);
      } else {
        assert ReplyAt(s0, steps, n - 1).Tokens?;
      }
    }
  }

  /**
    A refresh token answered by request `i` can be redeemed exactly until its lifetime is over, while the account is
    open, and as long as it has not been redeemed or logged out and no password change and no deactivation has come.
   */
  lemma RefreshExactly(s0: Server, steps: seq<Step>, i: nat, jti: Jti, now: int)
    requires Pristine(s0) && FreshIds(s0, steps) && i < |steps| && ReplyAt(s0, steps, i).Tokens?
    requires jti !in After(s0, steps).sessions
    ensures var token := ReplyAt(s0, steps, i).refresh;
            && token.sub in s0.users
            && (Handle(After(s0, steps), RefreshSession(token), jti, now).1.Tokens?
                <==> && now < steps[i].now + s0.refreshLifetime && Open(s0, steps, |steps|, token.sub)
                     && Unspent(s0, steps, i + 1, |steps|, token)
                     && Undisturbed(s0, steps, i + 1, |steps|, token.sub))
  {
    hide Handle, After, FreshIds, Inv, SessionsOk, StatusNow, Undisturbed, Unspent;
    var n, token := |steps|, ReplyAt(s0, steps, i).refresh;
    var s := At(s0, steps, n);
    assert steps[..n] == steps;
    JustIssued(s0, steps, i);
    AccountsFollowLog(s0, steps, n, token.sub);
    SessionTells(s0, steps, i + 1, n, token);
    AtOk(s0, steps, n);
    TokensExactly(s, RefreshSession(token), jti, now);
    assert (exists id :: Starts(s, RefreshSession(token), now, id)) <==> Starts(s, RefreshSession(token), now, token.sub);
  }

  // ----- Organisations keep an administrator

  ghost predicate HasAdmin(s: Server, org: OrgId) {
    exists id :: id in s.users && s.users[id].org == org && s.users[id].role == Admin && s.users[id].active
  }

  lemma AdminStays(s: Server, request: Request, jti: Jti, now: int, org: OrgId)
    requires HasAdmin(s, org)
    ensures HasAdmin(Handle(s, request, jti, now).0, org)
  {
    hide Handle;
    var t := Handle(s, request, jti, now).0;
    var id :| id in s.users && s.users[id].org == org && s.users[id].role == Admin && s.users[id].active;
    AccountFrame(s, request, jti, now, id);
    if !t.users[id].active {
      AccountFrame(s, request, jti, now, request.bearer.sub);
      assert t.users[request.bearer.sub].active;
    }
  }

  /** No run of requests takes the last active administrator from an organisation. */
  lemma {:induction false} LastAdminStays(s: Server, steps: seq<Step>, org: OrgId)
    requires HasAdmin(s, org)
    ensures HasAdmin(After(s, steps), org)
    decreases |steps|
  {
    hide Handle, HasAdmin;
    if steps != [] {
      AdminStays(s, steps[0].request, steps[0].jti, steps[0].now, org);
      LastAdminStays(Handle(s, steps[0].request, steps[0].jti, steps[0].now).0, steps[1..], org);
    }
  }
}
