/**
  Sessions and tokens on the server: login, refresh rotation, logout, password change, account status.
  Each request is one atomic step. A token is its signed claims; it decodes only if the server issued it.
 */
module AuthServer {
  import opened Options

  type UserId = string
  type OrgId = string
  type Jti = nat

  datatype Role = Admin | Attorney | Reviewer

  datatype User = User(org: OrgId, active: bool, tokenVersion: nat, role: Role, password: string)

  datatype TokenKind = Access | Refresh

  datatype Claims = Claims(kind: TokenKind, jti: Jti, sub: UserId, org: OrgId, role: Role, tv: nat, exp: int)

  datatype Session = Session(user: UserId, expiresAt: int, revokedAt: Option<int>, replacedBy: Option<Jti>)

  /** The tables, the refresh and access tokens signed so far, and which sessions a login started. */
  datatype Server = Server(
    users: map<UserId, User>,
    activeOrgs: set<OrgId>,
    sessions: map<Jti, Session>,
    refreshTokens: map<Jti, Claims>,
    accessTokens: set<Claims>,
    logins: set<Jti>,
    accessLifetime: nat,
    refreshLifetime: nat)

  datatype Request =
    | Login(row: Option<UserId>, password: string)
    | RefreshSession(token: Claims)
    | Logout(token: Claims)
    | ChangePassword(bearer: Claims, current: string, replacement: string)
    | SetStatus(bearer: Claims, target: UserId, active: bool)
    | Call(bearer: Claims)

  datatype Reply =
    | Tokens(access: Claims, refresh: Claims)
    | Done
    | Failed(status: nat)

  // ----- Decoding and checking tokens

  predicate Genuine(s: Server, token: Claims) {
    match token.kind
    case Access => token in s.accessTokens
    case Refresh => token.jti in s.refreshTokens && s.refreshTokens[token.jti] == token
  }

  predicate Decodes(s: Server, token: Claims, expected: TokenKind, now: int) {
    Genuine(s, token) && token.exp > now && token.kind == expected
  }

  /** `get_current_principal` */
  predicate IsPrincipal(s: Server, token: Claims, now: int) {
    && Decodes(s, token, Access, now)
    && token.sub in s.users
    && var user := s.users[token.sub];
       user.active && user.org in s.activeOrgs && user.org == token.org
       && user.tokenVersion == token.tv && user.role == token.role
  }

  /** The test `refresh` makes before it rotates. */
  predicate CanRefresh(s: Server, token: Claims, now: int) {
    && Decodes(s, token, Refresh, now)
    && token.jti in s.sessions
    && var row := s.sessions[token.jti];
       row.user in s.users
       && var user := s.users[row.user];
          row.revokedAt.None? && row.expiresAt > now && user.active && user.org in s.activeOrgs
          && row.user == token.sub && user.org == token.org && user.tokenVersion == token.tv
  }

  predicate Accepted(s: Server, token: Claims, now: int) {
    IsPrincipal(s, token, now) || CanRefresh(s, token, now)
  }

  // ----- Handlers

  function AccessFor(s: Server, id: UserId, jti: Jti, now: int): Claims
    requires id in s.users
  {
    var u := s.users[id];
    Claims(Access, jti, id, u.org, u.role, u.tokenVersion, now + s.accessLifetime)
  }

  function RefreshFor(s: Server, id: UserId, jti: Jti, now: int): Claims
    requires id in s.users
  {
    var u := s.users[id];
    Claims(Refresh, jti, id, u.org, u.role, u.tokenVersion, now + s.refreshLifetime)
  }

  /** `_issue_token_response` and the new session row. */
  function Issue(s: Server, id: UserId, jti: Jti, now: int): Server
    requires id in s.users
  {
    s.(sessions := s.sessions[jti := Session(id, now + s.refreshLifetime, None, None)],
       refreshTokens := s.refreshTokens[jti := RefreshFor(s, id, jti, now)],
       accessTokens := s.accessTokens + {AccessFor(s, id, jti, now)})
  }

  function IssuedReply(s: Server, id: UserId, jti: Jti, now: int): Reply
    requires id in s.users
  {
    Tokens(AccessFor(s, id, jti, now), RefreshFor(s, id, jti, now))
  }

  /** The presented session is revoked and points to its replacement. */
  function Rotated(s: Server, token: Claims, jti: Jti, now: int): Server
    requires token.sub in s.users && token.jti in s.sessions
  {
    var issued := Issue(s, token.sub, jti, now);
    issued.(sessions := issued.sessions[token.jti :=
      s.sessions[token.jti].(revokedAt := Some(now), replacedBy := Some(jti))])
  }

  predicate CanLogin(s: Server, row: Option<UserId>, password: string) {
    && row.Some? && row.value in s.users
    && s.users[row.value].org in s.activeOrgs && s.users[row.value].active
    && s.users[row.value].password == password
  }

  /** All un-revoked sessions of a user become revoked now. */
  function RevokeAll(sessions: map<Jti, Session>, id: UserId, now: int): map<Jti, Session> {
    map j | j in sessions ::
      if sessions[j].user == id && sessions[j].revokedAt.None? then sessions[j].(revokedAt := Some(now))
      else sessions[j]
  }

  /** The new version of a user whose earlier tokens must die, with all sessions revoked. */
  function Expel(s: Server, id: UserId, changed: User, now: int): Server
    requires id in s.users
  {
    s.(users := s.users[id := changed.(tokenVersion := s.users[id].tokenVersion + 1)],
       sessions := RevokeAll(s.sessions, id, now))
  }

  function Handle(s: Server, request: Request, jti: Jti, now: int): (Server, Reply) {
    match request
    case Login(row, password) =>
      if !CanLogin(s, row, password) then (s, Failed(401))
      else (Issue(s, row.value, jti, now).(logins := s.logins + {jti}), IssuedReply(s, row.value, jti, now))
    case RefreshSession(token) =>
      if !CanRefresh(s, token, now) then (s, Failed(401))
      else (Rotated(s, token, jti, now), IssuedReply(s, token.sub, jti, now))
    case Logout(token) =>
      if Decodes(s, token, Refresh, now) && token.jti in s.sessions && s.sessions[token.jti].revokedAt.None? then
        (s.(sessions := s.sessions[token.jti := s.sessions[token.jti].(revokedAt := Some(now))]), Done)
      else (s, Done)
    case ChangePassword(bearer, current, replacement) =>
      if !IsPrincipal(s, bearer, now) then (s, Failed(401))
      else if s.users[bearer.sub].password != current then (s, Failed(400))
      else if s.users[bearer.sub].password == replacement then (s, Failed(400))
      else (Expel(s, bearer.sub, s.users[bearer.sub].(password := replacement), now), Done)
    case SetStatus(bearer, target, active) =>
      if !IsPrincipal(s, bearer, now) then (s, Failed(401))
      else if s.users[bearer.sub].role != Admin then (s, Failed(403))
      else if target !in s.users || s.users[target].org != s.users[bearer.sub].org then (s, Failed(404))
      else if target == bearer.sub && !active then (s, Failed(400))
      else if s.users[target].active == active then (s, Done)
      else if active then (s.(users := s.users[target := s.users[target].(active := true)]), Done)
      else (Expel(s, target, s.users[target].(active := false), now), Done)
    case Call(bearer) => (s, if IsPrincipal(s, bearer, now) then Done else Failed(401))
  }

  // ----- Runs

  datatype Step = Step(request: Request, jti: Jti, now: int)

  /** No token or session exists yet. */
  predicate Pristine(s: Server) {
    s.sessions == map[] && s.refreshTokens == map[] && s.accessTokens == {} && s.logins == {}
  }

  function After(s: Server, steps: seq<Step>): Server
    decreases |steps|
  {
    if steps == [] then s
    else After(Handle(s, steps[0].request, steps[0].jti, steps[0].now).0, steps[1..])
  }

  /** Token identifiers are new whenever a request is handled. */
  predicate FreshIds(s: Server, steps: seq<Step>)
    decreases |steps|
  {
    steps == []
    || (steps[0].jti !in s.sessions
        && FreshIds(Handle(s, steps[0].request, steps[0].jti, steps[0].now).0, steps[1..]))
  }
}
