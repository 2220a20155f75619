/**
  One browser tab talking to the server: the single-flight refresh of `client.ts` under any interleaving of
  calls, logins, logouts, lost requests and replies, requests of other clients, and page reloads.
  A client step is the code between two awaits; handling one request is one server step.
 */
module AuthTab {
  import opened Options
  import opened AuthServer

  /** A request of the tab, with the server's reply once it has been handled. Positions are identities. */
  datatype Message = Message(request: Request, reply: Option<Reply>)

  /** The stored session; `origin` is the message whose reply it came from. */
  datatype Stored = Stored(access: Claims, refresh: Claims, accessExpiresAt: int, origin: nat)

  /** `refreshPromise`: absent, awaiting message `m`, or settled with its `finally` still to run. */
  datatype Promise = NoPromise | InFlight(m: nat) | Settled(m: nat, ok: bool)

  /** What an API call does with the access token it reads. */
  datatype Operation =
    | Plain
    | NewPassword(current: string, replacement: string)
    | Status(target: UserId, active: bool)

  /** Where a call continues once the refresh it awaits has settled. */
  datatype Resumption = BeforeSend | Retry

  datatype Pc =
    | AwaitLogin(m: nat)
    | AwaitLogout(m: nat)
    | AwaitRefresh(m: nat, resumption: Resumption, operation: Operation)
    | AwaitCall(m: nat, retry: bool, operation: Operation)
    | Finished

  datatype Tab = Tab(
    session: Option<Stored>,
    promise: Promise,
    calls: seq<Pc>,
    outcomes: map<nat, bool>)

  datatype System = System(server: Server, net: seq<Message>, tab: Tab)

  datatype TabStep =
    | StartLogin(row: Option<UserId>, password: string)
    | StartCall(operation: Operation, now: int)
    | StartLogout
    | Serve(m: nat, jti: Jti, now: int)
    | ServeOther(request: Request, jti: Jti, now: int)
    | Deliver(call: nat, now: int)
    | Fail(call: nat)
    | Resume(call: nat)
    | DeliverRefresh(now: int)
    | FailRefresh
    | RunFinally
    | Reload

  // ----- Client code between awaits

  function RequestFor(operation: Operation, access: Claims): Request {
    match operation
    case Plain => Call(access)
    case NewPassword(current, replacement) => ChangePassword(access, current, replacement)
    case Status(target, active) => SetStatus(access, target, active)
  }

  function Send(s: System, request: Request): System {
    s.(net := s.net + [Message(request, None)])
  }

  function SetPc(s: System, call: nat, pc: Pc): System
    requires call < |s.tab.calls|
  {
    s.(tab := s.tab.(calls := s.tab.calls[call := pc]))
  }

  function AddCall(s: System, pc: Pc): System {
    s.(tab := s.tab.(calls := s.tab.calls + [pc]))
  }

  function PromiseId(p: Promise): nat
    requires p != NoPromise
  {
    p.m
  }

  /** `rotateRefreshToken` up to its await, with the call's next position. */
  function Rotate(s: System, resumption: Resumption, operation: Operation): (System, Pc) {
    if s.tab.promise != NoPromise then (s, AwaitRefresh(PromiseId(s.tab.promise), resumption, operation))
    else if s.tab.session.None? then (s, Finished)
    else
      var m := |s.net|;
      (Send(s, RefreshSession(s.tab.session.value.refresh)).(tab := s.tab.(promise := InFlight(m))),
       AwaitRefresh(m, resumption, operation))
  }

  /** Sending the call with the stored access token, or giving up when there is no session. */
  function SendCall(s: System, retry: bool, operation: Operation): (System, Pc) {
    if s.tab.session.None? then (s, Finished)
    else
      (Send(s, RequestFor(operation, s.tab.session.value.access)), AwaitCall(|s.net|, retry, operation))
  }

  /** `authenticated` with `retry` set, up to its first await. */
  function BeginCall(s: System, operation: Operation, now: int): (System, Pc) {
    if s.tab.session.None? then (s, Finished)
    else if s.tab.session.value.accessExpiresAt <= now then Rotate(s, BeforeSend, operation)
    else SendCall(s, true, operation)
  }

  function Write(s: System, m: nat, access: Claims, refresh: Claims, now: int): System {
    s.(tab := s.tab.(session := Some(Stored(access, refresh, now + s.server.accessLifetime, m))))
  }

  function Clear(s: System): System {
    s.(tab := s.tab.(session := None))
  }

  function Settle(s: System, m: nat, ok: bool): System {
    s.(tab := s.tab.(promise := Settled(m, ok)))
  }

  // ----- Which steps can happen, and what they do

  predicate HasReply(s: System, m: nat) {
    m < |s.net| && s.net[m].reply.Some?
  }

  predicate IsGrant(message: Message) {
    message.reply.Some? && message.reply.value.Tokens?
  }

  function GrantedId(message: Message): Jti
    requires IsGrant(message)
  {
    message.reply.value.refresh.jti
  }

  /** Refresh tokens the server has ever sent to this tab. */
  function HeldIds(net: seq<Message>): set<Jti> {
    set i | 0 <= i < |net| && IsGrant(net[i]) :: GrantedId(net[i])
  }

  /** The refresh token another client presents is not one of this tab's. */
  predicate IsForeign(net: seq<Message>, request: Request) {
    && (request.RefreshSession? ==> request.token.jti !in HeldIds(net))
    && (request.Logout? ==> request.token.jti !in HeldIds(net))
  }

  predicate Enabled(s: System, step: TabStep) {
    match step
    case StartLogin(_, _) => true
    case StartCall(_, _) => true
    case StartLogout => true
    case Serve(m, jti, _) => m < |s.net| && s.net[m].reply.None? && jti !in s.server.sessions
    case ServeOther(request, jti, _) => IsForeign(s.net, request) && jti !in s.server.sessions
    case Deliver(call, _) =>
      && call < |s.tab.calls|
      && (match s.tab.calls[call]
          case AwaitLogin(m) => HasReply(s, m)
          case AwaitLogout(m) => HasReply(s, m)
          case AwaitCall(m, _, _) => HasReply(s, m)
          case _ => false)
    case Fail(call) =>
      call < |s.tab.calls|
      && (s.tab.calls[call].AwaitLogin? || s.tab.calls[call].AwaitLogout? || s.tab.calls[call].AwaitCall?)
    case Resume(call) =>
      call < |s.tab.calls| && s.tab.calls[call].AwaitRefresh? && s.tab.calls[call].m in s.tab.outcomes
    case DeliverRefresh(_) => s.tab.promise.InFlight? && HasReply(s, s.tab.promise.m)
    case FailRefresh => s.tab.promise.InFlight?
    case RunFinally => s.tab.promise.Settled?
    case Reload => true
  }

  function Next(s: System, step: TabStep): System
    requires Enabled(s, step)
  {
    match step
    case StartLogin(row, password) => AddCall(Send(s, Login(row, password)), AwaitLogin(|s.net|))
    case StartCall(operation, now) =>
      var (after, pc) := BeginCall(s, operation, now);
      AddCall(after, pc)
    case StartLogout =>
      if s.tab.session.None? then AddCall(Clear(s), Finished)
      else AddCall(Send(s, Logout(s.tab.session.value.refresh)), AwaitLogout(|s.net|))
    case Serve(m, jti, now) =>
      var (server, reply) := Handle(s.server, s.net[m].request, jti, now);
      s.(server := server, net := s.net[m := s.net[m].(reply := Some(reply))])
    case ServeOther(request, jti, now) => s.(server := Handle(s.server, request, jti, now).0)
    case Deliver(call, now) =>
      (match s.tab.calls[call]
       case AwaitLogin(m) =>
         var reply := s.net[m].reply.value;
         SetPc(if reply.Tokens? then Write(s, m, reply.access, reply.refresh, now) else s, call, Finished)
       case AwaitLogout(_) => SetPc(Clear(s), call, Finished)
       case AwaitCall(m, retry, operation) =>
         if retry && s.net[m].reply.value == Failed(401) then
           var (after, pc) := Rotate(s, Retry, operation);
           SetPc(after, call, pc)
         else SetPc(s, call, Finished))
    case Fail(call) => SetPc(if s.tab.calls[call].AwaitLogout? then Clear(s) else s, call, Finished)
    case Resume(call) =>
      var pc := s.tab.calls[call];
      if !s.tab.outcomes[pc.m] then SetPc(s, call, Finished)
      else
        var (after, next) := SendCall(s, pc.resumption == BeforeSend, pc.operation);
        SetPc(after, call, next)
    case DeliverRefresh(now) =>
      var m := s.tab.promise.m;
      var reply := s.net[m].reply.value;
      if reply.Tokens? then Settle(Write(s, m, reply.access, reply.refresh, now), m, true)
      else Settle(Clear(s), m, false)
    case FailRefresh => Settle(Clear(s), s.tab.promise.m, false)
    case RunFinally =>
      s.(tab := s.tab.(promise := NoPromise, outcomes := s.tab.outcomes[s.tab.promise.m := s.tab.promise.ok]))
    case Reload => s.(tab := Tab(s.tab.session, NoPromise, [], map[]))
  }

  /** The stored refresh token is the one a refresh in flight has already presented. */
  predicate ReloadWouldResend(s: System) {
    && s.tab.promise.InFlight? && s.tab.promise.m < |s.net|
    && s.tab.session.Some?
    && s.net[s.tab.promise.m].request == RefreshSession(s.tab.session.value.refresh)
  }

  // ----- Runs

  predicate Fresh(s: System) {
    Pristine(s.server) && s.net == [] && s.tab == Tab(None, NoPromise, [], map[])
  }

  predicate IsRun(s: System, steps: seq<TabStep>)
    decreases |steps|
  {
    steps == [] || (Enabled(s, steps[0]) && IsRun(Next(s, steps[0]), steps[1..]))
  }

  function Reached(s: System, steps: seq<TabStep>): System
    requires IsRun(s, steps)
    decreases |steps|
  {
    if steps == [] then s else Reached(Next(s, steps[0]), steps[1..])
  }

  /** The page is never reloaded while the stored refresh token is in flight. */
  predicate CarefulReloads(s: System, steps: seq<TabStep>)
    requires IsRun(s, steps)
    decreases |steps|
  {
    steps != [] ==>
      && (steps[0] == Reload ==> !ReloadWouldResend(s))
      && CarefulReloads(Next(s, steps[0]), steps[1..])
  }

  /** No refresh token has been presented to `/auth/refresh` twice. */
  predicate SentOnce(net: seq<Message>) {
    forall i, j :: 0 <= i < j < |net| && net[i].request.RefreshSession? && net[j].request.RefreshSession? ==>
      net[i].request.token.jti != net[j].request.token.jti
  }
}
