/** Each refresh token is presented once, unless the page is reloaded at the one wrong moment. */
module AuthTabSafety {
  import opened Options
  import opened AuthServer
  import opened AuthTab
  import Safety = AuthSafety

  // ----- The invariant

  /** Refresh tokens this tab has presented to `/auth/refresh`. */
  function SentIds(net: seq<Message>): set<Jti> {
    set i | 0 <= i < |net| && net[i].request.RefreshSession? :: net[i].request.token.jti
  }

  predicate GrantOk(server: Server, message: Message)
    requires IsGrant(message)
  {
    var token := message.reply.value.refresh;
    token.jti in server.refreshTokens && server.refreshTokens[token.jti] == token && token.jti in server.sessions
  }

  predicate Unreplaced(server: Server, jti: Jti) {
    jti in server.sessions && server.sessions[jti].replacedBy.None?
  }

  /** Grants are genuine and distinct; presented tokens are granted; until handled they are not yet replaced. */
  predicate NetOk(server: Server, net: seq<Message>) {
    && SentOnce(net)
    && (forall i :: 0 <= i < |net| && IsGrant(net[i]) ==> GrantOk(server, net[i]))
    && (forall i, j :: 0 <= i < j < |net| && IsGrant(net[i]) && IsGrant(net[j]) ==>
          GrantedId(net[i]) != GrantedId(net[j]))
    && (forall i :: 0 <= i < |net| && net[i].request.RefreshSession? ==>
          var token := net[i].request.token;
          && token.jti in HeldIds(net)
          && token.jti in server.refreshTokens && server.refreshTokens[token.jti] == token
          && (net[i].reply.None? ==> Unreplaced(server, token.jti)))
    && (forall i :: 0 <= i < |net| && IsGrant(net[i]) && GrantedId(net[i]) !in SentIds(net) ==>
          Unreplaced(server, GrantedId(net[i])))
  }

  /** Some code still waits for the reply to message `m` in order to store the session it grants. */
  predicate Awaited(tab: Tab, m: nat) {
    tab.promise == InFlight(m) || exists c :: 0 <= c < |tab.calls| && tab.calls[c] == AwaitLogin(m)
  }

  predicate TabOk(net: seq<Message>, tab: Tab) {
    && (tab.promise.InFlight? ==> tab.promise.m < |net| && net[tab.promise.m].request.RefreshSession?)
    && (forall c :: 0 <= c < |tab.calls| && tab.calls[c].AwaitLogin? ==>
          tab.calls[c].m < |net| && net[tab.calls[c].m].request.Login?)
    && (forall c, d :: 0 <= c < d < |tab.calls| && tab.calls[c].AwaitLogin? ==> tab.calls[c] != tab.calls[d])
    && (forall m :: 0 <= m < |net| && Awaited(tab, m) && IsGrant(net[m]) ==>
          GrantedId(net[m]) !in SentIds(net))
    && (tab.session.Some? ==> SessionOk(net, tab, tab.session.value))
  }

  /** The stored session came from a reply nobody awaits any more; if already presented, it is in flight. */
  predicate SessionOk(net: seq<Message>, tab: Tab, session: Stored) {
    && session.origin < |net| && IsGrant(net[session.origin]) && !Awaited(tab, session.origin)
    && net[session.origin].reply.value.refresh == session.refresh
    && (session.refresh.jti in SentIds(net) ==>
          tab.promise.InFlight? && tab.promise.m < |net|
          && net[tab.promise.m].request == RefreshSession(session.refresh))
  }

  ghost predicate Inv(s: System) {
    Safety.Inv(s.server) && NetOk(s.server, s.net) && TabOk(s.net, s.tab)
  }

  // ----- Sending a request

  lemma SentAppend(net: seq<Message>, request: Request)
    ensures SentIds(net + [Message(request, None)])
         == SentIds(net) + (if request.RefreshSession? then {request.token.jti} else {})
    ensures HeldIds(net + [Message(request, None)]) == HeldIds(net)
  {
    var after := net + [Message(request, None)];
    forall j | j in SentIds(net)
      ensures j in SentIds(after)
    {
      var i :| 0 <= i < |net| && net[i].request.RefreshSession? && net[i].request.token.jti == j;
      assert after[i] == net[i];
    }
    forall j | j in HeldIds(net)
      ensures j in HeldIds(after)
    {
      var i :| 0 <= i < |net| && IsGrant(net[i]) && GrantedId(net[i]) == j;
      assert after[i] == net[i];
    }
    if request.RefreshSession? {
      assert after[|net|].request.token.jti in SentIds(after);
    }
  }

  lemma SendPlain(server: Server, net: seq<Message>, request: Request)
    requires NetOk(server, net) && !request.RefreshSession?
    ensures NetOk(server, net + [Message(request, None)])
  {
    SentAppend(net, request);
    var after := net + [Message(request, None)];
    assert forall i :: 0 <= i < |net| ==> after[i] == net[i];
  }

  lemma SendRefresh(server: Server, net: seq<Message>, token: Claims, origin: nat)
    requires NetOk(server, net) && origin < |net| && IsGrant(net[origin])
    requires net[origin].reply.value.refresh == token && token.jti !in SentIds(net)
    ensures NetOk(server, net + [Message(RefreshSession(token), None)])
  {
    SentAppend(net, RefreshSession(token));
    var after := net + [Message(RefreshSession(token), None)];
    assert forall i :: 0 <= i < |net| ==> after[i] == net[i];
    assert GrantOk(server, net[origin]);
    assert token.jti in HeldIds(net);
    forall i | 0 <= i < |net| && net[i].request.RefreshSession?
      ensures net[i].request.token.jti != token.jti
    {
      assert net[i].request.token.jti in SentIds(net);
    }
  }

  /** What the tab's bookkeeping needs from the network after a request other than a refresh was sent. */
  lemma TabAfterSend(net: seq<Message>, tab: Tab, request: Request)
    requires TabOk(net, tab) && !request.RefreshSession?
    ensures TabOk(net + [Message(request, None)], tab)
  {
    SentAppend(net, request);
    var after := net + [Message(request, None)];
    assert forall i :: 0 <= i < |net| ==> after[i] == net[i];
  }

  lemma TabAfterRefresh(net: seq<Message>, tab: Tab, server: Server)
    requires TabOk(net, tab) && NetOk(server, net) && tab.promise == NoPromise && tab.session.Some?
    ensures TabOk(net + [Message(RefreshSession(tab.session.value.refresh), None)], tab.(promise := InFlight(|net|)))
  {
    var session := tab.session.value;
    SentAppend(net, RefreshSession(session.refresh));
    var after := net + [Message(RefreshSession(session.refresh), None)];
    var next := tab.(promise := InFlight(|net|));
    assert forall i :: 0 <= i < |net| ==> after[i] == net[i];
    forall m | 0 <= m < |after| && Awaited(next, m) && IsGrant(after[m])
      ensures after[m].reply.value.refresh.jti !in SentIds(after)
    {
      assert m < |net| && Awaited(tab, m);
      assert m != session.origin;
    }
    assert !Awaited(next, session.origin);
  }

  // ----- Calls come and go

  /** Replacing or adding a call that awaits no login reply. */
  lemma CallChanged(net: seq<Message>, tab: Tab, calls: seq<Pc>)
    requires TabOk(net, tab) && |calls| >= |tab.calls|
    requires forall c :: 0 <= c < |calls| && calls[c].AwaitLogin? ==> c < |tab.calls| && calls[c] == tab.calls[c]
    ensures TabOk(net, tab.(calls := calls))
  {
    var next := tab.(calls := calls);
    assert forall m: nat :: Awaited(next, m) ==> Awaited(tab, m);
  }

  lemma LoginAdded(net: seq<Message>, tab: Tab, request: Request)
    requires TabOk(net, tab) && request.Login?
    ensures TabOk(net + [Message(request, None)], tab.(calls := tab.calls + [AwaitLogin(|net|)]))
  {
    TabAfterSend(net, tab, request);
    var after := net + [Message(request, None)];
    var next := tab.(calls := tab.calls + [AwaitLogin(|net|)]);
    assert forall c :: 0 <= c < |tab.calls| ==> next.calls[c] == tab.calls[c];
    forall m: nat | Awaited(next, m)
      ensures Awaited(tab, m) || m == |net|
    {
    }
  }

  lemma RotateKeeps(s: System, resumption: Resumption, operation: Operation)
    requires Inv(s)
    ensures Inv(Rotate(s, resumption, operation).0)
    ensures Rotate(s, resumption, operation).0.tab.calls == s.tab.calls
    ensures !Rotate(s, resumption, operation).1.AwaitLogin?
  {
    hide NetOk, Safety.Inv;
    if s.tab.promise == NoPromise && s.tab.session.Some? {
      var session := s.tab.session.value;
      SendRefresh(s.server, s.net, session.refresh, session.origin);
      TabAfterRefresh(s.net, s.tab, s.server);
    }
  }

  lemma SendCallKeeps(s: System, retry: bool, operation: Operation)
    requires Inv(s)
    ensures Inv(SendCall(s, retry, operation).0)
    ensures SendCall(s, retry, operation).0.tab.calls == s.tab.calls
    ensures !SendCall(s, retry, operation).1.AwaitLogin?
  {
    hide NetOk, TabOk, Safety.Inv;
    if s.tab.session.Some? {
      var request := RequestFor(operation, s.tab.session.value.access);
      SendPlain(s.server, s.net, request);
      TabAfterSend(s.net, s.tab, request);
    }
  }

  lemma SetPcKeeps(s: System, call: nat, pc: Pc)
    requires Inv(s) && call < |s.tab.calls| && !pc.AwaitLogin?
    ensures Inv(SetPc(s, call, pc))
  {
    hide NetOk, TabOk, Safety.Inv;
    CallChanged(s.net, s.tab, s.tab.calls[call := pc]);
  }

  lemma AddCallKeeps(s: System, pc: Pc)
    requires Inv(s) && !pc.AwaitLogin?
    ensures Inv(AddCall(s, pc))
  {
    hide NetOk, TabOk, Safety.Inv;
    CallChanged(s.net, s.tab, s.tab.calls + [pc]);
  }

  // ----- The stored session is written and cleared

  lemma ClearKeeps(s: System)
    requires Inv(s)
    ensures Inv(Clear(s))
  {
    assert forall m: nat :: Awaited(Clear(s).tab, m) <==> Awaited(s.tab, m);
  }

  /** A login reply is stored: nobody awaits it any more and its token has not been presented. */
  lemma LoginStored(s: System, call: nat, now: int)
    requires Inv(s) && call < |s.tab.calls| && s.tab.calls[call].AwaitLogin?
    requires var m := s.tab.calls[call].m; HasReply(s, m) && IsGrant(s.net[m])
    ensures var m := s.tab.calls[call].m;
            var reply := s.net[m].reply.value;
            Inv(SetPc(Write(s, m, reply.access, reply.refresh, now), call, Finished))
  {
    hide NetOk, Safety.Inv;
    var m := s.tab.calls[call].m;
    var reply := s.net[m].reply.value;
    var next := SetPc(Write(s, m, reply.access, reply.refresh, now), call, Finished);
    assert Awaited(s.tab, m);
    forall k: nat | Awaited(next.tab, k)
      ensures Awaited(s.tab, k) && k != m
    {
      if next.tab.promise != InFlight(k) {
        var c :| 0 <= c < |next.tab.calls| && next.tab.calls[c] == AwaitLogin(k);
        assert s.tab.calls[c] == AwaitLogin(k);
      }
    }
  }

  lemma RefreshStored(s: System, now: int)
    requires Inv(s) && s.tab.promise.InFlight? && HasReply(s, s.tab.promise.m) && IsGrant(s.net[s.tab.promise.m])
    ensures var m := s.tab.promise.m;
            var reply := s.net[m].reply.value;
            Inv(Settle(Write(s, m, reply.access, reply.refresh, now), m, true))
  {
    hide NetOk, Safety.Inv;
    var m := s.tab.promise.m;
    var reply := s.net[m].reply.value;
    var next := Settle(Write(s, m, reply.access, reply.refresh, now), m, true);
    assert Awaited(s.tab, m);
    forall k: nat | Awaited(next.tab, k)
      ensures Awaited(s.tab, k) && k != m
    {
      var c :| 0 <= c < |next.tab.calls| && next.tab.calls[c] == AwaitLogin(k);
      assert s.tab.calls[c] == AwaitLogin(k);
    }
  }

  /** Whatever happens to the promise, fewer replies are awaited; the session must not be the one in flight. */
  lemma PromiseChanged(s: System, promise: Promise, outcomes: map<nat, bool>)
    requires Inv(s) && !promise.InFlight? && !ReloadWouldResend(s)
    ensures Inv(s.(tab := s.tab.(promise := promise, outcomes := outcomes)))
  {
    hide NetOk, Safety.Inv;
    var next := s.(tab := s.tab.(promise := promise, outcomes := outcomes));
    assert forall k: nat :: Awaited(next.tab, k) ==> Awaited(s.tab, k);
  }

  lemma ReloadKeeps(s: System)
    requires Inv(s) && !ReloadWouldResend(s)
    ensures Inv(Next(s, Reload))
  {
    hide NetOk, Safety.Inv;
    var next := Next(s, Reload);
    assert forall k: nat :: Awaited(next.tab, k) ==> Awaited(s.tab, k);
  }

  // ----- The server handles a request

  /** Handling a request keeps all issued tokens and all links but the one from the session it rotates. */
  lemma HandleFrame(s: Server, request: Request, jti: Jti, now: int, j: Jti)
    requires jti !in s.sessions && s.sessions.Keys == s.refreshTokens.Keys && j in s.sessions
    ensures var t := Handle(s, request, jti, now).0;
            && j in t.sessions && j in t.refreshTokens && t.refreshTokens[j] == s.refreshTokens[j]
            && (!(request.RefreshSession? && request.token.jti == j) ==>
                  t.sessions[j].replacedBy == s.sessions[j].replacedBy)
  {
  }

  lemma HandleGrants(s: Server, request: Request, jti: Jti, now: int)
    requires jti !in s.sessions
    ensures var (t, reply) := Handle(s, request, jti, now);
            reply.Tokens? ==>
              && reply.refresh.jti == jti && jti in t.sessions && t.sessions[jti].replacedBy.None?
              && jti in t.refreshTokens && t.refreshTokens[jti] == reply.refresh
  {
  }

  /** The rows and tokens this tab knows of are the same on both servers, except that `rotated` may be replaced. */
  predicate Carries(server: Server, t: Server, net: seq<Message>, rotated: set<Jti>) {
    forall j :: j in HeldIds(net) && j in server.sessions && j in server.refreshTokens ==>
      && j in t.sessions && j in t.refreshTokens && t.refreshTokens[j] == server.refreshTokens[j]
      && (j !in rotated ==> t.sessions[j].replacedBy == server.sessions[j].replacedBy)
  }

  lemma HeldGrant(net: seq<Message>, i: nat)
    requires i < |net| && IsGrant(net[i])
    ensures GrantedId(net[i]) in HeldIds(net)
  {
  }

  lemma NetCarries(server: Server, t: Server, net: seq<Message>)
    requires NetOk(server, net) && Carries(server, t, net, {})
    ensures NetOk(t, net)
  {
    hide SentOnce;
    forall i | 0 <= i < |net| && IsGrant(net[i])
      ensures GrantOk(t, net[i])
      ensures GrantedId(net[i]) !in SentIds(net) ==> Unreplaced(t, GrantedId(net[i]))
    {
      assert GrantOk(server, net[i]);
      HeldGrant(net, i);
    }
    forall i | 0 <= i < |net| && net[i].request.RefreshSession?
      ensures var token := net[i].request.token;
              && token.jti in t.refreshTokens && t.refreshTokens[token.jti] == token
              && (net[i].reply.None? ==> Unreplaced(t, token.jti))
    {
      HeldInTables(server, net, net[i].request.token.jti);
    }
  }

  lemma HeldInTables(server: Server, net: seq<Message>, j: Jti)
    requires NetOk(server, net) && j in HeldIds(net)
    ensures j in server.sessions && j in server.refreshTokens
  {
    var i :| 0 <= i < |net| && IsGrant(net[i]) && GrantedId(net[i]) == j;
    assert GrantOk(server, net[i]);
  }

  lemma OtherServed(s: System, request: Request, jti: Jti, now: int)
    requires Inv(s) && IsForeign(s.net, request) && jti !in s.server.sessions
    ensures NetOk(Handle(s.server, request, jti, now).0, s.net)
  {
    hide Handle, NetOk, TabOk, Safety.Inv, HeldIds;
    ServerTables(s.server);
    var t := Handle(s.server, request, jti, now).0;
    forall j | j in HeldIds(s.net) && j in s.server.sessions && j in s.server.refreshTokens
      ensures && j in t.sessions && j in t.refreshTokens && t.refreshTokens[j] == s.server.refreshTokens[j]
              && t.sessions[j].replacedBy == s.server.sessions[j].replacedBy
    {
      HandleFrame(s.server, request, jti, now, j);
    }
    NetCarries(s.server, t, s.net);
  }

  /** Filling in one reply changes no request and adds at most one grant. */
  lemma ReplyIds(net: seq<Message>, m: nat, reply: Reply)
    requires m < |net| && net[m].reply.None?
    ensures var after := net[m := net[m].(reply := Some(reply))];
            && SentIds(after) == SentIds(net)
            && HeldIds(after) == HeldIds(net) + (if reply.Tokens? then {reply.refresh.jti} else {})
  {
    var after := net[m := net[m].(reply := Some(reply))];
    forall j | j in SentIds(net)
      ensures j in SentIds(after)
    {
      var i :| 0 <= i < |net| && net[i].request.RefreshSession? && net[i].request.token.jti == j;
      assert after[i].request == net[i].request;
    }
    forall j | j in SentIds(after)
      ensures j in SentIds(net)
    {
      var i :| 0 <= i < |after| && after[i].request.RefreshSession? && after[i].request.token.jti == j;
      assert after[i].request == net[i].request;
    }
    forall j | j in HeldIds(net)
      ensures j in HeldIds(after)
    {
      var i :| 0 <= i < |net| && IsGrant(net[i]) && GrantedId(net[i]) == j;
      assert after[i] == net[i];
    }
    if reply.Tokens? {
      assert IsGrant(after[m]) && GrantedId(after[m]) == reply.refresh.jti;
    }
  }

  lemma SentIsHeld(server: Server, net: seq<Message>, j: Jti)
    requires NetOk(server, net) && j in SentIds(net)
    ensures j in HeldIds(net)
  {
  }

  /** A grant that was there before the server handled message `m` is still genuine, distinct and redeemable. */
  lemma ServedGrant(server: Server, t: Server, net: seq<Message>, m: nat, jti: Jti, i: nat)
    requires NetOk(server, net) && m < |net| && net[m].reply.None? && jti !in server.sessions
    requires Carries(server, t, net, if net[m].request.RefreshSession? then {net[m].request.token.jti} else {})
    requires i < |net| && i != m && IsGrant(net[i])
    ensures GrantOk(t, net[i]) && GrantedId(net[i]) != jti
    ensures GrantedId(net[i]) !in SentIds(net) ==> Unreplaced(t, GrantedId(net[i]))
  {
    assert GrantOk(server, net[i]);
    HeldGrant(net, i);
    if net[m].request.RefreshSession? {
      assert net[m].request.token.jti in SentIds(net);
    }
  }

  lemma ServedRequest(server: Server, t: Server, net: seq<Message>, m: nat, i: nat)
    requires NetOk(server, net) && m < |net|
    requires Carries(server, t, net, if net[m].request.RefreshSession? then {net[m].request.token.jti} else {})
    requires i < |net| && net[i].request.RefreshSession?
    ensures var token := net[i].request.token;
            && token.jti in HeldIds(net)
            && token.jti in t.refreshTokens && t.refreshTokens[token.jti] == token
            && (net[i].reply.None? && i != m ==> Unreplaced(t, token.jti))
  {
    HeldInTables(server, net, net[i].request.token.jti);
    assert i != m && net[m].request.RefreshSession? ==> net[i].request.token.jti != net[m].request.token.jti;
  }

  /** The network after the server handled message `m` into server `t` with this reply. */
  lemma ServedNet(server: Server, t: Server, net: seq<Message>, m: nat, reply: Reply, jti: Jti)
    requires NetOk(server, net) && m < |net| && net[m].reply.None? && jti !in server.sessions
    requires Carries(server, t, net, if net[m].request.RefreshSession? then {net[m].request.token.jti} else {})
    requires reply.Tokens? ==>
               && reply.refresh.jti == jti && jti in t.refreshTokens && t.refreshTokens[jti] == reply.refresh
               && Unreplaced(t, jti)
    ensures NetOk(t, net[m := net[m].(reply := Some(reply))])
  {
    hide Carries, HeldIds, SentIds;
    var after := net[m := net[m].(reply := Some(reply))];
    ReplyIds(net, m, reply);
    assert forall i :: 0 <= i < |net| ==> after[i].request == net[i].request && (i != m ==> after[i] == net[i]);
    forall i | 0 <= i < |after| && IsGrant(after[i])
      ensures GrantOk(t, after[i])
      ensures i != m ==> GrantedId(after[i]) != jti
      ensures GrantedId(after[i]) !in SentIds(after) ==> Unreplaced(t, GrantedId(after[i]))
    {
      if i != m {
        ServedGrant(server, t, net, m, jti, i);
      }
    }
    forall i | 0 <= i < |after| && after[i].request.RefreshSession?
      ensures var token := after[i].request.token;
              && token.jti in HeldIds(after)
              && token.jti in t.refreshTokens && t.refreshTokens[token.jti] == token
              && (after[i].reply.None? ==> Unreplaced(t, token.jti))
    {
      ServedRequest(server, t, net, m, i);
    }
  }

  lemma ServedTab(server: Server, net: seq<Message>, tab: Tab, m: nat, reply: Reply, jti: Jti)
    requires NetOk(server, net) && TabOk(net, tab) && m < |net| && net[m].reply.None? && jti !in server.sessions
    requires reply.Tokens? ==> reply.refresh.jti == jti
    ensures TabOk(net[m := net[m].(reply := Some(reply))], tab)
  {
    var after := net[m := net[m].(reply := Some(reply))];
    ReplyIds(net, m, reply);
    if jti in SentIds(net) {
      SentIsHeld(server, net, jti);
      HeldInTables(server, net, jti);
    }
    assert forall i :: 0 <= i < |net| ==> after[i].request == net[i].request;
    assert forall i :: 0 <= i < |net| && i != m ==> after[i] == net[i];
  }

  lemma ServeKeeps(s: System, m: nat, jti: Jti, now: int)
    requires Inv(s) && Enabled(s, Serve(m, jti, now))
    ensures Inv(Next(s, Serve(m, jti, now)))
  {
    hide Handle, NetOk, TabOk, Safety.Inv;
    var request := s.net[m].request;
    var (t, reply) := Handle(s.server, request, jti, now);
    ServerTables(s.server);
    Safety.HandleKeeps(s.server, request, jti, now);
    HandleGrants(s.server, request, jti, now);
    forall j | j in HeldIds(s.net) && j in s.server.sessions && j in s.server.refreshTokens
      ensures && j in t.sessions && j in t.refreshTokens && t.refreshTokens[j] == s.server.refreshTokens[j]
              && (!(request.RefreshSession? && request.token.jti == j) ==>
                    t.sessions[j].replacedBy == s.server.sessions[j].replacedBy)
    {
      HandleFrame(s.server, request, jti, now, j);
    }
    ServedNet(s.server, t, s.net, m, reply, jti);
    ServedTab(s.server, s.net, s.tab, m, reply, jti);
  }

  lemma ServerTables(s: Server)
    requires Safety.Inv(s)
    ensures s.sessions.Keys == s.refreshTokens.Keys
  {
  }

  // ----- Every step

  lemma DeliverKeeps(s: System, call: nat, now: int)
    requires Inv(s) && Enabled(s, Deliver(call, now))
    ensures Inv(Next(s, Deliver(call, now)))
  {
    hide Inv, Rotate;
    match s.tab.calls[call] {
      case AwaitLogin(m) =>
        if IsGrant(s.net[m]) {
          LoginStored(s, call, now);
        } else {
          SetPcKeeps(s, call, Finished);
        }
      case AwaitLogout(_) =>
        ClearKeeps(s);
        SetPcKeeps(Clear(s), call, Finished);
      case AwaitCall(m, retry, operation) =>
        RotateKeeps(s, Retry, operation);
        SetPcKeeps(Rotate(s, Retry, operation).0, call, Rotate(s, Retry, operation).1);
        SetPcKeeps(s, call, Finished);
    }
  }

  lemma StartCallKeeps(s: System, operation: Operation, now: int)
    requires Inv(s)
    ensures Inv(Next(s, StartCall(operation, now)))
  {
    hide Inv, Rotate, SendCall;
    var (after, pc) := BeginCall(s, operation, now);
    RotateKeeps(s, BeforeSend, operation);
    SendCallKeeps(s, true, operation);
    AddCallKeeps(after, pc);
  }

  lemma StartLoginKeeps(s: System, row: Option<UserId>, password: string)
    requires Inv(s)
    ensures Inv(Next(s, StartLogin(row, password)))
  {
    hide NetOk, TabOk, Safety.Inv;
    SendPlain(s.server, s.net, Login(row, password));
    LoginAdded(s.net, s.tab, Login(row, password));
  }

  lemma StartLogoutKeeps(s: System)
    requires Inv(s)
    ensures Inv(Next(s, StartLogout))
  {
    hide NetOk, TabOk, Safety.Inv;
    if s.tab.session.None? {
      ClearKeeps(s);
      AddCallKeeps(Clear(s), Finished);
    } else {
      var request := Logout(s.tab.session.value.refresh);
      SendPlain(s.server, s.net, request);
      TabAfterSend(s.net, s.tab, request);
      AddCallKeeps(Send(s, request), AwaitLogout(|s.net|));
    }
  }

  lemma ResumeKeeps(s: System, call: nat)
    requires Inv(s) && Enabled(s, Resume(call))
    ensures Inv(Next(s, Resume(call)))
  {
    hide Inv, SendCall;
    var pc := s.tab.calls[call];
    SetPcKeeps(s, call, Finished);
    SendCallKeeps(s, pc.resumption == BeforeSend, pc.operation);
    var (after, next) := SendCall(s, pc.resumption == BeforeSend, pc.operation);
    SetPcKeeps(after, call, next);
  }

  lemma FailKeeps(s: System, call: nat)
    requires Inv(s) && Enabled(s, Fail(call))
    ensures Inv(Next(s, Fail(call)))
  {
    hide Inv;
    ClearKeeps(s);
    SetPcKeeps(Clear(s), call, Finished);
    SetPcKeeps(s, call, Finished);
  }

  lemma RefreshFailed(s: System)
    requires Inv(s) && s.tab.promise.InFlight?
    ensures Inv(Settle(Clear(s), s.tab.promise.m, false))
  {
    hide Inv;
    ClearKeeps(s);
    PromiseChanged(Clear(s), Settled(s.tab.promise.m, false), s.tab.outcomes);
  }

  lemma DeliverRefreshKeeps(s: System, now: int)
    requires Inv(s) && Enabled(s, DeliverRefresh(now))
    ensures Inv(Next(s, DeliverRefresh(now)))
  {
    hide Inv;
    RefreshFailed(s);
    if IsGrant(s.net[s.tab.promise.m]) {
      RefreshStored(s, now);
    }
  }

  /** Every step keeps the invariant, a reload as long as it does not orphan the stored token in flight. */
  lemma NextKeeps(s: System, step: TabStep)
    requires Inv(s) && Enabled(s, step) && (step == Reload ==> !ReloadWouldResend(s))
    ensures Inv(Next(s, step))
  {
    hide Inv;
    match step {
      case StartLogin(row, password) => StartLoginKeeps(s, row, password);
      case StartCall(operation, now) => StartCallKeeps(s, operation, now);
      case StartLogout => StartLogoutKeeps(s);
      case Serve(m, jti, now) => ServeKeeps(s, m, jti, now);
      case ServeOther(request, jti, now) => OtherKeeps(s, request, jti, now);
      case Deliver(call, now) => DeliverKeeps(s, call, now);
      case Fail(call) => FailKeeps(s, call);
      case Resume(call) => ResumeKeeps(s, call);
      case DeliverRefresh(now) => DeliverRefreshKeeps(s, now);
      case FailRefresh => RefreshFailed(s);
      case RunFinally => PromiseChanged(s, NoPromise, s.tab.outcomes[s.tab.promise.m := s.tab.promise.ok]);
      case Reload => ReloadKeeps(s);
    }
  }

  lemma OtherKeeps(s: System, request: Request, jti: Jti, now: int)
    requires Inv(s) && Enabled(s, ServeOther(request, jti, now))
    ensures Inv(Next(s, ServeOther(request, jti, now)))
  {
    hide NetOk, TabOk, Safety.Inv, Handle;
    Safety.HandleKeeps(s.server, request, jti, now);
    OtherServed(s, request, jti, now);
  }

  lemma {:induction false} RunKeeps(s: System, steps: seq<TabStep>)
    requires Inv(s) && IsRun(s, steps) && CarefulReloads(s, steps)
    ensures Inv(Reached(s, steps))
    decreases |steps|
  {
    hide Inv, Next;
    if steps != [] {
      NextKeeps(s, steps[0]);
      RunKeeps(Next(s, steps[0]), steps[1..]);
    }
  }

  lemma FreshOk(s: System)
    requires Fresh(s)
    ensures Inv(s)
  {
    hide Safety.Acyclic, Safety.FromLogin;
    Safety.PristineOk(s.server);
  }

  // ----- Main results

  /** In every interleaving, each refresh token is presented to `/auth/refresh` at most once. */
  lemma EachTokenSentOnce(s0: System, steps: seq<TabStep>)
    requires Fresh(s0) && IsRun(s0, steps) && CarefulReloads(s0, steps)
    ensures SentOnce(Reached(s0, steps).net)
  {
    hide IsRun, Reached, CarefulReloads, Fresh;
    FreshOk(s0);
    RunKeeps(s0, steps);
  }

  /**
    Hence the server never refuses a refresh because its token was already rotated: it refuses exactly when the
    session was revoked without a replacement, has expired, or its user or organisation is inactive.
   */
  lemma NeverRefusedAsRotated(s0: System, steps: seq<TabStep>, m: nat, jti: Jti, now: int)
    requires Fresh(s0) && IsRun(s0, steps) && CarefulReloads(s0, steps)
    requires var s := Reached(s0, steps);
             m < |s.net| && s.net[m].request.RefreshSession? && s.net[m].reply.None?
    ensures var s := Reached(s0, steps);
            var token := s.net[m].request.token;
            && Unreplaced(s.server, token.jti)
            && s.server.sessions[token.jti].user in s.server.users
            && (Handle(s.server, s.net[m].request, jti, now).1 == Failed(401) <==>
                  || s.server.sessions[token.jti].revokedAt.Some?
                  || s.server.sessions[token.jti].expiresAt <= now
                  || !s.server.users[s.server.sessions[token.jti].user].active
                  || s.server.users[s.server.sessions[token.jti].user].org !in s.server.activeOrgs)
  {
    hide IsRun, Reached, CarefulReloads, Fresh, Safety.Acyclic, Safety.FromLogin, Safety.Linear, TabOk;
    FreshOk(s0);
    RunKeeps(s0, steps);
    var s := Reached(s0, steps);
    assert Safety.SessionOk(s.server, s.net[m].request.token.jti);
  }

  lemma ResentAfterReload(s: System, operation: Operation, now: int)
    requires ReloadWouldResend(s) && s.tab.session.value.accessExpiresAt <= now
    ensures !SentOnce(Next(Next(s, Reload), StartCall(operation, now)).net)
  {
    var net := Next(Next(s, Reload), StartCall(operation, now)).net;
    assert net[s.tab.promise.m] == s.net[s.tab.promise.m];
    assert net[|s.net|].request == RefreshSession(s.tab.session.value.refresh);
  }

  lemma ResentByNextCall(s: System)
    requires ReloadWouldResend(s)
    ensures CanResend(Next(s, Reload))
  {
    var t := Next(s, Reload);
    var step := StartCall(Plain, s.tab.session.value.accessExpiresAt);
    ResentAfterReload(s, Plain, s.tab.session.value.accessExpiresAt);
    OneMore(t, step, []);
    assert [step] + [] == [step];
    assert Reached(t, [step]) == Next(t, step);
  }

  /** Some continuation, with no further reload at such a moment, presents a refresh token a second time. */
  ghost predicate CanResend(s: System) {
    exists steps :: IsRun(s, steps) && CarefulReloads(s, steps) && !SentOnce(Reached(s, steps).net)
  }

  lemma NeverResent(s: System)
    requires Inv(s)
    ensures !CanResend(s)
  {
    hide IsRun, Reached, CarefulReloads, SentOnce;
    forall steps | IsRun(s, steps) && CarefulReloads(s, steps)
      ensures SentOnce(Reached(s, steps).net)
    {
      RunKeeps(s, steps);
    }
  }

  /**
    The exact condition, over all continuations: after a reload some token can come to be presented twice just when
    the stored one is in flight at the reload.
   */
  lemma ReloadResendsExactly(s0: System, steps: seq<TabStep>)
    requires Fresh(s0) && IsRun(s0, steps) && CarefulReloads(s0, steps)
    ensures CanResend(Next(Reached(s0, steps), Reload)) <==> ReloadWouldResend(Reached(s0, steps))
  {
    hide IsRun, Reached, CarefulReloads, Fresh, Inv, Next, CanResend;
    FreshOk(s0);
    RunKeeps(s0, steps);
    var s := Reached(s0, steps);
    if ReloadWouldResend(s) {
      ResentByNextCall(s);
    } else {
      ReloadKeeps(s);
      NeverResent(Next(s, Reload));
    }
  }

  /** Such a state is reachable: one login and one call after the access token has expired lead to it. */
  lemma ReloadCanResend(s0: System, row: Option<UserId>, password: string, jti: Jti, now: int)
    requires Fresh(s0) && CanLogin(s0.server, row, password)
    ensures exists steps :: IsRun(s0, steps) && CarefulReloads(s0, steps) && ReloadWouldResend(Reached(s0, steps))
  {
    var a := StartLogin(row, password);
    var b := Serve(0, jti, now);
    var c := Deliver(0, now);
    var d := StartCall(Plain, now + s0.server.accessLifetime);
    var s1 := Next(s0, a);
    var s2 := Next(s1, b);
    var s3 := Next(s2, c);
    var s4 := Next(s3, d);
    assert ReloadWouldResend(s4);
    OneMore(s3, d, []);
    OneMore(s2, c, [d]);
    OneMore(s1, b, [c, d]);
    OneMore(s0, a, [b, c, d]);
    assert ReloadWouldResend(Reached(s0, [a] + [b, c, d]));
  }

  lemma OneMore(s: System, step: TabStep, rest: seq<TabStep>)
    requires Enabled(s, step) && step != Reload && IsRun(Next(s, step), rest) && CarefulReloads(Next(s, step), rest)
    ensures IsRun(s, [step] + rest) && CarefulReloads(s, [step] + rest)
    ensures Reached(s, [step] + rest) == Reached(Next(s, step), rest)
  {
    assert ([step] + rest)[1..] == rest;
  }
}
