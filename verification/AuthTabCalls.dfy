/** What a call of the tab puts on the network, over runs: one request, a second one after a 401, none without a session. */
module AuthTabCalls {
  import opened Options
  import opened AuthServer
  import opened AuthTab

  // ----- The requests of one call

  predicate ActsFor(s: System, step: TabStep, call: nat) {
    match step
    case StartCall(_, _) => |s.tab.calls| == call
    case Deliver(c, _) => c == call
    case Resume(c) => c == call
    case _ => false
  }

  /** Where on the network the step puts a request of the call, refreshes aside. */
  function SentBy(s: System, step: TabStep, call: nat): (r: seq<nat>)
    requires Enabled(s, step)
    ensures |r| <= 1
  {
    var t := Next(s, step);
    if ActsFor(s, step, call) && |t.net| > |s.net| && !t.net[|s.net|].request.RefreshSession? then [|s.net|] else []
  }

  function History(s: System, steps: seq<TabStep>, call: nat): seq<nat>
    requires IsRun(s, steps)
    decreases |steps|
  {
    if steps == [] then [] else SentBy(s, steps[0], call) + History(Next(s, steps[0]), steps[1..], call)
  }

  predicate IsFor(request: Request, operation: Operation) {
    match operation
    case Plain => request.Call?
    case NewPassword(current, replacement) =>
      request.ChangePassword? && request.current == current && request.replacement == replacement
    case Status(target, active) => request.SetStatus? && request.target == target && request.active == active
  }

  /** The first request of the call was answered by 401. */
  predicate Refused(net: seq<Message>, sent: seq<nat>) {
    sent != [] && sent[0] < |net| && net[sent[0]].reply == Some(Failed(401))
  }

  /** Where the call stands, given the requests it has put on the network so far. */
  predicate CallOk(s: System, call: nat, sent: seq<nat>, operation: Operation) {
    && call < |s.tab.calls|
    && (forall i :: 0 <= i < |sent| ==> sent[i] < |s.net| && IsFor(s.net[sent[i]].request, operation))
    && match s.tab.calls[call]
       case AwaitRefresh(_, BeforeSend, o) => o == operation && sent == []
       case AwaitRefresh(_, Retry, o) => o == operation && |sent| == 1 && Refused(s.net, sent)
       case AwaitCall(m, retry, o) =>
         o == operation && |sent| == (if retry then 1 else 2) && sent[|sent| - 1] == m
         && (!retry ==> Refused(s.net, sent))
       case Finished => |sent| <= 2 && (|sent| == 2 ==> Refused(s.net, sent))
       case _ => false
  }

  // ----- The network only grows

  /** Messages stay, and so do their replies. */
  predicate Extends(a: seq<Message>, b: seq<Message>) {
    && |a| <= |b|
    && forall i :: 0 <= i < |a| ==>
         a[i].request == b[i].request && (a[i].reply.Some? ==> a[i] == b[i])
  }

  lemma StepExtends(s: System, step: TabStep)
    requires Enabled(s, step)
    ensures Extends(s.net, Next(s, step).net)
  {
    hide Handle;
  }

  lemma ExtendsTransitive(a: seq<Message>, b: seq<Message>, c: seq<Message>)
    requires Extends(a, b) && Extends(b, c)
    ensures Extends(a, c)
  {
  }

  lemma RunExtends(s: System, steps: seq<TabStep>)
    requires IsRun(s, steps)
    ensures Extends(s.net, Reached(s, steps).net)
    decreases |steps|
  {
    hide Enabled, Next, Extends;
    if steps == [] {
      assert Extends(s.net, s.net) by {
        ExtendsItself(s.net);
      }
    } else {
      StepExtends(s, steps[0]);
      RunExtends(Next(s, steps[0]), steps[1..]);
      ExtendsTransitive(s.net, Next(s, steps[0]).net, Reached(s, steps).net);
    }
  }

  lemma ExtendsItself(a: seq<Message>)
    ensures Extends(a, a)
  {
  }

  // ----- At most one retry

  lemma CallStarts(s: System, operation: Operation, now: int)
    ensures var step := StartCall(operation, now);
            CallOk(Next(s, step), |s.tab.calls|, SentBy(s, step, |s.tab.calls|), operation)
  {
  }

  lemma StillOk(s: System, t: System, call: nat, sent: seq<nat>, operation: Operation)
    requires CallOk(s, call, sent, operation) && Extends(s.net, t.net)
    requires call < |t.tab.calls| && t.tab.calls[call] == s.tab.calls[call]
    ensures CallOk(t, call, sent, operation)
  {
  }

  lemma DeliverOk(s: System, call: nat, now: int, sent: seq<nat>, operation: Operation)
    requires CallOk(s, call, sent, operation) && Enabled(s, Deliver(call, now))
    ensures CallOk(Next(s, Deliver(call, now)), call, sent + SentBy(s, Deliver(call, now), call), operation)
  {
    var step := Deliver(call, now);
    assert SentBy(s, step, call) == [];
    assert sent + [] == sent;
  }

  lemma ResumeOk(s: System, call: nat, sent: seq<nat>, operation: Operation)
    requires CallOk(s, call, sent, operation) && Enabled(s, Resume(call))
    ensures CallOk(Next(s, Resume(call)), call, sent + SentBy(s, Resume(call), call), operation)
  {
    var t := Next(s, Resume(call));
    if |t.net| == |s.net| {
      assert sent + [] == sent;
    } else {
      assert t.net == s.net + [t.net[|s.net|]];
      assert SentBy(s, Resume(call), call) == [|s.net|];
    }
  }

  lemma CallStays(s: System, step: TabStep, call: nat)
    requires Enabled(s, step) && call < |s.tab.calls| && step != Reload
    requires step.Deliver? || step.Resume? || step.Fail? ==> step.call != call
    ensures var t := Next(s, step);
            call < |t.tab.calls| && t.tab.calls[call] == s.tab.calls[call] && SentBy(s, step, call) == []
  {
    hide Handle;
  }

  lemma StepOk(s: System, step: TabStep, call: nat, sent: seq<nat>, operation: Operation)
    requires CallOk(s, call, sent, operation) && Enabled(s, step) && step != Reload
    ensures CallOk(Next(s, step), call, sent + SentBy(s, step, call), operation)
  {
    if step.Deliver? && step.call == call {
      DeliverOk(s, call, step.now, sent, operation);
    } else if step.Resume? && step.call == call {
      ResumeOk(s, call, sent, operation);
    } else if step.Fail? && step.call == call {
      hide IsFor, Refused;
      assert sent + [] == sent;
    } else {
      hide CallOk, Next, Enabled, SentBy;
      CallStays(s, step, call);
      StepExtends(s, step);
      assert sent + [] == sent;
      StillOk(s, Next(s, step), call, sent, operation);
    }
  }

  lemma {:induction false} RunOk(s: System, steps: seq<TabStep>, call: nat, sent: seq<nat>, operation: Operation)
    requires CallOk(s, call, sent, operation) && IsRun(s, steps) && Reload !in steps
    ensures CallOk(Reached(s, steps), call, sent + History(s, steps, call), operation)
    decreases |steps|
  {
    hide CallOk, Next, Enabled, SentBy;
    if steps == [] {
      assert sent + [] == sent;
    } else {
      assert steps[0] in steps;
      StepOk(s, steps[0], call, sent, operation);
      var now := SentBy(s, steps[0], call);
      RunOk(Next(s, steps[0]), steps[1..], call, sent + now, operation);
      assert (sent + now) + History(Next(s, steps[0]), steps[1..], call) == sent + History(s, steps, call);
    }
  }

  /**
    Until the page is reloaded, a call puts at most two requests on the network, both for its own operation, and a
    second one only after the first was answered by 401.
   */
  lemma AtMostOneRetry(s: System, operation: Operation, now: int, steps: seq<TabStep>)
    requires var t := Next(s, StartCall(operation, now)); IsRun(t, steps) && Reload !in steps
    ensures var call, t := |s.tab.calls|, Next(s, StartCall(operation, now));
            var sent, net := SentBy(s, StartCall(operation, now), call) + History(t, steps, call), Reached(t, steps).net;
            && |sent| <= 2
            && (|sent| == 2 ==> Refused(net, sent))
            && forall i :: 0 <= i < |sent| ==> sent[i] < |net| && IsFor(net[sent[i]].request, operation)
  {
    hide Next, IsRun, Reached, History, SentBy, IsFor, Refused;
    CallStarts(s, operation, now);
    RunOk(Next(s, StartCall(operation, now)), steps, |s.tab.calls|, SentBy(s, StartCall(operation, now), |s.tab.calls|),
          operation);
  }

  // ----- Steps that do not move the call

  /** The page is not reloaded, and no step is the call's own. */
  predicate Leaves(steps: seq<TabStep>, call: nat) {
    forall i :: 0 <= i < |steps| ==>
      steps[i] != Reload && (steps[i].Deliver? || steps[i].Resume? || steps[i].Fail? ==> steps[i].call != call)
  }

  lemma {:induction false} CallWaits(s: System, steps: seq<TabStep>, call: nat)
    requires IsRun(s, steps) && Leaves(steps, call) && call < |s.tab.calls|
    ensures var t := Reached(s, steps);
            call < |t.tab.calls| && t.tab.calls[call] == s.tab.calls[call] && History(s, steps, call) == []
    decreases |steps|
  {
    hide Next, Enabled, SentBy;
    if steps != [] {
      CallStays(s, steps[0], call);
      assert forall i :: 0 <= i < |steps[1..]| ==> steps[1..][i] == steps[i + 1];
      CallWaits(Next(s, steps[0]), steps[1..], call);
    }
  }

  /** One step, and a run in which the call waits. */
  predicate Takes(s: System, step: TabStep, t: System) {
    Enabled(s, step) && t == Next(s, step)
  }

  predicate Waits(s: System, steps: seq<TabStep>, t: System, call: nat) {
    IsRun(s, steps) && t == Reached(s, steps) && Leaves(steps, call)
  }

  /** What waiting leaves alone. */
  lemma WhileWaiting(s: System, steps: seq<TabStep>, t: System, call: nat)
    requires Waits(s, steps, t, call) && call < |s.tab.calls|
    ensures call < |t.tab.calls| && t.tab.calls[call] == s.tab.calls[call] && IsRun(s, steps) && History(s, steps, call) == []
    ensures Extends(s.net, t.net) && Reload !in steps && t == Reached(s, steps)
  {
    hide Next, Enabled, IsRun, Reached, History, Extends;
    CallWaits(s, steps, call);
    RunExtends(s, steps);
  }

  // ----- A refresh that has settled

  /** The refresh of message `m` has settled this way, and no later one has taken its place. */
  predicate SettledAs(s: System, m: nat, ok: bool) {
    && m < |s.net|
    && ((s.tab.promise == Settled(m, ok) && m !in s.tab.outcomes)
        || (m in s.tab.outcomes && s.tab.outcomes[m] == ok && (s.tab.promise.NoPromise? || s.tab.promise.m > m)))
  }

  /** A stored session that came from message `m` holds the tokens of its reply. */
  predicate StoredFrom(s: System, m: nat, access: Claims, refresh: Claims) {
    && m < |s.net| && s.net[m].reply == Some(Tokens(access, refresh))
    && (s.tab.session.Some? && s.tab.session.value.origin == m ==>
          s.tab.session.value.access == access && s.tab.session.value.refresh == refresh)
  }

  lemma SettledStays(s: System, step: TabStep, m: nat, ok: bool)
    requires SettledAs(s, m, ok) && Enabled(s, step) && step != Reload
    ensures SettledAs(Next(s, step), m, ok)
  {
    hide Handle;
  }

  lemma StoredStays(s: System, step: TabStep, m: nat, access: Claims, refresh: Claims)
    requires StoredFrom(s, m, access, refresh) && Enabled(s, step) && step != Reload
    ensures StoredFrom(Next(s, step), m, access, refresh)
  {
    hide Handle;
  }

  lemma {:induction false} SettledOverRun(s: System, steps: seq<TabStep>, m: nat, ok: bool)
    requires SettledAs(s, m, ok) && IsRun(s, steps) && Reload !in steps
    ensures SettledAs(Reached(s, steps), m, ok)
    decreases |steps|
  {
    hide Next, Enabled, SettledAs;
    if steps != [] {
      assert steps[0] in steps;
      SettledStays(s, steps[0], m, ok);
      SettledOverRun(Next(s, steps[0]), steps[1..], m, ok);
    }
  }

  lemma {:induction false} StoredOverRun(s: System, steps: seq<TabStep>, m: nat, access: Claims, refresh: Claims)
    requires StoredFrom(s, m, access, refresh) && IsRun(s, steps) && Reload !in steps
    ensures StoredFrom(Reached(s, steps), m, access, refresh)
    decreases |steps|
  {
    hide Next, Enabled, StoredFrom;
    if steps != [] {
      assert steps[0] in steps;
      StoredStays(s, steps[0], m, access, refresh);
      StoredOverRun(Next(s, steps[0]), steps[1..], m, access, refresh);
    }
  }

  /** Outcomes are of refreshes before the one under way. */
  predicate OutcomesOk(s: System) {
    && (forall k :: k in s.tab.outcomes ==> k < |s.net|)
    && (s.tab.promise != NoPromise ==>
          s.tab.promise.m < |s.net| && forall k :: k in s.tab.outcomes ==> k < s.tab.promise.m)
  }

  lemma OutcomesStay(s: System, step: TabStep)
    requires OutcomesOk(s) && Enabled(s, step)
    ensures OutcomesOk(Next(s, step))
  {
    hide Handle;
  }

  lemma {:induction false} OutcomesOverRun(s: System, steps: seq<TabStep>)
    requires OutcomesOk(s) && IsRun(s, steps)
    ensures OutcomesOk(Reached(s, steps))
    decreases |steps|
  {
    hide Next, Enabled, OutcomesOk;
    if steps != [] {
      OutcomesStay(s, steps[0]);
      OutcomesOverRun(Next(s, steps[0]), steps[1..]);
    }
  }

  // ----- A call that awaits a refresh

  predicate AwaitsRefresh(s: System, call: nat, m: nat, resumption: Resumption, operation: Operation) {
    call < |s.tab.calls| && s.tab.calls[call] == AwaitRefresh(m, resumption, operation)
  }

  lemma GrantDelivered(s: System, m: nat, access: Claims, refresh: Claims, now: int)
    requires s.tab.promise == InFlight(m) && m < |s.net| && s.net[m].reply == Some(Tokens(access, refresh))
    requires OutcomesOk(s)
    ensures Enabled(s, DeliverRefresh(now))
    ensures var t := Next(s, DeliverRefresh(now));
            && SettledAs(t, m, true) && StoredFrom(t, m, access, refresh) && t.net == s.net && t.tab.calls == s.tab.calls
            && t.tab.session == Some(Stored(access, refresh, now + s.server.accessLifetime, m))
  {
  }

  /**
    Once the refresh a call awaits is granted and delivered, and its session is still the stored one when the call
    resumes, the call puts exactly one request on the network, with the access token just granted.
   */
  lemma GrantedCallSends(
      s: System, d: System, t: System, u: System, call: nat, m: nat, resumption: Resumption, operation: Operation,
      access: Claims, refresh: Claims, now: int, steps: seq<TabStep>)
    requires OutcomesOk(s) && AwaitsRefresh(s, call, m, resumption, operation)
    requires s.tab.promise == InFlight(m) && m < |s.net| && s.net[m].reply == Some(Tokens(access, refresh))
    requires Takes(s, DeliverRefresh(now), d) && Waits(d, steps, t, call) && Takes(t, Resume(call), u)
    requires m in t.tab.outcomes && t.tab.session.Some? && t.tab.session.value.origin == m
    ensures u.net == t.net + [Message(RequestFor(operation, access), None)] && u.server == t.server
    ensures call < |u.tab.calls| && u.tab.calls[call] == AwaitCall(|t.net|, resumption == BeforeSend, operation)
    ensures History(d, steps, call) == [] && SentBy(t, Resume(call), call) == [|t.net|]
  {
    GrantDelivered(s, m, access, refresh, now);
    hide AwaitsRefresh, SettledAs, OutcomesOk, SentBy, Next, Enabled, IsRun, Reached, History, Waits;
    AwaitsBound(s, call, m, resumption, operation);
    WhileWaiting(d, steps, t, call);
    SettledOverRun(d, steps, m, true);
    StoredOverRun(d, steps, m, access, refresh);
    SettledOutcome(t, m, true);
    SameAwaits(s, t, call, m, resumption, operation);
    ResumeSends(t, call, m, resumption, operation);
  }

  lemma AwaitsBound(s: System, call: nat, m: nat, resumption: Resumption, operation: Operation)
    requires AwaitsRefresh(s, call, m, resumption, operation)
    ensures call < |s.tab.calls|
  {
  }

  lemma ResumeSends(s: System, call: nat, m: nat, resumption: Resumption, operation: Operation)
    requires AwaitsRefresh(s, call, m, resumption, operation) && m in s.tab.outcomes
    ensures Enabled(s, Resume(call))
    ensures var t := Next(s, Resume(call));
            && t.server == s.server
            && if s.tab.outcomes[m] && s.tab.session.Some? then
                 && t.net == s.net + [Message(RequestFor(operation, s.tab.session.value.access), None)]
                 && t.tab.calls == s.tab.calls[call := AwaitCall(|s.net|, resumption == BeforeSend, operation)]
                 && SentBy(s, Resume(call), call) == [|s.net|]
               else
                 t.net == s.net && t.tab.calls == s.tab.calls[call := Finished] && SentBy(s, Resume(call), call) == []
  {
  }

  lemma {:induction false} FinishedSilent(s: System, steps: seq<TabStep>, call: nat)
    requires IsRun(s, steps) && Reload !in steps && call < |s.tab.calls| && s.tab.calls[call] == Finished
    ensures var t := Reached(s, steps);
            call < |t.tab.calls| && t.tab.calls[call] == Finished && History(s, steps, call) == []
    decreases |steps|
  {
    hide Next, SentBy;
    if steps != [] {
      assert steps[0] in steps;
      assert steps[0].Deliver? || steps[0].Resume? || steps[0].Fail? ==> steps[0].call != call;
      CallStays(s, steps[0], call);
      FinishedSilent(Next(s, steps[0]), steps[1..], call);
    }
  }

  lemma RefreshFails(s: System, m: nat, failure: TabStep)
    requires OutcomesOk(s) && s.tab.promise == InFlight(m) && Enabled(s, failure)
    requires failure == FailRefresh
             || (failure.DeliverRefresh? && s.net[m].reply.Some? && !s.net[m].reply.value.Tokens?)
    ensures var d := Next(s, failure);
            SettledAs(d, m, false) && d.tab.calls == s.tab.calls && d.tab.session == None
  {
  }

  lemma SettledOutcome(s: System, m: nat, ok: bool)
    requires SettledAs(s, m, ok) && m in s.tab.outcomes
    ensures s.tab.outcomes[m] == ok
  {
  }

  lemma SameAwaits(s: System, t: System, call: nat, m: nat, resumption: Resumption, operation: Operation)
    requires AwaitsRefresh(s, call, m, resumption, operation)
    requires call < |t.tab.calls| && t.tab.calls[call] == s.tab.calls[call]
    ensures call < |s.tab.calls| && AwaitsRefresh(t, call, m, resumption, operation)
  {
  }

  /** A refresh that fails, by its reply or on the way, ends every call that awaits it without a request. */
  lemma FailedRefreshSendsNothing(
      s: System, d: System, t: System, u: System, call: nat, m: nat, resumption: Resumption, operation: Operation,
      failure: TabStep, steps: seq<TabStep>, later: seq<TabStep>)
    requires OutcomesOk(s) && AwaitsRefresh(s, call, m, resumption, operation) && s.tab.promise == InFlight(m)
    requires Takes(s, failure, d) && Waits(d, steps, t, call) && Takes(t, Resume(call), u) && m in t.tab.outcomes
    requires failure == FailRefresh
             || (failure.DeliverRefresh? && s.net[m].reply.Some? && !s.net[m].reply.value.Tokens?)
    requires IsRun(u, later) && Reload !in later
    ensures d.tab.session == None
    ensures History(d, steps, call) == [] && SentBy(t, Resume(call), call) == [] && History(u, later, call) == []
    ensures var w := Reached(u, later); call < |w.tab.calls| && w.tab.calls[call] == Finished
  {
    RefreshFails(s, m, failure);
    hide AwaitsRefresh, SettledAs, OutcomesOk, SentBy, Next, Enabled, IsRun, Reached, History, Waits;
    AwaitsBound(s, call, m, resumption, operation);
    WhileWaiting(d, steps, t, call);
    SettledOverRun(d, steps, m, false);
    SettledOutcome(t, m, false);
    SameAwaits(s, t, call, m, resumption, operation);
    ResumeSends(t, call, m, resumption, operation);
    FinishedSilent(u, later, call);
  }

  // ----- The first step of a call

  /** Without a session nothing is sent; a live token is used at once; an expired one leads to a refresh, or joins it. */
  lemma CallBegins(s: System, operation: Operation, now: int)
    ensures var t, call := Next(s, StartCall(operation, now)), |s.tab.calls|;
            && |t.tab.calls| == call + 1 && t.server == s.server && t.tab.session == s.tab.session
            && (s.tab.session.None? ==> t.net == s.net && t.tab.calls[call] == Finished)
            && (s.tab.session.Some? && now < s.tab.session.value.accessExpiresAt ==>
                  && t.net == s.net + [Message(RequestFor(operation, s.tab.session.value.access), None)]
                  && t.tab.calls[call] == AwaitCall(|s.net|, true, operation))
            && (s.tab.session.Some? && s.tab.session.value.accessExpiresAt <= now ==>
                  if s.tab.promise.NoPromise? then
                    && t.net == s.net + [Message(RefreshSession(s.tab.session.value.refresh), None)]
                    && t.tab.promise == InFlight(|s.net|)
                    && AwaitsRefresh(t, call, |s.net|, BeforeSend, operation)
                  else
                    && t.net == s.net && t.tab.promise == s.tab.promise
                    && AwaitsRefresh(t, call, s.tab.promise.m, BeforeSend, operation))
  {
  }

  /** A first 401 leads to a refresh, or joins one; any other reply, or a second 401, ends the call. */
  lemma ReplyDelivered(s: System, call: nat, now: int, k: nat, retry: bool, operation: Operation)
    requires call < |s.tab.calls| && s.tab.calls[call] == AwaitCall(k, retry, operation)
    requires Enabled(s, Deliver(call, now))
    ensures var t := Next(s, Deliver(call, now));
            && |t.tab.calls| == |s.tab.calls| && t.server == s.server && t.tab.session == s.tab.session
            && if retry && s.net[k].reply == Some(Failed(401)) && s.tab.session.Some? && s.tab.promise.NoPromise? then
                 && t.net == s.net + [Message(RefreshSession(s.tab.session.value.refresh), None)]
                 && t.tab.promise == InFlight(|s.net|)
                 && AwaitsRefresh(t, call, |s.net|, Retry, operation)
               else if retry && s.net[k].reply == Some(Failed(401)) && !s.tab.promise.NoPromise? then
                 && t.net == s.net && t.tab.promise == s.tab.promise
                 && AwaitsRefresh(t, call, s.tab.promise.m, Retry, operation)
               else t.net == s.net && t.tab.calls[call] == Finished
    ensures SentBy(s, Deliver(call, now), call) == []
  {
  }

  // ----- Logging in and out

  /** A login that is granted stores its tokens; one that is not leaves the session as it is. */
  lemma LoginDelivered(s: System, call: nat, now: int, m: nat)
    requires call < |s.tab.calls| && s.tab.calls[call] == AwaitLogin(m) && Enabled(s, Deliver(call, now))
    ensures var t, reply := Next(s, Deliver(call, now)), s.net[m].reply.value;
            && t.net == s.net && t.tab.calls == s.tab.calls[call := Finished]
            && t.tab.session == if reply.Tokens? then
                                  Some(Stored(reply.access, reply.refresh, now + s.server.accessLifetime, m))
                                else s.tab.session
  {
  }

  /** A logout presents the stored refresh token, and clears the session however the request ends. */
  lemma LogoutClears(s: System)
    ensures var t, call := Next(s, StartLogout), |s.tab.calls|;
            && call < |t.tab.calls|
            && if s.tab.session.None? then t.tab.session == None && t.net == s.net
               else
                 && t.net == s.net + [Message(Logout(s.tab.session.value.refresh), None)]
                 && t.tab.calls[call] == AwaitLogout(|s.net|)
  {
  }

  lemma LogoutEnds(s: System, call: nat, m: nat, end: TabStep)
    requires call < |s.tab.calls| && s.tab.calls[call] == AwaitLogout(m)
    requires end == Fail(call) || (end.Deliver? && end.call == call)
    requires Enabled(s, end)
    ensures Next(s, end).tab.session == None && Next(s, end).tab.calls == s.tab.calls[call := Finished]
  {
  }

  // ----- Access tokens the tab was granted

  /** Every access token granted to the tab is one the server issued. */
  predicate GrantsKnown(s: System) {
    forall i :: 0 <= i < |s.net| && IsGrant(s.net[i]) ==>
      s.net[i].reply.value.access in s.server.accessTokens && s.net[i].reply.value.access.kind == Access
  }

  lemma HandleKnown(s: Server, request: Request, jti: Jti, now: int)
    ensures var (t, reply) := Handle(s, request, jti, now);
            && s.accessTokens <= t.accessTokens
            && (reply.Tokens? ==> reply.access in t.accessTokens && reply.access.kind == Access)
  {
  }

  lemma KnownStays(s: System, step: TabStep)
    requires GrantsKnown(s) && Enabled(s, step)
    ensures GrantsKnown(Next(s, step)) && s.server.accessTokens <= Next(s, step).server.accessTokens
  {
    hide Handle;
    if step.Serve? {
      HandleKnown(s.server, s.net[step.m].request, step.jti, step.now);
    } else if step.ServeOther? {
      HandleKnown(s.server, step.request, step.jti, step.now);
    }
  }

  lemma {:induction false} KnownOverRun(s: System, steps: seq<TabStep>)
    requires GrantsKnown(s) && IsRun(s, steps)
    ensures GrantsKnown(Reached(s, steps)) && s.server.accessTokens <= Reached(s, steps).server.accessTokens
    decreases |steps|
  {
    hide Next, Enabled, GrantsKnown;
    if steps != [] {
      KnownStays(s, steps[0]);
      KnownOverRun(Next(s, steps[0]), steps[1..]);
    }
  }

  /** The user and organisation of the token are active and as the token says, and it has not expired. */
  predicate InForce(s: Server, token: Claims, now: int) {
    && token.sub in s.users && s.users[token.sub].active && s.users[token.sub].org == token.org
    && token.org in s.activeOrgs && s.users[token.sub].tokenVersion == token.tv
    && s.users[token.sub].role == token.role && now < token.exp
  }

  lemma ServedInForce(s: System, k: nat, operation: Operation, access: Claims, jti: Jti, now: int)
    requires k < |s.net| && s.net[k] == Message(RequestFor(operation, access), None) && Enabled(s, Serve(k, jti, now))
    requires access in s.server.accessTokens && access.kind == Access && InForce(s.server, access, now)
    ensures var t := Next(s, Serve(k, jti, now));
            && k < |t.net| && t.net[k].reply.Some? && t.net[k].reply != Some(Failed(401))
            && (operation == Plain ==> t.net[k].reply == Some(Done))
            && t.tab == s.tab && t.net[k].request == s.net[k].request
  {
  }

  // ----- Whole calls

  lemma {:induction false} RunConcat(s: System, a: seq<TabStep>, b: seq<TabStep>)
    requires IsRun(s, a) && IsRun(Reached(s, a), b)
    ensures IsRun(s, a + b) && Reached(s, a + b) == Reached(Reached(s, a), b)
    ensures forall call :: History(s, a + b, call) == History(s, a, call) + History(Reached(s, a), b, call)
    decreases |a|
  {
    hide Next, Enabled, SentBy;
    if a == [] {
      assert a + b == b;
    } else {
      assert (a + b)[1..] == a[1..] + b;
      RunConcat(Next(s, a[0]), a[1..], b);
    }
  }

  lemma OneStepRun(s: System, step: TabStep, call: nat)
    requires Enabled(s, step)
    ensures IsRun(s, [step]) && Reached(s, [step]) == Next(s, step) && History(s, [step], call) == SentBy(s, step, call)
  {
    hide Next, Enabled, SentBy;
    assert [step][1..] == [];
  }

  /** A run continued by one step and a further run. */
  lemma RunOn(s: System, a: seq<TabStep>, step: TabStep, b: seq<TabStep>, call: nat)
    requires IsRun(s, a) && Enabled(Reached(s, a), step) && IsRun(Next(Reached(s, a), step), b)
    ensures var all := a + [step] + b;
            && IsRun(s, all) && Reached(s, all) == Reached(Next(Reached(s, a), step), b)
            && History(s, all, call)
            == History(s, a, call) + SentBy(Reached(s, a), step, call) + History(Next(Reached(s, a), step), b, call)
  {
    hide Next, Enabled, SentBy, IsRun, Reached, History;
    OneStepRun(Reached(s, a), step, call);
    RunConcat(s, a, [step]);
    RunConcat(s, a + [step], b);
  }

  lemma AccessIssued(s: System, m: nat, access: Claims, refresh: Claims)
    requires GrantsKnown(s) && m < |s.net| && s.net[m].reply == Some(Tokens(access, refresh))
    ensures access in s.server.accessTokens && access.kind == Access
  {
  }

  lemma Unserved(s: System, k: nat, jti: Jti, now: int)
    requires Enabled(s, Serve(k, jti, now))
    ensures k < |s.net| && s.net[k].reply == None
  {
  }

  lemma FreshBookkeeping(s: System)
    requires Fresh(s)
    ensures OutcomesOk(s) && GrantsKnown(s)
  {
  }

  /** Both pieces of bookkeeping hold in every reachable state. */
  lemma Bookkeeping(s0: System, before: seq<TabStep>)
    requires Fresh(s0) && IsRun(s0, before)
    ensures OutcomesOk(Reached(s0, before)) && GrantsKnown(Reached(s0, before))
  {
    hide Next, Enabled, IsRun, Reached, OutcomesOk, GrantsKnown, Fresh;
    FreshBookkeeping(s0);
    OutcomesOverRun(s0, before);
    KnownOverRun(s0, before);
  }

  lemma BookkeepingOn(s: System, step: TabStep, t: System, steps: seq<TabStep>, u: System, call: nat)
    requires OutcomesOk(s) && GrantsKnown(s) && Takes(s, step, t) && Waits(t, steps, u, call)
    ensures OutcomesOk(t) && OutcomesOk(u) && GrantsKnown(t) && GrantsKnown(u)
    ensures s.server.accessTokens <= u.server.accessTokens
  {
    hide Next, Enabled, IsRun, Reached, OutcomesOk, GrantsKnown, Leaves;
    OutcomesStay(s, step);
    OutcomesOverRun(t, steps);
    KnownStays(s, step);
    KnownOverRun(t, steps);
  }

  /**
    A call that awaits a refresh under way, with anything else going on between its own steps: the refresh is granted
    and delivered, nobody logs in or out before the call resumes, and its request is served while the user is active
    and the token in force. The call then puts exactly one request on the network, with the access token just granted,
    and it is not answered by 401; a plain call is answered by Done.
   */
  lemma AwaitedCallAnswered(
      s: System, d: System, t: System, sent: System, u: System, v: System, call: nat, m: nat, resumption: Resumption,
      operation: Operation, access: Claims, refresh: Claims, now: int, a: seq<TabStep>, b: seq<TabStep>, jti: Jti,
      served: int)
    requires OutcomesOk(s) && GrantsKnown(s) && AwaitsRefresh(s, call, m, resumption, operation)
    requires s.tab.promise == InFlight(m) && m < |s.net| && s.net[m].reply == Some(Tokens(access, refresh))
    requires Takes(s, DeliverRefresh(now), d) && Waits(d, a, t, call) && Takes(t, Resume(call), sent)
    requires m in t.tab.outcomes && t.tab.session.Some? && t.tab.session.value.origin == m
    requires Waits(sent, b, u, call) && Takes(u, Serve(|t.net|, jti, served), v) && InForce(u.server, access, served)
    ensures History(d, a, call) == [] && SentBy(t, Resume(call), call) == [|t.net|] && History(sent, b, call) == []
    ensures |t.net| < |v.net| && v.net[|t.net|].request == RequestFor(operation, access)
    ensures v.net[|t.net|].reply.Some? && v.net[|t.net|].reply != Some(Failed(401))
    ensures operation == Plain ==> v.net[|t.net|].reply == Some(Done)
    ensures call < |sent.tab.calls|
    ensures call < |v.tab.calls| && v.tab.calls[call] == AwaitCall(|t.net|, resumption == BeforeSend, operation)
  {
    var k := |t.net|;
    GrantedCallSends(s, d, t, sent, call, m, resumption, operation, access, refresh, now, a);
    hide Next, SentBy, IsRun, Reached, History, AwaitsRefresh, OutcomesOk, GrantsKnown, InForce, Waits, Enabled;
    WhileWaiting(sent, b, u, call);
    AccessIssued(s, m, access, refresh);
    BookkeepingOn(s, DeliverRefresh(now), d, a, t, call);
    BookkeepingOn(t, Resume(call), sent, b, u, call);
    assert sent.net[k] == Message(RequestFor(operation, access), None);
    Unserved(u, k, jti, served);
    assert u.net[k] == Message(RequestFor(operation, access), None);
    ServedInForce(u, k, operation, access, jti, served);
  }

  /**
    From any reachable state with an expired session and no refresh under way: a plain call presents the stored
    refresh token; once that is granted, delivered and resumed, and the request served in force, it is answered by
    Done and ends, and the one request it ever put on the network carried the new access token.
   */
  lemma ExpiredCallAnswered(
      s0: System, before: seq<TabStep>, s: System, asked: System, f: System, d: System, t: System, sent: System,
      u: System, v: System, w: System, call: nat, start: int, first: seq<TabStep>, access: Claims, refresh: Claims,
      now: int, a: seq<TabStep>, b: seq<TabStep>, jti: Jti, served: int, c: seq<TabStep>, end: int)
    requires Fresh(s0) && IsRun(s0, before) && s == Reached(s0, before) && call == |s.tab.calls|
    requires s.tab.session.Some? && s.tab.session.value.accessExpiresAt <= start && s.tab.promise == NoPromise
    requires Takes(s, StartCall(Plain, start), asked) && Waits(asked, first, f, call)
    requires f.tab.promise == InFlight(|s.net|) && |s.net| < |f.net|
    requires f.net[|s.net|].reply == Some(Tokens(access, refresh))
    requires Takes(f, DeliverRefresh(now), d) && Waits(d, a, t, call) && Takes(t, Resume(call), sent)
    requires |s.net| in t.tab.outcomes && t.tab.session.Some? && t.tab.session.value.origin == |s.net|
    requires Waits(sent, b, u, call) && Takes(u, Serve(|t.net|, jti, served), v) && InForce(u.server, access, served)
    requires Waits(v, c, w, call)
    ensures asked.net == s.net + [Message(RefreshSession(s.tab.session.value.refresh), None)]
    ensures var steps := [StartCall(Plain, start)] + first + [DeliverRefresh(now)] + a + [Resume(call)] + b
                         + [Serve(|t.net|, jti, served)] + c + [Deliver(call, end)];
            && IsRun(s, steps) && History(s, steps, call) == [|t.net|]
            && call < |Reached(s, steps).tab.calls| && Reached(s, steps).tab.calls[call] == Finished
    ensures |t.net| < |w.net| && w.net[|t.net|] == Message(Call(access), Some(Done))
  {
    hide Next, SentBy, IsRun, Reached, History, OutcomesOk, GrantsKnown, InForce, Waits, Enabled, Fresh, Handle,
      SendCall, Rotate, BeginCall;
    var m, k := |s.net|, |t.net|;
    Bookkeeping(s0, before);
    StartSendsNothing(s, start);
    CallBegins(s, Plain, start);
    BookkeepingOn(s, StartCall(Plain, start), asked, first, f, call);
    WhileWaiting(asked, first, f, call);
    SameAwaits(asked, f, call, m, BeforeSend, Plain);
    AwaitedCallAnswered(f, d, t, sent, u, v, call, m, BeforeSend, Plain, access, refresh, now, a, b, jti, served);
    WhileWaiting(v, c, w, call);
    CanDeliver(w, call, end, k, true, Plain);
    ReplyDelivered(w, call, end, k, true, Plain);
    hide AwaitsRefresh, Takes;
    OneStepRun(s, StartCall(Plain, start), call);
    RunConcat(s, [StartCall(Plain, start)], first);
    AnsweredRun(s, [StartCall(Plain, start)] + first, f, d, t, sent, u, v, w, call, now, a, b, jti, served, c, end);
  }

  /** A run continued from a granted refresh until the reply to the call is delivered. */
  lemma AnsweredRun(
      s: System, begun: seq<TabStep>, f: System, d: System, t: System, sent: System, u: System, v: System, w: System,
      call: nat, now: int, a: seq<TabStep>, b: seq<TabStep>, jti: Jti, served: int, c: seq<TabStep>, end: int)
    requires IsRun(s, begun) && Reached(s, begun) == f && call < |f.tab.calls| && call < |sent.tab.calls|
    requires Takes(f, DeliverRefresh(now), d) && Waits(d, a, t, call)
    requires Takes(t, Resume(call), sent) && Waits(sent, b, u, call)
    requires Takes(u, Serve(|t.net|, jti, served), v) && Waits(v, c, w, call) && call < |v.tab.calls|
    requires Enabled(w, Deliver(call, end)) && SentBy(w, Deliver(call, end), call) == []
    ensures var all := begun + [DeliverRefresh(now)] + a + [Resume(call)] + b + [Serve(|t.net|, jti, served)] + c
                       + [Deliver(call, end)];
            && IsRun(s, all) && Reached(s, all) == Next(w, Deliver(call, end))
            && History(s, all, call) == History(s, begun, call) + SentBy(t, Resume(call), call)
  {
    hide Next, SentBy, IsRun, Reached, History, Waits, Enabled;
    GrantedRun(s, begun, f, d, t, sent, u, call, now, a, b);
    var x3 := begun + [DeliverRefresh(now)] + a + [Resume(call)] + b;
    ServeSendsNothing(u, |t.net|, jti, served, call);
    WhileWaiting(v, c, w, call);
    RunOn(s, x3, Serve(|t.net|, jti, served), c, call);
    OneStepRun(w, Deliver(call, end), call);
    RunConcat(s, x3 + [Serve(|t.net|, jti, served)] + c, [Deliver(call, end)]);
  }

  /** A run continued by the delivery of a granted refresh, the resumption of the call, and waiting in between. */
  lemma GrantedRun(
      s: System, begun: seq<TabStep>, f: System, d: System, t: System, sent: System, u: System, call: nat, now: int,
      a: seq<TabStep>, b: seq<TabStep>)
    requires IsRun(s, begun) && Reached(s, begun) == f && call < |f.tab.calls| && call < |sent.tab.calls|
    requires Takes(f, DeliverRefresh(now), d) && Waits(d, a, t, call)
    requires Takes(t, Resume(call), sent) && Waits(sent, b, u, call)
    ensures var all := begun + [DeliverRefresh(now)] + a + [Resume(call)] + b;
            && IsRun(s, all) && Reached(s, all) == u
            && History(s, all, call) == History(s, begun, call) + SentBy(t, Resume(call), call)
  {
    hide Next, SentBy, IsRun, Reached, History, Waits, Enabled;
    GrantStays(f, d, call, now);
    WhileWaiting(d, a, t, call);
    RunOn(s, begun, DeliverRefresh(now), a, call);
    WhileWaiting(sent, b, u, call);
    RunOn(s, begun + [DeliverRefresh(now)] + a, Resume(call), b, call);
  }

  lemma GrantStays(s: System, d: System, call: nat, now: int)
    requires Takes(s, DeliverRefresh(now), d) && call < |s.tab.calls|
    ensures call < |d.tab.calls| && SentBy(s, DeliverRefresh(now), call) == []
  {
  }

  lemma ServeSendsNothing(s: System, k: nat, jti: Jti, now: int, call: nat)
    requires Enabled(s, Serve(k, jti, now))
    ensures SentBy(s, Serve(k, jti, now), call) == []
  {
  }

  lemma StartSendsNothing(s: System, now: int)
    requires s.tab.session.Some? && s.tab.session.value.accessExpiresAt <= now && s.tab.promise == NoPromise
    ensures Enabled(s, StartCall(Plain, now)) && SentBy(s, StartCall(Plain, now), |s.tab.calls|) == []
  {
  }

  lemma CanDeliver(s: System, call: nat, now: int, k: nat, retry: bool, operation: Operation)
    requires call < |s.tab.calls| && s.tab.calls[call] == AwaitCall(k, retry, operation)
    requires k < |s.net| && s.net[k].reply.Some?
    ensures Enabled(s, Deliver(call, now))
  {
  }

  /**
    A first 401 leads to exactly one retry: the call presents the stored refresh token, and once that is granted,
    delivered and resumed it puts exactly one more request on the network, with the new access token; whatever the
    reply to that one, the call then ends.
   */
  lemma RefusedCallRetriesOnce(
      s0: System, before: seq<TabStep>, s: System, asked: System, f: System, d: System, t: System, sent: System,
      u: System, w: System, call: nat, k: nat, operation: Operation, start: int, first: seq<TabStep>, access: Claims,
      refresh: Claims, now: int, a: seq<TabStep>, b: seq<TabStep>, end: int)
    requires Fresh(s0) && IsRun(s0, before) && s == Reached(s0, before)
    requires call < |s.tab.calls| && s.tab.calls[call] == AwaitCall(k, true, operation) && k < |s.net|
    requires s.net[k].reply == Some(Failed(401)) && s.tab.session.Some? && s.tab.promise == NoPromise
    requires Takes(s, Deliver(call, start), asked) && Waits(asked, first, f, call)
    requires f.tab.promise == InFlight(|s.net|) && |s.net| < |f.net|
    requires f.net[|s.net|].reply == Some(Tokens(access, refresh))
    requires Takes(f, DeliverRefresh(now), d) && Waits(d, a, t, call) && Takes(t, Resume(call), sent)
    requires |s.net| in t.tab.outcomes && t.tab.session.Some? && t.tab.session.value.origin == |s.net|
    requires Waits(sent, b, u, call) && Takes(u, Deliver(call, end), w)
    ensures asked.net == s.net + [Message(RefreshSession(s.tab.session.value.refresh), None)]
    ensures sent.net == t.net + [Message(RequestFor(operation, access), None)]
    ensures var steps := [Deliver(call, start)] + first + [DeliverRefresh(now)] + a + [Resume(call)] + b + [Deliver(call, end)];
            && IsRun(s, steps) && Reached(s, steps) == w && History(s, steps, call) == [|t.net|]
            && call < |w.tab.calls| && w.tab.calls[call] == Finished
  {
    var m, k2 := |s.net|, |t.net|;
    Bookkeeping(s0, before);
    ReplyDelivered(s, call, start, k, true, operation);
    hide Next, SentBy, IsRun, Reached, History, OutcomesOk, GrantsKnown, Waits, Enabled, Fresh;
    BookkeepingOn(s, Deliver(call, start), asked, first, f, call);
    WhileWaiting(asked, first, f, call);
    SameAwaits(asked, f, call, m, Retry, operation);
    GrantedCallSends(f, d, t, sent, call, m, Retry, operation, access, refresh, now, a);
    WhileWaiting(sent, b, u, call);
    ReplyDelivered(u, call, end, k2, false, operation);
    OneStepRun(s, Deliver(call, start), call);
    RunConcat(s, [Deliver(call, start)], first);
    var x1 := [Deliver(call, start)] + first;
    GrantedRun(s, x1, f, d, t, sent, u, call, now, a, b);
    var x3 := x1 + [DeliverRefresh(now)] + a + [Resume(call)] + b;
    OneStepRun(u, Deliver(call, end), call);
    RunConcat(s, x3, [Deliver(call, end)]);
  }
}
