/** Connect calls, from the request that a client makes to what it gets back. The requests are those of the run: its
    Join and Begin events. */
module SshCalls {
  import opened Wrappers
  import opened SshConnector
  import opened SshLog
  import opened SshInvariants

  // ---------- a call and its records ----------

  /** Where a call stands, and what the log says of it. */
  predicate Standing(call: Call, v: OpenCall) {
    match call
    case Idle => v.NoCall?
    case GivePassphrase(request) => v == OpenCall(request, false)
    case GiveDecision(decision) => v.OpenCall? && !v.answered && v.request.accept == Some(decision)
    case _ => v.OpenCall? && (v.answered <==> v.request.accept.Some?)
  }

  predicate ClientStands(s: State, id: Id) {
    if id in s.clients then Standing(s.clients[id].call, CallOf(s.log, id)) else !HasCalled(s.log, id)
  }

  ghost predicate CallsInv(s: State) {
    ProperCalls(s.log) && forall id :: ClientStands(s, id)
  }

  /** The client was woken, or nothing happened to it, and nothing was logged in its name. */
  predicate Undisturbed(s: State, s': State, id: Id) {
    && (id in s'.clients <==> id in s.clients)
    && (id in s.clients ==> s'.clients[id] == s.clients[id] || s'.clients[id] == Wake(s.clients[id]))
    && (s'.log == s.log ||
        (s'.log.Then? && s'.log.prev == s.log && (OfClient(s'.log.last) ==> s'.log.last.id != id)))
  }

  lemma UndisturbedStands(s: State, s': State, id: Id)
    requires ClientStands(s, id) && Undisturbed(s, s', id)
    ensures ClientStands(s', id)
  {
  }

  /** One more record of a client, if any, and a fitting one. */
  predicate Fits(log: Log, log': Log, id: Id) {
    log' == log ||
    (log'.Then? && log'.prev == log && OfClient(log'.last) && log'.last.id == id
     && ProperCall(CallOf(log, id), log'.last))
  }

  lemma GiveStands(s: State, id: Id, s': State)
    requires id in s.clients && Gives(s.clients[id].call) && GiveStep(s, id) == Some(s') && ClientStands(s, id)
    ensures ClientStands(s', id) && Fits(s.log, s'.log, id)
  {
  }

  lemma EndStands(s: State, id: Id)
    requires id in s.clients && Ends(s.clients[id].call) && ClientStands(s, id)
    ensures ClientStands(EndStep(s, id), id) && Fits(s.log, EndStep(s, id).log, id)
  {
  }

  lemma MoveStands(s: State, id: Id)
    requires id in s.clients && ClientStands(s, id)
    requires !Gives(s.clients[id].call) && !s.clients[id].call.Idle? && !Ends(s.clients[id].call)
    ensures ClientStands(MoveStep(s, id), id) && MoveStep(s, id).log == s.log
  {
  }

  lemma LoopStands(s: State, id: Id, s': State)
    requires id in s.clients && !Gives(s.clients[id].call) && ClientStep(s, id) == Some(s') && ClientStands(s, id)
    ensures ClientStands(s', id) && Fits(s.log, s'.log, id)
  {
    if Ends(s.clients[id].call) {
      EndStands(s, id);
    } else if !s.clients[id].call.ReadMessage? {
      MoveStands(s, id);
    }
  }

  lemma GiveDisturbs(s: State, id: Id, s': State, other: Id)
    requires id in s.clients && Gives(s.clients[id].call) && GiveStep(s, id) == Some(s') && other != id
    requires Fits(s.log, s'.log, id)
    ensures Undisturbed(s, s', other)
  {
    GivingWakes(s, id, s');
  }

  lemma LoopDisturbs(s: State, id: Id, s': State, other: Id)
    requires id in s.clients && !Gives(s.clients[id].call) && ClientStep(s, id) == Some(s') && other != id
    requires Fits(s.log, s'.log, id)
    ensures Undisturbed(s, s', other)
  {
    LoopIsOwn(s, id, s');
  }

  lemma CallsInvClient(s: State, id: Id, s': State)
    requires CallsInv(s) && id in s.clients && ClientStep(s, id) == Some(s')
    ensures CallsInv(s')
  {
    assert ClientStands(s, id);
    if Gives(s.clients[id].call) {
      GiveStands(s, id, s');
    } else {
      LoopStands(s, id, s');
    }
    forall other | other != id
      ensures ClientStands(s', other)
    {
      if Gives(s.clients[id].call) {
        GiveDisturbs(s, id, s', other);
      } else {
        LoopDisturbs(s, id, s', other);
      }
      UndisturbedStands(s, s', other);
    }
  }

  lemma CallsInvConnector(cfg: Config, s: State, env: Env, s': State)
    requires CallsInv(s) && ConnectorStep(cfg, s, env) == Some(s')
    ensures CallsInv(s')
  {
    ConnectorExtends(cfg, s, env, s');
    forall id
      ensures ClientStands(s', id)
    {
      UndisturbedStands(s, s', id);
    }
  }

  lemma CallsInvBegin(cfg: Config, s: State, e: Event, s': State)
    requires CallsInv(s) && (e.Join? || e.Begin?) && Next(cfg, s, e) == Some(s')
    ensures CallsInv(s')
  {
    assert ClientStands(s, e.id);
    if e.Join? {
      StrangersAreSilent(s.log, e.id);
    }
    forall other | other != e.id
      ensures ClientStands(s', other)
    {
      UndisturbedStands(s, s', other);
    }
  }

  lemma CallsInvNext(cfg: Config, s: State, e: Event, s': State)
    requires CallsInv(s) && Follows(cfg, s, e, s')
    ensures CallsInv(s')
  {
    assert Look(true);
    match e
    case Go(env) => CallsInvConnector(cfg, s, env, s');
    case Step(id) => CallsInvClient(s, id, s');
    case _ => CallsInvBegin(cfg, s, e, s');
  }

  lemma CallsAtFirst(interactive: bool, s: State)
    requires s == Init(interactive)
    ensures CallsInv(s)
  {
  }

  lemma {:induction false} RunCalls(cfg: Config, interactive: bool, run: seq<Event>, k: nat, s: State)
    requires Arrives(cfg, interactive, run, k, s)
    ensures CallsInv(s)
    decreases k
  {
    if k == 0 {
      FirstState(cfg, interactive, run, s);
      CallsAtFirst(interactive, s);
    } else {
      var t := LastEvent(cfg, interactive, run, k, s);
      RunCalls(cfg, interactive, run, k - 1, t);
      CallsInvNext(cfg, t, run[k - 1], s);
    }
  }

  // ---------- calls and events ----------

  /** Connect is called by `id`. */
  predicate IsCall(e: Event, id: Id) {
    (e.Join? || e.Begin?) && e.id == id
  }

  /** Event `b` is the latest call of `id` among the first `k` events. */
  predicate LatestCall(run: seq<Event>, b: nat, k: nat, id: Id) {
    b < k <= |run| && IsCall(run[b], id) && forall j :: b < j < k ==> !IsCall(run[j], id)
  }

  lemma StepCallsNobody(s: State, id: Id, s': State)
    requires CallsInv(s) && id in s.clients && ClientStep(s, id) == Some(s')
    ensures Fits(s.log, s'.log, id) && (s'.log == s.log || !s'.log.last.Called?)
  {
    assert ClientStands(s, id);
    if Gives(s.clients[id].call) {
      GiveStands(s, id, s');
    } else {
      LoopStands(s, id, s');
    }
  }

  /** Only a call logs a call, with its own request. */
  lemma EventCalls(cfg: Config, s: State, e: Event, s': State, id: Id)
    requires CallsInv(s) && Follows(cfg, s, e, s')
    ensures IsCall(e, id) ==> s'.log == Then(s.log, Called(id, e.request))
    ensures !IsCall(e, id) && CallOf(s'.log, id).OpenCall? ==>
              CallOf(s.log, id).OpenCall? && CallOf(s.log, id).request == CallOf(s'.log, id).request
  {
    assert Look(true);
    match e
    case Go(env) => ConnectorExtends(cfg, s, env, s');
    case Step(other) => StepCallsNobody(s, other, s');
    case _ =>
  }

  /** The latest event among the first `k` with which `id` calls has this request. */
  ghost predicate MadeBy(run: seq<Event>, k: nat, id: Id, request: Request) {
    exists b: nat :: LatestCall(run, b, k, id) && run[b].request == request
  }

  /** A call under way, as the log has it, was made by the latest event with which its client calls. */
  ghost predicate TracedTo(run: seq<Event>, k: nat, log: Log, id: Id) {
    CallOf(log, id).OpenCall? ==> MadeBy(run, k, id, CallOf(log, id).request)
  }

  ghost predicate Traced(run: seq<Event>, k: nat, log: Log) {
    forall id :: TracedTo(run, k, log, id)
  }

  lemma TracedNext(cfg: Config, s: State, s': State, run: seq<Event>, m: nat, k: nat)
    requires CallsInv(s) && k == m + 1 <= |run| && Follows(cfg, s, run[m], s') && Traced(run, m, s.log)
    ensures Traced(run, k, s'.log)
  {
    forall id
      ensures TracedTo(run, k, s'.log, id)
    {
      assert TracedTo(run, m, s.log, id);
      EventCalls(cfg, s, run[m], s', id);
      if IsCall(run[m], id) {
        assert LatestCall(run, m, k, id);
      } else if CallOf(s'.log, id).OpenCall? {
        LaterCall(run, m, k, id, CallOf(s.log, id).request);
      }
    }
  }

  lemma LaterCall(run: seq<Event>, m: nat, k: nat, id: Id, request: Request)
    requires k == m + 1 <= |run| && MadeBy(run, m, id, request) && !IsCall(run[m], id)
    ensures MadeBy(run, k, id, request)
  {
    var b: nat :| LatestCall(run, b, m, id) && run[b].request == request;
    assert LatestCall(run, b, k, id);
  }

  lemma TracedAtFirst(run: seq<Event>, k: nat, log: Log)
    requires log.Empty?
    ensures Traced(run, k, log)
  {
  }

  lemma {:induction false} RunTraced(cfg: Config, interactive: bool, run: seq<Event>, k: nat, s: State)
    requires Arrives(cfg, interactive, run, k, s)
    ensures Traced(run, k, s.log)
    decreases k
  {
    if k == 0 {
      FirstState(cfg, interactive, run, s);
      TracedAtFirst(run, k, s.log);
    } else {
      var t := LastEvent(cfg, interactive, run, k, s);
      RunTraced(cfg, interactive, run, k - 1, t);
      RunCalls(cfg, interactive, run, k - 1, t);
      TracedNext(cfg, t, s, run, k - 1, k);
    }
  }

  /** Whatever a step of a client hands over as an answer or as a passphrase is what this client itself passed to the
      call it has under way. */
  lemma AnswersAreOwn(cfg: Config, interactive: bool, run: seq<Event>, s: State, id: Id, s': State)
    requires Reaches(cfg, interactive, run, s) && Next(cfg, s, Step(id)) == Some(s') && s'.log != s.log
    ensures s'.log.Then? && s'.log.prev == s.log
    ensures
      match s'.log.last
      case Answered(other, accept) =>
        other == id && exists request :: MadeBy(run, |run|, id, request) && request.accept == Some(accept)
      case PassphraseGiven(other, secret) =>
        other == id && secret != "" && exists request :: MadeBy(run, |run|, id, request) && request.secret == secret
      case Returned(other, _, _, _) => other == id && exists request :: MadeBy(run, |run|, id, request)
      case Errored(other) => other == id && exists request :: MadeBy(run, |run|, id, request) && request.accept.Some?
      case _ => false
  {
    RunCalls(cfg, interactive, run, |run|, s);
    StepCallsNobody(s, id, s');
    RunTraced(cfg, interactive, run, |run|, s);
    assert TracedTo(run, |run|, s.log, id);
  }

  /** The calls that the log has, and those among the first `k` events. */
  function Calls(log: Log): seq<(Id, Request)> {
    if log.Empty? then []
    else Calls(log.prev) + (if log.last.Called? then [(log.last.id, log.last.request)] else [])
  }

  function CallsIn(run: seq<Event>, k: nat): seq<(Id, Request)>
    requires k <= |run|
  {
    if k == 0 then []
    else
      CallsIn(run, k - 1) +
      (if run[k - 1].Join? || run[k - 1].Begin? then [(run[k - 1].id, run[k - 1].request)] else [])
  }

  predicate CallsMatch(run: seq<Event>, k: nat, log: Log) {
    k <= |run| && Calls(log) == CallsIn(run, k)
  }

  lemma CallsNext(cfg: Config, s: State, s': State, run: seq<Event>, m: nat, k: nat)
    requires CallsInv(s) && k == m + 1 <= |run| && Follows(cfg, s, run[m], s') && CallsMatch(run, m, s.log)
    ensures CallsMatch(run, k, s'.log)
  {
    assert Look(true);
    assert Calls(s.log) + [] == Calls(s.log);
    match run[m]
    case Go(env) => ConnectorExtends(cfg, s, env, s');
    case Step(id) => StepCallsNobody(s, id, s');
    case _ =>
  }

  /** The calls that the log has are those of the run, in the same order. */
  lemma {:induction false} CallsAreEvents(cfg: Config, interactive: bool, run: seq<Event>, k: nat, s: State)
    requires Arrives(cfg, interactive, run, k, s)
    ensures CallsMatch(run, k, s.log)
    decreases k
  {
    if k == 0 {
      FirstState(cfg, interactive, run, s);
    } else {
      var t := LastEvent(cfg, interactive, run, k, s);
      CallsAreEvents(cfg, interactive, run, k - 1, t);
      RunCalls(cfg, interactive, run, k - 1, t);
      CallsNext(cfg, t, s, run, k - 1, k);
    }
  }

  // ---------- what a call brings back ----------

  /** The latest call of this client has returned, and not with an error. */
  predicate HasReturned(log: Log, id: Id) {
    log.Then? &&
    match log.last
    case Returned(other, _, _, _) => other == id || HasReturned(log.prev, id)
    case Called(other, _) => other != id && HasReturned(log.prev, id)
    case Errored(other) => other != id && HasReturned(log.prev, id)
    case _ => HasReturned(log.prev, id)
  }

  /** Past the last message it found. */
  predicate Past(call: Call) {
    !call.Idle? && !Gives(call) && !call.ReadCount? && !call.ReadMessage?
  }

  /** The first `n` messages are read by the time the call looks at the status, and when it has returned. */
  predicate CaughtUp(s: State, id: Id, n: nat) {
    && id in s.clients && n <= |s.messages|
    && (Past(s.clients[id].call) || HasReturned(s.log, id) ==> n <= s.clients[id].count)
  }

  lemma CaughtUpUndisturbed(s: State, s': State, id: Id, n: nat)
    requires CaughtUp(s, id, n) && Undisturbed(s, s', id) && |s.messages| <= |s'.messages|
    ensures CaughtUp(s', id, n)
  {
  }

  lemma CaughtUpGives(s: State, id: Id, s': State, n: nat)
    requires CaughtUp(s, id, n) && Gives(s.clients[id].call) && GiveStep(s, id) == Some(s')
    ensures CaughtUp(s', id, n)
  {
  }

  lemma CaughtUpLoops(s: State, id: Id, s': State, n: nat)
    requires CaughtUp(s, id, n) && !Gives(s.clients[id].call) && ClientStep(s, id) == Some(s')
    ensures CaughtUp(s', id, n)
  {
  }

  lemma CaughtUpStep(s: State, other: Id, s': State, id: Id, n: nat)
    requires CallsInv(s) && CaughtUp(s, id, n) && other in s.clients && ClientStep(s, other) == Some(s')
    ensures CaughtUp(s', id, n)
  {
    StepCallsNobody(s, other, s');
    if other == id && Gives(s.clients[id].call) {
      CaughtUpGives(s, id, s', n);
    } else if other == id {
      CaughtUpLoops(s, id, s', n);
    } else if Gives(s.clients[other].call) {
      GiveDisturbs(s, other, s', id);
      GivingKeeps(s, other, s');
      CaughtUpUndisturbed(s, s', id, n);
    } else {
      LoopDisturbs(s, other, s', id);
      LoopIsOwn(s, other, s');
      CaughtUpUndisturbed(s, s', id, n);
    }
  }

  lemma CaughtUpNext(cfg: Config, s: State, e: Event, s': State, id: Id, n: nat)
    requires CallsInv(s) && CaughtUp(s, id, n) && Follows(cfg, s, e, s') && !IsCall(e, id)
    ensures CaughtUp(s', id, n)
  {
    assert Look(true);
    match e
    case Go(env) =>
      ConnectorExtends(cfg, s, env, s');
      CaughtUpUndisturbed(s, s', id, n);
    case Step(other) => CaughtUpStep(s, other, s', id, n);
    case _ => CaughtUpUndisturbed(s, s', id, n);
  }

  ghost predicate KeptUp(s0: State, s: State, id: Id) {
    forall z {:trigger Look(z)} :: Look(z) ==> s0.messages <= s.messages && CaughtUp(s, id, |s0.messages|)
  }

  lemma KeptUpNext(cfg: Config, s0: State, s: State, e: Event, s': State, id: Id)
    requires CallsInv(s) && KeptUp(s0, s, id) && Follows(cfg, s, e, s') && !IsCall(e, id)
    ensures KeptUp(s0, s', id)
  {
    assert Look(true);
    MessagesGrow(cfg, s, e, s');
    CaughtUpNext(cfg, s, e, s', id, |s0.messages|);
  }

  lemma EarlierCall(run: seq<Event>, b: nat, m: nat, k: nat, id: Id)
    requires LatestCall(run, b, k, id) && k == m + 1
    ensures if b < m then LatestCall(run, b, m, id) && !IsCall(run[m], id) else b == m && IsCall(run[m], id)
  {
  }

  lemma {:induction false} KeptUpSince(
      cfg: Config, interactive: bool, run: seq<Event>, b: nat, s0: State, k: nat, s: State, id: Id)
    requires LatestCall(run, b, k, id)
    requires Arrives(cfg, interactive, run, b, s0) && Arrives(cfg, interactive, run, k, s)
    ensures KeptUp(s0, s, id)
    decreases k
  {
    EarlierCall(run, b, k - 1, k, id);
    if b < k - 1 {
      var t := LastEvent(cfg, interactive, run, k, s);
      RunCalls(cfg, interactive, run, k - 1, t);
      KeptUpSince(cfg, interactive, run, b, s0, k - 1, t, id);
      KeptUpNext(cfg, s0, t, run[k - 1], s, id);
    } else {
      NextEvent(cfg, interactive, run, b, s0, k, s);
      KeptUpFirst(cfg, s0, run[b], s, id);
    }
  }

  lemma NextEvent(cfg: Config, interactive: bool, run: seq<Event>, m: nat, s: State, k: nat, s': State)
    requires Arrives(cfg, interactive, run, m, s) && Arrives(cfg, interactive, run, k, s') && k == m + 1
    ensures Follows(cfg, s, run[m], s')
  {
    assert Look(true);
  }

  lemma KeptUpFirst(cfg: Config, s: State, e: Event, s': State, id: Id)
    requires Follows(cfg, s, e, s') && IsCall(e, id)
    ensures KeptUp(s, s', id)
  {
    assert Look(true);
  }

  lemma MessagesGrow(cfg: Config, s: State, e: Event, s': State)
    requires Follows(cfg, s, e, s')
    ensures s.messages <= s'.messages
  {
    assert Look(true);
    match e
    case Go(env) => ConnectorExtends(cfg, s, env, s');
    case Step(id) =>
      if Gives(s.clients[id].call) {
        GivingKeeps(s, id, s');
      } else {
        LoopIsOwn(s, id, s');
      }
    case _ =>
  }

  lemma {:induction false} ReturnedIsIdle(log: Log, id: Id)
    requires HasReturned(log, id)
    ensures CallOf(log, id) == NoCall
  {
    if !log.last.Returned? || log.last.id != id {
      ReturnedIsIdle(log.prev, id);
    }
  }

  lemma PrefixRead(s: State, id: Id, messages: seq<Message>)
    requires CallsInv(s) && MessagesInv(s) && CaughtUp(s, id, |messages|) && HasReturned(s.log, id)
    requires messages <= s.messages
    ensures messages <= Delivered(s.log, id) <= s.messages
  {
    ReturnedIsIdle(s.log, id);
    assert ClientStands(s, id) && ClientInv(s.clients[id], s.messages, Delivered(s.log, id));
    assert Delivered(s.log, id) == s.messages[..s.clients[id].count];
  }

  /** A call that has returned brought its client everything that the connector had said when the call was made, and
      the client's calls together brought that and nothing but what follows it, without a gap. */
  lemma ReturnCatchesUp(cfg: Config, interactive: bool, run: seq<Event>, b: nat, s0: State, s: State, id: Id)
    requires LatestCall(run, b, |run|, id) && Run(cfg, interactive, run, b) == Some(s0)
    requires Reaches(cfg, interactive, run, s) && HasReturned(s.log, id)
    ensures s0.messages <= Delivered(s.log, id) <= s.messages
  {
    RunInv(cfg, interactive, run, |run|, s);
    RunCalls(cfg, interactive, run, |run|, s);
    KeptUpSince(cfg, interactive, run, b, s0, |run|, s, id);
    assert Look(true);
    PrefixRead(s, id, s0.messages);
  }

  /** A call looks at the status only when it has read all there is to read. */
  lemma StatusAfterMessages(cfg: Config, interactive: bool, run: seq<Event>, s: State, id: Id, s': State)
    requires Reaches(cfg, interactive, run, s) && Next(cfg, s, Step(id)) == Some(s')
    requires id in s'.clients && s'.clients[id].call.ReadStatus?
    ensures s'.clients[id].count == |s.messages| == |s'.messages|
  {
    RunInv(cfg, interactive, run, |run|, s);
    assert ClientInv(s.clients[id], s.messages, Delivered(s.log, id));
    StatusAfterCount(s, id, s');
  }

  lemma StatusAfterCount(s: State, id: Id, s': State)
    requires id in s.clients && ClientStep(s, id) == Some(s') && id in s'.clients
    requires s'.clients[id].call.ReadStatus? && s.clients[id].count <= |s.messages|
    ensures s'.clients[id].count == |s.messages| == |s'.messages|
  {
  }

  // ---------- a call left alone ----------

  /** `n` steps of one client with nothing in between. */
  function OwnSteps(cfg: Config, s: State, id: Id, n: nat): Option<State>
    decreases n
  {
    if n == 0 then Some(s)
    else
      match Next(cfg, s, Step(id))
      case None => None
      case Some(t) => OwnSteps(cfg, t, id, n - 1)
  }

  function Asked(s: State): Option<Fingerprint> {
    if s.status.UnknownHostKey? && s.pending.Some? then Some(Sha256(s.pending.value.key)) else None
  }

  lemma OneMore(cfg: Config, s: State, id: Id, t: State, n: nat, s': State)
    requires Next(cfg, s, Step(id)) == Some(t) && OwnSteps(cfg, t, id, n) == Some(s')
    ensures OwnSteps(cfg, s, id, n + 1) == Some(s')
  {
  }

  /** From the last read of the status on. */
  lemma Ending(cfg: Config, s: State, id: Id) returns (n: nat, s': State)
    requires id in s.clients && s.clients[id].call.FinalStatus?
    ensures OwnSteps(cfg, s, id, n) == Some(s')
    ensures s'.log == Then(s.log, Returned(id, s.clients[id].out, s.status, Asked(s)))
    ensures id in s'.clients && s'.clients[id] == Client(s.clients[id].count, Idle, [])
  {
    if s.status.UnknownHostKey? {
      var t := At(s, id, FinalFingerprint(s.status));
      s' := Return(t, id, s.status, Asked(s));
      OneMore(cfg, t, id, s', 0, s');
      OneMore(cfg, s, id, t, 1, s');
      n := 2;
    } else {
      s' := Return(s, id, s.status, None);
      OneMore(cfg, s, id, s', 0, s');
      n := 1;
    }
  }

  /** Reads of the count and of the status. */
  predicate Compares(call: Call) {
    call.ReadCount? || call.ReadStatus? || call.ReadDone? || call.ReadDone2? || call.WaitDone? || call.WaitDone2?
  }

  lemma Moves(cfg: Config, s: State, id: Id, call: Call, n: nat, s': State)
    requires id in s.clients && NextCall(s, s.clients[id]) == call
    requires Compares(s.clients[id].call)
    requires OwnSteps(cfg, At(s, id, call), id, n) == Some(s')
    ensures OwnSteps(cfg, s, id, n + 1) == Some(s')
  {
    OneMore(cfg, s, id, At(s, id, call), n, s');
  }

  lemma Comparing(cfg: Config, s: State, id: Id) returns (n: nat, s': State)
    requires id in s.clients && s.clients[id].call == ReadDone2(s.status) && Settled(s.status) && !s.status.Succeeded?
    ensures OwnSteps(cfg, s, id, n) == Some(s')
    ensures s'.log == Then(s.log, Returned(id, s.clients[id].out, s.status, Asked(s)))
    ensures id in s'.clients && s'.clients[id] == Client(s.clients[id].count, Idle, [])
  {
    n, s' := Ending(cfg, At(s, id, FinalStatus), id);
    Moves(cfg, s, id, FinalStatus, n, s');
    n := n + 1;
  }

  /** From the first read of the status on. */
  lemma Looking(cfg: Config, s: State, id: Id) returns (n: nat, s': State)
    requires id in s.clients && s.clients[id].call.ReadStatus? && Settled(s.status)
    ensures OwnSteps(cfg, s, id, n) == Some(s')
    ensures s'.log == Then(s.log, Returned(id, s.clients[id].out, s.status, Asked(s)))
    ensures id in s'.clients && s'.clients[id] == Client(s.clients[id].count, Idle, [])
  {
    var t := At(s, id, ReadDone(s.status));
    if s.status.Succeeded? {
      n, s' := Ending(cfg, At(t, id, FinalStatus), id);
      Moves(cfg, t, id, FinalStatus, n, s');
      n := n + 1;
    } else {
      n, s' := Comparing(cfg, At(t, id, ReadDone2(s.status)), id);
      Moves(cfg, t, id, ReadDone2(s.status), n, s');
      n := n + 1;
    }
    Moves(cfg, s, id, ReadDone(s.status), n, s');
    n := n + 1;
  }

  lemma {:induction false} ReadsOn(cfg: Config, s: State, id: Id) returns (n: nat, s': State)
    requires id in s.clients && s.clients[id].call.ReadCount? && s.clients[id].count <= |s.messages|
    requires Settled(s.status)
    ensures OwnSteps(cfg, s, id, n) == Some(s')
    ensures
      var c := s.clients[id];
      s'.log == Then(s.log, Returned(id, c.out + s.messages[c.count..], s.status, Asked(s)))
    ensures id in s'.clients && s'.clients[id] == Client(|s.messages|, Idle, [])
    decreases |s.messages| - s.clients[id].count
  {
    var c := s.clients[id];
    if c.count < |s.messages| {
      var t := At(s, id, ReadMessage);
      var u := s.(clients := s.clients[id := Client(c.count + 1, ReadCount, c.out + [s.messages[c.count]])]);
      n, s' := ReadsOn(cfg, u, id);
      assert ClientStep(t, id) == Some(u) by { ReadsNext(s, id); }
      OneMore(cfg, t, id, u, n, s');
      OneMore(cfg, s, id, t, n + 1, s');
      n := n + 2;
      assert (c.out + [s.messages[c.count]]) + s.messages[c.count + 1..] == c.out + s.messages[c.count..];
    } else {
      var t := At(s, id, ReadStatus);
      n, s' := Looking(cfg, t, id);
      Moves(cfg, s, id, ReadStatus, n, s');
      n := n + 1;
      assert c.out + s.messages[c.count..] == c.out;
    }
  }

  lemma ReadsNext(s: State, id: Id)
    requires id in s.clients && s.clients[id].count < |s.messages|
    ensures
      var c := s.clients[id];
      ClientStep(At(s, id, ReadMessage), id) ==
      Some(s.(clients := s.clients[id := Client(c.count + 1, ReadCount, c.out + [s.messages[c.count]])]))
  {
    var t := At(s, id, ReadMessage);
    var c := Client(s.clients[id].count + 1, ReadCount, s.clients[id].out + [s.messages[s.clients[id].count]]);
    assert t.clients[id := c] == s.clients[id := c];
  }

  /** In a state on which Connect returns, a call that is left alone at the top of its loop, or before waiting for a
      connector that has ended, returns this status, its fingerprint if there is one, and every message that was not
      yet read. */
  lemma LeftAlone(cfg: Config, s: State, id: Id) returns (n: nat, s': State)
    requires id in s.clients && s.clients[id].count <= |s.messages| && Settled(s.status)
    requires s.clients[id].call.ReadCount? || (s.clients[id].call.WaitDone? && Done(s.status))
    ensures OwnSteps(cfg, s, id, n) == Some(s')
    ensures
      var c := s.clients[id];
      s'.log == Then(s.log, Returned(id, c.out + s.messages[c.count..], s.status, Asked(s)))
    ensures id in s'.clients && s'.clients[id] == Client(|s.messages|, Idle, [])
  {
    if s.clients[id].call.ReadCount? {
      n, s' := ReadsOn(cfg, s, id);
    } else {
      n, s' := ReadsOn(cfg, At(s, id, ReadCount), id);
      if s.status.Failed? {
        var t := At(s, id, WaitDone2);
        assert At(t, id, ReadCount) == At(s, id, ReadCount);
        Moves(cfg, t, id, ReadCount, n, s');
        Moves(cfg, s, id, WaitDone2, n + 1, s');
        n := n + 2;
      } else {
        Moves(cfg, s, id, ReadCount, n, s');
        n := n + 1;
      }
    }
  }
}
