/** What holds in every run of the connector, whatever the network, the library and the clients do. */
module SshSafety {
  import opened Wrappers
  import opened SshConnector
  import opened SshLog
  import opened SshInvariants
  import opened SshCalls
  import opened SshCourse

  // ---------- host keys ----------

  /** A client hands over the decision that it passed to the call it has under way. */
  predicate Decides(log: Log, r: Record, accept: bool) {
    && r.Answered? && r.accept == accept
    && CallOf(log, r.id).OpenCall? && CallOf(log, r.id).request.accept == Some(accept)
  }

  /** Since the last key was shown, in the same handshake, a client decided with `accept` on a prompt for `offer`, while
      this prompt was open. */
  predicate AnsweredSince(log: Log, offer: Offer, accept: bool) {
    && log.Then? && !log.last.HandshakeStarted? && !log.last.KeyShown?
    && ((PromptOf(log.prev) == Open(offer) && Decides(log.prev, log.last, accept))
        || AnsweredSince(log.prev, offer, accept))
  }

  /** What a prompt has behind it: its key was shown last, and a decision was given to this very prompt. */
  predicate Grounded(log: Log) {
    match PromptOf(log)
    case Open(offer) => LastShown(log) == Some(offer)
    case Decided(offer, accept) => LastShown(log) == Some(offer) && AnsweredSince(log, offer, accept)
    case Granted(offer) => LastShown(log) == Some(offer) && AnsweredSince(log, offer, true)
    case _ => true
  }

  lemma {:induction false} PromptGrounded(log: Log)
    requires ProperCalls(log)
    ensures Grounded(log)
  {
    if log.Then? {
      PromptGrounded(log.prev);
    }
  }

  /** Why a key shown for the address `i` may be trusted: known_hosts has it, or has nothing for the host, and the user
      said yes to the prompt for this showing of it. `end` reaches up to the next showing. */
  predicate Justified(cfg: Config, end: Log, i: nat, offer: Offer) {
    && i < |cfg.addresses| && offer.host == cfg.addresses[i]
    && (KnownKey(cfg, offer) || (UnknownHost(cfg, offer) && AnsweredSince(end, offer, true)))
  }

  /** Every key shown since the handshake with address `i` began is justified, each by what happened between its own
      showing and the next one. */
  predicate Vouched(cfg: Config, end: Log, log: Log, i: nat)
    decreases log
  {
    log.Then? &&
    match log.last
    case HandshakeStarted(j) => j == i
    case KeyShown(j, offer) => j == i && Justified(cfg, end, i, offer) && Vouched(cfg, log.prev, log.prev, i)
    case _ => Vouched(cfg, end, log.prev, i)
  }

  /** A connection is stored only out of a handshake that showed a key, and only if every key it showed is justified
      within that handshake. */
  predicate EveryConnectionJustified(cfg: Config, log: Log) {
    log.Empty? ||
    (EveryConnectionJustified(cfg, log.prev) &&
     (log.last.Connected? ==> LastShown(log.prev).Some? && Vouched(cfg, log.prev, log.prev, log.last.i)))
  }

  /** What the basis noted for the last key means. */
  predicate BasisHolds(cfg: Config, end: Log, i: nat, k: (Offer, Basis)) {
    match k.1
    case InKnownHosts => Justified(cfg, end, i, k.0)
    case AcceptedByUser => Justified(cfg, end, i, k.0)
    case Undecided => i < |cfg.addresses| && k.0.host == cfg.addresses[i] && UnknownHost(cfg, k.0)
    case Distrusted => true
  }

  lemma {:induction false} BasisOfLast(cfg: Config, log: Log)
    requires PromptOf(log) != Broken && ProperCalls(log)
    ensures
      var a := Track(cfg, log);
      a.Attempt? && a.keys != [] ==>
        var last := a.keys[|a.keys| - 1];
        LastShown(log) == Some(last.0) && BasisHolds(cfg, log, a.i, last)
  {
    if log.Then? {
      BasisOfLast(cfg, log.prev);
      PromptGrounded(log.prev);
    }
  }

  /** A handshake is vouched for if all keys before the last one are trusted and the last one is justified. */
  predicate VouchedIf(cfg: Config, end: Log, log: Log, a: Attempt) {
    a.Attempt? &&
    if a.keys == [] then Vouched(cfg, end, log, a.i)
    else
      var front, last := a.keys[..|a.keys| - 1], a.keys[|a.keys| - 1];
      Trusted(front) && !last.1.Distrusted? && Justified(cfg, end, a.i, last.0) ==> Vouched(cfg, end, log, a.i)
  }

  lemma {:induction false} VouchedByTrack(cfg: Config, end: Log, log: Log)
    requires PromptOf(log) != Broken && ProperCalls(log) && Track(cfg, log).Attempt?
    ensures VouchedIf(cfg, end, log, Track(cfg, log))
    decreases log, 0
  {
    if !log.last.HandshakeStarted? {
      if log.last.KeyShown? {
        VouchedShown(cfg, log.prev);
        var a := Track(cfg, log.prev);
        assert Track(cfg, log).keys[..|a.keys|] == a.keys;
      } else {
        VouchedByTrack(cfg, end, log.prev);
        VouchedOn(cfg, end, log);
      }
    }
  }

  lemma VouchedOn(cfg: Config, end: Log, log: Log)
    requires log.Then? && !log.last.HandshakeStarted? && !log.last.KeyShown?
    requires VouchedIf(cfg, end, log.prev, Track(cfg, log.prev))
    ensures VouchedIf(cfg, end, log, Track(cfg, log))
  {
    if log.last.Received? {
      FrontKept(cfg, log.prev, log.last);
    }
  }

  lemma FrontKept(cfg: Config, log: Log, r: Record)
    requires r.Received? && Track(cfg, log).Attempt?
    ensures
      var a, a' := Track(cfg, log), Tracked(cfg, Track(cfg, log), r);
      a' == a ||
      (a.keys != [] && |a'.keys| == |a.keys| && a.keys[|a.keys| - 1] == (r.offer, Undecided) && a'.i == a.i
       && a'.keys[..|a.keys| - 1] == a.keys[..|a.keys| - 1] && a'.keys[|a.keys| - 1].0 == r.offer)
  {
  }

  lemma VouchedShown(cfg: Config, log: Log)
    requires PromptOf(log) != Broken && ProperCalls(log) && Track(cfg, log).Attempt?
    ensures Trusted(Track(cfg, log).keys) ==> Vouched(cfg, log, log, Track(cfg, log).i)
    decreases log, 1
  {
    BasisOfLast(cfg, log);
    VouchedByTrack(cfg, log, log);
  }

  lemma {:induction false} SoundIsJustified(cfg: Config, log: Log)
    requires PromptOf(log) != Broken && ProperCalls(log) && OnlySoundConnections(cfg, log)
    ensures EveryConnectionJustified(cfg, log)
  {
    if log.Then? {
      SoundIsJustified(cfg, log.prev);
      if log.last.Connected? {
        VouchedShown(cfg, log.prev);
        BasisOfLast(cfg, log.prev);
      }
    }
  }

  /** The connector succeeds only on keys that known_hosts or the user vouches for, the user in this very handshake and
      by the request of a call that is in the run. */
  lemma SuccessIsJustified(cfg: Config, interactive: bool, run: seq<Event>, s: State)
    requires Reaches(cfg, interactive, run, s)
    ensures EveryConnectionJustified(cfg, s.log) && Calls(s.log) == CallsIn(run, |run|)
    ensures s.status == Succeeded ==> EverConnected(s.log)
  {
    RunInv(cfg, interactive, run, |run|, s);
    RunCalls(cfg, interactive, run, |run|, s);
    CallsAreEvents(cfg, interactive, run, |run|, s);
    SoundIsJustified(cfg, s.log);
  }

  /** `log'` continues `log`, and no handshake began in between. */
  predicate SameHandshake(log: Log, log': Log) {
    log == log' || (log'.Then? && !log'.last.HandshakeStarted? && SameHandshake(log, log'.prev))
  }

  lemma {:induction false} VouchedExcludes(cfg: Config, end: Log, log: Log, i: nat, shown: Log)
    requires Vouched(cfg, end, log, i) && SameHandshake(shown, log) && shown.Then? && shown.last.KeyShown?
    ensures KnownKey(cfg, shown.last.offer) || UnknownHost(cfg, shown.last.offer)
    decreases log
  {
    if shown != log {
      VouchedExcludes(cfg, if log.last.KeyShown? then log.prev else end, log.prev, i, shown);
    }
  }

  /** A handshake in which a revoked key was shown, or another key than those that known_hosts has for the host, never
      ends in a connection. */
  lemma MismatchNeverConnects(cfg: Config, interactive: bool, run: seq<Event>, s: State, shown: Log)
    requires Reaches(cfg, interactive, run, s) && s.log.Then? && s.log.last.Connected?
    requires SameHandshake(shown, s.log) && shown.Then? && shown.last.KeyShown?
    ensures shown.last.offer.key !in cfg.revoked
    ensures
      var offer := shown.last.offer;
      offer.host in cfg.known && cfg.known[offer.host] != {} ==> offer.key in cfg.known[offer.host]
  {
    SuccessIsJustified(cfg, interactive, run, s);
    VouchedExcludes(cfg, s.log.prev, s.log.prev, s.log.last.i, shown);
  }

  /** While the library is in no callback, it may end the handshake with success if and only if a key was shown and
      every key shown is trusted, and it may show another key if and only if none was distrusted. */
  lemma HandshakeEndsExactly(cfg: Config, interactive: bool, run: seq<Event>, s: State, i: nat, key: Key)
    requires Reaches(cfg, interactive, run, s) && s.pc == InHandshake(i)
    ensures Next(cfg, s, Go(Outcome(true))).Some? <==> Sound(Track(cfg, s.log), i)
    ensures Track(cfg, s.log).Attempt? && (Next(cfg, s, Go(AskHostKey(key))).Some? <==> Trusted(Track(cfg, s.log).keys))
  {
    RunInv(cfg, interactive, run, |run|, s);
    RunCourse(cfg, interactive, run, |run|, s);
    assert Verified(Track(cfg, s.log), i, s.hostKey);
  }

  /** Every key shown since the handshake with address `i` began is in known_hosts for that host. */
  predicate AllKnown(cfg: Config, log: Log, i: nat) {
    log.Then? &&
    match log.last
    case HandshakeStarted(j) => j == i
    case KeyShown(j, offer) =>
      && j == i < |cfg.addresses| && offer.host == cfg.addresses[i] && KnownKey(cfg, offer)
      && AllKnown(cfg, log.prev, i)
    case _ => AllKnown(cfg, log.prev, i)
  }

  predicate OnlyKnownKeys(cfg: Config, log: Log) {
    log.Empty? ||
    (OnlyKnownKeys(cfg, log.prev) &&
     (log.last.Connected? ==> LastShown(log.prev).Some? && AllKnown(cfg, log.prev, log.last.i)))
  }

  lemma {:induction false} QuietUnanswered(log: Log)
    requires Quiet(log)
    ensures PromptOf(log) == Closed || PromptOf(log) == Broken
    ensures forall offer, accept :: !AnsweredSince(log, offer, accept)
  {
    if log.Then? {
      QuietUnanswered(log.prev);
    }
  }

  lemma {:induction false} QuietVouched(cfg: Config, end: Log, log: Log, i: nat)
    requires Quiet(end) && Quiet(log) && Vouched(cfg, end, log, i)
    ensures AllKnown(cfg, log, i)
    decreases log
  {
    if log.last.KeyShown? {
      QuietUnanswered(end);
      QuietVouched(cfg, log.prev, log.prev, i);
    } else if !log.last.HandshakeStarted? {
      QuietVouched(cfg, end, log.prev, i);
    }
  }

  lemma {:induction false} QuietIsKnown(cfg: Config, log: Log)
    requires Quiet(log) && EveryConnectionJustified(cfg, log)
    ensures OnlyKnownKeys(cfg, log)
  {
    if log.Then? {
      QuietIsKnown(cfg, log.prev);
      if log.last.Connected? {
        QuietVouched(cfg, log.prev, log.prev, log.last.i);
      }
    }
  }

  lemma NoClientJoins(cfg: Config, s: State, e: Event, s': State)
    requires Follows(cfg, s, e, s') && !e.Join? && !s.interactive && s.clients == map[]
    ensures !s'.interactive && s'.clients == map[]
  {
    assert Look(true);
    if e.Go? {
      ConnectorExtends(cfg, s, e.env, s');
    }
  }

  lemma {:induction false} StaysNonInteractive(cfg: Config, run: seq<Event>, k: nat, s: State)
    requires Arrives(cfg, false, run, k, s) && forall e :: e in run ==> !e.Join?
    ensures !s.interactive && s.clients == map[]
    decreases k
  {
    if k == 0 {
      FirstState(cfg, false, run, s);
    } else {
      var t := LastEvent(cfg, false, run, k, s);
      StaysNonInteractive(cfg, run, k - 1, t);
      assert run[k - 1] in run;
      NoClientJoins(cfg, t, run[k - 1], s);
    }
  }

  /** Without a client no prompt is shown, and the connector succeeds only on keys found in known_hosts. */
  lemma NonInteractiveKnownOnly(cfg: Config, run: seq<Event>, s: State)
    requires Reaches(cfg, false, run, s) && forall e :: e in run ==> !e.Join?
    ensures Quiet(s.log) && OnlyKnownKeys(cfg, s.log)
  {
    StaysNonInteractive(cfg, run, |run|, s);
    SuccessIsJustified(cfg, false, run, s);
    RunInv(cfg, false, run, |run|, s);
    QuietIsKnown(cfg, s.log);
  }

  // ---------- prompts and passphrases ----------

  /** Prompts, answers and their effects pair one to one, and an answer can always be delivered. */
  lemma PromptsPair(cfg: Config, interactive: bool, run: seq<Event>, s: State)
    requires Reaches(cfg, interactive, run, s)
    ensures PromptOf(s.log) != Broken
    ensures s.status == UnknownHostKey ==>
      && s.pending.Some? && s.decision == [] && PromptOf(s.log) == Open(s.pending.value)
      && forall id, accept :: AcceptHostKey(s, id, accept).Some?
  {
    RunInv(cfg, interactive, run, |run|, s);
  }

  /** What goes to known_hosts is the host and key that this handshake showed last, after the prompt for this showing
      was answered with yes. */
  lemma PersistedWasAccepted(cfg: Config, interactive: bool, run: seq<Event>, s: State)
    requires Reaches(cfg, interactive, run, s) && s.log.Then? && s.log.last.Persisted?
    ensures LastShown(s.log.prev) == Some(s.log.last.offer)
    ensures AnsweredSince(s.log.prev, s.log.last.offer, true) && Calls(s.log) == CallsIn(run, |run|)
  {
    RunInv(cfg, interactive, run, |run|, s);
    RunCalls(cfg, interactive, run, |run|, s);
    CallsAreEvents(cfg, interactive, run, |run|, s);
    PromptGrounded(s.log.prev);
  }

  /** The SSH library gets the accepted passphrases in order, none twice, none lost but the last one on its way; each
      is what a client passed to the call in which it was accepted. */
  lemma PassphrasesPair(cfg: Config, interactive: bool, run: seq<Event>, s: State)
    requires Reaches(cfg, interactive, run, s)
    ensures Used(s.log) <= Given(s.log) && |Given(s.log)| <= |Used(s.log)| + 1
    ensures s.status == NeedPassphrase ==> Given(s.log) == Used(s.log)
    ensures ProperCalls(s.log) && Calls(s.log) == CallsIn(run, |run|)
  {
    RunInv(cfg, interactive, run, |run|, s);
    RunCalls(cfg, interactive, run, |run|, s);
    CallsAreEvents(cfg, interactive, run, |run|, s);
  }

  /** The first step of a call takes its passphrase exactly if there is one and the connector needs one. */
  lemma PassphraseIsTaken(cfg: Config, s: State, e: Event, t: State, u: State)
    requires (e.Join? || e.Begin?) && Next(cfg, s, e) == Some(t) && Next(cfg, t, Step(e.id)) == Some(u)
    ensures
      if e.request.secret != "" && s.status == NeedPassphrase then
        u.log == Then(t.log, PassphraseGiven(e.id, e.request.secret)) && u.passphrase == e.request.secret
      else u.log == t.log && u.passphrase == s.passphrase && u.status == s.status
  {
  }

  // ---------- messages ----------

  /** Any number of clients of one connector: what a client got in its completed calls is, message by message, what
      the connector said up to the client's cursor; and a message is never read out of range. */
  lemma DeliveredOnce(cfg: Config, interactive: bool, run: seq<Event>, s: State, id: Id)
    requires Reaches(cfg, interactive, run, s) && id in s.clients
    ensures
      var c := s.clients[id];
      && c.count <= |s.messages| && Delivered(s.log, id) + c.out == s.messages[..c.count]
      && (c.call == Idle ==> Delivered(s.log, id) == s.messages[..c.count])
      && (c.call == ReadMessage ==> ClientStep(s, id).Some?)
  {
    RunInv(cfg, interactive, run, |run|, s);
    assert ClientInv(s.clients[id], s.messages, Delivered(s.log, id));
  }

  /** The goroutine is parked in the receive. */
  predicate Parked(s: State, w: Waiter) {
    match w
    case Connector => s.pc.PwBlocked?
    case Caller(id) => id in s.clients && s.clients[id].call.Blocked?
  }

  /** The goroutine's only next step is to park, which is always possible and touches nothing else; it takes no lock. */
  ghost predicate AboutToPark(cfg: Config, s: State, w: Waiter) {
    match w
    case Connector =>
      s.pc.PwRegistered? && forall env :: ConnectorStep(cfg, s, env) == Some(s.(pc := PwBlocked(s.pc.i)))
    case Caller(id) =>
      id in s.clients && s.clients[id].call.Registered? && ClientStep(s, id) == Some(At(s, id, Blocked))
  }

  /** The channels that notifyWaitingLocked sends to under the lock are those of the goroutines that are parked or
      about to park, each once: every send finds its receiver, now or after that one step. */
  lemma NotifyFindsReceivers(cfg: Config, interactive: bool, run: seq<Event>, s: State)
    requires Reaches(cfg, interactive, run, s)
    ensures forall w :: w in s.waiting <==> Parked(s, w) || AboutToPark(cfg, s, w)
    ensures forall j, k :: 0 <= j < k < |s.waiting| ==> s.waiting[j] != s.waiting[k]
  {
    RunInv(cfg, interactive, run, |run|, s);
    forall w
      ensures Listed(s, w) <==> Parked(s, w) || AboutToPark(cfg, s, w)
    {
      ListedIsParking(cfg, s, w);
    }
  }

  lemma ListedIsParking(cfg: Config, s: State, w: Waiter)
    ensures Listed(s, w) <==> Parked(s, w) || AboutToPark(cfg, s, w)
  {
  }

  /** A new message, an answer or a passphrase, its use, and the end of the connector wake everyone: nobody is left on
      the list, and a client that waited is back at the top of its loop. */
  lemma NewsWakes(cfg: Config, s: State, e: Event, s': State)
    requires Next(cfg, s, e) == Some(s')
    requires
      || s'.messages != s.messages || (e.Step? && s'.status != s.status)
      || (e.Go? && (s.pc.PwNotify? || s'.pc.Stopped?))
    ensures s'.waiting == [] && !InWait(s'.pc)
    ensures forall id :: id in s.clients && Waits(s.clients[id].call) ==>
              id in s'.clients && s'.clients[id] == s.clients[id].(call := ReadCount)
  {
    match e
    case Go(env) => ConnectorExtends(cfg, s, env, s');
    case Step(id) =>
      if Gives(s.clients[id].call) {
        GivingWakes(s, id, s');
      } else {
        LoopIsOwn(s, id, s');
        CallTouches(s, id, s');
      }
    case _ =>
  }

  // ---------- who can go on ----------

  /** A choice with which the connector can go on from here. */
  function SomeChoice(pc: Pc): Env {
    if pc.Dialing? || pc.Persisting? || pc.InHandshake? then Outcome(false) else Proceed
  }

  lemma GoesOn(cfg: Config, s: State, env: Env)
    requires !s.pc.Stopped? && !s.pc.PwBlocked? && !(s.pc.AwaitDecision? && s.decision == [])
    requires env == SomeChoice(s.pc)
    ensures Next(cfg, s, Go(env)).Some?
  {
  }

  lemma GoesNot(cfg: Config, s: State, env: Env)
    requires s.pc.Stopped? || s.pc.PwBlocked? || (s.pc.AwaitDecision? && s.decision == [])
    ensures Next(cfg, s, Go(env)).None?
  {
  }

  /** The connector can go on unless it has ended, is parked, or waits for a decision; a dial and an append to
      known_hosts can end either way, and in a handshake a password, a banner and a failure can come at any time. */
  lemma ConnectorGoesOn(cfg: Config, interactive: bool, run: seq<Event>, s: State)
    requires Reaches(cfg, interactive, run, s)
    ensures (exists env :: Next(cfg, s, Go(env)).Some?) <==>
              !s.pc.Stopped? && !s.pc.PwBlocked? && s.status != UnknownHostKey
    ensures s.pc.Dialing? || s.pc.Persisting? ==> forall ok :: Next(cfg, s, Go(Outcome(ok))).Some?
    ensures s.pc.InHandshake? ==>
              && Next(cfg, s, Go(AskPassword)).Some? && Next(cfg, s, Go(Outcome(false))).Some?
              && forall text :: Next(cfg, s, Go(ShowBanner(text))).Some?
  {
    WaitingIsVisible(cfg, interactive, run, s);
    if s.pc.Stopped? || s.pc.PwBlocked? || (s.pc.AwaitDecision? && s.decision == []) {
      forall env
        ensures Next(cfg, s, Go(env)).None?
      {
        GoesNot(cfg, s, env);
      }
    } else {
      GoesOn(cfg, s, SomeChoice(s.pc));
    }
  }

  /** A client can go on unless it has no call under way or is parked: no answer and no message is ever missing. */
  lemma ClientGoesOn(cfg: Config, interactive: bool, run: seq<Event>, s: State, id: Id)
    requires Reaches(cfg, interactive, run, s) && id in s.clients
    ensures Next(cfg, s, Step(id)).Some? <==> CallOf(s.log, id).OpenCall? && !s.clients[id].call.Blocked?
  {
    RunInv(cfg, interactive, run, |run|, s);
    RunCalls(cfg, interactive, run, |run|, s);
    assert ClientStands(s, id) && ClientInv(s.clients[id], s.messages, Delivered(s.log, id));
    if s.status.UnknownHostKey? && s.clients[id].call.GiveDecision? {
      AcceptNeverBlocks(cfg, s, id, s.clients[id].call.decision);
    }
  }

  // ---------- a single client ----------

  /** With one client, Connect returns only when there is something to do or the end is reached, and the
      fingerprint it returns belongs to the prompt that is open. */
  lemma SingleClientReturns(cfg: Config, interactive: bool, run: seq<Event>, s: State, id: Id)
    requires Reaches(cfg, interactive, run, s) && s.clients.Keys <= {id}
    ensures GoodReturns(s.log)
  {
    RunInv(cfg, interactive, run, |run|, s);
    assert SingleInv(s, id);
  }

  /** `log'` continues `log`, and nothing was answered in between. */
  predicate Unanswered(log: Log, log': Log) {
    log == log' || (log'.Then? && !log'.last.Answered? && Unanswered(log, log'.prev))
  }

  lemma {:induction false} OpenUntilAnswered(log: Log, log': Log)
    requires PromptOf(log).Open? && Unanswered(log, log') && PromptOf(log') != Broken
    ensures PromptOf(log') == PromptOf(log)
  {
    if log != log' {
      OpenUntilAnswered(log, log'.prev);
    }
  }

  /** Only this client has called. */
  predicate OneCaller(log: Log, id: Id) {
    log.Empty? || (OneCaller(log.prev, id) && (log.last.Called? ==> log.last.id == id))
  }

  lemma {:induction false} OneHasCalled(log: Log, id: Id)
    requires forall other :: other != id ==> !HasCalled(log, other)
    ensures OneCaller(log, id)
  {
    if log.Then? {
      assert log.last.Called? ==> HasCalled(log, log.last.id);
      forall other | other != id
        ensures !HasCalled(log.prev, other)
      {
        assert !HasCalled(log, other);
      }
      OneHasCalled(log.prev, id);
    }
  }

  lemma {:induction false} OthersAreSilent(log: Log, id: Id, other: Id)
    requires OneCaller(log, id) && other != id
    ensures CallOf(log, other) == NoCall
  {
    if log.Then? {
      OthersAreSilent(log.prev, id, other);
    }
  }

  lemma SingleCaller(cfg: Config, interactive: bool, run: seq<Event>, s: State, id: Id)
    requires Reaches(cfg, interactive, run, s) && s.clients.Keys <= {id}
    ensures ProperCalls(s.log) && OneCaller(s.log, id)
  {
    RunCalls(cfg, interactive, run, |run|, s);
    forall other | other != id
      ensures !HasCalled(s.log, other)
    {
      assert ClientStands(s, other) && other !in s.clients.Keys;
    }
    OneHasCalled(s.log, id);
  }

  /** Between `log` and `log'` this client made a call with that decision. */
  predicate CalledSince(log: Log, log': Log, id: Id, accept: bool) {
    && log != log' && log'.Then?
    && ((log'.last.Called? && log'.last.id == id && log'.last.request.accept == Some(accept))
        || CalledSince(log, log'.prev, id, accept))
  }

  lemma {:induction false} CallIsSince(log: Log, log': Log, id: Id, accept: bool)
    requires Unanswered(log, log') && CallOf(log, id) == NoCall
    requires CallOf(log', id).OpenCall? && CallOf(log', id).request.accept == Some(accept)
    ensures CalledSince(log, log', id, accept)
  {
    if !(log'.last.Called? && log'.last.id == id) {
      CallIsSince(log, log'.prev, id, accept);
    }
  }

  /** An answer after a return was passed to a call after that return. */
  lemma AnswerIsSince(told: Log, log: Log, r: Record, id: Id)
    requires ProperCalls(Then(log, r)) && OneCaller(log, id) && r.Answered?
    requires Unanswered(told, log) && CallOf(told, id) == NoCall
    ensures r.id == id && CalledSince(told, log, id, r.accept)
  {
    if r.id != id {
      OthersAreSilent(log, id, r.id);
    }
    CallIsSince(told, log, id, r.accept);
  }

  /** `log'` continues `log`. */
  predicate Continues(log: Log, log': Log) {
    log == log' || (log'.Then? && Continues(log, log'.prev))
  }

  lemma {:induction false} UnansweredContinues(log: Log, log': Log)
    requires Unanswered(log, log')
    ensures Continues(log, log')
  {
    if log != log' {
      UnansweredContinues(log, log'.prev);
    }
  }

  lemma {:induction false} UnpromptedContinues(log: Log, log': Log)
    requires Unprompted(log, log')
    ensures Continues(log, log')
  {
    if log != log' {
      UnpromptedContinues(log, log'.prev);
    }
  }

  /** What held of all returns holds of those before; and right after its return the client has no call under way. */
  lemma {:induction false} ReturnedBefore(log: Log, log': Log, id: Id)
    requires Continues(log, log') && ProperCalls(log') && OneCaller(log', id) && GoodReturns(log')
    ensures GoodReturns(log)
    ensures log.Then? && log.last.Returned? ==> log.last.id == id && CallOf(log, id) == NoCall
  {
    if log != log' {
      ReturnedBefore(log, log'.prev, id);
    } else if log.Then? && log.last.Returned? && log.last.id != id {
      OthersAreSilent(log.prev, id, log.last.id);
    }
  }

  /** The answer that follows a return with unknown_host_key decides exactly the key whose fingerprint was returned, and
      the client passed it to a call that it made after this return. */
  lemma NextAnswerDecides(cfg: Config, interactive: bool, run: seq<Event>, s: State, id: Id, told: Log)
    requires Reaches(cfg, interactive, run, s) && s.clients.Keys <= {id}
    requires s.log.Then? && s.log.last.Answered? && Unanswered(told, s.log.prev)
    requires told.Then? && told.last.Returned? && told.last.status == UnknownHostKey
    ensures PromptOf(s.log).Decided? && PromptOf(s.log).accept == s.log.last.accept
    ensures told.last.fingerprint == Some(Sha256(PromptOf(s.log).offer.key))
    ensures s.log.last.id == id && CalledSince(told, s.log.prev, id, s.log.last.accept)
    ensures Calls(s.log) == CallsIn(run, |run|)
  {
    SingleClientReturns(cfg, interactive, run, s, id);
    SingleCaller(cfg, interactive, run, s, id);
    CallsAreEvents(cfg, interactive, run, |run|, s);
    PromptsPair(cfg, interactive, run, s);
    UnansweredContinues(told, s.log.prev);
    ReturnedBefore(told, s.log.prev, id);
    OpenUntilAnswered(told, s.log.prev);
    AnswerIsSince(told, s.log.prev, s.log.last, id);
  }

  /** `log'` continues `log`, and no other prompt was shown in between. */
  predicate Unprompted(log: Log, log': Log) {
    log == log' || (log'.Then? && !log'.last.Prompted? && Unprompted(log, log'.prev))
  }

  /** Between `log` and `log'` there was exactly one answer, by this client, to a call made in between with it. */
  predicate AnsweredOnce(log: Log, log': Log, id: Id, accept: bool) {
    && log != log' && log'.Then?
    && if log'.last.Answered? then
         log'.last == Answered(id, accept) && Unanswered(log, log'.prev) && CalledSince(log, log'.prev, id, accept)
       else AnsweredOnce(log, log'.prev, id, accept)
  }

  /** How far a prompt that was open at `log` has come. */
  predicate Course(log: Log, log': Log, offer: Offer, id: Id) {
    match PromptOf(log')
    case Closed => true
    case Open(o) => o == offer && Unanswered(log, log')
    case Decided(o, accept) => o == offer && AnsweredOnce(log, log', id, accept)
    case Granted(o) => o == offer && AnsweredOnce(log, log', id, true)
    case Broken => false
  }

  lemma {:induction false} CourseOfPrompt(log: Log, log': Log, offer: Offer, id: Id)
    requires PromptOf(log) == Open(offer) && Unprompted(log, log') && PromptOf(log') != Broken
    requires ProperCalls(log') && OneCaller(log', id) && CallOf(log, id) == NoCall
    ensures Course(log, log', offer, id)
  {
    if log != log' {
      CourseOfPrompt(log, log'.prev, offer, id);
      if log'.last.Answered? {
        AnswerIsSince(log, log'.prev, log'.last, id);
      }
    }
  }

  /** From the question to known_hosts: a key persisted after a return with unknown_host_key, with no other prompt in
      between, is the key whose fingerprint was returned, under the host name of its prompt; and in between there was
      exactly one answer, yes, which the client passed to a call that it made in between. */
  lemma PersistedWasConfirmed(cfg: Config, interactive: bool, run: seq<Event>, s: State, id: Id, told: Log)
    requires Reaches(cfg, interactive, run, s) && s.clients.Keys <= {id}
    requires s.log.Then? && s.log.last.Persisted? && Unprompted(told, s.log.prev)
    requires told.Then? && told.last.Returned? && told.last.status == UnknownHostKey
    ensures PromptOf(told) == Open(s.log.last.offer)
    ensures told.last.fingerprint == Some(Sha256(s.log.last.offer.key))
    ensures AnsweredOnce(told, s.log.prev, id, true) && Calls(s.log) == CallsIn(run, |run|)
  {
    SingleClientReturns(cfg, interactive, run, s, id);
    SingleCaller(cfg, interactive, run, s, id);
    CallsAreEvents(cfg, interactive, run, |run|, s);
    PromptsPair(cfg, interactive, run, s);
    UnpromptedContinues(told, s.log.prev);
    ReturnedBefore(told, s.log.prev, id);
    CourseOfPrompt(told, s.log.prev, PromptOf(told).offer, id);
  }

  /** The same without a client in view: what is persisted is the host and key of the prompt that was decided last. */
  lemma PersistedWasDecided(cfg: Config, interactive: bool, run: seq<Event>, s: State, decided: Log)
    requires Reaches(cfg, interactive, run, s) && s.log.Then? && s.log.last.Persisted?
    requires PromptOf(decided).Decided? && Unprompted(decided, s.log.prev)
    ensures PromptOf(decided) == Decided(s.log.last.offer, true)
  {
    PromptsPair(cfg, interactive, run, s);
    DecisionGoesOn(decided, s.log.prev);
  }

  lemma {:induction false} DecisionGoesOn(log: Log, log': Log)
    requires PromptOf(log).Decided? && Unprompted(log, log') && PromptOf(log') != Broken
    ensures
      var p := PromptOf(log);
      PromptOf(log') == p || PromptOf(log') == Closed || (p.accept && PromptOf(log') == Granted(p.offer))
  {
    if log != log' {
      DecisionGoesOn(log, log'.prev);
    }
  }
}
