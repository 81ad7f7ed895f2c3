/** The invariants that tie the readings of the log to where the goroutine and the calls stand. */
module SshInvariants {
  import opened Wrappers
  import opened SshConnector
  import opened SshLog

  /** The last key is as given and everything shown before it is trusted. */
  predicate LastIs(a: Attempt, i: nat, k: (Offer, Basis)) {
    a.Attempt? && a.i == i && a.keys != [] && a.keys[|a.keys| - 1] == k && Trusted(a.keys[..|a.keys| - 1])
  }

  /** Some key of the handshake is not trusted. */
  predicate Rejected(a: Attempt, i: nat) {
    a.Attempt? && a.i == i && a.keys != [] && !Trusted(a.keys)
  }

  /** What the host-key callback said agrees with the keys it was shown. */
  predicate Verified(a: Attempt, i: nat, h: HostKey) {
    a.Attempt? && a.i == i && (h == Unasked <==> a.keys == []) && (h == Approved <==> Sound(a, i))
  }

  /** Where the goroutine stands, and what the log then says. */
  predicate PcInv(s: State, v: View) {
    var a, p := v.attempt, v.prompt;
    if s.pc.InHandshake? || InPassword(s.pc) then Verified(a, s.pc.i, s.hostKey) && p == Closed
    else
    match s.pc
    case Refusing(i, _) => Rejected(a, i) && p == Closed
    case CheckInteractive(i, offer) => LastIs(a, i, (offer, Undecided)) && p == Closed && v.shown == Some(offer)
    case Prompting(i, offer) =>
      LastIs(a, i, (offer, Undecided)) && p == Closed && v.shown == Some(offer) && s.interactive
    case AwaitDecision(i, offer) =>
      && LastIs(a, i, (offer, Undecided)) && s.interactive && s.pending == Some(offer)
      && (if s.status == UnknownHostKey then s.decision == [] && p == Open(offer)
          else |s.decision| == 1 && p == Decided(offer, s.decision[0]))
    case ClearPrompt(i, offer, accepted) =>
      s.interactive && (if accepted then p == Granted(offer) && Sound(a, i) else p == Closed && Rejected(a, i))
    case Persisting(i, offer) => s.interactive && p == Granted(offer) && Sound(a, i)
    case PrintAdded(i, _) => p == Closed && Sound(a, i)
    case PrintSucceeded(i) => p == Closed && Sound(a, i)
    case StoreClient(i) => p == Closed && Sound(a, i)
    case SetSucceeded(_) => p == Closed && v.connected
    case _ => p == Closed
  }

  predicate StatusInv(s: State, v: View) {
    && (s.status == UnknownHostKey ==> s.pc.AwaitDecision?)
    && (s.status == NeedPassphrase ==> Asking(s.pc) && s.passphrase == "")
    && (s.passphrase != "" ==> Asking(s.pc) || s.pc.PwTake? || s.pc.PwClear?)
    && (s.pc.PwTake? ==> s.passphrase != "")
    && (s.pc.PwClear? ==> s.passphrase != "" && s.pc.secret == s.passphrase)
    && (s.status == Succeeded ==> v.connected && (s.pc.FinishCheck? || s.pc.FinishNotify? || s.pc.Stopped?))
    && (s.status == Failed ==> s.pc.FinishNotify? || s.pc.Stopped?)
    && (s.pending.Some? ==> s.pc.AwaitDecision? || s.pc.ClearPrompt?)
  }

  predicate ViewInv(s: State, v: View) {
    PcInv(s, v) && StatusInv(s, v) && v.sound
  }

  predicate HostKeyInv(cfg: Config, s: State) {
    ViewInv(s, ViewOf(cfg, s.log))
  }

  /** The view after a step that logged at most one record. */
  function ViewAfter(cfg: Config, v: View, log: Log, log': Log): View {
    if log'.Then? && log'.prev == log then Seen(cfg, v, log'.last) else v
  }

  lemma AfterIsView(cfg: Config, log: Log, log': Log)
    requires log' == log || (log'.Then? && log'.prev == log)
    ensures ViewAfter(cfg, ViewOf(cfg, log), log, log') == ViewOf(cfg, log')
  {
    NotOwnPrefix(log);
    if log' != log {
      ViewThen(cfg, log, log'.last);
    }
  }

  lemma {:induction false} NotOwnPrefix(log: Log)
    ensures log.Then? ==> log.prev != log
  {
    if log.Then? {
      NotOwnPrefix(log.prev);
    }
  }

  lemma ViewInvAsk(cfg: Config, s: State, v: View, env: Env, s': State)
    requires ViewInv(s, v) && (s.pc.Refusing? || s.pc.CheckInteractive? || s.pc.Prompting?)
    requires PromptStep(s, env) == Some(s')
    ensures ViewInv(s', ViewAfter(cfg, v, s.log, s'.log))
  {
  }

  /** The decision for the last key that was shown. */
  lemma DecidedKeys(a: Attempt, i: nat, offer: Offer, basis: Basis)
    requires LastIs(a, i, (offer, Undecided))
    ensures
      var a' := a.(keys := a.keys[..|a.keys| - 1] + [(offer, basis)]);
      a'.keys != [] && (basis == AcceptedByUser ==> Sound(a', i)) && (basis == Distrusted ==> Rejected(a', i))
  {
    var n := |a.keys| - 1;
    var keys := a.keys[..n] + [(offer, basis)];
    assert keys[..n] == a.keys[..n] && keys[n].1 == basis;
  }

  lemma ViewInvReceive(cfg: Config, s: State, v: View, env: Env, s': State)
    requires ViewInv(s, v) && s.pc.AwaitDecision?
    requires PromptStep(s, env) == Some(s')
    ensures ViewInv(s', ViewAfter(cfg, v, s.log, s'.log))
  {
    DecidedKeys(v.attempt, s.pc.i, s.pc.offer, if s.decision[0] then AcceptedByUser else Distrusted);
  }

  lemma ViewInvDecide(cfg: Config, s: State, v: View, env: Env, s': State)
    requires ViewInv(s, v) && (s.pc.ClearPrompt? || s.pc.Persisting? || s.pc.PrintAdded?)
    requires PromptStep(s, env) == Some(s')
    ensures ViewInv(s', ViewAfter(cfg, v, s.log, s'.log))
  {
  }

  lemma ViewInvAsking(cfg: Config, s: State, v: View, env: Env, s': State)
    requires ViewInv(s, v) && (Asking(s.pc) || s.pc.PwStart?)
    requires PasswordStep(s) == Some(s')
    ensures ViewInv(s', ViewAfter(cfg, v, s.log, s'.log))
  {
    AskingTakesNothing(s, s');
    ViewInvLooping(s, v, s');
    NotOwnPrefix(s.log);
  }

  lemma ViewInvLooping(s: State, v: View, s': State)
    requires ViewInv(s, v) && (Asking(s.pc) || s.pc.PwStart?)
    requires PasswordStep(s) == Some(s')
    ensures ViewInv(s', v)
  {
    StaysInPassword(s, s');
    StatusInvLooping(s, v, s');
  }

  lemma StaysInPassword(s: State, s': State)
    requires (Asking(s.pc) || s.pc.PwStart?) && PasswordStep(s) == Some(s')
    ensures (s'.pc.InHandshake? || InPassword(s'.pc)) && s'.pc.i == s.pc.i && s'.hostKey == s.hostKey
  {
  }

  lemma StatusInvLooping(s: State, v: View, s': State)
    requires StatusInv(s, v) && (Asking(s.pc) || s.pc.PwStart?)
    requires PasswordStep(s) == Some(s')
    ensures StatusInv(s', v)
  {
  }

  lemma AskingTakesNothing(s: State, s': State)
    requires (Asking(s.pc) || s.pc.PwStart?) && PasswordStep(s) == Some(s')
    ensures s'.log == s.log && s'.passphrase == s.passphrase
    ensures !s'.pc.PwClear? && !s'.pc.PwStatus? && !s'.pc.PwNotify?
  {
  }

  lemma ViewInvTaking(cfg: Config, s: State, v: View, env: Env, s': State)
    requires ViewInv(s, v) && InPassword(s.pc) && !Asking(s.pc)
    requires PasswordStep(s) == Some(s')
    ensures ViewInv(s', ViewAfter(cfg, v, s.log, s'.log))
  {
  }

  /** One more key is shown. */
  lemma ShownKeys(a: Attempt, k: (Offer, Basis))
    requires a.Attempt? && Trusted(a.keys)
    ensures
      var a' := a.(keys := a.keys + [k]);
      LastIs(a', a.i, k) && (k.1 == InKnownHosts ==> Sound(a', a.i))
  {
    assert (a.keys + [k])[..|a.keys|] == a.keys;
  }

  lemma ShownView(cfg: Config, v: View, i: nat, h: HostKey, offer: Offer)
    requires Verified(v.attempt, i, h) && !h.Refused? && v.prompt == Closed
    requires i < |cfg.addresses| && offer.host == cfg.addresses[i]
    ensures
      var v', basis := Seen(cfg, v, KeyShown(i, offer)), BasisOf(cfg, offer);
      && v'.prompt == Closed && v'.shown == Some(offer) && v'.connected == v.connected && v'.sound == v.sound
      && LastIs(v'.attempt, i, (offer, basis)) && (basis == InKnownHosts ==> Sound(v'.attempt, i))
  {
    ShownKeys(v.attempt, (offer, BasisOf(cfg, offer)));
  }

  lemma ViewInvShown(cfg: Config, s: State, v: View, env: Env, s': State)
    requires ViewInv(s, v) && s.pc.InHandshake? && env.AskHostKey?
    requires HandshakeStep(cfg, s, s.pc.i, env) == Some(s')
    ensures ViewInv(s', ViewAfter(cfg, v, s.log, s'.log))
  {
    var i, offer := s.pc.i, Offer(cfg.addresses[s.pc.i], env.key);
    var t, verdict := Logged(s, KeyShown(i, offer)), Verify(cfg, offer);
    ShownView(cfg, v, i, s.hostKey, offer);
    ViewInvJudged(s, v, i, offer, verdict, Seen(cfg, v, KeyShown(i, offer)));
    assert s' == Judged(t, i, offer, verdict);
    JudgedLog(t, i, offer, verdict);
    assert ViewAfter(cfg, v, s.log, s'.log) == Seen(cfg, v, KeyShown(i, offer));
  }

  lemma JudgedLog(s: State, i: nat, offer: Offer, verdict: Verdict)
    ensures Judged(s, i, offer, verdict).log == s.log
  {
  }

  lemma ViewInvJudged(s: State, v: View, i: nat, offer: Offer, verdict: Verdict, v': View)
    requires ViewInv(s, v) && s.pc == InHandshake(i) && v'.prompt == Closed && v'.shown == Some(offer)
    requires v'.connected == v.connected && v'.sound == v.sound
    requires verdict == Match ==> Sound(v'.attempt, i)
    requires verdict == Unknown ==> LastIs(v'.attempt, i, (offer, Undecided))
    requires verdict == Mismatch || verdict == LookupError ==> LastIs(v'.attempt, i, (offer, Distrusted))
    ensures ViewInv(Judged(Logged(s, KeyShown(i, offer)), i, offer, verdict), v')
  {
  }

  lemma ViewInvHandshake(cfg: Config, s: State, v: View, env: Env, s': State)
    requires ViewInv(s, v) && s.pc.InHandshake? && !env.AskHostKey?
    requires HandshakeStep(cfg, s, s.pc.i, env) == Some(s')
    ensures ViewInv(s', ViewAfter(cfg, v, s.log, s'.log))
  {
  }

  lemma ViewInvStarted(cfg: Config, s: State, v: View, env: Env, s': State)
    requires ViewInv(s, v) && s.pc.SetHandshake?
    requires DialStep(cfg, s, env) == Some(s')
    ensures ViewInv(s', ViewAfter(cfg, v, s.log, s'.log))
  {
  }

  lemma ViewInvDialing(cfg: Config, s: State, v: View, env: Env, s': State)
    requires ViewInv(s, v) && Dials(s.pc) && !s.pc.SetHandshake?
    requires DialStep(cfg, s, env) == Some(s')
    ensures ViewInv(s', ViewAfter(cfg, v, s.log, s'.log))
  {
  }

  lemma ViewInvFinishing(cfg: Config, s: State, v: View, env: Env, s': State)
    requires ViewInv(s, v) && Finishes(s.pc)
    requires FinishStep(s) == Some(s')
    ensures ViewInv(s', ViewAfter(cfg, v, s.log, s'.log))
  {
  }

  // ---------- what a step can change ----------

  predicate NoNews(s: State, s': State) {
    s'.messages == s.messages && !s'.pc.Stopped? && !s.pc.PwNotify?
  }

  /** A step of the connector only adds messages, only wakes clients, and logs nothing in a client's name. */
  predicate Extends(s: State, s': State) {
    && s.messages <= s'.messages && s'.interactive == s.interactive
    && (|| (s'.clients == s.clients && s'.waiting == s.waiting && (InWait(s'.pc) <==> InWait(s.pc)) && NoNews(s, s'))
        || (s'.clients == Woken(s.clients) && s'.waiting == [] && !InWait(s'.pc))
        || (s'.clients == s.clients && s'.waiting == s.waiting + [Connector] && InWait(s'.pc) && !InWait(s.pc)
            && NoNews(s, s')))
    && (s'.log == s.log ||
        (s'.log.Then? && s'.log.prev == s.log && !OfClient(s'.log.last)
         && (s'.log.last.Prompted? ==> s.pc.Prompting?) && (s'.log.last.Received? ==> s.pc.AwaitDecision?)))
  }

  /** ... and outside the password callback it has nothing to do with passphrases. */
  predicate NoSecrets(s: State, s': State) {
    && s'.passphrase == s.passphrase && !s'.pc.PwClear? && !s'.pc.PwStatus? && !s'.pc.PwNotify?
    && (s'.log == s.log ||
        (s'.log.Then? && s'.log.prev == s.log && !s'.log.last.PassphraseUsed?))
  }

  lemma DialingExtends(cfg: Config, s: State, env: Env, s': State)
    requires Dials(s.pc) && DialStep(cfg, s, env) == Some(s')
    ensures Extends(s, s') && NoSecrets(s, s')
  {
  }

  lemma PromptExtends(cfg: Config, s: State, env: Env, s': State)
    requires InPrompt(s.pc) && PromptStep(s, env) == Some(s')
    ensures Extends(s, s') && NoSecrets(s, s')
  {
  }

  lemma HandshakeExtends(cfg: Config, s: State, env: Env, s': State)
    requires s.pc.InHandshake? && HandshakeStep(cfg, s, s.pc.i, env) == Some(s')
    ensures Extends(s, s') && NoSecrets(s, s')
  {
    if env.AskHostKey? {
      ShownExtends(cfg, s, env, s');
    }
  }

  lemma ShownExtends(cfg: Config, s: State, env: Env, s': State)
    requires s.pc.InHandshake? && env.AskHostKey? && HandshakeStep(cfg, s, s.pc.i, env) == Some(s')
    ensures Extends(s, s') && NoSecrets(s, s')
  {
  }

  lemma PasswordExtends(cfg: Config, s: State, env: Env, s': State)
    requires InPassword(s.pc) && PasswordStep(s) == Some(s')
    ensures Extends(s, s')
  {
  }

  lemma FinishingExtends(cfg: Config, s: State, env: Env, s': State)
    requires Finishes(s.pc) && FinishStep(s) == Some(s')
    ensures Extends(s, s') && NoSecrets(s, s')
  {
  }

  lemma ConnectorExtends(cfg: Config, s: State, env: Env, s': State)
    requires ConnectorStep(cfg, s, env) == Some(s')
    ensures Extends(s, s') && (!InPassword(s.pc) ==> NoSecrets(s, s'))
  {
    if Dials(s.pc) {
      DialingExtends(cfg, s, env, s');
    } else if InPrompt(s.pc) {
      PromptExtends(cfg, s, env, s');
    } else if InPassword(s.pc) {
      PasswordExtends(cfg, s, env, s');
    } else if s.pc.InHandshake? {
      HandshakeExtends(cfg, s, env, s');
    } else {
      FinishingExtends(cfg, s, env, s');
    }
  }

  // ---------- the host-key invariant, step by step ----------

  lemma HostKeyInvConnector(cfg: Config, s: State, env: Env, s': State)
    requires HostKeyInv(cfg, s) && ConnectorStep(cfg, s, env) == Some(s')
    ensures HostKeyInv(cfg, s')
  {
    var v := ViewOf(cfg, s.log);
    ViewInvConnector(cfg, s, v, env, s');
    assert s'.log == s.log || (s'.log.Then? && s'.log.prev == s.log) by { ConnectorExtends(cfg, s, env, s'); }
    AfterIsView(cfg, s.log, s'.log);
  }

  lemma ViewInvConnector(cfg: Config, s: State, v: View, env: Env, s': State)
    requires ViewInv(s, v) && ConnectorStep(cfg, s, env) == Some(s')
    ensures ViewInv(s', ViewAfter(cfg, v, s.log, s'.log))
  {
    if s.pc.Refusing? || s.pc.CheckInteractive? || s.pc.Prompting? {
      ViewInvAsk(cfg, s, v, env, s');
    } else if s.pc.AwaitDecision? {
      ViewInvReceive(cfg, s, v, env, s');
    } else if InPrompt(s.pc) {
      ViewInvDecide(cfg, s, v, env, s');
    } else if Asking(s.pc) || s.pc.PwStart? {
      ViewInvAsking(cfg, s, v, env, s');
    } else if InPassword(s.pc) {
      ViewInvTaking(cfg, s, v, env, s');
    } else if s.pc.SetHandshake? {
      ViewInvStarted(cfg, s, v, env, s');
    } else if Dials(s.pc) {
      ViewInvDialing(cfg, s, v, env, s');
    } else if !s.pc.InHandshake? {
      ViewInvFinishing(cfg, s, v, env, s');
    } else if env.AskHostKey? {
      ViewInvShown(cfg, s, v, env, s');
    } else {
      ViewInvHandshake(cfg, s, v, env, s');
    }
  }

  lemma HostKeyInvPassphrase(cfg: Config, s: State, id: Id, secret: string)
    requires HostKeyInv(cfg, s) && secret != ""
    ensures HostKeyInv(cfg, SetPassphrase(s, id, secret))
  {
    if s.status.NeedPassphrase? {
      ViewThen(cfg, s.log, PassphraseGiven(id, secret));
      ViewInvPassphrase(s, ViewOf(cfg, s.log), id, secret);
    }
  }

  lemma ViewInvPassphrase(s: State, v: View, id: Id, secret: string)
    requires ViewInv(s, v) && secret != ""
    ensures ViewInv(SetPassphrase(s, id, secret), v)
  {
  }

  /** The send on the prompt's channel never finds the pending prompt missing or the channel full. */
  lemma AcceptNeverBlocks(cfg: Config, s: State, id: Id, accept: bool)
    requires HostKeyInv(cfg, s) && s.status == UnknownHostKey
    ensures AcceptHostKey(s, id, accept).Some? && HostKeyInv(cfg, AcceptHostKey(s, id, accept).value)
  {
    ViewThen(cfg, s.log, Answered(id, accept));
    ViewInvAccept(cfg, s, ViewOf(cfg, s.log), id, accept);
  }

  lemma ViewInvAccept(cfg: Config, s: State, v: View, id: Id, accept: bool)
    requires ViewInv(s, v) && s.status == UnknownHostKey
    ensures AcceptHostKey(s, id, accept).Some?
    ensures ViewInv(AcceptHostKey(s, id, accept).value, Seen(cfg, v, Answered(id, accept)))
  {
  }

  /** Records that only tell of the calls themselves. */
  predicate OfCall(r: Record) {
    r.Called? || r.Returned? || r.Errored?
  }

  /** Steps that touch nothing but a call itself, the list of waiters, and the log of calls. */
  lemma HostKeyInvCall(cfg: Config, s: State, s': State)
    requires HostKeyInv(cfg, s) && (s.interactive ==> s'.interactive)
    requires s' == s.(clients := s'.clients, waiting := s'.waiting, log := s'.log, interactive := s'.interactive)
    requires s'.log == s.log || (s'.log.Then? && s'.log.prev == s.log && OfCall(s'.log.last))
    ensures HostKeyInv(cfg, s')
  {
    if s'.log != s.log {
      ViewThen(cfg, s.log, s'.log.last);
    }
  }

  /** Which parts of the state a step of a call can change. */
  lemma CallTouches(s: State, id: Id, s': State)
    requires id in s.clients && ClientStep(s, id) == Some(s')
    requires !s.clients[id].call.GivePassphrase?
    requires s.clients[id].call.GiveDecision? ==> s.status != UnknownHostKey
    ensures s' == s.(clients := s'.clients, waiting := s'.waiting, log := s'.log)
    ensures s'.log == s.log || (s'.log.Then? && s'.log.prev == s.log && OfCall(s'.log.last))
  {
  }

  lemma HostKeyInvClient(cfg: Config, s: State, id: Id, s': State)
    requires HostKeyInv(cfg, s) && id in s.clients && ClientStep(s, id) == Some(s')
    ensures HostKeyInv(cfg, s')
  {
    var call := s.clients[id].call;
    if call.GivePassphrase? {
      if call.request.secret != "" {
        HostKeyInvPassphrase(cfg, s, id, call.request.secret);
        HostKeyInvCall(cfg, SetPassphrase(s, id, call.request.secret), s');
      }
    } else if call.GiveDecision? && s.status == UnknownHostKey {
      AcceptNeverBlocks(cfg, s, id, call.decision);
      HostKeyInvCall(cfg, AcceptHostKey(s, id, call.decision).value, s');
    } else {
      CallTouches(s, id, s');
      HostKeyInvCall(cfg, s, s');
    }
  }

  // ---------- passphrases ----------

  /** The passphrase that was given and not yet handed to the SSH library. */
  function InFlight(s: State): seq<string> {
    if s.pc.PwClear? || s.pc.PwStatus? || s.pc.PwNotify? then [s.pc.secret]
    else if s.passphrase != "" then [s.passphrase]
    else []
  }

  predicate PassphraseInv(s: State) {
    Given(s.log) == Used(s.log) + InFlight(s)
  }

  lemma PassphraseInvAsking(cfg: Config, s: State, env: Env, s': State)
    requires HostKeyInv(cfg, s) && PassphraseInv(s) && (Asking(s.pc) || s.pc.PwStart?)
    requires PasswordStep(s) == Some(s')
    ensures PassphraseInv(s')
  {
    AskingTakesNothing(s, s');
  }

  lemma PassphraseInvTaking(cfg: Config, s: State, env: Env, s': State)
    requires HostKeyInv(cfg, s) && PassphraseInv(s)
    requires s.pc.PwTake? || s.pc.PwClear? || s.pc.PwStatus? || s.pc.PwNotify?
    requires PasswordStep(s) == Some(s')
    ensures PassphraseInv(s')
  {
  }

  lemma PassphraseInvConnector(cfg: Config, s: State, env: Env, s': State)
    requires HostKeyInv(cfg, s) && PassphraseInv(s) && ConnectorStep(cfg, s, env) == Some(s')
    ensures PassphraseInv(s')
  {
    ConnectorExtends(cfg, s, env, s');
    if Asking(s.pc) || s.pc.PwStart? {
      PassphraseInvAsking(cfg, s, env, s');
    } else if InPassword(s.pc) {
      PassphraseInvTaking(cfg, s, env, s');
    }
  }

  lemma PassphraseInvClient(cfg: Config, s: State, id: Id, s': State)
    requires HostKeyInv(cfg, s) && PassphraseInv(s) && id in s.clients && ClientStep(s, id) == Some(s')
    ensures PassphraseInv(s')
  {
    var call := s.clients[id].call;
    if call.GivePassphrase? {
      PassphraseInvGiven(cfg, s, id, call.request.secret);
    } else if call.GiveDecision? && s.status == UnknownHostKey {
      AcceptNeverBlocks(cfg, s, id, call.decision);
    } else {
      CallTouches(s, id, s');
    }
  }

  lemma PassphraseInvGiven(cfg: Config, s: State, id: Id, secret: string)
    requires HostKeyInv(cfg, s) && PassphraseInv(s)
    ensures secret != "" ==> PassphraseInv(SetPassphrase(s, id, secret))
  {
  }

  // ---------- messages ----------

  /** What the client got so far, with the call under way, is a prefix of the connector's messages. */
  predicate ClientInv(c: Client, messages: seq<Message>, delivered: seq<Message>) {
    && c.count <= |messages| && delivered + c.out == messages[..c.count]
    && (c.call.ReadMessage? ==> c.count < |messages|)
    && (c.call.Idle? || c.call.GivePassphrase? || c.call.GiveDecision? ==> c.out == [])
  }

  ghost predicate MessagesInv(s: State) {
    && (forall id :: id in s.clients ==> ClientInv(s.clients[id], s.messages, Delivered(s.log, id)))
    && (forall id :: id !in s.clients ==> Delivered(s.log, id) == [])
  }

  /** The client is the same, was woken, or moved on without reading. */
  predicate Keeps(c: Client, c': Client) {
    c' == c ||
    (c' == c.(call := c'.call) && !c'.call.ReadMessage? &&
     (c'.call.Idle? || Gives(c'.call) ==> c.call.Idle? || Gives(c.call)))
  }

  /** New messages and wake-ups do not disturb what was delivered. */
  lemma ClientKeeps(c: Client, c': Client, messages: seq<Message>, messages': seq<Message>, delivered: seq<Message>)
    requires ClientInv(c, messages, delivered) && messages <= messages' && Keeps(c, c')
    ensures ClientInv(c', messages', delivered)
  {
    assert messages'[..c.count] == messages[..c.count];
  }

  predicate NothingReturned(log: Log, log': Log) {
    log' == log || (log'.Then? && log'.prev == log && !log'.last.Returned?)
  }

  lemma MessagesKept(s: State, s': State)
    requires MessagesInv(s) && s.messages <= s'.messages && NothingReturned(s.log, s'.log)
    requires s'.clients.Keys == s.clients.Keys
    requires forall id :: id in s.clients ==> Keeps(s.clients[id], s'.clients[id])
    ensures MessagesInv(s')
  {
    forall id | id in s'.clients
      ensures ClientInv(s'.clients[id], s'.messages, Delivered(s'.log, id))
    {
      assert ClientInv(s.clients[id], s.messages, Delivered(s.log, id));
      ClientKeeps(s.clients[id], s'.clients[id], s.messages, s'.messages, Delivered(s.log, id));
      DeliveredKept(s.log, s'.log, id);
    }
    forall id | id !in s'.clients
      ensures Delivered(s'.log, id) == []
    {
      DeliveredKept(s.log, s'.log, id);
    }
  }

  lemma DeliveredKept(log: Log, log': Log, id: Id)
    requires NothingReturned(log, log') || (log'.Then? && log'.prev == log && log'.last.Returned? && log'.last.id != id)
    ensures Delivered(log', id) == Delivered(log, id)
  {
    assert Delivered(log, id) + [] == Delivered(log, id);
  }

  lemma MessagesInvConnector(cfg: Config, s: State, env: Env, s': State)
    requires MessagesInv(s) && ConnectorStep(cfg, s, env) == Some(s')
    ensures MessagesInv(s')
  {
    ConnectorExtends(cfg, s, env, s');
    MessagesKept(s, s');
  }

  /** A step of a call in the loop is that client's own business. */
  predicate OwnStep(s: State, id: Id, s': State)
    requires id in s.clients
  {
    && s'.messages == s.messages && id in s'.clients && s'.clients == s.clients[id := s'.clients[id]]
    && s'.pc == s.pc && (Waits(s.clients[id].call) ==> Waits(s'.clients[id].call))
    && s'.waiting == (if Waits(s'.clients[id].call) && !Waits(s.clients[id].call) then s.waiting + [Caller(id)]
                      else s.waiting)
    && (s'.log == s.log || (s'.log.Then? && s'.log.prev == s.log && s'.log.last.Returned? && s'.log.last.id == id))
  }

  lemma MoveIsOwn(s: State, id: Id)
    requires id in s.clients && !Ends(s.clients[id].call)
    ensures OwnStep(s, id, MoveStep(s, id))
  {
  }

  lemma EndIsOwn(s: State, id: Id)
    requires id in s.clients && Ends(s.clients[id].call)
    ensures OwnStep(s, id, EndStep(s, id))
  {
  }

  lemma LoopIsOwn(s: State, id: Id, s': State)
    requires id in s.clients && ClientStep(s, id) == Some(s') && !Gives(s.clients[id].call)
    ensures OwnStep(s, id, s')
  {
    if Ends(s.clients[id].call) {
      EndIsOwn(s, id);
    } else if !s.clients[id].call.ReadMessage? {
      MoveIsOwn(s, id);
    }
  }

  lemma ReadKeeps(c: Client, messages: seq<Message>, delivered: seq<Message>)
    requires ClientInv(c, messages, delivered) && c.call.ReadMessage?
    ensures ClientInv(Client(c.count + 1, ReadCount, c.out + [messages[c.count]]), messages, delivered)
  {
    assert messages[..c.count + 1] == messages[..c.count] + [messages[c.count]];
  }

  lemma ReturnKeeps(c: Client, messages: seq<Message>, delivered: seq<Message>)
    requires ClientInv(c, messages, delivered)
    ensures ClientInv(Client(c.count, Idle, []), messages, delivered + c.out)
  {
    assert (delivered + c.out) + [] == delivered + c.out;
  }

  lemma MoveKeeps(s: State, c: Client, delivered: seq<Message>)
    requires ClientInv(c, s.messages, delivered) && !Gives(c.call) && !c.call.Idle? && !c.call.ReadMessage?
    ensures ClientInv(c.(call := NextCall(s, c)), s.messages, delivered)
  {
  }

  lemma EndKeeps(s: State, id: Id)
    requires id in s.clients && Ends(s.clients[id].call)
    requires ClientInv(s.clients[id], s.messages, Delivered(s.log, id))
    ensures
      var s' := EndStep(s, id);
      id in s'.clients && ClientInv(s'.clients[id], s'.messages, Delivered(s'.log, id))
  {
    ReturnKeeps(s.clients[id], s.messages, Delivered(s.log, id));
  }

  lemma LoopKeeps(s: State, id: Id, s': State)
    requires id in s.clients && ClientStep(s, id) == Some(s') && !Gives(s.clients[id].call)
    requires ClientInv(s.clients[id], s.messages, Delivered(s.log, id))
    ensures id in s'.clients && ClientInv(s'.clients[id], s'.messages, Delivered(s'.log, id))
  {
    var c := s.clients[id];
    if c.call.ReadMessage? {
      ReadKeeps(c, s.messages, Delivered(s.log, id));
    } else if Ends(c.call) {
      EndKeeps(s, id);
    } else {
      MoveKeeps(s, c, Delivered(s.log, id));
    }
  }

  lemma MessagesInvLoop(s: State, id: Id, s': State)
    requires MessagesInv(s) && id in s.clients && OwnStep(s, id, s')
    requires ClientInv(s'.clients[id], s'.messages, Delivered(s'.log, id))
    ensures MessagesInv(s')
  {
    forall other | other != id
      ensures other in s'.clients ==> ClientInv(s'.clients[other], s'.messages, Delivered(s'.log, other))
      ensures other !in s'.clients ==> Delivered(s'.log, other) == []
    {
      DeliveredKept(s.log, s'.log, other);
      assert other in s.clients ==> ClientInv(s.clients[other], s.messages, Delivered(s.log, other));
    }
  }

  /** Giving a passphrase or a decision only wakes the others. */
  lemma GivingKeeps(s: State, id: Id, s': State)
    requires id in s.clients && ClientStep(s, id) == Some(s') && Gives(s.clients[id].call)
    ensures s'.messages == s.messages && s'.clients.Keys == s.clients.Keys && NothingReturned(s.log, s'.log)
    ensures forall other :: other in s.clients ==> other == id || Keeps(s.clients[other], s'.clients[other])
    ensures Keeps(s.clients[id], s'.clients[id])
  {
  }

  lemma MessagesInvClient(s: State, id: Id, s': State)
    requires MessagesInv(s) && id in s.clients && ClientStep(s, id) == Some(s')
    ensures MessagesInv(s')
  {
    if Gives(s.clients[id].call) {
      GivingKeeps(s, id, s');
      MessagesKept(s, s');
    } else {
      assert ClientInv(s.clients[id], s.messages, Delivered(s.log, id));
      LoopIsOwn(s, id, s');
      LoopKeeps(s, id, s');
      MessagesInvLoop(s, id, s');
    }
  }

  // ---------- waiters ----------

  /** In Wait, with the receive done or as the only thing left to do before it. */
  predicate Listed(s: State, w: Waiter) {
    match w
    case Connector => InWait(s.pc)
    case Caller(id) => id in s.clients && Waits(s.clients[id].call)
  }

  /** The list of waiters names exactly the goroutines that are parked or about to be, each once. */
  ghost predicate WaitingInv(s: State) {
    && (forall w :: w in s.waiting <==> Listed(s, w))
    && forall j, k :: 0 <= j < k < |s.waiting| ==> s.waiting[j] != s.waiting[k]
  }

  /** Everyone was woken. */
  lemma WaitingEmptied(s: State, s': State, clients: map<Id, Client>)
    requires s'.clients == Woken(clients) && s'.waiting == [] && !InWait(s'.pc)
    ensures WaitingInv(s')
  {
  }

  lemma WaitingKept(s: State, s': State)
    requires WaitingInv(s) && s'.waiting == s.waiting
    requires forall w :: Listed(s', w) <==> Listed(s, w)
    ensures WaitingInv(s')
  {
  }

  /** One more is on the list. */
  lemma WaitingAdded(s: State, s': State, w: Waiter)
    requires WaitingInv(s) && s'.waiting == s.waiting + [w] && !Listed(s, w)
    requires forall v :: Listed(s', v) <==> v == w || Listed(s, v)
    ensures WaitingInv(s')
  {
    assert w !in s.waiting;
    assert forall v :: v in s'.waiting <==> v in s.waiting || v == w;
  }

  lemma WaitingInvConnector(cfg: Config, s: State, env: Env, s': State)
    requires WaitingInv(s) && ConnectorStep(cfg, s, env) == Some(s')
    ensures WaitingInv(s')
  {
    ConnectorExtends(cfg, s, env, s');
    if s'.waiting == s.waiting && s'.clients == s.clients && (InWait(s'.pc) <==> InWait(s.pc)) {
      assert forall w :: Listed(s', w) <==> Listed(s, w);
      WaitingKept(s, s');
    } else if s'.waiting == [] {
      WaitingEmptied(s, s', s.clients);
    } else {
      WaitingAdded(s, s', Connector);
    }
  }

  lemma WaitingInvLoop(s: State, id: Id, s': State)
    requires WaitingInv(s) && id in s.clients && OwnStep(s, id, s')
    ensures WaitingInv(s')
  {
    if s'.waiting == s.waiting {
      assert forall w :: Listed(s', w) <==> Listed(s, w);
      WaitingKept(s, s');
    } else {
      WaitingAdded(s, s', Caller(id));
    }
  }

  lemma WaitingInvGiving(s: State, id: Id, s': State)
    requires WaitingInv(s) && id in s.clients && ClientStep(s, id) == Some(s') && Gives(s.clients[id].call)
    ensures WaitingInv(s')
  {
    GivingWakes(s, id, s');
    if s'.waiting == [] && !InWait(s'.pc) && s'.clients == Woken(s.clients)[id := s'.clients[id]] {
      assert forall other :: other in s'.clients ==> !Waits(s'.clients[other].call);
    } else {
      assert forall w :: Listed(s', w) <==> Listed(s, w);
      WaitingKept(s, s');
    }
  }

  lemma WaitingInvClient(s: State, id: Id, s': State)
    requires WaitingInv(s) && id in s.clients && ClientStep(s, id) == Some(s')
    ensures WaitingInv(s')
  {
    if !Gives(s.clients[id].call) {
      LoopIsOwn(s, id, s');
      WaitingInvLoop(s, id, s');
    } else {
      WaitingInvGiving(s, id, s');
    }
  }

  lemma GivingWakes(s: State, id: Id, s': State)
    requires id in s.clients && ClientStep(s, id) == Some(s') && Gives(s.clients[id].call)
    ensures id in s'.clients && !Waits(s'.clients[id].call) && s'.messages == s.messages
    ensures s'.pc.Stopped? ==> s.pc.Stopped?
    ensures
      || (s'.waiting == s.waiting && s'.pc == s.pc && s'.clients == s.clients[id := s'.clients[id]]
          && s'.status == s.status)
      || (s'.waiting == [] && !InWait(s'.pc) && s'.clients == Woken(s.clients)[id := s'.clients[id]])
  {
  }

  // ---------- a single client ----------

  predicate CallInv(call: Call, status: Status) {
    match call
    case ReadDone(seen) => seen.NeedPassphrase? || seen.UnknownHostKey? ==> status == seen
    case ReadDone2(seen) => seen.NeedPassphrase? || seen.UnknownHostKey? ==> status == seen
    case FinalStatus => Settled(status)
    case FinalFingerprint(final) => final == UnknownHostKey == status
    case _ => true
  }

  predicate SingleInv(s: State, id: Id) {
    GoodReturns(s.log) && (id in s.clients ==> CallInv(s.clients[id].call, s.status))
  }

  /** A settled status only a client can change. */
  lemma SettledStays(cfg: Config, s: State, env: Env, s': State)
    requires HostKeyInv(cfg, s) && Settled(s.status) && ConnectorStep(cfg, s, env) == Some(s')
    ensures s'.status == s.status
  {
    SettledWhere(s, ViewOf(cfg, s.log));
    if Asking(s.pc) {
      AskingKeepsStatus(s, s');
    }
  }

  lemma SettledWhere(s: State, v: View)
    requires ViewInv(s, v) && Settled(s.status)
    ensures s.pc.AwaitDecision? || Asking(s.pc) || s.pc.FinishCheck? || s.pc.FinishNotify? || s.pc.Stopped?
    ensures s.pc.AwaitDecision? ==> s.decision == []
    ensures s.pc.FinishCheck? ==> s.status.Succeeded?
  {
  }

  lemma AskingKeepsStatus(s: State, s': State)
    requires Asking(s.pc) && PasswordStep(s) == Some(s')
    ensures s'.status == s.status
  {
  }

  lemma SingleInvConnector(cfg: Config, s: State, env: Env, s': State, id: Id)
    requires HostKeyInv(cfg, s) && SingleInv(s, id) && ConnectorStep(cfg, s, env) == Some(s')
    ensures SingleInv(s', id)
  {
    ConnectorExtends(cfg, s, env, s');
    if Settled(s.status) {
      SettledStays(cfg, s, env, s');
    }
  }

  lemma SingleInvReturn(cfg: Config, s: State, id: Id, s': State)
    requires HostKeyInv(cfg, s) && SingleInv(s, id) && id in s.clients
    requires s.clients[id].call.FinalStatus? || s.clients[id].call.FinalFingerprint?
    requires ClientStep(s, id) == Some(s')
    ensures SingleInv(s', id)
  {
  }

  lemma SingleInvMove(cfg: Config, s: State, id: Id, s': State)
    requires SingleInv(s, id) && id in s.clients && !Gives(s.clients[id].call)
    requires !s.clients[id].call.FinalStatus? && !s.clients[id].call.FinalFingerprint?
    requires ClientStep(s, id) == Some(s')
    ensures SingleInv(s', id)
  {
  }

  lemma SingleInvClient(cfg: Config, s: State, id: Id, s': State)
    requires HostKeyInv(cfg, s) && SingleInv(s, id) && id in s.clients && ClientStep(s, id) == Some(s')
    ensures SingleInv(s', id)
  {
    if s.clients[id].call.FinalStatus? || s.clients[id].call.FinalFingerprint? {
      SingleInvReturn(cfg, s, id, s');
    } else if !Gives(s.clients[id].call) {
      SingleInvMove(cfg, s, id, s');
    }
  }

  // ---------- no client, no prompt ----------

  predicate QuietInv(s: State) {
    s.interactive || Quiet(s.log)
  }

  lemma QuietInvConnector(cfg: Config, s: State, env: Env, s': State)
    requires HostKeyInv(cfg, s) && QuietInv(s) && ConnectorStep(cfg, s, env) == Some(s')
    ensures QuietInv(s')
  {
    ConnectorExtends(cfg, s, env, s');
  }

  lemma QuietInvClient(s: State, id: Id, s': State)
    requires QuietInv(s) && id in s.clients && ClientStep(s, id) == Some(s')
    ensures QuietInv(s')
  {
    if !Gives(s.clients[id].call) {
      LoopIsOwn(s, id, s');
    }
  }

  // ---------- all of it, over every run ----------

  ghost predicate Inv(cfg: Config, s: State) {
    && HostKeyInv(cfg, s) && PassphraseInv(s) && MessagesInv(s) && WaitingInv(s) && QuietInv(s)
    && forall id :: s.clients.Keys <= {id} ==> SingleInv(s, id)
  }

  lemma InvConnector(cfg: Config, s: State, env: Env, s': State)
    requires Inv(cfg, s) && ConnectorStep(cfg, s, env) == Some(s')
    ensures Inv(cfg, s')
  {
    HostKeyInvConnector(cfg, s, env, s');
    PassphraseInvConnector(cfg, s, env, s');
    MessagesInvConnector(cfg, s, env, s');
    WaitingInvConnector(cfg, s, env, s');
    QuietInvConnector(cfg, s, env, s');
    ConnectorExtends(cfg, s, env, s');
    forall id | s'.clients.Keys <= {id}
      ensures SingleInv(s', id)
    {
      assert s'.clients.Keys == s.clients.Keys;
      SingleInvConnector(cfg, s, env, s', id);
    }
  }

  lemma InvClient(cfg: Config, s: State, id: Id, s': State)
    requires Inv(cfg, s) && id in s.clients && ClientStep(s, id) == Some(s')
    ensures Inv(cfg, s')
  {
    HostKeyInvClient(cfg, s, id, s');
    PassphraseInvClient(cfg, s, id, s');
    MessagesInvClient(s, id, s');
    WaitingInvClient(s, id, s');
    QuietInvClient(s, id, s');
    ClientsStay(s, id, s');
    forall other | s'.clients.Keys <= {other}
      ensures SingleInv(s', other)
    {
      assert id in s.clients.Keys && other == id;
      SingleInvClient(cfg, s, id, s');
    }
  }

  lemma ClientsStay(s: State, id: Id, s': State)
    requires id in s.clients && ClientStep(s, id) == Some(s')
    ensures s'.clients.Keys == s.clients.Keys
  {
    if !Gives(s.clients[id].call) {
      LoopIsOwn(s, id, s');
    } else {
      GivingWakes(s, id, s');
    }
  }

  /** A call begins: by a new client, which makes the connector interactive, or by an idle one. */
  lemma InvBegin(cfg: Config, s: State, e: Event, s': State)
    requires Inv(cfg, s) && (e.Join? || e.Begin?) && Next(cfg, s, e) == Some(s')
    ensures Inv(cfg, s')
  {
    HostKeyInvCall(cfg, s, s');
    PassphraseInvBegin(cfg, s, e, s');
    MessagesInvBegin(s, e.id, s');
    WaitingKept(s, s');
    forall id | s'.clients.Keys <= {id}
      ensures SingleInv(s', id)
    {
      assert s.clients.Keys <= s'.clients.Keys;
      assert SingleInv(s, id);
      SingleInvBegin(cfg, s, e, s', id);
    }
  }

  lemma PassphraseInvBegin(cfg: Config, s: State, e: Event, s': State)
    requires PassphraseInv(s) && (e.Join? || e.Begin?) && Next(cfg, s, e) == Some(s')
    ensures PassphraseInv(s')
  {
  }

  lemma SingleInvBegin(cfg: Config, s: State, e: Event, s': State, id: Id)
    requires SingleInv(s, id) && (e.Join? || e.Begin?) && Next(cfg, s, e) == Some(s')
    ensures SingleInv(s', id)
  {
  }

  lemma MessagesInvBegin(s: State, id: Id, s': State)
    requires MessagesInv(s) && s'.messages == s.messages
    requires s'.log.Then? && s'.log.prev == s.log && s'.log.last.Called?
    requires id in s'.clients && s'.clients == s.clients[id := s'.clients[id]] && s'.clients[id].call.GivePassphrase?
    requires
      if id in s.clients then Keeps(s.clients[id], s'.clients[id])
      else s'.clients[id].count == 0 && s'.clients[id].out == []
    ensures MessagesInv(s')
  {
    forall other
      ensures Delivered(s'.log, other) == Delivered(s.log, other)
    {
      DeliveredKept(s.log, s'.log, other);
    }
  }

  lemma InvNext(cfg: Config, s: State, e: Event, s': State)
    requires Inv(cfg, s) && Follows(cfg, s, e, s')
    ensures Inv(cfg, s')
  {
    assert Look(true);
    match e
    case Go(env) => InvConnector(cfg, s, env, s');
    case Step(id) => InvClient(cfg, s, id, s');
    case _ => InvBegin(cfg, s, e, s');
  }

  lemma InvAtFirst(cfg: Config, interactive: bool, s: State)
    requires s == Init(interactive)
    ensures Inv(cfg, s)
  {
    assert forall w :: !Listed(s, w);
  }

  lemma {:induction false} RunInv(cfg: Config, interactive: bool, run: seq<Event>, k: nat, s: State)
    requires Arrives(cfg, interactive, run, k, s)
    ensures Inv(cfg, s)
    decreases k
  {
    if k == 0 {
      FirstState(cfg, interactive, run, s);
      InvAtFirst(cfg, interactive, s);
    } else {
      var t := LastEvent(cfg, interactive, run, k, s);
      RunInv(cfg, interactive, run, k - 1, t);
      InvNext(cfg, t, run[k - 1], s);
    }
  }
}
