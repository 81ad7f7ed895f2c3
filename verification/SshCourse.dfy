/** The course of a connection attempt as the log tells it: which records may follow which, what the connector says
    meanwhile, and what its status shows. */
module SshCourse {
  import opened Wrappers
  import opened SshConnector
  import opened SshLog
  import opened SshInvariants

  // ---------- readings ----------

  /** What has to come before the SSH library goes on. */
  datatype Due = Nothing | Question(offer: Offer) | Passphrase

  datatype Stage =
    | Ready(i: nat)                            // address `i` is next
    | Picked(i: nat)
    | Reached(i: nat)
    | Shaking(i: nat, due: Due)
    | Shaken(i: nat)
    | Up(i: nat)
    | Astray

  function StageOf(cfg: Config, log: Log): Stage {
    if log.Empty? then Ready(0) else StageNext(cfg, StageOf(cfg, log.prev), log.last)
  }

  /** The addresses in order, each dialed once, and a handshake with each that was reached; callbacks run only inside
      the handshake, a key of an unknown host is followed by a question or by a note that nobody can be asked, and
      whatever fails leads to the next address. */
  function StageNext(cfg: Config, st: Stage, r: Record): Stage {
    match r
    case Took(i) => if st == Ready(i) && i < |cfg.addresses| then Picked(i) else Astray
    case Dialed(i, ok) => if st != Picked(i) then Astray else if ok then Reached(i) else Ready(i + 1)
    case HandshakeStarted(i) => if st == Reached(i) then Shaking(i, Nothing) else Astray
    case KeyShown(i, offer) =>
      if st == Shaking(i, Nothing) && i < |cfg.addresses| && offer.host == cfg.addresses[i]
      then Shaking(i, if UnknownHost(cfg, offer) then Question(offer) else Nothing)
      else Astray
    case NotAsked(offer) => Settles(st, Question(offer))
    case Prompted(offer) => Settles(st, Question(offer))
    case PasswordAsked => if st.Shaking? && st.due.Nothing? then Shaking(st.i, Passphrase) else Astray
    case PassphraseUsed(_) => Settles(st, Passphrase)
    case Received(_, _) => Settles(st, Nothing)
    case Persisted(_, _) => Settles(st, Nothing)
    case BannerShown(_) => Settles(st, Nothing)
    case HandshakeEnded(i, ok) => if st != Shaking(i, Nothing) then Astray else if ok then Shaken(i) else Ready(i + 1)
    case Connected(i) => if st == Shaken(i) then Up(i) else Astray
    case _ => st
  }

  function Settles(st: Stage, due: Due): Stage {
    if st.Shaking? && st.due == due then Shaking(st.i, Nothing) else Astray
  }

  /** What the connector has to say when this happens. */
  function Said(cfg: Config, r: Record): seq<Message> {
    match r
    case Took(i) => [Trying(i)]
    case Dialed(i, ok) => if ok then [] else [ConnectFailed(i)]
    case KeyShown(_, offer) => if ChangedKey(cfg, offer) then [HostKeyChanged(offer)] else []
    case NotAsked(offer) => [HostNotKnown(offer)]
    case Prompted(offer) => [Unverified(offer)]
    case Persisted(offer, ok) => if ok then [AddedToKnownHosts(offer.host)] else []
    case BannerShown(text) => [Banner(text)]
    case HandshakeEnded(i, ok) => if ok then [HandshakeSucceeded(i)] else [HandshakeFailed(i)]
    case _ => []
  }

  function Spoken(cfg: Config, log: Log): seq<Message> {
    if log.Empty? then [] else Spoken(cfg, log.prev) + Said(cfg, log.last)
  }

  /** Some client has called. */
  predicate AnyCall(log: Log) {
    log.Then? && (log.last.Called? || AnyCall(log.prev))
  }

  /** The user is asked if the connector was started for a client or one has called since, and not asked otherwise. */
  predicate AskedRightly(interactive: bool, log: Log) {
    log.Empty? ||
    (AskedRightly(interactive, log.prev) &&
     (log.last.NotAsked? ==> !interactive && !AnyCall(log.prev)) &&
     (log.last.Prompted? ==> interactive || AnyCall(log.prev)))
  }

  // ---------- where the goroutine stands ----------

  /** Where the goroutine stands, the log has brought it. */
  predicate OnCourse(cfg: Config, pc: Pc, st: Stage) {
    if InPassword(pc) then st == Shaking(pc.i, Passphrase)
    else if pc.CheckInteractive? || pc.Prompting? then st == Shaking(pc.i, Question(pc.offer))
    else if pc.InHandshake? || InPrompt(pc) then st == Shaking(pc.i, Nothing)
    else
    match pc
    case NextAddress(i) => st == Ready(i)
    case SetConnecting(i) => st == Picked(i)
    case Dialing(i) => st == Picked(i)
    case SetHandshake(i) => st == Reached(i)
    case PrintSucceeded(i) => st == Shaken(i)
    case StoreClient(i) => st == Shaken(i)
    case SetSucceeded(i) => st == Up(i)
    case FinishFail => st == Ready(|cfg.addresses|)
    case _ => st.Up? || st == Ready(|cfg.addresses|)
  }

  /** No address is invented. */
  predicate WithinList(cfg: Config, st: Stage) {
    !st.Astray? && st.i <= |cfg.addresses| && (!st.Ready? ==> st.i < |cfg.addresses|)
  }

  /** What the goroutine says in its next step, about something that has happened. */
  function ToSay(pc: Pc): seq<Message> {
    match pc
    case Refusing(_, msg) => [msg]
    case PrintAdded(_, offer) => [AddedToKnownHosts(offer.host)]
    case PrintSucceeded(i) => [HandshakeSucceeded(i)]
    case _ => []
  }

  /** The status tells where the goroutine is. */
  predicate StatusTells(s: State) {
    if Asking(s.pc) then s.status == (if s.passphrase == "" then NeedPassphrase else Handshake)
    else
    match s.pc
    case NextAddress(i) => s.status == (if i == 0 then Initial else Connecting) || (i > 0 && s.status == Handshake)
    case SetConnecting(i) => s.status == (if i == 0 then Initial else Connecting) || (i > 0 && s.status == Handshake)
    case Dialing(_) => s.status == Connecting
    case SetHandshake(_) => s.status == Connecting
    case AwaitDecision(_, _) => s.status == (if s.decision == [] then UnknownHostKey else Handshake)
    case FinishCheck => !Settled(s.status) || s.status == Succeeded
    case FinishFail => !Settled(s.status)
    case FinishNotify => Done(s.status)
    case Stopped => Done(s.status)
    case _ => s.status == Handshake
  }

  predicate StatusMatches(s: State, st: Stage) {
    && StatusTells(s) && (s.passphrase != "" ==> Asking(s.pc) || s.pc.PwTake? || s.pc.PwClear?)
    && (s.pc.FinishCheck? || s.pc.FinishNotify? || s.pc.Stopped? ==> (s.status == Succeeded <==> st.Up?))
  }

  /** Both readings at one point of the log. */
  datatype Outlook = Outlook(stage: Stage, spoken: seq<Message>)

  function OutlookOf(cfg: Config, log: Log): Outlook {
    Outlook(StageOf(cfg, log), Spoken(cfg, log))
  }

  function OutlookNext(cfg: Config, o: Outlook, r: Record): Outlook {
    Outlook(StageNext(cfg, o.stage, r), o.spoken + Said(cfg, r))
  }

  predicate Tells(s: State, spoken: seq<Message>) {
    s.messages + ToSay(s.pc) == spoken
  }

  predicate Courses(cfg: Config, s: State, o: Outlook) {
    && OnCourse(cfg, s.pc, o.stage) && WithinList(cfg, o.stage)
    && Tells(s, o.spoken) && StatusMatches(s, o.stage)
  }

  predicate CourseInv(cfg: Config, s: State) {
    Courses(cfg, s, OutlookOf(cfg, s.log))
  }

  /** The outlook after a step that logged at most one record. */
  function OutlookAfter(cfg: Config, o: Outlook, log: Log, log': Log): Outlook {
    if log'.Then? && log'.prev == log then OutlookNext(cfg, o, log'.last) else o
  }

  lemma AfterIsOutlook(cfg: Config, log: Log, log': Log)
    requires log' == log || (log'.Then? && log'.prev == log)
    ensures OutlookAfter(cfg, OutlookOf(cfg, log), log, log') == OutlookOf(cfg, log')
  {
    NotOwnPrefix(log);
  }

  // ---------- step by step ----------

  lemma DialCourse(cfg: Config, s: State, o: Outlook, env: Env, s': State)
    requires OnCourse(cfg, s.pc, o.stage) && WithinList(cfg, o.stage)
    requires Dials(s.pc) && DialStep(cfg, s, env) == Some(s')
    ensures var o' := OutlookAfter(cfg, o, s.log, s'.log); OnCourse(cfg, s'.pc, o'.stage) && WithinList(cfg, o'.stage)
  {
  }

  lemma DialTelling(cfg: Config, s: State, o: Outlook, env: Env, s': State)
    requires Tells(s, o.spoken)
    requires Dials(s.pc) && DialStep(cfg, s, env) == Some(s')
    ensures var o' := OutlookAfter(cfg, o, s.log, s'.log); Tells(s', o'.spoken)
  {
  }

  lemma DialStatus(cfg: Config, s: State, o: Outlook, env: Env, s': State)
    requires OnCourse(cfg, s.pc, o.stage) && StatusMatches(s, o.stage)
    requires Dials(s.pc) && DialStep(cfg, s, env) == Some(s')
    ensures var o' := OutlookAfter(cfg, o, s.log, s'.log); StatusMatches(s', o'.stage)
  {
  }

  lemma ShakeCourse(cfg: Config, s: State, o: Outlook, env: Env, s': State)
    requires OnCourse(cfg, s.pc, o.stage) && WithinList(cfg, o.stage)
    requires s.pc.InHandshake? && HandshakeStep(cfg, s, s.pc.i, env) == Some(s')
    ensures var o' := OutlookAfter(cfg, o, s.log, s'.log); OnCourse(cfg, s'.pc, o'.stage) && WithinList(cfg, o'.stage)
  {
    if env.AskHostKey? {
      ShownCourse(cfg, s, o, env, s');
    }
  }

  lemma ShownCourse(cfg: Config, s: State, o: Outlook, env: Env, s': State)
    requires OnCourse(cfg, s.pc, o.stage) && WithinList(cfg, o.stage)
    requires s.pc.InHandshake? && env.AskHostKey? && HandshakeStep(cfg, s, s.pc.i, env) == Some(s')
    ensures var o' := OutlookAfter(cfg, o, s.log, s'.log); OnCourse(cfg, s'.pc, o'.stage) && WithinList(cfg, o'.stage)
  {
  }

  lemma ShakeTelling(cfg: Config, s: State, o: Outlook, env: Env, s': State)
    requires Tells(s, o.spoken)
    requires s.pc.InHandshake? && HandshakeStep(cfg, s, s.pc.i, env) == Some(s')
    ensures var o' := OutlookAfter(cfg, o, s.log, s'.log); Tells(s', o'.spoken)
  {
  }

  lemma ShakeStatus(cfg: Config, s: State, o: Outlook, env: Env, s': State)
    requires OnCourse(cfg, s.pc, o.stage) && StatusMatches(s, o.stage)
    requires s.pc.InHandshake? && HandshakeStep(cfg, s, s.pc.i, env) == Some(s')
    ensures var o' := OutlookAfter(cfg, o, s.log, s'.log); StatusMatches(s', o'.stage)
  {
  }

  lemma PromptCourse(cfg: Config, s: State, o: Outlook, env: Env, s': State)
    requires OnCourse(cfg, s.pc, o.stage) && WithinList(cfg, o.stage)
    requires InPrompt(s.pc) && PromptStep(s, env) == Some(s')
    ensures var o' := OutlookAfter(cfg, o, s.log, s'.log); OnCourse(cfg, s'.pc, o'.stage) && WithinList(cfg, o'.stage)
  {
  }

  lemma PromptTelling(cfg: Config, s: State, o: Outlook, env: Env, s': State)
    requires Tells(s, o.spoken)
    requires InPrompt(s.pc) && PromptStep(s, env) == Some(s')
    ensures var o' := OutlookAfter(cfg, o, s.log, s'.log); Tells(s', o'.spoken)
  {
  }

  lemma PromptStatus(cfg: Config, s: State, o: Outlook, env: Env, s': State)
    requires OnCourse(cfg, s.pc, o.stage) && StatusMatches(s, o.stage)
    requires InPrompt(s.pc) && PromptStep(s, env) == Some(s')
    ensures var o' := OutlookAfter(cfg, o, s.log, s'.log); StatusMatches(s', o'.stage)
  {
  }

  lemma PasswordCourse(cfg: Config, s: State, o: Outlook, env: Env, s': State)
    requires OnCourse(cfg, s.pc, o.stage) && WithinList(cfg, o.stage) && StatusMatches(s, o.stage)
    requires InPassword(s.pc) && PasswordStep(s) == Some(s')
    ensures var o' := OutlookAfter(cfg, o, s.log, s'.log); OnCourse(cfg, s'.pc, o'.stage) && WithinList(cfg, o'.stage)
  {
  }

  lemma PasswordTelling(cfg: Config, s: State, o: Outlook, env: Env, s': State)
    requires Tells(s, o.spoken)
    requires InPassword(s.pc) && PasswordStep(s) == Some(s')
    ensures var o' := OutlookAfter(cfg, o, s.log, s'.log); Tells(s', o'.spoken)
  {
  }

  lemma PasswordStatus(cfg: Config, s: State, o: Outlook, env: Env, s': State)
    requires OnCourse(cfg, s.pc, o.stage) && StatusMatches(s, o.stage)
    requires InPassword(s.pc) && PasswordStep(s) == Some(s')
    ensures var o' := OutlookAfter(cfg, o, s.log, s'.log); StatusMatches(s', o'.stage)
  {
  }

  lemma FinishCourse(cfg: Config, s: State, o: Outlook, env: Env, s': State)
    requires OnCourse(cfg, s.pc, o.stage) && WithinList(cfg, o.stage) && StatusMatches(s, o.stage)
    requires Finishes(s.pc) && FinishStep(s) == Some(s')
    ensures var o' := OutlookAfter(cfg, o, s.log, s'.log); OnCourse(cfg, s'.pc, o'.stage) && WithinList(cfg, o'.stage)
  {
  }

  lemma FinishTelling(cfg: Config, s: State, o: Outlook, env: Env, s': State)
    requires Tells(s, o.spoken)
    requires Finishes(s.pc) && FinishStep(s) == Some(s')
    ensures var o' := OutlookAfter(cfg, o, s.log, s'.log); Tells(s', o'.spoken)
  {
  }

  lemma FinishStatus(cfg: Config, s: State, o: Outlook, env: Env, s': State)
    requires OnCourse(cfg, s.pc, o.stage) && StatusMatches(s, o.stage)
    requires Finishes(s.pc) && FinishStep(s) == Some(s')
    ensures var o' := OutlookAfter(cfg, o, s.log, s'.log); StatusMatches(s', o'.stage)
  {
  }

  lemma CourseInvConnector(cfg: Config, s: State, env: Env, s': State)
    requires CourseInv(cfg, s) && ConnectorStep(cfg, s, env) == Some(s')
    ensures CourseInv(cfg, s')
  {
    var o := OutlookOf(cfg, s.log);
    CoursesConnector(cfg, s, o, env, s');
    assert s'.log == s.log || (s'.log.Then? && s'.log.prev == s.log) by { ConnectorExtends(cfg, s, env, s'); }
    AfterIsOutlook(cfg, s.log, s'.log);
  }

  lemma CoursesConnector(cfg: Config, s: State, o: Outlook, env: Env, s': State)
    requires Courses(cfg, s, o) && ConnectorStep(cfg, s, env) == Some(s')
    ensures Courses(cfg, s', OutlookAfter(cfg, o, s.log, s'.log))
  {
    if Dials(s.pc) {
      DialCourse(cfg, s, o, env, s');
      DialTelling(cfg, s, o, env, s');
      DialStatus(cfg, s, o, env, s');
    } else if s.pc.InHandshake? {
      ShakeCourse(cfg, s, o, env, s');
      ShakeTelling(cfg, s, o, env, s');
      ShakeStatus(cfg, s, o, env, s');
    } else if InPrompt(s.pc) {
      PromptCourse(cfg, s, o, env, s');
      PromptTelling(cfg, s, o, env, s');
      PromptStatus(cfg, s, o, env, s');
    } else if InPassword(s.pc) {
      PasswordCourse(cfg, s, o, env, s');
      PasswordTelling(cfg, s, o, env, s');
      PasswordStatus(cfg, s, o, env, s');
    } else {
      FinishCourse(cfg, s, o, env, s');
      FinishTelling(cfg, s, o, env, s');
      FinishStatus(cfg, s, o, env, s');
    }
  }

  lemma CoursesPassphrase(cfg: Config, s: State, o: Outlook, id: Id, secret: string)
    requires Courses(cfg, s, o) && secret != ""
    ensures Courses(cfg, SetPassphrase(s, id, secret), o)
  {
  }

  lemma CoursesAccept(cfg: Config, s: State, o: Outlook, id: Id, accept: bool, s': State)
    requires Courses(cfg, s, o) && s.status.UnknownHostKey? && AcceptHostKey(s, id, accept) == Some(s')
    ensures Courses(cfg, s', o)
  {
  }

  /** Records of clients say nothing about the course of the attempt. */
  lemma ClientsApart(cfg: Config, log: Log, r: Record)
    requires OfClient(r)
    ensures OutlookOf(cfg, Then(log, r)) == OutlookOf(cfg, log)
  {
  }

  lemma CourseInvKept(cfg: Config, s: State, s': State)
    requires CourseInv(cfg, s)
    requires s' == s.(clients := s'.clients, waiting := s'.waiting, log := s'.log, interactive := s'.interactive)
    requires s'.log == s.log || (s'.log.Then? && s'.log.prev == s.log && OfClient(s'.log.last))
    ensures CourseInv(cfg, s')
  {
    if s'.log != s.log {
      ClientsApart(cfg, s.log, s'.log.last);
    }
  }

  lemma CourseInvClient(cfg: Config, s: State, id: Id, s': State)
    requires CourseInv(cfg, s) && id in s.clients && ClientStep(s, id) == Some(s')
    ensures CourseInv(cfg, s')
  {
    var call := s.clients[id].call;
    if call.GivePassphrase? && call.request.secret != "" {
      CourseInvPassphrase(cfg, s, id, call.request.secret);
      CourseInvKept(cfg, SetPassphrase(s, id, call.request.secret), s');
    } else if call.GivePassphrase? {
      CourseInvKept(cfg, s, s');
    } else if call.GiveDecision? && s.status == UnknownHostKey {
      CourseInvAccept(cfg, s, id, call.decision);
      CourseInvKept(cfg, AcceptHostKey(s, id, call.decision).value, s');
    } else {
      CallTouches(s, id, s');
      CourseInvKept(cfg, s, s');
    }
  }

  lemma CourseInvPassphrase(cfg: Config, s: State, id: Id, secret: string)
    requires CourseInv(cfg, s) && secret != ""
    ensures CourseInv(cfg, SetPassphrase(s, id, secret))
  {
    CoursesPassphrase(cfg, s, OutlookOf(cfg, s.log), id, secret);
    ClientsApart(cfg, s.log, PassphraseGiven(id, secret));
  }

  lemma CourseInvAccept(cfg: Config, s: State, id: Id, accept: bool)
    requires CourseInv(cfg, s) && s.status.UnknownHostKey? && AcceptHostKey(s, id, accept).Some?
    ensures CourseInv(cfg, AcceptHostKey(s, id, accept).value)
  {
    CoursesAccept(cfg, s, OutlookOf(cfg, s.log), id, accept, AcceptHostKey(s, id, accept).value);
    ClientsApart(cfg, s.log, Answered(id, accept));
  }

  lemma CourseInvNext(cfg: Config, s: State, e: Event, s': State)
    requires CourseInv(cfg, s) && Follows(cfg, s, e, s')
    ensures CourseInv(cfg, s')
  {
    assert Look(true);
    match e
    case Go(env) => CourseInvConnector(cfg, s, env, s');
    case Step(id) => CourseInvClient(cfg, s, id, s');
    case _ => CourseInvKept(cfg, s, s');
  }

  lemma CourseAtFirst(cfg: Config, interactive: bool, s: State)
    requires s == Init(interactive)
    ensures CourseInv(cfg, s)
  {
  }

  lemma {:induction false} RunCourse(cfg: Config, interactive: bool, run: seq<Event>, k: nat, s: State)
    requires Arrives(cfg, interactive, run, k, s)
    ensures CourseInv(cfg, s)
    decreases k
  {
    if k == 0 {
      FirstState(cfg, interactive, run, s);
      CourseAtFirst(cfg, interactive, s);
    } else {
      var t := LastEvent(cfg, interactive, run, k, s);
      RunCourse(cfg, interactive, run, k - 1, t);
      CourseInvNext(cfg, t, run[k - 1], s);
    }
  }

  // ---------- the course of every run ----------

  /** Every run keeps to the course; it ends when an address was connected to, with status succeeded, or when all
      addresses were tried in vain, with status failed. */
  lemma RunsKeepCourse(cfg: Config, interactive: bool, run: seq<Event>, s: State)
    requires Reaches(cfg, interactive, run, s)
    ensures !StageOf(cfg, s.log).Astray?
    ensures s.status == Succeeded ==> StageOf(cfg, s.log).Up?
    ensures s.status == Failed ==> StageOf(cfg, s.log) == Ready(|cfg.addresses|)
    ensures s.pc.Stopped? ==> Done(s.status)
  {
    RunCourse(cfg, interactive, run, |run|, s);
  }

  /** The connector's messages are what its course calls for, in order, up to one message on its way; and where a call
      of Connect would return, all of them are there. */
  lemma EverythingIsTold(cfg: Config, interactive: bool, run: seq<Event>, s: State)
    requires Reaches(cfg, interactive, run, s)
    ensures s.messages <= Spoken(cfg, s.log) && |Spoken(cfg, s.log)| <= |s.messages| + 1
    ensures Settled(s.status) ==> s.messages == Spoken(cfg, s.log)
  {
    RunCourse(cfg, interactive, run, |run|, s);
    assert Tells(s, Spoken(cfg, s.log)) && StatusMatches(s, StageOf(cfg, s.log));
    assert Settled(s.status) ==> ToSay(s.pc) == [];
  }

  /** Whenever the connector cannot go on without a client, its status says what it waits for, and conversely. */
  lemma WaitingIsVisible(cfg: Config, interactive: bool, run: seq<Event>, s: State)
    requires Reaches(cfg, interactive, run, s)
    ensures s.status == UnknownHostKey <==> s.pc.AwaitDecision? && s.decision == []
    ensures s.status == NeedPassphrase <==> Asking(s.pc) && s.passphrase == ""
    ensures s.status == NeedPassphrase ==> StageOf(cfg, s.log).Shaking? && StageOf(cfg, s.log).due == Passphrase
  {
    RunCourse(cfg, interactive, run, |run|, s);
    assert StatusMatches(s, StageOf(cfg, s.log));
  }

  /** What the network, the SSH library and the file system choose is what the log says. */
  lemma ChoicesAreLogged(cfg: Config, s: State, env: Env, s': State)
    requires Next(cfg, s, Go(env)) == Some(s')
    ensures s.pc.Dialing? ==> env.Outcome? && s'.log == Then(s.log, Dialed(s.pc.i, env.ok))
    ensures s.pc.Persisting? ==> env.Outcome? && s'.log == Then(s.log, Persisted(s.pc.offer, env.ok))
    ensures s.pc.InHandshake? ==>
      match env
      case Proceed => false
      case Outcome(ok) => s'.log == Then(s.log, HandshakeEnded(s.pc.i, ok))
      case AskHostKey(key) =>
        s.pc.i < |cfg.addresses| && s'.log == Then(s.log, KeyShown(s.pc.i, Offer(cfg.addresses[s.pc.i], key)))
      case AskPassword => s'.log == Then(s.log, PasswordAsked)
      case ShowBanner(text) => s'.log == Then(s.log, BannerShown(text))
  {
    if s.pc.InHandshake? && env.AskHostKey? {
      var offer := Offer(cfg.addresses[s.pc.i], env.key);
      JudgedLog(Logged(s, KeyShown(s.pc.i, offer)), s.pc.i, offer, Verify(cfg, offer));
    }
  }

  // ---------- whether there is someone to ask ----------

  predicate AskedInv(interactive: bool, s: State) {
    && AskedRightly(interactive, s.log) && (s.interactive <==> interactive || AnyCall(s.log))
    && (s.pc.Prompting? ==> s.interactive) && forall id :: id in s.clients ==> AnyCall(s.log)
  }

  lemma AsksByPlace(cfg: Config, s: State, env: Env, s': State)
    requires InPrompt(s.pc) && PromptStep(s, env) == Some(s')
    ensures s'.log != s.log ==> s'.log.Then? && (s'.log.last.NotAsked? ==> !s.interactive)
    ensures s'.pc.Prompting? ==> s.interactive
  {
  }

  lemma NotesByPlace(cfg: Config, s: State, env: Env, s': State)
    requires !InPrompt(s.pc) && ConnectorStep(cfg, s, env) == Some(s')
    ensures s'.log != s.log ==> s'.log.Then? && !s'.log.last.NotAsked?
    ensures !s'.pc.Prompting?
  {
    if s.pc.InHandshake? {
      ChoicesAreLogged(cfg, s, env, s');
    }
  }

  lemma AskedInvConnector(cfg: Config, interactive: bool, s: State, env: Env, s': State)
    requires AskedInv(interactive, s) && ConnectorStep(cfg, s, env) == Some(s')
    ensures AskedInv(interactive, s')
  {
    ConnectorExtends(cfg, s, env, s');
    if InPrompt(s.pc) {
      AsksByPlace(cfg, s, env, s');
    } else {
      NotesByPlace(cfg, s, env, s');
    }
  }

  lemma GivingAsksNothing(s: State, id: Id, s': State)
    requires id in s.clients && Gives(s.clients[id].call) && GiveStep(s, id) == Some(s')
    ensures s'.interactive == s.interactive && (s'.pc.Prompting? ==> s.pc.Prompting?)
    ensures s'.log == s.log || (s'.log.Then? && s'.log.prev == s.log && OfClient(s'.log.last) && !s'.log.last.Called?)
  {
  }

  lemma AskedInvClient(interactive: bool, s: State, id: Id, s': State)
    requires AskedInv(interactive, s) && id in s.clients && ClientStep(s, id) == Some(s')
    ensures AskedInv(interactive, s')
  {
    if Gives(s.clients[id].call) {
      GivingAsksNothing(s, id, s');
    } else {
      LoopIsOwn(s, id, s');
      CallTouches(s, id, s');
    }
  }

  lemma AskedInvNext(cfg: Config, interactive: bool, s: State, e: Event, s': State)
    requires AskedInv(interactive, s) && Follows(cfg, s, e, s')
    ensures AskedInv(interactive, s')
  {
    assert Look(true);
    match e
    case Go(env) => AskedInvConnector(cfg, interactive, s, env, s');
    case Step(id) => AskedInvClient(interactive, s, id, s');
    case _ =>
  }

  lemma AskedAtFirst(interactive: bool, s: State)
    requires s == Init(interactive)
    ensures AskedInv(interactive, s)
  {
  }

  lemma {:induction false} RunAsked(cfg: Config, interactive: bool, run: seq<Event>, k: nat, s: State)
    requires Arrives(cfg, interactive, run, k, s)
    ensures AskedInv(interactive, s)
    decreases k
  {
    if k == 0 {
      FirstState(cfg, interactive, run, s);
      AskedAtFirst(interactive, s);
    } else {
      var t := LastEvent(cfg, interactive, run, k, s);
      RunAsked(cfg, interactive, run, k - 1, t);
      AskedInvNext(cfg, interactive, t, run[k - 1], s);
    }
  }

  /** A key of an unknown host is put to the user if a client is there to ask, and refused with a note otherwise. */
  lemma AskedWhenSomeoneIsThere(cfg: Config, interactive: bool, run: seq<Event>, s: State)
    requires Reaches(cfg, interactive, run, s)
    ensures AskedRightly(interactive, s.log)
  {
    RunAsked(cfg, interactive, run, |run|, s);
  }
}
