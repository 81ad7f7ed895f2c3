/** Readings of the log: what it means for a run to be safe, told from the records alone. */
module SshLog {
  import opened Wrappers
  import opened SshConnector

  // ---------- calls ----------

  /** The Connect call that a client has under way, and whether its decision was handed over. */
  datatype OpenCall = NoCall | OpenCall(request: Request, answered: bool)

  function CallOf(log: Log, id: Id): OpenCall {
    if log.Empty? then NoCall else CallNext(CallOf(log.prev, id), log.last, id)
  }

  function CallNext(call: OpenCall, r: Record, id: Id): OpenCall {
    match r
    case Called(other, request) => if other == id then OpenCall(request, false) else call
    case Answered(other, _) => if other == id && call.OpenCall? then call.(answered := true) else call
    case Returned(other, _, _, _) => if other == id then NoCall else call
    case Errored(other) => if other == id then NoCall else call
    case _ => call
  }

  /** Records of what a client did. */
  predicate OfClient(r: Record) {
    r.Called? || r.Answered? || r.PassphraseGiven? || r.Returned? || r.Errored?
  }

  /** A client calls only when it has no call under way. What is given or decided is what its call was made with, the
      decision once and after the passphrase. A call returns once its decision, if it has one, was handed over, and
      ends in an error if it was not. */
  predicate ProperCall(call: OpenCall, r: Record) {
    match r
    case Called(_, _) => call.NoCall?
    case Answered(_, accept) => call.OpenCall? && !call.answered && call.request.accept == Some(accept)
    case PassphraseGiven(_, secret) =>
      call.OpenCall? && !call.answered && call.request.secret == secret && secret != ""
    case Returned(_, _, _, _) => call.OpenCall? && (call.answered <==> call.request.accept.Some?)
    case Errored(_) => call.OpenCall? && !call.answered && call.request.accept.Some?
    case _ => true
  }

  predicate ProperCalls(log: Log) {
    log.Empty? ||
    (ProperCalls(log.prev) && (OfClient(log.last) ==> ProperCall(CallOf(log.prev, log.last.id), log.last)))
  }

  predicate HasCalled(log: Log, id: Id) {
    log.Then? && ((log.last.Called? && log.last.id == id) || HasCalled(log.prev, id))
  }

  lemma {:induction false} StrangersAreSilent(log: Log, id: Id)
    requires !HasCalled(log, id)
    ensures CallOf(log, id) == NoCall
  {
    if log.Then? {
      StrangersAreSilent(log.prev, id);
    }
  }

  // ---------- host keys ----------

  /** The lookup in known_hosts finds this very key for the host. */
  predicate KnownKey(cfg: Config, offer: Offer) {
    offer.key !in cfg.revoked && offer.host in cfg.known && offer.key in cfg.known[offer.host]
  }

  /** known_hosts has no key for the host at all. */
  predicate UnknownHost(cfg: Config, offer: Offer) {
    offer.key !in cfg.revoked && (offer.host !in cfg.known || cfg.known[offer.host] == {})
  }

  /** known_hosts has keys for the host, but not this one. */
  predicate ChangedKey(cfg: Config, offer: Offer) {
    offer.key !in cfg.revoked && offer.host in cfg.known && cfg.known[offer.host] != {}
    && offer.key !in cfg.known[offer.host]
  }

  /** Why a key shown in a handshake may be trusted, or not. */
  datatype Basis = InKnownHosts | Undecided | AcceptedByUser | Distrusted

  datatype Attempt = NoAttempt | Attempt(i: nat, keys: seq<(Offer, Basis)>)

  function BasisOf(cfg: Config, offer: Offer): Basis {
    if KnownKey(cfg, offer) then InKnownHosts else if UnknownHost(cfg, offer) then Undecided else Distrusted
  }

  /** The handshake under way and all the keys shown in it, as the log tells. */
  function Track(cfg: Config, log: Log): Attempt {
    if log.Empty? then NoAttempt else Tracked(cfg, Track(cfg, log.prev), log.last)
  }

  /** Only a key whose host is not in known_hosts at all can become accepted, and only by the decision handed to its
      own prompt. */
  function Tracked(cfg: Config, a: Attempt, r: Record): Attempt {
    match r
    case HandshakeStarted(i) => Attempt(i, [])
    case KeyShown(i, offer) =>
      if a.NoAttempt? then a
      else
        var own := i == a.i && i < |cfg.addresses| && offer.host == cfg.addresses[i];
        a.(keys := a.keys + [(offer, if own then BasisOf(cfg, offer) else Distrusted)])
    case Received(offer, accept) =>
      if a.Attempt? && a.keys != [] && a.keys[|a.keys| - 1] == (offer, Undecided) then
        a.(keys := a.keys[..|a.keys| - 1] + [(offer, if accept then AcceptedByUser else Distrusted)])
      else a
    case _ => a
  }

  predicate Trusted(keys: seq<(Offer, Basis)>) {
    forall j :: 0 <= j < |keys| ==> keys[j].1 == InKnownHosts || keys[j].1 == AcceptedByUser
  }

  predicate Sound(a: Attempt, i: nat) {
    a.Attempt? && a.i == i && a.keys != [] && Trusted(a.keys)
  }

  /** Every connection that was stored came out of a handshake that showed a key, and only trusted ones. */
  predicate OnlySoundConnections(cfg: Config, log: Log) {
    log.Empty? ||
    (OnlySoundConnections(cfg, log.prev) && (log.last.Connected? ==> Sound(Track(cfg, log.prev), log.last.i)))
  }

  predicate EverConnected(log: Log) {
    log.Then? && (log.last.Connected? || EverConnected(log.prev))
  }

  // ---------- prompts ----------

  datatype Prompt = Closed | Open(offer: Offer) | Decided(offer: Offer, accept: bool) | Granted(offer: Offer) | Broken

  /** The key that the handshake under way showed last. */
  function LastShown(log: Log): Option<Offer> {
    if log.Empty? then None else Shown(LastShown(log.prev), log.last)
  }

  function Shown(shown: Option<Offer>, r: Record): Option<Offer> {
    match r
    case HandshakeStarted(_) => None
    case KeyShown(_, offer) => Some(offer)
    case _ => shown
  }

  function PromptOf(log: Log): Prompt {
    if log.Empty? then Closed else PromptNext(PromptOf(log.prev), LastShown(log.prev), log.last)
  }

  /** A prompt has to be for the key shown last, and its answer and their effects have to follow in this order, each
      for the same host and key. */
  function PromptNext(p: Prompt, shown: Option<Offer>, r: Record): Prompt {
    match r
    case Prompted(offer) => if p == Closed && shown == Some(offer) then Open(offer) else Broken
    case Answered(_, accept) => if p.Open? then Decided(p.offer, accept) else Broken
    case Received(offer, accept) =>
      if p != Decided(offer, accept) then Broken else if accept then Granted(offer) else Closed
    case Persisted(offer, _) => if p == Granted(offer) then Closed else Broken
    case HandshakeStarted(_) => if p == Closed then Closed else Broken
    case KeyShown(_, _) => if p == Closed then Closed else Broken
    case HandshakeEnded(_, _) => if p == Closed then Closed else Broken
    case Connected(_) => if p == Closed then Closed else Broken
    case _ => p
  }

  // ---------- all of it at one point of the log ----------

  datatype View = View(attempt: Attempt, prompt: Prompt, shown: Option<Offer>, connected: bool, sound: bool)

  function ViewOf(cfg: Config, log: Log): View {
    View(Track(cfg, log), PromptOf(log), LastShown(log), EverConnected(log), OnlySoundConnections(cfg, log))
  }

  /** What one more record makes of a view. */
  function Seen(cfg: Config, v: View, r: Record): View {
    View(Tracked(cfg, v.attempt, r), PromptNext(v.prompt, v.shown, r), Shown(v.shown, r),
         r.Connected? || v.connected, v.sound && (r.Connected? ==> Sound(v.attempt, r.i)))
  }

  lemma ViewThen(cfg: Config, log: Log, r: Record)
    ensures ViewOf(cfg, Then(log, r)) == Seen(cfg, ViewOf(cfg, log), r)
  {
  }

  // ---------- passphrases ----------

  function Given(log: Log): seq<string> {
    if log.Empty? then []
    else Given(log.prev) + (if log.last.PassphraseGiven? then [log.last.secret] else [])
  }

  function Used(log: Log): seq<string> {
    if log.Empty? then []
    else Used(log.prev) + (if log.last.PassphraseUsed? then [log.last.secret] else [])
  }

  // ---------- messages ----------

  /** The messages of the completed calls of one client, in order. */
  function Delivered(log: Log, id: Id): seq<Message> {
    if log.Empty? then []
    else Delivered(log.prev, id) + (if log.last.Returned? && log.last.id == id then log.last.out else [])
  }

  // ---------- returns ----------

  predicate Settled(status: Status) {
    status.NeedPassphrase? || status.UnknownHostKey? || status.Succeeded? || status.Failed?
  }

  /** Every completed call says something the client can act on; if it asks about a host key, then about the one
      whose prompt is open. */
  predicate GoodReturns(log: Log) {
    log.Empty? ||
    (GoodReturns(log.prev) &&
     (log.last.Returned? ==>
       && Settled(log.last.status)
       && (log.last.status == UnknownHostKey ==>
             && PromptOf(log.prev).Open?
             && log.last.fingerprint == Some(Sha256(PromptOf(log.prev).offer.key)))
       && (log.last.status != UnknownHostKey ==> log.last.fingerprint == None)
       && (log.last.status == Succeeded ==> EverConnected(log.prev))))
  }

  // ---------- no client, no prompt ----------

  predicate Quiet(log: Log) {
    log.Empty? || (Quiet(log.prev) && !log.last.Prompted? && !log.last.Received?)
  }
}
