/** The SSH connector and the Connect calls that drive it, as a transition system. A section under the connector's
    lock is one step; an unlocked read or write of a shared field is a step of its own. What the network, the SSH
    library and the clients do is a parameter of the step. */
module SshConnector {
  import opened Wrappers

  type Host = string
  type Key = nat
  type Id = string

  datatype Fingerprint = Sha256(key: Key)

  /** A host name and the key shown for it: what the host-key callback is called with. */
  datatype Offer = Offer(host: Host, key: Key)

  /** `known` is the content of known_hosts when it was read; keys in `revoked` make the lookup fail. */
  datatype Config = Config(addresses: seq<Host>, known: map<Host, set<Key>>, revoked: set<Key>)

  datatype Verdict = Match | Mismatch | Unknown | LookupError

  function Verify(cfg: Config, offer: Offer): Verdict {
    if offer.key in cfg.revoked then LookupError
    else if offer.host !in cfg.known || cfg.known[offer.host] == {} then Unknown
    else if offer.key in cfg.known[offer.host] then Match
    else Mismatch
  }

  datatype Status = Initial | Connecting | Handshake | NeedPassphrase | UnknownHostKey | Succeeded | Failed

  datatype Message =
    | Trying(i: nat) | ConnectFailed(i: nat) | HandshakeFailed(i: nat) | HandshakeSucceeded(i: nat)
    | HostKeyChanged(offer: Offer) | HostNotKnown(offer: Offer) | Unverified(offer: Offer)
    | AddedToKnownHosts(host: Host)
    | Banner(text: string)

  /** Where the connector's goroutine stands; `i` is the index of the address in hand. */
  datatype Pc =
    | NextAddress(i: nat)
    | SetConnecting(i: nat)
    | Dialing(i: nat)
    | SetHandshake(i: nat)
    | InHandshake(i: nat)                      // inside NewClientConn, in no callback
    | Refusing(i: nat, msg: Message)           // host-key callback: a message, then an error
    | CheckInteractive(i: nat, offer: Offer)
    | Prompting(i: nat, offer: Offer)
    | AwaitDecision(i: nat, offer: Offer)
    | ClearPrompt(i: nat, offer: Offer, accepted: bool)
    | Persisting(i: nat, offer: Offer)
    | PrintAdded(i: nat, offer: Offer)
    | PwStart(i: nat)                          // password callback
    | PwLoop(i: nat)
    | PwCheck(i: nat)
    | PwTake(i: nat)
    | PwClear(i: nat, secret: string)
    | PwStatus(i: nat, secret: string)
    | PwNotify(i: nat, secret: string)
    | PwWait(i: nat)
    | PwRegister(i: nat)
    | PwRegistered(i: nat)                     // on the list, about to receive
    | PwBlocked(i: nat)                        // parked in the receive
    | PrintSucceeded(i: nat)
    | StoreClient(i: nat)
    | SetSucceeded(i: nat)
    | FinishCheck
    | FinishFail
    | FinishNotify
    | Stopped

  /** What the host-key callback said in the handshake under way. */
  datatype HostKey = Unasked | Approved | Refused

  /** What a client passes to Connect: a passphrase, empty if it has none, and a decision on a host key, if any. */
  datatype Request = Request(secret: string, accept: Option<bool>)

  /** Where a Connect call of one client stands. */
  datatype Call =
    | Idle
    | GivePassphrase(request: Request)
    | GiveDecision(decision: bool)
    | ReadCount
    | ReadMessage
    | ReadStatus
    | ReadDone(seen: Status)                   // Done() compares with Succeeded
    | ReadDone2(seen: Status)                  // ... and, in a second read, with Failed
    | WaitDone
    | WaitDone2
    | Register
    | Registered                               // on the list, about to receive
    | Blocked                                  // parked in the receive
    | FinalStatus
    | FinalFingerprint(final: Status)

  datatype Client = Client(count: nat, call: Call, out: seq<Message>)

  /** A goroutine in Wait. */
  datatype Waiter = Connector | Caller(id: Id)

  /** What happened, latest first. */
  datatype Record =
    | Took(i: nat)                             // the next address of the list
    | Dialed(i: nat, ok: bool)                 // how DialTimeout ended
    | HandshakeStarted(i: nat)
    | KeyShown(i: nat, offer: Offer)           // the host-key callback is called
    | NotAsked(offer: Offer)                   // no client there to ask
    | Prompted(offer: Offer)
    | Answered(id: Id, accept: bool)           // AcceptHostKey took effect
    | Received(offer: Offer, accept: bool)     // the callback got its decision
    | Persisted(offer: Offer, ok: bool)        // appendKnownHost was called, and how it ended
    | PasswordAsked                            // the password callback is called
    | PassphraseGiven(id: Id, secret: string)  // SetPassphrase took effect
    | PassphraseUsed(secret: string)           // the password callback returns it
    | BannerShown(text: string)                // the banner callback is called
    | HandshakeEnded(i: nat, ok: bool)         // how NewClientConn ended
    | Connected(i: nat)                        // the client connection is stored
    | Called(id: Id, request: Request)         // a client calls Connect
    | Returned(id: Id, out: seq<Message>, status: Status, fingerprint: Option<Fingerprint>)
    | Errored(id: Id)                          // ... which returns an error

  datatype Log = Empty | Then(prev: Log, last: Record)

  datatype State = State(
    pc: Pc,
    status: Status,
    messages: seq<Message>,
    passphrase: string,
    interactive: bool,
    pending: Option<Offer>,                    // pendingHostKey
    decision: seq<bool>,                       // content of its channel, which has room for one
    waiting: seq<Waiter>,
    hostKey: HostKey,
    clients: map<Id, Client>,
    log: Log)

  function Init(interactive: bool): State {
    State(NextAddress(0), Initial, [], "", interactive, None, [], [], Unasked, map[], Empty)
  }

  function Logged(s: State, r: Record): State {
    s.(log := Then(s.log, r))
  }

  /** On the list of waiters: about to receive, or parked. */
  predicate InWait(pc: Pc) {
    pc.PwRegistered? || pc.PwBlocked?
  }

  predicate Waits(call: Call) {
    call.Registered? || call.Blocked?
  }

  function Wake(c: Client): Client {
    if Waits(c.call) then c.(call := ReadCount) else c
  }

  function Woken(clients: map<Id, Client>): map<Id, Client> {
    map id | id in clients :: Wake(clients[id])
  }

  /** notifyWaitingLocked: everyone on the list goes on. A send to a goroutine that is only about to receive waits for
      it, and nothing that goroutine does before it is parked touches anything else. */
  function Notify(s: State): State {
    s.(waiting := [],
       pc := if InWait(s.pc) then PwLoop(s.pc.i) else s.pc,
       clients := Woken(s.clients))
  }

  function Print(s: State, msg: Message): State {
    Notify(s.(messages := s.messages + [msg]))
  }

  function Done(status: Status): bool {
    status.Succeeded? || status.Failed?
  }

  // ---------- the connector's goroutine ----------

  /** Choices of the network, the SSH library and the file system. */
  datatype Env =
    | Proceed
    | Outcome(ok: bool)
    | AskHostKey(key: Key)
    | AskPassword
    | ShowBanner(text: string)

  predicate Dials(pc: Pc) {
    pc.NextAddress? || pc.SetConnecting? || pc.Dialing? || pc.SetHandshake?
  }

  /** Inside the host-key callback. */
  predicate InPrompt(pc: Pc) {
    pc.Refusing? || pc.CheckInteractive? || pc.Prompting? || pc.AwaitDecision? || pc.ClearPrompt? ||
    pc.Persisting? || pc.PrintAdded?
  }

  /** Inside the password callback, before a passphrase was seen. */
  predicate Asking(pc: Pc) {
    pc.PwLoop? || pc.PwCheck? || pc.PwWait? || pc.PwRegister? || InWait(pc)
  }

  predicate InPassword(pc: Pc) {
    Asking(pc) || pc.PwStart? || pc.PwTake? || pc.PwClear? || pc.PwStatus? || pc.PwNotify?
  }

  predicate Finishes(pc: Pc) {
    pc.PrintSucceeded? || pc.StoreClient? || pc.SetSucceeded? || pc.FinishCheck? || pc.FinishFail? ||
    pc.FinishNotify? || pc.Stopped?
  }

  function ConnectorStep(cfg: Config, s: State, env: Env): Option<State> {
    if Dials(s.pc) then DialStep(cfg, s, env)
    else if s.pc.InHandshake? then HandshakeStep(cfg, s, s.pc.i, env)
    else if InPrompt(s.pc) then PromptStep(s, env)
    else if InPassword(s.pc) then PasswordStep(s)
    else FinishStep(s)
  }

  /** The loop over the addresses. */
  function DialStep(cfg: Config, s: State, env: Env): Option<State>
    requires Dials(s.pc)
  {
    match s.pc
    case NextAddress(i) =>
      if i < |cfg.addresses| then Some(Logged(Print(s, Trying(i)), Took(i)).(pc := SetConnecting(i)))
      else Some(s.(pc := FinishCheck))
    case SetConnecting(i) => Some(s.(status := Connecting, pc := Dialing(i)))
    case Dialing(i) =>
      if !env.Outcome? then None
      else if env.ok then Some(Logged(s, Dialed(i, true)).(pc := SetHandshake(i)))
      else Some(Logged(Print(s, ConnectFailed(i)), Dialed(i, false)).(pc := NextAddress(i + 1)))
    case SetHandshake(i) =>
      Some(Logged(s, HandshakeStarted(i)).(status := Handshake, hostKey := Unasked, pc := InHandshake(i)))
  }

  /** The host-key callback for a key that known_hosts does not vouch for. */
  function PromptStep(s: State, env: Env): Option<State>
    requires InPrompt(s.pc)
  {
    match s.pc
    case Refusing(i, msg) => Some(Print(s, msg).(hostKey := Refused, pc := InHandshake(i)))
    case CheckInteractive(i, offer) =>
      Some(if s.interactive then s.(pc := Prompting(i, offer))
           else Logged(s, NotAsked(offer)).(pc := Refusing(i, HostNotKnown(offer))))
    case Prompting(i, offer) =>
      Some(Logged(Print(s, Unverified(offer)), Prompted(offer)).(pending := Some(offer), decision := [],
           status := UnknownHostKey, pc := AwaitDecision(i, offer)))
    case AwaitDecision(i, offer) =>
      if s.decision == [] then None
      else Some(Logged(s, Received(offer, s.decision[0])).(decision := s.decision[1..],
                pc := ClearPrompt(i, offer, s.decision[0])))
    case ClearPrompt(i, offer, accepted) =>
      Some(s.(pending := None, hostKey := if accepted then s.hostKey else Refused,
              pc := if accepted then Persisting(i, offer) else InHandshake(i)))
    case Persisting(i, offer) =>
      if !env.Outcome? then None
      else Some(Logged(s, Persisted(offer, env.ok)).(hostKey := if env.ok then s.hostKey else Approved,
                pc := if env.ok then PrintAdded(i, offer) else InHandshake(i)))
    case PrintAdded(i, offer) =>
      Some(Print(s, AddedToKnownHosts(offer.host)).(hostKey := Approved, pc := InHandshake(i)))
  }

  /** The password callback. */
  function PasswordStep(s: State): Option<State>
    requires InPassword(s.pc)
  {
    match s.pc
    case PwStart(i) => Some(s.(status := NeedPassphrase, pc := PwLoop(i)))
    case PwLoop(i) => Some(s.(pc := if Done(s.status) then InHandshake(i) else PwCheck(i)))
    case PwCheck(i) => Some(s.(pc := if s.passphrase != "" then PwTake(i) else PwWait(i)))
    case PwTake(i) => Some(s.(pc := PwClear(i, s.passphrase)))
    case PwClear(i, secret) => Some(s.(passphrase := "", pc := PwStatus(i, secret)))
    case PwStatus(i, secret) => Some(s.(status := Handshake, pc := PwNotify(i, secret)))
    case PwNotify(i, secret) => Some(Logged(Notify(s), PassphraseUsed(secret)).(pc := InHandshake(i)))
    case PwWait(i) => Some(s.(pc := if Done(s.status) then PwLoop(i) else PwRegister(i)))
    case PwRegister(i) => Some(s.(waiting := s.waiting + [Connector], pc := PwRegistered(i)))
    case PwRegistered(i) => Some(s.(pc := PwBlocked(i)))
    case PwBlocked(_) => None
  }

  /** After the handshake, or after the last address. */
  function FinishStep(s: State): Option<State>
    requires Finishes(s.pc)
  {
    match s.pc
    case PrintSucceeded(i) => Some(Print(s, HandshakeSucceeded(i)).(pc := StoreClient(i)))
    case StoreClient(i) => Some(Logged(s, Connected(i)).(pc := SetSucceeded(i)))
    case SetSucceeded(_) => Some(s.(status := Succeeded, pc := FinishCheck))
    case FinishCheck => Some(s.(pc := if s.status.Succeeded? then FinishNotify else FinishFail))
    case FinishFail => Some(s.(status := Failed, pc := FinishNotify))
    case FinishNotify => Some(Notify(s).(pc := Stopped))
    case Stopped => None
  }

  /** The host-key callback after the lookup in known_hosts. */
  function Judged(s: State, i: nat, offer: Offer, verdict: Verdict): State {
    match verdict
    case Match => s.(hostKey := Approved)
    case LookupError => s.(hostKey := Refused)
    case Mismatch => s.(pc := Refusing(i, HostKeyChanged(offer)))
    case Unknown => s.(pc := CheckInteractive(i, offer))
  }

  /** Inside NewClientConn the library may call any callback, any number of times, until the host key is refused;
      it succeeds only if the host-key callback was called and never returned an error. */
  function HandshakeStep(cfg: Config, s: State, i: nat, env: Env): Option<State> {
    match env
    case Proceed => None
    case ShowBanner(text) => Some(Logged(Print(s, Banner(text)), BannerShown(text)))
    case AskPassword => Some(Logged(s, PasswordAsked).(pc := PwStart(i)))
    case AskHostKey(key) =>
      if s.hostKey.Refused? || i >= |cfg.addresses| then None
      else
        var offer := Offer(cfg.addresses[i], key);
        Some(Judged(Logged(s, KeyShown(i, offer)), i, offer, Verify(cfg, offer)))
    case Outcome(ok) =>
      if !ok then Some(Logged(Print(s, HandshakeFailed(i)), HandshakeEnded(i, false)).(pc := NextAddress(i + 1)))
      else if s.hostKey.Approved? then Some(Logged(s, HandshakeEnded(i, true)).(pc := PrintSucceeded(i)))
      else None
  }

  // ---------- Connect calls ----------

  function At(s: State, id: Id, call: Call): State
    requires id in s.clients
  {
    s.(clients := s.clients[id := s.clients[id].(call := call)])
  }

  /** After the passphrase, the decision if there is one, then the loop. */
  function AfterPassphrase(accept: Option<bool>): Call {
    if accept.Some? then GiveDecision(accept.value) else ReadCount
  }

  /** SetPassphrase; the server ignores its error. */
  function SetPassphrase(s: State, id: Id, secret: string): State {
    if !s.status.NeedPassphrase? then s
    else Notify(Logged(s, PassphraseGiven(id, secret)).(passphrase := secret, status := Handshake))
  }

  /** AcceptHostKey past its status check: a send on the pending prompt's channel, under the lock. */
  function AcceptHostKey(s: State, id: Id, accept: bool): Option<State> {
    if s.pending.None? || s.decision != [] then None
    else Some(Notify(Logged(s, Answered(id, accept)).(status := Handshake, decision := [accept])))
  }

  predicate Gives(call: Call) {
    call.GivePassphrase? || call.GiveDecision?
  }

  predicate Ends(call: Call) {
    call.FinalStatus? || call.FinalFingerprint?
  }

  function ClientStep(s: State, id: Id): Option<State>
    requires id in s.clients
  {
    var call := s.clients[id].call;
    if call.Idle? || call.Blocked? then None
    else if Gives(call) then GiveStep(s, id)
    else if call.ReadMessage? then ReadStep(s, id)
    else if Ends(call) then Some(EndStep(s, id))
    else Some(MoveStep(s, id))
  }

  function GiveStep(s: State, id: Id): Option<State>
    requires id in s.clients && Gives(s.clients[id].call)
  {
    match s.clients[id].call
    case GivePassphrase(request) =>
      var t := if request.secret != "" then SetPassphrase(s, id, request.secret) else s;
      Some(At(t, id, AfterPassphrase(request.accept)))
    case GiveDecision(decision) =>
      if !s.status.UnknownHostKey? then Some(Logged(At(s, id, Idle), Errored(id)))
      else
        match AcceptHostKey(s, id, decision)
        case None => None
        case Some(t) => Some(At(t, id, ReadCount))
  }

  /** Message(i) under the read lock; out of range it would panic. */
  function ReadStep(s: State, id: Id): Option<State>
    requires id in s.clients
  {
    var c := s.clients[id];
    if c.count >= |s.messages| then None
    else Some(s.(clients := s.clients[id := Client(c.count + 1, ReadCount, c.out + [s.messages[c.count]])]))
  }

  /** The loop: what the call does next depends on what it reads. */
  function MoveStep(s: State, id: Id): State
    requires id in s.clients
  {
    var c := s.clients[id];
    At(if c.call.Register? then s.(waiting := s.waiting + [Caller(id)]) else s, id, NextCall(s, c))
  }

  function NextCall(s: State, c: Client): Call {
    match c.call
    case ReadCount => if c.count < |s.messages| then ReadMessage else ReadStatus
    case ReadStatus => ReadDone(s.status)
    case ReadDone(seen) => if s.status.Succeeded? then FinalStatus else ReadDone2(seen)
    case ReadDone2(seen) =>
      if s.status.Failed? || seen.NeedPassphrase? || seen.UnknownHostKey? then FinalStatus else WaitDone
    case WaitDone => if s.status.Succeeded? then ReadCount else WaitDone2
    case WaitDone2 => if s.status.Failed? then ReadCount else Register
    case Register => Registered
    case Registered => Blocked
    case _ => c.call
  }

  function EndStep(s: State, id: Id): State
    requires id in s.clients && Ends(s.clients[id].call)
  {
    match s.clients[id].call
    case FinalStatus =>
      if s.status.UnknownHostKey? then At(s, id, FinalFingerprint(s.status)) else Return(s, id, s.status, None)
    case FinalFingerprint(final) =>
      Return(s, id, final, if s.pending.Some? then Some(Sha256(s.pending.value.key)) else None)
  }

  function Return(s: State, id: Id, status: Status, fingerprint: Option<Fingerprint>): State
    requires id in s.clients
  {
    var c := s.clients[id];
    Logged(s, Returned(id, c.out, status, fingerprint)).(clients := s.clients[id := Client(c.count, Idle, [])])
  }

  // ---------- runs ----------

  datatype Event =
    | Go(env: Env)                             // a step of the connector
    | Join(id: Id, request: Request)           // Connect without an id: a new client
    | Begin(id: Id, request: Request)          // Connect with an id
    | Step(id: Id)                             // a step of that client's call

  function Next(cfg: Config, s: State, e: Event): Option<State> {
    match e
    case Go(env) => ConnectorStep(cfg, s, env)
    case Join(id, request) =>
      if id in s.clients then None
      else
        var clients := s.clients[id := Client(0, GivePassphrase(request), [])];
        Some(Logged(s, Called(id, request)).(interactive := true, clients := clients))
    case Begin(id, request) =>
      if id in s.clients && s.clients[id].call.Idle? then
        Some(Logged(At(s, id, GivePassphrase(request)), Called(id, request)))
      else None
    case Step(id) => if id in s.clients then ClientStep(s, id) else None
  }

  /** The state after the first `k` events of `run`, if each of them is possible. */
  function Run(cfg: Config, interactive: bool, run: seq<Event>, k: nat): Option<State>
    requires k <= |run|
  {
    if k == 0 then Some(Init(interactive))
    else
      match Run(cfg, interactive, run, k - 1)
      case None => None
      case Some(s) => Next(cfg, s, run[k - 1])
  }

  /** The whole run is possible and ends in `s`. */
  predicate Reaches(cfg: Config, interactive: bool, run: seq<Event>, s: State) {
    Run(cfg, interactive, run, |run|) == Some(s)
  }

  /** Says that a step is to be looked into; without it no step is unfolded. */
  predicate Look(z: bool) {
    true
  }

  /** The first `k` events of the run are possible and end in `s`. */
  ghost predicate Arrives(cfg: Config, interactive: bool, run: seq<Event>, k: nat, s: State) {
    k <= |run| && forall z {:trigger Look(z)} :: Look(z) ==> Run(cfg, interactive, run, k) == Some(s)
  }

  ghost predicate Follows(cfg: Config, s: State, e: Event, s': State) {
    forall z {:trigger Look(z)} :: Look(z) ==> Next(cfg, s, e) == Some(s')
  }

  /** The state before the `k`-th event. */
  lemma LastEvent(cfg: Config, interactive: bool, run: seq<Event>, k: nat, s: State) returns (t: State)
    requires k > 0 && Arrives(cfg, interactive, run, k, s)
    ensures Arrives(cfg, interactive, run, k - 1, t) && Follows(cfg, t, run[k - 1], s)
  {
    assert Look(true);
    t := Run(cfg, interactive, run, k - 1).value;
  }

  lemma FirstState(cfg: Config, interactive: bool, run: seq<Event>, s: State)
    requires Arrives(cfg, interactive, run, 0, s)
    ensures s == Init(interactive)
  {
    assert Look(true);
  }
}
