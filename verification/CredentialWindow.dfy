/** The credential window's controller (components/credentials/src/CredentialController.cpp): what each of
    its methods does to its fields, first as a function of the whole state and then as the class that runs
    it step by step. */
module CredentialWindow {
  import opened Wrappers
  import opened AgentPeer

  datatype State =
    | AgentUnavailable | NoCard | NotManageable | Loading | Ready | Empty | Working | Result | ReadFailed

  datatype Kind = User | Sign | Puk | Can | Unknown

  datatype Record = Record(id: string, kind: Kind, keyActivationPending: bool)

  datatype Status = Ok | Cancelled | Failed

  datatype ErrorCode = NoError | CardRemovedError | CommunicationError | OtherError(code: nat)

  datatype Outcome =
    | Unspecified | Done | UserCancelled | InvalidPin | Blocked | MissingFields | KeyActivationFailed
    | Unsupported | CardRemoved | EntryExpired | PluginError

  /** The name an agent refuses a verb with at method entry. */
  datatype SyncError = UnknownCredential | RateLimited | InvalidRequest | OtherRefusal(name: nat)

  /** Banner text, by what it was composed from; the sentences themselves are localization. */
  datatype Message =
    | NoMessage
    | OutcomeText(outcome: Outcome, presented: Kind, retriesLeft: Option<int>)
    | FailureText(errorCode: ErrorCode, callError: nat, key: string, fallback: string)
    | RefusalText(named: SyncError)

  datatype ListReport = ListReport(status: Status, records: seq<Record>)

  datatype MutationReport = MutationReport(
    status: Status, errorCode: ErrorCode, callError: nat, outcome: Outcome, retriesLeft: Option<int>,
    named: Option<SyncError>, key: string, fallback: string)

  datatype Verb =
    | ChangePin(id: string) | Activate(id: string) | ActivateKeyOnly(id: string) | ConfirmUnblock(id: string)

  /** Every field of the controller. `listedFrom` is the one the source does not have: the card the rows in
      `records` were read from. */
  datatype Window = Window(
    state: State,
    card: Option<nat>,
    listOp: Option<nat>,
    mutationOp: Option<nat>,
    records: seq<Record>,
    listedFrom: Option<nat>,
    readerId: string,
    resolvedReaderId: string,
    resultIsError: bool,
    resultMessage: Message,
    removalNotice: Message,
    pendingKind: Kind,
    showingResult: bool,
    mutationCancelRequested: bool,
    listCancelRequested: bool,
    settled: bool,
    peer: Peer)

  // ---- Binding and classification ----

  function ResetList(w: Window): Window {
    w.(listOp := None, peer := Abandon(w.peer, w.listOp),
       settled := false, listCancelRequested := false, showingResult := false)
  }

  function DetachMutation(w: Window): Window {
    w.(mutationOp := None, peer := Abandon(w.peer, w.mutationOp),
       mutationCancelRequested := false, pendingKind := Unknown)
  }

  function BindCard(w: Window, card: Option<nat>): Window {
    if card.Some? && w.card == card then w
    else
      var v := DetachMutation(ResetList(w));
      v.(card := card,
         removalNotice := if card.Some? then NoMessage else v.removalNotice,
         peer := Rewatch(v.peer, v.card, card))
  }

  /** Nothing to list: the rows go and the window rests in `state`. */
  function Clear(w: Window, state: State): Window {
    ResetList(w).(records := [], listedFrom := None, state := state)
  }

  function StartList(w: Window): Window {
    if w.card.None? then Clear(w, NoCard)
    else if w.mutationOp.Some? || w.listOp.Some? || w.settled then w
    else
      var op := |w.peer.log|;
      var minted := Mint(w.peer, ListCredentials, w.card.value);
      w.(listOp := Some(op),
         peer := minted.(listSlots := minted.listSlots + {op}),
         state := if w.showingResult then w.state else Loading)
  }

  function Classify(w: Window): Window {
    if w.card.None? then Clear(w, NoCard)
    else if !Manageable(w.peer.registry, w.card.value) then Clear(w, NotManageable)
    else StartList(w)
  }

  /** The reader the binding resolves to: the explicit one while it is listed, else the first with a card. */
  function ResolveReader(readerId: string, reg: Registry): Option<Reader> {
    var bound := if readerId == "" then None else FindReader(reg.readers, readerId);
    if bound.Some? then bound else FirstReaderWithCard(reg.readers)
  }

  /** No reader to manage: nothing stays bound. */
  function Unbind(w: Window, state: State): Window {
    BindCard(w.(resolvedReaderId := ""), None).(state := state)
  }

  function Retarget(w: Window, reader: Reader): Window {
    Classify(BindCard(w.(resolvedReaderId := reader.id), HeldCard(reader)))
  }

  function Refresh(w: Window): Window {
    if !w.peer.registry.available then Unbind(w, AgentUnavailable)
    else if w.mutationOp.Some? then w
    else
      match ResolveReader(w.readerId, w.peer.registry)
      case None => Unbind(w, NoCard)
      case Some(reader) => Retarget(w, reader)
  }

  function BindReader(w: Window, id: string): Window {
    var v := if w.mutationOp.Some? && id != w.resolvedReaderId then ResetList(DetachMutation(w)) else w;
    Refresh(v.(readerId := id))
  }

  // ---- Terminals ----

  function OnListFinished(w: Window, r: ListReport, from: nat): Window {
    var v := w.(listOp := None, listCancelRequested := false, showingResult := false);
    if r.status == Ok then
      v.(settled := true, records := r.records, listedFrom := Some(from),
         state := if r.records == [] then Empty else Ready)
    else
      v.(records := [], listedFrom := None,
         settled := w.listCancelRequested || r.status == Cancelled,
         state := ReadFailed)
  }

  function RelistAfterMutation(w: Window): Window {
    StartList(ResetList(w).(showingResult := true))
  }

  function OutcomeMessage(o: Outcome, presented: Kind, retriesLeft: Option<int>): Message {
    if o == UserCancelled then NoMessage else OutcomeText(o, presented, retriesLeft)
  }

  predicate IsNeutral(o: Outcome) {
    o == Done || o == UserCancelled
  }

  /** Whether the verb ended by the user's own cancel, as opposed to a sweep the client library made. */
  predicate WasCancelled(w: Window, r: MutationReport) {
    w.mutationCancelRequested ||
    (r.status == Cancelled && r.errorCode != CardRemovedError && r.errorCode != CommunicationError)
  }

  function EffectiveOutcome(w: Window, r: MutationReport): Outcome {
    if !WasCancelled(w, r) && r.outcome == Unspecified && r.errorCode == CardRemovedError then CardRemoved
    else r.outcome
  }

  function MutationMessage(w: Window, r: MutationReport): Message {
    var o := EffectiveOutcome(w, r);
    if WasCancelled(w, r) then
      if o == Unspecified then NoMessage else OutcomeMessage(o, w.pendingKind, r.retriesLeft)
    else if o == Unspecified then FailureText(r.errorCode, r.callError, r.key, r.fallback)
    else OutcomeMessage(o, w.pendingKind, r.retriesLeft)
  }

  predicate RefusalRelists(named: SyncError) {
    named != RateLimited && named != InvalidRequest
  }

  function HandleRefusal(w: Window, named: SyncError): Window {
    var v := w.(resultIsError := false, resultMessage := RefusalText(named), state := Result);
    if RefusalRelists(named) then RelistAfterMutation(v) else v
  }

  function OnMutationDone(w: Window, r: MutationReport): Window {
    var v := w.(mutationOp := None, mutationCancelRequested := false);
    if r.named.Some? then HandleRefusal(v, r.named.value)
    else
      var effective := EffectiveOutcome(w, r);
      var message := MutationMessage(w, r);
      var shown := v.(resultIsError := !WasCancelled(w, r) && !IsNeutral(effective), resultMessage := message);
      if effective == CardRemoved then shown.(removalNotice := message, state := Result)
      else RelistAfterMutation(shown.(state := Result))
  }

  // ---- User calls ----

  function Cancel(w: Window): Window {
    w.(mutationCancelRequested := w.mutationCancelRequested || w.mutationOp.Some?,
       listCancelRequested := w.listCancelRequested || w.listOp.Some?,
       peer := CancelOp(CancelOp(w.peer, w.mutationOp), w.listOp))
  }

  function RecordById(records: seq<Record>, id: string): Option<Record> {
    if records == [] then None
    else if records[0].id == id then Some(records[0])
    else RecordById(records[1..], id)
  }

  function KindOf(records: seq<Record>, id: string): Kind {
    var r := RecordById(records, id);
    if r.Some? then r.value.kind else Unknown
  }

  /** The credential kind a verb presents, for the attribution of its result. */
  function PresentedKind(records: seq<Record>, v: Verb): Kind {
    match v
    case ChangePin(id) => KindOf(records, id)
    case Activate(id) => KindOf(records, id)
    case ActivateKeyOnly(_) => Sign
    case ConfirmUnblock(_) => Puk
  }

  function VerbRequest(records: seq<Record>, v: Verb): Request {
    match v
    case ChangePin(id) => ManagePin(id, Change, false)
    case Activate(id) =>
      var r := RecordById(records, id);
      ManagePin(id, ActivatePin, r.Some? && r.value.keyActivationPending)
    case ActivateKeyOnly(_) => ActivateSigningKey
    case ConfirmUnblock(id) => ManagePin(id, Unblock, false)
  }

  predicate CanStartMutation(w: Window) {
    w.card.Some? && w.mutationOp.None?
  }

  /** Adopt the mutation `op`, minted on the bound card. */
  function BeginMutation(w: Window, op: nat, presented: Kind): Window {
    var v := w.(pendingKind := presented, removalNotice := NoMessage);
    var u := if v.listOp.Some? then ResetList(v) else v;
    u.(mutationOp := Some(op), mutationCancelRequested := false, state := Working,
       peer := u.peer.(mutationSlots := u.peer.mutationSlots + {op}))
  }

  function RunVerb(w: Window, v: Verb): Window {
    if !CanStartMutation(w) then w
    else
      var minted := w.(peer := Mint(w.peer, VerbRequest(w.records, v), w.card.value));
      BeginMutation(minted, |w.peer.log|, PresentedKind(w.records, v))
  }

  // ---- The environment ----

  /** What an operation reports when it terminates; only the half its kind has is read. */
  datatype Terminal = Terminal(op: nat, list: ListReport, mutation: MutationReport)

  /** The operation terminates, and whichever slot is connected to it runs. The slots are handed the
      operation but never compare it with the tracked one. */
  function Deliver(w: Window, t: Terminal): Window {
    if t.op !in w.peer.live || t.op >= |w.peer.log| then w
    else
      var v := w.(peer := w.peer.(live := w.peer.live - {t.op}));
      var u := if t.op in v.peer.listSlots then OnListFinished(v, t.list, v.peer.log[t.op].card) else v;
      if t.op in v.peer.mutationSlots then OnMutationDone(u, t.mutation) else u
  }

  function DeliverAll(w: Window, ts: seq<Terminal>): Window
    decreases |ts|
  {
    if ts == [] then w else DeliverAll(Deliver(w, ts[0]), ts[1..])
  }

  function CardLeft(reg: Registry, card: Option<nat>): Option<nat> {
    if card.Some? && !CardLive(reg, card.value) then None else card
  }

  function OpLeft(p: Peer, reg: Registry, op: Option<nat>): Option<nat> {
    if op.Some? && OnLostCard(p, reg, op.value) then None else op
  }

  /** The `QPointer`s into deleted cards and their operations become null. */
  function Lose(w: Window, reg: Registry): Window {
    w.(card := CardLeft(reg, w.card), listOp := OpLeft(w.peer, reg, w.listOp),
       mutationOp := OpLeft(w.peer, reg, w.mutationOp), peer := DestroyLost(w.peer, reg))
  }

  datatype Event =
    | RegistryChanged(reg: Registry, sweep: seq<Terminal>)
    | CapabilityChanged(reg: Registry, card: nat)
    | Finished(terminal: Terminal)
    | RefreshCalled
    | ReaderBound(id: string)
    | VerbCalled(verb: Verb)
    | CancelCalled

  /** One event, to its end. A registry change first terminates the operations on the cards it takes away,
      then deletes those cards, and only then reaches the window as a signal. */
  function Step(w: Window, e: Event): Window {
    match e
    case RegistryChanged(reg, sweep) => Refresh(Lose(DeliverAll(w, sweep), reg))
    case CapabilityChanged(reg, card) =>
      var v := w.(peer := w.peer.(registry := reg));
      if card in v.peer.watched then Classify(v) else v
    case Finished(t) => Deliver(w, t)
    case RefreshCalled => Refresh(w)
    case ReaderBound(id) => BindReader(w, id)
    case VerbCalled(v) => RunVerb(w, v)
    case CancelCalled => Cancel(w)
  }

  function Run(w: Window, events: seq<Event>): Window
    decreases |events|
  {
    if events == [] then w else Run(Step(w, events[0]), events[1..])
  }

  /** The window as constructed, over the client library in any state of its own. */
  function Initial(reg: Registry): Window {
    Window(NoCard, None, None, None, [], None, "", "", false, NoMessage, NoMessage, Unknown,
           false, false, false, false, Peer(reg, [], {}, {}, {}, {}, {}))
  }
}
