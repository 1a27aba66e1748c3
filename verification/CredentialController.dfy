/** The credential window's controller as the object it is: one field per member of the source's class, one
    method per method, each leaving behind exactly the state that CredentialWindow defines for it; every event
    keeps the invariant. */
module CredentialController {
  import opened Wrappers
  import opened AgentPeer
  import opened W = CredentialWindow
  import opened CredentialProtocol

  class Controller {
    var state: State
    var card: Option<nat>
    var listOp: Option<nat>
    var mutationOp: Option<nat>
    var records: seq<Record>
    ghost var listedFrom: Option<nat>
    var readerId: string
    var resolvedReaderId: string
    var resultIsError: bool
    var resultMessage: Message
    var removalNotice: Message
    var pendingKind: Kind
    var showingResult: bool
    var mutationCancelRequested: bool
    var listCancelRequested: bool
    var settled: bool
    var peer: Peer

    ghost function View(): Window
      reads this
    {
      Window(state, card, listOp, mutationOp, records, listedFrom, readerId, resolvedReaderId, resultIsError,
             resultMessage, removalNotice, pendingKind, showingResult, mutationCancelRequested,
             listCancelRequested, settled, peer)
    }

    constructor (registry: Registry)
      ensures View() == Initial(registry)
      ensures CardsDistinct(registry) ==> Inv(View())
    {
      state, card, listOp, mutationOp := NoCard, None, None, None;
      records, listedFrom := [], None;
      readerId, resolvedReaderId := "", "";
      resultIsError, resultMessage, removalNotice, pendingKind := false, NoMessage, NoMessage, Unknown;
      showingResult, mutationCancelRequested, listCancelRequested, settled := false, false, false, false;
      peer := Peer(registry, [], {}, {}, {}, {}, {});
    }

    method TransitionTo(next: State)
      modifies this
      ensures View() == old(View()).(state := next)
    {
      if next == state {
        return;
      }
      state := next;
    }

    method SetResult(isError: bool, message: Message)
      modifies this
      ensures View() == old(View()).(resultIsError := isError, resultMessage := message)
    {
      if resultIsError == isError && resultMessage == message {
        return;
      }
      resultIsError, resultMessage := isError, message;
    }

    method SetRemovalNotice(notice: Message)
      modifies this
      ensures View() == old(View()).(removalNotice := notice)
    {
      if removalNotice == notice {
        return;
      }
      removalNotice := notice;
    }

    /** Replace the model's rows, read from the card `from` when there is one. */
    method SetRecords(rows: seq<Record>, ghost from: Option<nat>)
      modifies this
      ensures View() == old(View()).(records := rows, listedFrom := from)
    {
      records, listedFrom := rows, from;
    }

    method ResetListState()
      modifies this
      ensures View() == ResetList(old(View()))
    {
      if listOp.Some? {
        peer := Abandon(peer, listOp);
        listOp := None;
      }
      settled := false;
      listCancelRequested := false;
      showingResult := false;
    }

    method DetachMutationOp()
      modifies this
      ensures View() == DetachMutation(old(View()))
    {
      if mutationOp.Some? {
        peer := Abandon(peer, mutationOp);
        mutationOp := None;
      }
      mutationCancelRequested := false;
      pendingKind := Unknown;
    }

    method Bind(next: Option<nat>)
      modifies this
      ensures View() == BindCard(old(View()), next)
    {
      if next.Some? && card == next {
        return;
      }
      ResetListState();
      DetachMutationOp();
      peer := Rewatch(peer, card, next);
      card := next;
      if card.Some? {
        SetRemovalNotice(NoMessage);
      }
    }

    method ClearRows(next: State)
      modifies this
      ensures View() == Clear(old(View()), next)
    {
      ResetListState();
      SetRecords([], None);
      TransitionTo(next);
    }

    method StartListCredentials()
      modifies this
      ensures View() == StartList(old(View()))
    {
      if card.None? {
        ClearRows(NoCard);
        return;
      }
      if mutationOp.Some? {
        return;
      }
      if listOp.Some? || settled {
        return;
      }
      var op := |peer.log|;
      peer := Mint(peer, ListCredentials, card.value);
      listOp := Some(op);
      if !showingResult {
        TransitionTo(Loading);
      }
      peer := peer.(listSlots := peer.listSlots + {op});
    }

    method ClassifyCard()
      modifies this
      ensures View() == Classify(old(View()))
    {
      if card.None? {
        ClearRows(NoCard);
        return;
      }
      if !Manageable(peer.registry, card.value) {
        ClearRows(NotManageable);
        return;
      }
      StartListCredentials();
    }

    method RefreshNow()
      modifies this
      ensures View() == Refresh(old(View()))
    {
      if !peer.registry.available {
        resolvedReaderId := "";
        Bind(None);
        TransitionTo(AgentUnavailable);
        return;
      }
      if mutationOp.Some? {
        return;
      }
      var reader := if readerId == "" then None else FindReader(peer.registry.readers, readerId);
      if reader.None? {
        reader := ScanForCard(peer.registry.readers);
      }
      if reader.None? {
        resolvedReaderId := "";
        Bind(None);
        TransitionTo(NoCard);
        return;
      }
      resolvedReaderId := reader.value.id;
      Bind(HeldCard(reader.value));
      ClassifyCard();
    }

    /** The window asks for a fresh look of its own accord. */
    method RefreshAsked()
      modifies this
      ensures View() == Step(old(View()), RefreshCalled)
      ensures old(Inv(View())) ==> Inv(View())
    {
      ghost var was := View();
      RefreshNow();
      if Inv(was) {
        RefreshInv(was);
      }
    }

    method BindTo(id: string)
      modifies this
      ensures View() == BindReader(old(View()), id)
      ensures old(Inv(View())) ==> Inv(View())
    {
      ghost var was := View();
      if mutationOp.Some? && id != resolvedReaderId {
        DetachMutationOp();
        ResetListState();
      }
      readerId := id;
      RefreshNow();
      if Inv(was) {
        BindReaderInv(was, id);
      }
    }

    /** Drop the tracked listing and consume the cancel asked of it. */
    method ReleaseListOp() returns (cancelRequested: bool)
      modifies this
      ensures View() == old(View()).(listOp := None, listCancelRequested := false, showingResult := false)
      ensures cancelRequested == old(View()).listCancelRequested
    {
      listOp := None;
      cancelRequested := listCancelRequested;
      listCancelRequested := false;
      showingResult := false;
    }

    method ListFinished(r: ListReport, ghost from: nat)
      modifies this
      ensures View() == OnListFinished(old(View()), r, from)
    {
      var cancelRequested := ReleaseListOp();
      if r.status == Status.Ok {
        settled := true;
        SetRecords(r.records, Some(from));
        TransitionTo(if r.records == [] then Empty else Ready);
        return;
      }
      SetRecords([], None);
      settled := cancelRequested || r.status == Cancelled;
      TransitionTo(ReadFailed);
    }

    method Relist()
      modifies this
      ensures View() == RelistAfterMutation(old(View()))
    {
      ResetListState();
      showingResult := true;
      StartListCredentials();
    }

    method Refused(named: SyncError)
      modifies this
      ensures View() == HandleRefusal(old(View()), named)
    {
      SetResult(false, RefusalText(named));
      TransitionTo(State.Result);
      match named
      case UnknownCredential => Relist();
      case RateLimited =>
      case InvalidRequest =>
      case OtherRefusal(_) => Relist();
    }

    /** Drop the tracked verb and consume the cancel asked of it. */
    method ReleaseMutationOp() returns (cancelRequested: bool)
      modifies this
      ensures View() == old(View()).(mutationOp := None, mutationCancelRequested := false)
      ensures cancelRequested == old(View()).mutationCancelRequested
    {
      mutationOp := None;
      cancelRequested := mutationCancelRequested;
      mutationCancelRequested := false;
    }

    /** The banner for a verb that was not refused: its colour, its text, and the outcome behind them. */
    method Judge(r: MutationReport, cancelRequested: bool) returns (isError: bool, message: Message, effective: Outcome)
      ensures forall w: Window :: w.mutationCancelRequested == cancelRequested && w.pendingKind == pendingKind ==>
                && effective == EffectiveOutcome(w, r) && message == MutationMessage(w, r)
                && isError == (!WasCancelled(w, r) && !IsNeutral(effective))
    {
      var sweepTerminated := r.errorCode == CardRemovedError || r.errorCode == CommunicationError;
      var cancelled := cancelRequested || (r.status == Cancelled && !sweepTerminated);
      effective := r.outcome;
      if !cancelled && r.outcome == Unspecified && r.errorCode == CardRemovedError {
        effective := CardRemoved;
      }
      isError := !cancelled && !IsNeutral(effective) && effective != Done;
      if cancelled {
        message := if effective == Unspecified then NoMessage
                   else OutcomeMessage(effective, pendingKind, r.retriesLeft);
      } else if effective == Unspecified {
        message := FailureText(r.errorCode, r.callError, r.key, r.fallback);
      } else {
        message := OutcomeMessage(effective, pendingKind, r.retriesLeft);
      }
    }

    method MutationDone(r: MutationReport)
      modifies this
      ensures View() == OnMutationDone(old(View()), r)
    {
      var cancelRequested := ReleaseMutationOp();
      if r.named.Some? {
        Refused(r.named.value);
        return;
      }
      var isError, message, effective := Judge(r, cancelRequested);
      assert effective == EffectiveOutcome(old(View()), r) && message == MutationMessage(old(View()), r);
      SetResult(isError, message);
      if effective == CardRemoved {
        SetRemovalNotice(message);
        TransitionTo(State.Result);
        return;
      }
      TransitionTo(State.Result);
      Relist();
    }

    /** Remember that the user cancelled, then ask the agent to. */
    method RequestMutationCancel()
      modifies this
      ensures View() == old(View()).(mutationCancelRequested := true,
                                     peer := CancelOp(old(View()).peer, old(View()).mutationOp))
    {
      mutationCancelRequested := true;
      peer := CancelOp(peer, mutationOp);
    }

    method RequestListCancel()
      modifies this
      ensures View() == old(View()).(listCancelRequested := true,
                                     peer := CancelOp(old(View()).peer, old(View()).listOp))
    {
      listCancelRequested := true;
      peer := CancelOp(peer, listOp);
    }

    method CancelInFlight()
      modifies this
      ensures View() == Cancel(old(View()))
      ensures old(Inv(View())) ==> Inv(View())
    {
      ghost var was := View();
      if mutationOp.Some? {
        RequestMutationCancel();
      }
      if listOp.Some? {
        RequestListCancel();
      }
      if Inv(was) {
        CancelInv(was);
      }
    }

    method Track(op: nat)
      modifies this
      ensures View() == old(View()).(mutationOp := Some(op), mutationCancelRequested := false)
    {
      mutationOp := Some(op);
      mutationCancelRequested := false;
    }

    method AdoptMutation(op: nat, presented: Kind)
      modifies this
      ensures View() == BeginMutation(old(View()), op, presented)
    {
      pendingKind := presented;
      SetRemovalNotice(NoMessage);
      if listOp.Some? {
        ResetListState();
      }
      Track(op);
      TransitionTo(Working);
      peer := peer.(mutationSlots := peer.mutationSlots + {op});
    }

    method MintVerb(v: Verb, presented: Kind) returns (op: nat)
      requires card.Some?
      modifies this
      ensures op == |old(View()).peer.log|
      ensures View() == old(View()).(
                pendingKind := presented,
                peer := Mint(old(View()).peer, VerbRequest(old(View()).records, v), old(View()).card.value))
    {
      pendingKind := presented;
      op := |peer.log|;
      peer := Mint(peer, VerbRequest(records, v), card.value);
    }

    method CallVerb(v: Verb)
      modifies this
      ensures View() == RunVerb(old(View()), v)
      ensures old(Inv(View())) ==> Inv(View())
    {
      ghost var was := View();
      if card.Some? && mutationOp.None? {
        var presented := PresentedKind(records, v);
        var op := MintVerb(v, presented);
        AdoptMutation(op, presented);
      }
      if Inv(was) {
        RunVerbInv(was, v);
      }
    }

    /** The operation ends on the agent's side. */
    method Retire(op: nat)
      modifies this
      ensures View() == old(View()).(peer := old(View()).peer.(live := old(View()).peer.live - {op}))
    {
      peer := peer.(live := peer.live - {op});
    }

    /** An operation terminates: whichever slot is connected to it runs. */
    method Terminate(t: Terminal)
      modifies this
      ensures View() == Deliver(old(View()), t)
      ensures old(Inv(View())) ==> Inv(View())
    {
      ghost var was := View();
      if t.op in peer.live && t.op < |peer.log| {
        Retire(t.op);
        var toMutation := t.op in peer.mutationSlots;
        if t.op in peer.listSlots {
          ListFinished(t.list, peer.log[t.op].card);
        }
        if toMutation {
          MutationDone(t.mutation);
        }
      }
      if Inv(was) {
        DeliverInv(was, t);
      }
    }

    /** The client library's sweep of the cards going away. */
    method Sweep(ts: seq<Terminal>)
      modifies this
      ensures View() == DeliverAll(old(View()), ts)
    {
      for i := 0 to |ts|
        invariant DeliverAll(old(View()), ts) == DeliverAll(View(), ts[i..])
      {
        Terminate(ts[i]);
        assert ts[i..][1..] == ts[i + 1..];
      }
    }

    /** The cards `reg` lacks are deleted, and every pointer into them becomes null. */
    method LoseCards(reg: Registry)
      modifies this
      ensures View() == Lose(old(View()), reg)
    {
      listOp, mutationOp, card, peer :=
        OpLeft(peer, reg, listOp), OpLeft(peer, reg, mutationOp), CardLeft(reg, card), DestroyLost(peer, reg);
    }

    /** The registry changes: sweep, delete, then the signal. */
    method ChangeRegistry(reg: Registry, sweep: seq<Terminal>)
      modifies this
      ensures View() == Step(old(View()), RegistryChanged(reg, sweep))
      ensures old(Inv(View()) && Allowed(View(), RegistryChanged(reg, sweep))) ==> Inv(View())
    {
      ghost var was := View();
      Sweep(sweep);
      LoseCards(reg);
      RefreshNow();
      if Inv(was) && Allowed(was, RegistryChanged(reg, sweep)) {
        StepInv(was, RegistryChanged(reg, sweep));
      }
    }

    /** A card's capabilities change; the window hears it only from the card it watches. */
    method ChangeCapabilities(reg: Registry, changed: nat)
      modifies this
      ensures View() == Step(old(View()), CapabilityChanged(reg, changed))
      ensures old(Inv(View()) && Allowed(View(), CapabilityChanged(reg, changed))) ==> Inv(View())
    {
      ghost var was := View();
      peer := peer.(registry := reg);
      if changed in peer.watched {
        ClassifyCard();
      }
      if Inv(was) && Allowed(was, CapabilityChanged(reg, changed)) {
        StepInv(was, CapabilityChanged(reg, changed));
      }
    }
  }
}
