/** What every run of the credential window keeps. */
module CredentialProtocol {
  import opened Wrappers
  import opened AgentPeer
  import opened CredentialWindow

  /** `op` is the operation the window tracks in either of its two pointers. */
  predicate Tracked(w: Window, op: nat) {
    w.listOp == Some(op) || w.mutationOp == Some(op)
  }

  /** The log and the sets over it agree. */
  ghost predicate PeerOk(p: Peer) {
    && (forall op <- p.live :: op < |p.log|)
    && (forall op <- p.listSlots :: op < |p.log|)
    && (forall op <- p.mutationSlots :: op < |p.log|)
    && CardsDistinct(p.registry)
  }

  /** The connected operations that can still fire are the tracked ones, they are live and on the bound card,
      and no operation was abandoned without a Cancel. */
  ghost predicate OpsOk(w: Window) {
    && PeerOk(w.peer)
    && !(w.listOp.Some? && w.mutationOp.Some?)
    && (w.listOp.Some? ==>
          w.listOp.value in w.peer.live && w.card == Some(w.peer.log[w.listOp.value].card)
          && w.peer.log[w.listOp.value].request == ListCredentials)
    && (w.mutationOp.Some? ==>
          w.mutationOp.value in w.peer.live && w.card == Some(w.peer.log[w.mutationOp.value].card)
          && w.peer.log[w.mutationOp.value].request != ListCredentials)
    && (forall op <- w.peer.live :: op in w.peer.listSlots <==> w.listOp == Some(op))
    && (forall op <- w.peer.live :: op in w.peer.mutationSlots <==> w.mutationOp == Some(op))
    && (forall op <- w.peer.live :: Tracked(w, op) || op in w.peer.cancelled)
    && w.peer.watched == (if w.card.Some? then {w.card.value} else {})
    && (w.card.Some? ==> CardLive(w.peer.registry, w.card.value))
    && (forall op <- w.peer.live :: CardLive(w.peer.registry, w.peer.log[op].card))
  }

  /** What the shown state says about the fields behind it. */
  ghost predicate StateOk(w: Window) {
    && (w.state == Working ==> w.mutationOp.Some?)
    && (w.mutationOp.Some? ==> w.state == Working || w.state == NotManageable)
    && (w.state == Loading ==> w.listOp.Some?)
    && (w.showingResult ==> w.state == Result && w.listOp.Some?)
    && (w.listOp.Some? ==> w.state == Loading || (w.state == Result && w.showingResult))
    && (w.settled ==> w.listOp.None?)
    && (w.listCancelRequested ==> w.listOp.Some?)
    && (w.mutationCancelRequested ==> w.mutationOp.Some?)
    && (w.removalNotice != NoMessage ==> w.mutationOp.None?)
    && (w.state == Ready ==> w.settled && w.records != [] && w.listedFrom == w.card)
    && (w.state == Empty ==> w.settled && w.records == [] && w.listedFrom == w.card)
    && (w.card.None? <==> w.state == NoCard || w.state == AgentUnavailable)
    && (w.state == AgentUnavailable ==> !w.peer.registry.available)
  }

  /** The invariant of every state between two events. */
  ghost predicate Inv(w: Window) {
    OpsOk(w) && StateOk(w) && (w.card.Some? ==> w.peer.registry.available)
  }

  lemma InitialInv(reg: Registry)
    requires CardsDistinct(reg)
    ensures Inv(Initial(reg))
  {
  }

  lemma ResetListOps(w: Window)
    requires OpsOk(w)
    ensures OpsOk(ResetList(w))
  {
  }

  lemma DetachMutationOps(w: Window)
    requires OpsOk(w)
    ensures OpsOk(DetachMutation(w))
  {
  }

  /** Nothing tracked and no latch set, as right after a card was bound. */
  ghost predicate Fresh(w: Window) {
    && w.listOp.None? && w.mutationOp.None?
    && !w.settled && !w.showingResult && !w.listCancelRequested && !w.mutationCancelRequested
  }

  lemma RewatchOps(w: Window, card: Option<nat>, notice: Message)
    requires OpsOk(w) && w.listOp.None? && w.mutationOp.None?
    requires card.Some? ==> CardLive(w.peer.registry, card.value)
    ensures OpsOk(w.(card := card, removalNotice := notice, peer := Rewatch(w.peer, w.card, card)))
  {
  }

  lemma BindCardOps(w: Window, card: Option<nat>)
    requires OpsOk(w)
    requires card.Some? ==> CardLive(w.peer.registry, card.value)
    ensures OpsOk(BindCard(w, card))
    ensures BindCard(w, card).card == card
    ensures BindCard(w, card) == w || Fresh(BindCard(w, card))
    ensures card.None? ==> Fresh(BindCard(w, card))
    ensures BindCard(w, card).peer.registry == w.peer.registry
  {
    if !(card.Some? && w.card == card) {
      var a := ResetList(w);
      ResetListOps(w);
      DetachMutationOps(a);
      var v := DetachMutation(a);
      RewatchOps(v, card, if card.Some? then NoMessage else v.removalNotice);
    }
  }

  lemma StartListOps(w: Window)
    requires OpsOk(w)
    ensures OpsOk(StartList(w))
  {
    if w.card.None? {
      ResetListOps(w);
    }
  }

  lemma ClassifyInv(w: Window)
    requires OpsOk(w) && (Fresh(w) || (StateOk(w) && w.card.Some?))
    requires w.peer.registry.available
    ensures Inv(Classify(w))
  {
    if w.card.None? || !Manageable(w.peer.registry, w.card.value) {
      ResetListOps(w);
    } else {
      StartListOps(w);
    }
  }

  lemma RestingInv(w: Window, state: State)
    requires OpsOk(w) && Fresh(w) && w.card.None?
    requires state == NoCard || (state == AgentUnavailable && !w.peer.registry.available)
    ensures Inv(w.(state := state))
  {
  }

  lemma UnbindInv(w: Window, state: State)
    requires OpsOk(w)
    requires state == NoCard || (state == AgentUnavailable && !w.peer.registry.available)
    ensures Inv(Unbind(w, state))
  {
    var v := w.(resolvedReaderId := "");
    BindCardOps(v, None);
    RestingInv(BindCard(v, None), state);
  }

  lemma RetargetInv(w: Window, reader: Reader)
    requires OpsOk(w) && w.peer.registry.available
    requires w.card.Some? ==> StateOk(w) || Fresh(w)
    requires reader in w.peer.registry.readers
    ensures Inv(Retarget(w, reader))
  {
    var v := w.(resolvedReaderId := reader.id);
    BindCardOps(v, HeldCard(reader));
    ClassifyInv(BindCard(v, HeldCard(reader)));
  }

  lemma RefreshInv(w: Window)
    requires OpsOk(w) && (w.card.Some? ==> StateOk(w) || Fresh(w))
    ensures Inv(Refresh(w))
  {
    if !w.peer.registry.available {
      UnbindInv(w, AgentUnavailable);
    } else if w.mutationOp.None? {
      match ResolveReader(w.readerId, w.peer.registry)
      case None => UnbindInv(w, NoCard);
      case Some(reader) => RetargetInv(w, reader);
    }
  }

  lemma BindReaderInv(w: Window, id: string)
    requires Inv(w)
    ensures Inv(BindReader(w, id))
  {
    if w.mutationOp.Some? && id != w.resolvedReaderId {
      var v := ResetList(DetachMutation(w));
      DetachMutationOps(w);
      ResetListOps(DetachMutation(w));
      assert OpsOk(v.(readerId := id)) && Fresh(v.(readerId := id));
      RefreshInv(v.(readerId := id));
    } else {
      RefreshInv(w.(readerId := id));
    }
  }

  lemma RelistInv(w: Window)
    requires OpsOk(w) && w.mutationOp.None? && w.listOp.None? && w.card.Some?
    requires w.state == Result && !w.mutationCancelRequested && w.peer.registry.available
    ensures Inv(RelistAfterMutation(w))
    ensures RelistAfterMutation(w).peer.log == w.peer.log + [Minted(ListCredentials, w.card.value)]
  {
    StartListOps(ResetList(w).(showingResult := true));
  }

  lemma MutationDoneInv(w: Window, r: MutationReport)
    requires OpsOk(w.(mutationOp := None)) && w.mutationOp.Some? && w.listOp.None? && w.card.Some?
    requires !w.listCancelRequested && !w.showingResult && w.peer.registry.available
    ensures Inv(OnMutationDone(w, r))
  {
    var v := w.(mutationOp := None, mutationCancelRequested := false);
    if r.named.Some? {
      var u := v.(resultIsError := false, resultMessage := RefusalText(r.named.value), state := Result);
      if RefusalRelists(r.named.value) {
        RelistInv(u);
      }
    } else if EffectiveOutcome(w, r) != CardRemoved {
      RelistInv(v.(resultIsError := !WasCancelled(w, r) && !IsNeutral(EffectiveOutcome(w, r)),
                   resultMessage := MutationMessage(w, r), state := Result));
    }
  }

  lemma ListFinishedInv(w: Window, r: ListReport)
    requires OpsOk(w.(listOp := None)) && w.mutationOp.None? && w.card.Some?
    requires !w.mutationCancelRequested && w.peer.registry.available
    ensures Inv(OnListFinished(w, r, w.card.value))
  {
  }

  /** What an operation's end comes to: its own slot, or nothing. */
  lemma DeliverCases(w: Window, t: Terminal)
    requires OpsOk(w)
    ensures var v := w.(peer := w.peer.(live := w.peer.live - {t.op}));
            Deliver(w, t) ==
              if w.mutationOp == Some(t.op) then OnMutationDone(v, t.mutation)
              else if w.listOp == Some(t.op) then OnListFinished(v, t.list, v.card.value)
              else v
  {
    assert t.op !in w.peer.live ==> w.peer.live - {t.op} == w.peer.live;
  }

  lemma RetiredOps(w: Window, op: nat)
    requires OpsOk(w)
    ensures var v := w.(peer := w.peer.(live := w.peer.live - {op}));
            && (w.mutationOp == Some(op) ==> OpsOk(v.(mutationOp := None)))
            && (w.listOp == Some(op) ==> OpsOk(v.(listOp := None)))
            && (!Tracked(w, op) ==> OpsOk(v))
  {
  }

  lemma DeliverInv(w: Window, t: Terminal)
    requires Inv(w)
    ensures Inv(Deliver(w, t))
  {
    DeliverCases(w, t);
    RetiredOps(w, t.op);
    var v := w.(peer := w.peer.(live := w.peer.live - {t.op}));
    if w.mutationOp == Some(t.op) {
      MutationDoneInv(v, t.mutation);
    } else if w.listOp == Some(t.op) {
      ListFinishedInv(v, t.list);
    }
  }

  lemma {:induction false} DeliverAllInv(w: Window, ts: seq<Terminal>)
    requires Inv(w)
    ensures Inv(DeliverAll(w, ts))
    decreases |ts|
  {
    if ts != [] {
      DeliverInv(w, ts[0]);
      DeliverAllInv(Deliver(w, ts[0]), ts[1..]);
    }
  }

  lemma LoseOps(w: Window, reg: Registry)
    requires Inv(w) && CardsDistinct(reg)
    ensures OpsOk(Lose(w, reg))
    ensures Lose(w, reg).card.Some? ==> StateOk(Lose(w, reg))
  {
  }

  /** The window `w` tracks the verb it mints. */
  function Tracking(w: Window, request: Request): Window
    requires w.card.Some?
  {
    var op := |w.peer.log|;
    var minted := Mint(w.peer, request, w.card.value);
    w.(mutationOp := Some(op), peer := minted.(mutationSlots := w.peer.mutationSlots + {op}))
  }

  lemma TrackingOps(w: Window, request: Request)
    requires OpsOk(w) && w.card.Some? && w.listOp.None? && w.mutationOp.None? && request != ListCredentials
    ensures OpsOk(Tracking(w, request))
  {
  }

  /** A verb drops the listing under way and is tracked from the moment it is minted. */
  lemma RunVerbTracks(w: Window, verb: Verb)
    requires CanStartMutation(w)
    ensures var t := Tracking(if w.listOp.Some? then ResetList(w) else w, VerbRequest(w.records, verb));
            var v := RunVerb(w, verb);
            v.peer == t.peer && v.mutationOp == t.mutationOp && v.listOp == t.listOp && v.card == t.card
  {
  }

  lemma SameOps(w: Window, v: Window)
    requires OpsOk(w)
    requires v.peer == w.peer && v.mutationOp == w.mutationOp && v.listOp == w.listOp && v.card == w.card
    ensures OpsOk(v)
  {
  }

  lemma RunVerbOps(w: Window, verb: Verb)
    requires Inv(w) && CanStartMutation(w)
    ensures OpsOk(RunVerb(w, verb))
  {
    ResetListOps(w);
    var v := if w.listOp.Some? then ResetList(w) else w;
    TrackingOps(v, VerbRequest(w.records, verb));
    RunVerbTracks(w, verb);
    SameOps(Tracking(v, VerbRequest(w.records, verb)), RunVerb(w, verb));
  }

  lemma RunVerbState(w: Window, verb: Verb)
    requires Inv(w) && CanStartMutation(w)
    ensures StateOk(RunVerb(w, verb))
    ensures RunVerb(w, verb).peer.registry == w.peer.registry
  {
  }

  lemma RunVerbInv(w: Window, verb: Verb)
    requires Inv(w)
    ensures Inv(RunVerb(w, verb))
  {
    if CanStartMutation(w) {
      RunVerbOps(w, verb);
      RunVerbState(w, verb);
    }
  }

  lemma CancelInv(w: Window)
    requires Inv(w)
    ensures Inv(Cancel(w))
  {
  }

  // ---- Runs ----

  /** What the client library guarantees about the next event: a card object sits in one reader; a capability
      change adds and removes no card; a removal's sweep terminates only operations on the cards going away. */
  ghost predicate Allowed(w: Window, e: Event) {
    match e
    case RegistryChanged(reg, sweep) =>
      CardsDistinct(reg) && forall t <- sweep :: t.op < |w.peer.log| ==> OnLostCard(w.peer, reg, t.op)
    case CapabilityChanged(reg, _) =>
      && CardsDistinct(reg) && reg.available == w.peer.registry.available
      && forall c :: CardLive(reg, c) <==> CardLive(w.peer.registry, c)
    case _ => true
  }

  ghost predicate AllAllowed(w: Window, events: seq<Event>)
    decreases |events|
  {
    events == [] || (Allowed(w, events[0]) && AllAllowed(Step(w, events[0]), events[1..]))
  }

  lemma CapabilityInv(w: Window, reg: Registry, card: nat)
    requires Inv(w) && Allowed(w, CapabilityChanged(reg, card))
    ensures Inv(Step(w, CapabilityChanged(reg, card)))
  {
    var v := w.(peer := w.peer.(registry := reg));
    assert OpsOk(v) && StateOk(v);
    if card in v.peer.watched {
      ClassifyInv(v);
    }
  }

  lemma StepInv(w: Window, e: Event)
    requires Inv(w) && Allowed(w, e)
    ensures Inv(Step(w, e))
  {
    match e
    case RegistryChanged(reg, sweep) =>
      DeliverAllInv(w, sweep);
      LoseOps(DeliverAll(w, sweep), reg);
      RefreshInv(Lose(DeliverAll(w, sweep), reg));
    case CapabilityChanged(reg, card) => CapabilityInv(w, reg, card);
    case Finished(t) => DeliverInv(w, t);
    case RefreshCalled => RefreshInv(w);
    case ReaderBound(id) => BindReaderInv(w, id);
    case VerbCalled(v) => RunVerbInv(w, v);
    case CancelCalled => CancelInv(w);
  }

  lemma {:induction false} RunInv(w: Window, events: seq<Event>)
    requires Inv(w) && AllAllowed(w, events)
    ensures Inv(Run(w, events))
    decreases |events|
  {
    if events != [] {
      StepInv(w, events[0]);
      RunInv(Step(w, events[0]), events[1..]);
    }
  }

  /** Every state the window can reach satisfies the invariant. */
  lemma ReachableInv(reg: Registry, events: seq<Event>)
    requires CardsDistinct(reg) && AllAllowed(Initial(reg), events)
    ensures Inv(Run(Initial(reg), events))
  {
    InitialInv(reg);
    RunInv(Initial(reg), events);
  }
}
