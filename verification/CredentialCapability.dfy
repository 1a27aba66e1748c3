/** The window's surface and the card's capability: when a running verb stays on the Working surface, and when a
    card without PIN management is shown as one. */
module CredentialCapability {
  import opened Wrappers
  import opened AgentPeer
  import opened CredentialWindow
  import opened CredentialProtocol
  import opened CredentialRuns

  // ---- A running verb and its surface ----

  /** The bound card is announced to have lost PIN management. */
  predicate Hides(w: Window, e: Event) {
    e.CapabilityChanged? && w.card == Some(e.card) && !Manageable(e.reg, e.card)
  }

  lemma ClassifyUnderVerb(w: Window)
    requires w.card.Some? && w.mutationOp.Some?
    ensures Classify(w).state == if Manageable(w.peer.registry, w.card.value) then w.state else NotManageable
  {
  }

  /** Of the events that a running verb survives, only the announced loss of its card's capability takes it off the
      Working surface, and none brings it back. */
  lemma WorkingIff(w: Window, e: Event, m: nat)
    requires Inv(w) && Allowed(w, e) && w.mutationOp == Some(m) && !Unpins(w, e, m)
    ensures Step(w, e).state == Working <==> w.state == Working && !Hides(w, e)
  {
    match e
    case RegistryChanged(reg, sweep) => RegistryChangeDeferred(w, reg, sweep);
    case CapabilityChanged(reg, card) => ClassifyUnderVerb(w.(peer := w.peer.(registry := reg)));
    case Finished(t) => DetachedOpIsInert(w, t);
    case _ =>
  }

  ghost predicate NeverHides(w: Window, events: seq<Event>)
    decreases |events|
  {
    events == [] || (!Hides(w, events[0]) && NeverHides(Step(w, events[0]), events[1..]))
  }

  /** Over a whole run that the verb survives, it is on the Working surface at the end if and only if no event of the
      run announced that loss. */
  lemma {:induction false} WorkingRunIff(w: Window, events: seq<Event>, m: nat)
    requires Inv(w) && AllAllowed(w, events) && w.mutationOp == Some(m) && NeverUnpins(w, events, m)
    ensures Run(w, events).state == Working <==> w.state == Working && NeverHides(w, events)
    decreases |events|
  {
    if events != [] {
      WorkingIff(w, events[0], m);
      VerbPinsBinding(w, events[0], m);
      StepInv(w, events[0]);
      WorkingRunIff(Step(w, events[0]), events[1..], m);
    }
  }

  // ---- A card without PIN management ----

  /** The promise of the controller's state table: a card present without PIN management is shown as not
      manageable. */
  ghost predicate ShownUnmanageable(w: Window) {
    w.card.Some? && !Manageable(w.peer.registry, w.card.value) ==> w.state == NotManageable
  }

  /** The four ways an event breaks it: a verb is called on a card shown as not manageable; a verb that outlived the
      capability ends, and its result shows; the loss comes in with a registry change that the running verb defers;
      or it comes in unannounced, with another card's change. */
  predicate BreaksPromise(w: Window, e: Event) {
    match e
    case RegistryChanged(reg, _) =>
      w.state == Working && reg.available && OnCardStill(w, reg) && !Manageable(reg, w.card.value)
    case CapabilityChanged(reg, card) =>
      w.card.Some? && w.card.value != card && w.state != NotManageable && !Manageable(reg, w.card.value)
    case Finished(t) =>
      w.mutationOp == Some(t.op) && w.card.Some? && !Manageable(w.peer.registry, w.card.value)
    case VerbCalled(_) => CanStartMutation(w) && !Manageable(w.peer.registry, w.card.value)
    case _ => false
  }

  lemma ClassifyKeepsPromise(w: Window)
    ensures ShownUnmanageable(Classify(w))
  {
  }

  lemma UnboundKeepsPromise(w: Window, state: State)
    ensures Unbind(w, state).card.None?
  {
  }

  /** A refresh either classifies afresh or is deferred. */
  lemma RefreshPromise(w: Window)
    ensures if w.peer.registry.available && w.mutationOp.Some? then Refresh(w) == w else ShownUnmanageable(Refresh(w))
  {
    if !w.peer.registry.available {
      UnboundKeepsPromise(w, AgentUnavailable);
    } else if w.mutationOp.None? {
      match ResolveReader(w.readerId, w.peer.registry)
      case None => UnboundKeepsPromise(w, NoCard);
      case Some(reader) =>
        ClassifyKeepsPromise(BindCard(w.(resolvedReaderId := reader.id), HeldCard(reader)));
    }
  }

  lemma RegistryPromise(w: Window, reg: Registry, sweep: seq<Terminal>)
    requires Inv(w) && Allowed(w, RegistryChanged(reg, sweep)) && ShownUnmanageable(w)
    ensures ShownUnmanageable(Step(w, RegistryChanged(reg, sweep))) <==>
            !BreaksPromise(w, RegistryChanged(reg, sweep))
  {
    if w.mutationOp.Some? && reg.available && OnCardStill(w, reg) {
      RegistryChangeDeferred(w, reg, sweep);
      RegistryOf(w, reg, sweep);
    } else {
      DeliverAllInv(w, sweep);
      DeliverAllLog(w, sweep);
      var d := Lose(DeliverAll(w, sweep), reg);
      if reg.available {
        NoVerbLeft(w, reg, sweep);
      }
      RefreshPromise(d);
    }
  }

  lemma RegistryOf(w: Window, reg: Registry, sweep: seq<Terminal>)
    ensures Step(w, RegistryChanged(reg, sweep)).peer.registry == reg
  {
    var d := Lose(DeliverAll(w, sweep), reg);
    assert d.peer.registry == reg;
    RefreshRegistry(d);
  }

  lemma ClassifyRegistry(w: Window)
    ensures Classify(w).peer.registry == w.peer.registry
  {
  }

  lemma UnbindRegistry(w: Window, state: State)
    ensures Unbind(w, state).peer.registry == w.peer.registry
  {
    BindCardKeeps(w.(resolvedReaderId := ""), None);
  }

  lemma RetargetRegistry(w: Window, reader: Reader)
    ensures Retarget(w, reader).peer.registry == w.peer.registry
  {
    var v := w.(resolvedReaderId := reader.id);
    BindCardKeeps(v, HeldCard(reader));
    ClassifyRegistry(BindCard(v, HeldCard(reader)));
  }

  lemma RefreshRegistry(w: Window)
    ensures Refresh(w).peer.registry == w.peer.registry
  {
    UnbindRegistry(w, AgentUnavailable);
    UnbindRegistry(w, NoCard);
    match ResolveReader(w.readerId, w.peer.registry)
    case None =>
    case Some(reader) => RetargetRegistry(w, reader);
  }

  lemma NoVerbLeft(w: Window, reg: Registry, sweep: seq<Terminal>)
    requires Inv(w) && (w.mutationOp.None? || !OnCardStill(w, reg))
    ensures Lose(DeliverAll(w, sweep), reg).mutationOp.None?
  {
    DeliverAllInv(w, sweep);
    DeliverAllLog(w, sweep);
    if w.mutationOp.None? {
      DeliverAllStartsNone(w, sweep);
    }
  }

  lemma {:induction false} DeliverAllStartsNone(w: Window, ts: seq<Terminal>)
    requires Inv(w) && w.mutationOp.None?
    ensures DeliverAll(w, ts).mutationOp.None?
    decreases |ts|
  {
    if ts != [] {
      DeliverShape(w, ts[0]);
      DeliverInv(w, ts[0]);
      DeliverAllStartsNone(Deliver(w, ts[0]), ts[1..]);
    }
  }

  lemma FinishedPromise(w: Window, t: Terminal)
    requires Inv(w) && ShownUnmanageable(w)
    ensures ShownUnmanageable(Deliver(w, t)) <==> !BreaksPromise(w, Finished(t))
  {
    DeliverShape(w, t);
    if w.mutationOp == Some(t.op) {
      EndShowsResult(w, t);
    } else if !Tracked(w, t.op) {
      DetachedOpIsInert(w, t);
    }
  }

  lemma RelistShowsResult(w: Window)
    requires w.card.Some? && w.mutationOp.None? && w.listOp.None? && w.state == Result
    ensures RelistAfterMutation(w).state == Result
  {
  }

  lemma EndShowsResult(w: Window, t: Terminal)
    requires Inv(w) && w.mutationOp == Some(t.op)
    ensures Deliver(w, t).state == Result
  {
    var v := w.(peer := w.peer.(live := w.peer.live - {t.op}), mutationOp := None, mutationCancelRequested := false);
    var r := t.mutation;
    if r.named.Some? {
      RelistShowsResult(v.(resultIsError := false, resultMessage := RefusalText(r.named.value), state := Result));
    } else {
      RelistShowsResult(v.(resultIsError := !WasCancelled(w, r) && !IsNeutral(EffectiveOutcome(w, r)),
                           resultMessage := MutationMessage(w, r), state := Result));
    }
  }

  /** From a window that keeps the promise, an event keeps it if and only if it is none of those four. */
  lemma PromiseKeptIff(w: Window, e: Event)
    requires Inv(w) && Allowed(w, e) && ShownUnmanageable(w)
    ensures ShownUnmanageable(Step(w, e)) <==> !BreaksPromise(w, e)
  {
    match e
    case RegistryChanged(reg, sweep) => RegistryPromise(w, reg, sweep);
    case CapabilityChanged(reg, card) => ClassifyKeepsPromise(w.(peer := w.peer.(registry := reg)));
    case Finished(t) => FinishedPromise(w, t);
    case RefreshCalled => RefreshPromise(w);
    case ReaderBound(id) =>
      var v := if w.mutationOp.Some? && id != w.resolvedReaderId then ResetList(DetachMutation(w)) else w;
      RefreshPromise(v.(readerId := id));
    case VerbCalled(v) =>
    case CancelCalled =>
  }

  ghost predicate KeptThroughout(w: Window, events: seq<Event>)
    decreases |events|
  {
    ShownUnmanageable(w) && (events == [] || KeptThroughout(Step(w, events[0]), events[1..]))
  }

  ghost predicate NeverBreaks(w: Window, events: seq<Event>)
    decreases |events|
  {
    events == [] || (!BreaksPromise(w, events[0]) && NeverBreaks(Step(w, events[0]), events[1..]))
  }

  lemma {:induction false} KeptThroughoutIff(w: Window, events: seq<Event>)
    requires Inv(w) && AllAllowed(w, events) && ShownUnmanageable(w)
    ensures KeptThroughout(w, events) <==> NeverBreaks(w, events)
    decreases |events|
  {
    if events != [] {
      PromiseKeptIff(w, events[0]);
      StepInv(w, events[0]);
      if !BreaksPromise(w, events[0]) {
        KeptThroughoutIff(Step(w, events[0]), events[1..]);
      }
    }
  }

  /** From the start of the window: the promise holds in every state of a run if and only if the run has none of the
      four events. */
  lemma ReachablePromise(reg: Registry, events: seq<Event>)
    requires CardsDistinct(reg) && AllAllowed(Initial(reg), events)
    ensures KeptThroughout(Initial(reg), events) <==> NeverBreaks(Initial(reg), events)
  {
    InitialInv(reg);
    KeptThroughoutIff(Initial(reg), events);
  }

  // ---- A run that breaks it ----

  /** A capability loss leaves a verb running outside Working, and the listing its end owes is asked of the card
      although the card cannot be managed; when that listing ends well, the window rests on the rows of an
      unmanageable card. */
  lemma CapabilityLossHidesVerb(w: Window, reg: Registry, t: Terminal, u: Terminal)
    requires Inv(w) && w.mutationOp == Some(t.op) && Allowed(w, CapabilityChanged(reg, w.card.value))
    requires !Manageable(reg, w.card.value) && Relists(w, t.mutation)
    requires u.op == |w.peer.log| && u.list.status == Ok && u.list.records != []
    ensures var hidden := Step(w, CapabilityChanged(reg, w.card.value));
            && hidden.state == NotManageable && hidden.mutationOp == w.mutationOp && hidden.records == []
            && Deliver(hidden, t).peer.log == w.peer.log + [Minted(ListCredentials, w.card.value)]
            && Deliver(hidden, t).state == Result
            && Deliver(Deliver(hidden, t), u).state == Ready && Deliver(Deliver(hidden, t), u).card == w.card
            && !ShownUnmanageable(Deliver(Deliver(hidden, t), u))
  {
    var e := CapabilityChanged(reg, w.card.value);
    StepInv(w, e);
    CapabilityKeepsVerb(w, reg, w.card.value);
    var hidden := Step(w, e);
    TerminalsQuiesce(hidden, t);
    EndShowsResult(hidden, t);
    DeliverInv(hidden, t);
    DeliverShape(hidden, t);
    ListsRows(Deliver(hidden, t), u);
  }

  lemma ListsRows(w: Window, u: Terminal)
    requires Inv(w) && w.listOp == Some(u.op) && u.list.status == Ok && u.list.records != []
    ensures var v := Deliver(w, u); v.state == Ready && v.card == w.card && v.peer.registry == w.peer.registry
  {
  }

  const MANAGED := Registry(true, [Reader("r", Some(Card(1, true)))])
  const UNMANAGED := Registry(true, [Reader("r", Some(Card(1, false)))])
  const ROWS := ListReport(Ok, [Record("pin", User, false)])
  const CHANGED := MutationReport(Ok, NoError, 0, Done, None, None, "", "")

  lemma OneReader(reg: Registry, manageable: bool)
    requires reg == Registry(true, [Reader("r", Some(Card(1, manageable)))])
    ensures CardsDistinct(reg) && (Manageable(reg, 1) <==> manageable)
    ensures forall c :: CardLive(reg, c) <==> c == 1
    ensures ResolveReader("", reg) == Some(reg.readers[0])
  {
    assert reg.readers[0] == Reader("r", Some(Card(1, manageable)));
    assert HeldCard(reg.readers[0]) == Some(1);
  }

  lemma RunTwo(w: Window, a: Event, b: Event)
    ensures Run(w, [a, b]) == Step(Step(w, a), b)
    ensures AllAllowed(w, [a, b]) <==> Allowed(w, a) && Allowed(Step(w, a), b)
  {
    assert [a, b][1..] == [b] && [b][1..] == [];
    assert Run(Step(w, a), [b]) == Run(Step(Step(w, a), b), []);
    assert AllAllowed(Step(Step(w, a), b), []);
    assert AllAllowed(Step(w, a), [b]) <==> Allowed(Step(w, a), b);
  }

  lemma {:induction false} RunSplit(w: Window, head: seq<Event>, tail: seq<Event>)
    ensures Run(w, head + tail) == Run(Run(w, head), tail)
    ensures AllAllowed(w, head + tail) <==> AllAllowed(w, head) && AllAllowed(Run(w, head), tail)
    decreases |head|
  {
    if head == [] {
      assert head + tail == tail;
    } else {
      assert (head + tail)[1..] == head[1..] + tail;
      RunSplit(Step(w, head[0]), head[1..], tail);
    }
  }

  /** Open and list. */
  const OPENING: seq<Event> := [RefreshCalled, Finished(Terminal(0, ROWS, CHANGED))]

  /** Change a PIN, and lose the capability meanwhile. */
  const HIDING: seq<Event> := [VerbCalled(ChangePin("pin")), CapabilityChanged(UNMANAGED, 1)]

  /** The change ends, and the listing after it. */
  const ENDING: seq<Event> := [Finished(Terminal(1, ROWS, CHANGED)), Finished(Terminal(2, ROWS, CHANGED))]

  lemma FirstListing()
    ensures var w := Step(Initial(MANAGED), RefreshCalled);
            Inv(w) && w.card == Some(1) && w.listOp == Some(0) && w.peer.registry == MANAGED && |w.peer.log| == 1
  {
    OneReader(MANAGED, true);
    InitialInv(MANAGED);
    StepInv(Initial(MANAGED), RefreshCalled);
  }

  lemma Listed(w: Window, t: Terminal)
    requires Inv(w) && w.listOp == Some(t.op)
    ensures var v := Deliver(w, t);
            Inv(v) && v.card == w.card && v.listOp.None? && v.mutationOp.None? && v.peer.log == w.peer.log
            && v.peer.registry == w.peer.registry
  {
    DeliverInv(w, t);
    DeliverShape(w, t);
    TerminalsQuiesce(w, t);
  }

  lemma Opened()
    ensures AllAllowed(Initial(MANAGED), OPENING)
    ensures var w := Run(Initial(MANAGED), OPENING);
            Inv(w) && w.card == Some(1) && w.mutationOp.None? && w.peer.registry == MANAGED && |w.peer.log| == 1
  {
    FirstListing();
    Listed(Step(Initial(MANAGED), RefreshCalled), Terminal(0, ROWS, CHANGED));
    RunTwo(Initial(MANAGED), OPENING[0], OPENING[1]);
  }

  lemma VerbKeepsRegistry(w: Window, v: Verb)
    ensures RunVerb(w, v).peer.registry == w.peer.registry && RunVerb(w, v).card == w.card
  {
  }

  lemma LossAllowed(w: Window)
    requires w.peer.registry == MANAGED
    ensures Allowed(w, CapabilityChanged(UNMANAGED, 1)) && !Manageable(UNMANAGED, 1)
  {
    OneReader(MANAGED, true);
    OneReader(UNMANAGED, false);
  }

  lemma HiddenEnds(w: Window, end: Terminal, list: Terminal)
    requires Inv(w) && w.card == Some(1) && w.mutationOp == Some(1) && w.peer.registry == MANAGED && |w.peer.log| == 2
    requires end == Terminal(1, ROWS, CHANGED) && list == Terminal(2, ROWS, CHANGED)
    ensures Allowed(w, CapabilityChanged(UNMANAGED, 1))
    ensures var v := Deliver(Deliver(Step(w, CapabilityChanged(UNMANAGED, 1)), end), list);
            v.state == Ready && !ShownUnmanageable(v)
  {
    LossAllowed(w);
    CapabilityLossHidesVerb(w, UNMANAGED, end, list);
  }

  lemma HiddenThenListed(w: Window)
    requires Inv(w) && w.card == Some(1) && w.mutationOp.None? && w.peer.registry == MANAGED && |w.peer.log| == 1
    ensures AllAllowed(w, HIDING) && AllAllowed(Run(w, HIDING), ENDING)
    ensures Run(Run(w, HIDING), ENDING).state == Ready && !ShownUnmanageable(Run(Run(w, HIDING), ENDING))
  {
    var verb := ChangePin("pin");
    VerbStarts(w, verb);
    RunVerbInv(w, verb);
    VerbKeepsRegistry(w, verb);
    HiddenEnds(RunVerb(w, verb), Terminal(1, ROWS, CHANGED), Terminal(2, ROWS, CHANGED));
    HidingEnding(w);
  }

  lemma HidingEnding(w: Window)
    ensures AllAllowed(w, HIDING) <==> Allowed(RunVerb(w, ChangePin("pin")), CapabilityChanged(UNMANAGED, 1))
    ensures AllAllowed(Run(w, HIDING), ENDING)
    ensures Run(Run(w, HIDING), ENDING) ==
              Deliver(Deliver(Step(RunVerb(w, ChangePin("pin")), CapabilityChanged(UNMANAGED, 1)),
                              Terminal(1, ROWS, CHANGED)), Terminal(2, ROWS, CHANGED))
  {
    RunTwo(w, HIDING[0], HIDING[1]);
    RunTwo(Run(w, HIDING), ENDING[0], ENDING[1]);
  }

  /** A run of six events from the start that breaks the promise: open, list, change a PIN, lose the capability,
      finish, list again. The window rests on the rows of a card it cannot manage. */
  lemma PromiseBroken()
    ensures AllAllowed(Initial(MANAGED), OPENING + HIDING + ENDING)
    ensures var v := Run(Initial(MANAGED), OPENING + HIDING + ENDING); v.state == Ready && !ShownUnmanageable(v)
  {
    Opened();
    HiddenThenListed(Run(Initial(MANAGED), OPENING));
    RunSplit(Initial(MANAGED), OPENING + HIDING, ENDING);
    RunSplit(Initial(MANAGED), OPENING, HIDING);
  }
}
