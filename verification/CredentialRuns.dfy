/** The credential window over whole runs: which operations can reach it, what pins the binding, when a
    cancelled read stays cancelled, and how many operations a run can mint. */
module CredentialRuns {
  import opened Wrappers
  import opened AgentPeer
  import opened CredentialWindow
  import opened CredentialProtocol

  // ---- Operations the window has let go of ----

  /** The terminal of an operation the window does not track changes nothing it shows or holds, although the
      slots never look at which operation they are handed. */
  lemma DetachedOpIsInert(w: Window, t: Terminal)
    requires Inv(w) && !Tracked(w, t.op)
    ensures Deliver(w, t) == w.(peer := w.peer.(live := w.peer.live - {t.op}))
  {
  }

  /** `v` follows `w` without minting: at most it lets go of what was tracked. */
  ghost predicate Keeps(w: Window, v: Window) {
    && v.peer.log == w.peer.log
    && (v.listOp == w.listOp || v.listOp.None?)
    && (v.mutationOp == w.mutationOp || v.mutationOp.None?)
  }

  /** `v` follows `w` by minting one listing, on the card it binds. */
  ghost predicate Lists(w: Window, v: Window) {
    && v.card.Some?
    && v.peer.log == w.peer.log + [Minted(ListCredentials, v.card.value)]
    && v.listOp == Some(|w.peer.log|)
    && v.mutationOp.None?
  }

  lemma BindCardKeeps(w: Window, card: Option<nat>)
    ensures Keeps(w, BindCard(w, card))
    ensures BindCard(w, card).peer.registry == w.peer.registry
    ensures w.peer.cancelled <= BindCard(w, card).peer.cancelled
  {
  }

  lemma ClassifyShape(w: Window)
    ensures Keeps(w, Classify(w)) || Lists(w, Classify(w))
    ensures w.peer.cancelled <= Classify(w).peer.cancelled
  {
  }

  /** A refresh mints at most one listing. */
  lemma RefreshShape(w: Window)
    ensures Keeps(w, Refresh(w)) || Lists(w, Refresh(w))
    ensures w.peer.cancelled <= Refresh(w).peer.cancelled
  {
    BindCardKeeps(w.(resolvedReaderId := ""), None);
    match ResolveReader(w.readerId, w.peer.registry)
    case None =>
    case Some(reader) =>
      var v := w.(resolvedReaderId := reader.id);
      BindCardKeeps(v, HeldCard(reader));
      ClassifyShape(BindCard(v, HeldCard(reader)));
  }

  lemma BindReaderShape(w: Window, id: string)
    ensures Keeps(w, BindReader(w, id)) || Lists(w, BindReader(w, id))
  {
    var v := if w.mutationOp.Some? && id != w.resolvedReaderId then ResetList(DetachMutation(w)) else w;
    RefreshShape(v.(readerId := id));
  }

  // ---- What a terminal does ----

  /** Whether a verb that ended this way owes a fresh listing: always, unless the card is gone or the refusal
      says the request never reached it. */
  predicate Relists(w: Window, r: MutationReport) {
    if r.named.Some? then r.named.value != RateLimited && r.named.value != InvalidRequest
    else EffectiveOutcome(w, r) != CardRemoved
  }

  lemma RelistMints(w: Window)
    requires w.card.Some? && w.mutationOp.None? && w.listOp.None?
    ensures var v := RelistAfterMutation(w); Lists(w, v) && v.card == w.card && v.peer.registry == w.peer.registry
  {
  }

  lemma MutationDoneMints(w: Window, r: MutationReport)
    requires w.card.Some? && w.mutationOp.Some? && w.listOp.None?
    ensures var v := OnMutationDone(w, r);
            && (if Relists(w, r) then Lists(w, v) else v.peer == w.peer && v.listOp.None? && v.mutationOp.None?)
            && v.card == w.card && v.peer.registry == w.peer.registry
  {
    var v := w.(mutationOp := None, mutationCancelRequested := false);
    if r.named.Some? {
      RelistMints(v.(resultIsError := false, resultMessage := RefusalText(r.named.value), state := Result));
    } else if EffectiveOutcome(w, r) != CardRemoved {
      RelistMints(v.(resultIsError := !WasCancelled(w, r) && !IsNeutral(EffectiveOutcome(w, r)),
                     resultMessage := MutationMessage(w, r), state := Result));
    }
  }

  lemma DeliverShape(w: Window, t: Terminal)
    requires Inv(w)
    ensures Keeps(w, Deliver(w, t)) || Lists(w, Deliver(w, t))
    ensures Deliver(w, t).card == w.card && Deliver(w, t).peer.registry == w.peer.registry
  {
    if w.mutationOp == Some(t.op) {
      MutationDoneMints(w.(peer := w.peer.(live := w.peer.live - {t.op})), t.mutation);
    } else if !Tracked(w, t.op) {
      DetachedOpIsInert(w, t);
    }
  }

  lemma {:induction false} DeliverAllLog(w: Window, ts: seq<Terminal>)
    requires Inv(w)
    ensures w.peer.log <= DeliverAll(w, ts).peer.log
    ensures DeliverAll(w, ts).card == w.card && DeliverAll(w, ts).peer.registry == w.peer.registry
    decreases |ts|
  {
    if ts != [] {
      DeliverShape(w, ts[0]);
      DeliverInv(w, ts[0]);
      DeliverAllLog(Deliver(w, ts[0]), ts[1..]);
    }
  }

  // ---- Letting go is for good ----

  /** Only fresh operations become tracked. */
  lemma DeliverTracks(w: Window, t: Terminal, op: nat)
    requires Inv(w) && op < |w.peer.log| && !Tracked(w, op)
    ensures !Tracked(Deliver(w, t), op)
  {
    DeliverShape(w, t);
  }

  lemma {:induction false} DeliverAllTracks(w: Window, ts: seq<Terminal>, op: nat)
    requires Inv(w) && op < |w.peer.log| && !Tracked(w, op)
    ensures !Tracked(DeliverAll(w, ts), op)
    decreases |ts|
  {
    if ts != [] {
      DeliverTracks(w, ts[0], op);
      DeliverShape(w, ts[0]);
      DeliverInv(w, ts[0]);
      DeliverAllTracks(Deliver(w, ts[0]), ts[1..], op);
    }
  }

  /** What keeps or lists from `w` tracks nothing old that `w` did not. */
  lemma ShapeTracks(w: Window, v: Window, op: nat)
    requires Keeps(w, v) || Lists(w, v)
    requires op < |w.peer.log| && !Tracked(w, op)
    ensures !Tracked(v, op) && w.peer.log <= v.peer.log
  {
  }

  lemma LoseTracks(w: Window, reg: Registry, op: nat)
    requires !Tracked(w, op)
    ensures !Tracked(Lose(w, reg), op) && Lose(w, reg).peer.log == w.peer.log
  {
  }

  lemma RegistryTracks(w: Window, reg: Registry, sweep: seq<Terminal>, op: nat)
    requires Inv(w) && op < |w.peer.log| && !Tracked(w, op)
    ensures var v := Step(w, RegistryChanged(reg, sweep)); !Tracked(v, op) && w.peer.log <= v.peer.log
  {
    DeliverAllTracks(w, sweep, op);
    DeliverAllLog(w, sweep);
    var d := DeliverAll(w, sweep);
    LoseTracks(d, reg, op);
    RefreshShape(Lose(d, reg));
    ShapeTracks(Lose(d, reg), Refresh(Lose(d, reg)), op);
  }

  lemma CapabilityTracks(w: Window, reg: Registry, card: nat, op: nat)
    requires op < |w.peer.log| && !Tracked(w, op)
    ensures var v := Step(w, CapabilityChanged(reg, card)); !Tracked(v, op) && w.peer.log <= v.peer.log
  {
    var v := w.(peer := w.peer.(registry := reg));
    ClassifyShape(v);
    if card in v.peer.watched {
      ShapeTracks(v, Classify(v), op);
    }
  }

  lemma VerbTracks(w: Window, v: Verb, op: nat)
    requires op < |w.peer.log| && !Tracked(w, op)
    ensures !Tracked(RunVerb(w, v), op) && w.peer.log <= RunVerb(w, v).peer.log
  {
  }

  lemma StepTracks(w: Window, e: Event, op: nat)
    requires Inv(w) && op < |w.peer.log| && !Tracked(w, op)
    ensures !Tracked(Step(w, e), op) && w.peer.log <= Step(w, e).peer.log
  {
    match e
    case RegistryChanged(reg, sweep) => RegistryTracks(w, reg, sweep, op);
    case CapabilityChanged(reg, card) => CapabilityTracks(w, reg, card, op);
    case Finished(t) => DeliverShape(w, t); ShapeTracks(w, Deliver(w, t), op);
    case RefreshCalled => RefreshShape(w); ShapeTracks(w, Refresh(w), op);
    case ReaderBound(id) => BindReaderShape(w, id); ShapeTracks(w, BindReader(w, id), op);
    case VerbCalled(v) => VerbTracks(w, v, op);
    case CancelCalled =>
  }

  /** Once let go, an operation stays without effect for the rest of any run. */
  lemma {:induction false} DetachedForGood(w: Window, events: seq<Event>, t: Terminal)
    requires Inv(w) && AllAllowed(w, events) && t.op < |w.peer.log| && !Tracked(w, t.op)
    ensures var v := Run(w, events); Deliver(v, t) == v.(peer := v.peer.(live := v.peer.live - {t.op}))
    ensures !Tracked(Run(w, events), t.op)
    decreases |events|
  {
    if events == [] {
      DetachedOpIsInert(w, t);
    } else {
      StepTracks(w, events[0], t.op);
      StepInv(w, events[0]);
      DetachedForGood(Step(w, events[0]), events[1..], t);
    }
  }

  // ---- A running verb pins the binding ----

  /** The events that end the window's interest in the running verb `m`: its own terminal, its card or the agent
      going away, and a re-target to a reader other than the resolved one. */
  predicate Unpins(w: Window, e: Event, m: nat) {
    match e
    case RegistryChanged(reg, _) => !reg.available || !OnCardStill(w, reg)
    case Finished(t) => t.op == m
    case ReaderBound(id) => id != w.resolvedReaderId
    case _ => false
  }

  predicate OnCardStill(w: Window, reg: Registry) {
    w.card.Some? && CardLive(reg, w.card.value)
  }

  /** What a pinned step leaves alone. Only a capability loss touches the rows and the state. */
  ghost predicate SameVerb(w: Window, v: Window) {
    && v.mutationOp == w.mutationOp && v.card == w.card && v.peer.log == w.peer.log
    && v.resolvedReaderId == w.resolvedReaderId && v.pendingKind == w.pendingKind
    && v.resultMessage == w.resultMessage && v.resultIsError == w.resultIsError
    && (v.mutationCancelRequested <== w.mutationCancelRequested)
  }

  lemma {:induction false} UntrackedSweep(w: Window, ts: seq<Terminal>)
    requires Inv(w) && forall t <- ts :: !Tracked(w, t.op)
    ensures DeliverAll(w, ts) == w.(peer := w.peer.(live := DeliverAll(w, ts).peer.live))
    decreases |ts|
  {
    if ts != [] {
      DetachedOpIsInert(w, ts[0]);
      DeliverInv(w, ts[0]);
      UntrackedSweep(Deliver(w, ts[0]), ts[1..]);
    }
  }

  /** A registry change that leaves the verb's card and the agent in place is deferred whole. */
  lemma RegistryChangeDeferred(w: Window, reg: Registry, sweep: seq<Terminal>)
    requires Inv(w) && Allowed(w, RegistryChanged(reg, sweep)) && w.mutationOp.Some?
    requires reg.available && OnCardStill(w, reg)
    ensures SameVerb(w, Step(w, RegistryChanged(reg, sweep)))
    ensures Step(w, RegistryChanged(reg, sweep)).state == w.state
    ensures Step(w, RegistryChanged(reg, sweep)).records == w.records
  {
    UntrackedSweep(w, sweep);
  }

  /** When its card or the agent goes, the verb goes. */
  lemma LostVerb(w: Window, reg: Registry, sweep: seq<Terminal>, m: nat)
    requires Inv(w) && w.mutationOp == Some(m)
    requires !reg.available || !OnCardStill(w, reg)
    ensures Step(w, RegistryChanged(reg, sweep)).mutationOp.None?
  {
    DeliverAllInv(w, sweep);
    DeliverAllLog(w, sweep);
    var d := Lose(DeliverAll(w, sweep), reg);
    if reg.available {
      assert d.mutationOp.None?;
      RefreshShape(d);
    }
  }

  /** An explicit re-target away from the resolved reader cancels the verb and leaves Working. */
  lemma RetargetLeavesWorking(w: Window, id: string, m: nat)
    requires Inv(w) && w.mutationOp == Some(m) && id != w.resolvedReaderId
    ensures BindReader(w, id).mutationOp.None? && BindReader(w, id).state != Working
    ensures m in BindReader(w, id).peer.cancelled
  {
    BindReaderInv(w, id);
    var v := ResetList(DetachMutation(w)).(readerId := id);
    RefreshShape(v);
  }

  lemma CapabilityKeepsVerb(w: Window, reg: Registry, card: nat)
    requires Inv(w) && w.mutationOp.Some?
    ensures SameVerb(w, Step(w, CapabilityChanged(reg, card)))
  {
  }

  lemma EndUnpins(w: Window, t: Terminal, m: nat)
    requires Inv(w) && w.mutationOp == Some(m)
    ensures Deliver(w, t).mutationOp == Some(m) <==> t.op != m
    ensures t.op != m ==> SameVerb(w, Deliver(w, t))
  {
    if t.op == m {
      TerminalsQuiesce(w, t);
      DeliverShape(w, t);
    } else {
      DetachedOpIsInert(w, t);
    }
  }

  lemma RebindPins(w: Window, id: string, m: nat)
    requires Inv(w) && w.mutationOp == Some(m)
    ensures BindReader(w, id).mutationOp == Some(m) <==> id == w.resolvedReaderId
    ensures id == w.resolvedReaderId ==> SameVerb(w, BindReader(w, id))
  {
    if id != w.resolvedReaderId {
      RetargetLeavesWorking(w, id, m);
    }
  }

  /** The verb survives a step exactly when the step is none of those events, and then the card stays bound,
      nothing is minted and its banner is still to come. */
  lemma VerbPinsBinding(w: Window, e: Event, m: nat)
    requires Inv(w) && Allowed(w, e) && w.mutationOp == Some(m)
    ensures Step(w, e).mutationOp == Some(m) <==> !Unpins(w, e, m)
    ensures !Unpins(w, e, m) ==> SameVerb(w, Step(w, e))
  {
    match e
    case RegistryChanged(reg, sweep) =>
      if reg.available && OnCardStill(w, reg) {
        RegistryChangeDeferred(w, reg, sweep);
      } else {
        LostVerb(w, reg, sweep, m);
      }
    case CapabilityChanged(reg, card) => CapabilityKeepsVerb(w, reg, card);
    case Finished(t) => EndUnpins(w, t, m);
    case ReaderBound(id) => RebindPins(w, id, m);
    case _ =>
  }

  ghost predicate NeverUnpins(w: Window, events: seq<Event>, m: nat)
    decreases |events|
  {
    events == [] || (!Unpins(w, events[0], m) && NeverUnpins(Step(w, events[0]), events[1..], m))
  }

  /** Over a whole run without those events, the same verb runs on the same card and nothing else is minted. */
  lemma {:induction false} VerbPinsRun(w: Window, events: seq<Event>, m: nat)
    requires Inv(w) && AllAllowed(w, events) && w.mutationOp == Some(m) && NeverUnpins(w, events, m)
    ensures SameVerb(w, Run(w, events))
    decreases |events|
  {
    if events != [] {
      VerbPinsBinding(w, events[0], m);
      StepInv(w, events[0]);
      VerbPinsRun(Step(w, events[0]), events[1..], m);
    }
  }

  // ---- A cancelled read stays cancelled ----

  /** The reader id resolves to the card `c`, which can be managed. */
  predicate ResolvesTo(readerId: string, reg: Registry, c: nat) {
    reg.available && Manageable(reg, c) && ResolveReader(readerId, reg).Some?
    && HeldCard(ResolveReader(readerId, reg).value) == Some(c)
  }

  /** The event neither rebinds the window away from card `c`, nor starts a verb, nor finds `c` without PIN
      management. */
  predicate Settles(w: Window, e: Event, c: nat) {
    match e
    case RegistryChanged(reg, _) => ResolvesTo(w.readerId, reg, c)
    case CapabilityChanged(reg, card) => card == c ==> Manageable(reg, c)
    case RefreshCalled => ResolvesTo(w.readerId, w.peer.registry, c)
    case ReaderBound(id) => ResolvesTo(id, w.peer.registry, c)
    case VerbCalled(_) => false
    case _ => true
  }

  /** The window rests on card `c` with its listing settled and nothing running. */
  ghost predicate SettledOn(w: Window, c: nat) {
    w.settled && w.card == Some(c) && w.mutationOp.None?
  }

  lemma SettledRefresh(w: Window, c: nat)
    requires SettledOn(w, c) && w.listOp.None?
    ensures ResolvesTo(w.readerId, w.peer.registry, c) <==> SettledOn(Refresh(w), c)
    ensures ResolvesTo(w.readerId, w.peer.registry, c) ==>
              Refresh(w) == w.(resolvedReaderId := Refresh(w).resolvedReaderId)
  {
    var reader := ResolveReader(w.readerId, w.peer.registry);
    if w.peer.registry.available && reader.Some? {
      var v := w.(resolvedReaderId := reader.value.id);
      if HeldCard(reader.value) != Some(c) {
        ClassifyKeepsCard(BindCard(v, HeldCard(reader.value)));
      }
    }
  }

  lemma ClassifyKeepsCard(w: Window)
    ensures Classify(w).card == w.card
  {
  }

  lemma SettledLoses(w: Window, reg: Registry, c: nat)
    requires Inv(w) && SettledOn(w, c)
    ensures CardLive(reg, c) ==> SettledOn(Lose(w, reg), c)
    ensures !CardLive(reg, c) ==> Lose(w, reg).card.None?
    ensures Lose(w, reg).listOp.None? && Lose(w, reg).peer.log == w.peer.log
    ensures Lose(w, reg).records == w.records && Lose(w, reg).state == w.state && Lose(w, reg).readerId == w.readerId
  {
  }

  /** The latch holds across a step exactly when the step does none of the three, and then nothing is minted
      and what is shown does not move. */
  lemma LatchStep(w: Window, e: Event, c: nat)
    requires Inv(w) && Allowed(w, e) && SettledOn(w, c)
    ensures Settles(w, e, c) <==> SettledOn(Step(w, e), c)
    ensures Settles(w, e, c) ==>
              var v := Step(w, e);
              v.peer.log == w.peer.log && v.listOp.None? && v.state == w.state && v.records == w.records
  {
    match e
    case RegistryChanged(reg, sweep) =>
      UntrackedSweep(w, sweep);
      var d := DeliverAll(w, sweep);
      DeliverAllInv(w, sweep);
      SettledLoses(d, reg, c);
      if CardLive(reg, c) {
        SettledRefresh(Lose(d, reg), c);
      } else {
        ResolvedIsLive(w.readerId, reg, c);
        UnboundRefresh(Lose(d, reg), c);
      }
    case CapabilityChanged(reg, card) =>
    case Finished(t) => DetachedOpIsInert(w, t);
    case RefreshCalled => SettledRefresh(w, c);
    case ReaderBound(id) => SettledRefresh(w.(readerId := id), c);
    case VerbCalled(v) =>
    case CancelCalled =>
  }

  lemma ResolvedIsLive(readerId: string, reg: Registry, c: nat)
    ensures ResolvesTo(readerId, reg, c) ==> CardLive(reg, c)
  {
  }

  /** A window without a card settles on none by refreshing. */
  lemma UnboundRefresh(w: Window, c: nat)
    requires w.card.None? && w.mutationOp.None?
    ensures !SettledOn(Refresh(w), c)
  {
    match ResolveReader(w.readerId, w.peer.registry)
    case None =>
    case Some(reader) =>
      var v := BindCard(w.(resolvedReaderId := reader.id), HeldCard(reader));
      assert !v.settled;
      ClassifySettles(v);
  }

  lemma ClassifySettles(w: Window)
    requires !w.settled
    ensures !Classify(w).settled
  {
  }

  ghost predicate AllSettle(w: Window, events: seq<Event>, c: nat)
    decreases |events|
  {
    events == [] || (Settles(w, events[0], c) && AllSettle(Step(w, events[0]), events[1..], c))
  }

  lemma {:induction false} LatchRun(w: Window, events: seq<Event>, c: nat)
    requires Inv(w) && AllAllowed(w, events) && SettledOn(w, c) && AllSettle(w, events, c)
    ensures SettledOn(Run(w, events), c) && Run(w, events).peer.log == w.peer.log
    decreases |events|
  {
    if events != [] {
      LatchStep(w, events[0], c);
      StepInv(w, events[0]);
      LatchRun(Step(w, events[0]), events[1..], c);
    }
  }

  /** A cancel the user asked for is remembered for as long as its operation is tracked. */
  ghost predicate CancelKnown(w: Window, op: nat) {
    (w.listOp == Some(op) ==> w.listCancelRequested) && (w.mutationOp == Some(op) ==> w.mutationCancelRequested)
  }

  ghost predicate FlagsKept(w: Window, v: Window) {
    && (v.listOp.Some? && v.listOp == w.listOp && w.listCancelRequested ==> v.listCancelRequested)
    && (v.mutationOp.Some? && v.mutationOp == w.mutationOp && w.mutationCancelRequested ==> v.mutationCancelRequested)
  }

  lemma BindCardFlags(w: Window, card: Option<nat>)
    ensures FlagsKept(w, BindCard(w, card))
  {
  }

  lemma ClassifyFlags(w: Window)
    requires w.listOp.Some? ==> w.listOp.value < |w.peer.log|
    ensures FlagsKept(w, Classify(w))
  {
  }

  lemma RefreshFlags(w: Window)
    requires w.listOp.Some? ==> w.listOp.value < |w.peer.log|
    ensures FlagsKept(w, Refresh(w))
  {
    BindCardFlags(w.(resolvedReaderId := ""), None);
    match ResolveReader(w.readerId, w.peer.registry)
    case None =>
    case Some(reader) =>
      var v := w.(resolvedReaderId := reader.id);
      BindCardKeeps(v, HeldCard(reader));
      BindCardFlags(v, HeldCard(reader));
      ClassifyFlags(BindCard(v, HeldCard(reader)));
      ClassifyShape(BindCard(v, HeldCard(reader)));
  }

  lemma DeliverFlags(w: Window, t: Terminal)
    requires Inv(w)
    ensures FlagsKept(w, Deliver(w, t))
  {
    if w.mutationOp == Some(t.op) {
      DeliverShape(w, t);
    } else if !Tracked(w, t.op) {
      DetachedOpIsInert(w, t);
    }
  }

  lemma {:induction false} DeliverAllFlags(w: Window, ts: seq<Terminal>, op: nat)
    requires Inv(w) && op < |w.peer.log| && CancelKnown(w, op)
    ensures CancelKnown(DeliverAll(w, ts), op)
    decreases |ts|
  {
    if ts != [] {
      DeliverFlags(w, ts[0]);
      DeliverInv(w, ts[0]);
      if !Tracked(w, op) {
        DeliverTracks(w, ts[0], op);
      }
      DeliverShape(w, ts[0]);
      DeliverAllFlags(Deliver(w, ts[0]), ts[1..], op);
    }
  }

  lemma RefreshKnown(w: Window, op: nat)
    requires op < |w.peer.log| && CancelKnown(w, op)
    requires w.listOp.Some? ==> w.listOp.value < |w.peer.log|
    ensures CancelKnown(Refresh(w), op)
  {
    RefreshFlags(w);
    RefreshShape(w);
  }

  lemma RegistryKnown(w: Window, reg: Registry, sweep: seq<Terminal>, op: nat)
    requires Inv(w) && op < |w.peer.log| && CancelKnown(w, op)
    ensures CancelKnown(Step(w, RegistryChanged(reg, sweep)), op)
  {
    DeliverAllFlags(w, sweep, op);
    DeliverAllInv(w, sweep);
    DeliverAllLog(w, sweep);
    RefreshKnown(Lose(DeliverAll(w, sweep), reg), op);
  }

  lemma CancelStepKnown(w: Window, e: Event, op: nat)
    requires Inv(w) && op < |w.peer.log| && CancelKnown(w, op)
    ensures CancelKnown(Step(w, e), op)
  {
    match e
    case RegistryChanged(reg, sweep) => RegistryKnown(w, reg, sweep, op);
    case Finished(t) => DeliverFlags(w, t); DeliverShape(w, t);
    case RefreshCalled => RefreshKnown(w, op);
    case ReaderBound(id) =>
      var v := if w.mutationOp.Some? && id != w.resolvedReaderId then ResetList(DetachMutation(w)) else w;
      RefreshKnown(v.(readerId := id), op);
    case _ =>
  }

  lemma {:induction false} CancelRunKnown(w: Window, events: seq<Event>, op: nat)
    requires Inv(w) && AllAllowed(w, events) && op < |w.peer.log| && CancelKnown(w, op)
    ensures CancelKnown(Run(w, events), op) && |w.peer.log| <= |Run(w, events).peer.log|
    decreases |events|
  {
    if events != [] {
      CancelStepKnown(w, events[0], op);
      StepInv(w, events[0]);
      StepGrows(w, events[0]);
      CancelRunKnown(Step(w, events[0]), events[1..], op);
    }
  }

  lemma StepGrows(w: Window, e: Event)
    requires Inv(w)
    ensures w.peer.log <= Step(w, e).peer.log
  {
    match e
    case RegistryChanged(reg, sweep) =>
      DeliverAllLog(w, sweep);
      RefreshShape(Lose(DeliverAll(w, sweep), reg));
    case CapabilityChanged(reg, card) => ClassifyShape(w.(peer := w.peer.(registry := reg)));
    case Finished(t) => DeliverShape(w, t);
    case RefreshCalled => RefreshShape(w);
    case ReaderBound(id) => BindReaderShape(w, id);
    case _ =>
  }

  /** The user cancels a listing, anything at all happens until it terminates, and it terminates in any way at
      all: from then on no refresh, capability change or re-bind that stays on the card lists again. */
  lemma CancelledReadNeverReprompts(w: Window, before: seq<Event>, t: Terminal, after: seq<Event>, c: nat)
    requires Inv(w) && w.listOp == Some(t.op)
    requires AllAllowed(Step(w, CancelCalled), before)
    requires var b := Run(Step(w, CancelCalled), before);
             b.listOp == Some(t.op) && b.card == Some(c)
             && AllAllowed(Step(b, Finished(t)), after) && AllSettle(Step(b, Finished(t)), after, c)
    ensures var b := Run(Step(w, CancelCalled), before);
            Run(Step(b, Finished(t)), after).peer.log == b.peer.log
  {
    CancelledThen(w, before, t.op);
    var b := Run(Step(w, CancelCalled), before);
    CancelledListSettles(b, t, c);
    LatchRun(Step(b, Finished(t)), after, c);
  }

  /** After a cancel and any run, the cancel is known. */
  lemma CancelledThen(w: Window, before: seq<Event>, op: nat)
    requires Inv(w) && Tracked(w, op) && AllAllowed(Step(w, CancelCalled), before)
    ensures var b := Run(Step(w, CancelCalled), before); Inv(b) && CancelKnown(b, op)
  {
    var a := Step(w, CancelCalled);
    StepInv(w, CancelCalled);
    CancelRunKnown(a, before, op);
    RunInv(a, before);
  }

  /** However a cancelled listing ends, it latches. */
  lemma CancelledListSettles(w: Window, t: Terminal, c: nat)
    requires Inv(w) && w.listOp == Some(t.op) && w.card == Some(c) && CancelKnown(w, t.op)
    ensures Inv(Deliver(w, t)) && SettledOn(Deliver(w, t), c) && Deliver(w, t).peer.log == w.peer.log
  {
    DeliverInv(w, t);
    DeliverCases(w, t);
  }

  /** A verb the user cancelled never ends in an error banner, whatever the agent reports and whatever
      happened before it ended; and no refusal the agent named ever does. */
  lemma CancelIsNeverRed(w: Window, before: seq<Event>, t: Terminal)
    requires Inv(w) && w.mutationOp == Some(t.op)
    requires AllAllowed(Step(w, CancelCalled), before)
    requires Run(Step(w, CancelCalled), before).mutationOp == Some(t.op)
    ensures !Step(Run(Step(w, CancelCalled), before), Finished(t)).resultIsError
    ensures t.mutation.named.Some? ==> !Step(w, Finished(t)).resultIsError
  {
    CancelledThen(w, before, t.op);
    Banner(Run(Step(w, CancelCalled), before), t);
    Banner(w, t);
  }

  lemma DoneBanner(w: Window, r: MutationReport)
    ensures OnMutationDone(w, r).resultIsError <==>
              !WasCancelled(w, r) && r.named.None? && !IsNeutral(EffectiveOutcome(w, r))
    ensures OnMutationDone(w, r).resultMessage ==
              match r.named case Some(named) => RefusalText(named) case None => MutationMessage(w, r)
  {
    var v := w.(mutationOp := None, mutationCancelRequested := false);
    if r.named.Some? {
      RelistQuiet(v.(resultIsError := false, resultMessage := RefusalText(r.named.value), state := Result));
    } else {
      RelistQuiet(v.(resultIsError := !WasCancelled(w, r) && !IsNeutral(EffectiveOutcome(w, r)),
                     resultMessage := MutationMessage(w, r), state := Result));
    }
  }

  /** The banner is red exactly for a verb that ran, was not cancelled, and did not end well. */
  lemma Banner(w: Window, t: Terminal)
    requires Inv(w) && w.mutationOp == Some(t.op)
    ensures Deliver(w, t).resultIsError <==>
              !WasCancelled(w, t.mutation) && t.mutation.named.None? && !IsNeutral(EffectiveOutcome(w, t.mutation))
  {
    DeliverCases(w, t);
    DoneBanner(w.(peer := w.peer.(live := w.peer.live - {t.op})), t.mutation);
  }

  lemma RelistQuiet(w: Window)
    ensures RelistAfterMutation(w).resultIsError == w.resultIsError
    ensures RelistAfterMutation(w).resultMessage == w.resultMessage
  {
  }

  // ---- How many operations a run can mint ----

  /** A terminal brings the window strictly closer to idle: a verb may owe a listing, a listing owes nothing. */
  function Owed(w: Window): nat {
    if w.mutationOp.Some? then 2 else if w.listOp.Some? then 1 else 0
  }

  lemma TerminalsQuiesce(w: Window, t: Terminal)
    requires Inv(w) && Tracked(w, t.op)
    ensures Owed(Deliver(w, t)) < Owed(w)
    ensures w.listOp == Some(t.op) ==> Deliver(w, t).peer.log == w.peer.log
    ensures w.mutationOp == Some(t.op) ==>
              Deliver(w, t).peer.log == w.peer.log +
                if Relists(w, t.mutation) then [Minted(ListCredentials, w.card.value)] else []
  {
    if w.mutationOp == Some(t.op) {
      MutationDoneMints(w.(peer := w.peer.(live := w.peer.live - {t.op})), t.mutation);
    }
  }

  /** The operations an event may ever cause: a verb and its listing, or one listing. */
  function Allowance(e: Event): nat {
    match e
    case VerbCalled(_) => 2
    case Finished(_) => 0
    case CancelCalled => 0
    case _ => 1
  }

  function TotalAllowance(events: seq<Event>): nat {
    if events == [] then 0 else Allowance(events[0]) + TotalAllowance(events[1..])
  }

  /** Operations minted so far, plus the listing a running verb still owes. */
  function Charged(w: Window): nat {
    |w.peer.log| + if w.mutationOp.Some? then 1 else 0
  }

  lemma {:induction false} DeliverAllCharge(w: Window, ts: seq<Terminal>)
    requires Inv(w)
    ensures Charged(DeliverAll(w, ts)) <= Charged(w)
    decreases |ts|
  {
    if ts != [] {
      DeliverCharge(w, ts[0]);
      DeliverInv(w, ts[0]);
      DeliverAllCharge(Deliver(w, ts[0]), ts[1..]);
    }
  }

  lemma DeliverCharge(w: Window, t: Terminal)
    requires Inv(w)
    ensures Charged(Deliver(w, t)) <= Charged(w)
  {
    if Tracked(w, t.op) {
      TerminalsQuiesce(w, t);
    } else {
      DetachedOpIsInert(w, t);
    }
  }

  lemma StepCharge(w: Window, e: Event)
    requires Inv(w)
    ensures Charged(Step(w, e)) <= Charged(w) + Allowance(e)
  {
    match e
    case RegistryChanged(reg, sweep) =>
      DeliverAllCharge(w, sweep);
      RefreshShape(Lose(DeliverAll(w, sweep), reg));
    case CapabilityChanged(reg, card) => ClassifyShape(w.(peer := w.peer.(registry := reg)));
    case Finished(t) => DeliverCharge(w, t);
    case RefreshCalled => RefreshShape(w);
    case ReaderBound(id) => BindReaderShape(w, id);
    case _ =>
  }

  /** A run mints at most two operations for each verb and one for each other event that re-classifies. */
  lemma {:induction false} RunCharge(w: Window, events: seq<Event>)
    requires Inv(w) && AllAllowed(w, events)
    ensures Charged(Run(w, events)) <= Charged(w) + TotalAllowance(events)
    decreases |events|
  {
    if events != [] {
      StepCharge(w, events[0]);
      StepInv(w, events[0]);
      RunCharge(Step(w, events[0]), events[1..]);
    }
  }

  /** From the start: the operations of a whole run are at most twice its verbs plus its registry, capability,
      refresh and bind events. */
  lemma MintedBound(reg: Registry, events: seq<Event>)
    requires CardsDistinct(reg) && AllAllowed(Initial(reg), events)
    ensures |Run(Initial(reg), events).peer.log| <= TotalAllowance(events)
  {
    InitialInv(reg);
    RunCharge(Initial(reg), events);
  }

  // ---- Whose credential a banner names ----

  /** A verb asks the agent for exactly one operation, on the bound card, and runs until that ends. */
  lemma VerbStarts(w: Window, v: Verb)
    requires CanStartMutation(w)
    ensures var a := RunVerb(w, v);
            && a.peer.log == w.peer.log + [Minted(VerbRequest(w.records, v), w.card.value)]
            && a.mutationOp == Some(|w.peer.log|) && a.state == Working
            && a.pendingKind == PresentedKind(w.records, v) && a.removalNotice == NoMessage
  {
  }

  lemma BannerText(w: Window, t: Terminal)
    requires Inv(w) && w.mutationOp == Some(t.op)
    ensures Deliver(w, t).resultMessage ==
              match t.mutation.named case Some(named) => RefusalText(named) case None => MutationMessage(w, t.mutation)
  {
    DeliverCases(w, t);
    DoneBanner(w.(peer := w.peer.(live := w.peer.live - {t.op})), t.mutation);
  }

  lemma MessageNames(w: Window, t: Terminal)
    requires Inv(w) && w.mutationOp == Some(t.op)
    ensures Deliver(w, t).resultMessage.OutcomeText? ==> Deliver(w, t).resultMessage.presented == w.pendingKind
  {
    BannerText(w, t);
  }

  lemma PinnedBanner(w: Window, events: seq<Event>, t: Terminal)
    requires Inv(w) && w.mutationOp == Some(t.op)
    requires AllAllowed(w, events) && NeverUnpins(w, events, t.op)
    ensures var z := Deliver(Run(w, events), t);
            z.resultMessage.OutcomeText? ==> z.resultMessage.presented == w.pendingKind
  {
    VerbPinsRun(w, events, t.op);
    RunInv(w, events);
    MessageNames(Run(w, events), t);
  }

  /** Whatever happens to the rows while a verb runs, its banner speaks of the credential it presented when it
      was called. */
  lemma BannerNamesPresented(w: Window, v: Verb, events: seq<Event>, t: Terminal)
    requires Inv(w) && CanStartMutation(w) && t.op == |w.peer.log|
    requires AllAllowed(RunVerb(w, v), events) && NeverUnpins(RunVerb(w, v), events, t.op)
    ensures var z := Deliver(Run(RunVerb(w, v), events), t);
            z.resultMessage.OutcomeText? ==> z.resultMessage.presented == PresentedKind(w.records, v)
  {
    VerbStarts(w, v);
    RunVerbInv(w, v);
    PinnedBanner(RunVerb(w, v), events, t);
  }

  // ---- A card pulled in the middle of a verb ----

  /** The client library's sweep of the running verb: cancelled by the removal, with nothing from the agent. */
  predicate SweptByRemoval(r: MutationReport) {
    r.status == Cancelled && r.errorCode == CardRemovedError && r.outcome == Unspecified && r.named.None?
  }

  lemma {:induction false} DeliverAllSplit(w: Window, ts: seq<Terminal>, us: seq<Terminal>)
    ensures DeliverAll(w, ts + us) == DeliverAll(DeliverAll(w, ts), us)
    decreases |ts|
  {
    if ts == [] {
      assert ts + us == us;
    } else {
      assert (ts + us)[1..] == ts[1..] + us;
      DeliverAllSplit(Deliver(w, ts[0]), ts[1..], us);
    }
  }

  /** A pull the user did not ask for lists nothing on the dying card, and says what happened on the surface
      that is left when no other card takes the window over. The other operations on that card may be swept
      before and after the verb. */
  lemma PulledCardExplained(w: Window, reg: Registry, before: seq<Terminal>, t: Terminal, after: seq<Terminal>)
    requires Inv(w) && w.mutationOp == Some(t.op) && !w.mutationCancelRequested && SweptByRemoval(t.mutation)
    requires forall u <- before + after :: u.op != t.op && u.op < |w.peer.log|
    requires CardsDistinct(reg) && !CardLive(reg, w.card.value) && reg.available
    ensures var v := Step(w, RegistryChanged(reg, before + [t] + after));
            && (v.card.None? ==>
                  v.state == NoCard && v.peer.log == w.peer.log
                  && v.removalNotice == OutcomeText(CardRemoved, w.pendingKind, t.mutation.retriesLeft))
            && (v.card.Some? ==> v.removalNotice == NoMessage)
  {
    SweptNotice(w, before, t, after);
    var d := DeliverAll(w, before + [t] + after);
    var v := Lose(d, reg);
    RefreshNotice(v);
    RefreshShape(v);
  }

  lemma EndedByRemoval(w: Window, t: Terminal)
    requires Inv(w) && w.mutationOp == Some(t.op) && !w.mutationCancelRequested && SweptByRemoval(t.mutation)
    ensures var v := Deliver(w, t);
            && Inv(v) && v.card == w.card && v.listOp.None? && v.mutationOp.None? && v.peer.log == w.peer.log
            && v.removalNotice == OutcomeText(CardRemoved, w.pendingKind, t.mutation.retriesLeft)
  {
    DeliverInv(w, t);
    DeliverCases(w, t);
  }

  /** The sweep of the dying card, the running verb among the rest. */
  lemma SweptNotice(w: Window, before: seq<Terminal>, t: Terminal, after: seq<Terminal>)
    requires Inv(w) && w.mutationOp == Some(t.op) && !w.mutationCancelRequested && SweptByRemoval(t.mutation)
    requires forall u <- before + after :: u.op != t.op && u.op < |w.peer.log|
    ensures var v := DeliverAll(w, before + [t] + after);
            && v.card == w.card && v.listOp.None? && v.mutationOp.None? && v.peer.log == w.peer.log
            && v.removalNotice == OutcomeText(CardRemoved, w.pendingKind, t.mutation.retriesLeft)
  {
    UntrackedSweep(w, before);
    var a := DeliverAll(w, before);
    DeliverAllInv(w, before);
    EndedByRemoval(a, t);
    UntrackedSweep(Deliver(a, t), after);
    DeliverAllSplit(w, before + [t], after);
    DeliverAllSplit(w, before, [t]);
    assert DeliverAll(a, [t]) == Deliver(a, t) by {
      assert [t][1..] == [];
    }
  }

  /** While no card is bound, nothing but a card takes the explanation away. */
  lemma NoticeStays(w: Window, e: Event)
    requires Inv(w) && Allowed(w, e) && w.card.None? && Step(w, e).card.None?
    ensures Step(w, e).removalNotice == w.removalNotice
  {
    match e
    case RegistryChanged(reg, sweep) =>
      UntrackedSweep(w, sweep);
      DeliverAllInv(w, sweep);
      UnboundNotice(Lose(DeliverAll(w, sweep), reg));
    case Finished(t) => DetachedOpIsInert(w, t);
    case RefreshCalled => UnboundNotice(w);
    case ReaderBound(id) => UnboundNotice(w.(readerId := id));
    case _ =>
  }

  lemma UnboundNotice(w: Window)
    requires w.card.None? && w.mutationOp.None? && Refresh(w).card.None?
    ensures Refresh(w).removalNotice == w.removalNotice
  {
    if w.peer.registry.available {
      RefreshNotice(w);
    }
  }

  /** No event of the run binds a card. */
  ghost predicate NeverBinds(w: Window, events: seq<Event>)
    decreases |events|
  {
    events == [] || (Step(w, events[0]).card.None? && NeverBinds(Step(w, events[0]), events[1..]))
  }

  lemma {:induction false} NoticeStaysRun(w: Window, events: seq<Event>)
    requires Inv(w) && AllAllowed(w, events) && w.card.None? && NeverBinds(w, events)
    ensures Run(w, events).removalNotice == w.removalNotice && Run(w, events).card.None?
    decreases |events|
  {
    if events != [] {
      NoticeStays(w, events[0]);
      StepInv(w, events[0]);
      NoticeStaysRun(Step(w, events[0]), events[1..]);
    }
  }

  /** The bind that ends it leaves no notice behind. */
  lemma BindingClearsNotice(w: Window, e: Event)
    requires Inv(w) && Allowed(w, e) && w.card.None? && Step(w, e).card.Some?
    ensures Step(w, e).removalNotice == NoMessage
  {
    match e
    case RegistryChanged(reg, sweep) =>
      UntrackedSweep(w, sweep);
      DeliverAllInv(w, sweep);
      UnboundBinds(Lose(DeliverAll(w, sweep), reg));
    case CapabilityChanged(reg, card) => ClassifyKeepsCard(w.(peer := w.peer.(registry := reg)));
    case Finished(t) => DetachedOpIsInert(w, t);
    case RefreshCalled => UnboundBinds(w);
    case ReaderBound(id) => UnboundBinds(w.(readerId := id));
    case _ =>
  }

  lemma UnboundBinds(w: Window)
    requires w.card.None? && w.mutationOp.None? && Refresh(w).card.Some?
    ensures Refresh(w).removalNotice == NoMessage
  {
    if w.peer.registry.available {
      RefreshNotice(w);
    }
  }

  /** The removal of a card in the middle of a verb stays explained through everything that happens until a card
      is bound again, and the bind that ends it leaves no notice behind. */
  lemma PulledCardStaysExplained(w: Window, reg: Registry, before: seq<Terminal>, t: Terminal, after: seq<Terminal>,
                                 events: seq<Event>, e: Event)
    requires Inv(w) && w.mutationOp == Some(t.op) && !w.mutationCancelRequested && SweptByRemoval(t.mutation)
    requires forall u <- before + after :: u.op != t.op && u.op < |w.peer.log|
    requires !CardLive(reg, w.card.value) && reg.available
    requires Allowed(w, RegistryChanged(reg, before + [t] + after))
    requires var v := Step(w, RegistryChanged(reg, before + [t] + after));
             v.card.None? && AllAllowed(v, events) && NeverBinds(v, events) && Allowed(Run(v, events), e)
    ensures var v := Run(Step(w, RegistryChanged(reg, before + [t] + after)), events);
            && v.removalNotice == OutcomeText(CardRemoved, w.pendingKind, t.mutation.retriesLeft)
            && (Step(v, e).card.Some? <==> Step(v, e).removalNotice == NoMessage)
  {
    var pulled := RegistryChanged(reg, before + [t] + after);
    PulledCardExplained(w, reg, before, t, after);
    StepInv(w, pulled);
    NoticeStaysRun(Step(w, pulled), events);
    RunInv(Step(w, pulled), events);
    var v := Run(Step(w, pulled), events);
    if Step(v, e).card.Some? {
      BindingClearsNotice(v, e);
    } else {
      NoticeStays(v, e);
    }
  }

  lemma RefreshNotice(w: Window)
    requires w.card.None? && w.mutationOp.None? && w.peer.registry.available
    ensures Refresh(w).card.None? ==> Refresh(w).removalNotice == w.removalNotice && Refresh(w).state == NoCard
    ensures Refresh(w).card.Some? ==> Refresh(w).removalNotice == NoMessage
  {
    var reader := ResolveReader(w.readerId, w.peer.registry);
    if reader.Some? {
      var v := BindCard(w.(resolvedReaderId := reader.value.id), HeldCard(reader.value));
      ClassifyKeepsCard(v);
    }
  }
}
