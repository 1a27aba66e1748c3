/** The plasmoid's reads of the card it shows (SmartCardHandler: bindCard, classifyActiveCard, ensureFreeRead,
    readIdentity, the photo read and their terminals): whose rows and photo are on screen, and which reads may
    start without anyone asking. */
module CardReads {
  import opened Wrappers
  import opened Decimal
  import opened PhotoSlots

  datatype Ui =
    | NoCard | PreAuthRequired | IdentityOnly | PkiOnly | Hybrid | UnknownCard | Error | AgentUnavailable

  /** What a card announces: whether reading it needs an unlock first, and what the client library's resolver
      makes of its capabilities before and after its identity was read. */
  datatype Card = Card(unlock: bool, before: Ui, after: Ui)

  datatype Kind = Identity | Photo

  /** A read asked of the agent; `unlock` is what the card announced at that moment. */
  datatype Read = Read(kind: Kind, card: nat, byUser: bool, unlock: bool)

  datatype IdentityReport = IdentityReport(ok: bool, pureCancel: bool)

  /** `rowsFrom` is the card the rows on screen were read from, when there are any, and `photo` the picture the
      handler keeps for saving. `store` is shared by all handlers. */
  datatype Handler = Handler(
    ui: Ui,
    card: Option<nat>,
    identityOp: Option<nat>,
    photoOp: Option<nat>,
    busy: bool,
    identityRead: bool,
    rowsFrom: Option<nat>,
    hasPhoto: bool,
    photo: Option<Picture>,
    photoUrl: string,
    token: nat,
    slot: nat,
    viewActive: bool,
    failed: bool,
    cards: map<nat, Card>,
    store: map<nat, Picture>,
    log: seq<Read>,
    live: set<nat>,
    cancelled: set<nat>,
    identitySlots: set<nat>,
    photoSlots: set<nat>)

  // ---- Starting reads ----

  function ReadIdentity(h: Handler, byUser: bool): Handler {
    if h.card.None? || h.identityOp.Some? then h
    else
      var op := |h.log|;
      var unlock := h.card.value in h.cards && h.cards[h.card.value].unlock;
      h.(failed := false, identityOp := Some(op), busy := true,
         log := h.log + [Read(Identity, h.card.value, byUser, unlock)],
         live := h.live + {op}, identitySlots := h.identitySlots + {op})
  }

  /** Whether the card on view may be read without asking: no unlock, not read, not being read, and identity
      data to read. */
  predicate FreeReadDue(h: Handler) {
    && h.card.Some? && h.card.value in h.cards && !h.cards[h.card.value].unlock
    && !h.identityRead && h.identityOp.None?
    && (h.ui == IdentityOnly || h.ui == Hybrid)
  }

  function EnsureFreeRead(h: Handler): Handler {
    if FreeReadDue(h) then ReadIdentity(h, false) else h
  }

  function ResolvedUi(c: Card, identityRead: bool): Ui {
    if c.unlock && !identityRead then PreAuthRequired else if identityRead then c.after else c.before
  }

  function Classify(h: Handler): Handler {
    if h.card.None? || h.card.value !in h.cards then h.(ui := NoCard)
    else
      var v := h.(ui := ResolvedUi(h.cards[h.card.value], h.identityRead));
      if h.viewActive then EnsureFreeRead(v) else v
  }

  function StartPhotoRead(h: Handler): Handler {
    if h.card.None? || h.photoOp.Some? then h
    else
      var op := |h.log|;
      var unlock := h.card.value in h.cards && h.cards[h.card.value].unlock;
      h.(photoOp := Some(op),
         log := h.log + [Read(Photo, h.card.value, false, unlock)],
         live := h.live + {op}, photoSlots := h.photoSlots + {op})
  }

  // ---- Binding ----

  function Forgotten(s: set<nat>, op: Option<nat>): set<nat> {
    if op.Some? then s - {op.value} else s
  }

  function Noted(s: set<nat>, op: Option<nat>): set<nat> {
    if op.Some? then s + {op.value} else s
  }

  function BindCard(h: Handler, card: Option<nat>): Handler {
    if card.Some? && h.card == card then h
    else
      h.(busy := h.busy && h.identityOp.None?,
         cancelled := Noted(Noted(h.cancelled, h.identityOp), h.photoOp),
         identitySlots := Forgotten(h.identitySlots, h.identityOp),
         photoSlots := Forgotten(h.photoSlots, h.photoOp),
         identityOp := None, photoOp := None,
         card := card, identityRead := false, rowsFrom := None,
         store := h.store - {h.slot}, hasPhoto := false, photo := None, photoUrl := "")
  }

  /** `refresh`, with the card its reader selection resolved to. */
  function Refresh(h: Handler, available: bool, card: Option<nat>): Handler {
    if !available then BindCard(h, None).(failed := false, identityRead := false, ui := AgentUnavailable)
    else if card.None? then BindCard(h, None).(failed := false, identityRead := false, ui := NoCard)
    else Classify(BindCard(h, card))
  }

  // ---- Terminals ----

  /** The card an operation was minted on, which is the one whose data it delivers. */
  function ReadFrom(h: Handler, op: Option<nat>): Option<nat> {
    if op.Some? && op.value < |h.log| then Some(h.log[op.value].card) else None
  }

  function IdentityDone(h: Handler, r: IdentityReport): Handler {
    var v := h.(identityOp := None, busy := false);
    if h.identityOp.None? then v
    else if r.pureCancel then Classify(v.(failed := false))
    else if !r.ok then v.(failed := true, ui := Error)
    else StartPhotoRead(Classify(v.(identityRead := true, rowsFrom := ReadFrom(h, h.identityOp))))
  }

  /** `image` is absent for every way a photo read can end without one. */
  function PhotoDone(h: Handler, image: Option<nat>): Handler {
    var v := h.(photoOp := None);
    if h.photoOp.None? || image.None? then v
    else
      var picture := Picture(image.value, ReadFrom(h, h.photoOp));
      v.(store := h.store[h.slot := picture], hasPhoto := true, photo := Some(picture), token := h.token + 1,
         photoUrl := PhotoUrl(h.slot, h.token + 1))
  }

  datatype Terminal = Terminal(op: nat, identity: IdentityReport, image: Option<nat>)

  /** An operation terminates; the slots act on the tracked pointer, never on the operation that called. */
  function Deliver(h: Handler, t: Terminal): Handler {
    if t.op !in h.live then h
    else
      var v := h.(live := h.live - {t.op});
      var u := if t.op in v.identitySlots then IdentityDone(v, t.identity) else v;
      if t.op in v.photoSlots then PhotoDone(u, t.image) else u
  }

  /** The live operations of the cards that `cards` no longer has. */
  function GoneWith(live: set<nat>, log: seq<Read>, cards: map<nat, Card>): set<nat> {
    set op <- live | op < |log| && log[op].card !in cards
  }

  /** A guarded pointer, nulled when it points to something deleted. */
  function Without(p: Option<nat>, gone: set<nat>): Option<nat> {
    if p.Some? && p.value in gone then None else p
  }

  function Within(p: Option<nat>, left: set<nat>): Option<nat> {
    if p.Some? && p.value !in left then None else p
  }

  /** Cards go away, and with them their operations and every pointer to either. */
  function Lose(h: Handler, cards: map<nat, Card>): Handler {
    var gone := GoneWith(h.live, h.log, cards);
    h.(cards := cards, card := Within(h.card, cards.Keys),
       identityOp := Without(h.identityOp, gone), photoOp := Without(h.photoOp, gone),
       live := h.live - gone, identitySlots := h.identitySlots - gone, photoSlots := h.photoSlots - gone)
  }

  datatype Event =
    | Refreshed(cards: map<nat, Card>, available: bool, card: Option<nat>)
    | CardChanged(cards: map<nat, Card>, changed: nat)
    | Finished(terminal: Terminal)
    | ReadAsked
    | ViewActive(active: bool)
    | OthersStored(store: map<nat, Picture>)

  function Step(h: Handler, e: Event): Handler {
    match e
    case Refreshed(cards, available, card) => Refresh(Lose(h, cards), available, card)
    case CardChanged(cards, changed) =>
      var v := h.(cards := cards);
      if h.card == Some(changed) then Classify(v) else v
    case Finished(t) => Deliver(h, t)
    case ReadAsked => ReadIdentity(h, true)
    case ViewActive(active) =>
      if h.viewActive == active then h
      else
        var v := h.(viewActive := active);
        if active then EnsureFreeRead(v) else v
    case OthersStored(store) => h.(store := store)
  }

  function Run(h: Handler, events: seq<Event>): Handler
    decreases |events|
  {
    if events == [] then h else Run(Step(h, events[0]), events[1..])
  }

  function Initial(slot: nat, store: map<nat, Picture>): Handler {
    Handler(NoCard, None, None, None, false, false, None, false, None, "", 0, slot, false, false, map[],
            store, [], {}, {}, {}, {})
  }

  // ---- What every run keeps ----

  predicate Tracked(h: Handler, op: nat) {
    h.identityOp == Some(op) || h.photoOp == Some(op)
  }

  ghost predicate OpsOk(h: Handler) {
    && (forall op <- h.live :: op < |h.log|)
    && (forall op <- h.identitySlots :: op < |h.log|)
    && (forall op <- h.photoSlots :: op < |h.log|)
    && (h.identityOp.Some? ==>
          h.identityOp.value in h.live && h.card == Some(h.log[h.identityOp.value].card))
    && (h.photoOp.Some? ==> h.photoOp.value in h.live && h.card == Some(h.log[h.photoOp.value].card))
    && (forall op <- h.live :: op in h.identitySlots <==> h.identityOp == Some(op))
    && (forall op <- h.live :: op in h.photoSlots <==> h.photoOp == Some(op))
    && (forall op <- h.live :: Tracked(h, op) || op in h.cancelled)
    && !(h.identityOp.Some? && h.identityOp == h.photoOp)
    && (h.card.Some? ==> h.card.value in h.cards)
  }

  /** Rows and photo were read from the bound card; the photo, its flag, its URL and its place in the store come
      and go together; and the busy flag is the running identity read. */
  ghost predicate ShownOk(h: Handler) {
    && (h.rowsFrom.Some? <==> h.identityRead)
    && (h.rowsFrom.Some? ==> h.rowsFrom == h.card)
    && (h.photo.Some? ==> h.photo.value.from.Some? && h.photo.value.from == h.card)
    && (h.hasPhoto <==> h.photo.Some?)
    && (h.hasPhoto <==> h.photoUrl != "")
    && Stored(h.store, h.slot) == h.photo
    && (h.photoUrl != "" ==> h.photoUrl == PhotoUrl(h.slot, h.token))
    && (h.busy <==> h.identityOp.Some?)
  }

  /** No read of a card that announces an unlock was started for identity without a user's call. */
  ghost predicate NoUnaskedUnlock(h: Handler) {
    forall r <- h.log :: r.kind == Identity && r.unlock ==> r.byUser
  }

  ghost predicate Inv(h: Handler) {
    OpsOk(h) && ShownOk(h) && NoUnaskedUnlock(h)
  }

  /** The client library ends every operation of a card before it deletes the card; a changed card is still
      there; a refresh resolves to a card that is; and no other widget has this one's slot. */
  ghost predicate Allowed(h: Handler, e: Event) {
    match e
    case Refreshed(cards, available, card) =>
      && (forall op <- h.live :: op < |h.log| && h.log[op].card !in cards ==> !Tracked(h, op))
      && (card.Some? ==> card.value in cards)
    case CardChanged(cards, _) => cards.Keys == h.cards.Keys
    case OthersStored(store) => Stored(store, h.slot) == Stored(h.store, h.slot)
    case _ => true
  }

  ghost predicate AllAllowed(h: Handler, events: seq<Event>)
    decreases |events|
  {
    events == [] || (Allowed(h, events[0]) && AllAllowed(Step(h, events[0]), events[1..]))
  }

  lemma InitialInv(slot: nat, store: map<nat, Picture>)
    requires slot !in store
    ensures Inv(Initial(slot, store))
  {
  }

  lemma ReadIdentityInv(h: Handler, byUser: bool)
    requires Inv(h)
    requires !byUser && h.card.Some? ==> !h.cards[h.card.value].unlock
    ensures Inv(ReadIdentity(h, byUser))
  {
  }

  lemma ClassifyInv(h: Handler)
    requires Inv(h)
    ensures Inv(Classify(h))
  {
    if h.card.Some? && h.viewActive {
      var v := h.(ui := ResolvedUi(h.cards[h.card.value], h.identityRead));
      if FreeReadDue(v) {
        ReadIdentityInv(v, false);
      }
    }
  }

  lemma StartPhotoInv(h: Handler)
    requires Inv(h)
    ensures Inv(StartPhotoRead(h))
  {
  }

  lemma BindCardOps(h: Handler, card: Option<nat>)
    requires OpsOk(h)
    requires card.Some? ==> card.value in h.cards
    ensures OpsOk(BindCard(h, card))
  {
  }

  /** What binding needs of the panel: nothing, when no card is bound any more. */
  ghost predicate Bindable(h: Handler) {
    OpsOk(h) && NoUnaskedUnlock(h) && (h.card.Some? ==> ShownOk(h)) && (h.busy <==> h.identityOp.Some?)
  }

  lemma BindCardInv(h: Handler, card: Option<nat>)
    requires Bindable(h) && (card.Some? ==> card.value in h.cards)
    ensures Inv(BindCard(h, card))
  {
    BindCardOps(h, card);
    assert ShownOk(BindCard(h, card));
  }

  lemma RefreshInv(h: Handler, available: bool, card: Option<nat>)
    requires Bindable(h) && (card.Some? ==> card.value in h.cards)
    ensures Inv(Refresh(h, available, card))
  {
    if available && card.Some? {
      BindCardInv(h, card);
      ClassifyInv(BindCard(h, card));
    } else {
      BindCardInv(h, None);
    }
  }

  lemma LoseBindable(h: Handler, cards: map<nat, Card>)
    requires Inv(h) && forall op <- h.live :: op < |h.log| && h.log[op].card !in cards ==> !Tracked(h, op)
    ensures Bindable(Lose(h, cards))
  {
  }

  lemma IdentityDoneInv(h: Handler, r: IdentityReport)
    requires Inv(h.(identityOp := None, busy := false)) && h.identityOp.Some? && h.card.Some?
    requires ReadFrom(h, h.identityOp) == h.card
    ensures Inv(IdentityDone(h, r))
  {
    var v := h.(identityOp := None, busy := false);
    if r.pureCancel {
      ClassifyInv(v.(failed := false));
    } else if r.ok {
      RowsShownInv(v);
      var w := v.(identityRead := true, rowsFrom := v.card);
      ClassifyInv(w);
      StartPhotoInv(Classify(w));
    }
  }

  lemma RowsShownInv(h: Handler)
    requires Inv(h) && h.card.Some?
    ensures Inv(h.(identityRead := true, rowsFrom := h.card))
  {
  }

  lemma PhotoDoneInv(h: Handler, image: Option<nat>)
    requires Inv(h.(photoOp := None)) && h.photoOp.Some? && h.card.Some?
    requires ReadFrom(h, h.photoOp) == h.card
    ensures Inv(PhotoDone(h, image))
  {
  }

  /** What a live operation's end comes to: its own slot, or nothing. */
  lemma DeliverCases(h: Handler, t: Terminal)
    requires OpsOk(h)
    ensures var v := h.(live := h.live - {t.op});
            Deliver(h, t) ==
              if h.identityOp == Some(t.op) then IdentityDone(v, t.identity)
              else if h.photoOp == Some(t.op) then PhotoDone(v, t.image)
              else v
  {
    assert t.op !in h.live ==> h.live - {t.op} == h.live;
  }

  lemma RetiredInv(h: Handler, op: nat)
    requires Inv(h)
    ensures h.identityOp == Some(op) ==> Inv(h.(live := h.live - {op}, identityOp := None, busy := false))
    ensures h.photoOp == Some(op) ==> Inv(h.(live := h.live - {op}, photoOp := None))
    ensures !Tracked(h, op) ==> Inv(h.(live := h.live - {op}))
  {
  }

  lemma DeliverInv(h: Handler, t: Terminal)
    requires Inv(h)
    ensures Inv(Deliver(h, t))
  {
    DeliverCases(h, t);
    RetiredInv(h, t.op);
    var v := h.(live := h.live - {t.op});
    if h.identityOp == Some(t.op) {
      IdentityDoneInv(v, t.identity);
    } else if h.photoOp == Some(t.op) {
      PhotoDoneInv(v, t.image);
    }
  }

  lemma ViewActiveInv(h: Handler, active: bool)
    requires Inv(h)
    ensures Inv(Step(h, ViewActive(active)))
  {
    if FreeReadDue(h.(viewActive := active)) {
      ReadIdentityInv(h.(viewActive := active), false);
    }
  }

  lemma RefreshedInv(h: Handler, cards: map<nat, Card>, available: bool, card: Option<nat>)
    requires Inv(h) && Allowed(h, Refreshed(cards, available, card))
    ensures Inv(Refresh(Lose(h, cards), available, card))
  {
    LoseBindable(h, cards);
    RefreshInv(Lose(h, cards), available, card);
  }

  lemma CardChangedInv(h: Handler, cards: map<nat, Card>, changed: nat)
    requires Inv(h) && Allowed(h, CardChanged(cards, changed))
    ensures Inv(Step(h, CardChanged(cards, changed)))
  {
    var v := h.(cards := cards);
    assert OpsOk(v) && ShownOk(v) && NoUnaskedUnlock(v);
    ClassifyInv(v);
  }

  lemma OthersStoredInv(h: Handler, store: map<nat, Picture>)
    requires Inv(h) && Allowed(h, OthersStored(store))
    ensures Inv(h.(store := store))
  {
  }

  lemma StepInv(h: Handler, e: Event)
    requires Inv(h) && Allowed(h, e)
    ensures Inv(Step(h, e))
  {
    match e
    case Refreshed(cards, available, card) => RefreshedInv(h, cards, available, card);
    case CardChanged(cards, changed) => CardChangedInv(h, cards, changed);
    case Finished(t) => DeliverInv(h, t);
    case ReadAsked => ReadIdentityInv(h, true);
    case ViewActive(active) => ViewActiveInv(h, active);
    case OthersStored(store) => OthersStoredInv(h, store);
  }

  /** In every run, whatever the other widgets store, the rows and the photo on screen were read from the bound
      card, the photo's four faces agree, busy means reading, and nobody is asked for an unlock they did not
      start. */
  lemma {:induction false} RunInv(h: Handler, events: seq<Event>)
    requires Inv(h) && AllAllowed(h, events)
    ensures Inv(Run(h, events))
    decreases |events|
  {
    if events != [] {
      StepInv(h, events[0]);
      RunInv(Step(h, events[0]), events[1..]);
    }
  }

  /** The terminal of an operation no longer tracked changes nothing, although the slots would act on whatever
      is tracked. */
  lemma DetachedReadIsInert(h: Handler, t: Terminal)
    requires Inv(h) && !Tracked(h, t.op)
    ensures Deliver(h, t) == h.(live := h.live - {t.op})
  {
  }

  /** The end of an identity read starts another identity read exactly when the holder dismissed the prompt of
      a card that may be read freely, with the panel open. */
  lemma RestartsIff(h: Handler, t: Terminal)
    requires Inv(h) && h.identityOp == Some(t.op)
    ensures Deliver(h, t).identityOp.Some? <==>
              t.identity.pureCancel && h.viewActive && !h.cards[h.card.value].unlock && !h.identityRead
              && (h.cards[h.card.value].before == IdentityOnly || h.cards[h.card.value].before == Hybrid)
  {
    var v := h.(live := h.live - {t.op}, identityOp := None, busy := false);
    if !t.identity.pureCancel && t.identity.ok {
      var w := v.(identityRead := true, rowsFrom := ReadFrom(h, h.identityOp));
      assert Classify(w).identityOp.None?;
    }
  }

  /** At most one read was started, for identity. */
  ghost predicate ReadsIdentity(h: Handler, v: Handler) {
    v.log == h.log || exists r: Read :: r.kind == Identity && v.log == h.log + [r]
  }

  /** No slot of the store but the handler's own was touched. */
  ghost predicate OwnSlotOnly(h: Handler, v: Handler) {
    v.slot == h.slot && v.store - {h.slot} == h.store - {h.slot}
  }

  lemma ReadIdentityQuiet(h: Handler, byUser: bool)
    ensures ReadsIdentity(h, ReadIdentity(h, byUser)) && ReadIdentity(h, byUser).store == h.store
    ensures ReadIdentity(h, byUser).slot == h.slot && ReadIdentity(h, byUser).photoOp == h.photoOp
    ensures ReadIdentity(h, byUser).card == h.card && ReadIdentity(h, byUser).photo == h.photo
  {
  }

  lemma ClassifyQuiet(h: Handler)
    ensures ReadsIdentity(h, Classify(h)) && Classify(h).store == h.store && Classify(h).slot == h.slot
    ensures Classify(h).photoOp == h.photoOp && Classify(h).card == h.card && Classify(h).photo == h.photo
    ensures h.identityRead ==> Classify(h).log == h.log
  {
    if h.card.Some? && h.card.value in h.cards {
      ReadIdentityQuiet(h.(ui := ResolvedUi(h.cards[h.card.value], h.identityRead)), false);
    }
  }

  lemma BindCardQuiet(h: Handler, card: Option<nat>)
    ensures BindCard(h, card).log == h.log && OwnSlotOnly(h, BindCard(h, card))
  {
  }

  lemma RefreshQuiet(h: Handler, available: bool, card: Option<nat>)
    ensures ReadsIdentity(h, Refresh(h, available, card)) && OwnSlotOnly(h, Refresh(h, available, card))
  {
    if available && card.Some? {
      BindCardQuiet(h, card);
      ClassifyQuiet(BindCard(h, card));
    } else {
      BindCardQuiet(h, None);
    }
  }

  /** Whether an identity read has just succeeded with no photo read under way. */
  predicate PhotoDue(h: Handler, e: Event) {
    e.Finished? && h.identityOp == Some(e.terminal.op) && h.photoOp.None?
    && e.terminal.identity.ok && !e.terminal.identity.pureCancel
  }

  /** Where a photo read was started: on the bound card, after everything that had been asked before. */
  ghost predicate StartsPhoto(h: Handler, v: Handler) {
    exists r: Read :: r.kind == Photo && h.card == Some(r.card) && v.log == h.log + [r]
  }

  lemma IdentityDoneReads(h: Handler, r: IdentityReport)
    requires h.identityOp.Some? && h.card.Some?
    ensures var v := IdentityDone(h, r);
            && v.store == h.store && v.slot == h.slot && v.card == h.card && v.photo == h.photo
            && (if r.ok && !r.pureCancel && h.photoOp.None? then StartsPhoto(h, v) else ReadsIdentity(h, v))
  {
    var v := h.(identityOp := None, busy := false);
    ClassifyQuiet(v.(failed := false));
    ClassifyQuiet(v.(identityRead := true, rowsFrom := ReadFrom(h, h.identityOp)));
  }

  lemma PhotoDoneReads(h: Handler, image: Option<nat>)
    ensures var v := PhotoDone(h, image);
            v.log == h.log && v.card == h.card && OwnSlotOnly(h, v)
  {
  }

  lemma FinishedReads(h: Handler, t: Terminal)
    requires Inv(h)
    ensures if PhotoDue(h, Finished(t)) then StartsPhoto(h, Deliver(h, t)) else ReadsIdentity(h, Deliver(h, t))
    ensures OwnSlotOnly(h, Deliver(h, t)) && Deliver(h, t).card == h.card
  {
    DeliverCases(h, t);
    var v := h.(live := h.live - {t.op});
    if h.identityOp == Some(t.op) {
      IdentityDoneReads(v, t.identity);
    } else if h.photoOp == Some(t.op) {
      PhotoDoneReads(v, t.image);
    }
  }

  lemma ViewActiveReads(h: Handler, active: bool)
    ensures ReadsIdentity(h, Step(h, ViewActive(active))) && OwnSlotOnly(h, Step(h, ViewActive(active)))
  {
    ReadIdentityQuiet(h.(viewActive := active), false);
  }

  /** A photo read starts at the end of a successful identity read, of the same card, and nowhere else. */
  lemma PhotoFollowsIdentity(h: Handler, e: Event)
    requires Inv(h)
    ensures if PhotoDue(h, e) then StartsPhoto(h, Step(h, e)) else ReadsIdentity(h, Step(h, e))
    ensures !e.OthersStored? ==> OwnSlotOnly(h, Step(h, e))
  {
    match e
    case Refreshed(cards, available, card) => RefreshQuiet(Lose(h, cards), available, card);
    case CardChanged(cards, changed) => ClassifyQuiet(h.(cards := cards));
    case Finished(t) => FinishedReads(h, t);
    case ReadAsked => ReadIdentityQuiet(h, true);
    case ViewActive(active) => ViewActiveReads(h, active);
    case OthersStored(_) =>
  }

  // ---- What each event comes to ----

  /** How the card on view is classified: held back for its unlock until its identity was read, and else as the
      client library resolves it before and after that. */
  lemma ClassifiedAs(h: Handler)
    ensures Classify(h).ui ==
              if h.card.None? || h.card.value !in h.cards then NoCard
              else
                var c := h.cards[h.card.value];
                if h.identityRead then c.after else if c.unlock then PreAuthRequired else c.before
  {
  }

  /** The end of the identity read: a dismissed prompt takes the view back to where the read began, a failure is an
      error, and a success shows the bound card's rows. */
  lemma IdentityEnds(h: Handler, t: Terminal)
    requires Inv(h) && h.identityOp == Some(t.op)
    ensures var r, v, c := t.identity, Deliver(h, t), h.cards[h.card.value];
            && (r.pureCancel ==>
                  && !v.failed && v.rowsFrom == h.rowsFrom && v.identityRead == h.identityRead
                  && v.ui == (if h.identityRead then c.after else if c.unlock then PreAuthRequired else c.before))
            && (!r.pureCancel && !r.ok ==>
                  && v.failed && v.ui == Error && v.rowsFrom == h.rowsFrom && v.identityRead == h.identityRead
                  && !v.busy && v.log == h.log)
            && (!r.pureCancel && r.ok ==>
                  v.identityRead && v.rowsFrom == h.card && v.ui == c.after && !v.busy && v.failed == h.failed)
  {
    DeliverCases(h, t);
    var v := h.(live := h.live - {t.op});
    if t.identity.pureCancel {
      DismissedGoesBack(v, t.identity);
    } else if t.identity.ok {
      ReadShows(v, t.identity);
    }
  }

  lemma DismissedGoesBack(h: Handler, r: IdentityReport)
    requires h.identityOp.Some? && h.card.Some? && h.card.value in h.cards && r.pureCancel
    ensures var v, c := IdentityDone(h, r), h.cards[h.card.value];
            && !v.failed && v.rowsFrom == h.rowsFrom && v.identityRead == h.identityRead
            && v.ui == (if h.identityRead then c.after else if c.unlock then PreAuthRequired else c.before)
  {
    var v := h.(identityOp := None, busy := false, failed := false);
    ClassifiedAs(v);
    ClassifyKeeps(v);
  }

  lemma ReadShows(h: Handler, r: IdentityReport)
    requires h.identityOp.Some? && h.card.Some? && h.card.value in h.cards && !r.pureCancel && r.ok
    requires ReadFrom(h, h.identityOp) == h.card
    ensures var v := IdentityDone(h, r);
            v.identityRead && v.rowsFrom == h.card && v.ui == h.cards[h.card.value].after && !v.busy
            && v.failed == h.failed
  {
    var v := h.(identityOp := None, busy := false, identityRead := true, rowsFrom := h.card);
    ClassifiedAs(v);
    ClassifyKeeps(v);
  }

  /** What a card announces of itself is taken up at once when it is the bound one, and leaves the view alone when it
      is another. */
  lemma ChangeReclassifies(h: Handler, cards: map<nat, Card>, changed: nat)
    requires Inv(h) && Allowed(h, CardChanged(cards, changed))
    ensures var v := Step(h, CardChanged(cards, changed));
            && v.cards == cards
            && (h.card != Some(changed) ==> v == h.(cards := cards))
            && (h.card == Some(changed) ==>
                  v.ui == (if h.identityRead then cards[changed].after
                           else if cards[changed].unlock then PreAuthRequired else cards[changed].before))
  {
    ClassifiedAs(h.(cards := cards));
    ClassifyKeeps(h.(cards := cards));
  }

  /** Nothing read so far is lost. */
  ghost predicate KeepsRead(h: Handler, v: Handler) {
    && v.rowsFrom == h.rowsFrom && v.identityRead == h.identityRead && v.cancelled == h.cancelled
    && v.hasPhoto == h.hasPhoto && v.photoUrl == h.photoUrl && v.cards == h.cards && (v.failed ==> h.failed)
  }

  lemma ReadIdentityKeeps(h: Handler, byUser: bool)
    ensures KeepsRead(h, ReadIdentity(h, byUser))
  {
  }

  lemma ClassifyKeeps(h: Handler)
    ensures KeepsRead(h, Classify(h))
    ensures h.identityRead ==> Classify(h) == h.(ui := Classify(h).ui)
  {
    if h.card.Some? && h.card.value in h.cards {
      ReadIdentityKeeps(h.(ui := ResolvedUi(h.cards[h.card.value], h.identityRead)), false);
    }
  }

  /** The end of the photo read: a photo is kept, stored under the widget's slot, and shown under a URL that names the
      slot and differs from the one before; without a photo nothing changes. */
  lemma PhotoEnds(h: Handler, t: Terminal)
    requires Inv(h) && h.photoOp == Some(t.op)
    ensures var v := Deliver(h, t);
            && v.photoOp.None?
            && (t.image.Some? ==>
                  && v.hasPhoto && v.photo == Some(Picture(t.image.value, h.card))
                  && v.store == h.store[h.slot := Picture(t.image.value, h.card)]
                  && v.photoUrl == "image://librekde/cardphoto/" + Numeral(h.slot) + "?" + Numeral(h.token + 1)
                  && v.photoUrl != h.photoUrl)
            && (t.image.None? ==>
                  v.hasPhoto == h.hasPhoto && v.photo == h.photo && v.store == h.store && v.photoUrl == h.photoUrl)
  {
    DeliverCases(h, t);
    UrlSpelled(h.slot, h.token + 1);
    UrlsDiffer(h.slot, h.token, h.token + 1);
  }

  /** A user's read starts one on the bound card unless one runs; opening the panel starts one, unasked, exactly on a
      card that announces no unlock, was not read, is not being read, and was found to carry identity data. */
  lemma ReadsStart(h: Handler)
    requires Inv(h)
    ensures var asked := Step(h, ReadAsked);
            if h.card.Some? && h.identityOp.None?
            then asked.log == h.log + [Read(Identity, h.card.value, true, h.cards[h.card.value].unlock)]
                 && asked.identityOp == Some(|h.log|) && asked.busy && !asked.failed
            else asked == h
    ensures var shown := Step(h, ViewActive(true));
            if !h.viewActive && h.card.Some? && !h.cards[h.card.value].unlock && !h.identityRead && h.identityOp.None?
               && (h.ui == IdentityOnly || h.ui == Hybrid)
            then shown.log == h.log + [Read(Identity, h.card.value, false, false)]
                 && shown.identityOp == Some(|h.log|)
            else shown.log == h.log
    ensures Step(h, ViewActive(false)).log == h.log
  {
  }

  /** A refresh shows what it resolved to. Of another card, or none, nothing read so far is kept, and both reads are
      let go of with a cancel. */
  lemma RefreshShows(h: Handler, available: bool, card: Option<nat>)
    requires Inv(h) && (card.Some? ==> card.value in h.cards)
    ensures var v := Refresh(h, available, card);
            && v.card == (if available then card else None)
            && (!available ==> v.ui == AgentUnavailable && !v.failed)
            && (available && card.None? ==> v.ui == NoCard && !v.failed)
            && (available && card.Some? && card == h.card ==>
                  && v.rowsFrom == h.rowsFrom && v.photo == h.photo && v.photoOp == h.photoOp
                  && v.cancelled == h.cancelled)
            && (!available || card.None? || card != h.card ==>
                  && v.rowsFrom.None? && !v.identityRead && v.photo.None? && !v.hasPhoto && v.photoUrl == ""
                  && h.slot !in v.store && v.photoOp.None?
                  && (forall op :: Tracked(h, op) ==> op in v.cancelled))
  {
    if available && card.Some? {
      BindCardQuiet(h, card);
      BindCardForgets(h, card);
      ClassifyKeeps(BindCard(h, card));
      ClassifyQuiet(BindCard(h, card));
    } else {
      BindCardForgets(h, None);
    }
  }

  lemma BindCardForgets(h: Handler, card: Option<nat>)
    ensures card.None? || card != h.card ==>
              var v := BindCard(h, card);
              && v.rowsFrom.None? && !v.identityRead && v.photo.None? && !v.hasPhoto && v.photoUrl == ""
              && h.slot !in v.store && v.photoOp.None? && forall op :: Tracked(h, op) ==> op in v.cancelled
    ensures card.Some? && card == h.card ==> BindCard(h, card) == h
    ensures BindCard(h, card).card == card
  {
  }

  // ---- The photo on screen ----

  /** The picture an event brings: what a running photo read ends with, read from the card it was asked of. */
  function Brought(h: Handler, e: Event): Option<Picture> {
    if e.Finished? && h.photoOp == Some(e.terminal.op) && e.terminal.image.Some? then
      Some(Picture(e.terminal.image.value, ReadFrom(h, h.photoOp)))
    else None
  }

  /** The last picture a run read from the card bound at its end, going by the events alone; `last` is the one
      read before it. */
  function LastPicture(h: Handler, events: seq<Event>, last: Option<Picture>): Option<Picture>
    decreases |events|
  {
    if events == [] then last
    else
      var v := Step(h, events[0]);
      LastPicture(v, events[1..],
                  if v.card.None? || v.card != h.card then None
                  else if Brought(h, events[0]).Some? then Brought(h, events[0])
                  else last)
  }

  /** The picture kept after the event: none when no card or another is bound, else the one it brings, if any. */
  ghost predicate KeepsPicture(h: Handler, e: Event, v: Handler) {
    v.photo ==
      if v.card.None? || v.card != h.card then None
      else if Brought(h, e).Some? then Brought(h, e)
      else h.photo
  }

  lemma BindCardPicture(h: Handler, card: Option<nat>)
    ensures BindCard(h, card).photo == if card.Some? && card == h.card then h.photo else None
    ensures BindCard(h, card).card == card
  {
  }

  lemma RefreshPicture(h: Handler, available: bool, card: Option<nat>)
    ensures Refresh(h, available, card).photo ==
              if available && card.Some? && card == h.card then h.photo else None
    ensures Refresh(h, available, card).card == if available then card else None
  {
    BindCardPicture(h, card);
    BindCardPicture(h, None);
    ClassifyQuiet(BindCard(h, card));
  }

  lemma RefreshedPicture(h: Handler, cards: map<nat, Card>, available: bool, card: Option<nat>)
    requires Allowed(h, Refreshed(cards, available, card))
    ensures KeepsPicture(h, Refreshed(cards, available, card), Step(h, Refreshed(cards, available, card)))
  {
    RefreshPicture(Lose(h, cards), available, card);
  }

  lemma DeliverPicture(h: Handler, t: Terminal)
    requires Inv(h)
    ensures KeepsPicture(h, Finished(t), Deliver(h, t))
  {
    DeliverCases(h, t);
    var v := h.(live := h.live - {t.op});
    if h.identityOp == Some(t.op) {
      IdentityDoneReads(v, t.identity);
    } else if h.photoOp == Some(t.op) {
      PhotoDonePicture(v, t.image);
    }
  }

  lemma PhotoDonePicture(h: Handler, image: Option<nat>)
    requires h.photoOp.Some?
    ensures PhotoDone(h, image).card == h.card
    ensures PhotoDone(h, image).photo ==
              if image.Some? then Some(Picture(image.value, ReadFrom(h, h.photoOp))) else h.photo
  {
  }

  lemma ViewActivePicture(h: Handler, active: bool)
    ensures Step(h, ViewActive(active)).photo == h.photo && Step(h, ViewActive(active)).card == h.card
  {
    ReadIdentityQuiet(h.(viewActive := active), false);
  }

  lemma StepPicture(h: Handler, e: Event)
    requires Inv(h) && Allowed(h, e)
    ensures KeepsPicture(h, e, Step(h, e))
  {
    match e
    case Refreshed(cards, available, card) => RefreshedPicture(h, cards, available, card);
    case CardChanged(cards, changed) => ClassifyQuiet(h.(cards := cards));
    case Finished(t) => DeliverPicture(h, t);
    case ReadAsked => ReadIdentityQuiet(h, true);
    case ViewActive(active) => ViewActivePicture(h, active);
    case OthersStored(_) =>
  }

  /** Whatever happens to the widget and whatever the others store meanwhile, the URL on screen yields the last
      picture read from the bound card, and nothing when none was. */
  lemma {:induction false} UrlYieldsLastPicture(h: Handler, events: seq<Event>)
    requires Inv(h) && AllAllowed(h, events) && h.slot < ULL_LIMIT
    ensures var v := Run(h, events);
            && ImageAt(v.store, v.photoUrl) == LastPicture(h, events, h.photo)
            && (v.photoUrl != "" <==> ImageAt(v.store, v.photoUrl).Some?)
            && (v.photoUrl != "" ==> v.card.Some? && ImageAt(v.store, v.photoUrl).value.from == v.card)
    decreases |events|
  {
    if events == [] {
      if h.photoUrl != "" {
        UrlRoundTrip(h.store, h.slot, h.token);
      }
    } else {
      StepInv(h, events[0]);
      StepPicture(h, events[0]);
      PhotoFollowsIdentity(h, events[0]);
      UrlYieldsLastPicture(Step(h, events[0]), events[1..]);
    }
  }
}
