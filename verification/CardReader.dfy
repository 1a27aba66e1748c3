/** The plasmoid's read members as the object they are: each method leaves behind the state that CardReads
    defines for it, and each event keeps the invariant. The photo store is an object of its own, shared with the
    other widgets. */
module CardReader {
  import opened Wrappers
  import opened PhotoSlots
  import opened CardReads

  class ReadHandler {
    const slot: nat
    const photos: PhotoStore
    var ui: Ui
    var card: Option<nat>
    var identityOp: Option<nat>
    var photoOp: Option<nat>
    var busy: bool
    var identityRead: bool
    ghost var rowsFrom: Option<nat>
    var hasPhoto: bool
    var photo: Option<Picture>
    var photoUrl: string
    var token: nat
    var viewActive: bool
    var failed: bool
    var cards: map<nat, Card>
    var log: seq<Read>
    var live: set<nat>
    var cancelled: set<nat>
    var identitySlots: set<nat>
    var photoSlots: set<nat>

    ghost function View(): Handler
      reads this, photos
    {
      Handler(ui, card, identityOp, photoOp, busy, identityRead, rowsFrom, hasPhoto, photo, photoUrl, token, slot,
              viewActive, failed, cards, photos.images, log, live, cancelled, identitySlots, photoSlots)
    }

    constructor (slot: nat, photos: PhotoStore)
      ensures View() == Initial(slot, photos.images) && this.photos == photos
      ensures slot !in photos.images ==> Inv(View())
    {
      this.slot, this.photos := slot, photos;
      ui, card, identityOp, photoOp, busy := NoCard, None, None, None, false;
      identityRead, rowsFrom, hasPhoto, photo, photoUrl := false, None, false, None, "";
      token, viewActive, failed, cards := 0, false, false, map[];
      log, live, cancelled, identitySlots, photoSlots := [], {}, {}, {}, {};
    }

    method TransitionTo(next: Ui)
      modifies this
      ensures View() == old(View()).(ui := next)
    {
      ui := next;
    }

    method SetError(isSet: bool)
      modifies this
      ensures View() == old(View()).(failed := isSet)
    {
      failed := isSet;
    }

    method SetBusy(isBusy: bool)
      modifies this
      ensures View() == old(View()).(busy := isBusy)
    {
      busy := isBusy;
    }

    /** Mint a read on the bound card. */
    method Mint(kind: Kind, byUser: bool) returns (op: nat)
      requires card.Some?
      modifies this
      ensures op == |old(View()).log|
      ensures View() == old(View()).(
                log := old(View()).log + [Read(kind, old(View()).card.value, byUser,
                  old(View()).card.value in old(View()).cards && old(View()).cards[old(View()).card.value].unlock)],
                live := old(View()).live + {op})
    {
      op := |log|;
      log, live := log + [Read(kind, card.value, byUser, card.value in cards && cards[card.value].unlock)], live + {op};
    }

    method StartIdentityRead(byUser: bool)
      modifies this
      ensures View() == ReadIdentity(old(View()), byUser)
    {
      if card.None? || identityOp.Some? {
        return;
      }
      SetError(false);
      var op := Mint(Identity, byUser);
      identityOp, identitySlots := Some(op), identitySlots + {op};
      SetBusy(true);
    }

    method EnsureFree()
      modifies this
      ensures View() == EnsureFreeRead(old(View()))
    {
      if card.None? || card.value !in cards {
        return;
      }
      if cards[card.value].unlock || identityRead || identityOp.Some? {
        return;
      }
      if ui != IdentityOnly && ui != Hybrid {
        return;
      }
      StartIdentityRead(false);
    }

    method ClassifyActiveCard()
      modifies this
      ensures View() == Classify(old(View()))
    {
      if card.None? || card.value !in cards {
        TransitionTo(NoCard);
        return;
      }
      var unlockPending := cards[card.value].unlock && !identityRead;
      TransitionTo(if unlockPending then PreAuthRequired
                   else if identityRead then cards[card.value].after else cards[card.value].before);
      if viewActive {
        EnsureFree();
      }
    }

    method StartPhoto()
      modifies this
      ensures View() == StartPhotoRead(old(View()))
    {
      if card.None? || photoOp.Some? {
        return;
      }
      var op := Mint(Photo, false);
      photoOp, photoSlots := Some(op), photoSlots + {op};
    }

    /** Stop listening to the running identity read, cancel it, and release the busy latch. */
    method AbandonIdentity()
      modifies this
      ensures View() == old(View()).(
                busy := old(View()).busy && old(View()).identityOp.None?,
                cancelled := Noted(old(View()).cancelled, old(View()).identityOp),
                identitySlots := Forgotten(old(View()).identitySlots, old(View()).identityOp),
                identityOp := None)
    {
      if identityOp.Some? {
        identityOp, identitySlots, cancelled, busy :=
          None, identitySlots - {identityOp.value}, cancelled + {identityOp.value}, false;
      }
    }

    method AbandonPhoto()
      modifies this
      ensures View() == old(View()).(
                cancelled := Noted(old(View()).cancelled, old(View()).photoOp),
                photoSlots := Forgotten(old(View()).photoSlots, old(View()).photoOp),
                photoOp := None)
    {
      if photoOp.Some? {
        photoOp, photoSlots, cancelled := None, photoSlots - {photoOp.value}, cancelled + {photoOp.value};
      }
    }

    method ClearPhoto()
      modifies this, photos
      ensures View() == old(View()).(store := old(View()).store - {slot}, hasPhoto := false, photo := None,
                                     photoUrl := "")
    {
      photos.Clear(slot);
      hasPhoto, photo, photoUrl := false, None, "";
    }

    /** Point at the next card, of which nothing has been read. */
    method Adopt(next: Option<nat>)
      modifies this
      ensures View() == old(View()).(card := next, identityRead := false, rowsFrom := None)
    {
      card, identityRead, rowsFrom := next, false, None;
    }

    method Bind(next: Option<nat>)
      modifies this, photos
      ensures View() == BindCard(old(View()), next)
    {
      if next.Some? && card == next {
        return;
      }
      AbandonIdentity();
      AbandonPhoto();
      Adopt(next);
      ClearPhoto();
    }

    method RefreshTo(available: bool, next: Option<nat>)
      modifies this, photos
      ensures View() == Refresh(old(View()), available, next)
    {
      if !available || next.None? {
        Bind(None);
        SetError(false);
        identityRead := false;
        TransitionTo(if available then NoCard else AgentUnavailable);
        return;
      }
      Bind(next);
      ClassifyActiveCard();
    }

    method ReleaseIdentity() returns (op: Option<nat>)
      modifies this
      ensures View() == old(View()).(identityOp := None, busy := false) && op == old(View()).identityOp
    {
      op := identityOp;
      identityOp, busy := None, false;
    }

    /** Show the rows that `op` delivered. */
    method KeepIdentity(op: nat)
      modifies this
      ensures View() == old(View()).(identityRead := true, rowsFrom := ReadFrom(old(View()), Some(op)))
    {
      identityRead, rowsFrom := true, ReadFrom(View(), Some(op));
    }

    method OnOperationFinished(r: IdentityReport)
      modifies this
      ensures View() == IdentityDone(old(View()), r)
    {
      var op := ReleaseIdentity();
      if op.None? {
        return;
      }
      if r.pureCancel {
        SetError(false);
        ClassifyActiveCard();
        return;
      }
      if !r.ok {
        SetError(true);
        TransitionTo(Error);
        return;
      }
      KeepIdentity(op.value);
      ClassifyActiveCard();
      StartPhoto();
    }

    method ReleasePhoto() returns (op: Option<nat>)
      modifies this
      ensures View() == old(View()).(photoOp := None) && op == old(View()).photoOp
    {
      op := photoOp;
      photoOp := None;
    }

    method Store(picture: Picture)
      modifies photos
      ensures View() == old(View()).(store := old(View()).store[slot := picture])
    {
      photos.SetImage(slot, picture);
    }

    method PointAt(picture: Picture, url: string)
      modifies this
      ensures View() == old(View()).(hasPhoto := true, photo := Some(picture), token := old(View()).token + 1,
                                     photoUrl := url)
    {
      hasPhoto, photo, token, photoUrl := true, Some(picture), token + 1, url;
    }

    /** Store the photo that `op` delivered under this widget's slot and point the view at it. */
    method ShowPhoto(op: nat, image: nat)
      modifies this, photos
      ensures var picture := Picture(image, ReadFrom(old(View()), Some(op)));
              View() == old(View()).(
                store := old(View()).store[slot := picture], hasPhoto := true, photo := Some(picture),
                token := old(View()).token + 1, photoUrl := PhotoUrl(slot, old(View()).token + 1))
    {
      var picture := Picture(image, if op < |log| then Some(log[op].card) else None);
      Store(picture);
      PointAt(picture, PhotoUrl(slot, token + 1));
    }

    method OnPhotoFinished(image: Option<nat>)
      modifies this, photos
      ensures View() == PhotoDone(old(View()), image)
    {
      var op := ReleasePhoto();
      if op.None? || image.None? {
        return;
      }
      ShowPhoto(op.value, image.value);
    }

    // ---- Events ----

    method Retire(op: nat)
      modifies this
      ensures View() == old(View()).(live := old(View()).live - {op})
    {
      live := live - {op};
    }

    /** An operation ends: the slot connected to it runs, and no other. */
    method Terminate(t: Terminal)
      modifies this, photos
      ensures View() == Deliver(old(View()), t)
      ensures old(Inv(View())) ==> Inv(View())
    {
      ghost var was := View();
      if t.op in live {
        Retire(t.op);
        var photoConnected := t.op in photoSlots;
        if t.op in identitySlots {
          OnOperationFinished(t.identity);
        }
        if photoConnected {
          OnPhotoFinished(t.image);
        }
      }
      if Inv(was) {
        DeliverInv(was, t);
      }
    }

    /** Operations are deleted, and with them every pointer to them. */
    method DeletePointers(gone: set<nat>)
      modifies this
      ensures View() == old(View()).(identityOp := Without(old(View()).identityOp, gone),
                                     photoOp := Without(old(View()).photoOp, gone))
    {
      identityOp, photoOp := Without(identityOp, gone), Without(photoOp, gone);
    }

    /** And with them their connections. */
    method DeleteOperations(gone: set<nat>)
      modifies this
      ensures View() == old(View()).(live := old(View()).live - gone,
                                     identitySlots := old(View()).identitySlots - gone,
                                     photoSlots := old(View()).photoSlots - gone)
    {
      live, identitySlots, photoSlots := live - gone, identitySlots - gone, photoSlots - gone;
    }

    /** The client library deletes cards after the operations they own. */
    method LoseCards(left: map<nat, Card>)
      modifies this
      ensures View() == Lose(old(View()), left)
    {
      var gone := GoneWith(live, log, left);
      DeletePointers(gone);
      DeleteOperations(gone);
      card, cards := Within(card, left.Keys), left;
    }

    method ChangeRegistry(left: map<nat, Card>, available: bool, next: Option<nat>)
      modifies this, photos
      ensures View() == Step(old(View()), Refreshed(left, available, next))
      ensures old(Inv(View()) && Allowed(View(), Refreshed(left, available, next))) ==> Inv(View())
    {
      ghost var was := View();
      LoseCards(left);
      RefreshTo(available, next);
      if Inv(was) && Allowed(was, Refreshed(left, available, next)) {
        RefreshedInv(was, left, available, next);
      }
    }

    method LearnCards(now: map<nat, Card>)
      modifies this
      ensures View() == old(View()).(cards := now)
    {
      cards := now;
    }

    method ChangeCapabilities(now: map<nat, Card>, changed: nat)
      modifies this
      ensures View() == Step(old(View()), CardChanged(now, changed))
      ensures old(Inv(View()) && Allowed(View(), CardChanged(now, changed))) ==> Inv(View())
    {
      ghost var was := View();
      LearnCards(now);
      if card == Some(changed) {
        ClassifyActiveCard();
      }
      if Inv(was) && Allowed(was, CardChanged(now, changed)) {
        StepInv(was, CardChanged(now, changed));
      }
    }

    method AskToRead()
      modifies this
      ensures View() == Step(old(View()), ReadAsked)
      ensures old(Inv(View())) ==> Inv(View())
    {
      ghost var was := View();
      StartIdentityRead(true);
      if Inv(was) {
        StepInv(was, ReadAsked);
      }
    }

    method SetViewActive(active: bool)
      modifies this
      ensures View() == Step(old(View()), ViewActive(active))
      ensures old(Inv(View())) ==> Inv(View())
    {
      ghost var was := View();
      if viewActive != active {
        viewActive := active;
        if viewActive {
          EnsureFree();
        }
      }
      if Inv(was) {
        StepInv(was, ViewActive(active));
      }
    }
  }
}
