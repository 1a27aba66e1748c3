/** What the window makes of an operation's end, of a call and of a registry, said of the reports, the rows and the
    readers themselves. */
module CredentialVerdicts {
  import opened Wrappers
  import opened AgentPeer
  import opened CredentialWindow
  import opened CredentialProtocol
  import opened CredentialRuns

  // ---- A verb ends ----

  /** The banner is red exactly for a verb the agent did not refuse by name, that nobody cancelled (a cancel the
      client library made for a pulled card or a lost agent is nobody's), and that did not end well or dismissed. */
  lemma VerbVerdict(w: Window, t: Terminal)
    requires Inv(w) && w.mutationOp == Some(t.op)
    ensures var m := t.mutation;
            Deliver(w, t).resultIsError <==>
              && m.named.None? && !w.mutationCancelRequested
              && (m.status == Cancelled ==> m.errorCode == CardRemovedError || m.errorCode == CommunicationError)
              && m.outcome != Done && m.outcome != UserCancelled
  {
    Banner(w, t);
  }

  /** The banner's text, in each case of what the agent reported. */
  lemma VerbMessage(w: Window, t: Terminal)
    requires Inv(w) && w.mutationOp == Some(t.op)
    ensures var m, message := t.mutation, Deliver(w, t).resultMessage;
            var cancelled := w.mutationCancelRequested ||
              (m.status == Cancelled && !(m.errorCode == CardRemovedError || m.errorCode == CommunicationError));
            && (m.named.Some? ==> message == RefusalText(m.named.value))
            && (m.named.None? && m.outcome == UserCancelled ==> message == NoMessage)
            && (m.named.None? && m.outcome != UserCancelled && m.outcome != Unspecified ==>
                  message == OutcomeText(m.outcome, w.pendingKind, m.retriesLeft))
            && (m.named.None? && m.outcome == Unspecified && cancelled ==> message == NoMessage)
            && (m.named.None? && m.outcome == Unspecified && !cancelled && m.errorCode == CardRemovedError ==>
                  message == OutcomeText(CardRemoved, w.pendingKind, m.retriesLeft))
            && (m.named.None? && m.outcome == Unspecified && !cancelled && m.errorCode != CardRemovedError ==>
                  message == FailureText(m.errorCode, m.callError, m.key, m.fallback))
  {
    BannerText(w, t);
  }

  /** Whether the verb ended because its card was taken, by the agent's word or by the client library's. */
  predicate EndedByPull(w: Window, m: MutationReport) {
    m.named.None? &&
    (m.outcome == CardRemoved
     || (m.outcome == Unspecified && m.errorCode == CardRemovedError && !w.mutationCancelRequested))
  }

  /** The surface is Result. A pull leaves its explanation behind and lists nothing; a rate limit and an ambiguous
      request list nothing either; every other end lists the card once, under the result. */
  lemma VerbAftermath(w: Window, t: Terminal)
    requires Inv(w) && w.mutationOp == Some(t.op)
    ensures var m, v := t.mutation, Deliver(w, t);
            && v.state == Result && v.card == w.card && v.mutationOp.None? && !v.mutationCancelRequested
            && v.removalNotice == (if EndedByPull(w, m) then v.resultMessage else NoMessage)
            && (if EndedByPull(w, m) || m.named == Some(RateLimited) || m.named == Some(InvalidRequest)
                then v.peer.log == w.peer.log && v.listOp.None?
                else v.peer.log == w.peer.log + [Minted(ListCredentials, w.card.value)]
                     && v.listOp == Some(|w.peer.log|) && v.showingResult)
  {
    DeliverCases(w, t);
    DeliverInv(w, t);
    DeliverShape(w, t);
    TerminalsQuiesce(w, t);
    DoneNotice(w.(peer := w.peer.(live := w.peer.live - {t.op})), t.mutation);
  }

  lemma RelistNotice(w: Window)
    requires w.card.Some? && w.mutationOp.None? && w.listOp.None?
    ensures RelistAfterMutation(w).removalNotice == w.removalNotice && RelistAfterMutation(w).state == w.state
  {
  }

  lemma DoneNotice(w: Window, r: MutationReport)
    requires w.card.Some? && w.listOp.None?
    ensures OnMutationDone(w, r).state == Result && !OnMutationDone(w, r).mutationCancelRequested
    ensures OnMutationDone(w, r).removalNotice ==
              if r.named.None? && EffectiveOutcome(w, r) == CardRemoved then OnMutationDone(w, r).resultMessage
              else w.removalNotice
  {
    var v := w.(mutationOp := None, mutationCancelRequested := false);
    if r.named.Some? {
      RelistNotice(v.(resultIsError := false, resultMessage := RefusalText(r.named.value), state := Result));
    } else {
      RelistNotice(v.(resultIsError := !WasCancelled(w, r) && !IsNeutral(EffectiveOutcome(w, r)),
                      resultMessage := MutationMessage(w, r), state := Result));
    }
  }

  // ---- A listing ends ----

  /** Rows that came are the rows shown. A listing without them clears the rows, and is latched against another try
      exactly when the person, or the agent's prompt, cancelled it. */
  lemma ListVerdict(w: Window, t: Terminal)
    requires Inv(w) && w.listOp == Some(t.op)
    ensures var r, v := t.list, Deliver(w, t);
            && v.records == (if r.status == Ok then r.records else [])
            && v.state == (if r.status != Ok then ReadFailed else if r.records == [] then Empty else Ready)
            && (v.settled <==> r.status == Ok || r.status == Cancelled || w.listCancelRequested)
            && v.listOp.None? && !v.listCancelRequested && !v.showingResult
            && v.resultMessage == w.resultMessage && v.removalNotice == w.removalNotice && v.card == w.card
  {
    DeliverCases(w, t);
  }

  // ---- A verb is called ----

  /** `row` is the first row of that id, or there is none. */
  ghost predicate FirstRow(records: seq<Record>, id: string, row: Option<Record>) {
    match row
    case None => forall x <- records :: x.id != id
    case Some(r) =>
      exists i :: 0 <= i < |records| && records[i] == r && r.id == id && forall j :: 0 <= j < i ==> records[j].id != id
  }

  lemma {:induction false} RecordByIdIs(records: seq<Record>, id: string, row: Option<Record>)
    requires FirstRow(records, id, row)
    ensures RecordById(records, id) == row
  {
    if records != [] && records[0].id != id {
      var rest := records[1..];
      if row.Some? {
        var i :| 0 <= i < |records| && records[i] == row.value && row.value.id == id
                 && forall j :: 0 <= j < i ==> records[j].id != id;
        assert rest[i - 1] == row.value && forall j :: 0 <= j < i - 1 ==> rest[j] == records[j + 1];
      }
      RecordByIdIs(rest, id, row);
    }
  }

  /** The kind of credential a verb presents, given the row it names. */
  function Presents(v: Verb, row: Option<Record>): Kind {
    match v
    case ActivateKeyOnly(_) => Sign
    case ConfirmUnblock(_) => Puk
    case _ => if row.Some? then row.value.kind else Unknown
  }

  /** The window has asked the agent for exactly this, on the bound card. */
  ghost predicate Asked(w: Window, a: Window, request: Request)
    requires w.card.Some?
  {
    a.peer.log == w.peer.log + [Minted(request, w.card.value)] && a.mutationOp == Some(|w.peer.log|)
  }

  /** What each verb asks of the agent, and whose credential it presents: a change, an activation (with its signing
      key when the row has one pending), the key alone, or an unblock. A verb beside another, or without a card,
      is nothing. */
  lemma VerbAsks(w: Window, v: Verb, row: Option<Record>)
    requires FirstRow(w.records, v.id, row)
    ensures w.card.None? || w.mutationOp.Some? ==> RunVerb(w, v) == w
    ensures w.card.Some? && w.mutationOp.None? ==>
              var a := RunVerb(w, v);
              && a.state == Working && a.pendingKind == Presents(v, row) && a.removalNotice == NoMessage
              && (v.ChangePin? ==> Asked(w, a, ManagePin(v.id, Change, false)))
              && (v.Activate? ==>
                    Asked(w, a, ManagePin(v.id, ActivatePin, row.Some? && row.value.keyActivationPending)))
              && (v.ActivateKeyOnly? ==> Asked(w, a, ActivateSigningKey))
              && (v.ConfirmUnblock? ==> Asked(w, a, ManagePin(v.id, Unblock, false)))
  {
    RecordByIdIs(w.records, v.id, row);
    if w.card.Some? && w.mutationOp.None? {
      VerbStarts(w, v);
    }
  }

  /** Whatever becomes of the rows while the verb runs, a banner with an outcome names the credential of the row the
      verb was called on, the signing PIN, or the PUK. */
  lemma BannerNamesCredential(w: Window, v: Verb, row: Option<Record>, events: seq<Event>, t: Terminal)
    requires Inv(w) && w.card.Some? && w.mutationOp.None? && t.op == |w.peer.log| && FirstRow(w.records, v.id, row)
    requires AllAllowed(RunVerb(w, v), events) && NeverUnpins(RunVerb(w, v), events, t.op)
    ensures var z := Deliver(Run(RunVerb(w, v), events), t);
            z.resultMessage.OutcomeText? ==> z.resultMessage.presented == Presents(v, row)
  {
    RecordByIdIs(w.records, v.id, row);
    BannerNamesPresented(w, v, events, t);
  }

  // ---- A cancel ----

  /** A cancel reaches the agent for exactly the operations the window runs, and is remembered for them. */
  lemma CancelReaches(w: Window)
    ensures var v := Cancel(w);
            && (forall op :: op in v.peer.cancelled <==> op in w.peer.cancelled || Tracked(w, op))
            && (v.mutationCancelRequested <==> w.mutationCancelRequested || w.mutationOp.Some?)
            && (v.listCancelRequested <==> w.listCancelRequested || w.listOp.Some?)
            && v == w.(peer := v.peer, mutationCancelRequested := v.mutationCancelRequested,
                       listCancelRequested := v.listCancelRequested)
            && v.peer == w.peer.(cancelled := v.peer.cancelled)
  {
  }

  // ---- A refresh ----

  ghost predicate FirstWithId(readers: seq<Reader>, id: string, i: nat) {
    i < |readers| && readers[i].id == id && forall j :: 0 <= j < i ==> readers[j].id != id
  }

  ghost predicate FirstHolding(readers: seq<Reader>, i: nat) {
    i < |readers| && readers[i].card.Some? && forall j :: 0 <= j < i ==> readers[j].card.None?
  }

  lemma {:induction false} FindReaderIs(readers: seq<Reader>, id: string, i: nat)
    requires FirstWithId(readers, id, i)
    ensures FindReader(readers, id) == Some(readers[i])
  {
    if i > 0 {
      assert forall j :: 0 <= j < i - 1 ==> readers[1..][j] == readers[j + 1];
      FindReaderIs(readers[1..], id, i - 1);
    }
  }

  lemma {:induction false} FindReaderNone(readers: seq<Reader>, id: string)
    requires forall r <- readers :: r.id != id
    ensures FindReader(readers, id).None?
  {
    if readers != [] {
      FindReaderNone(readers[1..], id);
    }
  }

  lemma {:induction false} FirstHoldingIs(readers: seq<Reader>, i: nat)
    requires FirstHolding(readers, i)
    ensures FirstReaderWithCard(readers) == Some(readers[i])
  {
    if i > 0 {
      assert forall j :: 0 <= j < i - 1 ==> readers[1..][j] == readers[j + 1];
      FirstHoldingIs(readers[1..], i - 1);
    }
  }

  /** The reader at `i` is the one a binding to `id` means: the first so named while one is, else the first that
      holds a card. */
  ghost predicate Meant(readers: seq<Reader>, id: string, i: nat) {
    if id != "" && exists r <- readers :: r.id == id then FirstWithId(readers, id, i) else FirstHolding(readers, i)
  }

  lemma MeantResolves(readerId: string, reg: Registry, i: nat)
    requires Meant(reg.readers, readerId, i)
    ensures ResolveReader(readerId, reg) == Some(reg.readers[i])
  {
    if readerId != "" && exists r <- reg.readers :: r.id == readerId {
      FindReaderIs(reg.readers, readerId, i);
    } else {
      if readerId != "" {
        FindReaderNone(reg.readers, readerId);
      }
      FirstHoldingIs(reg.readers, i);
    }
  }

  lemma RetargetBinds(w: Window, reader: Reader)
    ensures var v := Retarget(w, reader);
            && v.resolvedReaderId == reader.id && v.readerId == w.readerId
            && (if reader.card.None? then v.card.None? else v.card == Some(reader.card.value.id))
  {
    ClassifyKeepsCard(BindCard(w.(resolvedReaderId := reader.id), HeldCard(reader)));
    ClassifyKeepsReader(BindCard(w.(resolvedReaderId := reader.id), HeldCard(reader)));
  }

  lemma ClassifyKeepsReader(w: Window)
    ensures Classify(w).readerId == w.readerId && Classify(w).resolvedReaderId == w.resolvedReaderId
  {
  }

  /** A refresh that is not deferred binds the card of the reader the binding means, and never forgets the binding. */
  lemma RefreshBinds(w: Window, i: nat)
    requires w.peer.registry.available && w.mutationOp.None? && Meant(w.peer.registry.readers, w.readerId, i)
    ensures var reader, v := w.peer.registry.readers[i], Refresh(w);
            && v.resolvedReaderId == reader.id && v.readerId == w.readerId
            && (if reader.card.None? then v.card.None? else v.card == Some(reader.card.value.id))
  {
    MeantResolves(w.readerId, w.peer.registry, i);
    RetargetBinds(w, w.peer.registry.readers[i]);
  }

  /** An explicit binding is remembered, whatever it resolves to, and an explicit one off the resolved reader lets go of
      a running verb first; so it always takes effect at once. */
  lemma ReaderBoundBinds(w: Window, id: string, i: nat)
    requires w.peer.registry.available && Meant(w.peer.registry.readers, id, i)
    requires w.mutationOp.None? || id != w.resolvedReaderId
    ensures var reader, v := w.peer.registry.readers[i], Step(w, ReaderBound(id));
            && v.readerId == id && v.resolvedReaderId == reader.id
            && (if reader.card.None? then v.card.None? else v.card == Some(reader.card.value.id))
  {
    var v := if w.mutationOp.Some? && id != w.resolvedReaderId then ResetList(DetachMutation(w)) else w;
    RefreshBinds(v.(readerId := id), i);
  }

  /** With no reader to mean, or no agent, nothing is bound, and the binding is still remembered. */
  lemma RefreshUnbinds(w: Window)
    requires !w.peer.registry.available ||
             (w.mutationOp.None? && forall r <- w.peer.registry.readers ::
                r.card.None? && (w.readerId == "" || r.id != w.readerId))
    ensures var v := Refresh(w);
            && v.card.None? && v.listOp.None? && v.mutationOp.None? && v.resolvedReaderId == ""
            && v.readerId == w.readerId
            && v.state == (if w.peer.registry.available then NoCard else AgentUnavailable)
  {
    if w.peer.registry.available {
      if w.readerId != "" {
        FindReaderNone(w.peer.registry.readers, w.readerId);
      }
      var held := FirstReaderWithCard(w.peer.registry.readers);
      assert held.None?;
    }
  }

  /** A manageable card with nothing running and nothing settled is listed, once; any other is not. */
  lemma ClassifyLists(w: Window)
    ensures var v := Classify(w);
            if w.card.Some? && Manageable(w.peer.registry, w.card.value)
               && w.mutationOp.None? && w.listOp.None? && !w.settled
            then
              && v.peer.log == w.peer.log + [Minted(ListCredentials, w.card.value)] && v.listOp == Some(|w.peer.log|)
              && v.state == (if w.showingResult then w.state else Loading) && v.records == w.records
            else
              && v.peer.log == w.peer.log
              && (w.card.None? || !Manageable(w.peer.registry, w.card.value) ==> v.records == [] && v.listOp.None?)
  {
  }
}
