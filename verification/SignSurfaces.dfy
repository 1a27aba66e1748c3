/** The plasmoid's sign states (SmartCardHandler::signFile and the surfaces around it): one running job per
    reader name, its outcome kept for that reader, and a published copy of what the displayed reader shows. */
module SignSurfaces {
  import opened Wrappers
  import S = SignJob

  datatype Outcome = NoOutcome | SignSucceeded | SignFailed

  /** One reader's sign state; the card is the one the sign was started on, while it lives. */
  datatype Entry = Entry(
    job: Option<nat>, card: Option<nat>, phase: nat, certLabel: string, outcome: Outcome, outputPath: string,
    level: string, message: Option<S.Failure>)

  const NO_ENTRY := Entry(None, None, 0, "", NoOutcome, "", "", None)

  datatype SignResult = SignResult(
    outcome: Outcome, outputPath: string, certLabel: string, level: string, message: Option<S.Failure>)

  datatype Surfaces = Surfaces(busy: bool, phase: nat, result: SignResult)

  /** A job, the reader its slots were connected for, the card it was started on, and the certificate its
      chooser picked, if it was asked. */
  datatype Launch = Launch(reader: string, card: Option<nat>, job: S.Job, picked: Option<S.Certificate>)

  datatype Handler = Handler(
    readerName: string, card: Option<nat>, states: map<string, Entry>, published: Surfaces, jobs: seq<Launch>)

  // ---- What is shown ----

  /** The displayed reader's entry, when it speaks for the card that is bound. */
  function Active(h: Handler): Option<Entry> {
    if h.readerName in h.states && h.states[h.readerName].card == h.card then Some(h.states[h.readerName]) else None
  }

  function Shown(e: Entry): Surfaces {
    Surfaces(e.job.Some?, e.phase, SignResult(e.outcome, e.outputPath, e.certLabel, e.level, e.message))
  }

  function Computed(h: Handler): Surfaces {
    match Active(h) case Some(e) => Shown(e) case None => Shown(NO_ENTRY)
  }

  function Publish(h: Handler): Handler {
    h.(published := Computed(h))
  }

  // ---- The slots ----

  function EntryAt(states: map<string, Entry>, reader: string): Entry {
    if reader in states then states[reader] else NO_ENTRY
  }

  /** A job's `succeeded` or `failed`, for the reader it was started on. */
  function Dispatch(h: Handler, reader: string, s: S.Signal, level: string): Handler {
    var e := EntryAt(h.states, reader).(job := None);
    var done :=
      match s
      case Succeeded(path) => e.(outcome := SignSucceeded, outputPath := path, level := level, message := None)
      case Failed(reason) => e.(outcome := SignFailed, outputPath := "", level := "", message := Some(reason));
    Publish(h.(states := h.states[reader := done]))
  }

  /** Put a job's new state in place, and run the slot of the signal it sent, if it sent one. */
  function Advance(h: Handler, id: nat, job: S.Job, level: string): (v: Handler)
    requires id < |h.jobs|
    ensures |v.jobs| == |h.jobs|
  {
    var l := h.jobs[id];
    var v := h.(jobs := h.jobs[id := l.(job := job)]);
    if |job.signals| > |l.job.signals| then Dispatch(v, l.reader, job.signals[|job.signals| - 1], level) else v
  }

  function SignFile(h: Handler, pki: bool, options: Option<nat>): Handler {
    if EntryAt(h.states, h.readerName).job.Some? then h
    else
      var id := |h.jobs|;
      var entry := NO_ENTRY.(job := Some(id), card := h.card);
      var job := S.New(h.card);
      var v := Publish(h.(states := h.states[h.readerName := entry],
                          jobs := h.jobs + [Launch(h.readerName, h.card, job, None)]));
      Advance(v, id, S.Start(job, pki, options), "")
  }

  /** The certificate's name as the success message gives it. */
  function CertLabel(c: S.Certificate): string {
    if c.subject == "" then c.id else c.subject
  }

  predicate Running(h: Handler, id: nat) {
    id < |h.jobs| && !h.jobs[id].job.emitted
  }

  /** The certificates arrive. Among several the plasmoid's chooser silently takes the first, and notes which. */
  function CertsArrive(h: Handler, id: nat, ok: bool, certs: seq<S.Certificate>): Handler {
    if !Running(h, id) || !h.jobs[id].job.certOp then h
    else
      var l := h.jobs[id];
      var capable := S.Capable(certs);
      var asked := ok && |capable| > 1;
      var answer := if asked then Some(capable[0].id) else None;
      var v :=
        if asked
        then h.(states := h.states[l.reader := EntryAt(h.states, l.reader).(certLabel := CertLabel(capable[0]))],
                jobs := h.jobs[id := l.(picked := Some(capable[0]))])
        else h;
      Advance(v, id, S.CertificatesFinished(l.job, ok, certs, answer), "")
  }

  function JobTurn(h: Handler, id: nat, readable: bool): Handler {
    if !Running(h, id) then h else Advance(h, id, S.BeginSign(h.jobs[id].job, readable), "")
  }

  function SignatureArrives(h: Handler, id: nat, ok: bool, artifact: bool, written: Option<string>, level: string)
    : Handler
  {
    if !Running(h, id) then h else Advance(h, id, S.SignFinished(h.jobs[id].job, ok, artifact, written), level)
  }

  function PhaseChanges(h: Handler, id: nat, phase: nat): Handler {
    if id >= |h.jobs| || h.jobs[id].reader !in h.states then h
    else
      var r := h.jobs[id].reader;
      Publish(h.(states := h.states[r := h.states[r].(phase := phase)]))
  }

  function Dismiss(h: Handler): Handler {
    if EntryAt(h.states, h.readerName).outcome == NoOutcome then h
    else
      var e := h.states[h.readerName];
      Publish(h.(states := h.states[h.readerName :=
        e.(outcome := NoOutcome, outputPath := "", certLabel := "", level := "", message := None)]))
  }

  /** The entries of the readers that are there or still sign. */
  function Kept(states: map<string, Entry>, roster: seq<string>): map<string, Entry> {
    map r <- states | states[r].job.Some? || r in roster :: states[r]
  }

  /** A refresh: forget the readers that left, unless they still sign, then show the reader picked. */
  function Refresh(h: Handler, roster: seq<string>, reader: string, card: Option<nat>): Handler {
    Publish(h.(states := Kept(h.states, roster), readerName := reader, card := card))
  }

  // ---- A card is pulled ----

  /** Every job on the card has its operations ended without success and its pointer nulled, from `id` on. */
  function EndJobs(h: Handler, lost: nat, id: nat): Handler
    decreases |h.jobs| - id
  {
    if id >= |h.jobs| then h
    else
      var v := if h.jobs[id].job.card == Some(lost) && !h.jobs[id].job.emitted
               then Advance(h, id, S.CardRemoved(h.jobs[id].job), "") else h;
      EndJobs(v, lost, id + 1)
  }

  function Forget(card: Option<nat>, lost: nat): Option<nat> {
    if card == Some(lost) then None else card
  }

  function Forgotten(states: map<string, Entry>, lost: nat): map<string, Entry> {
    map r <- states :: states[r].(card := Forget(states[r].card, lost))
  }

  function DropCard(h: Handler, lost: nat): Handler {
    h.(card := Forget(h.card, lost), states := Forgotten(h.states, lost))
  }

  /** The card goes: its jobs end, then the pointers to it are null. */
  function LoseCard(h: Handler, lost: nat): Handler {
    DropCard(EndJobs(h, lost, 0), lost)
  }

  datatype Event =
    | FileChosen(pki: bool, options: Option<nat>)
    | Certs(id: nat, ok: bool, certs: seq<S.Certificate>)
    | Turn(id: nat, readable: bool)
    | Signature(id: nat, ok: bool, artifact: bool, written: Option<string>, level: string)
    | Phase(id: nat, phase: nat)
    | Dismissed
    | Refreshed(roster: seq<string>, reader: string, card: Option<nat>)
    | CardPulled(lost: nat, roster: seq<string>, reader: string, card: Option<nat>)

  function Step(h: Handler, e: Event): Handler {
    match e
    case FileChosen(pki, options) => SignFile(h, pki, options)
    case Certs(id, ok, certs) => CertsArrive(h, id, ok, certs)
    case Turn(id, readable) => JobTurn(h, id, readable)
    case Signature(id, ok, artifact, written, level) => SignatureArrives(h, id, ok, artifact, written, level)
    case Phase(id, phase) => PhaseChanges(h, id, phase)
    case Dismissed => Dismiss(h)
    case Refreshed(roster, reader, card) => Refresh(h, roster, reader, card)
    case CardPulled(lost, roster, reader, card) => Refresh(LoseCard(h, lost), roster, reader, card)
  }

  function Run(h: Handler, events: seq<Event>): Handler
    decreases |events|
  {
    if events == [] then h else Run(Step(h, events[0]), events[1..])
  }

  const INITIAL := Handler("", None, map[], Shown(NO_ENTRY), [])

  // ---- What every run keeps ----

  function Key(card: Option<nat>): nat {
    if card.Some? then card.value else 0
  }

  /** The running jobs and the entries holding one are in one-to-one correspondence, through the reader. */
  ghost predicate JobsOk(h: Handler) {
    && (forall id: nat :: Running(h, id) ==>
          h.jobs[id].reader in h.states && h.states[h.jobs[id].reader].job == Some(id))
    && (forall r <- h.states :: h.states[r].job.Some? ==>
          Running(h, h.states[r].job.value) && h.jobs[h.states[r].job.value].reader == r
          && h.states[r].outcome == NoOutcome)
    && (forall id: nat :: id < |h.jobs| ==> JobOk(h.jobs[id].job, h.jobs[id].card))
  }

  /** A job is in order, and its chooser, when it was asked, took the first of several that can sign. */
  ghost predicate JobOk(job: S.Job, card: Option<nat>) {
    && S.Inv(job, Key(card))
    && (job.answer.Some? ==> |S.Capable(job.read)| > 1 && job.answer == Some(S.Capable(job.read)[0].id))
  }

  /** While a job runs its entry's label names the certificate its silent pick chose, if it made one, and that
      is the certificate it signs with. */
  ghost predicate LabelsOk(h: Handler) {
    forall id: nat :: Running(h, id) && h.jobs[id].reader in h.states ==>
      LabelOk(h.jobs[id], h.states[h.jobs[id].reader].certLabel)
  }

  ghost predicate LabelOk(l: Launch, certLabel: string) {
    match l.picked
    case None => certLabel == ""
    case Some(c) =>
      && certLabel == CertLabel(c) && !l.job.certOp
      && (l.job.queued.Some? ==> l.job.queued == Some(c.id))
      && (|l.job.calls| == 2 ==> l.job.calls[1].Sign? && l.job.calls[1].certId == c.id)
  }

  /** What is published is what would be computed now, but for the label a silent pick wrote while its job is
      still running. */
  ghost predicate PublishedOk(h: Handler) {
    var now := Computed(h);
    && h.published.(result := h.published.result.(certLabel := now.result.certLabel)) == now
    && (h.published != now ==> now.busy && now.result.outcome == NoOutcome)
  }

  ghost predicate Inv(h: Handler) {
    JobsOk(h) && LabelsOk(h) && PublishedOk(h)
  }

  lemma InitialInv()
    ensures Inv(INITIAL)
  {
  }

  /** A running job's next state is in order, and its label with it. */
  ghost predicate Advances(h: Handler, id: nat, job: S.Job) {
    && JobsOk(h) && Running(h, id)
    && JobOk(job, h.jobs[id].card) && |job.signals| >= |h.jobs[id].job.signals|
    && LabelsOk(h.(jobs := h.jobs[id := h.jobs[id].(job := job)]))
  }

  lemma AdvanceJobs(h: Handler, id: nat, job: S.Job, level: string)
    requires Advances(h, id, job)
    ensures JobsOk(Advance(h, id, job, level))
  {
    var w := Advance(h, id, job, level);
    if job.emitted {
      assert |job.signals| > |h.jobs[id].job.signals|;
      forall other: nat | Running(w, other)
        ensures w.jobs[other].reader in w.states && w.states[w.jobs[other].reader].job == Some(other)
      {
        assert other != id && Running(h, other);
      }
    }
  }

  lemma AdvanceLabels(h: Handler, id: nat, job: S.Job, level: string)
    requires Advances(h, id, job)
    ensures LabelsOk(Advance(h, id, job, level))
  {
    var w := Advance(h, id, job, level);
    if job.emitted {
      forall other: nat | Running(w, other) && w.jobs[other].reader in w.states
        ensures LabelOk(w.jobs[other], w.states[w.jobs[other].reader].certLabel)
      {
        assert other != id && Running(h, other);
        assert Running(h.(jobs := h.jobs[id := h.jobs[id].(job := job)]), other);
      }
    }
  }

  lemma AdvancePublished(h: Handler, id: nat, job: S.Job, level: string)
    requires PublishedOk(h) && id < |h.jobs|
    ensures PublishedOk(Advance(h, id, job, level))
    ensures forall r :: r != h.jobs[id].reader ==>
              EntryAt(Advance(h, id, job, level).states, r) == EntryAt(h.states, r)
              && (r in Advance(h, id, job, level).states <==> r in h.states)
  {
  }

  /** Putting a running job's next state in place keeps everything, whether or not it answered. */
  lemma AdvanceInv(h: Handler, id: nat, job: S.Job, level: string)
    requires Advances(h, id, job) && PublishedOk(h)
    ensures Inv(Advance(h, id, job, level))
    ensures forall r :: r != h.jobs[id].reader ==>
              EntryAt(Advance(h, id, job, level).states, r) == EntryAt(h.states, r)
              && (r in Advance(h, id, job, level).states <==> r in h.states)
  {
    AdvanceJobs(h, id, job, level);
    AdvanceLabels(h, id, job, level);
    AdvancePublished(h, id, job, level);
  }

  lemma SignFileInv(h: Handler, pki: bool, options: Option<nat>)
    requires Inv(h)
    ensures Inv(SignFile(h, pki, options))
  {
    if EntryAt(h.states, h.readerName).job.None? {
      var id := |h.jobs|;
      var job := S.New(h.card);
      var v := Publish(h.(states := h.states[h.readerName := NO_ENTRY.(job := Some(id), card := h.card)],
                          jobs := h.jobs + [Launch(h.readerName, h.card, job, None)]));
      S.StartInv(h.card, Key(h.card), pki, options);
      StartedInv(v, id, S.Start(job, pki, options));
    }
  }

  /** As AdvanceInv, for a job that has not started: its state is not yet one `S.Inv` describes. */
  lemma StartedInv(h: Handler, id: nat, job: S.Job)
    requires id < |h.jobs| && id == |h.jobs| - 1 && h.jobs[id].picked.None?
    requires JobOk(job, h.jobs[id].card) && h.jobs[id].job.signals == []
    requires JobsOk(h.(jobs := h.jobs[..id], states := h.states[h.jobs[id].reader := NO_ENTRY]))
    requires LabelsOk(h.(jobs := h.jobs[..id]))
    requires PublishedOk(h)
    requires h.jobs[id].reader in h.states
    requires h.states[h.jobs[id].reader] == NO_ENTRY.(job := Some(id), card := h.states[h.jobs[id].reader].card)
    ensures Inv(Advance(h, id, job, ""))
  {
    var l := h.jobs[id];
    var base := h.(jobs := h.jobs[..id], states := h.states[l.reader := NO_ENTRY]);
    var w := Advance(h, id, job, "");
    forall other: nat | other < |w.jobs|
      ensures JobOk(w.jobs[other].job, w.jobs[other].card)
      ensures Running(w, other) ==>
                && w.jobs[other].reader in w.states && w.states[w.jobs[other].reader].job == Some(other)
                && LabelOk(w.jobs[other], w.states[w.jobs[other].reader].certLabel)
    {
      if other != id {
        assert base.jobs[other] == w.jobs[other];
        if Running(w, other) {
          assert Running(base, other);
        }
      }
    }
    forall r <- w.states | w.states[r].job.Some?
      ensures Running(w, w.states[r].job.value) && w.jobs[w.states[r].job.value].reader == r
      ensures w.states[r].outcome == NoOutcome
    {
      if r != l.reader {
        assert base.states[r] == w.states[r];
        assert Running(base, base.states[r].job.value);
      }
    }
  }

  lemma CertsInv(h: Handler, id: nat, ok: bool, certs: seq<S.Certificate>)
    requires Inv(h)
    ensures Inv(CertsArrive(h, id, ok, certs))
  {
    if Running(h, id) && h.jobs[id].job.certOp {
      var l := h.jobs[id];
      var capable := S.Capable(certs);
      var asked := ok && |capable| > 1;
      var answer := if asked then Some(capable[0].id) else None;
      var job := S.CertificatesFinished(l.job, ok, certs, answer);
      S.StepInv(l.job, S.CertsDone(ok, certs, answer, false), Key(l.card));
      if asked {
        var v := h.(states := h.states[l.reader := EntryAt(h.states, l.reader).(certLabel := CertLabel(capable[0]))],
                    jobs := h.jobs[id := l.(picked := Some(capable[0]))]);
        PickedInv(h, id, capable[0]);
        LabelsStay(v, id, job);
        AdvanceInv(v, id, job, "");
      } else {
        LabelsStay(h, id, job);
        AdvanceInv(h, id, job, "");
      }
    }
  }

  /** The silent pick writes its label into its own reader's entry and publishes nothing. */
  lemma PickedInv(h: Handler, id: nat, c: S.Certificate)
    requires Inv(h) && Running(h, id) && h.jobs[id].job.certOp
    ensures var l := h.jobs[id];
            var v := h.(states := h.states[l.reader := EntryAt(h.states, l.reader).(certLabel := CertLabel(c))],
                        jobs := h.jobs[id := l.(picked := Some(c))]);
            JobsOk(v) && PublishedOk(v) && Running(v, id)
            && forall other: nat :: other != id && Running(v, other) && v.jobs[other].reader in v.states ==>
                 LabelOk(v.jobs[other], v.states[v.jobs[other].reader].certLabel)
  {
    var l := h.jobs[id];
    var v := h.(states := h.states[l.reader := EntryAt(h.states, l.reader).(certLabel := CertLabel(c))],
                jobs := h.jobs[id := l.(picked := Some(c))]);
    forall other: nat | other != id && Running(v, other)
      ensures v.jobs[other].reader in v.states && v.states[v.jobs[other].reader].job == Some(other)
      ensures LabelOk(v.jobs[other], v.states[v.jobs[other].reader].certLabel)
    {
      assert Running(h, other);
    }
  }

  /** The other jobs' labels do not depend on this one's progress. */
  lemma LabelsStay(h: Handler, id: nat, job: S.Job)
    requires Running(h, id) && JobsOk(h)
    requires forall other: nat :: other != id && Running(h, other) && h.jobs[other].reader in h.states ==>
               LabelOk(h.jobs[other], h.states[h.jobs[other].reader].certLabel)
    requires !job.emitted ==> LabelOk(h.jobs[id].(job := job), h.states[h.jobs[id].reader].certLabel)
    ensures LabelsOk(h.(jobs := h.jobs[id := h.jobs[id].(job := job)]))
  {
    var v := h.(jobs := h.jobs[id := h.jobs[id].(job := job)]);
    forall other: nat | Running(v, other) && v.jobs[other].reader in v.states
      ensures LabelOk(v.jobs[other], v.states[v.jobs[other].reader].certLabel)
    {
      assert other != id ==> Running(h, other);
    }
  }

  lemma TurnInv(h: Handler, id: nat, readable: bool)
    requires Inv(h)
    ensures Inv(JobTurn(h, id, readable))
  {
    if Running(h, id) {
      var job := S.BeginSign(h.jobs[id].job, readable);
      S.StepInv(h.jobs[id].job, S.QueueTurn(readable), Key(h.jobs[id].card));
      LabelsStay(h, id, job);
      AdvanceInv(h, id, job, "");
    }
  }

  lemma SignatureInv(h: Handler, id: nat, ok: bool, artifact: bool, written: Option<string>, level: string)
    requires Inv(h)
    ensures Inv(SignatureArrives(h, id, ok, artifact, written, level))
  {
    if Running(h, id) {
      var job := S.SignFinished(h.jobs[id].job, ok, artifact, written);
      S.StepInv(h.jobs[id].job, S.SignDone(ok, artifact, written), Key(h.jobs[id].card));
      LabelsStay(h, id, job);
      AdvanceInv(h, id, job, level);
    }
  }

  lemma PhaseInv(h: Handler, id: nat, phase: nat)
    requires Inv(h)
    ensures Inv(PhaseChanges(h, id, phase))
  {
  }

  lemma DismissInv(h: Handler)
    requires Inv(h)
    ensures Inv(Dismiss(h))
  {
  }

  lemma RefreshInv(h: Handler, roster: seq<string>, reader: string, card: Option<nat>)
    requires JobsOk(h) && LabelsOk(h)
    ensures Inv(Refresh(h, roster, reader, card))
  {
    var v := Refresh(h, roster, reader, card);
    forall id: nat | Running(v, id)
      ensures v.jobs[id].reader in v.states && v.states[v.jobs[id].reader].job == Some(id)
    {
      assert Running(h, id);
    }
  }

  lemma {:induction false} EndJobsInv(h: Handler, lost: nat, id: nat)
    requires Inv(h)
    ensures Inv(EndJobs(h, lost, id))
    decreases |h.jobs| - id
  {
    if id < |h.jobs| {
      if h.jobs[id].job.card == Some(lost) && Running(h, id) {
        var job := S.CardRemoved(h.jobs[id].job);
        S.StepInv(h.jobs[id].job, S.Removed, Key(h.jobs[id].card));
        LabelsStay(h, id, job);
        AdvanceInv(h, id, job, "");
        EndJobsInv(Advance(h, id, job, ""), lost, id + 1);
      } else {
        EndJobsInv(h, lost, id + 1);
      }
    }
  }

  lemma DropCardInv(h: Handler, lost: nat)
    requires Inv(h)
    ensures JobsOk(DropCard(h, lost)) && LabelsOk(DropCard(h, lost))
  {
  }

  lemma PulledInv(h: Handler, lost: nat, roster: seq<string>, reader: string, card: Option<nat>)
    requires Inv(h)
    ensures Inv(Refresh(LoseCard(h, lost), roster, reader, card))
  {
    EndJobsInv(h, lost, 0);
    DropCardInv(EndJobs(h, lost, 0), lost);
    RefreshInv(DropCard(EndJobs(h, lost, 0), lost), roster, reader, card);
  }

  lemma StepInv(h: Handler, e: Event)
    requires Inv(h)
    ensures Inv(Step(h, e))
  {
    match e
    case FileChosen(pki, options) => SignFileInv(h, pki, options);
    case Certs(id, ok, certs) => CertsInv(h, id, ok, certs);
    case Turn(id, readable) => TurnInv(h, id, readable);
    case Signature(id, ok, artifact, written, level) => SignatureInv(h, id, ok, artifact, written, level);
    case Phase(id, phase) => PhaseInv(h, id, phase);
    case Dismissed => DismissInv(h);
    case Refreshed(roster, reader, card) => RefreshInv(h, roster, reader, card);
    case CardPulled(lost, roster, reader, card) => PulledInv(h, lost, roster, reader, card);
  }

  /** Over every interleaving of starts, phases, answers, chip switches, roster changes and card pulls. */
  lemma {:induction false} RunInv(h: Handler, events: seq<Event>)
    requires Inv(h)
    ensures Inv(Run(h, events))
    decreases |events|
  {
    if events != [] {
      StepInv(h, events[0]);
      RunInv(Step(h, events[0]), events[1..]);
    }
  }

  // ---- What follows ----

  /** In every run two running jobs sit on two readers, and a running job's entry is still there for it. */
  lemma OneJobPerReader(events: seq<Event>, a: nat, b: nat)
    requires Running(Run(INITIAL, events), a) && Running(Run(INITIAL, events), b)
    ensures var h := Run(INITIAL, events);
            && (h.jobs[a].reader == h.jobs[b].reader ==> a == b)
            && h.jobs[a].reader in h.states && h.states[h.jobs[a].reader].job == Some(a)
  {
    InitialInv();
    RunInv(INITIAL, events);
  }

  /** The job an event belongs to. */
  function JobOf(e: Event): Option<nat> {
    match e
    case Certs(id, _, _) => Some(id)
    case Turn(id, _) => Some(id)
    case Signature(id, _, _, _, _) => Some(id)
    case Phase(id, _) => Some(id)
    case _ => None
  }

  lemma AdvanceElsewhere(h: Handler, id: nat, job: S.Job, level: string, r: string)
    requires id < |h.jobs| && r != h.jobs[id].reader
    ensures EntryAt(Advance(h, id, job, level).states, r) == EntryAt(h.states, r)
  {
  }

  lemma CertsElsewhere(h: Handler, id: nat, ok: bool, certs: seq<S.Certificate>, r: string)
    requires id < |h.jobs| ==> r != h.jobs[id].reader
    ensures EntryAt(CertsArrive(h, id, ok, certs).states, r) == EntryAt(h.states, r)
  {
  }

  /** A job's events touch the entry of the reader it was started on, and no other. */
  lemma JobTouchesOwnEntry(h: Handler, e: Event, id: nat, r: string)
    requires Inv(h) && JobOf(e) == Some(id)
    requires id < |h.jobs| ==> r != h.jobs[id].reader
    ensures EntryAt(Step(h, e).states, r) == EntryAt(h.states, r)
  {
    match e
    case Certs(_, ok, certs) => CertsElsewhere(h, id, ok, certs, r);
    case Turn(_, readable) =>
      if Running(h, id) {
        AdvanceElsewhere(h, id, S.BeginSign(h.jobs[id].job, readable), "", r);
      }
    case Signature(_, ok, artifact, written, level) =>
      if Running(h, id) {
        AdvanceElsewhere(h, id, S.SignFinished(h.jobs[id].job, ok, artifact, written), level, r);
      }
    case _ =>
  }

  /** Re-targets and roster changes leave running jobs and their entries exactly as they were. */
  lemma RunningSurvivesRefresh(h: Handler, roster: seq<string>, reader: string, card: Option<nat>, id: nat)
    requires Inv(h) && Running(h, id)
    ensures var v := Refresh(h, roster, reader, card);
            && v.jobs == h.jobs && h.jobs[id].reader in v.states
            && v.states[h.jobs[id].reader] == h.states[h.jobs[id].reader]
  {
  }

  /** Every job a run ever started has sent no signal while it runs and one since. */
  lemma JobAnswersOnce(events: seq<Event>, id: nat)
    requires id < |Run(INITIAL, events).jobs|
    ensures var h := Run(INITIAL, events); |h.jobs[id].job.signals| == if Running(h, id) then 0 else 1
  {
    InitialInv();
    RunInv(INITIAL, events);
  }

  /** A success is kept for the reader it was started on, whatever reader is shown by then; and where the
      certificate was picked silently, the label it is kept with names the certificate that signed. */
  lemma SuccessNamesSigner(h: Handler, id: nat, path: string, level: string)
    requires Inv(h) && Running(h, id) && h.jobs[id].job.signOp
    ensures var l := h.jobs[id];
            var v := SignatureArrives(h, id, true, true, Some(path), level);
            && l.reader in v.states
            && v.states[l.reader].outcome == SignSucceeded && v.states[l.reader].outputPath == path
            && v.states[l.reader].level == level && v.states[l.reader].job.None?
            && (l.picked.Some? ==>
                  (v.states[l.reader].certLabel ==
                     (if l.picked.value.subject != "" then l.picked.value.subject else l.picked.value.id)
                   && |l.job.calls| == 2 && l.job.calls[1].Sign? && l.job.calls[1].certId == l.picked.value.id))
            && (l.picked.None? ==> v.states[l.reader].certLabel == "")
  {
  }

  /** Whether an event is the silent pick among several certificates, on the reader that is displayed. */
  predicate PicksOnDisplay(h: Handler, e: Event) {
    e.Certs? && Running(h, e.id) && h.jobs[e.id].job.certOp && e.ok && |S.Capable(e.certs)| > 1
    && h.jobs[e.id].reader == h.readerName
  }

  /** Whether that pick writes a label where the displayed surfaces would show it. */
  predicate WritesUnpublished(h: Handler, e: Event) {
    PicksOnDisplay(h, e) && Active(h).Some? && CertLabel(S.Capable(e.certs)[0]) != ""
  }

  lemma PickUnpublished(h: Handler, id: nat, certs: seq<S.Certificate>)
    requires Inv(h) && h.published == Computed(h) && PicksOnDisplay(h, Certs(id, true, certs))
    ensures var v := CertsArrive(h, id, true, certs);
            v.published == Computed(v) <==> !(Active(h).Some? && CertLabel(S.Capable(certs)[0]) != "")
  {
  }

  lemma OthersPublish(h: Handler, e: Event)
    requires Inv(h) && h.published == Computed(h) && !e.Certs?
    ensures Step(h, e).published == Computed(Step(h, e))
  {
  }

  lemma CertsPublished(h: Handler, id: nat, ok: bool, certs: seq<S.Certificate>)
    requires Inv(h) && h.published == Computed(h) && !PicksOnDisplay(h, Certs(id, ok, certs))
    ensures CertsArrive(h, id, ok, certs).published == Computed(CertsArrive(h, id, ok, certs))
  {
  }

  /** From published surfaces that are current, an event leaves them current if and only if it is not the silent pick
      of a named certificate for the displayed reader, whose entry speaks for the card that is bound. */
  lemma PublishedCurrentIff(h: Handler, e: Event)
    requires Inv(h) && h.published == Computed(h)
    ensures Step(h, e).published == Computed(Step(h, e)) <==> !WritesUnpublished(h, e)
  {
    match e
    case Certs(id, ok, certs) =>
      if PicksOnDisplay(h, e) {
        PickUnpublished(h, id, certs);
      } else {
        CertsPublished(h, id, ok, certs);
      }
    case _ => OthersPublish(h, e);
  }

  const FIRST_CERT := S.Certificate("a", "Alice", true)
  const SECOND_CERT := S.Certificate("b", "Bob", true)

  lemma BothCapable()
    ensures S.Capable([FIRST_CERT, SECOND_CERT]) == [FIRST_CERT, SECOND_CERT]
  {
    var certs := [FIRST_CERT, SECOND_CERT];
    assert certs[1..] == [SECOND_CERT] && [SECOND_CERT][1..] == [];
    assert S.Capable([SECOND_CERT]) == [SECOND_CERT];
  }

  /** A reader with a card is displayed, and a file is chosen. */
  const STARTING: seq<Event> := [Refreshed(["r"], "r", Some(1)), FileChosen(true, Some(0))]

  lemma StartsJob(h: Handler)
    requires h.jobs == [] && h.states == map[] && h.card.Some?
    ensures var v := SignFile(h, true, Some(0));
            && v.published == Computed(v) && v.readerName == h.readerName && Active(v).Some?
            && Running(v, 0) && v.jobs[0].job.certOp && v.jobs[0].reader == h.readerName
  {
  }

  lemma RunTwo(h: Handler, a: Event, b: Event)
    ensures Run(h, [a, b]) == Step(Step(h, a), b)
  {
    RunOneMore(h, [a], b);
    assert [a] + [b] == [a, b];
    assert Run(Step(h, a), []) == Step(h, a);
  }

  lemma Started()
    ensures var h := Run(INITIAL, STARTING);
            && Inv(h) && h.published == Computed(h) && h.readerName == "r" && Active(h).Some?
            && Running(h, 0) && h.jobs[0].job.certOp && h.jobs[0].reader == "r"
  {
    FirstShown();
    var shown := Step(INITIAL, STARTING[0]);
    StepInv(shown, STARTING[1]);
    StartsJob(shown);
    RunTwo(INITIAL, STARTING[0], STARTING[1]);
  }

  lemma FirstShown()
    ensures var shown := Step(INITIAL, STARTING[0]);
            Inv(shown) && shown.jobs == [] && shown.states == map[] && shown.card == Some(1) && shown.readerName == "r"
  {
    InitialInv();
    StepInv(INITIAL, STARTING[0]);
  }

  lemma {:induction false} RunOneMore(h: Handler, events: seq<Event>, e: Event)
    ensures Run(h, events + [e]) == Step(Run(h, events), e)
    decreases |events|
  {
    if events == [] {
      assert ([] + [e])[0] == e && ([] + [e])[1..] == [];
      assert Run(Step(h, e), []) == Step(h, e);
    } else {
      assert (events + [e])[1..] == events[1..] + [e];
      RunOneMore(Step(h, events[0]), events[1..], e);
    }
  }

  /** A run that ends with the published label behind: a reader with a card, a file to sign, two certificates. */
  lemma PublishedBehind()
    ensures var h := Run(INITIAL, STARTING + [Certs(0, true, [FIRST_CERT, SECOND_CERT])]);
            Inv(h) && h.published != Computed(h)
  {
    var e := Certs(0, true, [FIRST_CERT, SECOND_CERT]);
    Started();
    BothCapable();
    RunOneMore(INITIAL, STARTING, e);
    InitialInv();
    RunInv(INITIAL, STARTING + [e]);
    PublishedCurrentIff(Run(INITIAL, STARTING), e);
  }

  /** In every run the plasmoid signs with a certificate that can sign: the first such of those the job read. */
  lemma SignsWithFirstCapable(events: seq<Event>, id: nat)
    requires id < |Run(INITIAL, events).jobs|
    ensures var job := Run(INITIAL, events).jobs[id].job;
            forall c <- job.calls :: c.Sign? ==>
              |S.Capable(job.read)| > 0 && c.certId == S.Capable(job.read)[0].id && S.CanSign(job, c.certId)
  {
    InitialInv();
    RunInv(INITIAL, events);
    var l := Run(INITIAL, events).jobs[id];
    FirstCapableSigns(l.job, l.card);
  }

  lemma FirstCapableSigns(job: S.Job, card: Option<nat>)
    requires JobOk(job, card)
    ensures forall c <- job.calls :: c.Sign? ==>
              |S.Capable(job.read)| > 0 && c.certId == S.Capable(job.read)[0].id && S.CanSign(job, c.certId)
  {
    if |S.Capable(job.read)| > 0 {
      S.LoneCanSign(job);
    }
    forall c <- job.calls | c.Sign?
      ensures S.ToSignWith(job, c.certId)
    {
      assert c == job.calls[1];
    }
  }

  // ---- What a reader's entry says ----

  /** What is on display: the displayed reader's entry, but only while it speaks for the card that is bound; it says
      busy exactly while a job started on that reader runs. For another card's entry, or none, nothing is shown. */
  lemma PublishedMeans(h: Handler)
    requires Inv(h)
    ensures var mine := h.readerName in h.states && h.states[h.readerName].card == h.card;
            && (h.published.busy <==> mine && exists id: nat :: Running(h, id) && h.jobs[id].reader == h.readerName)
            && (mine ==>
                  var e, shown := h.states[h.readerName], h.published.result;
                  && h.published.phase == e.phase && shown.outcome == e.outcome && shown.outputPath == e.outputPath
                  && shown.level == e.level && shown.message == e.message)
            && (mine && !h.published.busy ==> h.published.result.certLabel == h.states[h.readerName].certLabel)
            && (!mine ==> h.published == Surfaces(false, 0, SignResult(NoOutcome, "", "", "", None)))
  {
  }

  /** A file chosen on a reader that is signing does nothing; on another it starts a job for the displayed reader and
      the bound card, over an entry wiped of the last outcome. A start that fails is kept as that. */
  lemma FileStarts(h: Handler, pki: bool, options: Option<nat>)
    requires Inv(h)
    ensures var v, id := Step(h, FileChosen(pki, options)), |h.jobs|;
            if exists k: nat :: Running(h, k) && h.jobs[k].reader == h.readerName then v == h
            else
              && |v.jobs| == id + 1 && v.jobs[..id] == h.jobs
              && v.jobs[id] == Launch(h.readerName, h.card, S.Start(S.New(h.card), pki, options), None)
              && h.readerName in v.states
              && (h.card.Some? && pki && options.Some? ==>
                    v.states[h.readerName] == Entry(Some(id), h.card, 0, "", NoOutcome, "", "", None))
              && (h.card.None? || !pki || options.None? ==>
                    v.states[h.readerName].job.None? && v.states[h.readerName].outcome == SignFailed)
  {
  }

  /** A job's answer is kept for the reader it was started on: the path and level of a success, the reason of a
      failure, and nothing of the other. */
  lemma AnswerKept(h: Handler, id: nat, job: S.Job, level: string)
    requires Running(h, id) && h.jobs[id].job.signals == [] && |job.signals| == 1
    ensures var v := Advance(h, id, job, level);
            && h.jobs[id].reader in v.states
            && var e := v.states[h.jobs[id].reader];
               match job.signals[0]
               case Succeeded(path) =>
                 e.job.None? && e.outcome == SignSucceeded && e.outputPath == path && e.level == level
                 && e.message.None?
               case Failed(reason) =>
                 e.job.None? && e.outcome == SignFailed && e.outputPath == "" && e.level == ""
                 && e.message == Some(reason)
  {
  }

  /** A phase is written to the entry of the job's reader and moves nothing else of it. */
  lemma PhaseWritten(h: Handler, id: nat, phase: nat)
    requires id < |h.jobs| && h.jobs[id].reader in h.states
    ensures var v, r := Step(h, Phase(id, phase)), h.jobs[id].reader;
            v.states == h.states[r := h.states[r].(phase := phase)] && v.jobs == h.jobs
  {
  }

  /** Dismissing clears an outcome of the displayed reader, and neither its job, its phase nor another reader. */
  lemma DismissClears(h: Handler)
    requires Inv(h)
    ensures var v := Step(h, Dismissed);
            && v.jobs == h.jobs && v.states.Keys == h.states.Keys
            && (forall r <- h.states :: r != h.readerName ==> v.states[r] == h.states[r])
            && (h.readerName in h.states ==>
                  var was, e := h.states[h.readerName], v.states[h.readerName];
                  && e.outcome == NoOutcome && e.job == was.job && e.phase == was.phase && e.card == was.card
                  && (was.outcome != NoOutcome ==>
                        e.outputPath == "" && e.certLabel == "" && e.level == "" && e.message.None?)
                  && (was.outcome == NoOutcome ==> e == was))
  {
  }

  /** A refresh shows the reader and the card that were picked, and forgets exactly the entries of readers that left
      and do not sign. */
  lemma RefreshForgets(h: Handler, roster: seq<string>, reader: string, card: Option<nat>)
    requires Inv(h)
    ensures var v := Step(h, Refreshed(roster, reader, card));
            && v.readerName == reader && v.card == card && v.jobs == h.jobs
            && (forall r :: r in v.states <==>
                  r in h.states && (r in roster || exists id: nat :: Running(h, id) && h.jobs[id].reader == r))
            && (forall r <- v.states :: v.states[r] == h.states[r])
  {
    var v := Step(h, Refreshed(roster, reader, card));
    forall r <- h.states
      ensures h.states[r].job.Some? <==> exists id: nat :: Running(h, id) && h.jobs[id].reader == r
    {
      assert h.states[r].job.Some? ==> Running(h, h.states[r].job.value);
    }
  }

  lemma {:induction false} EndJobsBefore(h: Handler, lost: nat, from: nat, k: nat)
    requires k < from && k < |h.jobs|
    ensures |EndJobs(h, lost, from).jobs| == |h.jobs| && EndJobs(h, lost, from).jobs[k] == h.jobs[k]
    decreases |h.jobs| - from
  {
    if from < |h.jobs| {
      if h.jobs[from].job.card == Some(lost) && !h.jobs[from].job.emitted {
        EndJobsBefore(Advance(h, from, S.CardRemoved(h.jobs[from].job), ""), lost, from + 1, k);
      } else {
        EndJobsBefore(h, lost, from + 1, k);
      }
    }
  }

  lemma {:induction false} EndJobsLeave(h: Handler, lost: nat, from: nat, k: nat)
    requires from <= k < |h.jobs|
    ensures var v := EndJobs(h, lost, from);
            && |v.jobs| == |h.jobs|
            && (if h.jobs[k].job.card == Some(lost) && Running(h, k)
                then v.jobs[k].job == S.CardRemoved(h.jobs[k].job) else v.jobs[k] == h.jobs[k])
    decreases |h.jobs| - from
  {
    var ends := h.jobs[from].job.card == Some(lost) && !h.jobs[from].job.emitted;
    var v := if ends then Advance(h, from, S.CardRemoved(h.jobs[from].job), "") else h;
    assert |v.jobs| == |h.jobs|;
    if k == from {
      EndJobsBefore(v, lost, from + 1, k);
    } else {
      assert v.jobs[k] == h.jobs[k];
      EndJobsLeave(v, lost, from + 1, k);
    }
  }

  /** A pull ends the jobs that were reading or signing on the card, takes the card from those still to sign, leaves
      the other cards' jobs alone, and lets no entry speak for the card any more. */
  lemma PullEnds(h: Handler, lost: nat, roster: seq<string>, reader: string, card: Option<nat>, k: nat)
    requires Inv(h) && k < |h.jobs|
    ensures var v := Step(h, CardPulled(lost, roster, reader, card));
            && k < |v.jobs|
            && (if h.jobs[k].job.card == Some(lost) && Running(h, k)
                then v.jobs[k].job.card.None? && (Running(v, k) <==> h.jobs[k].job.queued.Some?)
                else v.jobs[k] == h.jobs[k])
            && forall r <- v.states :: v.states[r].card != Some(lost)
  {
    EndJobsLeave(h, lost, 0, k);
  }

  // ---- The format a file was chosen with ----

  /** What is settled about a job when it is made. */
  ghost predicate SameTerms(h: Handler, v: Handler, id: nat)
    requires id < |h.jobs|
  {
    && id < |v.jobs| && v.jobs[id].job.options == h.jobs[id].job.options
    && v.jobs[id].card == h.jobs[id].card && v.jobs[id].reader == h.jobs[id].reader
  }

  lemma AdvanceTerms(h: Handler, k: nat, job: S.Job, level: string, id: nat)
    requires k < |h.jobs| && id < |h.jobs| && job.options == h.jobs[k].job.options
    ensures SameTerms(h, Advance(h, k, job, level), id)
  {
  }

  lemma CertsTerms(h: Handler, k: nat, ok: bool, certs: seq<S.Certificate>, id: nat)
    requires id < |h.jobs|
    ensures SameTerms(h, CertsArrive(h, k, ok, certs), id)
  {
  }

  lemma {:induction false} EndJobsTerms(h: Handler, lost: nat, k: nat, id: nat)
    requires id < |h.jobs|
    ensures SameTerms(h, EndJobs(h, lost, k), id)
    decreases |h.jobs| - k
  {
    if k < |h.jobs| {
      if h.jobs[k].job.card == Some(lost) && !h.jobs[k].job.emitted {
        var job := S.CardRemoved(h.jobs[k].job);
        AdvanceTerms(h, k, job, "", id);
        EndJobsTerms(Advance(h, k, job, ""), lost, k + 1, id);
      } else {
        EndJobsTerms(h, lost, k + 1, id);
      }
    }
  }

  lemma StartTerms(h: Handler, pki: bool, options: Option<nat>, id: nat)
    requires id < |h.jobs|
    ensures SameTerms(h, SignFile(h, pki, options), id)
  {
  }

  lemma StepTerms(h: Handler, e: Event, id: nat)
    requires id < |h.jobs|
    ensures SameTerms(h, Step(h, e), id)
  {
    match e
    case FileChosen(pki, options) => StartTerms(h, pki, options, id);
    case Certs(k, ok, certs) => CertsTerms(h, k, ok, certs, id);
    case Turn(k, readable) =>
      if Running(h, k) {
        AdvanceTerms(h, k, S.BeginSign(h.jobs[k].job, readable), "", id);
      }
    case Signature(k, ok, artifact, written, level) =>
      if Running(h, k) {
        AdvanceTerms(h, k, S.SignFinished(h.jobs[k].job, ok, artifact, written), level, id);
      }
    case CardPulled(lost, _, _, _) => EndJobsTerms(h, lost, 0, id);
    case _ =>
  }

  lemma {:induction false} RunTerms(h: Handler, events: seq<Event>, id: nat)
    requires id < |h.jobs|
    ensures SameTerms(h, Run(h, events), id)
    decreases |events|
  {
    if events != [] {
      StepTerms(h, events[0], id);
      RunTerms(Step(h, events[0]), events[1..], id);
    }
  }

  /** Whatever happens after a file was chosen, its job signs in the format that was resolved for it, and on the card
      that was bound when it was chosen. */
  lemma SignsAsChosen(h: Handler, card: nat, o: nat, events: seq<Event>)
    requires Inv(h) && h.card == Some(card) && EntryAt(h.states, h.readerName).job.None?
    ensures var v := Run(Step(h, FileChosen(true, Some(o))), events);
            && |h.jobs| < |v.jobs|
            && forall c <- v.jobs[|h.jobs|].job.calls :: c.card == card && (c.Sign? ==> c.options == o)
  {
    var started, id := Step(h, FileChosen(true, Some(o))), |h.jobs|;
    StepInv(h, FileChosen(true, Some(o)));
    RunTerms(started, events, id);
    RunInv(started, events);
    CallsOnTerms(Run(started, events).jobs[id]);
  }

  lemma CallsOnTerms(l: Launch)
    requires JobOk(l.job, l.card) && l.card.Some?
    ensures forall c <- l.job.calls :: c.card == l.card.value && (c.Sign? ==> c.options == l.job.options)
  {
  }

  // ---- The object ----

  /** The handler's sign members, as its methods update them. */
  class SignStore {
    var readerName: string
    var card: Option<nat>
    var signStates: map<string, Entry>
    var published: Surfaces
    var jobs: seq<Launch>

    function View(): Handler
      reads this
    {
      Handler(readerName, card, signStates, published, jobs)
    }

    constructor ()
      ensures View() == INITIAL
    {
      readerName, card, signStates, published, jobs := "", None, map[], Shown(NO_ENTRY), [];
    }

    method PublishSignSurfaces()
      modifies this
      ensures View() == Publish(old(View()))
    {
      var now := Computed(View());
      if now.busy != published.busy {
        published := published.(busy := now.busy);
      }
      if now.phase != published.phase {
        published := published.(phase := now.phase);
      }
      if now.result != published.result {
        published := published.(result := now.result);
      }
    }

    method DismissSignResult()
      modifies this
      ensures View() == Dismiss(old(View()))
      ensures old(Inv(View())) ==> Inv(View())
    {
      ghost var was := View();
      if Inv(was) {
        DismissInv(was);
      }
      if readerName !in signStates || signStates[readerName].outcome == NoOutcome {
        return;
      }
      var e := signStates[readerName];
      signStates := signStates[readerName :=
        e.(outcome := NoOutcome, outputPath := "", certLabel := "", level := "", message := None)];
      PublishSignSurfaces();
    }

    method OnPhaseChanged(id: nat, phase: nat)
      modifies this
      ensures View() == PhaseChanges(old(View()), id, phase)
      ensures old(Inv(View())) ==> Inv(View())
    {
      ghost var was := View();
      if Inv(was) {
        PhaseInv(was, id, phase);
      }
      if id >= |jobs| {
        return;
      }
      var reader := jobs[id].reader;
      if reader !in signStates {
        return;
      }
      signStates := signStates[reader := signStates[reader].(phase := phase)];
      PublishSignSurfaces();
    }

    method OnSucceeded(reader: string, outputPath: string, level: string)
      modifies this
      ensures View() == Dispatch(old(View()), reader, S.Succeeded(outputPath), level)
    {
      var done := EntryAt(signStates, reader);
      signStates := signStates[reader := done.(job := None, outcome := SignSucceeded, outputPath := outputPath,
                                               level := level, message := None)];
      PublishSignSurfaces();
    }

    method OnFailed(reader: string, reason: S.Failure, level: string)
      modifies this
      ensures View() == Dispatch(old(View()), reader, S.Failed(reason), level)
    {
      var done := EntryAt(signStates, reader);
      signStates := signStates[reader := done.(job := None, outcome := SignFailed, outputPath := "", level := "",
                                               message := Some(reason))];
      PublishSignSurfaces();
    }

    /** Run the slot of whatever signal the job's step sent. */
    method AdvanceJob(id: nat, job: S.Job, level: string)
      requires id < |jobs|
      modifies this
      ensures View() == Advance(old(View()), id, job, level)
    {
      var l := jobs[id];
      jobs := jobs[id := l.(job := job)];
      if |job.signals| > |l.job.signals| {
        match job.signals[|job.signals| - 1]
        case Succeeded(path) => OnSucceeded(l.reader, path, level);
        case Failed(reason) => OnFailed(l.reader, reason, level);
      }
    }

    method ChooseFile(pki: bool, options: Option<nat>)
      modifies this
      ensures View() == SignFile(old(View()), pki, options)
      ensures old(Inv(View())) ==> Inv(View())
    {
      ghost var was := View();
      if Inv(was) {
        SignFileInv(was, pki, options);
      }
      var reader := readerName;
      if EntryAt(signStates, reader).job.Some? {
        return;
      }
      var id := |jobs|;
      var job := S.New(card);
      jobs := jobs + [Launch(reader, card, job, None)];
      var entry := EntryAt(signStates, reader).(job := Some(id), card := card, phase := 0, certLabel := "",
                                                outcome := NoOutcome, outputPath := "", level := "", message := None);
      signStates := signStates[reader := entry];
      PublishSignSurfaces();
      AdvanceJob(id, S.Start(job, pki, options), "");
    }

    /** The chooser: take the first candidate and note its name in the entry, publishing nothing. */
    method PickFirstCert(id: nat, candidates: seq<S.Certificate>) returns (answer: Option<string>)
      requires id < |jobs| && candidates != []
      modifies this
      ensures answer == Some(candidates[0].id)
      ensures var reader := old(View()).jobs[id].reader;
              View() == old(View()).(
                states := old(View()).states[reader :=
                  EntryAt(old(View()).states, reader).(certLabel := CertLabel(candidates[0]))],
                jobs := old(View()).jobs[id := old(View()).jobs[id].(picked := Some(candidates[0]))])
    {
      var reader, picked := jobs[id].reader, candidates[0];
      signStates := signStates[reader := EntryAt(signStates, reader).(
        certLabel := if picked.subject == "" then picked.id else picked.subject)];
      jobs := jobs[id := jobs[id].(picked := Some(picked))];
      return Some(picked.id);
    }

    /** The job's certificates arrive; among several that can sign the chooser is asked. */
    method OnCertificates(id: nat, ok: bool, certs: seq<S.Certificate>)
      modifies this
      ensures View() == CertsArrive(old(View()), id, ok, certs)
      ensures old(Inv(View())) ==> Inv(View())
    {
      ghost var was := View();
      if Inv(was) {
        CertsInv(was, id, ok, certs);
      }
      if id >= |jobs| || jobs[id].job.emitted || !jobs[id].job.certOp {
        return;
      }
      var job, answer := jobs[id].job, None;
      var capable := S.Capable(certs);
      if ok && |capable| > 1 {
        answer := PickFirstCert(id, capable);
      }
      AdvanceJob(id, S.CertificatesFinished(job, ok, certs, answer), "");
    }

    method OnTurn(id: nat, readable: bool)
      modifies this
      ensures View() == JobTurn(old(View()), id, readable)
      ensures old(Inv(View())) ==> Inv(View())
    {
      ghost var was := View();
      if Inv(was) {
        TurnInv(was, id, readable);
      }
      if id >= |jobs| || jobs[id].job.emitted {
        return;
      }
      AdvanceJob(id, S.BeginSign(jobs[id].job, readable), "");
    }

    method OnSignature(id: nat, ok: bool, artifact: bool, written: Option<string>, level: string)
      modifies this
      ensures View() == SignatureArrives(old(View()), id, ok, artifact, written, level)
      ensures old(Inv(View())) ==> Inv(View())
    {
      ghost var was := View();
      if Inv(was) {
        SignatureInv(was, id, ok, artifact, written, level);
      }
      if id >= |jobs| || jobs[id].job.emitted {
        return;
      }
      AdvanceJob(id, S.SignFinished(jobs[id].job, ok, artifact, written), level);
    }

    /** Forget departed readers, but never one still signing. */
    method Prune(roster: seq<string>)
      modifies this
      ensures View() == old(View()).(states := Kept(old(View()).states, roster))
    {
      var before := signStates;
      var todo := signStates.Keys;
      while todo != {}
        invariant todo <= before.Keys
        invariant signStates == map r <- before | r in todo || before[r].job.Some? || r in roster :: before[r]
        invariant View() == old(View()).(states := signStates)
        decreases todo
      {
        var r :| r in todo;
        todo := todo - {r};
        if signStates[r].job.None? && r !in roster {
          signStates := signStates - {r};
        }
      }
    }

    method Display(reader: string, next: Option<nat>)
      modifies this
      ensures View() == old(View()).(readerName := reader, card := next)
    {
      readerName, card := reader, next;
    }

    /** The card's removal ends every job on it. */
    method EndJobsOn(lost: nat)
      modifies this
      ensures View() == EndJobs(old(View()), lost, 0)
    {
      var id := 0;
      while id < |jobs|
        invariant EndJobs(View(), lost, id) == EndJobs(old(View()), lost, 0)
        decreases |jobs| - id
      {
        if jobs[id].job.card == Some(lost) && !jobs[id].job.emitted {
          AdvanceJob(id, S.CardRemoved(jobs[id].job), "");
        }
        id := id + 1;
      }
    }

    /** The card is deleted, and every pointer to it becomes null. */
    method Drop(lost: nat)
      modifies this
      ensures View() == DropCard(old(View()), lost)
    {
      card, signStates := Forget(card, lost), Forgotten(signStates, lost);
    }

    method Lose(lost: nat)
      modifies this
      ensures View() == LoseCard(old(View()), lost)
    {
      EndJobsOn(lost);
      Drop(lost);
    }

    /** Drop the departed, then show the reader that was picked. */
    method RefreshTo(roster: seq<string>, reader: string, next: Option<nat>)
      modifies this
      ensures View() == Refresh(old(View()), roster, reader, next)
      ensures old(Inv(View())) ==> Inv(View())
    {
      ghost var was := View();
      Prune(roster);
      Display(reader, next);
      PublishSignSurfaces();
      if Inv(was) {
        RefreshInv(was, roster, reader, next);
      }
    }

    /** A card is pulled: its jobs end, it is deleted, and the handler refreshes. */
    method PullCard(lost: nat, roster: seq<string>, reader: string, next: Option<nat>)
      modifies this
      ensures View() == Step(old(View()), CardPulled(lost, roster, reader, next))
      ensures old(Inv(View())) ==> Inv(View())
    {
      ghost var was := View();
      Lose(lost);
      RefreshTo(roster, reader, next);
      if Inv(was) {
        PulledInv(was, lost, roster, reader, next);
      }
    }
  }
}
