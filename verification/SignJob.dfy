/** The signing core (shared/signing/SignJob.cpp): one document, one certificate read, one signature, and one
    answer, whatever the card does in between. */
module SignJob {
  import opened Wrappers

  datatype Certificate = Certificate(id: string, subject: string, signingCapable: bool)

  /** Why a job failed, by the branch that said so; the sentences are localization. */
  datatype Failure =
    | NoCard | NotSigningCard | UnknownFormat | CertificateReadFailed | NoSigningCertificate | ChoiceDeclined
    | CardGone | InputUnreadable | SignFailed | NoArtifact | NotWritten

  datatype Signal = Succeeded(path: string) | Failed(reason: Failure)

  /** An operation asked of the agent, and the card it was asked of. */
  datatype Call = ReadCertificates(card: nat) | Sign(card: nat, certId: string, options: nat)

  /** The job's fields, with the `beginSign` call it may have queued on the event loop, the calls it has made
      and the signals it has sent, the certificates it read and what its chooser answered when it was asked. A
      `card` that is present is alive. */
  datatype Job = Job(
    card: Option<nat>,
    options: nat,
    certOp: bool,
    queued: Option<string>,
    signOp: bool,
    emitted: bool,
    outputPath: string,
    calls: seq<Call>,
    signals: seq<Signal>,
    read: seq<Certificate>,
    answer: Option<string>)

  function New(card: Option<nat>): Job {
    Job(card, 0, false, None, false, false, "", [], [], [], None)
  }

  function Fail(j: Job, reason: Failure): Job {
    if j.emitted then j else j.(emitted := true, signals := j.signals + [Failed(reason)])
  }

  /** `start`: `pki` is the card's capability, `options` what the format resolved to, if anything. */
  function Start(j: Job, pki: bool, options: Option<nat>): Job {
    if j.card.None? then Fail(j, NoCard)
    else if !pki then Fail(j, NotSigningCard)
    else if options.None? then Fail(j, UnknownFormat)
    else j.(options := options.value, certOp := true, calls := j.calls + [ReadCertificates(j.card.value)])
  }

  function Capable(certs: seq<Certificate>): seq<Certificate> {
    if certs == [] then []
    else (if certs[0].signingCapable then [certs[0]] else []) + Capable(certs[1..])
  }

  /** The certificate to sign with: a lone one unasked, else the chooser's answer (none when it declined or
      there is no chooser). */
  function Chosen(signing: seq<Certificate>, answer: Option<string>): Option<string> {
    if |signing| == 1 then Some(signing[0].id) else answer
  }

  function CertificatesFinished(j: Job, ok: bool, certs: seq<Certificate>, answer: Option<string>): Job {
    if !j.certOp then j
    else
      var signing := Capable(certs);
      var k := j.(certOp := false, read := if ok then certs else [],
                  answer := if ok && |signing| > 1 then answer else None);
      if !ok then Fail(k, CertificateReadFailed)
      else if signing == [] then Fail(k, NoSigningCertificate)
      else match Chosen(signing, answer)
        case None => Fail(k, ChoiceDeclined)
        case Some(id) => k.(queued := Some(id))
  }

  /** The queued `beginSign`, on a later turn of the event loop. */
  function BeginSign(j: Job, readable: bool): Job {
    if j.queued.None? then j
    else
      var k := j.(queued := None);
      if k.card.None? then Fail(k, CardGone)
      else if !readable then Fail(k, InputUnreadable)
      else k.(signOp := true, calls := k.calls + [Sign(k.card.value, j.queued.value, k.options)])
  }

  function SignFinished(j: Job, ok: bool, artifact: bool, written: Option<string>): Job {
    if !j.signOp then j
    else
      var k := j.(signOp := false);
      if !ok then Fail(k, SignFailed)
      else if !artifact then Fail(k, NoArtifact)
      else if written.None? then Fail(k, NotWritten)
      else
        var done := k.(outputPath := written.value);
        if done.emitted then done else done.(emitted := true, signals := done.signals + [Succeeded(written.value)])
  }

  /** The card is pulled: what runs on it is ended without success, then its pointer becomes null. */
  function CardRemoved(j: Job): Job {
    SignFinished(CertificatesFinished(j, false, [], None), false, false, None).(card := None)
  }

  /** A certificate chooser may run an event loop of its own, in which the card can go before it answers. */
  datatype Event =
    | CertsDone(ok: bool, certs: seq<Certificate>, answer: Option<string>, removedMeanwhile: bool)
    | QueueTurn(readable: bool)
    | SignDone(ok: bool, artifact: bool, written: Option<string>)
    | Removed

  function Step(j: Job, e: Event): Job {
    match e
    case CertsDone(ok, certs, answer, gone) =>
      var k := CertificatesFinished(j, ok, certs, answer);
      if gone && j.certOp then k.(card := None) else k
    case QueueTurn(readable) => BeginSign(j, readable)
    case SignDone(ok, artifact, written) => SignFinished(j, ok, artifact, written)
    case Removed => CardRemoved(j)
  }

  function Run(j: Job, events: seq<Event>): Job
    decreases |events|
  {
    if events == [] then j else Run(Step(j, events[0]), events[1..])
  }

  // ---- What every run keeps ----

  /** How many steps of its own the job still has to take. */
  function Remaining(j: Job): nat {
    if j.certOp then 3 else if j.queued.Some? then 2 else if j.signOp then 1 else 0
  }

  predicate IsSign(c: Call) {
    c.Sign?
  }

  /** The certificate `id` is the one to sign with: the lone capable one, or the one chosen of several. */
  predicate ToSignWith(j: Job, id: string) {
    var signing := Capable(j.read);
    if |signing| == 1 then id == signing[0].id else |signing| > 1 && j.answer == Some(id)
  }

  /** A started job is at exactly one place: reading, queued, signing, or done with its one signal; and what it
      signs with follows from what it read and was answered. */
  ghost predicate Inv(j: Job, card: nat) {
    && (j.certOp ==> j.queued.None? && !j.signOp)
    && (j.queued.Some? ==> !j.signOp)
    && (j.emitted <==> Remaining(j) == 0)
    && |j.signals| == (if j.emitted then 1 else 0)
    && (j.card.Some? ==> j.card.value == card)
    && (if j.certOp || j.queued.Some? then j.calls == [ReadCertificates(card)]
        else |j.calls| <= 2 && (j.signOp ==> |j.calls| == 2))
    && (|j.calls| > 0 ==> j.calls[0] == ReadCertificates(card))
    && (|j.calls| > 1 ==> j.calls[1].Sign? && j.calls[1].card == card && j.calls[1].options == j.options)
    && (forall s <- j.signals :: s.Succeeded? ==> |j.calls| == 2 && s.path == j.outputPath)
    && (j.queued.Some? ==> ToSignWith(j, j.queued.value))
    && (|j.calls| > 1 ==> ToSignWith(j, j.calls[1].certId))
  }

  lemma StartInv(card: Option<nat>, id: nat, pki: bool, options: Option<nat>)
    requires card.Some? ==> card.value == id
    ensures Inv(Start(New(card), pki, options), id)
  {
  }

  /** `k` follows `j` without taking anything back. */
  ghost predicate Follows(j: Job, k: Job, card: nat) {
    && Inv(k, card) && Remaining(k) <= Remaining(j)
    && j.signals <= k.signals && j.calls <= k.calls && (j.card.None? ==> k.card.None?)
  }

  lemma CertificatesInv(j: Job, ok: bool, certs: seq<Certificate>, answer: Option<string>, card: nat)
    requires Inv(j, card)
    ensures Follows(j, CertificatesFinished(j, ok, certs, answer), card)
    ensures !ok ==> CertificatesFinished(j, ok, certs, answer).queued == j.queued
  {
  }

  lemma BeginSignInv(j: Job, readable: bool, card: nat)
    requires Inv(j, card)
    ensures Follows(j, BeginSign(j, readable), card)
  {
  }

  lemma SignFinishedInv(j: Job, ok: bool, artifact: bool, written: Option<string>, card: nat)
    requires Inv(j, card)
    ensures Follows(j, SignFinished(j, ok, artifact, written), card)
  {
  }

  lemma WithoutCard(j: Job, card: nat)
    requires Inv(j, card)
    ensures Inv(j.(card := None), card)
  {
  }

  lemma RemovedInv(j: Job, card: nat)
    requires Inv(j, card)
    ensures Follows(j, CardRemoved(j), card)
  {
    var k := CertificatesFinished(j, false, [], None);
    CertificatesInv(j, false, [], None, card);
    SignFinishedInv(k, false, false, None, card);
    WithoutCard(SignFinished(k, false, false, None), card);
  }

  lemma StepInv(j: Job, e: Event, card: nat)
    requires Inv(j, card)
    ensures Inv(Step(j, e), card)
    ensures Remaining(Step(j, e)) <= Remaining(j)
    ensures j.signals <= Step(j, e).signals && j.calls <= Step(j, e).calls
    ensures j.card.None? ==> Step(j, e).card.None?
  {
    match e
    case CertsDone(ok, certs, answer, gone) =>
      CertificatesInv(j, ok, certs, answer, card);
      WithoutCard(CertificatesFinished(j, ok, certs, answer), card);
    case QueueTurn(readable) => BeginSignInv(j, readable, card);
    case SignDone(ok, artifact, written) => SignFinishedInv(j, ok, artifact, written, card);
    case Removed => RemovedInv(j, card);
  }

  /** A signature is asked of a card only in a step that finds that card alive, for the certificate that was
      queued; once the card is gone none is asked for. */
  lemma SignsOnlyLiveCard(j: Job, e: Event, card: nat)
    requires Inv(j, card)
    ensures Step(j, e).calls != j.calls ==>
              j.card == Some(card) && e.QueueTurn? && j.queued.Some?
              && Step(j, e).calls == j.calls + [Sign(card, j.queued.value, j.options)]
  {
  }

  lemma {:induction false} RunInv(j: Job, events: seq<Event>, card: nat)
    requires Inv(j, card)
    ensures Inv(Run(j, events), card) && j.signals <= Run(j, events).signals
    decreases |events|
  {
    if events != [] {
      StepInv(j, events[0], card);
      RunInv(Step(j, events[0]), events[1..], card);
    }
  }

  /** Never more than one answer, and none taken back: over any events, in any order, at any times. */
  lemma OneSignal(card: Option<nat>, pki: bool, options: Option<nat>, events: seq<Event>)
    ensures var j := Run(Start(New(card), pki, options), events);
            |j.signals| == (if Remaining(j) == 0 then 1 else 0)
  {
    var id := if card.Some? then card.value else 0;
    StartInv(card, id, pki, options);
    RunInv(Start(New(card), pki, options), events, id);
  }

  /** What a pulled card's job can still do is fail. */
  lemma {:induction false} DeadCardNeverSigns(j: Job, events: seq<Event>, card: nat)
    requires Inv(j, card) && j.card.None? && !j.signOp
    ensures Run(j, events).calls == j.calls && !Run(j, events).signOp
    ensures forall s <- Run(j, events).signals :: s in j.signals || s.Failed?
    decreases |events|
  {
    if events != [] {
      StepInv(j, events[0], card);
      SignsOnlyLiveCard(j, events[0], card);
      DeadCardNeverSigns(Step(j, events[0]), events[1..], card);
    }
  }

  /** The event that moves the job on from where it stands. */
  predicate Advances(j: Job, e: Event) {
    (j.certOp && e.CertsDone?) || (j.queued.Some? && e.QueueTurn?) || (j.signOp && e.SignDone?)
  }

  /** Every such event brings the end nearer, so a job whose operations all terminate answers within three. */
  lemma ProgressStrict(j: Job, e: Event, card: nat)
    requires Inv(j, card) && Advances(j, e)
    ensures Remaining(Step(j, e)) < Remaining(j)
  {
  }

  /** How many of a run's events moved the job on. */
  function Progress(j: Job, events: seq<Event>): nat
    decreases |events|
  {
    if events == [] then 0
    else (if Advances(j, events[0]) then 1 else 0) + Progress(Step(j, events[0]), events[1..])
  }

  lemma {:induction false} AnswersWithinThree(j: Job, events: seq<Event>, card: nat)
    requires Inv(j, card)
    ensures Progress(j, events) + Remaining(Run(j, events)) <= Remaining(j)
    ensures Progress(j, events) == 3 ==> |Run(j, events).signals| == 1
    decreases |events|
  {
    RunInv(j, events, card);
    if events != [] {
      StepInv(j, events[0], card);
      if Advances(j, events[0]) {
        ProgressStrict(j, events[0], card);
      }
      AnswersWithinThree(Step(j, events[0]), events[1..], card);
    }
  }

  // ---- What is asked of the agent ----

  lemma {:induction false} OptionsKept(j: Job, events: seq<Event>)
    ensures Run(j, events).options == j.options
    decreases |events|
  {
    if events != [] {
      StepOptions(j, events[0]);
      OptionsKept(Step(j, events[0]), events[1..]);
    }
  }

  lemma StepOptions(j: Job, e: Event)
    ensures Step(j, e).options == j.options
  {
  }

  /** What a start comes to: the failure of the first check that fails, or the certificate read. */
  lemma StartsOrFails(card: Option<nat>, pki: bool, options: Option<nat>)
    ensures var j := Start(New(card), pki, options);
            && (card.None? ==> j.signals == [Failed(NoCard)] && j.calls == [])
            && (card.Some? && !pki ==> j.signals == [Failed(NotSigningCard)] && j.calls == [])
            && (card.Some? && pki && options.None? ==> j.signals == [Failed(UnknownFormat)] && j.calls == [])
            && (card.Some? && pki && options.Some? ==>
                  j.signals == [] && j.calls == [ReadCertificates(card.value)] && j.certOp)
  {
  }

  /** In every run a document is signed on the card the job was made for, and in the format that was resolved for it:
      no other is substituted. */
  lemma SignsAsResolved(card: nat, pki: bool, options: Option<nat>, events: seq<Event>)
    ensures forall c <- Run(Start(New(Some(card)), pki, options), events).calls ::
              c.card == card && pki && options.Some? && (c.Sign? ==> c.options == options.value)
  {
    var j := Start(New(Some(card)), pki, options);
    StartInv(Some(card), card, pki, options);
    RunInv(j, events, card);
    OptionsKept(j, events);
    if j.emitted {
      AnsweredAsksNothing(j, events, card);
    }
  }

  lemma {:induction false} AnsweredAsksNothing(j: Job, events: seq<Event>, card: nat)
    requires Inv(j, card) && j.emitted
    ensures Run(j, events) == j.(card := Run(j, events).card)
    decreases |events|
  {
    if events != [] {
      StepInv(j, events[0], card);
      AnsweredAsksNothing(Step(j, events[0]), events[1..], card);
    }
  }

  lemma {:induction false} CapableAre(certs: seq<Certificate>)
    ensures forall c :: c in Capable(certs) <==> c in certs && c.signingCapable
  {
    if certs != [] {
      CapableAre(certs[1..]);
    }
  }

  /** Whether the certificate is one of those read, and can sign. */
  ghost predicate CanSign(j: Job, id: string) {
    exists c <- j.read :: c.signingCapable && c.id == id
  }

  lemma LoneCanSign(j: Job)
    requires |Capable(j.read)| > 0
    ensures CanSign(j, Capable(j.read)[0].id)
  {
    CapableAre(j.read);
    assert Capable(j.read)[0] in Capable(j.read);
  }

  /** The certificates delivered to the job by the run's events: those of the read it was waiting for. */
  function Delivered(j: Job, events: seq<Event>): seq<Certificate>
    decreases |events|
  {
    if events == [] then j.read
    else if j.certOp && events[0].CertsDone? then if events[0].ok then events[0].certs else []
    else if j.certOp && events[0].Removed? then []
    else Delivered(Step(j, events[0]), events[1..])
  }

  /** What the job reads is what the events deliver, once. */
  lemma {:induction false} ReadsDelivered(j: Job, events: seq<Event>, card: nat)
    requires Inv(j, card)
    ensures Run(j, events).read == Delivered(j, events)
    decreases |events|
  {
    if events != [] {
      StepInv(j, events[0], card);
      if j.certOp && (events[0].CertsDone? || events[0].Removed?) {
        ReadKept(Step(j, events[0]), events[1..], card);
      } else {
        ReadsDelivered(Step(j, events[0]), events[1..], card);
      }
    }
  }

  lemma {:induction false} ReadKept(j: Job, events: seq<Event>, card: nat)
    requires Inv(j, card) && !j.certOp
    ensures Run(j, events).read == j.read
    decreases |events|
  {
    if events != [] {
      StepInv(j, events[0], card);
      ReadKept(Step(j, events[0]), events[1..], card);
    }
  }

  /** In every run, nothing is signed with a certificate the card says cannot sign unless the chooser itself named
      it out of several that can: a lone capable certificate is the one used, and without any nothing is signed. */
  lemma SignsWithCapable(card: Option<nat>, pki: bool, options: Option<nat>, events: seq<Event>)
    ensures Run(Start(New(card), pki, options), events).read == Delivered(Start(New(card), pki, options), events)
    ensures var j := Run(Start(New(card), pki, options), events);
            forall c <- j.calls :: c.Sign? ==>
              && ToSignWith(j, c.certId)
              && (CanSign(j, c.certId) || (|Capable(j.read)| > 1 && j.answer == Some(c.certId)))
              && exists cert <- j.read :: cert.signingCapable
  {
    var id := if card.Some? then card.value else 0;
    StartInv(card, id, pki, options);
    RunInv(Start(New(card), pki, options), events, id);
    ReadsDelivered(Start(New(card), pki, options), events, id);
    SignerCanSign(Run(Start(New(card), pki, options), events), id);
  }

  lemma SignerCanSign(j: Job, card: nat)
    requires Inv(j, card)
    ensures forall c <- j.calls :: c.Sign? ==>
              && ToSignWith(j, c.certId)
              && (CanSign(j, c.certId) || (|Capable(j.read)| > 1 && j.answer == Some(c.certId)))
              && exists cert <- j.read :: cert.signingCapable
  {
    if |Capable(j.read)| > 0 {
      LoneCanSign(j);
    }
    forall c <- j.calls | c.Sign?
      ensures c == j.calls[1]
    {
    }
  }

  // ---- A whole job ----

  /** The first certificate of the list that can sign is the one at `i`. */
  ghost predicate FirstCapable(certs: seq<Certificate>, i: nat) {
    i < |certs| && certs[i].signingCapable && forall j :: 0 <= j < i ==> !certs[j].signingCapable
  }

  /** And another one that can comes after it. */
  ghost predicate AnotherCapable(certs: seq<Certificate>, i: nat) {
    exists j :: i < j < |certs| && certs[j].signingCapable
  }

  lemma CapableHead(certs: seq<Certificate>)
    requires FirstCapable(certs, 0)
    ensures |Capable(certs)| > 0 && Capable(certs)[0] == certs[0]
    ensures |Capable(certs)| > 1 <==> AnotherCapable(certs, 0)
  {
    var rest := certs[1..];
    CapableAre(rest);
    if |Capable(rest)| > 0 {
      assert Capable(rest)[0] in Capable(rest);
      var j :| 0 <= j < |rest| && rest[j] == Capable(rest)[0];
      assert certs[j + 1].signingCapable;
    }
    if AnotherCapable(certs, 0) {
      var j :| 0 < j < |certs| && certs[j].signingCapable;
      assert rest[j - 1] in rest;
    }
  }

  lemma AnotherBehind(certs: seq<Certificate>, i: nat)
    requires 0 < i < |certs|
    ensures AnotherCapable(certs[1..], i - 1) <==> AnotherCapable(certs, i)
  {
    var rest := certs[1..];
    if AnotherCapable(rest, i - 1) {
      var j :| i - 1 < j < |rest| && rest[j].signingCapable;
      assert certs[j + 1].signingCapable;
    }
    if AnotherCapable(certs, i) {
      var j :| i < j < |certs| && certs[j].signingCapable;
      assert rest[j - 1].signingCapable;
    }
  }

  lemma {:induction false} CapableFrom(certs: seq<Certificate>, i: nat)
    requires FirstCapable(certs, i)
    ensures |Capable(certs)| > 0 && Capable(certs)[0] == certs[i]
    ensures |Capable(certs)| > 1 <==> AnotherCapable(certs, i)
  {
    if i == 0 {
      CapableHead(certs);
    } else {
      assert FirstCapable(certs[1..], i - 1);
      CapableFrom(certs[1..], i - 1);
      AnotherBehind(certs, i);
    }
  }

  lemma {:induction false} NoneCapable(certs: seq<Certificate>)
    requires forall c <- certs :: !c.signingCapable
    ensures Capable(certs) == []
  {
    if certs != [] {
      NoneCapable(certs[1..]);
    }
  }

  /** The three things a started job waits for, as they come. */
  function Course(read: bool, certs: seq<Certificate>, answer: Option<string>, gone: bool, readable: bool, ok: bool,
                  artifact: bool, written: Option<string>): (course: seq<Event>)
    ensures |course| == 3
  {
    [CertsDone(read, certs, answer, gone), QueueTurn(readable), SignDone(ok, artifact, written)]
  }

  lemma RunCourse(j: Job, course: seq<Event>)
    requires |course| == 3
    ensures Run(j, course) == Step(Step(Step(j, course[0]), course[1]), course[2])
  {
    var a, b := Step(j, course[0]), Step(Step(j, course[0]), course[1]);
    assert course[1..][0] == course[1] && course[1..][1..][0] == course[2] && course[1..][1..][1..] == [];
    assert Run(a, course[1..]) == Run(b, course[1..][1..]) == Run(Step(b, course[2]), []);
  }

  /** A started job from end to end, on a card with a certificate that can sign: what it asks the agent for, and the
      one answer it gives, for every way its three waits can go. A lone capable certificate is used unasked; of
      several it is the chooser's. */
  lemma WholeJob(card: nat, o: nat, read: bool, certs: seq<Certificate>, i: nat, answer: Option<string>, gone: bool,
                 readable: bool, ok: bool, artifact: bool, written: Option<string>)
    requires FirstCapable(certs, i)
    ensures var id := if AnotherCapable(certs, i) then answer else Some(certs[i].id);
            var j := Run(Start(New(Some(card)), true, Some(o)),
                         Course(read, certs, answer, gone, readable, ok, artifact, written));
            && j.signals == [
                 if !read then Failed(CertificateReadFailed)
                 else if id.None? then Failed(ChoiceDeclined)
                 else if gone then Failed(CardGone)
                 else if !readable then Failed(InputUnreadable)
                 else if !ok then Failed(SignFailed)
                 else if !artifact then Failed(NoArtifact)
                 else if written.None? then Failed(NotWritten)
                 else Succeeded(written.value)]
            && j.calls == [ReadCertificates(card)]
                 + (if read && id.Some? && !gone && readable then [Sign(card, id.value, o)] else [])
            && (j.signals[0].Succeeded? ==> j.outputPath == written.value)
  {
    CapableFrom(certs, i);
    var course := Course(read, certs, answer, gone, readable, ok, artifact, written);
    RunCourse(Start(New(Some(card)), true, Some(o)), course);
  }

  /** And on a card without one: the certificates are read, and nothing is signed. */
  lemma NothingToSignWith(card: nat, o: nat, read: bool, certs: seq<Certificate>, answer: Option<string>, gone: bool,
                          readable: bool, ok: bool, artifact: bool, written: Option<string>)
    requires forall c <- certs :: !c.signingCapable
    ensures var j := Run(Start(New(Some(card)), true, Some(o)),
                         Course(read, certs, answer, gone, readable, ok, artifact, written));
            && j.signals == [Failed(if read then NoSigningCertificate else CertificateReadFailed)]
            && j.calls == [ReadCertificates(card)]
  {
    NoneCapable(certs);
    RunCourse(Start(New(Some(card)), true, Some(o)),
              Course(read, certs, answer, gone, readable, ok, artifact, written));
  }

  // ---- The object ----

  /** The job as the source writes it, over its private fields. */
  class SigningJob {
    var card: Option<nat>
    var options: nat
    var certOp: bool
    var queued: Option<string>
    var signOp: bool
    var emitted: bool
    var outputPath: string
    var calls: seq<Call>
    var signals: seq<Signal>
    var read: seq<Certificate>
    var answered: Option<string>

    function View(): Job
      reads this
    {
      Job(card, options, certOp, queued, signOp, emitted, outputPath, calls, signals, read, answered)
    }

    constructor (onCard: Option<nat>)
      ensures View() == New(onCard)
    {
      card, options, certOp, queued, signOp := onCard, 0, false, None, false;
      emitted, outputPath, calls, signals, read, answered := false, "", [], [], [], None;
    }

    method EmitFailed(reason: Failure)
      modifies this
      ensures View() == Fail(old(View()), reason)
    {
      if emitted {
        return;
      }
      emitted := true;
      signals := signals + [Failed(reason)];
    }

    method Begin(pki: bool, resolved: Option<nat>)
      modifies this
      ensures View() == Start(old(View()), pki, resolved)
      ensures old(View()) == New(old(card)) && old(card).Some? ==> Inv(View(), old(card).value)
    {
      if card.None? {
        EmitFailed(NoCard);
        return;
      }
      if !pki {
        EmitFailed(NotSigningCard);
        return;
      }
      if resolved.None? {
        EmitFailed(UnknownFormat);
        return;
      }
      options := resolved.value;
      calls := calls + [ReadCertificates(card.value)];
      certOp := true;
    }

    /** The filter over the certificates read. */
    method SigningCertificates(certs: seq<Certificate>) returns (signing: seq<Certificate>)
      ensures signing == Capable(certs)
    {
      signing := [];
      for i := 0 to |certs|
        invariant signing + Capable(certs[i..]) == Capable(certs)
      {
        assert certs[i..][1..] == certs[i + 1..];
        if certs[i].signingCapable {
          signing := signing + [certs[i]];
        }
      }
    }

    method OnCertificatesFinished(ok: bool, certs: seq<Certificate>, answer: Option<string>)
      modifies this
      ensures View() == CertificatesFinished(old(View()), ok, certs, answer)
      ensures forall on: nat :: old(Inv(View(), on)) ==> Inv(View(), on)
    {
      if !certOp {
        return;
      }
      ghost var was := View();
      forall on: nat | Inv(was, on)
        ensures Inv(CertificatesFinished(was, ok, certs, answer), on)
      {
        StepInv(was, CertsDone(ok, certs, answer, false), on);
      }
      certOp := false;
      read := if ok then certs else [];
      answered := if ok && |Capable(certs)| > 1 then answer else None;
      if !ok {
        EmitFailed(CertificateReadFailed);
        return;
      }
      var signing := SigningCertificates(certs);
      if signing == [] {
        EmitFailed(NoSigningCertificate);
        return;
      }
      var certId: string;
      if |signing| == 1 {
        certId := signing[0].id;
      } else {
        if answer.None? {
          EmitFailed(ChoiceDeclined);
          return;
        }
        certId := answer.value;
      }
      queued := Some(certId);
    }

    method OnQueueTurn(readable: bool)
      modifies this
      ensures View() == BeginSign(old(View()), readable)
      ensures forall on: nat :: old(Inv(View(), on)) ==> Inv(View(), on)
    {
      ghost var was := View();
      forall on: nat | Inv(was, on)
        ensures Inv(BeginSign(was, readable), on)
      {
        StepInv(was, QueueTurn(readable), on);
      }
      if queued.None? {
        return;
      }
      var certId := queued.value;
      queued := None;
      if card.None? {
        EmitFailed(CardGone);
        return;
      }
      if !readable {
        EmitFailed(InputUnreadable);
        return;
      }
      calls := calls + [Sign(card.value, certId, options)];
      signOp := true;
    }

    method OnSignFinished(ok: bool, artifact: bool, written: Option<string>)
      modifies this
      ensures View() == SignFinished(old(View()), ok, artifact, written)
      ensures forall on: nat :: old(Inv(View(), on)) ==> Inv(View(), on)
    {
      ghost var was := View();
      forall on: nat | Inv(was, on)
        ensures Inv(SignFinished(was, ok, artifact, written), on)
      {
        StepInv(was, SignDone(ok, artifact, written), on);
      }
      if !signOp {
        return;
      }
      signOp := false;
      if !ok {
        EmitFailed(SignFailed);
        return;
      }
      if !artifact {
        EmitFailed(NoArtifact);
        return;
      }
      if written.None? {
        EmitFailed(NotWritten);
        return;
      }
      outputPath := written.value;
      if emitted {
        return;
      }
      emitted := true;
      signals := signals + [Succeeded(written.value)];
    }

    /** The card is pulled: both of the job's operations end without success, then the pointer to the card is null. */
    method OnCardRemoved()
      modifies this
      ensures View() == CardRemoved(old(View()))
      ensures forall on: nat :: old(Inv(View(), on)) ==> Inv(View(), on)
    {
      ghost var was := View();
      forall on: nat | Inv(was, on)
        ensures Inv(CardRemoved(was), on)
      {
        StepInv(was, Removed, on);
      }
      OnCertificatesFinished(false, [], None);
      OnSignFinished(false, false, None);
      card := None;
    }
  }
}
