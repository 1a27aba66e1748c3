/** Which card to sign with (shared/signing/CardSelection.cpp), asked of a registry that may be another one by
    the time the person has answered. */
module CardSelection {
  import opened Wrappers

  datatype Card = Card(id: string, readerId: string, cardType: string, pki: bool)

  datatype Reader = Reader(id: string, name: string, card: Option<Card>)

  type Registry = seq<Reader>

  datatype Choice = Choice(cardId: string, readerName: string, cardType: string)

  /** `cancelled` is for a person who was asked and declined, or could not be asked. */
  datatype Selection = Selection(card: Option<Card>, cancelled: bool)

  // ---- The registry ----

  function Candidates(reg: Registry): seq<Card> {
    if reg == [] then []
    else
      (if reg[0].card.Some? && reg[0].card.value.pki then [reg[0].card.value] else []) + Candidates(reg[1..])
  }

  function CardById(reg: Registry, id: string): Option<Card> {
    if reg == [] then None
    else if reg[0].card.Some? && reg[0].card.value.id == id then reg[0].card
    else CardById(reg[1..], id)
  }

  /** The name of the reader with this id, empty when there is none. */
  function ReaderName(reg: Registry, id: string): string {
    if reg == [] then "" else if reg[0].id == id then reg[0].name else ReaderName(reg[1..], id)
  }

  function ChoiceFor(reg: Registry, c: Card): Choice {
    Choice(c.id, ReaderName(reg, c.readerId), c.cardType)
  }

  function ChoicesFor(reg: Registry, cards: seq<Card>): (choices: seq<Choice>)
    ensures |choices| == |cards|
  {
    seq(|cards|, i requires 0 <= i < |cards| => ChoiceFor(reg, cards[i]))
  }

  /** What the chooser is shown. */
  function Offered(reg: Registry): seq<Choice> {
    ChoicesFor(reg, Candidates(reg))
  }

  function FirstChoice(choices: seq<Choice>, id: string): Option<Choice> {
    if choices == [] then None
    else if choices[0].cardId == id then Some(choices[0])
    else FirstChoice(choices[1..], id)
  }

  predicate Live(reg: Registry, c: Card) {
    exists r <- reg :: r.card == Some(c)
  }

  // ---- The rule ----

  lemma CandidatesFrom(reg: Registry, i: nat, out: seq<Card>)
    requires i < |reg|
    ensures out + Candidates(reg[i..]) ==
              (if reg[i].card.Some? && reg[i].card.value.pki then out + [reg[i].card.value] else out)
              + Candidates(reg[i + 1..])
  {
    assert reg[i..][1..] == reg[i + 1..];
  }

  method CardsWithPki(reg: Registry) returns (out: seq<Card>)
    ensures out == Candidates(reg)
  {
    out := [];
    assert reg[0..] == reg;
    for i := 0 to |reg|
      invariant out + Candidates(reg[i..]) == Candidates(reg)
    {
      CandidatesFrom(reg, i, out);
      if reg[i].card.Some? && reg[i].card.value.pki {
        out := out + [reg[i].card.value];
      }
    }
  }

  /** The answer, once the chooser has spoken, against the registry as it then stands. */
  predicate Honoured(offered: seq<Choice>, chosen: string, after: Registry, c: Card) {
    && CardById(after, chosen) == Some(c) && c.pki
    && FirstChoice(offered, chosen).Some?
    && ReaderName(after, c.readerId) == FirstChoice(offered, chosen).value.readerName
  }

  /** `chooser` is absent, or answers from what it is offered; `later` is the registry once it has answered,
      which may be anything. `asked` records whether it ran. */
  method ChooseSigningCard(
      before: Registry, chooser: Option<seq<Choice> -> Option<string>>, later: seq<Choice> -> Registry)
    returns (r: Selection, asked: bool)
    ensures asked <==> |Candidates(before)| >= 2 && chooser.Some?
    ensures |Candidates(before)| == 0 ==> r == Selection(None, false)
    ensures |Candidates(before)| == 1 ==> r == Selection(Some(Candidates(before)[0]), false)
    ensures r.cancelled <==>
              |Candidates(before)| >= 2 && (chooser.None? || chooser.value(Offered(before)).None?)
    ensures asked && chooser.value(Offered(before)).Some? ==>
              forall c :: r.card == Some(c) <==>
                Honoured(Offered(before), chooser.value(Offered(before)).value, later(Offered(before)), c)
    ensures r.cancelled ==> r.card.None?
  {
    var candidates := CardsWithPki(before);
    if |candidates| <= 1 {
      return Selection(if candidates == [] then None else Some(candidates[0]), false), false;
    }
    if chooser.None? {
      return Selection(None, true), false;
    }
    var choices: seq<Choice> := [];
    for i := 0 to |candidates|
      invariant choices == Offered(before)[..i]
    {
      var c := candidates[i];
      choices := choices + [Choice(c.id, ReaderName(before, c.readerId), c.cardType)];
    }
    assert choices == Offered(before);
    var chosen := chooser.value(choices);
    if chosen.None? {
      return Selection(None, true), true;
    }
    var after := later(choices);
    var card := CardById(after, chosen.value);
    if card.None? || !card.value.pki {
      return Selection(None, false), true;
    }
    var choice := FirstChoice(choices, chosen.value);
    if choice.None? || ReaderName(after, card.value.readerId) != choice.value.readerName {
      return Selection(None, false), true;
    }
    return Selection(card, false), true;
  }

  // ---- What the rule means ----

  lemma {:induction false} CardByIdLive(reg: Registry, id: string)
    ensures CardById(reg, id).Some? ==> Live(reg, CardById(reg, id).value) && CardById(reg, id).value.id == id
    ensures CardById(reg, id).None? ==> forall r <- reg :: r.card.Some? ==> r.card.value.id != id
  {
    if reg != [] {
      CardByIdLive(reg[1..], id);
      if !(reg[0].card.Some? && reg[0].card.value.id == id) && CardById(reg, id).Some? {
        var r :| r in reg[1..] && r.card == Some(CardById(reg, id).value);
        assert r in reg;
      }
    }
  }

  lemma {:induction false} FirstChoiceIn(choices: seq<Choice>, id: string)
    ensures FirstChoice(choices, id).Some? ==>
              FirstChoice(choices, id).value in choices && FirstChoice(choices, id).value.cardId == id
    ensures FirstChoice(choices, id).None? <==> forall c <- choices :: c.cardId != id
  {
    if choices != [] {
      FirstChoiceIn(choices[1..], id);
    }
  }

  lemma {:induction false} CandidatesAre(reg: Registry)
    ensures forall c :: c in Candidates(reg) <==> Live(reg, c) && c.pki
  {
    if reg != [] {
      CandidatesAre(reg[1..]);
      forall c
        ensures c in Candidates(reg) <==> Live(reg, c) && c.pki
      {
        if Live(reg[1..], c) {
          var r :| r in reg[1..] && r.card == Some(c);
          assert r in reg;
        }
        if Live(reg, c) && !Live(reg[1..], c) {
          var r :| r in reg && r.card == Some(c);
          assert r == reg[0];
        }
        if c in Candidates(reg) && c !in Candidates(reg[1..]) {
          assert c == reg[0].card.value && reg[0] in reg;
        }
      }
    }
  }

  /** The reader at `i` is the first of this id. */
  ghost predicate FirstNamed(reg: Registry, id: string, i: nat) {
    i < |reg| && reg[i].id == id && forall j :: 0 <= j < i ==> reg[j].id != id
  }

  /** The name a reader id stands for: that of the first reader of the id, or none when there is no such reader. */
  ghost predicate NameOf(reg: Registry, id: string, name: string) {
    || (exists i: nat :: FirstNamed(reg, id, i) && reg[i].name == name)
    || ((forall r <- reg :: r.id != id) && name == "")
  }

  lemma {:induction false} ReaderNameAt(reg: Registry, id: string, i: nat)
    requires FirstNamed(reg, id, i)
    ensures ReaderName(reg, id) == reg[i].name
  {
    if i > 0 {
      assert FirstNamed(reg[1..], id, i - 1);
      ReaderNameAt(reg[1..], id, i - 1);
    }
  }

  lemma {:induction false} ReaderNameNone(reg: Registry, id: string)
    requires forall r <- reg :: r.id != id
    ensures ReaderName(reg, id) == ""
  {
    if reg != [] {
      ReaderNameNone(reg[1..], id);
    }
  }

  lemma {:induction false} SomeFirstNamed(reg: Registry, id: string)
    ensures (forall r <- reg :: r.id != id) || exists i: nat :: FirstNamed(reg, id, i)
  {
    if reg != [] {
      if reg[0].id == id {
        assert FirstNamed(reg, id, 0);
      } else {
        SomeFirstNamed(reg[1..], id);
        if i: nat :| FirstNamed(reg[1..], id, i) {
          assert FirstNamed(reg, id, i + 1);
        }
      }
    }
  }

  lemma ReaderNameIs(reg: Registry, id: string, name: string)
    ensures NameOf(reg, id, name) <==> name == ReaderName(reg, id)
  {
    SomeFirstNamed(reg, id);
    forall i: nat | FirstNamed(reg, id, i)
      ensures ReaderName(reg, id) == reg[i].name && reg[i] in reg
    {
      ReaderNameAt(reg, id, i);
    }
    if forall r <- reg :: r.id != id {
      ReaderNameNone(reg, id);
    }
  }

  /** The reader at `i` holds a card that can sign. */
  predicate HoldsSigner(reg: Registry, i: nat) {
    i < |reg| && reg[i].card.Some? && reg[i].card.value.pki
  }

  /** The readers below `n` that hold one, in the registry's order. */
  function SignersBelow(reg: Registry, n: nat): (at: seq<nat>)
    requires n <= |reg|
    ensures forall k :: 0 <= k < |at| ==> at[k] < n && reg[at[k]].card.Some? && reg[at[k]].card.value.pki
  {
    if n == 0 then [] else SignersBelow(reg, n - 1) + if HoldsSigner(reg, n - 1) then [n - 1] else []
  }

  lemma {:induction false} SignersAre(reg: Registry, n: nat)
    requires n <= |reg|
    ensures var at := SignersBelow(reg, n);
            && (forall k, l :: 0 <= k < l < |at| ==> at[k] < at[l])
            && (forall i: nat :: i in at <==> i < n && HoldsSigner(reg, i))
  {
    if n > 0 {
      SignersAre(reg, n - 1);
    }
  }

  function CardsAt(reg: Registry, at: seq<nat>): (cards: seq<Card>)
    requires forall k :: 0 <= k < |at| ==> at[k] < |reg| && reg[at[k]].card.Some?
    ensures |cards| == |at| && forall k :: 0 <= k < |at| ==> cards[k] == reg[at[k]].card.value
  {
    seq(|at|, k requires 0 <= k < |at| => reg[at[k]].card.value)
  }

  function Signer(r: Reader): seq<Card> {
    if r.card.Some? && r.card.value.pki then [r.card.value] else []
  }

  lemma {:induction false} CandidatesAppend(reg: Registry, r: Reader)
    ensures Candidates(reg + [r]) == Candidates(reg) + Signer(r)
  {
    var all := reg + [r];
    if reg == [] {
      assert all == [r] && all[1..] == [];
    } else {
      var rest := reg[1..];
      assert all[0] == reg[0] && all[1..] == rest + [r];
      CandidatesAppend(rest, r);
      assert Candidates(reg) == Signer(reg[0]) + Candidates(rest);
      assert Signer(reg[0]) + (Candidates(rest) + Signer(r)) == Signer(reg[0]) + Candidates(rest) + Signer(r);
    }
  }

  lemma {:induction false} CandidatesAt(reg: Registry, n: nat)
    requires n <= |reg|
    ensures Candidates(reg[..n]) == CardsAt(reg, SignersBelow(reg, n))
  {
    if n > 0 {
      CandidatesAt(reg, n - 1);
      assert reg[..n] == reg[..n - 1] + [reg[n - 1]];
      CandidatesAppend(reg[..n - 1], reg[n - 1]);
    }
  }

  /** The choice at `k` is for the card in the reader at `i`: its id and type, and the name its reader goes by. */
  ghost predicate OfferedFrom(reg: Registry, k: nat, i: nat) {
    && HoldsSigner(reg, i) && k < |Offered(reg)|
    && Offered(reg)[k].cardId == reg[i].card.value.id && Offered(reg)[k].cardType == reg[i].card.value.cardType
    && NameOf(reg, reg[i].card.value.readerId, Offered(reg)[k].readerName)
  }

  /** What the chooser is shown: one choice for every reader that holds a card that can sign, in the registry's
      order. */
  lemma OfferedAre(reg: Registry)
    ensures var at := SignersBelow(reg, |reg|);
            && |Offered(reg)| == |at| == |Candidates(reg)|
            && (forall k, l :: 0 <= k < l < |at| ==> at[k] < at[l])
            && (forall i: nat :: i in at <==> HoldsSigner(reg, i))
            && forall k :: 0 <= k < |at| ==> OfferedFrom(reg, k, at[k]) && Candidates(reg)[k] == reg[at[k]].card.value
  {
    SignersAre(reg, |reg|);
    CandidatesAt(reg, |reg|);
    assert reg[..|reg|] == reg;
    var at := SignersBelow(reg, |reg|);
    forall k | 0 <= k < |at|
      ensures OfferedFrom(reg, k, at[k])
    {
      ReaderNameIs(reg, reg[at[k]].card.value.readerId, Offered(reg)[k].readerName);
    }
  }

  /** The reader at `i` is the first to hold a card of this id. */
  ghost predicate FirstHolder(reg: Registry, id: string, i: nat) {
    && i < |reg| && reg[i].card.Some? && reg[i].card.value.id == id
    && forall j :: 0 <= j < i ==> reg[j].card.None? || reg[j].card.value.id != id
  }

  /** And the first whose card of this id can sign. */
  ghost predicate FirstSigner(reg: Registry, id: string, i: nat) {
    && HoldsSigner(reg, i) && reg[i].card.value.id == id
    && forall j: nat :: j < i && HoldsSigner(reg, j) ==> reg[j].card.value.id != id
  }

  lemma {:induction false} CardByIdAt(reg: Registry, id: string)
    ensures CardById(reg, id).Some? ==> exists i: nat :: FirstHolder(reg, id, i) && reg[i].card == CardById(reg, id)
  {
    if reg != [] {
      var rest := reg[1..];
      if reg[0].card.Some? && reg[0].card.value.id == id {
        assert FirstHolder(reg, id, 0);
      } else {
        CardByIdAt(rest, id);
        if i: nat :| FirstHolder(rest, id, i) && rest[i].card == CardById(rest, id) {
          assert FirstHolder(reg, id, i + 1);
        }
      }
    }
  }

  ghost predicate FirstOffer(choices: seq<Choice>, id: string, k: nat) {
    k < |choices| && choices[k].cardId == id && forall l :: 0 <= l < k ==> choices[l].cardId != id
  }

  lemma {:induction false} FirstChoiceAt(choices: seq<Choice>, id: string)
    ensures FirstChoice(choices, id).Some? ==>
              exists k: nat :: FirstOffer(choices, id, k) && choices[k] == FirstChoice(choices, id).value
  {
    if choices != [] {
      var rest := choices[1..];
      if choices[0].cardId == id {
        assert FirstOffer(choices, id, 0);
      } else {
        FirstChoiceAt(rest, id);
        if FirstChoice(rest, id).Some? {
          var k: nat :| FirstOffer(rest, id, k) && rest[k] == FirstChoice(rest, id).value;
          assert FirstOffer(choices, id, k + 1);
        }
      }
    }
  }

  /** The first choice of an id is for the first reader whose card of that id can sign. */
  lemma FirstOfferIs(reg: Registry, id: string, k: nat)
    requires FirstOffer(Offered(reg), id, k)
    ensures exists i: nat :: FirstSigner(reg, id, i) && OfferedFrom(reg, k, i)
  {
    OfferedAre(reg);
    var at := SignersBelow(reg, |reg|);
    var i := at[k];
    forall j: nat | j < i && HoldsSigner(reg, j)
      ensures reg[j].card.value.id != id
    {
      var l: nat :| l < |at| && at[l] == j;
      assert l < k && OfferedFrom(reg, l, at[l]);
    }
    assert FirstSigner(reg, id, i) && OfferedFrom(reg, k, i);
  }

  /** A card handed back after a dialog is the one the registry now has under the picked id; it can sign; and its
      reader goes by the name that the first offered card of that id had beside it in the dialog. */
  lemma HonouredIsTheirChoice(before: Registry, chosen: string, after: Registry, c: Card)
    requires Honoured(Offered(before), chosen, after, c)
    ensures c.pki && c.id == chosen && exists i: nat :: FirstHolder(after, chosen, i) && after[i].card == Some(c)
    ensures exists k: nat, name ::
              FirstSigner(before, chosen, k) && NameOf(before, before[k].card.value.readerId, name)
              && NameOf(after, c.readerId, name)
  {
    CardByIdLive(after, chosen);
    CardByIdAt(after, chosen);
    FirstChoiceAt(Offered(before), chosen);
    var l: nat :| FirstOffer(Offered(before), chosen, l)
                  && Offered(before)[l] == FirstChoice(Offered(before), chosen).value;
    FirstOfferIs(before, chosen, l);
    var k: nat :| FirstSigner(before, chosen, k) && OfferedFrom(before, l, k);
    ReaderNameIs(after, c.readerId, Offered(before)[l].readerName);
  }

  /** A registry as the client library keeps it: readers have ids of their own, and a card knows the reader it is in. */
  ghost predicate WellFormed(reg: Registry) {
    && (forall i, j :: 0 <= i < j < |reg| ==> reg[i].id != reg[j].id)
    && forall r <- reg :: r.card.Some? ==> r.card.value.readerId == r.id
  }

  lemma OwnName(reg: Registry, i: nat, name: string)
    requires WellFormed(reg) && i < |reg| && reg[i].card.Some? && NameOf(reg, reg[i].card.value.readerId, name)
    ensures name == reg[i].name
  {
    assert reg[i] in reg;
  }

  /** So the card sits in a reader of the very name of the reader that held the card the person picked. */
  lemma HandedBackUnderThatName(before: Registry, chosen: string, after: Registry, c: Card)
    requires WellFormed(before) && WellFormed(after) && Honoured(Offered(before), chosen, after, c)
    ensures exists i: nat, k: nat ::
              FirstHolder(after, chosen, i) && after[i].card == Some(c) && FirstSigner(before, chosen, k)
              && after[i].name == before[k].name
  {
    HonouredIsTheirChoice(before, chosen, after, c);
    var i: nat :| FirstHolder(after, chosen, i) && after[i].card == Some(c);
    var k: nat, name :| FirstSigner(before, chosen, k) && NameOf(before, before[k].card.value.readerId, name)
                        && NameOf(after, c.readerId, name);
    OwnName(after, i, name);
    OwnName(before, k, name);
  }

  lemma FirstHolderIs(reg: Registry, id: string, i: nat)
    requires FirstHolder(reg, id, i)
    ensures CardById(reg, id) == reg[i].card
  {
    CardByIdLive(reg, id);
    CardByIdAt(reg, id);
    assert reg[i] in reg;
    var m: nat :| FirstHolder(reg, id, m) && reg[m].card == CardById(reg, id);
    assert m == i;
  }

  lemma FirstSignerOffered(reg: Registry, id: string, k: nat)
    requires FirstSigner(reg, id, k)
    ensures exists l: nat :: FirstOffer(Offered(reg), id, l) && OfferedFrom(reg, l, k)
              && FirstChoice(Offered(reg), id) == Some(Offered(reg)[l])
  {
    OfferedAre(reg);
    var at := SignersBelow(reg, |reg|);
    var m: nat :| m < |at| && at[m] == k;
    assert OfferedFrom(reg, m, at[m]);
    FirstChoiceIn(Offered(reg), id);
    FirstChoiceAt(Offered(reg), id);
    var l: nat :| FirstOffer(Offered(reg), id, l) && Offered(reg)[l] == FirstChoice(Offered(reg), id).value;
    assert OfferedFrom(reg, l, at[l]);
    assert l == m;
  }

  /** And with the card still there, able to sign, and under that name, it is handed back. */
  lemma StillThereIsHonoured(before: Registry, chosen: string, after: Registry, i: nat, k: nat)
    requires WellFormed(before) && WellFormed(after)
    requires FirstSigner(before, chosen, k) && FirstHolder(after, chosen, i) && after[i].card.value.pki
    requires after[i].name == before[k].name
    ensures Honoured(Offered(before), chosen, after, after[i].card.value)
  {
    FirstHolderIs(after, chosen, i);
    FirstSignerOffered(before, chosen, k);
    var l: nat :| FirstOffer(Offered(before), chosen, l) && OfferedFrom(before, l, k)
                  && FirstChoice(Offered(before), chosen) == Some(Offered(before)[l]);
    OwnName(before, k, Offered(before)[l].readerName);
    assert after[i] in after && FirstNamed(after, after[i].id, i);
    ReaderNameAt(after, after[i].id, i);
  }

  /** With ids and reader ids that name one thing each, nothing changing under the dialog means the person gets
      exactly the card they picked. */
  lemma UnchangedRegistryHonours(reg: Registry, c: Card)
    requires c in Candidates(reg)
    requires forall i, j :: 0 <= i < j < |reg| && reg[i].card.Some? && reg[j].card.Some? ==>
               reg[i].card.value.id != reg[j].card.value.id
    ensures Honoured(Offered(reg), c.id, reg, c)
  {
    CandidatesAre(reg);
    CardByIdLive(reg, c.id);
    var found := CardById(reg, c.id);
    assert found.Some?;
    UniqueId(reg, c, found.value);
    FirstChoiceIn(Offered(reg), c.id);
    var k :| 0 <= k < |Candidates(reg)| && Candidates(reg)[k] == c;
    assert Offered(reg)[k] in Offered(reg) && Offered(reg)[k].cardId == c.id;
    var choice := FirstChoice(Offered(reg), c.id).value;
    var i :| 0 <= i < |Offered(reg)| && Offered(reg)[i] == choice;
    assert Candidates(reg)[i] in Candidates(reg);
    UniqueId(reg, c, Candidates(reg)[i]);
  }

  lemma UniqueId(reg: Registry, a: Card, b: Card)
    requires Live(reg, a) && Live(reg, b) && a.id == b.id
    requires forall i, j :: 0 <= i < j < |reg| && reg[i].card.Some? && reg[j].card.Some? ==>
               reg[i].card.value.id != reg[j].card.value.id
    ensures a == b
  {
    var i :| 0 <= i < |reg| && reg[i].card == Some(a);
    var j :| 0 <= j < |reg| && reg[j].card == Some(b);
    assert !(i < j) && !(j < i);
  }
}
