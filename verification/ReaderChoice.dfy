/** Which reader the plasmoid shows (SmartCardHandler::pickActiveReader), and whether it says a card is being
    detected there (computeCardDetected): the two must speak of the same reader. */
module ReaderChoice {
  import opened Wrappers
  import opened ReaderNames

  /** `card` is there once the agent has published it; `hasCard` as soon as the reader reports one. */
  datatype Reader = Reader(name: string, card: Option<nat>, hasCard: bool)

  /** The first reader of this name with a published card. */
  function ByName(readers: seq<Reader>, name: string): Option<Reader> {
    if readers == [] then None
    else if readers[0].name == name && readers[0].card.Some? then Some(readers[0])
    else ByName(readers[1..], name)
  }

  predicate ListedName(readers: seq<Reader>, name: string) {
    exists r <- readers :: r.name == name
  }

  /** The first reader of the same unit with a published card. */
  function ByUnit(readers: seq<Reader>, name: string): Option<Reader> {
    if readers == [] then None
    else if SameUnit(name, readers[0].name) && readers[0].card.Some? then Some(readers[0])
    else ByUnit(readers[1..], name)
  }

  function FirstWithCard(readers: seq<Reader>): Option<Reader> {
    if readers == [] then None
    else if readers[0].card.Some? then Some(readers[0])
    else FirstWithCard(readers[1..])
  }

  /** `bound` is the widget's own reader, empty in automatic mode; `selected` a passing pick made there. */
  function Picked(readers: seq<Reader>, bound: string, selected: string): Option<Reader> {
    if bound != "" then
      var exact := ByName(readers, bound);
      if exact.Some? then exact
      else if ListedName(readers, bound) then None
      else ByUnit(readers, bound)
    else
      var pick := if selected == "" then None else ByName(readers, selected);
      if pick.Some? then pick else FirstWithCard(readers)
  }

  method PickActiveReader(readers: seq<Reader>, bound: string, selected: string) returns (r: Option<Reader>)
    ensures r == Picked(readers, bound, selected)
  {
    if bound != "" {
      r := FindByName(readers, bound);
      if r.Some? {
        return;
      }
      for i := 0 to |readers|
        invariant forall k :: 0 <= k < i ==> readers[k].name != bound
      {
        if readers[i].name == bound {
          assert readers[i] in readers;
          return None;
        }
      }
      for i := 0 to |readers|
        invariant ByUnit(readers, bound) == ByUnit(readers[i..], bound)
      {
        if SameUnit(bound, readers[i].name) && readers[i].card.Some? {
          return Some(readers[i]);
        }
      }
      return None;
    }
    if selected != "" {
      r := FindByName(readers, selected);
      if r.Some? {
        return;
      }
    }
    for i := 0 to |readers|
      invariant FirstWithCard(readers) == FirstWithCard(readers[i..])
    {
      if readers[i].card.Some? {
        return Some(readers[i]);
      }
    }
    return None;
  }

  method FindByName(readers: seq<Reader>, name: string) returns (r: Option<Reader>)
    ensures r == ByName(readers, name)
  {
    for i := 0 to |readers|
      invariant ByName(readers, name) == ByName(readers[i..], name)
    {
      if readers[i].name == name && readers[i].card.Some? {
        return Some(readers[i]);
      }
    }
    return None;
  }

  /** The first reader of the bound name decides while that name is listed. */
  function FirstNamed(readers: seq<Reader>, name: string): Option<Reader> {
    if readers == [] then None
    else if readers[0].name == name then Some(readers[0])
    else FirstNamed(readers[1..], name)
  }

  /** Some reader of the same unit reports a card. */
  predicate UnitReports(readers: seq<Reader>, name: string) {
    readers != [] && ((SameUnit(name, readers[0].name) && readers[0].hasCard) || UnitReports(readers[1..], name))
  }

  predicate Detected(readers: seq<Reader>, bound: string) {
    if bound == "" then exists r <- readers :: r.hasCard
    else if FirstNamed(readers, bound).Some? then FirstNamed(readers, bound).value.hasCard
    else UnitReports(readers, bound)
  }

  method AnyUnitHasCard(readers: seq<Reader>, bound: string) returns (any: bool)
    ensures any <==> UnitReports(readers, bound)
  {
    for i := 0 to |readers|
      invariant UnitReports(readers, bound) <==> UnitReports(readers[i..], bound)
    {
      if SameUnit(bound, readers[i].name) && readers[i].hasCard {
        return true;
      }
    }
    return false;
  }

  method AnyHasCard(readers: seq<Reader>) returns (any: bool)
    ensures any <==> exists r <- readers :: r.hasCard
  {
    for i := 0 to |readers|
      invariant forall k :: 0 <= k < i ==> !readers[k].hasCard
    {
      if readers[i].hasCard {
        assert readers[i] in readers;
        return true;
      }
    }
    return false;
  }

  method ComputeCardDetected(readers: seq<Reader>, bound: string) returns (detected: bool)
    ensures detected <==> Detected(readers, bound)
  {
    if bound != "" {
      for i := 0 to |readers|
        invariant FirstNamed(readers, bound) == FirstNamed(readers[i..], bound)
      {
        if readers[i].name == bound {
          return readers[i].hasCard;
        }
      }
      detected := AnyUnitHasCard(readers, bound);
    } else {
      detected := AnyHasCard(readers);
    }
  }

  // ---- What is picked and what is announced ----

  /** The reader at `i` holds a card under this name. */
  predicate NamedAt(readers: seq<Reader>, name: string, i: nat) {
    i < |readers| && readers[i].name == name && readers[i].card.Some?
  }

  predicate UnitAt(readers: seq<Reader>, name: string, i: nat) {
    i < |readers| && SameUnit(name, readers[i].name) && readers[i].card.Some?
  }

  predicate HeldAt(readers: seq<Reader>, i: nat) {
    i < |readers| && readers[i].card.Some?
  }

  lemma {:induction false} ByNameAt(readers: seq<Reader>, name: string, i: nat)
    requires NamedAt(readers, name, i) && forall j: nat :: j < i ==> !NamedAt(readers, name, j)
    ensures ByName(readers, name) == Some(readers[i])
  {
    if i > 0 {
      assert !NamedAt(readers, name, 0);
      assert forall j: nat :: j < i - 1 ==> (NamedAt(readers[1..], name, j) <==> NamedAt(readers, name, j + 1));
      ByNameAt(readers[1..], name, i - 1);
    }
  }

  lemma {:induction false} ByUnitAt(readers: seq<Reader>, name: string, i: nat)
    requires UnitAt(readers, name, i) && forall j: nat :: j < i ==> !UnitAt(readers, name, j)
    ensures ByUnit(readers, name) == Some(readers[i])
  {
    if i > 0 {
      var rest := readers[1..];
      assert !UnitAt(readers, name, 0);
      assert rest[i - 1] == readers[i];
      forall j: nat | j < i - 1
        ensures !UnitAt(rest, name, j)
      {
        assert !UnitAt(readers, name, j + 1) && rest[j] == readers[j + 1];
      }
      ByUnitAt(rest, name, i - 1);
    }
  }

  lemma {:induction false} FirstHeldAt(readers: seq<Reader>, i: nat)
    requires HeldAt(readers, i) && forall j: nat :: j < i ==> !HeldAt(readers, j)
    ensures FirstWithCard(readers) == Some(readers[i])
  {
    if i > 0 {
      assert !HeldAt(readers, 0);
      assert forall j: nat :: j < i - 1 ==> (HeldAt(readers[1..], j) <==> HeldAt(readers, j + 1));
      FirstHeldAt(readers[1..], i - 1);
    }
  }

  /** A bound widget shows the first reader of its name that holds a card; only while no reader has that name, the
      first of its unit that does. */
  lemma BoundPicks(readers: seq<Reader>, bound: string, selected: string, i: nat)
    requires bound != ""
    ensures NamedAt(readers, bound, i) && (forall j: nat :: j < i ==> !NamedAt(readers, bound, j)) ==>
              Picked(readers, bound, selected) == Some(readers[i])
    ensures (forall r <- readers :: r.name != bound)
            && UnitAt(readers, bound, i) && (forall j: nat :: j < i ==> !UnitAt(readers, bound, j)) ==>
              Picked(readers, bound, selected) == Some(readers[i])
  {
    if NamedAt(readers, bound, i) && forall j: nat :: j < i ==> !NamedAt(readers, bound, j) {
      ByNameAt(readers, bound, i);
    } else if UnitAt(readers, bound, i) && forall j: nat :: j < i ==> !UnitAt(readers, bound, j) {
      ByNameNone(readers, bound);
      ByUnitAt(readers, bound, i);
    }
  }

  /** In automatic mode the passing pick is honoured while a reader of its name holds a card; else the first reader
      that holds one is shown. */
  lemma AutoPicks(readers: seq<Reader>, selected: string, i: nat)
    ensures selected != ""
            && NamedAt(readers, selected, i) && (forall j: nat :: j < i ==> !NamedAt(readers, selected, j)) ==>
              Picked(readers, "", selected) == Some(readers[i])
    ensures (selected == "" || forall j: nat :: !NamedAt(readers, selected, j))
            && HeldAt(readers, i) && (forall j: nat :: j < i ==> !HeldAt(readers, j)) ==>
              Picked(readers, "", selected) == Some(readers[i])
  {
    if selected != "" && NamedAt(readers, selected, i) && forall j: nat :: j < i ==> !NamedAt(readers, selected, j) {
      ByNameAt(readers, selected, i);
    }
    if (selected == "" || forall j: nat :: !NamedAt(readers, selected, j))
       && HeldAt(readers, i) && forall j: nat :: j < i ==> !HeldAt(readers, j) {
      forall r <- readers | r.name == selected
        ensures selected != "" ==> r.card.None?
      {
        var k: nat :| k < |readers| && readers[k] == r;
        assert selected != "" ==> !NamedAt(readers, selected, k);
      }
      ByNameNone(readers, selected);
      FirstHeldAt(readers, i);
    }
  }

  /** Nothing is shown exactly when no reader that may be shown holds a card. */
  lemma NothingPicked(readers: seq<Reader>, bound: string, selected: string)
    ensures Picked(readers, bound, selected).None? <==>
              forall r <- readers :: r.card.Some? ==>
                bound != "" && r.name != bound
                && ((exists x <- readers :: x.name == bound) || !SameUnit(bound, r.name))
  {
    ByNameNone(readers, bound);
    ByUnitNone(readers, bound);
    ByNameNone(readers, selected);
    FirstWithCardNone(readers);
  }

  lemma {:induction false} FirstNamedAt(readers: seq<Reader>, name: string, i: nat)
    requires i < |readers| && readers[i].name == name && forall j :: 0 <= j < i ==> readers[j].name != name
    ensures FirstNamed(readers, name) == Some(readers[i])
  {
    if i > 0 {
      assert forall j :: 0 <= j < i - 1 ==> readers[1..][j] == readers[j + 1];
      FirstNamedAt(readers[1..], name, i - 1);
    }
  }

  /** A card is announced: in automatic mode when any reader reports one; for a bound widget when the first reader of
      its name does; only while no reader has that name, when one of its unit does. */
  lemma DetectedMeans(readers: seq<Reader>, bound: string, i: nat)
    ensures bound == "" ==> (Detected(readers, bound) <==> exists r <- readers :: r.hasCard)
    ensures bound != "" && i < |readers| && readers[i].name == bound
            && (forall j :: 0 <= j < i ==> readers[j].name != bound) ==>
              (Detected(readers, bound) <==> readers[i].hasCard)
    ensures bound != "" && (forall r <- readers :: r.name != bound) ==>
              (Detected(readers, bound) <==> exists r <- readers :: SameUnit(bound, r.name) && r.hasCard)
  {
    FirstNamedIs(readers, bound);
    UnitReportsIs(readers, bound);
    if i < |readers| && readers[i].name == bound && forall j :: 0 <= j < i ==> readers[j].name != bound {
      FirstNamedAt(readers, bound, i);
    }
  }

  // ---- The two agree ----

  /** The roster once the agent publishes card `c` in the reader at `i`. */
  function Published(readers: seq<Reader>, i: nat, c: nat): seq<Reader>
    requires i < |readers|
  {
    readers[i := readers[i].(card := Some(c))]
  }

  ghost predicate NamesDistinct(readers: seq<Reader>) {
    forall i, j :: 0 <= i < j < |readers| ==> readers[i].name != readers[j].name
  }

  /** Publishing the card of the reader at `i` would make the widget show that reader. */
  ghost predicate WouldShow(readers: seq<Reader>, bound: string, selected: string, i: nat, c: nat)
    requires i < |readers|
  {
    Picked(Published(readers, i, c), bound, selected) == Some(Published(readers, i, c)[i])
  }

  lemma {:induction false} ByNameNone(readers: seq<Reader>, name: string)
    ensures ByName(readers, name).None? <==> forall r <- readers :: r.name == name ==> r.card.None?
  {
    if readers != [] {
      ByNameNone(readers[1..], name);
    }
  }

  lemma {:induction false} ByUnitNone(readers: seq<Reader>, name: string)
    ensures ByUnit(readers, name).None? <==> forall r <- readers :: SameUnit(name, r.name) ==> r.card.None?
  {
    if readers != [] {
      ByUnitNone(readers[1..], name);
    }
  }

  lemma {:induction false} FirstWithCardNone(readers: seq<Reader>)
    ensures FirstWithCard(readers).None? <==> forall r <- readers :: r.card.None?
  {
    if readers != [] {
      FirstWithCardNone(readers[1..]);
    }
  }

  lemma {:induction false} PublishedByName(readers: seq<Reader>, name: string, i: nat, c: nat)
    requires i < |readers| && ByName(readers, name).None?
    ensures ByName(Published(readers, i, c), name) ==
              if readers[i].name == name then Some(Published(readers, i, c)[i]) else None
  {
    var after := Published(readers, i, c);
    if i == 0 {
      assert after[1..] == readers[1..];
    } else {
      assert after[1..] == Published(readers[1..], i - 1, c);
      PublishedByName(readers[1..], name, i - 1, c);
    }
  }

  lemma {:induction false} PublishedByUnit(readers: seq<Reader>, name: string, i: nat, c: nat)
    requires i < |readers| && ByUnit(readers, name).None?
    ensures ByUnit(Published(readers, i, c), name) ==
              if SameUnit(name, readers[i].name) then Some(Published(readers, i, c)[i]) else None
  {
    var after := Published(readers, i, c);
    if i == 0 {
      assert after[1..] == readers[1..];
    } else {
      assert after[1..] == Published(readers[1..], i - 1, c);
      PublishedByUnit(readers[1..], name, i - 1, c);
    }
  }

  lemma {:induction false} PublishedFirst(readers: seq<Reader>, i: nat, c: nat)
    requires i < |readers| && FirstWithCard(readers).None?
    ensures FirstWithCard(Published(readers, i, c)) == Some(Published(readers, i, c)[i])
  {
    var after := Published(readers, i, c);
    if i > 0 {
      assert after[1..] == Published(readers[1..], i - 1, c);
      PublishedFirst(readers[1..], i - 1, c);
    }
  }

  lemma PublishedNames(readers: seq<Reader>, name: string, i: nat, c: nat)
    requires i < |readers|
    ensures ListedName(Published(readers, i, c), name) <==> ListedName(readers, name)
  {
    var after := Published(readers, i, c);
    if ListedName(readers, name) {
      var k :| 0 <= k < |readers| && readers[k].name == name;
      assert after[k].name == name && after[k] in after;
    }
    if ListedName(after, name) {
      var k :| 0 <= k < |after| && after[k].name == name;
      assert readers[k].name == name && readers[k] in readers;
    }
  }

  /** With nothing shown, publishing a reader's card shows that reader exactly when the reader is one the
      widget waits for: any in automatic mode; the bound name while it is listed; else a reader of its unit. */
  lemma ShowsIff(readers: seq<Reader>, bound: string, selected: string, i: nat, c: nat)
    requires Picked(readers, bound, selected).None? && i < |readers|
    ensures WouldShow(readers, bound, selected, i, c) <==>
              bound == "" || readers[i].name == bound
              || (!ListedName(readers, bound) && SameUnit(bound, readers[i].name))
  {
    PublishedNames(readers, bound, i, c);
    if bound != "" {
      PublishedByName(readers, bound, i, c);
      if !ListedName(readers, bound) {
        assert readers[i] in readers;
        PublishedByUnit(readers, bound, i, c);
      }
    } else {
      FirstWithCardNone(readers);
      PublishedFirst(readers, i, c);
      if selected != "" {
        ByNameNone(readers, selected);
        PublishedByName(readers, selected, i, c);
      }
    }
  }

  lemma {:induction false} FirstNamedIs(readers: seq<Reader>, name: string)
    ensures FirstNamed(readers, name).Some? <==> ListedName(readers, name)
    ensures FirstNamed(readers, name).Some? ==>
              (FirstNamed(readers, name).value in readers && FirstNamed(readers, name).value.name == name)
  {
    if readers != [] {
      FirstNamedIs(readers[1..], name);
      if readers[0].name != name && ListedName(readers, name) {
        var r :| r in readers && r.name == name;
        assert r in readers[1..];
      }
    }
  }

  lemma {:induction false} UnitReportsIs(readers: seq<Reader>, name: string)
    ensures UnitReports(readers, name) <==> exists r <- readers :: SameUnit(name, r.name) && r.hasCard
  {
    if readers != [] {
      UnitReportsIs(readers[1..], name);
      if SameUnit(name, readers[0].name) && readers[0].hasCard {
        assert readers[0] in readers;
      }
    }
  }

  /** A reader reports a card, and publishing it would show that very reader. */
  ghost predicate AwaitedCard(readers: seq<Reader>, bound: string, selected: string) {
    exists i :: 0 <= i < |readers| && readers[i].hasCard && WouldShow(readers, bound, selected, i, 0)
  }

  /** What the flag promises, for any roster: a card is announced only if publishing it would show it. */
  lemma DetectedIsAwaited(readers: seq<Reader>, bound: string, selected: string)
    requires Picked(readers, bound, selected).None? && Detected(readers, bound)
    ensures AwaitedCard(readers, bound, selected)
  {
    FirstNamedIs(readers, bound);
    UnitReportsIs(readers, bound);
    var r :| r in readers && r.hasCard &&
      (bound == "" || r.name == bound || (!ListedName(readers, bound) && SameUnit(bound, r.name)));
    var i :| 0 <= i < |readers| && readers[i] == r;
    ShowsIff(readers, bound, selected, i, 0);
  }

  /** And, unless two readers share the bound name and the first of them is the empty one, every awaited card
      is announced. */
  lemma AwaitedIsDetected(readers: seq<Reader>, bound: string, selected: string)
    requires Picked(readers, bound, selected).None?
    ensures (AwaitedCard(readers, bound, selected) ==> Detected(readers, bound)) <==>
              !(bound != "" && FirstNamed(readers, bound).Some? && !FirstNamed(readers, bound).value.hasCard
                && exists r <- readers :: r.name == bound && r.hasCard)
  {
    FirstNamedIs(readers, bound);
    UnitReportsIs(readers, bound);
    if AwaitedCard(readers, bound, selected) {
      var i :| 0 <= i < |readers| && readers[i].hasCard && WouldShow(readers, bound, selected, i, 0);
      ShowsIff(readers, bound, selected, i, 0);
      assert readers[i] in readers;
    }
    if exists r <- readers :: r.name == bound && r.hasCard {
      var r :| r in readers && r.name == bound && r.hasCard;
      var i :| 0 <= i < |readers| && readers[i] == r;
      ShowsIff(readers, bound, selected, i, 0);
    }
  }

  const EMPTY_TWIN := Reader("X", None, false)
  const FULL_TWIN := Reader("X", None, true)

  /** Two readers of one name, the empty one first: the card in the second is awaited and not announced. */
  lemma TwinUnannounced()
    ensures var readers := [EMPTY_TWIN, FULL_TWIN];
            Picked(readers, "X", "").None? && AwaitedCard(readers, "X", "") && !Detected(readers, "X")
  {
    var readers := [EMPTY_TWIN, FULL_TWIN];
    assert readers[1..] == [FULL_TWIN] && [FULL_TWIN][1..] == [];
    assert readers[0].name == "X" && readers[0] in readers;
    ByNameNone(readers, "X");
    assert FirstNamed(readers, "X") == Some(EMPTY_TWIN);
    assert readers[1] == FULL_TWIN;
    ShowsIff(readers, "X", "", 1, 0);
  }

  lemma {:induction false} OnlyNamed(readers: seq<Reader>, r: Reader)
    requires NamesDistinct(readers) && r in readers
    ensures FirstNamed(readers, r.name) == Some(r)
  {
    if readers[0] != r {
      var i :| 0 <= i < |readers| && readers[i] == r;
      assert readers[1..][i - 1] == r;
      OnlyNamed(readers[1..], r);
    }
  }

  /** Readers have names of their own, so the widget says a card is being detected exactly when one is. */
  lemma DetectionAgrees(readers: seq<Reader>, bound: string, selected: string)
    requires NamesDistinct(readers) && Picked(readers, bound, selected).None?
    ensures Detected(readers, bound) <==> AwaitedCard(readers, bound, selected)
  {
    AwaitedIsDetected(readers, bound, selected);
    if Detected(readers, bound) {
      DetectedIsAwaited(readers, bound, selected);
    }
    forall r <- readers | r.name == bound && r.hasCard
      ensures FirstNamed(readers, bound) == Some(r)
    {
      OnlyNamed(readers, r);
    }
  }

  /** What the bound-mode header promises: present while the name is listed, or a reader of its unit is. */
  predicate BoundPresent(readers: seq<Reader>, bound: string) {
    bound != "" && (ListedName(readers, bound) || exists r <- readers :: SameUnit(bound, r.name))
  }

  /** A bound widget shows only its own reader, or one of the same unit once its name is gone, and then says
      its reader is present. */
  lemma BoundPickIsOwn(readers: seq<Reader>, bound: string, selected: string, r: Reader)
    requires bound != "" && Picked(readers, bound, selected) == Some(r)
    ensures r in readers && r.card.Some? && BoundPresent(readers, bound)
    ensures r.name == bound || (SameUnit(bound, r.name) && !ListedName(readers, bound))
  {
    ByNameIs(readers, bound);
    ByUnitIs(readers, bound);
  }

  lemma {:induction false} ByNameIs(readers: seq<Reader>, name: string)
    ensures ByName(readers, name).Some? ==>
              var r := ByName(readers, name).value; r in readers && r.card.Some? && r.name == name
  {
    if readers != [] {
      ByNameIs(readers[1..], name);
    }
  }

  lemma {:induction false} ByUnitIs(readers: seq<Reader>, name: string)
    ensures ByUnit(readers, name).Some? ==>
              var r := ByUnit(readers, name).value; r in readers && r.card.Some? && SameUnit(name, r.name)
  {
    if readers != [] {
      ByUnitIs(readers[1..], name);
    }
  }
}
