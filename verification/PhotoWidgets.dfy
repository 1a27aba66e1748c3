/** All plasmoids of the shell live in one process and store their photos in one place. Here they run interleaved,
    and each is seen to behave as it would alone. */
module PhotoWidgets {
  import opened Wrappers
  import opened PhotoSlots
  import opened CardReads

  /** The widgets, each with the store it saw last, and the store as it is. */
  datatype Shell = Shell(store: map<nat, Picture>, widgets: seq<Handler>)

  /** Something happens to one widget. */
  datatype Move = Move(widget: nat, event: Event)

  function ViewOf(s: Shell, i: nat): Handler
    requires i < |s.widgets|
  {
    s.widgets[i].(store := s.store)
  }

  function Perform(s: Shell, m: Move): Shell {
    if m.widget >= |s.widgets| then s
    else
      var v := Step(ViewOf(s, m.widget), m.event);
      Shell(v.store, s.widgets[m.widget := v])
  }

  function RunShell(s: Shell, moves: seq<Move>): Shell
    decreases |moves|
  {
    if moves == [] then s else RunShell(Perform(s, moves[0]), moves[1..])
  }

  /** Slots are handed out once, and each widget is in order. */
  ghost predicate ShellInv(s: Shell) {
    && (forall i :: 0 <= i < |s.widgets| ==> Inv(ViewOf(s, i)) && s.widgets[i].slot < ULL_LIMIT)
    && (forall i, j :: 0 <= i < j < |s.widgets| ==> s.widgets[i].slot != s.widgets[j].slot)
  }

  /** Widgets that were just made, each with the slot it was handed. */
  lemma FreshShell(slots: seq<nat>)
    requires forall i :: 0 <= i < |slots| ==> slots[i] < ULL_LIMIT
    requires forall i, j :: 0 <= i < j < |slots| ==> slots[i] != slots[j]
    ensures ShellInv(Shell(map[], seq(|slots|, i requires 0 <= i < |slots| => Initial(slots[i], map[]))))
  {
    forall i | 0 <= i < |slots|
      ensures Inv(Initial(slots[i], map[]))
    {
      InitialInv(slots[i], map[]);
    }
  }

  /** What happens to a widget is its own business: the other widgets' writes are not given, they follow. */
  ghost predicate MoveAllowed(s: Shell, m: Move) {
    && m.widget < |s.widgets| && !m.event.OthersStored?
    && Allowed(ViewOf(s, m.widget), m.event)
  }

  ghost predicate MovesAllowed(s: Shell, moves: seq<Move>)
    decreases |moves|
  {
    moves == [] || (MoveAllowed(s, moves[0]) && MovesAllowed(Perform(s, moves[0]), moves[1..]))
  }

  /** A move as widget `i` sees it. */
  function SeenBy(s: Shell, i: nat, m: Move): Event {
    if m.widget == i then m.event else OthersStored(Perform(s, m).store)
  }

  function AllSeenBy(s: Shell, i: nat, moves: seq<Move>): seq<Event>
    decreases |moves|
  {
    if moves == [] then [] else [SeenBy(s, i, moves[0])] + AllSeenBy(Perform(s, moves[0]), i, moves[1..])
  }

  /** Another widget's move is, for widget `i`, a write to slots that are not its own. */
  lemma SeenAsStep(s: Shell, i: nat, m: Move)
    requires ShellInv(s) && MoveAllowed(s, m) && i < |s.widgets|
    ensures Allowed(ViewOf(s, i), SeenBy(s, i, m))
    ensures |Perform(s, m).widgets| == |s.widgets|
    ensures ViewOf(Perform(s, m), i) == Step(ViewOf(s, i), SeenBy(s, i, m))
    ensures Perform(s, m).widgets[i].slot == s.widgets[i].slot
  {
    var h := ViewOf(s, m.widget);
    PhotoFollowsIdentity(h, m.event);
    if m.widget != i {
      var slot := s.widgets[i].slot;
      assert slot != h.slot;
      assert slot in h.store <==> slot in h.store - {h.slot};
      assert slot in Perform(s, m).store <==> slot in Perform(s, m).store - {h.slot};
    }
  }

  lemma PerformInv(s: Shell, m: Move)
    requires ShellInv(s) && MoveAllowed(s, m)
    ensures ShellInv(Perform(s, m))
  {
    var v := Perform(s, m);
    forall i | 0 <= i < |s.widgets|
      ensures Inv(ViewOf(v, i)) && v.widgets[i].slot == s.widgets[i].slot
    {
      SeenAsStep(s, i, m);
      StepInv(ViewOf(s, i), SeenBy(s, i, m));
    }
  }

  /** In every interleaving, each widget runs as it would alone beside others that keep out of its slot. */
  lemma {:induction false} RunsAsAlone(s: Shell, i: nat, moves: seq<Move>)
    requires ShellInv(s) && MovesAllowed(s, moves) && i < |s.widgets|
    ensures ShellInv(RunShell(s, moves)) && |RunShell(s, moves).widgets| == |s.widgets|
    ensures AllAllowed(ViewOf(s, i), AllSeenBy(s, i, moves))
    ensures ViewOf(RunShell(s, moves), i) == Run(ViewOf(s, i), AllSeenBy(s, i, moves))
    decreases |moves|
  {
    if moves != [] {
      SeenAsStep(s, i, moves[0]);
      PerformInv(s, moves[0]);
      RunsAsAlone(Perform(s, moves[0]), i, moves[1..]);
      var events := AllSeenBy(s, i, moves);
      assert events[0] == SeenBy(s, i, moves[0]);
      assert events[1..] == AllSeenBy(Perform(s, moves[0]), i, moves[1..]);
    }
  }

  /** So in every interleaving of every widget's events, the URL a widget shows yields the last picture that widget
      read from the card it is bound to, and nothing when it read none. */
  lemma EachShowsItsOwn(s: Shell, i: nat, moves: seq<Move>)
    requires ShellInv(s) && MovesAllowed(s, moves) && i < |s.widgets|
    ensures var v := RunShell(s, moves);
            && i < |v.widgets|
            && ImageAt(v.store, v.widgets[i].photoUrl)
               == LastPicture(ViewOf(s, i), AllSeenBy(s, i, moves), s.widgets[i].photo)
            && (v.widgets[i].photoUrl != "" ==>
                  ImageAt(v.store, v.widgets[i].photoUrl).Some? && v.widgets[i].card.Some?
                  && ImageAt(v.store, v.widgets[i].photoUrl).value.from == v.widgets[i].card)
  {
    RunsAsAlone(s, i, moves);
    UrlYieldsLastPicture(ViewOf(s, i), AllSeenBy(s, i, moves));
    assert ViewOf(RunShell(s, moves), i).photoUrl == RunShell(s, moves).widgets[i].photoUrl;
  }
}
