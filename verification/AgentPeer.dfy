/** The agent client library as the credential window sees it: a registry of readers and cards, and the
    operations minted on those cards. The library itself is not part of this model; what is kept is what
    the window can observe or cause, plus a log that never shrinks. */
module AgentPeer {
  import opened Wrappers

  datatype Card = Card(id: nat, pinManagement: bool)

  datatype Reader = Reader(id: string, card: Option<Card>)

  datatype Registry = Registry(available: bool, readers: seq<Reader>)

  datatype PinVerb = Change | ActivatePin | Unblock

  /** What an operation asks the agent to do. */
  datatype Request =
    | ListCredentials
    | ManagePin(id: string, verb: PinVerb, activateKey: bool)
    | ActivateSigningKey

  datatype Minted = Minted(request: Request, card: nat)

  /** `log` names every operation ever minted, and an operation is its index there. `live` are those that
      have not terminated; `cancelled` those the window sent a Cancel to. `listSlots` and `mutationSlots`
      are the operations whose `finished` signal is connected to the window's two slots, and `watched` the
      cards whose `changed` signal is. */
  datatype Peer = Peer(
    registry: Registry,
    log: seq<Minted>,
    live: set<nat>,
    cancelled: set<nat>,
    listSlots: set<nat>,
    mutationSlots: set<nat>,
    watched: set<nat>)

  /** The id of the card a reader holds: the pointer `reader->card()`. */
  function HeldCard(r: Reader): Option<nat> {
    if r.card.Some? then Some(r.card.value.id) else None
  }

  function FindReader(readers: seq<Reader>, id: string): (r: Option<Reader>)
    ensures r.Some? ==> r.value in readers && r.value.id == id
  {
    if readers == [] then None
    else if readers[0].id == id then Some(readers[0])
    else FindReader(readers[1..], id)
  }

  function FirstReaderWithCard(readers: seq<Reader>): (r: Option<Reader>)
    ensures r.Some? ==> r.value in readers && r.value.card.Some?
    ensures r.None? ==> forall x <- readers :: x.card.None?
  {
    if readers == [] then None
    else if readers[0].card.Some? then Some(readers[0])
    else FirstReaderWithCard(readers[1..])
  }

  /** `Readers::firstReaderWithCard`, as the loop it is. */
  method ScanForCard(readers: seq<Reader>) returns (r: Option<Reader>)
    ensures r == FirstReaderWithCard(readers)
  {
    for i := 0 to |readers|
      invariant FirstReaderWithCard(readers) == FirstReaderWithCard(readers[i..])
    {
      if readers[i].card.Some? {
        return Some(readers[i]);
      }
    }
    return None;
  }

  /** The cards that exist: those some reader holds. */
  predicate CardLive(reg: Registry, card: nat) {
    exists r <- reg.readers :: HeldCard(r) == Some(card)
  }

  /** Whether the card advertises PIN management. */
  predicate Manageable(reg: Registry, card: nat) {
    exists r <- reg.readers :: r.card == Some(Card(card, true))
  }

  /** One card object sits in one reader. */
  ghost predicate CardsDistinct(reg: Registry) {
    forall i, j :: 0 <= i < j < |reg.readers| && reg.readers[i].card.Some? && reg.readers[j].card.Some?
      ==> reg.readers[i].card.value.id != reg.readers[j].card.value.id
  }

  /** Disconnect the operation, if any, from the window, then cancel it on the agent's side. */
  function Abandon(p: Peer, op: Option<nat>): Peer {
    if op.None? then p
    else p.(cancelled := p.cancelled + {op.value}, listSlots := p.listSlots - {op.value},
            mutationSlots := p.mutationSlots - {op.value})
  }

  /** Ask the agent to cancel the operation, if any, and keep listening. */
  function CancelOp(p: Peer, op: Option<nat>): Peer {
    if op.None? then p else p.(cancelled := p.cancelled + {op.value})
  }

  /** Move the `changed` connection from the card that was bound to the one that is. */
  function Rewatch(p: Peer, from: Option<nat>, to: Option<nat>): Peer {
    var left := if from.Some? then p.watched - {from.value} else p.watched;
    p.(watched := if to.Some? then left + {to.value} else left)
  }

  /** Mint an operation on `card`; its name is the log's length before. */
  function Mint(p: Peer, request: Request, card: nat): Peer {
    p.(log := p.log + [Minted(request, card)], live := p.live + {|p.log|})
  }

  /** Whether operation `op` was minted on a card that `reg` no longer has. */
  predicate OnLostCard(p: Peer, reg: Registry, op: nat) {
    op < |p.log| && !CardLive(reg, p.log[op].card)
  }

  /** The cards missing from `reg` are deleted, and with them the operations they own and every connection
      to either. */
  function DestroyLost(p: Peer, reg: Registry): Peer {
    p.(registry := reg,
       live := (set op <- p.live | !OnLostCard(p, reg, op)),
       listSlots := (set op <- p.listSlots | !OnLostCard(p, reg, op)),
       mutationSlots := (set op <- p.mutationSlots | !OnLostCard(p, reg, op)),
       watched := (set c <- p.watched | CardLive(reg, c)))
  }
}
