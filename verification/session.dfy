/**
 A play session: the user's gestures as a sequence of events applied one at a
 time from the freshly mounted game. Every state reached this way keeps the
 board/pool partition.
 */
module Session {
  import opened Optional
  import opened Dataset
  import opened Boards
  import opened Game

  /** A gesture: a pick-up, a drop on a slot or on the pool, or a button press. */
  datatype Event =
    | PickUp(image: Card, from: Option<Slot>)
    | DropSlot(target: Slot)
    | DropPool
    | Check
    | ResetGame

  /**
   Applies one event. A pick-up of a card the interface does not show at the
   given place cannot happen and yields `None`; every other event applies.
   */
  function Step(s: State, e: Event): (r: Option<State>)
    ensures r.None? <==> e.PickUp? && !LegitPickUp(s.placed, e.image, e.from)
    ensures r.Some? && !e.Check? && !e.ResetGame? ==>
              r.value.complete == s.complete && r.value.message == s.message
  {
    match e
    case PickUp(image, from) =>
      if LegitPickUp(s.placed, image, from) then Some(DragStart(s, image, from)) else None
    case DropSlot(target) => Some(DropOnBoard(s, target))
    case DropPool => Some(DropOnAvailable(s))
    case Check => Some(CheckSequence(s))
    case ResetGame => Some(Reset(s))
  }

  /** Applies the events in order, stopping at the first one that cannot happen. */
  function Run(s: State, events: seq<Event>): Option<State>
    decreases |events|
  {
    if |events| == 0 then Some(s)
    else
      match Step(s, events[0])
      case None => None
      case Some(t) => Run(t, events[1..])
  }

  /** Every event keeps the invariant. */
  lemma StepKeepsInv(s: State, e: Event)
    requires Inv(s)
    ensures Step(s, e).Some? ==> Inv(Step(s, e).value)
  {
    match e
    case PickUp(image, from) =>
      if LegitPickUp(s.placed, image, from) {
        DragStartKeepsInv(s, image, from);
      }
    case DropSlot(target) => DropOnBoardKeepsInv(s, target);
    case DropPool => DropOnAvailableKeepsInv(s);
    case Check => CheckAndResetKeepInv(s);
    case ResetGame => CheckAndResetKeepInv(s);
  }

  /** Every run from a state satisfying the invariant ends in one satisfying it. */
  lemma {:induction false} RunKeepsInv(s: State, events: seq<Event>)
    requires Inv(s)
    ensures Run(s, events).Some? ==> Inv(Run(s, events).value)
    decreases |events|
  {
    if |events| > 0 {
      StepKeepsInv(s, events[0]);
      if Step(s, events[0]).Some? {
        RunKeepsInv(Step(s, events[0]).value, events[1..]);
      }
    }
  }

  /**
   In every state a session can reach, no card is on two slots, and the pool
   and the board together hold each dataset card exactly once.
   */
  lemma ReachablePartition(events: seq<Event>)
    ensures Run(Init, events).Some? ==>
              var b := Run(Init, events).value.placed;
              && NoCardTwice(b)
              && multiset(Available(b)) + multiset(Occupants(b)) == multiset(StoryImages)
              && |Available(b)| + |Occupants(b)| == 9
  {
    InitValid();
    RunKeepsInv(Init, events);
    if Run(Init, events).Some? {
      Partition(Run(Init, events).value.placed);
    }
  }

  /** Only the check button turns a hidden result into a shown one; drops never do. */
  lemma OnlyCheckShowsResult(s: State, e: Event)
    requires !s.complete
    requires Step(s, e).Some? && Step(s, e).value.complete
    ensures e.Check?
  {
  }

  /** In a consistent state, a check reports success exactly for the solved board. */
  lemma CheckSucceedsOnlyWhenSolved(s: State)
    requires Inv(s)
    ensures Succeeded(CheckSequence(s)) <==> s.placed == SolvedBoard
  {
    SolutionIsUnique(s.placed);
  }
}
