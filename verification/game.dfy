/**
 The game state and the handlers that change it: picking a card up, dropping it
 on a slot or back on the pool, checking the board, and resetting. Each handler
 is one atomic transition from a state to the next.
 */
module Game {
  import opened Optional
  import opened Dataset
  import opened Boards

  /** The result text shown after a check; `Excellent` is the success message. */
  datatype Message = Blank | Excellent | NotCorrect

  /**
   The component state: the board, the card being dragged and the slot it was
   picked up from (absent when it came from the pool), whether a check has
   happened, and the result message.
   */
  datatype State = State(
    placed: Board,
    dragged: Option<Card>,
    source: Option<Slot>,
    complete: bool,
    message: Message)

  /** The state after mounting: every slot empty, nothing held, no result. */
  const Init: State := State(EmptyBoard, None, None, false, Blank)

  /** The result panel shows the success style. */
  predicate Succeeded(s: State) {
    s.complete && s.message == Excellent
  }

  /**
   A pick-up the interface can offer: a pool card with no origin slot, or the
   card shown on slot `from`.
   */
  predicate LegitPickUp(b: Board, image: Card, from: Option<Slot>) {
    match from
    case None => image in Available(b)
    case Some(p) => At(b, p) == Some(image)
  }

  /** Picking a card up records it and its origin; the board is left as it is. */
  function DragStart(s: State, image: Card, from: Option<Slot>): (r: State)
    requires LegitPickUp(s.placed, image, from)
    ensures r.placed == s.placed
    ensures r.dragged == Some(image) && r.source == from
    ensures r.complete == s.complete && r.message == s.message
  {
    s.(dragged := Some(image), source := from)
  }

  /**
   Dropping the held card on slot `position`. The origin slot, if any, is
   cleared first; the card is then placed only if the target is empty at that
   point. Whatever happens, nothing is held afterwards.
   */
  function DropOnBoard(s: State, position: Slot): (r: State)
    ensures s.dragged.None? ==> r == s
    ensures s.dragged.Some? ==> r.dragged.None? && r.source.None?
    ensures r.complete == s.complete && r.message == s.message
    // an occupied target other than the origin keeps its card
    ensures At(s.placed, position).Some? && s.source != Some(position) ==>
              At(r.placed, position) == At(s.placed, position)
    // from the pool onto an empty slot: only the target changes
    ensures s.dragged.Some? && s.source.None? && At(s.placed, position).None? ==>
              r.placed == Put(s.placed, position, s.dragged)
    // from the pool onto an occupied slot: the board is unchanged
    ensures s.source.None? && At(s.placed, position).Some? ==> r.placed == s.placed
    // from slot S onto an empty slot T: S empties and T receives the card
    ensures s.dragged.Some? && s.source.Some? && s.source.value != position && At(s.placed, position).None? ==>
              r.placed == Put(Put(s.placed, s.source.value, None), position, s.dragged)
    // from slot S onto an occupied slot T: S still empties and T is unchanged
    ensures s.dragged.Some? && s.source.Some? && s.source.value != position && At(s.placed, position).Some? ==>
              r.placed == Put(s.placed, s.source.value, None)
    // back onto its own origin slot: the slot holds the card
    ensures s.dragged.Some? && s.source == Some(position) ==>
              r.placed == Put(s.placed, position, s.dragged)
  {
    if s.dragged.None? then s
    else s.(placed := PlaceIfEmpty(ClearOrigin(s.placed, s.source), position, s.dragged),
            dragged := None, source := None)
  }

  /** Empties the origin slot, if there is one. */
  function ClearOrigin(b: Board, source: Option<Slot>): Board {
    match source
    case None => b
    case Some(p) => Put(b, p, None)
  }

  /** Puts `card` on slot `position` unless that slot is occupied. */
  function PlaceIfEmpty(b: Board, position: Slot, card: Option<Card>): Board {
    if At(b, position).None? then Put(b, position, card) else b
  }

  /**
   Dropping the held card on the pool. Only a card picked up from a slot is
   affected: its origin slot is emptied and nothing is held afterwards. With
   a pool card or nothing held the state stays exactly as it was, including
   the held card.
   */
  function DropOnAvailable(s: State): (r: State)
    ensures s.dragged.None? || s.source.None? ==> r == s
    ensures s.dragged.Some? && s.source.Some? ==>
              && At(r.placed, s.source.value).None?
              && (forall q: Slot :: q != s.source.value ==> At(r.placed, q) == At(s.placed, q))
              && r.dragged.None? && r.source.None?
    ensures r.complete == s.complete && r.message == s.message
  {
    if s.dragged.Some? && s.source.Some? then
      s.(placed := Put(s.placed, s.source.value, None), dragged := None, source := None)
    else s
  }

  /**
   The "Check Sequence" button: at any fill level, marks the game as checked
   and reports success exactly when the board is in sequence.
   */
  function CheckSequence(s: State): (r: State)
    ensures r.complete
    ensures r.message == Excellent <==> InSequence(s.placed)
    ensures r.message == Excellent || r.message == NotCorrect
    ensures (exists p: Slot :: At(s.placed, p).None?) ==> !Succeeded(r)
    ensures r.placed == s.placed && r.dragged == s.dragged && r.source == s.source
  {
    s.(complete := true, message := if InSequence(s.placed) then Excellent else NotCorrect)
  }

  /**
   The "Reset Game" button: empties every slot, so the pool is the whole
   dataset again, and clears the result. The held card and origin are kept.
   */
  function Reset(s: State): (r: State)
    ensures forall p: Slot :: At(r.placed, p).None?
    ensures !r.complete && r.message == Blank
    ensures r.dragged == s.dragged && r.source == s.source
  {
    s.(placed := EmptyBoard, complete := false, message := Blank)
  }

  /**
   The held card is consistent with the board: nothing held means no origin;
   a held card is a dataset card that sits on no slot other than its origin,
   and its origin slot holds it or has been emptied.
   */
  predicate HeldValid(s: State) {
    match s.dragged
    case None => s.source.None?
    case Some(c) =>
      && c in StoryImages
      && (forall i :: 0 <= i < |s.placed| && s.placed[i] == Some(c) ==> s.source == Some(i + 1))
      && (s.source.Some? ==> At(s.placed, s.source.value) == None || At(s.placed, s.source.value) == Some(c))
  }

  /** The state invariant every transition keeps. */
  predicate Inv(s: State) {
    ValidBoard(s.placed) && HeldValid(s)
  }

  /** The initial state satisfies the invariant and shows no result. */
  lemma InitValid()
    ensures Inv(Init)
    ensures !Init.complete && Init.message == Blank
    ensures forall p: Slot :: At(Init.placed, p).None?
  {
  }

  /** After mounting and after a reset the pool is the whole dataset, in declaration order. */
  lemma ResetRefillsPool(s: State)
    ensures Available(Reset(s).placed) == StoryImages
    ensures Available(Init.placed) == StoryImages
  {
    NothingPlacedOnEmptyBoard(StoryImages);
  }

  /** Resetting twice is the same as resetting once. */
  lemma ResetIdempotent(s: State)
    ensures Reset(Reset(s)) == Reset(s)
  {
  }

  /** A legitimate pick-up keeps the invariant. */
  lemma DragStartKeepsInv(s: State, image: Card, from: Option<Slot>)
    requires Inv(s)
    requires LegitPickUp(s.placed, image, from)
    ensures Inv(DragStart(s, image, from))
  {
    if from.None? {
      PoolIsComplement(s.placed);
    }
  }

  /** With a card held, its origin slot is the only place on the board it can be. */
  lemma HeldOnlyAtOrigin(s: State)
    requires Inv(s)
    requires s.dragged.Some?
    ensures Some(s.dragged.value) !in ClearOrigin(s.placed, s.source)
  {
    var c := s.dragged.value;
    match s.source
    case None =>
    case Some(p) =>
      PutMembership(s.placed, p, None, c);
  }

  /** Dropping on the board keeps the invariant. */
  lemma DropOnBoardKeepsInv(s: State, position: Slot)
    requires Inv(s)
    ensures Inv(DropOnBoard(s, position))
  {
    if s.dragged.Some? {
      var cleared := ClearOrigin(s.placed, s.source);
      if s.source.Some? {
        PutKeepsValid(s.placed, s.source.value, None);
      }
      HeldOnlyAtOrigin(s);
      if At(cleared, position).None? {
        PutKeepsValid(cleared, position, s.dragged);
      }
    }
  }

  /** Dropping on the pool keeps the invariant. */
  lemma DropOnAvailableKeepsInv(s: State)
    requires Inv(s)
    ensures Inv(DropOnAvailable(s))
  {
    if s.dragged.Some? && s.source.Some? {
      PutKeepsValid(s.placed, s.source.value, None);
    }
  }

  /** Checking and resetting keep the invariant. */
  lemma CheckAndResetKeepInv(s: State)
    requires Inv(s)
    ensures Inv(CheckSequence(s))
    ensures Inv(Reset(s))
  {
  }

  /** Emptying the origin slot of the held card adds exactly that card to the pool. */
  lemma ClearingOriginFreesHeld(s: State)
    requires Inv(s)
    requires s.dragged.Some? && s.source.Some?
    ensures forall x :: x in Available(Put(s.placed, s.source.value, None)) <==>
              x in Available(s.placed) || x == s.dragged.value
  {
    var b, p, c := s.placed, s.source.value, s.dragged.value;
    PoolAfterClear(b, p);
    if At(b, p).None? {
      forall i | 0 <= i < 9
        ensures b[i] != Some(c)
      {
        if i + 1 == p {
          assert b[i] == At(b, p);
        } else {
          assert s.source != Some(i + 1);
        }
      }
      PoolIsComplement(b);
      assert c in Available(b);
    }
  }

  /**
   Dropping a board card on another, occupied slot sends it back to the pool:
   its origin empties, the target keeps its card, and the pool gains exactly
   the dropped card.
   */
  lemma DropOnOccupiedReturnsToPool(s: State, position: Slot)
    requires Inv(s)
    requires s.dragged.Some? && s.source.Some? && s.source.value != position
    requires At(s.placed, position).Some?
    ensures forall x :: x in Available(DropOnBoard(s, position).placed) <==>
              x in Available(s.placed) || x == s.dragged.value
  {
    ClearingOriginFreesHeld(s);
  }

  /** Dropping a board card on the pool returns it there: the pool gains exactly that card. */
  lemma DropOnAvailableReturnsToPool(s: State)
    requires Inv(s)
    requires s.dragged.Some? && s.source.Some?
    ensures forall x :: x in Available(DropOnAvailable(s).placed) <==>
              x in Available(s.placed) || x == s.dragged.value
  {
    ClearingOriginFreesHeld(s);
  }

  /** Placing a pool card on an empty slot takes exactly that card out of the pool. */
  lemma DropFromPoolTakesFromPool(s: State, position: Slot)
    requires Inv(s)
    requires s.dragged.Some? && s.source.None? && At(s.placed, position).None?
    ensures s.dragged.value in Available(s.placed)
    ensures forall x :: x in Available(DropOnBoard(s, position).placed) <==>
              x in Available(s.placed) && x != s.dragged.value
  {
    PoolIsComplement(s.placed);
    PoolAfterPlace(s.placed, position, s.dragged.value);
  }

  /** Picking a board card up and dropping it back on its own slot leaves the board as it was. */
  lemma DropOnOwnSlotIsHarmless(s: State, p: Slot)
    requires Inv(s)
    requires At(s.placed, p).Some?
    ensures DropOnBoard(DragStart(s, At(s.placed, p).value, Some(p)), p).placed == s.placed
  {
  }

  /**
   Picking a pool card up and dropping it back on the pool changes nothing,
   not even the held card, which stays recorded.
   */
  lemma PoolRoundTripKeepsHeld(s: State, image: Card)
    requires LegitPickUp(s.placed, image, None)
    ensures DropOnAvailable(DragStart(s, image, None)) == s.(dragged := Some(image), source := None)
  {
  }

  /** Card 9 belongs in slot 1. */
  const FirstCard: Card := Card(9, 1)

  /**
   From a fresh game, placing card 9 on slot 1: slot 1 holds it, the pool has
   the other eight cards, and no result is shown.
   */
  lemma FirstPlacement()
    ensures LegitPickUp(Init.placed, FirstCard, None)
    ensures var s := DropOnBoard(DragStart(Init, FirstCard, None), 1);
            && At(s.placed, 1) == Some(FirstCard)
            && FirstCard !in Available(s.placed)
            && |Available(s.placed)| == 8
            && !s.complete
  {
    ResetRefillsPool(Init);
    assert FirstCard == StoryImages[8];
    var s0 := DragStart(Init, FirstCard, None);
    InitValid();
    DragStartKeepsInv(Init, FirstCard, None);
    DropFromPoolTakesFromPool(s0, 1);
    var s := DropOnBoard(s0, 1);
    DropOnBoardKeepsInv(s0, 1);
    OnlyFirstSlotOccupied(s.placed);
    Partition(s.placed);
  }

  /** A board with only its first slot occupied has one occupant. */
  lemma OnlyFirstSlotOccupied(b: Board)
    requires b == Put(EmptyBoard, 1, Some(FirstCard))
    ensures |Occupants(b)| == 1
  {
    var rest := EmptyBoard[1..];
    assert b[1..] == rest;
    assert forall i :: 0 <= i < |rest| ==> rest[i].None?;
  }
}
