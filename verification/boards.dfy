/**
 The board of nine numbered slots, the pool of cards not on it, and the
 evaluation of a board against the correct story order.
 */
module Boards {
  import opened Optional
  import opened Dataset

  /** A slot number on the board. */
  type Slot = p: int | 1 <= p <= 9 witness 1

  /** Slot contents; slot `p` is element `p - 1`, and `None` is an empty slot. */
  type Board = b: seq<Option<Card>> | |b| == 9 witness [None, None, None, None, None, None, None, None, None]

  /** The contents of slot `p`. */
  function At(b: Board, p: Slot): Option<Card> {
    b[p - 1]
  }

  /** `b` with slot `p` set to `v`. */
  function Put(b: Board, p: Slot, v: Option<Card>): (r: Board)
    ensures At(r, p) == v
    ensures forall q: Slot :: q != p ==> At(r, q) == At(b, q)
  {
    b[p - 1 := v]
  }

  /** The board with every slot empty. */
  const EmptyBoard: Board := [None, None, None, None, None, None, None, None, None]

  /** Some slot holds a card with identifier `id`. */
  predicate OnBoard(b: Board, id: int) {
    exists i :: 0 <= i < |b| && b[i].Some? && b[i].value.id == id
  }

  /** Every card on the board comes from the dataset. */
  predicate FromDataset(b: Board) {
    forall i :: 0 <= i < |b| && b[i].Some? ==> b[i].value in StoryImages
  }

  /** No card occupies two slots. */
  predicate NoCardTwice(slots: seq<Option<Card>>) {
    forall i, j :: 0 <= i < j < |slots| && slots[i].Some? ==> slots[i] != slots[j]
  }

  /** The board invariant: dataset cards only, each on at most one slot. */
  predicate ValidBoard(b: Board) {
    FromDataset(b) && NoCardTwice(b)
  }

  /** `a` is `b` with some elements removed, the rest kept in order. */
  predicate IsSubsequence<T(==)>(a: seq<T>, b: seq<T>)
    decreases |b|
  {
    if |a| == 0 then true
    else if |b| == 0 then false
    else (a[0] == b[0] && IsSubsequence(a[1..], b[1..])) || IsSubsequence(a, b[1..])
  }

  /** The cards of `cards` whose identifier is on no slot of `b`, in their original order. */
  function Unplaced(cards: seq<Card>, b: Board): (r: seq<Card>)
    ensures forall c :: c in r <==> c in cards && !OnBoard(b, c.id)
    ensures |r| <= |cards|
  {
    if |cards| == 0 then []
    else if OnBoard(b, cards[0].id) then Unplaced(cards[1..], b)
    else [cards[0]] + Unplaced(cards[1..], b)
  }

  /** The filter keeps the cards it does not drop in their original order. */
  lemma {:induction false} UnplacedKeepsOrder(cards: seq<Card>, b: Board)
    ensures IsSubsequence(Unplaced(cards, b), cards)
  {
    if |cards| > 0 {
      UnplacedKeepsOrder(cards[1..], b);
      var r := Unplaced(cards, b);
      if !OnBoard(b, cards[0].id) {
        assert r[0] == cards[0] && r[1..] == Unplaced(cards[1..], b);
      }
    }
  }

  /** The pool: the dataset cards not on the board, in declaration order. */
  function Available(b: Board): seq<Card> {
    Unplaced(StoryImages, b)
  }

  /** The cards on the occupied slots, in slot order; its length is the number of occupied slots. */
  function Occupants(slots: seq<Option<Card>>): (r: seq<Card>)
    ensures forall c :: c in r <==> Some(c) in slots
    ensures |r| <= |slots|
    ensures |r| == |slots| <==> forall i :: 0 <= i < |slots| ==> slots[i].Some?
    ensures |r| == 0 <==> forall i :: 0 <= i < |slots| ==> slots[i].None?
  {
    if |slots| == 0 then []
    else
      var rest := Occupants(slots[1..]);
      assert forall i :: 1 <= i < |slots| ==> slots[i] == slots[1..][i - 1];
      match slots[0]
      case None => rest
      case Some(c) => [c] + rest
  }

  /** The winning condition: every slot holds a card whose correct position is that slot. */
  predicate InSequence(b: Board) {
    forall p: Slot :: At(b, p).Some? && At(b, p).value.correctPosition == p
  }

  /** Scans the slots in order, stopping at the first empty or misplaced one. */
  method EvaluateBoard(cards: Board) returns (isCorrect: bool)
    ensures isCorrect <==> InSequence(cards)
    ensures (exists p: Slot :: At(cards, p).None?) ==> !isCorrect
  {
    isCorrect := true;
    var i := 1;
    while i <= 9
      invariant 1 <= i <= 10
      invariant forall p: Slot :: p < i ==> At(cards, p).Some? && At(cards, p).value.correctPosition == p
    {
      var card := At(cards, i);
      if card.None? || card.value.correctPosition != i {
        isCorrect := false;
        break;
      }
      i := i + 1;
    }
  }

  /** The one board that is in sequence: slot p holds the card whose correct position is p. */
  const SolvedBoard: Board := [
    Some(Card(9, 1)), Some(Card(2, 2)), Some(Card(1, 3)),
    Some(Card(7, 4)), Some(Card(3, 5)), Some(Card(6, 6)),
    Some(Card(8, 7)), Some(Card(5, 8)), Some(Card(4, 9))
  ]

  /** The solved board is a valid board and wins. */
  lemma SolvedBoardWins()
    ensures ValidBoard(SolvedBoard)
    ensures InSequence(SolvedBoard)
  {
  }

  /** Among boards of dataset cards, exactly one is in sequence. */
  lemma SolutionIsUnique(b: Board)
    requires FromDataset(b)
    ensures InSequence(b) <==> b == SolvedBoard
  {
    if InSequence(b) {
      forall i | 0 <= i < 9
        ensures b[i] == SolvedBoard[i]
      {
        assert At(b, i + 1).Some?;
        var c := b[i].value;
        assert c in StoryImages;
        assert c.correctPosition == i + 1;
        assert SolvedBoard[i].value in StoryImages;
        CardsAreIdentified(c, SolvedBoard[i].value);
      }
    }
    if b == SolvedBoard {
      SolvedBoardWins();
    }
  }

  /** `b` with the contents of slots `p` and `q` exchanged. */
  function Swap(b: Board, p: Slot, q: Slot): Board {
    Put(Put(b, p, At(b, q)), q, At(b, p))
  }

  /** Exchanging any two slots of the solved board makes it lose. */
  lemma SwapLoses(p: Slot, q: Slot)
    requires p != q
    ensures !InSequence(Swap(SolvedBoard, p, q))
  {
    var b := Swap(SolvedBoard, p, q);
    assert At(b, p) == At(SolvedBoard, q);
    assert At(SolvedBoard, q).value.correctPosition == q;
  }

  /** With every slot empty, nothing is filtered out of the pool. */
  lemma {:induction false} NothingPlacedOnEmptyBoard(cards: seq<Card>)
    ensures Unplaced(cards, EmptyBoard) == cards
  {
    if |cards| > 0 {
      NothingPlacedOnEmptyBoard(cards[1..]);
      assert [cards[0]] + cards[1..] == cards;
    }
  }

  /** For a dataset card, "its identifier is on the board" and "it is on the board" agree. */
  lemma PlacedById(b: Board, x: Card)
    requires FromDataset(b)
    requires x in StoryImages
    ensures OnBoard(b, x.id) <==> Some(x) in b
  {
    if OnBoard(b, x.id) {
      var i :| 0 <= i < |b| && b[i].Some? && b[i].value.id == x.id;
      CardsAreIdentified(b[i].value, x);
    }
  }

  /** On a valid board, the pool is exactly the dataset cards that no slot holds. */
  lemma PoolIsComplement(b: Board)
    requires FromDataset(b)
    ensures forall c :: c in Available(b) <==> c in StoryImages && Some(c) !in b
  {
    forall c | c in StoryImages
      ensures OnBoard(b, c.id) <==> Some(c) in b
    {
      PlacedById(b, c);
    }
  }

  /** A card of a list without repeats is in the filtered list once or not at all. */
  lemma {:induction false} UnplacedCount(cards: seq<Card>, b: Board, x: Card)
    requires Distinct(cards)
    ensures multiset(Unplaced(cards, b))[x] == if x in cards && !OnBoard(b, x.id) then 1 else 0
  {
    if |cards| > 0 {
      assert Distinct(cards[1..]) by {
        forall i, j | 0 <= i < j < |cards[1..]|
          ensures cards[1..][i] != cards[1..][j]
        {
          assert cards[1..][i] == cards[i + 1] && cards[1..][j] == cards[j + 1];
        }
      }
      UnplacedCount(cards[1..], b, x);
      assert cards[0] !in cards[1..] by {
        forall k | 0 <= k < |cards[1..]|
          ensures cards[1..][k] != cards[0]
        {
          assert cards[1..][k] == cards[k + 1];
        }
      }
      assert x in cards <==> x == cards[0] || x in cards[1..] by {
        assert cards == [cards[0]] + cards[1..];
      }
    }
  }

  /** When no card occupies two slots, a card is among the occupants once or not at all. */
  lemma {:induction false} OccupantsCount(slots: seq<Option<Card>>, x: Card)
    requires NoCardTwice(slots)
    ensures multiset(Occupants(slots))[x] == if Some(x) in slots then 1 else 0
  {
    if |slots| > 0 {
      var tail := slots[1..];
      assert NoCardTwice(tail) by {
        forall i, j | 0 <= i < j < |tail| && tail[i].Some?
          ensures tail[i] != tail[j]
        {
          assert tail[i] == slots[i + 1] && tail[j] == slots[j + 1];
        }
      }
      OccupantsCount(tail, x);
      if slots[0].Some? {
        assert slots[0] !in tail by {
          forall k | 0 <= k < |tail|
            ensures tail[k] != slots[0]
          {
            assert tail[k] == slots[k + 1];
          }
        }
      }
      assert Some(x) in slots <==> Some(x) == slots[0] || Some(x) in tail by {
        assert slots == [slots[0]] + tail;
      }
    }
  }

  /** Partition: on a valid board, the pool and the occupants together are the dataset, each card exactly once. */
  lemma Partition(b: Board)
    requires ValidBoard(b)
    ensures multiset(Available(b)) + multiset(Occupants(b)) == multiset(StoryImages)
    ensures |Available(b)| + |Occupants(b)| == |StoryImages| == 9
  {
    DatasetIsDistinct();
    forall x: Card
      ensures (multiset(Available(b)) + multiset(Occupants(b)))[x] == multiset(StoryImages)[x]
    {
      UnplacedCount(StoryImages, b, x);
      OccupantsCount(b, x);
      UnplacedCount(StoryImages, EmptyBoard, x);
      NothingPlacedOnEmptyBoard(StoryImages);
      if x in StoryImages {
        PlacedById(b, x);
      }
    }
    assert multiset(Available(b)) + multiset(Occupants(b)) == multiset(StoryImages);
    assert |multiset(Available(b)) + multiset(Occupants(b))| == |StoryImages|;
  }

  /** When no card occupies two slots, overwriting slot `p` removes exactly its card and adds `v`. */
  lemma PutMembership(b: Board, p: Slot, v: Option<Card>, x: Card)
    requires NoCardTwice(b)
    ensures Some(x) in Put(b, p, v) <==> Some(x) == v || (Some(x) in b && Some(x) != At(b, p))
  {
    var b' := Put(b, p, v);
    if Some(x) in b' && Some(x) != v {
      var i :| 0 <= i < 9 && b'[i] == Some(x);
      assert i != p - 1;
      assert b[i] == Some(x);
    }
    if Some(x) in b && Some(x) != At(b, p) {
      var i :| 0 <= i < 9 && b[i] == Some(x);
      assert b'[i] == Some(x);
    }
  }

  /** Overwriting a slot with nothing, or with a dataset card found on no slot, keeps the board valid. */
  lemma PutKeepsValid(b: Board, p: Slot, v: Option<Card>)
    requires ValidBoard(b)
    requires v.Some? ==> v.value in StoryImages && v !in b
    ensures ValidBoard(Put(b, p, v))
  {
    var b' := Put(b, p, v);
    forall i, j | 0 <= i < j < 9 && b'[i].Some?
      ensures b'[i] != b'[j]
    {
      if i != p - 1 && j != p - 1 {
        assert b'[i] == b[i] && b'[j] == b[j];
      } else if i == p - 1 {
        assert b'[j] == b[j];
      } else {
        assert b'[i] == b[i];
      }
    }
  }

  /** Placing pool card `c` on an empty slot takes exactly `c` out of the pool. */
  lemma PoolAfterPlace(b: Board, p: Slot, c: Card)
    requires ValidBoard(b)
    requires At(b, p).None?
    requires c in Available(b)
    ensures forall x :: x in Available(Put(b, p, Some(c))) <==> x in Available(b) && x != c
  {
    var b' := Put(b, p, Some(c));
    PoolIsComplement(b);
    PutKeepsValid(b, p, Some(c));
    PoolIsComplement(b');
    forall x
      ensures Some(x) in b' <==> x == c || Some(x) in b
    {
      PutMembership(b, p, Some(c), x);
    }
  }

  /** Emptying a slot returns its card, if any, to the pool and changes nothing else in the pool. */
  lemma PoolAfterClear(b: Board, p: Slot)
    requires ValidBoard(b)
    ensures forall x :: x in Available(Put(b, p, None)) <==> x in Available(b) || Some(x) == At(b, p)
  {
    var b' := Put(b, p, None);
    PoolIsComplement(b);
    PutKeepsValid(b, p, None);
    PoolIsComplement(b');
    forall x
      ensures Some(x) in b' <==> Some(x) in b && Some(x) != At(b, p)
    {
      PutMembership(b, p, None, x);
    }
  }
}
