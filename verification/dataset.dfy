/**
 The fixed list of nine story cards the game is played with. Each card has an
 identifier and the board slot it belongs in; image locations and captions are
 not part of the model.
 */
module Dataset {

  /** One story illustration: its identifier and the slot (1..9) where it belongs. */
  datatype Card = Card(id: int, correctPosition: int)

  /** The cards in declaration order; the pool is always shown in this order. */
  const StoryImages: seq<Card> := [
    Card(1, 3), Card(4, 9), Card(3, 5),
    Card(2, 2), Card(6, 6), Card(8, 7),
    Card(5, 8), Card(7, 4), Card(9, 1)
  ]

  /** No element occurs twice. */
  predicate Distinct<T(==)>(s: seq<T>) {
    forall i, j :: 0 <= i < j < |s| ==> s[i] != s[j]
  }

  /** The identifiers of `cs`, in order. */
  function Ids(cs: seq<Card>): seq<int> {
    seq(|cs|, i requires 0 <= i < |cs| => cs[i].id)
  }

  /** The correct positions of `cs`, in order. */
  function Positions(cs: seq<Card>): seq<int> {
    seq(|cs|, i requires 0 <= i < |cs| => cs[i].correctPosition)
  }

  /** The numbers 1..9, each once. */
  const OneToNine: multiset<int> := multiset{1, 2, 3, 4, 5, 6, 7, 8, 9}

  /** The identifiers of the dataset, in declaration order. */
  lemma IdsInOrder()
    ensures Ids(StoryImages) == [1, 4, 3, 2, 6, 8, 5, 7, 9]
  {
  }

  /** The correct positions of the dataset, in declaration order. */
  lemma PositionsInOrder()
    ensures Positions(StoryImages) == [3, 9, 5, 2, 6, 7, 8, 4, 1]
  {
  }

  /** The identifiers of the dataset are a permutation of 1..9. */
  lemma IdsArePermutation()
    ensures |StoryImages| == 9
    ensures multiset(Ids(StoryImages)) == OneToNine
  {
    IdsInOrder();
    assert multiset([1, 4, 3, 2, 6, 8, 5, 7, 9]) == OneToNine;
  }

  /** The correct positions of the dataset are a permutation of 1..9. */
  lemma PositionsArePermutation()
    ensures multiset(Positions(StoryImages)) == OneToNine
  {
    PositionsInOrder();
    assert multiset([3, 9, 5, 2, 6, 7, 8, 4, 1]) == OneToNine;
  }

  /** No card is listed twice. */
  lemma DatasetIsDistinct()
    ensures Distinct(StoryImages)
  {
    IdsInOrder();
    assert Distinct(Ids(StoryImages));
  }

  /** Within the dataset, a card is determined by its identifier, and also by its correct position. */
  lemma CardsAreIdentified(x: Card, y: Card)
    requires x in StoryImages && y in StoryImages
    ensures x.id == y.id ==> x == y
    ensures x.correctPosition == y.correctPosition ==> x == y
  {
  }
}
