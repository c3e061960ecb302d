# Story sequence game — a Dafny model

This project models the state machine behind the `StorySequenceGame` component
of a drag-and-drop story puzzle. The player drags nine illustrated story cards
onto nine numbered board slots. The "Check Sequence" button then reports
whether every slot holds the card whose correct position is that slot.

The model covers the live component only, starting at line 204 of
`src/components/StorySequenceGame.tsx`. Lines 1–202 are an older,
commented-out version and are not modelled.

Modules:

- `Optional` (`optional.dfy`): `Option`, which stands for a value that may be `null`.
- `Dataset` (`dataset.dfy`): the `Card` record and the fixed list `StoryImages`.
  Image locations and captions are dropped.
- `Boards` (`boards.dfy`):
  - the board, a 9-element `seq<Option<Card>>` in which slot `p` is element `p - 1`;
  - the pool (`Available`), computed by filtering the dataset against the board, as the source does;
  - the evaluation loop (`EvaluateBoard`);
  - the partition facts linking board and pool.
- `Game` (`game.dfy`):
  - the component state (`placed`, `dragged`, `source`, `complete`, `message`);
  - one pure transition function per handler;
  - the state invariant and its preservation lemmas.
- `Session` (`session.dfy`): gestures as events, applied one after another from the
  freshly mounted state. This module proves that every reachable state keeps the
  board/pool partition.

Behaviour the model reproduces as the code has it:

- **Drop on an occupied slot.** `handleDropOnBoard` clears the origin slot
  before it tests whether the target is empty. A card dragged from one slot
  onto another, occupied slot therefore leaves the board and reappears in
  the pool. The target keeps its card (`Game.DropOnOccupiedReturnsToPool`).
- **Held card after every drop on a slot.** A drop on a slot always clears the
  held card and its origin, including when the placement is refused.
- **Pool card dropped on the pool.** This changes nothing at all: the held
  card stays recorded (`Game.PoolRoundTripKeepsHeld`).
- **No automatic check.** Nothing evaluates the board when the ninth slot
  fills. Only the check button sets the result, and it works at any fill
  level. An empty slot yields the failure message.
- **Correct positions.** In declaration order the correct positions are
  3, 9, 5, 2, 6, 7, 8, 4, 1. Listed by id 1..9 they are 3, 2, 5, 9, 8, 6,
  4, 7, 1. So the winning board has, from slot 1 to slot 9, the cards with
  ids 9, 2, 1, 7, 3, 6, 8, 5, 4 (`Boards.SolvedBoard`).

Whether a pick-up is legitimate is a precondition of `Game.DragStart`. A card
can be picked up from the pool, with no origin, or from the slot it occupies.
This is what the interface offers at lines 354 and 380. `Session.Step` returns
`None` for any other pick-up.

## Model

| member | source | states |
|---|---|---|
| `Dataset.IdsArePermutation` | src/components/StorySequenceGame.tsx:216-226 | the nine card identifiers are a permutation of 1..9 |
| `Dataset.PositionsArePermutation` | src/components/StorySequenceGame.tsx:216-226 | the nine correct positions are a permutation of 1..9 |
| `Dataset.DatasetIsDistinct` | src/components/StorySequenceGame.tsx:216-226 | no card is listed twice |
| `Dataset.CardsAreIdentified` | src/components/StorySequenceGame.tsx:216-226 | within the dataset a card is determined by its id, and also by its correct position |
| `Boards.Unplaced` | src/components/StorySequenceGame.tsx:319-321 | the filtered list holds exactly the cards whose id is on no slot, and is no longer than the input |
| `Boards.UnplacedKeepsOrder` | src/components/StorySequenceGame.tsx:319-321 | the filtered list is a subsequence of the input, so the pool keeps declaration order |
| `Boards.Occupants` | src/components/StorySequenceGame.tsx:320 | the cards on the board are exactly the slot values that are present; there are 9 of them iff every slot is filled, and none iff every slot is empty |
| `Boards.EvaluateBoard` | src/components/StorySequenceGame.tsx:292-299 | the scan with early exit reports correct iff every slot p holds a card whose correct position is p; any empty slot makes it report incorrect |
| `Boards.SolvedBoardWins` | src/components/StorySequenceGame.tsx:216-226 | the board with each card on its correct slot holds only dataset cards, none twice, and is in sequence |
| `Boards.SolutionIsUnique` | src/components/StorySequenceGame.tsx:292-299 | among boards of dataset cards, the solved board is the only one that passes the check |
| `Boards.SwapLoses` | src/components/StorySequenceGame.tsx:292-299 | exchanging any two slots of the solved board makes the check fail |
| `Boards.NothingPlacedOnEmptyBoard` | src/components/StorySequenceGame.tsx:319-321 | with every slot empty the filter keeps every card, in order |
| `Boards.PlacedById` | src/components/StorySequenceGame.tsx:320 | for dataset cards, the source's by-id test "some slot holds this id" agrees with "this card is on a slot" |
| `Boards.PoolIsComplement` | src/components/StorySequenceGame.tsx:319-321 | the pool is exactly the dataset cards that no slot holds |
| `Boards.UnplacedCount` | src/components/StorySequenceGame.tsx:319-321 | filtering a list without repeats yields each kept card exactly once |
| `Boards.OccupantsCount` | src/components/StorySequenceGame.tsx:320 | when no card is on two slots, each card appears among the board's cards at most once |
| `Boards.Partition` | src/components/StorySequenceGame.tsx:319-321 | on a valid board, pool plus board cards equal the dataset as a multiset, so pool size plus occupied slots is 9 |
| `Boards.PutMembership` | src/components/StorySequenceGame.tsx:271-273 | overwriting one slot removes exactly the card that was there and adds the new value |
| `Boards.PutKeepsValid` | src/components/StorySequenceGame.tsx:271-273 | emptying a slot, or putting on it a dataset card that is on no slot, keeps the board valid |
| `Boards.PoolAfterPlace` | src/components/StorySequenceGame.tsx:272-274 | placing a pool card on an empty slot removes exactly that card from the pool |
| `Boards.PoolAfterClear` | src/components/StorySequenceGame.tsx:285 | emptying a slot adds exactly its card, if any, to the pool |
| `Game.DragStart` | src/components/StorySequenceGame.tsx:254-259 | picking up records the card and its origin, and leaves the board and the result untouched: removal waits for the drop |
| `Game.DropOnBoard` | src/components/StorySequenceGame.tsx:266-280 | with nothing held it is a no-op; otherwise nothing is held afterwards and the result is untouched; an occupied target keeps its card unless it is the origin; per case: pool card onto an empty slot changes only the target, pool card onto an occupied slot changes nothing, slot S onto an empty slot T empties S and fills T, slot S onto an occupied slot T empties S only |
| `Game.DropOnAvailable` | src/components/StorySequenceGame.tsx:282-289 | for a card from a slot, empties only that slot and clears the held state; with a pool card or nothing held the state is unchanged, held card included |
| `Game.CheckSequence` | src/components/StorySequenceGame.tsx:291-308 | at any fill level, marks the game checked and reports success iff the board is in sequence; an empty slot means failure; board and held state are untouched |
| `Game.Reset` | src/components/StorySequenceGame.tsx:310-317 | all nine slots become empty and the result is cleared; the held card and its origin are kept |
| `Game.InitValid` | src/components/StorySequenceGame.tsx:239-243 | the mounted state has every slot empty, no result, and satisfies the invariant |
| `Game.ResetRefillsPool` | src/components/StorySequenceGame.tsx:310-321 | after a reset, and after mounting, the pool is the whole dataset in declaration order |
| `Game.ResetIdempotent` | src/components/StorySequenceGame.tsx:310-317 | resetting twice equals resetting once |
| `Game.DragStartKeepsInv` | src/components/StorySequenceGame.tsx:254-259 | a legitimate pick-up keeps the invariant |
| `Game.HeldOnlyAtOrigin` | src/components/StorySequenceGame.tsx:271 | once the origin slot is cleared, the held card is on no slot |
| `Game.DropOnBoardKeepsInv` | src/components/StorySequenceGame.tsx:266-280 | a drop on a slot never puts a card on two slots and keeps the held state consistent |
| `Game.DropOnAvailableKeepsInv` | src/components/StorySequenceGame.tsx:282-289 | a drop on the pool keeps the invariant |
| `Game.CheckAndResetKeepInv` | src/components/StorySequenceGame.tsx:291-317 | checking and resetting keep the invariant |
| `Game.ClearingOriginFreesHeld` | src/components/StorySequenceGame.tsx:271 | emptying the held card's origin slot adds exactly that card to the pool |
| `Game.DropOnOccupiedReturnsToPool` | src/components/StorySequenceGame.tsx:269-276 | a board card dropped on another, occupied slot leaves the board: the pool gains exactly that card |
| `Game.DropOnAvailableReturnsToPool` | src/components/StorySequenceGame.tsx:282-289 | a board card dropped on the pool: the pool gains exactly that card |
| `Game.DropFromPoolTakesFromPool` | src/components/StorySequenceGame.tsx:269-276 | a held pool card is in the pool, and placing it on an empty slot removes exactly it from the pool |
| `Game.DropOnOwnSlotIsHarmless` | src/components/StorySequenceGame.tsx:271-274 | picking a board card up and dropping it on its own slot leaves the board as it was |
| `Game.PoolRoundTripKeepsHeld` | src/components/StorySequenceGame.tsx:284 | picking a pool card up and dropping it on the pool changes nothing except that the card stays held |
| `Game.FirstPlacement` | src/components/StorySequenceGame.tsx:254-280 | from a fresh game, card 9 dropped on slot 1 sits there, the pool has the other eight cards, and no result is shown |
| `Game.OnlyFirstSlotOccupied` | src/components/StorySequenceGame.tsx:320 | a board with only slot 1 filled has one occupant |
| `Session.Step` | src/components/StorySequenceGame.tsx:343-405 | only an illegitimate pick-up is refused; events other than check and reset leave the result untouched |
| `Session.StepKeepsInv` | src/components/StorySequenceGame.tsx:254-317 | every handler keeps the invariant |
| `Session.RunKeepsInv` | src/components/StorySequenceGame.tsx:254-317 | every sequence of events keeps the invariant |
| `Session.ReachablePartition` | src/components/StorySequenceGame.tsx:319-321 | in every reachable state no card is on two slots, and pool plus board hold each dataset card exactly once, so pool size plus occupied slots is 9 |
| `Session.OnlyCheckShowsResult` | src/components/StorySequenceGame.tsx:300 | only the check button turns a hidden result into a shown one; there is no automatic check |
| `Session.CheckSucceedsOnlyWhenSolved` | src/components/StorySequenceGame.tsx:291-307 | in a consistent state the check reports success exactly for the solved board |

## Left out

- Audio (`playClickSound`, `playResultSound`, the `<audio>` elements): fire-and-forget playback whose errors are swallowed. It has no effect on game state.
- Rendering: the JSX, CSS classes, header text and buttons. The `resultMessage.includes('Excellent')` styling test becomes `Game.Succeeded`. The two message texts become the `Message` values `Excellent` and `NotCorrect`.
- `handleDragOver` and the `DragEvent` plumbing (`preventDefault`, `dataTransfer.effectAllowed`/`dropEffect`). This is browser behaviour with no game state.
- React scheduling and batching of state updates: each handler is modelled as one atomic transition.
- Before the mount effect runs, `placedCards` is the empty object `{}`. Every handler reads a missing key the same way as `null`, so the model starts from the nine empty slots.
- The older, commented-out version of the component (lines 1–202).
- Image `src` and `alt` strings: they do not affect any decision.
- The truthiness tests `if (draggedImage)` and `if (sourcePosition)` become presence tests on `Option`. Slot numbers run from 1 to 9, so the slot number 0, which JavaScript treats as false, never occurs.
