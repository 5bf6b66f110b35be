# Memory-matching game: round logic in Dafny

This project models the round logic of "Nature & Nosh Adventure", a browser memory game.
The player turns up cards two at a time to pair a picture with its word. The model covers three parts:

- **The match engine** (`engine.dfy`, module `Engine`). The React state of `App.tsx` becomes one immutable
  `State` record: screen, cards, flipped uniqueIds, matched matchIds, score, attempts, processing lock and
  pair count. Each event has a pure step function:
  - a card click (`Click`);
  - the two-card evaluation effect (`Evaluate`);
  - the mismatch timer (`ClearMismatch`);
  - the completion timer (`Finish`);
  - starting or restarting a round (`NewRound`);
  - going back to the menu (`BackToMenu`).

  `Enabled` says when each event can occur, `Step` applies one event and `Run` applies a sequence of
  events. `Inv` is the invariant that every enabled step keeps.
- **The round builder** (`round_builder.dfy`, module `RoundBuilder`, and `card_ids.dfy`, module
  `CardIds`). App.tsx builds rounds in two places, `initializeGame` and `handleStartGame`. The two copies
  differ only in where the pair count comes from, so the model has one pure function, `BuildCards`. It
  takes the first n items of an already shuffled vocabulary and turns each into an image card and a word
  card. Their uniqueIds are the strings `${id}-img-${index}` and `${id}-word-${index}`. The decimal index
  contains no `-`, so a uniqueId can be parsed back into (id, kind, index). The parse round trip makes
  uniqueIds injective for any ids.
- **Dealing a round** (`deal.dfy`, module `Deal`). A round's board is the card shuffle of the cards
  built from the first n items of the shuffled vocabulary. The facts about the board are stated for any
  vocabulary, and for any vocabulary with distinct ids where pairs are concerned. `Engine` deals from the
  game's vocabulary and uses them with `Vocabulary.VocabularyShape`.
- **The Fisher-Yates shuffle** (`shuffle.dfy`, module `FisherYates`). `ShuffleArray` copies its input into
  a fresh array and swaps in place, from the last index down to 1. `Math.random` is replaced by a supplied
  sequence of draws, where draw i lies in [0, i]. `Shuffle` is the same loop as a recursive function.

`types.dfy` holds the datatypes of types.ts. `vocabulary.dfy` holds the 18 vocabulary items of
constants.ts. Each item is held as entry k of a table with one function per field, and `VOCABULARY` lists
the entries in order. `seqs.dfy` holds small sequence and set facts.

Three behaviours of the code are easy to miss. The model keeps them as the code has them:

- A pair count larger than the vocabulary is not rejected. `slice` (App.tsx:102) truncates the board to
  the 18 items, but `roundItemsCount` (App.tsx:94) keeps the requested count. Such a round can never
  complete: the completion check of App.tsx:78 never holds (`Engine.OversizedRoundNeverFinishes`). A
  completion timer left over from an earlier round can still show the finished screen (see "## Left out").
- If a flipped uniqueId is not found on the board, the evaluation effect (App.tsx:69-73) drops the
  selection and releases the lock. It raises no error and counts no attempt. `Evaluate` models that
  branch, and `Engine.MissingCardUnreachable` shows that no state satisfying `Inv` takes it.
- The two timers (App.tsx:64 and App.tsx:79) carry no token of the round that set them and check
  nothing when they fire.

The menu buttons offer 4, 6 and 8 pairs. `handleStartGame` takes the count as a parameter and checks
nothing. The model accepts any non-negative integer count.

## Model

| member | source | states |
|---|---|---|
| Vocabulary.VocabularyShape | constants.ts:7-31 | The vocabulary has 18 items, their ids are pairwise distinct, and so there are 18 different ids. |
| FisherYates.Swap | constants.ts:38 | Swapping positions i and j puts a[j] at i and a[i] at j and leaves every other position alone. |
| FisherYates.SwapPermutes | constants.ts:38 | A swap keeps the multiset of elements. |
| FisherYates.ShuffleFrom | constants.ts:36-39 | The loop started at index i swaps i with its draw in [0, i], then continues at i - 1 and stops at 0. It keeps the length and never touches a position above i. |
| FisherYates.ShuffleFromPermutes | constants.ts:36-39 | The loop started at any index keeps the multiset of elements. |
| FisherYates.Shuffle | constants.ts:34-41 | The shuffle returns a permutation of its input: the same length and the same multiset. For length 0 or 1 the loop body never runs, so the input comes back unchanged. |
| FisherYates.ShuffleArray | constants.ts:34-41 | The input is a value and is never modified: every swap acts on a freshly allocated copy. The in-place swap loop gives the same result as the recursive definition. The result is a permutation of the input. Inputs of length 0 or 1 come back unchanged. |
| FisherYates.ShuffleLastPosition | constants.ts:36-38 | The first swap pairs the last index with a draw in [0, last]. The element it picks is the one that ends up last. |
| FisherYates.ShuffleFromIdentityDraws | constants.ts:37-38 | When every draw equals its own index, no swap moves anything and the output equals the input. |
| FisherYates.ShuffleMap | constants.ts:35-40 | Shuffling commutes with mapping a function over the elements: the draws move positions, not values. |
| FisherYates.ShuffleKeepsDistinct | constants.ts:35-40 | A shuffled sequence without repeated elements still has none. |
| CardIds.NatToStringNoLeadingZero | App.tsx:25 | The `${index}` text of a template literal starts with '0' only for 0, and it has one digit exactly when the number is below 10. |
| CardIds.ParseNatToString | App.tsx:25 | The decimal text of n is a run of decimal digits, and reading it back gives n. |
| CardIds.ParseUniqueIdRoundTrip | App.tsx:25-32 | The uniqueId `UniqueId` builds, `${id}-img-${index}` or `${id}-word-${index}`, parses back to the id, the kind and the index, whatever the id contains. |
| CardIds.UniqueIdInjective | App.tsx:25-32 | Two uniqueIds are equal exactly when id, kind and index are all equal. |
| RoundBuilder.Expand | App.tsx:22-38 | The forEach loop yields two cards per item. Position 2i holds item i's image card and 2i+1 its word card, each tagged with index i. |
| RoundBuilder.Select | App.tsx:20 | `slice(0, n)` keeps the first min(n, \|vocabulary\|) items in order, and the whole vocabulary when n is at least its length. |
| RoundBuilder.BuildCards | App.tsx:19-38 | A round for n pairs has 2·min(n, \|vocabulary\|) cards, because `slice` truncates. The image card of item i has matchId = id, content = imageUrl and the item as back-reference. The word card has content = word. The uniqueIds encode (id, kind, i). The copy at lines 101-120 is the same. |
| RoundBuilder.BuildCardsUniqueIds | App.tsx:23-38 | No two cards of a built round share a uniqueId, for every vocabulary. |
| RoundBuilder.BuildCardsOnePairPerItem | App.tsx:23-38 | If vocabulary ids are distinct, each selected id is the matchId of exactly two cards. One is the image card and one is the word card. |
| RoundBuilder.BuildCardsFromSelection | App.tsx:20-38 | Every card comes from one of the first n items and carries that item's id as matchId. |
| RoundBuilder.BuildCardsPairKeysDistinct | App.tsx:23-38 | If vocabulary ids are distinct, no two built cards share both matchId and type. |
| Engine.FindCard | App.tsx:53-54 | `find` returns the first card of the board whose uniqueId is the requested one, and None exactly when there is none. If uniqueIds are distinct, it returns the card holding that uniqueId. |
| Engine.Click | App.tsx:83-91 | A click changes only the flipped list. It appends the card's uniqueId exactly when nothing is processing, the card is not flipped, its matchId is not matched and fewer than two cards are flipped. Otherwise the state is unchanged. The list keeps at most two entries and no repeats. |
| Engine.Evaluate | App.tsx:49-75 | With two flipped cards both found, attempts rises by exactly one. On a match the matchId is appended, the score rises by 10, the flipped list empties and the lock clears. On a mismatch the score and matches stay, both cards stay flipped and the lock is taken. If a card is missing, the selection and the lock are dropped and attempts stays the same. |
| Engine.ClearMismatch | App.tsx:64-67 | The mismatch timer empties the selection and releases the lock, so every unmatched card can be clicked again. Score, attempts, matches, board and screen stay. It keeps the invariant. |
| Engine.Finish | App.tsx:79 | The completion timer shows the finished screen and changes nothing else. It keeps the invariant. |
| Engine.BackToMenu | App.tsx:187 | The back-to-menu buttons (here and at line 210) show the menu and change nothing else: the old round stays in the state. It keeps the invariant. |
| Engine.NewRound | App.tsx:93-129 | A new round shows the game screen with 2·min(n, 18) cards and pair count n. Flipped and matched are empty, score and attempts are 0, and nothing is processing. |
| Deal.DealCards | App.tsx:19-40 | The board of a round for n pairs has 2·min(n, \|vocabulary\|) cards and is a permutation of the cards built from the shuffled vocabulary. |
| Deal.ShuffledIdsDistinct | App.tsx:19 | Shuffling a vocabulary whose ids are pairwise distinct keeps them pairwise distinct. |
| Deal.DealUniqueIds | App.tsx:23-40 | After the final card shuffle, the cards of a round still have pairwise distinct uniqueIds, for every vocabulary. |
| Deal.DealFromVocabulary | App.tsx:19-40 | Every card of a round carries the id of one of the selected items, and so of a vocabulary item. |
| Deal.DealPairBound | App.tsx:20 | A round for n pairs shows at most n distinct matchIds. |
| Deal.DealKeys | App.tsx:23-40 | The (matchId, type) sequence of the final board is the shuffle of that of the built cards. |
| Deal.DealShowsItem | App.tsx:19-40 | The image card and the word card of the i-th selected item are both on the shuffled board. |
| Deal.DealPairsOnBoard | App.tsx:19-40 | If vocabulary ids are distinct, each selected id appears on the shuffled board exactly once as an image card and exactly once as a word card. |
| Engine.NewRoundPairsOnBoard | App.tsx:101-122 | On the board of a new round dealt from the game's vocabulary, each selected id appears exactly once as an image card and exactly once as a word card. |
| Engine.NewRoundInv | App.tsx:40-46 | A new round satisfies the engine invariant. |
| Engine.Initial | App.tsx:9-16 | The state at first render shows the menu with no cards, nothing flipped or matched, score and attempts 0, no lock and six pairs chosen. It satisfies the invariant. |
| Engine.ClickKeepsInv | App.tsx:84-90 | A click on a board card keeps the invariant. The newly flipped card is on the board and not yet matched. |
| Engine.EvaluateKeepsInv | App.tsx:56-73 | Evaluation keeps the invariant. A matched id was not matched before, so matched stays free of duplicates and score stays 10·\|matched\|. |
| Engine.MissingCardUnreachable | App.tsx:69-73 | In every state satisfying the invariant, both flipped uniqueIds are found on the board, so the reset branch for a missing card is never taken. |
| Engine.StepKeepsInv | App.tsx:49-91 | Every enabled event keeps the invariant. At most two cards are flipped, none twice. Matched has no duplicates and score = 10·\|matched\|. Flipped cards are on the board and unmatched. The lock is held only over two flipped cards. |
| Engine.RunKeepsInv | App.tsx:49-91 | The invariant holds after any sequence of events that can occur. |
| Engine.StepPhase | App.tsx:77-129 | Start and restart open the game screen, the completion timer opens the finished screen and the back-to-menu buttons (lines 187 and 210) open the menu. Clicks, evaluation and the mismatch timer keep the screen. |
| Engine.StepStartsFreshRound | App.tsx:93-129 | Start and restart clear flipped and matched, zero score and attempts and release the lock. Start takes the chosen pair count and restart keeps the current one. |
| Engine.StepWithinRound | App.tsx:56-67 | Any event other than starting a round extends matched as a prefix. It never lowers score or attempts, and it keeps the board and the pair count. |
| Engine.RunWithinRound | App.tsx:49-91 | Over any sequence of events that starts no new round, matched only grows, score and attempts never fall, and the board stays fixed. |
| Engine.ScreenOnlyEvents | App.tsx:77-81 | The completion timer and the back-to-menu buttons change only the screen. |
| Engine.FinishOnlyWhenComplete | App.tsx:77-81 | The finished screen is entered only by the completion timer, and only when matched is non-empty and its length equals the pair count. |
| Engine.FinishMeansBoardCleared | App.tsx:78 | When the completion timer can fire, the matched ids are exactly the matchIds on the board. |
| Engine.OversizedRoundNeverFinishes | App.tsx:94-102 | If the requested pair count exceeds the 18 vocabulary items, the round can never complete, because `slice` truncates the board but not the count. |
| Engine.MatchingPairScenario | App.tsx:56-62 | Clicking both cards of an unmatched pair and then evaluating records the pair, adds 10 points and one attempt, and leaves nothing flipped or locked. |
| Engine.MismatchResolution | App.tsx:63-67 | A mismatch costs one attempt and keeps both cards up under the lock, and every click is ignored meanwhile. No click turns the cards down; the mismatch timer does, and unlocks. Score and matches stay unchanged throughout. (Starting or restarting a round also clears the selection and the lock, see Engine.StepStartsFreshRound.) |

## Left out

- Rendering: the menu, game and finished screens (App.tsx:132-228) and components/Card.tsx. Card.tsx's click gating and `isDisabled` duplicate the engine gate of `handleCardClick`, which is modelled.
- Icons, the title and image URLs are opaque strings.
- `Math.random` and its float arithmetic. The shuffle takes integer draws, with draw i in [0, i]. The model does not claim uniformity.
- Timer durations (1200 ms, 500 ms) and React's effect scheduling and state batching. Each timer firing is one discrete event, and one evaluation is one atomic step.
- Stale timers. The source's timer callbacks have no guard, and the step functions `ClearMismatch` and `Finish` have none either. `Enabled` lets the mismatch timer fire only while the lock is held over two cards. It lets the completion timer fire whenever matched is full. The model therefore does not cover a timer that fires after a restart or a new start has replaced its round. Going back to the menu replaces nothing: the old round stays in the state, and both timers stay as enabled as they were.
- Engine.FinishOnlyWhenComplete: holds only for timer firings inside the enabling condition. A completion timer left over from the previous round can still show the finished screen in the source.
- Negative or fractional pair counts. `handleStartGame` takes any JavaScript number, but the model's count is
  a `nat`. The buttons only ever pass 4, 6 or 8.
- The item category is carried as data and has no behaviour.
