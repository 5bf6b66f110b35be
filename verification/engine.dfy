/** The match engine of App.tsx: the React state of the game as one
    immutable record, and one step function per event. Events come from the
    card click handler, the two effects and their timers, and the menu,
    restart and back-to-menu buttons. */
module Engine {
  import opened Types
  import opened SeqFacts
  import opened FisherYates
  import opened Vocabulary
  import opened RoundBuilder
  import opened Deal

  /** Points a found pair is worth (App.tsx:60). */
  const MATCH_REWARD: nat := 10

  /** The eight `useState` hooks of App.tsx:9-16. `flipped` and `matched` are
      arrays in the source, so they are sequences here; `pairCount` is
      `roundItemsCount`. */
  datatype State = State(
    phase: Phase,
    cards: seq<GameCard>,
    flipped: seq<string>,
    matched: seq<string>,
    score: nat,
    attempts: nat,
    processing: bool,
    pairCount: nat)

  /** The state when the app first renders: the menu, no round, six pairs chosen. */
  function Initial(): (r: State)
    ensures r.phase == Menu && r.cards == [] && r.pairCount == ITEMS_PER_ROUND
    ensures r.flipped == [] && r.matched == [] && r.score == 0 && r.attempts == 0 && !r.processing
    ensures Inv(r)
  {
    State(Menu, [], [], [], 0, 0, false, ITEMS_PER_ROUND)
  }

  /** `currentCards.find(c => c.uniqueId === uid)`: the first card with that uniqueId. */
  function FindCard(cards: seq<GameCard>, uid: string): (r: Option<GameCard>)
    ensures r.Some? ==> r.value in cards && r.value.uniqueId == uid
    ensures forall k :: 0 <= k < |cards| && cards[k].uniqueId == uid && (forall j :: 0 <= j < k ==> cards[j].uniqueId != uid) ==> r == Some(cards[k])
    ensures r.None? <==> forall k :: 0 <= k < |cards| ==> cards[k].uniqueId != uid
    ensures forall k :: 0 <= k < |cards| && cards[k].uniqueId == uid && Distinct(UniqueIds(cards)) ==> r == Some(cards[k])
    decreases |cards|
  {
    if |cards| == 0 then None
    else if cards[0].uniqueId == uid then
      Some(cards[0])
    else
      assert Distinct(UniqueIds(cards)) ==> Distinct(UniqueIds(cards[1..])) by {
        assert UniqueIds(cards[1..]) == UniqueIds(cards)[1..];
      }
      FindCard(cards[1..], uid)
  }

  /** The gate of `handleCardClick` (App.tsx:84-90): a click flips a card only
      when no evaluation is pending, the card is neither flipped nor matched,
      and fewer than two cards are flipped. */
  predicate ClickAccepted(s: State, card: GameCard) {
    && !s.processing
    && card.uniqueId !in s.flipped
    && card.matchId !in s.matched
    && |s.flipped| < 2
  }

  /** `handleCardClick` (App.tsx:83-91). */
  function Click(s: State, card: GameCard): (r: State)
    // nothing but the flipped list can change ...
    ensures r == s.(flipped := r.flipped)
    // ... and it gains the card's uniqueId exactly when the gate lets the click through
    ensures r.flipped == s.flipped + [card.uniqueId] <==> ClickAccepted(s, card)
    ensures !ClickAccepted(s, card) ==> r == s
    ensures |s.flipped| <= 2 ==> |r.flipped| <= 2
    ensures Distinct(s.flipped) ==> Distinct(r.flipped)
  {
    if s.processing || card.uniqueId in s.flipped || card.matchId in s.matched then s
    else if |s.flipped| < 2 then s.(flipped := s.flipped + [card.uniqueId])
    else s
  }

  /** The two flipped cards as the evaluation effect looks them up (App.tsx:52-54). */
  function FlippedPair(s: State): Option<(GameCard, GameCard)>
    requires |s.flipped| == 2
  {
    var first := FindCard(s.cards, s.flipped[0]);
    var second := FindCard(s.cards, s.flipped[1]);
    if first.Some? && second.Some? then Some((first.value, second.value)) else None
  }

  /** The evaluation effect (App.tsx:49-75), run when two cards are flipped. */
  function Evaluate(s: State): (r: State)
    ensures r.cards == s.cards && r.phase == s.phase && r.pairCount == s.pairCount
    ensures |s.flipped| != 2 ==> r == s
    // both cards found: exactly one more attempt, whatever the outcome
    ensures |s.flipped| == 2 && FlippedPair(s).Some? ==> r.attempts == s.attempts + 1
    // a card not found: the selection is dropped and nothing is counted
    ensures |s.flipped| == 2 && FlippedPair(s).None? ==>
      r == s.(flipped := [], processing := false)
    // a match: recorded, rewarded and cleared in the same step
    ensures |s.flipped| == 2 && FlippedPair(s).Some? && FlippedPair(s).value.0.matchId == FlippedPair(s).value.1.matchId ==>
      && r.matched == s.matched + [FlippedPair(s).value.0.matchId]
      && r.score == s.score + MATCH_REWARD
      && r.flipped == [] && !r.processing
    // a mismatch: both cards stay up, the lock is taken, score and matches stand
    ensures |s.flipped| == 2 && FlippedPair(s).Some? && FlippedPair(s).value.0.matchId != FlippedPair(s).value.1.matchId ==>
      && r.matched == s.matched && r.score == s.score
      && r.flipped == s.flipped && r.processing
  {
    if |s.flipped| != 2 then s
    else
      match FlippedPair(s)
      case None => s.(flipped := [], processing := false)
      case Some((first, second)) =>
        if first.matchId == second.matchId then
          s.(attempts := s.attempts + 1,
             matched := s.matched + [first.matchId],
             score := s.score + MATCH_REWARD,
             flipped := [],
             processing := false)
        else
          s.(attempts := s.attempts + 1, processing := true)
  }

  /** The 1200 ms timer of a mismatch (App.tsx:64-67). It carries no guard
      of its own: it empties the selection and releases the lock, so every
      unmatched card can be clicked again; the round's score, attempts and
      matches stand. */
  function ClearMismatch(s: State): (r: State)
    ensures r.flipped == [] && !r.processing
    ensures forall card: GameCard :: card.matchId !in r.matched ==> ClickAccepted(r, card)
    ensures r.matched == s.matched && r.score == s.score && r.attempts == s.attempts
    ensures r.phase == s.phase && r.cards == s.cards && r.pairCount == s.pairCount
    ensures Inv(s) ==> Inv(r)
  {
    s.(flipped := [], processing := false)
  }

  /** The 500 ms timer of the completion effect (App.tsx:77-81): it shows the
      finished screen and leaves the round, with its score, as it was. */
  function Finish(s: State): (r: State)
    ensures r.phase == Finished
    ensures r.(phase := s.phase) == s
    ensures Inv(s) ==> Inv(r)
  {
    s.(phase := Finished)
  }

  /** The "Back to Menu" buttons (App.tsx:187, 210): only the screen changes;
      the old round stays in the state until a new one is started. */
  function BackToMenu(s: State): (r: State)
    ensures r.phase == Menu
    ensures r.(phase := s.phase) == s
    ensures Inv(s) ==> Inv(r)
  {
    s.(phase := Menu)
  }

  /** A fresh round with n pairs (App.tsx:18-47, 93-129): shuffle the
      vocabulary, build the cards of its first n items, shuffle the cards,
      and reset everything else. */
  function NewRound(n: nat, vocabularyDraws: seq<int>, cardDraws: seq<int>): (r: State)
    requires ValidDraws(vocabularyDraws, |VOCABULARY|)
    requires ValidDraws(cardDraws, 2 * Min(n, |VOCABULARY|))
    ensures r.phase == Playing && r.pairCount == n
    ensures r.flipped == [] && r.matched == [] && r.score == 0 && r.attempts == 0 && !r.processing
    ensures |r.cards| == 2 * Min(n, |VOCABULARY|)
  {
    State(Playing, DealCards(VOCABULARY, n, vocabularyDraws, cardDraws), [], [], 0, 0, false, n)
  }

  /** What can happen to the game. */
  datatype Event =
    | CardClicked(card: GameCard)
    | PairFlipped
    | MismatchTimerFired
    | FinishTimerFired
    | StartPressed(pairs: nat, vocabularyDraws: seq<int>, cardDraws: seq<int>)
    | RestartPressed(vocabularyDraws: seq<int>, cardDraws: seq<int>)
    | MenuPressed

  /** When the model lets each event occur. Clicks come from the cards
      rendered on the game screen; the evaluation runs when two cards are
      flipped and no evaluation is pending; the start buttons are on the
      menu, restart and back to menu on the game and finished screens. The
      two timer events are the model's choice of enabling condition: the
      mismatch timer may fire while the lock is held over two cards, the
      completion timer once every pair is matched. The source's timers carry
      no such check, so a timer set in an earlier round is not covered. */
  predicate Enabled(s: State, e: Event) {
    match e
    case CardClicked(card) => s.phase == Playing && card in s.cards
    case PairFlipped => |s.flipped| == 2 && !s.processing
    case MismatchTimerFired => s.processing && |s.flipped| == 2
    case FinishTimerFired => |s.matched| > 0 && |s.matched| == s.pairCount
    case StartPressed(n, vd, cd) =>
      s.phase == Menu && ValidDraws(vd, |VOCABULARY|) && ValidDraws(cd, 2 * Min(n, |VOCABULARY|))
    case RestartPressed(vd, cd) =>
      s.phase != Menu && ValidDraws(vd, |VOCABULARY|) && ValidDraws(cd, 2 * Min(s.pairCount, |VOCABULARY|))
    case MenuPressed => s.phase != Menu
  }

  /** Apply one event. */
  function Step(s: State, e: Event): State
    requires Enabled(s, e)
  {
    match e
    case CardClicked(card) => Click(s, card)
    case PairFlipped => Evaluate(s)
    case MismatchTimerFired => ClearMismatch(s)
    case FinishTimerFired => Finish(s)
    case StartPressed(n, vd, cd) => NewRound(n, vd, cd)
    case RestartPressed(vd, cd) => NewRound(s.pairCount, vd, cd)
    case MenuPressed => BackToMenu(s)
  }

  /** Events that start a new round. */
  predicate StartsRound(e: Event) {
    e.StartPressed? || e.RestartPressed?
  }

  /** Apply events in order; None when one of them cannot occur. */
  function Run(s: State, events: seq<Event>): Option<State>
    decreases |events|
  {
    if |events| == 0 then Some(s)
    else if !Enabled(s, events[0]) then None
    else Run(Step(s, events[0]), events[1..])
  }

  /** What holds in every state the game can reach. */
  predicate Inv(s: State) {
    // at most two cards are face up, never the same card twice
    && |s.flipped| <= 2
    && Distinct(s.flipped)
    // a pair is recorded once, and each recorded pair was worth MATCH_REWARD
    && Distinct(s.matched)
    && s.score == MATCH_REWARD * |s.matched|
    // the board: cards are told apart by uniqueId and come from the vocabulary
    && Distinct(UniqueIds(s.cards))
    && (forall c :: c in s.cards ==> c.matchId in VocabularyIds())
    && |MatchIds(s.cards)| <= s.pairCount
    // every face-up card is on the board and not yet matched
    && (forall u :: u in s.flipped ==> FindCard(s.cards, u).Some? && FindCard(s.cards, u).value.matchId !in s.matched)
    // every matched pair is on the board
    && (forall m :: m in s.matched ==> m in MatchIds(s.cards))
    // the lock is only held over a pair of face-up cards
    && (s.processing ==> |s.flipped| == 2)
  }

  /** On the board of a new round, each selected item of the game's
      vocabulary shows up exactly once as a picture and once as a word. */
  lemma NewRoundPairsOnBoard(n: nat, vocabularyDraws: seq<int>, cardDraws: seq<int>)
    requires ValidDraws(vocabularyDraws, |VOCABULARY|)
    requires ValidDraws(cardDraws, 2 * Min(n, |VOCABULARY|))
    ensures var keys := MapSeq(PairKey, NewRound(n, vocabularyDraws, cardDraws).cards);
      && Distinct(keys)
      && forall i :: 0 <= i < Min(n, |VOCABULARY|) ==>
           (SelectedIds(VOCABULARY, n, vocabularyDraws)[i], Image) in keys
           && (SelectedIds(VOCABULARY, n, vocabularyDraws)[i], Word) in keys
  {
    VocabularyShape();
    DealPairsOnBoard(VOCABULARY, n, vocabularyDraws, cardDraws);
  }

  /** A new round satisfies the invariant. */
  lemma NewRoundInv(n: nat, vocabularyDraws: seq<int>, cardDraws: seq<int>)
    requires ValidDraws(vocabularyDraws, |VOCABULARY|)
    requires ValidDraws(cardDraws, 2 * Min(n, |VOCABULARY|))
    ensures Inv(NewRound(n, vocabularyDraws, cardDraws))
  {
    var r := NewRound(n, vocabularyDraws, cardDraws);
    assert r.cards == DealCards(VOCABULARY, n, vocabularyDraws, cardDraws);
    assert Distinct(UniqueIds(r.cards)) by {
      DealUniqueIds(VOCABULARY, n, vocabularyDraws, cardDraws);
    }
    assert forall c :: c in r.cards ==> c.matchId in VocabularyIds() by {
      DealFromVocabulary(VOCABULARY, n, vocabularyDraws, cardDraws);
    }
    assert |MatchIds(r.cards)| <= r.pairCount by {
      DealPairBound(VOCABULARY, n, vocabularyDraws, cardDraws);
    }
  }

  lemma ClickKeepsInv(s: State, card: GameCard)
    requires Inv(s) && card in s.cards
    ensures Inv(Click(s, card))
  {
  }

  lemma EvaluateKeepsInv(s: State)
    requires Inv(s)
    ensures Inv(Evaluate(s))
  {
  }

  /** The "should not happen" branch of the evaluation is indeed dead: both
      flipped uniqueIds are always found on the board. */
  lemma MissingCardUnreachable(s: State)
    requires Inv(s) && |s.flipped| == 2
    ensures FlippedPair(s).Some?
  {
  }

  /** Every event the game can receive keeps the invariant. */
  lemma StepKeepsInv(s: State, e: Event)
    requires Inv(s) && Enabled(s, e)
    ensures Inv(Step(s, e))
  {
    match e
    case CardClicked(card) => ClickKeepsInv(s, card);
    case PairFlipped => EvaluateKeepsInv(s);
    case MismatchTimerFired =>
    case FinishTimerFired =>
    case StartPressed(n, vd, cd) => NewRoundInv(n, vd, cd);
    case RestartPressed(vd, cd) => NewRoundInv(s.pairCount, vd, cd);
    case MenuPressed =>
  }

  /** The invariant holds after any sequence of events that can occur. */
  lemma {:induction false} RunKeepsInv(s: State, events: seq<Event>)
    requires Inv(s)
    ensures Run(s, events).Some? ==> Inv(Run(s, events).value)
    decreases |events|
  {
    if |events| > 0 && Enabled(s, events[0]) {
      StepKeepsInv(s, events[0]);
      RunKeepsInv(Step(s, events[0]), events[1..]);
    }
  }

  /** Inside a round, matched only grows (the old list is a prefix of the new),
      score and attempts never fall, and the board and pair count stay fixed. */
  lemma StepWithinRound(s: State, e: Event)
    requires Enabled(s, e) && !StartsRound(e)
    ensures var r := Step(s, e);
      && s.matched <= r.matched
      && s.score <= r.score
      && s.attempts <= r.attempts
      && r.cards == s.cards
      && r.pairCount == s.pairCount
  {
  }

  lemma {:induction false} RunWithinRound(s: State, events: seq<Event>)
    requires forall k :: 0 <= k < |events| ==> !StartsRound(events[k])
    ensures Run(s, events).Some? ==>
      var r := Run(s, events).value;
      && s.matched <= r.matched
      && s.score <= r.score
      && s.attempts <= r.attempts
      && r.cards == s.cards
      && r.pairCount == s.pairCount
    decreases |events|
  {
    if |events| > 0 && Enabled(s, events[0]) {
      StepWithinRound(s, events[0]);
      RunWithinRound(Step(s, events[0]), events[1..]);
    }
  }

  /** Which event leads to which screen: starting or restarting opens the
      game screen, the completion timer the finished screen and the
      back-to-menu buttons the menu; every other event keeps the screen. */
  lemma StepPhase(s: State, e: Event)
    requires Enabled(s, e)
    ensures var r := Step(s, e);
      && (StartsRound(e) ==> r.phase == Playing)
      && (e.FinishTimerFired? ==> r.phase == Finished)
      && (e.MenuPressed? ==> r.phase == Menu)
      && (!StartsRound(e) && !e.FinishTimerFired? && !e.MenuPressed? ==> r.phase == s.phase)
  {
    match e
    case CardClicked(card) => assert Step(s, e).phase == Click(s, card).phase == s.phase;
    case PairFlipped => assert Step(s, e).phase == Evaluate(s).phase == s.phase;
    case MismatchTimerFired =>
    case FinishTimerFired =>
    case StartPressed(n, vd, cd) =>
    case RestartPressed(vd, cd) =>
    case MenuPressed =>
  }

  /** Start resets the round for the chosen pair count, restart for the
      current one: nothing matched, scored or attempted. */
  lemma StepStartsFreshRound(s: State, e: Event)
    requires Enabled(s, e) && StartsRound(e)
    ensures var r := Step(s, e);
      && r.matched == [] && r.flipped == [] && r.score == 0 && r.attempts == 0 && !r.processing
      && r.pairCount == (if e.StartPressed? then e.pairs else s.pairCount)
  {
    match e
    case StartPressed(n, vd, cd) =>
    case RestartPressed(vd, cd) =>
  }

  /** The completion timer and the back-to-menu buttons change the screen
      and nothing else: the round stays as it was. */
  lemma ScreenOnlyEvents(s: State, e: Event)
    requires Enabled(s, e) && (e == FinishTimerFired || e == MenuPressed)
    ensures Step(s, e) == s.(phase := if e == MenuPressed then Menu else Finished)
  {
  }

  /** The finished screen is only ever entered by the completion timer, and
      only when matched is non-empty and as long as the round's pair count. */
  lemma FinishOnlyWhenComplete(s: State, e: Event)
    requires Enabled(s, e) && s.phase != Finished && Step(s, e).phase == Finished
    ensures e == FinishTimerFired
    ensures |s.matched| > 0 && |s.matched| == s.pairCount
  {
  }

  /** When the completion timer can fire, every pair on the board is matched. */
  lemma FinishMeansBoardCleared(s: State)
    requires Inv(s) && Enabled(s, FinishTimerFired)
    ensures (set m | m in s.matched) == MatchIds(s.cards)
  {
    var found := set m | m in s.matched;
    ElementsCardinality(s.matched);
    assert found <= MatchIds(s.cards);
    if !(MatchIds(s.cards) <= found) {
      var x :| x in MatchIds(s.cards) && x !in found;
      SubsetCardinality(found + {x}, MatchIds(s.cards));
    }
  }

  /** `slice` truncates a request for more pairs than the vocabulary holds,
      but pairCount keeps the request, so such a round can never finish. */
  lemma OversizedRoundNeverFinishes(s: State)
    requires Inv(s) && s.pairCount > |VOCABULARY|
    ensures !Enabled(s, FinishTimerFired)
  {
    VocabularyShape();
    ElementsCardinality(s.matched);
    var found := set m | m in s.matched;
    forall m | m in found ensures m in VocabularyIds() {
      assert m in MatchIds(s.cards);
      var c :| c in s.cards && c.matchId == m;
    }
    SubsetCardinality(found, VocabularyIds());
  }

  /** `find` on a board with distinct uniqueIds returns the board card that
      holds the uniqueId. */
  lemma FindBoardCard(cards: seq<GameCard>, card: GameCard)
    requires Distinct(UniqueIds(cards)) && card in cards
    ensures FindCard(cards, card.uniqueId) == Some(card)
  {
    var k :| 0 <= k < |cards| && cards[k] == card;
    assert UniqueIds(cards)[k] == card.uniqueId;
  }

  /** Evaluating two flipped cards of the same pair records the pair at once. */
  lemma EvaluateMatchingPair(s: State, a: GameCard, b: GameCard)
    requires Distinct(UniqueIds(s.cards)) && a in s.cards && b in s.cards
    requires s.flipped == [a.uniqueId, b.uniqueId] && a.matchId == b.matchId
    ensures Evaluate(s) == s.(matched := s.matched + [a.matchId], score := s.score + MATCH_REWARD,
                              attempts := s.attempts + 1, flipped := [], processing := false)
  {
    assert FlippedPair(s) == Some((a, b)) by {
      FindBoardCard(s.cards, a);
      FindBoardCard(s.cards, b);
    }
  }

  /** Turning up the two cards of one pair and evaluating them scores the
      pair at once: both clicks are accepted, and the evaluation records the
      pair, rewards it, counts one attempt and leaves the board ready for the
      next click. */
  lemma MatchingPairScenario(s: State, a: GameCard, b: GameCard)
    requires Distinct(UniqueIds(s.cards))
    requires s.phase == Playing && s.flipped == [] && !s.processing
    requires a in s.cards && b in s.cards && a.uniqueId != b.uniqueId
    requires a.matchId == b.matchId && a.matchId !in s.matched
    ensures Enabled(s, CardClicked(a))
    ensures var s1 := Step(s, CardClicked(a));
      && s1 == s.(flipped := [a.uniqueId])
      && Enabled(s1, CardClicked(b))
      && var s2 := Step(s1, CardClicked(b));
      && s2 == s.(flipped := [a.uniqueId, b.uniqueId])
      && Enabled(s2, PairFlipped)
      && Step(s2, PairFlipped) ==
           s.(matched := s.matched + [a.matchId], score := s.score + MATCH_REWARD, attempts := s.attempts + 1)
  {
    EvaluateMatchingPair(s.(flipped := [a.uniqueId, b.uniqueId]), a, b);
  }

  /** A mismatched pair: the evaluation counts one attempt and keeps both cards
      up under the lock; only the timer then turns them down and unlocks. */
  lemma MismatchResolution(s: State)
    requires Enabled(s, PairFlipped)
    requires FlippedPair(s).Some? && FlippedPair(s).value.0.matchId != FlippedPair(s).value.1.matchId
    ensures var t := Step(s, PairFlipped);
      && t.flipped == s.flipped && t.processing
      && Enabled(t, MismatchTimerFired)
      && (forall card :: Click(t, card) == t)
      && var r := Step(t, MismatchTimerFired);
      && r.flipped == [] && !r.processing
      && r.attempts == s.attempts + 1
      && r.score == s.score && r.matched == s.matched
  {
  }
}
