/** Round construction of App.tsx (`initializeGame`, lines 18-47, and the
    copy in `handleStartGame`, lines 93-129): take the first n items of an
    already shuffled vocabulary and expand each into an image card and a
    word card. */
module RoundBuilder {
  import opened Types
  import opened SeqFacts
  import opened CardIds
  import opened Vocabulary

  /** The image card of the item at position index of the selection (App.tsx:24-30). */
  function ImageCard(item: VocabularyItem, index: nat): GameCard {
    GameCard(UniqueId(CardTag(item.id, Image, index)), item.id, Image, item.imageUrl, item)
  }

  /** The word card of the item at position index of the selection (App.tsx:31-37). */
  function WordCard(item: VocabularyItem, index: nat): GameCard {
    GameCard(UniqueId(CardTag(item.id, Word, index)), item.id, Word, item.word, item)
  }

  /** The `forEach` loop: item i pushes its image card, then its word card. */
  function Expand(items: seq<VocabularyItem>): (cards: seq<GameCard>)
    ensures |cards| == 2 * |items|
    ensures forall i :: 0 <= i < |items| ==> cards[2 * i] == ImageCard(items[i], i)
    ensures forall i :: 0 <= i < |items| ==> cards[2 * i + 1] == WordCard(items[i], i)
    decreases |items|
  {
    if |items| == 0 then []
    else
      var last := |items| - 1;
      Expand(items[..last]) + [ImageCard(items[last], last), WordCard(items[last], last)]
  }

  /** `shuffledVocabulary.slice(0, n)`: the first n items, or all of them when
      there are fewer. */
  function Select(n: nat, vocabulary: seq<VocabularyItem>): (items: seq<VocabularyItem>)
    ensures |items| <= n && |items| <= |vocabulary|
    ensures n <= |vocabulary| ==> |items| == n
    ensures n >= |vocabulary| ==> items == vocabulary
    ensures forall i :: 0 <= i < |items| ==> items[i] == vocabulary[i]
  {
    vocabulary[..Min(n, |vocabulary|)]
  }

  /** The cards of a round with n pairs, before they are shuffled. A round
      with n pairs holds 2 * min(n, |vocabulary|) cards; for the i-th selected
      item, position 2i holds its image card and 2i+1 its word card, both with
      the item's id as matchId, its image URL or its word as content, and a
      uniqueId that encodes (id, kind, i). */
  function BuildCards(n: nat, vocabulary: seq<VocabularyItem>): (cards: seq<GameCard>)
    ensures |cards| == 2 * Min(n, |vocabulary|)
    ensures forall i :: 0 <= i < Min(n, |vocabulary|) ==>
      && cards[2 * i].item == vocabulary[i]
      && cards[2 * i].matchId == vocabulary[i].id
      && cards[2 * i].kind == Image
      && cards[2 * i].content == vocabulary[i].imageUrl
      && cards[2 * i].uniqueId == UniqueId(CardTag(vocabulary[i].id, Image, i))
    ensures forall i :: 0 <= i < Min(n, |vocabulary|) ==>
      && cards[2 * i + 1].item == vocabulary[i]
      && cards[2 * i + 1].matchId == vocabulary[i].id
      && cards[2 * i + 1].kind == Word
      && cards[2 * i + 1].content == vocabulary[i].word
      && cards[2 * i + 1].uniqueId == UniqueId(CardTag(vocabulary[i].id, Word, i))
  {
    Expand(Select(n, vocabulary))
  }

  function CardUniqueId(card: GameCard): string {
    card.uniqueId
  }

  /** The uniqueIds of a list of cards, in order. */
  function UniqueIds(cards: seq<GameCard>): seq<string> {
    MapSeq(CardUniqueId, cards)
  }

  /** The matchIds shown on a list of cards, as a set. */
  function MatchIds(cards: seq<GameCard>): set<string> {
    set c | c in cards :: c.matchId
  }

  /** What tells the two cards of a pair apart from all other cards: the
      item they show and which side of the pair they are. */
  function PairKey(card: GameCard): (string, CardKind) {
    (card.matchId, card.kind)
  }

  /** Proof helper: every position of a card list of even length belongs to
      one pair slot. It is k / 2 with the division kept out of the proofs
      that use it, which would otherwise cost the solver far more. */
  lemma PairSlot(k: nat) returns (i: nat)
    ensures k == 2 * i || k == 2 * i + 1
  {
    i := k / 2;
  }

  /** No two cards of a round share a uniqueId, for any vocabulary: cards
      of different items differ in their index and the two cards of one item
      differ in their kind. */
  lemma BuildCardsUniqueIds(n: nat, vocabulary: seq<VocabularyItem>)
    ensures Distinct(UniqueIds(BuildCards(n, vocabulary)))
  {
    var items := Select(n, vocabulary);
    var ids := UniqueIds(Expand(items));
    forall p, q | 0 <= p < q < |ids| ensures ids[p] != ids[q] {
      var tp := ExpandUniqueId(items, p);
      var tq := ExpandUniqueId(items, q);
      UniqueIdInjective(tp, tq);
    }
  }


  /** When the vocabulary's ids are distinct, the i-th selected item's id is
      the matchId of exactly two cards: the image card at 2i and the word card
      at 2i+1. */
  lemma BuildCardsOnePairPerItem(n: nat, vocabulary: seq<VocabularyItem>, i: nat)
    requires Distinct(Ids(vocabulary))
    requires i < Min(n, |vocabulary|)
    ensures var cards := BuildCards(n, vocabulary);
      && cards[2 * i].matchId == vocabulary[i].id && cards[2 * i].kind == Image
      && cards[2 * i + 1].matchId == vocabulary[i].id && cards[2 * i + 1].kind == Word
      && forall k :: 0 <= k < |cards| && cards[k].matchId == vocabulary[i].id ==> k == 2 * i || k == 2 * i + 1
  {
    var cards := BuildCards(n, vocabulary);
    var ids := Ids(vocabulary);
    forall k | 0 <= k < |cards| && cards[k].matchId == vocabulary[i].id
      ensures k == 2 * i || k == 2 * i + 1
    {
      var h := PairSlot(k);
      assert ids[h] == ids[i];
    }
  }

  /** Every card of a round is built from one of the selected items and
      carries that item's id as its matchId. */
  lemma BuildCardsFromSelection(n: nat, vocabulary: seq<VocabularyItem>)
    ensures forall c :: c in BuildCards(n, vocabulary) ==> c.item in Select(n, vocabulary) && c.matchId == c.item.id
  {
    var items := Select(n, vocabulary);
    var cards := BuildCards(n, vocabulary);
    forall c | c in cards ensures c.item in items && c.matchId == c.item.id {
      var k :| 0 <= k < |cards| && cards[k] == c;
      var i := PairSlot(k);
      assert c.item == items[i];
    }
  }

  /** Card p of the expanded items carries the uniqueId of the tag it returns:
      item p / 2, its picture when p is even and its word when p is odd. */
  lemma ExpandUniqueId(items: seq<VocabularyItem>, p: nat) returns (t: CardTag)
    requires p < 2 * |items|
    ensures t.index < |items| && (p == 2 * t.index || p == 2 * t.index + 1)
    ensures t.kind == (if p == 2 * t.index then Image else Word)
    ensures UniqueIds(Expand(items))[p] == UniqueId(t)
  {
    var i := PairSlot(p);
    t := CardTag(items[i].id, if p == 2 * i then Image else Word, i);
  }

  /** Card p of the expanded items shows item p / 2: its picture when p is
      even and its word when p is odd. */
  lemma ExpandPairKey(items: seq<VocabularyItem>, p: nat) returns (i: nat)
    requires p < 2 * |items|
    ensures i < |items| && (p == 2 * i || p == 2 * i + 1)
    ensures MapSeq(PairKey, Expand(items))[p] == (items[i].id, if p == 2 * i then Image else Word)
  {
    i := PairSlot(p);
  }

  /** When the vocabulary's ids are distinct, no two cards of a round show
      the same side of the same item. */
  lemma BuildCardsPairKeysDistinct(n: nat, vocabulary: seq<VocabularyItem>)
    requires Distinct(Ids(vocabulary))
    ensures Distinct(MapSeq(PairKey, BuildCards(n, vocabulary)))
  {
    var items := Select(n, vocabulary);
    var keys := MapSeq(PairKey, Expand(items));
    var ids := Ids(vocabulary);
    forall p, q | 0 <= p < q < |keys| ensures keys[p] != keys[q] {
      var i := ExpandPairKey(items, p);
      var j := ExpandPairKey(items, q);
      if i != j {
        assert ids[i] == items[i].id && ids[j] == items[j].id;
      }
    }
  }
}
