/** Dealing the board of a round (App.tsx:19-40, repeated at 101-122):
    shuffle the vocabulary, build the cards of its first n items, shuffle
    the cards. Everything here holds for any vocabulary, and for the lemmas
    about pairs, any vocabulary whose ids are pairwise distinct; the game
    deals from VOCABULARY. */
module Deal {
  import opened Types
  import opened SeqFacts
  import opened FisherYates
  import opened Vocabulary
  import opened RoundBuilder

  /** The cards built from the shuffled vocabulary, before the card shuffle. */
  function Built(vocabulary: seq<VocabularyItem>, n: nat, vocabularyDraws: seq<int>): seq<GameCard>
    requires ValidDraws(vocabularyDraws, |vocabulary|)
  {
    BuildCards(n, Shuffle(vocabulary, vocabularyDraws))
  }

  /** The ids of the items a round selects, in selection order. */
  function SelectedIds(vocabulary: seq<VocabularyItem>, n: nat, vocabularyDraws: seq<int>): seq<string>
    requires ValidDraws(vocabularyDraws, |vocabulary|)
  {
    Ids(Select(n, Shuffle(vocabulary, vocabularyDraws)))
  }

  /** The board of a round with n pairs: a permutation of the built cards,
      two per selected item. */
  function DealCards(vocabulary: seq<VocabularyItem>, n: nat, vocabularyDraws: seq<int>, cardDraws: seq<int>): (cards: seq<GameCard>)
    requires ValidDraws(vocabularyDraws, |vocabulary|)
    requires ValidDraws(cardDraws, 2 * Min(n, |vocabulary|))
    ensures |cards| == 2 * Min(n, |vocabulary|)
    ensures multiset(cards) == multiset(Built(vocabulary, n, vocabularyDraws))
  {
    Shuffle(Built(vocabulary, n, vocabularyDraws), cardDraws)
  }

  /** Shuffling a vocabulary keeps its ids pairwise distinct. */
  lemma ShuffledIdsDistinct(vocabulary: seq<VocabularyItem>, vocabularyDraws: seq<int>)
    requires ValidDraws(vocabularyDraws, |vocabulary|)
    requires Distinct(Ids(vocabulary))
    ensures Distinct(Ids(Shuffle(vocabulary, vocabularyDraws)))
  {
    ShuffleMap(ItemId, vocabulary, vocabularyDraws);
    ShuffleKeepsDistinct(Ids(vocabulary), vocabularyDraws);
  }

  /** The dealt cards have pairwise distinct uniqueIds: distinct when built,
      and the shuffle moves each uniqueId along with its card. */
  lemma DealUniqueIds(vocabulary: seq<VocabularyItem>, n: nat, vocabularyDraws: seq<int>, cardDraws: seq<int>)
    requires ValidDraws(vocabularyDraws, |vocabulary|)
    requires ValidDraws(cardDraws, 2 * Min(n, |vocabulary|))
    ensures Distinct(UniqueIds(DealCards(vocabulary, n, vocabularyDraws, cardDraws)))
  {
    var built := Built(vocabulary, n, vocabularyDraws);
    BuildCardsUniqueIds(n, Shuffle(vocabulary, vocabularyDraws));
    ShuffleMap(CardUniqueId, built, cardDraws);
    ShuffleKeepsDistinct(UniqueIds(built), cardDraws);
  }

  /** Every dealt card belongs to one of the selected items, and so to the
      vocabulary. */
  lemma DealFromVocabulary(vocabulary: seq<VocabularyItem>, n: nat, vocabularyDraws: seq<int>, cardDraws: seq<int>)
    requires ValidDraws(vocabularyDraws, |vocabulary|)
    requires ValidDraws(cardDraws, 2 * Min(n, |vocabulary|))
    ensures forall c :: c in DealCards(vocabulary, n, vocabularyDraws, cardDraws) ==>
      c.matchId in IdSet(vocabulary) && c.matchId in SelectedIds(vocabulary, n, vocabularyDraws)
  {
    var shuffled := Shuffle(vocabulary, vocabularyDraws);
    var items := Select(n, shuffled);
    var built := Built(vocabulary, n, vocabularyDraws);
    var cards := DealCards(vocabulary, n, vocabularyDraws, cardDraws);
    BuildCardsFromSelection(n, shuffled);
    forall c | c in cards
      ensures c.matchId in IdSet(vocabulary) && c.matchId in SelectedIds(vocabulary, n, vocabularyDraws)
    {
      assert c in multiset(built);
      assert c in built;
      assert c.item in items;
      var k :| 0 <= k < |items| && items[k] == c.item;
      assert c.item in multiset(shuffled);
      assert c.item in vocabulary;
      assert SelectedIds(vocabulary, n, vocabularyDraws)[k] == c.matchId;
    }
  }

  /** A deal for n pairs shows at most n distinct matchIds. */
  lemma DealPairBound(vocabulary: seq<VocabularyItem>, n: nat, vocabularyDraws: seq<int>, cardDraws: seq<int>)
    requires ValidDraws(vocabularyDraws, |vocabulary|)
    requires ValidDraws(cardDraws, 2 * Min(n, |vocabulary|))
    ensures |MatchIds(DealCards(vocabulary, n, vocabularyDraws, cardDraws))| <= n
  {
    var ids := SelectedIds(vocabulary, n, vocabularyDraws);
    var shown := MatchIds(DealCards(vocabulary, n, vocabularyDraws, cardDraws));
    DealFromVocabulary(vocabulary, n, vocabularyDraws, cardDraws);
    assert shown <= set x | x in ids;
    ElementsCardinality(ids);
    SubsetCardinality(shown, set x | x in ids);
  }

  /** The sides shown on the dealt board are the shuffle of the sides of the
      built cards. */
  lemma DealKeys(vocabulary: seq<VocabularyItem>, n: nat, vocabularyDraws: seq<int>, cardDraws: seq<int>)
    requires ValidDraws(vocabularyDraws, |vocabulary|)
    requires ValidDraws(cardDraws, 2 * Min(n, |vocabulary|))
    ensures MapSeq(PairKey, DealCards(vocabulary, n, vocabularyDraws, cardDraws))
      == Shuffle(MapSeq(PairKey, Built(vocabulary, n, vocabularyDraws)), cardDraws)
  {
    ShuffleMap(PairKey, Built(vocabulary, n, vocabularyDraws), cardDraws);
  }

  /** The i-th selected item's picture and word are both on the dealt board. */
  lemma DealShowsItem(vocabulary: seq<VocabularyItem>, n: nat, vocabularyDraws: seq<int>, cardDraws: seq<int>, i: nat)
    requires ValidDraws(vocabularyDraws, |vocabulary|)
    requires ValidDraws(cardDraws, 2 * Min(n, |vocabulary|))
    requires i < Min(n, |vocabulary|)
    ensures var keys := MapSeq(PairKey, DealCards(vocabulary, n, vocabularyDraws, cardDraws));
      var id := SelectedIds(vocabulary, n, vocabularyDraws)[i];
      (id, Image) in keys && (id, Word) in keys
  {
    var id := SelectedIds(vocabulary, n, vocabularyDraws)[i];
    var builtKeys := MapSeq(PairKey, Built(vocabulary, n, vocabularyDraws));
    var keys := MapSeq(PairKey, DealCards(vocabulary, n, vocabularyDraws, cardDraws));
    DealKeys(vocabulary, n, vocabularyDraws, cardDraws);
    assert multiset(keys) == multiset(builtKeys);
    assert builtKeys[2 * i] == (id, Image);
    assert builtKeys[2 * i + 1] == (id, Word);
    assert builtKeys[2 * i] in multiset(keys) && builtKeys[2 * i + 1] in multiset(keys);
  }

  /** When the vocabulary's ids are distinct, each selected item shows up on
      the dealt board exactly once as a picture and once as a word: both
      cards are there, and no two cards show the same side of the same item. */
  lemma DealPairsOnBoard(vocabulary: seq<VocabularyItem>, n: nat, vocabularyDraws: seq<int>, cardDraws: seq<int>)
    requires ValidDraws(vocabularyDraws, |vocabulary|)
    requires ValidDraws(cardDraws, 2 * Min(n, |vocabulary|))
    requires Distinct(Ids(vocabulary))
    ensures var keys := MapSeq(PairKey, DealCards(vocabulary, n, vocabularyDraws, cardDraws));
      && Distinct(keys)
      && forall i :: 0 <= i < Min(n, |vocabulary|) ==>
           (SelectedIds(vocabulary, n, vocabularyDraws)[i], Image) in keys
           && (SelectedIds(vocabulary, n, vocabularyDraws)[i], Word) in keys
  {
    assert Distinct(MapSeq(PairKey, DealCards(vocabulary, n, vocabularyDraws, cardDraws))) by {
      DealKeys(vocabulary, n, vocabularyDraws, cardDraws);
      ShuffledIdsDistinct(vocabulary, vocabularyDraws);
      BuildCardsPairKeysDistinct(n, Shuffle(vocabulary, vocabularyDraws));
      ShuffleKeepsDistinct(MapSeq(PairKey, Built(vocabulary, n, vocabularyDraws)), cardDraws);
    }
    forall i | 0 <= i < Min(n, |vocabulary|)
      ensures var keys := MapSeq(PairKey, DealCards(vocabulary, n, vocabularyDraws, cardDraws));
        (SelectedIds(vocabulary, n, vocabularyDraws)[i], Image) in keys
        && (SelectedIds(vocabulary, n, vocabularyDraws)[i], Word) in keys
    {
      DealShowsItem(vocabulary, n, vocabularyDraws, cardDraws, i);
    }
  }
}
