/** The static game data of constants.ts: the pair count a fresh session
    starts with and the eighteen vocabulary items. */
module Vocabulary {
  import opened Types
  import opened SeqFacts

  /** Pairs per round before the player picks a difficulty. */
  const ITEMS_PER_ROUND: nat := 6

  /** Entry k of the vocabulary array of constants.ts:9-30, assembled from
      the four columns below. The columns are kept apart so that a proof
      about the ids never has to look at the words or the image URLs. */
  function Entry(k: int): VocabularyItem
    requires 0 <= k < 18
  {
    VocabularyItem(EntryId(k), EntryWord(k), EntryCategory(k), EntryImage(k))
  }

  /** The `id` of entry k. */
  function EntryId(k: int): string
    requires 0 <= k < 18
  {
    if k == 0 then "apple"
    else if k == 1 then "banana"
    else if k == 2 then "bread"
    else if k == 3 then "cake"
    else if k == 4 then "candy"
    else if k == 5 then "chicken"
    else if k == 6 then "fish"
    else if k == 7 then "icecream"
    else if k == 8 then "orange"
    else if k == 9 then "rice"
    else if k == 10 then "juice"
    else if k == 11 then "milk"
    else if k == 12 then "water"
    else if k == 13 then "flower"
    else if k == 14 then "grass"
    else if k == 15 then "lake"
    else if k == 16 then "river"
    else "tree"
  }

  /** The `word` of entry k. */
  function EntryWord(k: int): string
    requires 0 <= k < 18
  {
    if k == 0 then "Apple"
    else if k == 1 then "Banana"
    else if k == 2 then "Bread"
    else if k == 3 then "Cake"
    else if k == 4 then "Candy"
    else if k == 5 then "Chicken"
    else if k == 6 then "Fish"
    else if k == 7 then "Ice Cream"
    else if k == 8 then "Orange"
    else if k == 9 then "Rice"
    else if k == 10 then "Juice"
    else if k == 11 then "Milk"
    else if k == 12 then "Water"
    else if k == 13 then "Flower"
    else if k == 14 then "Grass"
    else if k == 15 then "Lake"
    else if k == 16 then "River"
    else "Tree"
  }

  /** The `category` of entry k. */
  function EntryCategory(k: int): ItemCategory
    requires 0 <= k < 18
  {
    if k == 0 then Food
    else if k == 1 then Food
    else if k == 2 then Food
    else if k == 3 then Food
    else if k == 4 then Food
    else if k == 5 then Food
    else if k == 6 then Food
    else if k == 7 then Food
    else if k == 8 then Food
    else if k == 9 then Food
    else if k == 10 then Drink
    else if k == 11 then Drink
    else if k == 12 then Drink
    else if k == 13 then Nature
    else if k == 14 then Nature
    else if k == 15 then Nature
    else if k == 16 then Nature
    else Nature
  }

  /** The `imageUrl` of entry k. */
  function EntryImage(k: int): string
    requires 0 <= k < 18
  {
    if k == 0 then "https://picsum.photos/seed/apple_food/200/200"
    else if k == 1 then "https://picsum.photos/seed/banana_fruit/200/200"
    else if k == 2 then "https://picsum.photos/seed/bread_loaf/200/200"
    else if k == 3 then "https://picsum.photos/seed/cake_slice/200/200"
    else if k == 4 then "https://picsum.photos/seed/candy_sweet/200/200"
    else if k == 5 then "https://picsum.photos/seed/chicken_drumstick/200/200"
    else if k == 6 then "https://picsum.photos/seed/fish_blue/200/200"
    else if k == 7 then "https://picsum.photos/seed/icecream_cone/200/200"
    else if k == 8 then "https://picsum.photos/seed/orange_fruit/200/200"
    else if k == 9 then "https://picsum.photos/seed/rice_bowl/200/200"
    else if k == 10 then "https://picsum.photos/seed/juice_box/200/200"
    else if k == 11 then "https://picsum.photos/seed/milk_carton/200/200"
    else if k == 12 then "https://picsum.photos/seed/water_glass/200/200"
    else if k == 13 then "https://picsum.photos/seed/flower_red/200/200"
    else if k == 14 then "https://picsum.photos/seed/grass_field/200/200"
    else if k == 15 then "https://picsum.photos/seed/lake_mountain/200/200"
    else if k == 16 then "https://picsum.photos/seed/river_stream/200/200"
    else "https://picsum.photos/seed/tree_green/200/200"
  }

  /** The vocabulary: eighteen items in three categories. */
  const VOCABULARY: seq<VocabularyItem> := Entries()

  /** Proof helper: the entries in order, index for index. */
  function Entries(): (items: seq<VocabularyItem>)
    ensures |items| == 18
    ensures forall k :: 0 <= k < 18 ==> items[k] == Entry(k)
  {
    seq(18, Entry)
  }

  function ItemId(item: VocabularyItem): string {
    item.id
  }

  /** The ids of a list of items, in order. */
  function Ids(items: seq<VocabularyItem>): seq<string> {
    MapSeq(ItemId, items)
  }

  /** The ids of a list of items, as a set. */
  function IdSet(items: seq<VocabularyItem>): set<string> {
    set item | item in items :: item.id
  }

  /** Every id the vocabulary knows. */
  function VocabularyIds(): set<string> {
    IdSet(VOCABULARY)
  }

  /** Proof helper, not part of the game: a cheap fingerprint of an id (its
      first letter and its length), used only to show that the 18 ids are
      pairwise distinct without comparing every pair of strings. */
  function Fingerprint(id: string): int {
    if |id| == 0 then 0 else 100 * (id[0] as int) + |id|
  }

  /** Proof helper: the position in the vocabulary of the id with fingerprint f,
      and -1 for a fingerprint no id has. */
  function FingerprintIndex(f: int): int {
    if f == 9705 then 0
    else if f == 9806 then 1
    else if f == 9805 then 2
    else if f == 9904 then 3
    else if f == 9905 then 4
    else if f == 9907 then 5
    else if f == 10204 then 6
    else if f == 10508 then 7
    else if f == 11106 then 8
    else if f == 11404 then 9
    else if f == 10605 then 10
    else if f == 10904 then 11
    else if f == 11905 then 12
    else if f == 10206 then 13
    else if f == 10305 then 14
    else if f == 10804 then 15
    else if f == 11405 then 16
    else if f == 11604 then 17
    else -1
  }

  /** Entry k's id is told apart by its fingerprint: the fingerprint leads
      back to k. */
  lemma EntryFingerprint(k: int)
    requires 0 <= k < 18
    ensures FingerprintIndex(Fingerprint(EntryId(k))) == k
  {
  }

  /** The vocabulary holds eighteen items whose ids are pairwise distinct. */
  lemma VocabularyShape()
    ensures |VOCABULARY| == 18
    ensures Distinct(Ids(VOCABULARY))
    ensures |VocabularyIds()| == 18
  {
    var ids := Ids(VOCABULARY);
    forall p, q | 0 <= p < q < 18 ensures ids[p] != ids[q] {
      EntryFingerprint(p);
      EntryFingerprint(q);
    }
    assert VocabularyIds() == set x | x in ids;
    ElementsCardinality(ids);
  }
}
