/** The data shapes of the memory game: vocabulary items, the cards built
    from them and the screen the game is showing (types.ts). */
module Types {

  /** Result of a lookup that may find nothing (`Array.prototype.find`). */
  datatype Option<T> = None | Some(value: T)

  datatype ItemCategory = Food | Drink | Nature

  /** One entry of the vocabulary; `id` doubles as the matchId of its two cards. */
  datatype VocabularyItem = VocabularyItem(id: string, word: string, category: ItemCategory, imageUrl: string)

  /** The `type` field of a card: `'image' | 'word'`. */
  datatype CardKind = Image | Word

  /** A card on the board. `content` is the image URL of an Image card and the
      word of a Word card; `item` is the vocabulary item it was built from. */
  datatype GameCard = GameCard(uniqueId: string, matchId: string, kind: CardKind, content: string, item: VocabularyItem)

  /** The `GameState` union: which screen is shown. */
  datatype Phase = Menu | Playing | Finished
}
