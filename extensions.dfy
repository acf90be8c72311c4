/** The entity-to-view projection used by every read-side response. */
module Extensions {
  import opened Entities
  import opened Dtos

  /** Projects a stored item onto its read-side view. */
  function AsDto(item: Item): (dto: ItemDto)
    ensures dto.id == item.id && dto.name == item.name
    ensures dto.price == item.price && dto.createdDate == item.createdDate
  {
    ItemDto(item.id, item.name, item.price, item.createdDate)
  }

  /**
   * Two items have the same view exactly when they agree on identity, name,
   * price and creation date: the description is the one field the view drops.
   */
  lemma AsDtoAgreement(a: Item, b: Item)
    ensures AsDto(a) == AsDto(b) <==>
      a.id == b.id && a.name == b.name && a.price == b.price && a.createdDate == b.createdDate
  {
  }

  /** Changing only the description of an item does not change its view. */
  lemma AsDtoIgnoresDescription(item: Item, description: Wrappers.Option<string>)
    ensures AsDto(item.(description := description)) == AsDto(item)
  {
  }
}
