/** The wire shapes the controller reads and writes. */
module Dtos {
  import opened Wrappers
  import opened Entities

  /**
   * The read-side view: identity, name, price and creation date. It is given
   * no description because AsDto never sets one; a view that had one would
   * always carry null.
   */
  datatype ItemDto = ItemDto(id: Guid, name: string, price: real, createdDate: DateTimeOffset)

  /** The body of a create request: no identity and no creation date. */
  datatype CreateItemDto = CreateItemDto(name: string, description: Option<string>, price: real)

  /** The body of an update request; the identity comes from the route. */
  datatype UpdateItemDto = UpdateItemDto(name: string, description: Option<string>, price: real)
}
