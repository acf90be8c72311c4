/**
 * Request sequences against a controller over the in-memory repository,
 * proved from the handlers' contracts alone: what a client of the catalog
 * can rely on across several calls.
 */
module CatalogScenarios {
  import opened Wrappers
  import opened Entities
  import opened Dtos
  import opened Extensions
  import opened Repositories
  import opened Controllers

  /** A freshly seeded catalog lists Potion/9, Sword/20 and Shield/18, in that order. */
  method ListSeededCatalog(potionId: Guid, swordId: Guid, shieldId: Guid) returns (dtos: seq<ItemDto>)
    requires potionId != swordId && potionId != shieldId && swordId != shieldId
    ensures |dtos| == 3
    ensures dtos[0] == ItemDto(potionId, "Potion", 9.0, FixtureDate())
    ensures dtos[1] == ItemDto(swordId, "Sword", 20.0, FixtureDate())
    ensures dtos[2] == ItemDto(shieldId, "Shield", 18.0, FixtureDate())
  {
    var repository := new InMemItemsRepository(potionId, swordId, shieldId);
    var controller := new ItemsController(repository);
    dtos := controller.GetItems();
  }

  /** Reading an item right after creating it yields the view that the create answered with. */
  method CreateThenGet(controller: ItemsController, itemDto: CreateItemDto, newId: Guid, now: DateTimeOffset)
    returns (created: ActionResult, fetched: ActionResult)
    requires !HasId(controller.repository.items, newId) && now.offsetMinutes == 0
    modifies controller.repository
    ensures created == Created(ItemDto(newId, itemDto.name, itemDto.price, now))
    ensures fetched == Ok(created.dto)
  {
    ghost var before := controller.repository.items;
    created := controller.CreateItem(itemDto, newId, now);
    IndexOfAppendAbsent(before, NewItem(itemDto, newId, now), newId);
    fetched := controller.GetItem(newId);
  }

  /**
   * Create, then update the new item, then read it: the read shows the
   * update's name and price with the identity and creation date the create
   * assigned.
   */
  method CreateUpdateGet(
    controller: ItemsController, itemDto: CreateItemDto, update: UpdateItemDto,
    newId: Guid, now: DateTimeOffset)
    returns (updated: ActionResult, fetched: ActionResult)
    requires !HasId(controller.repository.items, newId) && now.offsetMinutes == 0
    modifies controller.repository
    ensures updated == NoContent
    ensures fetched == Ok(ItemDto(newId, update.name, update.price, now))
    ensures controller.repository.items ==
      old(controller.repository.items) + [Item(newId, update.name, update.description, update.price, now)]
  {
    ghost var before := controller.repository.items;
    ghost var item := NewItem(itemDto, newId, now);
    var _ := controller.CreateItem(itemDto, newId, now);
    IndexOfAppendAbsent(before, item, newId);
    updated := controller.UpdateItem(newId, update);
    ghost var after := before + [Updated(item, update)];
    assert controller.repository.items == after;
    IndexOfAppendAbsent(before, Updated(item, update), newId);
    fetched := controller.GetItem(newId);
  }

  /** With distinct identities, deleting an item twice answers NoContent and then NotFound. */
  method DeleteTwice(controller: ItemsController, id: Guid) returns (first: ActionResult, second: ActionResult)
    requires UniqueIds(controller.repository.items) && HasId(controller.repository.items, id)
    modifies controller.repository
    ensures first == NoContent && second == NotFound
    ensures |controller.repository.items| == |old(controller.repository.items)| - 1
  {
    first := controller.DeleteItem(id);
    second := controller.DeleteItem(id);
  }

  /** For an identity no stored item has, get, update and delete all answer NotFound and change nothing. */
  method AbsentIdIsNotFound(controller: ItemsController, id: Guid, update: UpdateItemDto)
    returns (fetched: ActionResult, updated: ActionResult, deleted: ActionResult)
    requires !HasId(controller.repository.items, id)
    modifies controller.repository
    ensures fetched == NotFound && updated == NotFound && deleted == NotFound
    ensures controller.repository.items == old(controller.repository.items)
  {
    fetched := controller.GetItem(id);
    updated := controller.UpdateItem(id, update);
    deleted := controller.DeleteItem(id);
  }
}
