/**
 * The catalog's HTTP resource handlers over the in-memory repository. Every
 * handler that addresses one item fetches it first and answers NotFound when
 * the repository has none; that guard is what keeps the repository's update
 * and delete away from their out-of-range exception. The fresh identity and
 * the current time, which the source draws from Guid.NewGuid() and
 * DateTimeOffset.UtcNow, are parameters.
 */
module Controllers {
  import opened Wrappers
  import opened Entities
  import opened Dtos
  import opened Extensions
  import opened Repositories

  /** The kinds of response the handlers produce. */
  datatype ActionResult = NotFound | NoContent | Ok(dto: ItemDto) | Created(dto: ItemDto)

  /** The item a create request becomes: the request's fields, the server's identity and time. */
  function NewItem(itemDto: CreateItemDto, id: Guid, now: DateTimeOffset): (item: Item)
    ensures item.id == id && item.createdDate == now
    ensures item.name == itemDto.name && item.description == itemDto.description
    ensures item.price == itemDto.price
  {
    Item(id, itemDto.name, itemDto.description, itemDto.price, now)
  }

  /** `item` with its mutable fields replaced by an update request's, its identity and creation date kept. */
  function Updated(item: Item, itemDto: UpdateItemDto): (r: Item)
    ensures r.id == item.id && r.createdDate == item.createdDate
    ensures r.name == itemDto.name && r.description == itemDto.description
    ensures r.price == itemDto.price
  {
    item.(name := itemDto.name, description := itemDto.description, price := itemDto.price)
  }

  class ItemsController {
    const repository: InMemItemsRepository

    constructor (repository: InMemItemsRepository)
      ensures this.repository == repository
    {
      this.repository := repository;
    }

    /** One view per stored item, in the repository's order. */
    method GetItems() returns (dtos: seq<ItemDto>)
      ensures |dtos| == |repository.items|
      ensures forall i :: 0 <= i < |dtos| ==> dtos[i] == AsDto(repository.items[i])
    {
      var items := repository.GetItems();
      dtos := seq(|items|, i requires 0 <= i < |items| => AsDto(items[i]));
    }

    /** NotFound exactly when no stored item has `id`; otherwise the view of the first one that does. */
    method GetItem(id: Guid) returns (result: ActionResult)
      ensures result == NotFound <==> !HasId(repository.items, id)
      ensures result != NotFound ==> result == Ok(AsDto(repository.items[IndexOf(repository.items, id)]))
    {
      var item := repository.GetItem(id);
      if item.None? {
        return NotFound;
      }
      return Ok(AsDto(item.value));
    }

    /**
     * Stores a new item built from the request, the fresh identity and the
     * time, and answers Created with its view. The time is the current UTC
     * instant, so its offset is zero.
     */
    method CreateItem(itemDto: CreateItemDto, newId: Guid, now: DateTimeOffset) returns (result: ActionResult)
      requires !HasId(repository.items, newId)
      requires now.offsetMinutes == 0
      modifies repository
      ensures repository.items == old(repository.items) + [NewItem(itemDto, newId, now)]
      ensures result == Created(AsDto(NewItem(itemDto, newId, now)))
      ensures UniqueIds(old(repository.items)) ==> UniqueIds(repository.items)
    {
      var item := NewItem(itemDto, newId, now);
      repository.CreateItem(item);
      if UniqueIds(old(repository.items)) {
        UniqueAppend(old(repository.items), item);
      }
      return Created(AsDto(item));
    }

    /**
     * NotFound, with nothing changed, when no stored item has `id`; otherwise
     * the first such item takes the request's name, description and price,
     * keeps its identity and creation date, every other item stays put, and
     * the answer is NoContent.
     */
    method UpdateItem(id: Guid, itemDto: UpdateItemDto) returns (result: ActionResult)
      modifies repository
      ensures !HasId(old(repository.items), id) ==>
        result == NotFound && repository.items == old(repository.items)
      ensures HasId(old(repository.items), id) ==>
        var k := IndexOf(old(repository.items), id);
        result == NoContent &&
        repository.items == old(repository.items)[k := Updated(old(repository.items)[k], itemDto)]
      ensures UniqueIds(old(repository.items)) ==> UniqueIds(repository.items)
    {
      var existing := repository.GetItem(id);
      if existing.None? {
        return NotFound;
      }
      var item := Updated(existing.value, itemDto);
      ghost var before := repository.items;
      var outcome := repository.UpdateItem(item);
      // The guard above found the item, so the indexer never sees -1.
      assert outcome == Completed;
      if UniqueIds(before) {
        UniqueReplace(before, IndexOf(before, id), item);
      }
      return NoContent;
    }

    /**
     * NotFound, with nothing changed, when no stored item has `id`; otherwise
     * the first such item is removed, the rest keep their order, and the
     * answer is NoContent. With distinct identities, `id` is then gone.
     */
    method DeleteItem(id: Guid) returns (result: ActionResult)
      modifies repository
      ensures !HasId(old(repository.items), id) ==>
        result == NotFound && repository.items == old(repository.items)
      ensures HasId(old(repository.items), id) ==>
        result == NoContent &&
        repository.items == Removed(old(repository.items), IndexOf(old(repository.items), id))
      ensures UniqueIds(old(repository.items)) ==>
        UniqueIds(repository.items) && !HasId(repository.items, id)
    {
      var existing := repository.GetItem(id);
      if existing.None? {
        return NotFound;
      }
      ghost var before := repository.items;
      var outcome := repository.DeleteItem(id);
      // The guard above found the item, so RemoveAt never sees -1.
      assert outcome == Completed;
      if UniqueIds(before) {
        UniqueRemoved(before, IndexOf(before, id));
      }
      return NoContent;
    }
  }
}
