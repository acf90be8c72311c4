# Catalog service: in-memory repository, items controller, DTO mapping

A Dafny model of the core of a small catalog web API. Items (identity, name,
optional description, price, creation date) live in an in-memory repository:
an ordered list seeded with three fixtures (Potion/9, Sword/20, Shield/18, all
created 2018-10-01T00:00Z). The repository lists the items, looks one up by
identity (first match, or null), appends on create, and on update and delete
finds the index of the first match and writes or removes at it. The items
controller serves list, get, create, update and delete over that repository:
every per-item handler fetches first and answers 404 (NotFound) when nothing
matches. Create assigns a server-side identity and creation time. Update
replaces name, description and price and keeps identity and creation date.
Responses carry the read-side view that `AsDto` projects from an item.

Files:

- `wrappers.dfy`: `Option`, the model of a nullable reference.
- `entities.dfy`: `Guid` (a 128-bit value), `DateTimeOffset` (calendar fields and offset), `Item`.
- `dtos.dfy`: `ItemDto`, `CreateItemDto`, `UpdateItemDto`.
- `extensions.dfy`: `AsDto` and what it keeps and drops.
- `in_mem_items_repository.dfy`: the repository as a class over a `seq<Item>` field. Its lookups are loops. Beside it are specification functions (`HasId`, `UniqueIds`, `IndexOf`, `Removed`, `Fixtures`) and lemmas about them.
- `items_controller.dfy`: the controller as a class that owns the repository, and the `ActionResult` response kinds.
- `catalog_scenarios.dfy`: request sequences proved from the handlers' contracts, such as create then get, or delete twice.

Modelling choices:

- `Guid.NewGuid()` and `DateTimeOffset.UtcNow` become parameters. A created item's identity must not already be stored, and its time has a zero UTC offset. The three fixture identities must be pairwise distinct.
- The C# `decimal` price becomes a Dafny `real`. It is only copied, never computed on.
- The repository's update and delete with an absent identity are modelled as what the code does. `FindIndex` yields -1, and the list indexer or `RemoveAt` then throws `ArgumentOutOfRangeException`, leaving the list unchanged. The model returns `ArgumentOutOfRange` and changes nothing, rather than requiring presence. The controller's fetch-first guards are proved to keep both calls away from that exception.
- The source's controller mutates the fetched item in place and then hands it to the repository's update. In the in-memory repository that object is the stored one. Here `Item` is an immutable value and update replaces it at the found index. The final state is the same.
- The read-side view is modelled without a description. `ItemDto` is not part of this model, so this shape is an inference. `AsDto` (src/Extensions.cs:8-15) copies only identity, name, price and creation date. The create test (tests/ItemsControllerTests.cs:117-119) compares the view with the request using `ExcludingMissingMembers`, which suggests the view has no description. The get tests (tests/ItemsControllerTests.cs:51-53 and 71-73) compare the view with an `Item` member by member, which suggests it has one. With the `AsDto` shown, one of those groups fails whichever shape the view has. The two shapes behave the same here, because `AsDto` never sets a description, so a view with one would always carry null.
- Identity uniqueness is not enforced by the repository. The model states it as `UniqueIds`. The constructor establishes it, and every controller handler preserves it. Properties that depend on it, such as "after delete the identity is gone", are stated under it.

## Model

| member | source | states |
|---|---|---|
| `Repositories.InMemItemsRepository.constructor` | Repositories/InMemItemsRepository.cs:7-30 | the list starts as the three fixtures, with distinct identities |
| `Repositories.FixturesShape` | Repositories/InMemItemsRepository.cs:7-30 | the seed is exactly Potion/9, Sword/20, Shield/18 in that order, each created 2018-10-01T00:00Z, with pairwise-distinct identities |
| `Repositories.InMemItemsRepository.GetItems` | Repositories/InMemItemsRepository.cs:32-35 | returns the whole list in insertion order and changes nothing |
| `Repositories.InMemItemsRepository.GetItem` | Repositories/InMemItemsRepository.cs:37-41 | null exactly when no item has the identity; otherwise the first item that has it |
| `Repositories.IndexOf` | Repositories/InMemItemsRepository.cs:52 | -1 exactly when no item has the identity; otherwise an index holding it with no earlier index holding it (the meaning of `FindIndex`) |
| `Repositories.InMemItemsRepository.FindIndex` | Repositories/InMemItemsRepository.cs:60 | the linear scan returns -1 iff the identity is absent, else the first index carrying it |
| `Repositories.InMemItemsRepository.CreateItem` | Repositories/InMemItemsRepository.cs:43-48 | appends the item at the end: length grows by one, earlier positions unchanged, no uniqueness check |
| `Repositories.InMemItemsRepository.UpdateItem` | Repositories/InMemItemsRepository.cs:50-56 | present identity: the first match is replaced at its index and all else is unchanged; absent identity: throws out-of-range and the list is unchanged |
| `Repositories.InMemItemsRepository.DeleteItem` | Repositories/InMemItemsRepository.cs:58-64 | present identity: the first match is removed and the others keep their relative order; absent identity: throws out-of-range and the list is unchanged |
| `Repositories.Removed` | Repositories/InMemItemsRepository.cs:61 | `RemoveAt` shortens the list by one, keeps positions before the index and shifts those after it down by one |
| `Repositories.IndexOfAppendPresent` | Repositories/InMemItemsRepository.cs:43-48 | after an append, the lookup of an identity already present finds the same position as before |
| `Repositories.IndexOfAppendAbsent` | Repositories/InMemItemsRepository.cs:43-48 | after an append, a previously absent identity is found at the new last position iff the appended item carries it, and otherwise is still absent |
| `Repositories.IndexOfUnique` | Repositories/InMemItemsRepository.cs:37-41 | with distinct identities, the lookup of an item's identity finds that very item |
| `Repositories.UniqueAppend` | Repositories/InMemItemsRepository.cs:43-48 | appending an item with a new identity keeps identities distinct |
| `Repositories.UniqueReplace` | Repositories/InMemItemsRepository.cs:50-56 | replacing an item with one of the same identity keeps identities distinct and the identity at the same index |
| `Repositories.UniqueRemoved` | Repositories/InMemItemsRepository.cs:58-64 | with distinct identities, delete leaves them distinct, removes the deleted identity entirely and keeps every other identity present |
| `Extensions.AsDto` | src/Extensions.cs:8-15 | the view carries the item's identity, name, price and creation date |
| `Extensions.AsDtoAgreement` | src/Extensions.cs:8-15 | two items have equal views iff they agree on identity, name, price and creation date |
| `Extensions.AsDtoIgnoresDescription` | src/Extensions.cs:9-15 | items differing only in description have equal views |
| `Controllers.ItemsController.constructor` | src/Controllers/ItemsController.cs:16-19 | the controller serves the repository it is given |
| `Controllers.ItemsController.GetItems` | src/Controllers/ItemsController.cs:22-27 | one view per stored item, same length and order, each the `AsDto` of the item at that position |
| `Controllers.ItemsController.GetItem` | src/Controllers/ItemsController.cs:29-41 | NotFound iff the repository has no item with the identity; otherwise Ok with the view of the first match |
| `Controllers.NewItem` | src/Controllers/ItemsController.cs:46-53 | a created item takes name, description and price from the request and its identity and creation date from the server |
| `Controllers.ItemsController.CreateItem` | src/Controllers/ItemsController.cs:43-58 | stores exactly one new item with the fresh identity, the request's fields and the given UTC time, answers Created with its view, and keeps identities distinct |
| `Controllers.Updated` | src/Controllers/ItemsController.cs:71-73 | an update replaces name, description and price and keeps identity and creation date |
| `Controllers.ItemsController.UpdateItem` | src/Controllers/ItemsController.cs:60-78 | absent identity: NotFound, nothing changes; present: NoContent, the first match gets the request's fields with its identity and creation date kept, every other item unchanged |
| `Controllers.ItemsController.DeleteItem` | src/Controllers/ItemsController.cs:80-94 | absent identity: NotFound, nothing changes; present: NoContent and the first match is removed, order kept; with distinct identities the identity is then gone |
| `CatalogScenarios.ListSeededCatalog` | Repositories/InMemItemsRepository.cs:7-30 | listing a freshly seeded catalog yields the views of Potion/9, Sword/20 and Shield/18 in that order |
| `CatalogScenarios.CreateThenGet` | src/Controllers/ItemsController.cs:43-58 | getting a just-created item returns exactly the view that create answered with |
| `CatalogScenarios.CreateUpdateGet` | src/Controllers/ItemsController.cs:60-78 | create, update, get: the updated name and price, with the identity and creation date from creation |
| `CatalogScenarios.DeleteTwice` | src/Controllers/ItemsController.cs:80-94 | with distinct identities, deleting twice answers NoContent and then NotFound, and removes one item |
| `CatalogScenarios.AbsentIdIsNotFound` | src/Controllers/ItemsController.cs:29-41 | for an absent identity, get, update and delete each answer NotFound and leave the repository unchanged |

## Left out

- The document-database repository (src/Repositories/MongoDbItemsRepository.cs). Its behaviour lives in a driver library that is not modelled. The controller's fetch-first guards mean its update and delete are only called for present identities, just as with the in-memory variant.
- Process startup, dependency injection, serializer registration and the health-check endpoints (Program.cs). These are framework and I/O wiring.
- Name filtering in the list operation. One test calls a list overload that takes a name, but the controller shown has no such parameter and does no filtering.
- Asynchrony and concurrency. The operations are modelled as sequential calls. The unlocked list's behaviour under concurrent writers is not captured.
- Routing, HTTP status codes beyond the response kind, and the location header of the Created response.
- Aliasing. The repository's list hands out its live list and its stored item objects. The controller's in-place mutation of a fetched item is modelled as a replacement by value.
- Request validation (a malformed body rejected with 400). This happens in the framework before the controller runs.
- `Entities/Item.cs` and the DTO definitions are not part of this model. The field shapes used here are those the modelled code reads and writes.
- `DateTimeOffset` equality is structural here, whereas .NET compares the UTC instant. Dates are only copied, so this never matters in the model.
- Null names. An item's and a view's name are modelled as non-null strings, while the description is an optional string, because the fixtures leave it unset. A test dereferences the view's name with the null-forgiving operator (tests/ItemsControllerTests.cs:99), which suggests the source's name is nullable. The modelled code only copies names and never inspects them, so a null name would behave like any other value.
