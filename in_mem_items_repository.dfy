/**
 * The in-memory item repository: an ordered, mutable list of items seeded
 * with three fixtures. Lookups scan from the front for the first item with
 * the requested identity; update and delete locate that item's index and
 * then write or remove at it.
 */
module Repositories {
  import opened Wrappers
  import opened Entities

  /** How a call on the list ended: normally, or with the list indexer's exception. */
  datatype Outcome = Completed | ArgumentOutOfRange

  // ---------------------------------------------------------------------
  // Specification of the list's contents
  // ---------------------------------------------------------------------

  /** Some item of `s` carries identity `id`. */
  predicate HasId(s: seq<Item>, id: Guid) {
    exists i :: 0 <= i < |s| && s[i].id == id
  }

  /** No two positions of `s` carry the same identity. */
  predicate UniqueIds(s: seq<Item>) {
    forall i, j :: 0 <= i < j < |s| ==> s[i].id != s[j].id
  }

  /**
   * The index of the first item of `s` with identity `id`, or -1 when no item
   * has it: the answer List.FindIndex gives for the predicate `x.Id == id`.
   */
  function IndexOf(s: seq<Item>, id: Guid): (k: int)
    ensures -1 <= k < |s|
    ensures k == -1 <==> !HasId(s, id)
    ensures 0 <= k ==> s[k].id == id && forall j :: 0 <= j < k ==> s[j].id != id
  {
    if |s| == 0 then -1
    else if s[0].id == id then 0
    else
      var k := IndexOf(s[1..], id);
      assert forall j :: 0 < j < |s| ==> s[j] == s[1..][j - 1];
      if k < 0 then -1 else k + 1
  }

  /** `s` without its element at position `k`, the others in their original order. */
  function Removed(s: seq<Item>, k: int): (r: seq<Item>)
    requires 0 <= k < |s|
    ensures |r| == |s| - 1
    ensures forall j :: 0 <= j < k ==> r[j] == s[j]
    ensures forall j :: k <= j < |r| ==> r[j] == s[j + 1]
  {
    s[..k] + s[k + 1..]
  }

  /** The three items the repository is seeded with, all created on 2018-10-01 at midnight UTC. */
  function Fixtures(potionId: Guid, swordId: Guid, shieldId: Guid): seq<Item> {
    [ Item(potionId, "Potion", None, 9.0, FixtureDate()),
      Item(swordId, "Sword", None, 20.0, FixtureDate()),
      Item(shieldId, "Shield", None, 18.0, FixtureDate()) ]
  }

  function FixtureDate(): DateTimeOffset {
    DateTimeOffset(2018, 10, 1, 0, 0, 0, 0)
  }

  // ---------------------------------------------------------------------
  // Lemmas about the specification
  // ---------------------------------------------------------------------

  /** The seed holds Potion/9, Sword/20, Shield/18 in that order, with distinct identities when the three Guids differ. */
  lemma FixturesShape(potionId: Guid, swordId: Guid, shieldId: Guid)
    requires potionId != swordId && potionId != shieldId && swordId != shieldId
    ensures var s := Fixtures(potionId, swordId, shieldId);
      |s| == 3 && UniqueIds(s) &&
      s[0].name == "Potion" && s[0].price == 9.0 &&
      s[1].name == "Sword" && s[1].price == 20.0 &&
      s[2].name == "Shield" && s[2].price == 18.0 &&
      forall i :: 0 <= i < 3 ==> s[i].createdDate == DateTimeOffset(2018, 10, 1, 0, 0, 0, 0)
  {
  }

  /** Appending never changes where an identity already present is first found. */
  lemma IndexOfAppendPresent(s: seq<Item>, x: Item, id: Guid)
    requires HasId(s, id)
    ensures IndexOf(s + [x], id) == IndexOf(s, id)
  {
    var k := IndexOf(s, id);
    assert (s + [x])[k] == s[k];
    assert forall j :: 0 <= j < k ==> (s + [x])[j] == s[j];
  }

  /** An identity absent before an append is found at the new last position exactly when the appended item carries it. */
  lemma IndexOfAppendAbsent(s: seq<Item>, x: Item, id: Guid)
    requires !HasId(s, id)
    ensures IndexOf(s + [x], id) == if x.id == id then |s| else -1
  {
    var t := s + [x];
    assert forall j :: 0 <= j < |s| ==> t[j] == s[j];
    assert t[|s|] == x;
  }

  /** With distinct identities, every item is the first one carrying its identity. */
  lemma IndexOfUnique(s: seq<Item>, k: int)
    requires UniqueIds(s) && 0 <= k < |s|
    ensures IndexOf(s, s[k].id) == k
  {
  }

  /** Appending an item whose identity is new keeps identities distinct. */
  lemma UniqueAppend(s: seq<Item>, x: Item)
    requires UniqueIds(s) && !HasId(s, x.id)
    ensures UniqueIds(s + [x])
  {
  }

  /**
   * Replacing the first item with a given identity by another item with the
   * same identity keeps identities distinct, leaves the identity at the same
   * index and keeps every other identity where it was.
   */
  lemma UniqueReplace(s: seq<Item>, k: int, x: Item)
    requires UniqueIds(s) && 0 <= k < |s| && x.id == s[k].id
    ensures UniqueIds(s[k := x])
    ensures IndexOf(s[k := x], x.id) == k
  {
    IndexOfUnique(s[k := x], k);
  }

  /**
   * With distinct identities, removing the item at `k` leaves distinct
   * identities and no item with the removed identity, and keeps every other
   * identity present.
   */
  lemma UniqueRemoved(s: seq<Item>, k: int)
    requires UniqueIds(s) && 0 <= k < |s|
    ensures UniqueIds(Removed(s, k))
    ensures !HasId(Removed(s, k), s[k].id)
    ensures forall id :: id != s[k].id ==> (HasId(Removed(s, k), id) <==> HasId(s, id))
  {
    var r := Removed(s, k);
    forall i, j | 0 <= i < j < |r| ensures r[i].id != r[j].id {
      var i' := if i < k then i else i + 1;
      var j' := if j < k then j else j + 1;
      assert r[i] == s[i'] && r[j] == s[j'];
    }
    forall i | 0 <= i < |r| ensures r[i].id != s[k].id {
      var i' := if i < k then i else i + 1;
      assert r[i] == s[i'];
    }
    forall id | id != s[k].id ensures HasId(r, id) <==> HasId(s, id) {
      if HasId(s, id) {
        var i :| 0 <= i < |s| && s[i].id == id;
        if i < k { assert r[i] == s[i]; } else { assert r[i - 1] == s[i]; }
      }
      if HasId(r, id) {
        var i :| 0 <= i < |r| && r[i].id == id;
        if i < k { assert r[i] == s[i]; } else { assert r[i] == s[i + 1]; }
      }
    }
  }

  // ---------------------------------------------------------------------
  // The repository
  // ---------------------------------------------------------------------

  class InMemItemsRepository {
    /** The backing list, in insertion order. */
    var items: seq<Item>

    /** Seeds the list with the three fixtures; the Guids stand in for Guid.NewGuid(). */
    constructor (potionId: Guid, swordId: Guid, shieldId: Guid)
      requires potionId != swordId && potionId != shieldId && swordId != shieldId
      ensures items == Fixtures(potionId, swordId, shieldId)
      ensures UniqueIds(items)
    {
      items := Fixtures(potionId, swordId, shieldId);
      FixturesShape(potionId, swordId, shieldId);
    }

    /** Returns the whole list, in insertion order. */
    method GetItems() returns (all: seq<Item>)
      ensures all == items
    {
      all := items;
    }

    /** The first item with identity `id`, or None (the source's null) when no item has it. */
    method GetItem(id: Guid) returns (found: Option<Item>)
      ensures found.None? <==> !HasId(items, id)
      ensures found.Some? ==> found.value.id == id && found.value == items[IndexOf(items, id)]
    {
      var i := 0;
      while i < |items|
        invariant 0 <= i <= |items|
        invariant forall j :: 0 <= j < i ==> items[j].id != id
      {
        if items[i].id == id {
          return Some(items[i]);
        }
        i := i + 1;
      }
      return None;
    }

    /** The index of the first item with identity `id`, or -1 when there is none. */
    method FindIndex(id: Guid) returns (index: int)
      ensures -1 <= index < |items|
      ensures index == -1 <==> !HasId(items, id)
      ensures 0 <= index ==> items[index].id == id && forall j :: 0 <= j < index ==> items[j].id != id
    {
      index := 0;
      while index < |items|
        invariant 0 <= index <= |items|
        invariant forall j :: 0 <= j < index ==> items[j].id != id
      {
        if items[index].id == id {
          return;
        }
        index := index + 1;
      }
      index := -1;
    }

    /** Appends `item`; nothing checks that its identity is new. */
    method CreateItem(item: Item)
      modifies this
      ensures items == old(items) + [item]
    {
      items := items + [item];
    }

    /**
     * Replaces the first item with `item`'s identity by `item`. When no item
     * has that identity the index is -1 and the list indexer throws, leaving
     * the list as it was.
     */
    method UpdateItem(item: Item) returns (outcome: Outcome)
      modifies this
      ensures outcome == Completed <==> HasId(old(items), item.id)
      ensures outcome == Completed ==> items == old(items)[IndexOf(old(items), item.id) := item]
      ensures outcome == ArgumentOutOfRange ==> items == old(items)
    {
      var index := FindIndex(item.id);
      if index < 0 {
        return ArgumentOutOfRange;
      }
      items := items[index := item];
      return Completed;
    }

    /**
     * Removes the first item with identity `id`. When no item has it the
     * index is -1 and RemoveAt throws, leaving the list as it was.
     */
    method DeleteItem(id: Guid) returns (outcome: Outcome)
      modifies this
      ensures outcome == Completed <==> HasId(old(items), id)
      ensures outcome == Completed ==> items == Removed(old(items), IndexOf(old(items), id))
      ensures outcome == ArgumentOutOfRange ==> items == old(items)
    {
      var index := FindIndex(id);
      if index < 0 {
        return ArgumentOutOfRange;
      }
      items := Removed(items, index);
      return Completed;
    }
  }
}
