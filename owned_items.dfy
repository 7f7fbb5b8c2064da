/** The owner-scoped item table and its repository (adapters/item_repository.go), over the
    record shape of entities/item.go. */
module OwnedItems {
  import opened Common
  import opened Tables

  /** entities.Item: ID is the primary key. */
  datatype Item = Item(id: nat, ownerId: nat, description: string)

  function IdOf(x: Item): nat
  {
    x.id
  }

  /** The WHERE clause `id = ?` of a primary-key lookup. */
  function HasId(id: nat): Item -> bool
  {
    (x: Item) => x.id == id
  }

  /** The WHERE clause `id = ? AND owner_id = ?`. */
  function InScope(id: nat, ownerId: nat): Item -> bool
  {
    (x: Item) => x.id == id && x.ownerId == ownerId
  }

  /** The rows a `DELETE ... WHERE id = ? AND owner_id = ?` keeps. */
  function OutOfScope(id: nat, ownerId: nat): Item -> bool
  {
    (x: Item) => !(x.id == id && x.ownerId == ownerId)
  }

  /** The WHERE clause `owner_id = ?`. */
  function OwnedBy(ownerId: nat): Item -> bool
  {
    (x: Item) => x.ownerId == ownerId
  }

  /** The SET clause `description = ?`. */
  function Describe(description: string): Item -> Item
  {
    (x: Item) => x.(description := description)
  }

  /** Update writes the description of the rows matching both id and owner, and nothing
      else: no other row changes, and no row changes its id or owner. */
  lemma UpdateTouchesOnlyScope(rows: seq<Item>, id: nat, ownerId: nat, description: string)
    ensures var r := UpdateWhere(rows, InScope(id, ownerId), Describe(description));
            && |r| == |rows|
            && (forall i :: 0 <= i < |r| ==> r[i].id == rows[i].id && r[i].ownerId == rows[i].ownerId)
            && (forall i :: 0 <= i < |r| && rows[i].id == id && rows[i].ownerId == ownerId ==>
                  r[i].description == description)
            && (forall i :: 0 <= i < |r| && !(rows[i].id == id && rows[i].ownerId == ownerId) ==>
                  r[i] == rows[i])
  {
    var r := UpdateWhere(rows, InScope(id, ownerId), Describe(description));
    forall i | 0 <= i < |r| ensures r[i].id == rows[i].id && r[i].ownerId == rows[i].ownerId {
      if InScope(id, ownerId)(rows[i]) {
        assert r[i] == rows[i].(description := description);
      }
    }
  }

  /** The in-memory item table behind adapters' ItemRepositoryPostgres. `nextId` is the
      next value of the id sequence, drawn when an item arrives with a zero ID. */
  class ItemRepository {
    var rows: seq<Item>
    var nextId: nat

    ghost predicate Valid()
      reads this
    {
      KeysUnique(rows, IdOf) && 0 < nextId
    }

    constructor ()
      ensures Valid() && rows == [] && nextId == 1
    {
      rows := [];
      nextId := 1;
    }

    /** Inserts the item as given; a zero ID is replaced by the next sequence value, and a
        taken ID is refused by the primary key. On success the caller's item carries the
        ID it was stored under, which is what is returned. */
    method Create(item: Item, failure: Option<string>) returns (r: Result<Item>)
      requires Valid()
      modifies this
      ensures Valid()
      ensures failure.Some? ==> r == Err(StoreError(failure.value)) && rows == old(rows) && nextId == old(nextId)
      ensures failure.None? ==>
        var key := if item.id == 0 then old(nextId) else item.id;
        && nextId == (if item.id == 0 then old(nextId) + 1 else old(nextId))
        && ((exists i :: 0 <= i < |old(rows)| && old(rows)[i].id == key) ==>
              r == Err(DuplicateKey) && rows == old(rows))
        && ((forall i :: 0 <= i < |old(rows)| ==> old(rows)[i].id != key) ==>
              r == Ok(item.(id := key)) && rows == old(rows) + [item.(id := key)])
    {
      if failure.Some? {
        return Err(StoreError(failure.value));
      }
      var stored := item;
      if item.id == 0 {
        stored := item.(id := nextId);
        nextId := nextId + 1;
      }
      if FirstWhere(rows, HasId(stored.id)).Some? {
        return Err(DuplicateKey);
      }
      assert forall i :: 0 <= i < |rows| ==> !HasId(stored.id)(rows[i]);
      rows := rows + [stored];
      return Ok(stored);
    }

    /** The item with that id, provided it belongs to that owner; RecordNotFound otherwise.
        Ids are unique, so the row found is the only one with that id. */
    method FindByIDAndOwner(id: nat, ownerId: nat, failure: Option<string>) returns (r: Result<Item>)
      requires Valid()
      ensures failure.Some? ==> r == Err(StoreError(failure.value))
      ensures failure.None? ==>
        (r.Ok? <==> exists i :: 0 <= i < |rows| && rows[i].id == id && rows[i].ownerId == ownerId)
      ensures failure.None? && r.Err? ==> r.error == RecordNotFound
      ensures r.Ok? ==> r.value in rows && r.value.id == id && r.value.ownerId == ownerId
      ensures r.Ok? ==> forall i :: 0 <= i < |rows| && rows[i].id == id ==> rows[i] == r.value
    {
      if failure.Some? {
        return Err(StoreError(failure.value));
      }
      match FirstWhere(rows, InScope(id, ownerId)) {
        case None =>
          r := Err(RecordNotFound);
          assert forall i :: 0 <= i < |rows| ==> !InScope(id, ownerId)(rows[i]);
        case Some(k) =>
          r := Ok(rows[k]);
          forall i | 0 <= i < |rows| && rows[i].id == id ensures rows[i] == r.value {
            AtMostOneWithKey(rows, IdOf, HasId(id), id, i, k);
          }
      }
    }

    /** Exactly the items of that owner, in table order. */
    method FindByOwnerID(ownerId: nat, failure: Option<string>) returns (items: seq<Item>, err: Option<Error>)
      ensures err == Reported(failure)
      ensures failure.Some? ==> items == []
      ensures failure.None? ==> forall i :: 0 <= i < |items| ==> items[i] in rows && items[i].ownerId == ownerId
      ensures failure.None? ==> forall i :: 0 <= i < |rows| && rows[i].ownerId == ownerId ==> rows[i] in items
      ensures failure.None? ==> items == Where(rows, OwnedBy(ownerId))
    {
      if failure.Some? {
        return [], Reported(failure);
      }
      items := Where(rows, OwnedBy(ownerId));
      err := None;
    }

    /** Sets the description of the rows matching both the item's id and its owner. The
        number of rows affected is never looked at: no match is not an error. */
    method Update(item: Item, failure: Option<string>) returns (err: Option<Error>)
      requires Valid()
      modifies this
      ensures Valid() && nextId == old(nextId)
      ensures err == Reported(failure)
      ensures rows == if failure.Some? then old(rows)
                      else UpdateWhere(old(rows), InScope(item.id, item.ownerId), Describe(item.description))
    {
      if failure.Some? {
        return Reported(failure);
      }
      UpdateKeepsKeysUnique(rows, InScope(item.id, item.ownerId), Describe(item.description), IdOf);
      rows := UpdateWhere(rows, InScope(item.id, item.ownerId), Describe(item.description));
      return None;
    }

    /** Removes the rows matching both id and owner. "item not found" when no row was
        removed; a failed statement removes nothing, so its error is reported as "item not
        found" too. */
    method Delete(id: nat, ownerId: nat, failure: Option<string>) returns (err: Option<Error>)
      requires Valid()
      modifies this
      ensures Valid() && nextId == old(nextId)
      ensures rows == if failure.Some? then old(rows) else Where(old(rows), OutOfScope(id, ownerId))
      ensures err == Some(ItemNotFound) <==>
        failure.Some? || forall i :: 0 <= i < |old(rows)| ==> !(old(rows)[i].id == id && old(rows)[i].ownerId == ownerId)
      ensures err.Some? ==> err == Some(ItemNotFound)
      ensures forall i :: 0 <= i < |old(rows)| && old(rows)[i].ownerId != ownerId ==> old(rows)[i] in rows
    {
      var affected := 0;
      var statementErr := Reported(failure);
      if failure.None? {
        var kept := Where(rows, OutOfScope(id, ownerId));
        WhereKeepsKeysUnique(rows, OutOfScope(id, ownerId), IdOf);
        affected := |rows| - |kept|;
        rows := kept;
      }
      if affected == 0 {
        return Some(ItemNotFound);
      }
      return statementErr;
    }
  }
}
