/** The product table and its repository (repository/item_repository.go). The record shape
    this file uses is not the one in entities/item.go; its fields are inferred from the
    columns and fields the code names (product_id, owner_id, ProductName, ProductDesc) and
    from use_cases/item_service.go (ProductImageKey). */
module Products {
  import opened Common
  import opened Tables

  /** A product row: `productId` is the primary key. */
  datatype Product = Product(productId: nat, ownerId: nat, name: string, description: string, imageKey: string)

  function ProductIdOf(x: Product): nat
  {
    x.productId
  }

  /** The WHERE clause `product_id = ?`. */
  function HasProductId(id: nat): Product -> bool
  {
    (x: Product) => x.productId == id
  }

  /** The rows a `DELETE ... WHERE product_id = ?` keeps. */
  function OtherProductId(id: nat): Product -> bool
  {
    (x: Product) => x.productId != id
  }

  /** The WHERE clause `owner_id = ?`. */
  function OwnedBy(ownerId: nat): Product -> bool
  {
    (x: Product) => x.ownerId == ownerId
  }

  /** `Updates(entities.Item{ProductName: name, ProductDesc: desc})`: an update from a
      struct writes only its non-zero fields, so an empty name or description is left as
      it was. */
  function Rename(name: string, description: string): Product -> Product
  {
    (x: Product) => x.(name := if name == "" then x.name else name,
                       description := if description == "" then x.description else description)
  }

  /** When both fields are empty the update has nothing to set and no statement is sent. */
  predicate SetsNothing(name: string, description: string)
  {
    name == "" && description == ""
  }

  /** Update writes the non-empty fields to the row with that product id, whoever owns it,
      and changes no other row and no other field. */
  lemma UpdateTouchesOnlyProduct(rows: seq<Product>, id: nat, name: string, description: string)
    ensures var r := UpdateWhere(rows, HasProductId(id), Rename(name, description));
            && |r| == |rows|
            && (forall i :: 0 <= i < |r| ==>
                  r[i].productId == rows[i].productId && r[i].ownerId == rows[i].ownerId
                  && r[i].imageKey == rows[i].imageKey)
            && (forall i :: 0 <= i < |r| && rows[i].productId == id ==>
                  && r[i].name == (if name == "" then rows[i].name else name)
                  && r[i].description == (if description == "" then rows[i].description else description))
            && (forall i :: 0 <= i < |r| && rows[i].productId != id ==> r[i] == rows[i])
  {
    var r := UpdateWhere(rows, HasProductId(id), Rename(name, description));
    forall i | 0 <= i < |r| && rows[i].productId == id
      ensures r[i] == Rename(name, description)(rows[i])
    {
      assert HasProductId(id)(rows[i]);
    }
  }

  /** The in-memory product table behind repository's ItemRepositoryPostgres. `nextId` is
      the next value of the product id sequence, drawn when a product arrives with a zero
      id. */
  class ItemRepository {
    var rows: seq<Product>
    var nextId: nat

    ghost predicate Valid()
      reads this
    {
      KeysUnique(rows, ProductIdOf) && 0 < nextId
    }

    constructor ()
      ensures Valid() && rows == [] && nextId == 1
    {
      rows := [];
      nextId := 1;
    }

    /** Inserts the product as given; a zero product id is replaced by the next sequence
        value, and a taken one is refused by the primary key. On success the caller's
        product carries the id it was stored under, which is what is returned. */
    method Create(item: Product, failure: Option<string>) returns (r: Result<Product>)
      requires Valid()
      modifies this
      ensures Valid()
      ensures failure.Some? ==> r == Err(StoreError(failure.value)) && rows == old(rows) && nextId == old(nextId)
      ensures failure.None? ==>
        var key := if item.productId == 0 then old(nextId) else item.productId;
        && nextId == (if item.productId == 0 then old(nextId) + 1 else old(nextId))
        && ((exists i :: 0 <= i < |old(rows)| && old(rows)[i].productId == key) ==>
              r == Err(DuplicateKey) && rows == old(rows))
        && ((forall i :: 0 <= i < |old(rows)| ==> old(rows)[i].productId != key) ==>
              r == Ok(item.(productId := key)) && rows == old(rows) + [item.(productId := key)])
    {
      if failure.Some? {
        return Err(StoreError(failure.value));
      }
      var stored := item;
      if item.productId == 0 {
        stored := item.(productId := nextId);
        nextId := nextId + 1;
      }
      if FirstWhere(rows, HasProductId(stored.productId)).Some? {
        return Err(DuplicateKey);
      }
      assert forall i :: 0 <= i < |rows| ==> !HasProductId(stored.productId)(rows[i]);
      rows := rows + [stored];
      return Ok(stored);
    }

    /** Despite its name, looks the product up by product id alone, whoever owns it;
        RecordNotFound when no row has that id. Product ids are unique, so the row found
        is the only one with that id. */
    method FindByIDAndOwner(id: nat, failure: Option<string>) returns (r: Result<Product>)
      requires Valid()
      ensures failure.Some? ==> r == Err(StoreError(failure.value))
      ensures failure.None? ==> (r.Ok? <==> exists i :: 0 <= i < |rows| && rows[i].productId == id)
      ensures failure.None? && r.Err? ==> r.error == RecordNotFound
      ensures r.Ok? ==> r.value in rows && r.value.productId == id
      ensures r.Ok? ==> forall i :: 0 <= i < |rows| && rows[i].productId == id ==> rows[i] == r.value
    {
      if failure.Some? {
        return Err(StoreError(failure.value));
      }
      match FirstWhere(rows, HasProductId(id)) {
        case None =>
          r := Err(RecordNotFound);
          assert forall i :: 0 <= i < |rows| ==> !HasProductId(id)(rows[i]);
        case Some(k) =>
          r := Ok(rows[k]);
          forall i | 0 <= i < |rows| && rows[i].productId == id ensures rows[i] == r.value {
            AtMostOneWithKey(rows, ProductIdOf, HasProductId(id), id, i, k);
          }
      }
    }

    /** Every product, in table order. */
    method ListItem(failure: Option<string>) returns (items: seq<Product>, err: Option<Error>)
      ensures err == Reported(failure)
      ensures items == if failure.Some? then [] else rows
    {
      if failure.Some? {
        return [], Reported(failure);
      }
      return rows, None;
    }

    /** Exactly the products of that owner, in table order. */
    method FindByOwnerID(ownerId: nat, failure: Option<string>) returns (items: seq<Product>, err: Option<Error>)
      ensures err == Reported(failure)
      ensures failure.Some? ==> items == []
      ensures failure.None? ==> forall i :: 0 <= i < |items| ==> items[i] in rows && items[i].ownerId == ownerId
      ensures failure.None? ==> forall i :: 0 <= i < |rows| && rows[i].ownerId == ownerId ==> rows[i] in items
      ensures failure.None? ==> items == Where(rows, OwnedBy(ownerId))
    {
      if failure.Some? {
        return [], Reported(failure);
      }
      items := Where(rows, OwnedBy(ownerId));
      err := None;
    }

    /** Writes the non-empty ones of name and description to the row with that product id,
        with no check of its owner. The statement's error comes first; then "item not found"
        when no row was affected, which is also the answer when there is nothing to set. */
    method Update(id: nat, name: string, description: string, failure: Option<string>) returns (err: Option<Error>)
      requires Valid()
      modifies this
      ensures Valid() && nextId == old(nextId)
      ensures SetsNothing(name, description) ==> err == Some(ItemNotFound) && rows == old(rows)
      ensures !SetsNothing(name, description) && failure.Some? ==> err == Reported(failure) && rows == old(rows)
      ensures !SetsNothing(name, description) && failure.None? ==>
        && rows == UpdateWhere(old(rows), HasProductId(id), Rename(name, description))
        && (err == Some(ItemNotFound) <==> forall i :: 0 <= i < |old(rows)| ==> old(rows)[i].productId != id)
        && (err.Some? ==> err == Some(ItemNotFound))
    {
      if SetsNothing(name, description) {
        return Some(ItemNotFound);
      }
      var statementErr := Reported(failure);
      var affected := 0;
      if failure.None? {
        var matched := Where(rows, HasProductId(id));
        affected := |matched|;
        UpdateKeepsKeysUnique(rows, HasProductId(id), Rename(name, description), ProductIdOf);
        rows := UpdateWhere(rows, HasProductId(id), Rename(name, description));
        if affected == 0 {
          assert forall i :: 0 <= i < |old(rows)| ==> !HasProductId(id)(old(rows)[i]);
        } else {
          assert matched[0] in old(rows) && matched[0].productId == id;
        }
      }
      if statementErr.Some? {
        return statementErr;
      }
      if affected == 0 {
        return Some(ItemNotFound);
      }
      return None;
    }

    /** Removes the row with that product id, with no check of its owner. "item not found"
        when no row was removed; the statement's error is never returned, and a failed
        statement removes nothing, so it too is reported as "item not found". */
    method Delete(id: nat, failure: Option<string>) returns (err: Option<Error>)
      requires Valid()
      modifies this
      ensures Valid() && nextId == old(nextId)
      ensures rows == if failure.Some? then old(rows) else Where(old(rows), OtherProductId(id))
      ensures err.Some? ==> err == Some(ItemNotFound)
      ensures err == Some(ItemNotFound) <==>
        failure.Some? || forall i :: 0 <= i < |old(rows)| ==> old(rows)[i].productId != id
    {
      var affected := 0;
      if failure.None? {
        var kept := Where(rows, OtherProductId(id));
        WhereKeepsKeysUnique(rows, OtherProductId(id), ProductIdOf);
        affected := |rows| - |kept|;
        rows := kept;
      }
      if affected == 0 {
        return Some(ItemNotFound);
      }
      return None;
    }
  }
}
