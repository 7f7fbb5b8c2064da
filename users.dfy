/** The user table and its repository (repository/auth_repository.go). */
module Users {
  import opened Common
  import opened Tables

  /** A user row. In a row, `password` holds the stored bcrypt hash; in a request it holds
      the plaintext the caller supplied. */
  datatype User = User(id: nat, email: string, password: string)

  /** The cost factor passed to bcrypt.GenerateFromPassword. */
  const BcryptCost: nat := 10

  /** What bcrypt.GenerateFromPassword hands back: the hash bytes and an error. */
  datatype Hashed = Hashed(hash: string, err: Option<Error>)

  /** The WHERE clause `email = ?`. */
  function HasEmail(email: string): User -> bool
  {
    (u: User) => u.email == email
  }

  /** The primary-key condition of `First(&u, id)`. */
  function HasId(id: nat): User -> bool
  {
    (u: User) => u.id == id
  }

  /** The in-memory user table behind UserRepositoryPostgres. Rows are never deleted, so
      the auto-increment id of a row is its position plus one. bcrypt's hash function is
      an input of the model: `generate(password, cost)`. */
  class UserRepository {
    const generate: (string, nat) -> Hashed
    var rows: seq<User>

    ghost predicate Valid()
      reads this
    {
      forall i :: 0 <= i < |rows| ==> rows[i].id == i + 1
    }

    constructor (generate: (string, nat) -> Hashed)
      ensures Valid() && rows == [] && this.generate == generate
    {
      this.generate := generate;
      rows := [];
    }

    /** Inserts a user holding the argument's Email and bcrypt's hash of its Password at
        cost 10. The hashing error is dropped, so whatever hash came back is stored; the
        argument's ID is ignored. */
    method Create(user: User, failure: Option<string>) returns (err: Option<Error>)
      requires Valid()
      modifies this
      ensures Valid()
      ensures err == Reported(failure)
      ensures failure.Some? ==> rows == old(rows)
      ensures failure.None? ==>
        rows == old(rows) + [User(|old(rows)| + 1, user.email, generate(user.password, BcryptCost).hash)]
    {
      var hashed := generate(user.password, BcryptCost);
      if failure.Some? {
        return Reported(failure);
      }
      rows := rows + [User(|rows| + 1, user.email, hashed.hash)];
      return None;
    }

    /** The first user with that email (ID, Email and stored hash), or the query's error:
        RecordNotFound when no user has it. */
    method FindByEmail(email: string, failure: Option<string>) returns (r: Result<User>)
      ensures failure.Some? ==> r == Err(StoreError(failure.value))
      ensures failure.None? && r.Err? ==> r.error == RecordNotFound
      ensures failure.None? ==> (r.Ok? <==> exists i :: 0 <= i < |rows| && rows[i].email == email)
      ensures r.Ok? ==> r.value.email == email
      ensures r.Ok? ==> exists i :: 0 <= i < |rows| && rows[i] == r.value
                                    && forall j :: 0 <= j < i ==> rows[j].email != email
    {
      if failure.Some? {
        return Err(StoreError(failure.value));
      }
      match FirstWhere(rows, HasEmail(email)) {
        case None =>
          r := Err(RecordNotFound);
          assert forall j :: 0 <= j < |rows| ==> !HasEmail(email)(rows[j]);
        case Some(k) =>
          var u := rows[k];
          r := Ok(User(u.id, u.email, u.password));
          assert forall j :: 0 <= j < k ==> !HasEmail(email)(rows[j]);
      }
    }

    /** The user with that primary key, projected to ID and Email (the password is left
        empty), or the query's error: RecordNotFound when the id is absent. */
    method FindByID(id: nat, failure: Option<string>) returns (r: Result<User>)
      requires Valid()
      ensures failure.Some? ==> r == Err(StoreError(failure.value))
      ensures failure.None? && r.Err? ==> r.error == RecordNotFound
      ensures failure.None? ==> (r.Ok? <==> exists i :: 0 <= i < |rows| && rows[i].id == id)
      ensures r.Ok? ==> r.value.id == id && r.value.password == ""
      ensures r.Ok? ==> exists i :: 0 <= i < |rows| && rows[i].id == id && rows[i].email == r.value.email
      ensures failure.None? ==> (r.Ok? <==> 1 <= id <= |rows|)
      ensures r.Ok? ==> 1 <= id <= |rows| && r.value == User(id, rows[id - 1].email, "")
    {
      if failure.Some? {
        return Err(StoreError(failure.value));
      }
      assert 1 <= id <= |rows| ==> HasId(id)(rows[id - 1]);
      match FirstWhere(rows, HasId(id)) {
        case None =>
          r := Err(RecordNotFound);
          assert forall j :: 0 <= j < |rows| ==> !HasId(id)(rows[j]);
        case Some(k) =>
          r := Ok(User(rows[k].id, rows[k].email, ""));
      }
    }
  }
}
