/** The refresh-token table and its repository (repository/refresh_token_repository.go). */
module RefreshTokens {
  import opened Common
  import opened Tables

  /** One stored refresh token; `expiresAt` is a wall-clock instant in nanoseconds. */
  datatype RefreshToken = RefreshToken(id: nat, userId: nat, token: string, revoked: bool, expiresAt: int)

  /** The WHERE clause `token = ?`. */
  function HasToken(token: string): RefreshToken -> bool
  {
    (t: RefreshToken) => t.token == token
  }

  /** Marks a row revoked and touches nothing else. */
  function MarkRevoked(t: RefreshToken): RefreshToken
  {
    t.(revoked := true)
  }

  /** `UPDATE refresh_tokens SET revoked = true WHERE token = ?` applied to `rows`. */
  function RevokeAll(rows: seq<RefreshToken>, token: string): (r: seq<RefreshToken>)
    ensures |r| == |rows|
    ensures forall i :: 0 <= i < |r| && rows[i].token == token ==> r[i].revoked
    ensures forall i :: 0 <= i < |r| ==> r[i].(revoked := rows[i].revoked) == rows[i]
    ensures forall i :: 0 <= i < |r| && rows[i].token != token ==> r[i] == rows[i]
  {
    UpdateWhere(rows, HasToken(token), MarkRevoked)
  }

  /** How the table may change between two moments: rows are only ever appended, and an
      existing row can only have its `revoked` flag raised, never cleared. */
  ghost predicate Evolves(before: seq<RefreshToken>, after: seq<RefreshToken>)
  {
    && |before| <= |after|
    && (forall i :: 0 <= i < |before| ==> after[i].(revoked := before[i].revoked) == before[i])
    && (forall i :: 0 <= i < |before| && before[i].revoked ==> after[i].revoked)
  }

  /** Revocation is monotonic across any run of operations. */
  lemma EvolvesTransitive(a: seq<RefreshToken>, b: seq<RefreshToken>, c: seq<RefreshToken>)
    requires Evolves(a, b) && Evolves(b, c)
    ensures Evolves(a, c)
  {
    forall i | 0 <= i < |a| ensures c[i].(revoked := a[i].revoked) == a[i] {
      assert c[i].(revoked := b[i].revoked) == b[i];
    }
  }

  /** Revoking twice is the same as revoking once. */
  lemma RevokeAllIdempotent(rows: seq<RefreshToken>, token: string)
    ensures RevokeAll(RevokeAll(rows, token), token) == RevokeAll(rows, token)
  {
    var once := RevokeAll(rows, token);
    var twice := RevokeAll(once, token);
    forall i | 0 <= i < |rows| ensures twice[i] == once[i] {
      if rows[i].token == token {
        assert once[i].token == token;
        assert twice[i].(revoked := once[i].revoked) == once[i];
      }
    }
  }

  /** Revoking a token that no row carries changes nothing (and is not an error). */
  lemma RevokeAbsentIsNoOp(rows: seq<RefreshToken>, token: string)
    requires FirstWhere(rows, HasToken(token)).None?
    ensures RevokeAll(rows, token) == rows
  {
    var r := RevokeAll(rows, token);
    forall i | 0 <= i < |rows| ensures r[i] == rows[i] {
      assert !HasToken(token)(rows[i]);
    }
  }

  /** Replay rejection at the table level: once `token` has been revoked, the row a later
      `FindByToken(token)` returns is the same first row, now revoked, whatever rows were
      appended after the revoke (even ones that reuse the same token string). */
  lemma RevokedStaysFirst(rows: seq<RefreshToken>, token: string, appended: seq<RefreshToken>)
    requires FirstWhere(rows, HasToken(token)).Some?
    ensures var k := FirstWhere(rows, HasToken(token)).value;
            var after := RevokeAll(rows, token) + appended;
            && FirstWhere(after, HasToken(token)) == Some(k)
            && after[k].revoked
  {
    var k := FirstWhere(rows, HasToken(token)).value;
    var after := RevokeAll(rows, token) + appended;
    assert HasToken(token)(after[k]);
    forall j | 0 <= j < k ensures !HasToken(token)(after[j]) {
      assert !HasToken(token)(rows[j]);
    }
    FirstWhereIsLeast(after, HasToken(token), k);
  }

  /** The in-memory refresh-token table behind RefreshTokenRepositoryPostgres. Rows are
      never deleted, so the auto-increment id of a row is its position plus one. */
  class RefreshTokenRepository {
    var rows: seq<RefreshToken>

    ghost predicate Valid()
      reads this
    {
      forall i :: 0 <= i < |rows| ==> rows[i].id == i + 1
    }

    constructor ()
      ensures Valid() && rows == []
    {
      rows := [];
    }

    /** Inserts a row with the argument's UserID, Token and ExpiresAt; its ID comes from
        the table and Revoked is always false, whatever the argument carries. */
    method Create(t: RefreshToken, failure: Option<string>) returns (err: Option<Error>)
      requires Valid()
      modifies this
      ensures Valid() && Evolves(old(rows), rows)
      ensures err == Reported(failure)
      ensures failure.Some? ==> rows == old(rows)
      ensures failure.None? ==>
        rows == old(rows) + [RefreshToken(|old(rows)| + 1, t.userId, t.token, false, t.expiresAt)]
    {
      if failure.Some? {
        return Reported(failure);
      }
      rows := rows + [RefreshToken(|rows| + 1, t.userId, t.token, false, t.expiresAt)];
      return None;
    }

    /** A copy of the first row carrying `token`, or the error the query reports:
        RecordNotFound when no row carries it. */
    method FindByToken(token: string, failure: Option<string>) returns (r: Result<RefreshToken>)
      ensures failure.Some? ==> r == Err(StoreError(failure.value))
      ensures failure.None? && r.Err? ==> r.error == RecordNotFound
      ensures failure.None? ==> (r.Ok? <==> exists i :: 0 <= i < |rows| && rows[i].token == token)
      ensures r.Ok? ==> r.value.token == token
      ensures r.Ok? ==> exists i :: 0 <= i < |rows| && rows[i] == r.value
                                    && forall j :: 0 <= j < i ==> rows[j].token != token
    {
      if failure.Some? {
        return Err(StoreError(failure.value));
      }
      match FirstWhere(rows, HasToken(token)) {
        case None =>
          r := Err(RecordNotFound);
          assert forall j :: 0 <= j < |rows| ==> !HasToken(token)(rows[j]);
        case Some(k) =>
          var t := rows[k];
          r := Ok(RefreshToken(t.id, t.userId, t.token, t.revoked, t.expiresAt));
          assert forall j :: 0 <= j < k ==> !HasToken(token)(rows[j]);
      }
    }

    /** Sets Revoked on every row carrying `token`. The number of affected rows is never
        looked at, so revoking an unknown token is not an error. */
    method Revoke(token: string, failure: Option<string>) returns (err: Option<Error>)
      requires Valid()
      modifies this
      ensures Valid() && Evolves(old(rows), rows)
      ensures err == Reported(failure)
      ensures rows == if failure.Some? then old(rows) else RevokeAll(old(rows), token)
    {
      if failure.Some? {
        return Reported(failure);
      }
      rows := RevokeAll(rows, token);
      return None;
    }
  }
}
