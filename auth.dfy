/** The refresh-token lifecycle of AuthUseCase (use_cases/auth_service.go): registration,
    login, and refresh-token rotation over a user store, a refresh-token store and a token
    service. The clock is the `now` parameter (nanoseconds); bcrypt's comparison is the
    `compare` oracle; what the database answers to each statement is the `faults` record. */
module Auth {
  import opened Common
  import opened Tables
  import opened RefreshTokens
  import opened Users
  import opened Tokens

  /** 7 * 24 * time.Hour, in nanoseconds. */
  const RefreshLifetime: int := 7 * 24 * 60 * 60 * 1000000000

  /** What the database answers to each kind of statement one call issues: None when the
      statement runs, Some(message) when it fails. */
  datatype Faults = Faults(lookup: Option<string>, revoke: Option<string>, insert: Option<string>)

  class AuthUseCase {
    const users: UserRepository
    const refreshTokens: RefreshTokenRepository
    const tokens: TokenIssuer
    /** bcrypt.CompareHashAndPassword(hash, password) == nil */
    const compare: (string, string) -> bool

    ghost predicate Valid()
      reads this, users, refreshTokens
    {
      users.Valid() && refreshTokens.Valid()
    }

    /** The user FindByEmail(email) returns when the query runs. */
    ghost function UserFor(email: string): Option<User>
      reads this, users
    {
      match FirstWhere(users.rows, HasEmail(email))
      case None => None
      case Some(k) => Some(users.rows[k])
    }

    /** The record FindByToken(token) returns when the query runs. */
    ghost function RecordFor(token: string): Option<RefreshToken>
      reads this, refreshTokens
    {
      match FirstWhere(refreshTokens.rows, HasToken(token))
      case None => None
      case Some(k) => Some(refreshTokens.rows[k])
    }

    /** The shared tail of Login and Refresh, from table `before` and request log
        `logBefore`: an access token and then (if that worked) a refresh token are requested
        for `userId`; only if both are issued and the insert runs is one unrevoked record
        holding the refresh token, for that user and expiring `now` + 7 days, appended, and
        the two tokens returned. The first failure is the error. */
    ghost predicate Issued(before: seq<RefreshToken>, after: seq<RefreshToken>,
                           logBefore: seq<Request>, logAfter: seq<Request>, userId: nat, now: int,
                           insertFailure: Option<string>, access: string, refresh: string, err: Option<Error>)
    {
      var n := |logBefore|;
      var a := tokens.sign(AccessKind, userId, n);
      var t := tokens.sign(RefreshKind, userId, n + 1);
      var stored := a.Ok? && t.Ok? && insertFailure.None?;
      && logAfter == logBefore + [Request(AccessKind, userId)] + (if a.Ok? then [Request(RefreshKind, userId)] else [])
      && err == (if a.Err? then Some(a.error) else if t.Err? then Some(t.error) else Reported(insertFailure))
      && (stored ==> access == a.value && refresh == t.value)
      && after == before + (if stored then [RefreshToken(|before| + 1, userId, t.value, false, now + RefreshLifetime)] else [])
    }

    constructor (users: UserRepository, refreshTokens: RefreshTokenRepository, tokens: TokenIssuer,
                 compare: (string, string) -> bool)
      requires users.Valid() && refreshTokens.Valid()
      ensures Valid()
      ensures this.users == users && this.refreshTokens == refreshTokens
      ensures this.tokens == tokens && this.compare == compare
    {
      this.users := users;
      this.refreshTokens := refreshTokens;
      this.tokens := tokens;
      this.compare := compare;
    }

    /** Hands the email and the plaintext password, unchanged, to the user store and
        returns its error: the hashing happens once, in the store. */
    method Register(email: string, password: string, failure: Option<string>) returns (err: Option<Error>)
      requires Valid()
      modifies users
      ensures Valid()
      ensures err == Reported(failure)
      ensures users.rows == if failure.Some? then old(users.rows)
        else old(users.rows) + [User(|old(users.rows)| + 1, email, users.generate(password, BcryptCost).hash)]
    {
      err := users.Create(User(0, email, password), failure);
    }

    /** Checks the credential, asks for an access and a refresh token, and stores the
        refresh token as a fresh, unrevoked record expiring seven days after `now`. */
    method Login(email: string, password: string, now: int, faults: Faults)
      returns (access: string, refresh: string, err: Option<Error>)
      requires Valid()
      modifies refreshTokens, tokens
      ensures Valid() && Evolves(old(refreshTokens.rows), refreshTokens.rows)
      ensures err.Some? ==> access == "" && refresh == ""
      ensures
        if faults.lookup.Some? || UserFor(email).None? then
          // unknown email, or the lookup failed: the store's own error, nothing requested or stored
          && err == (if faults.lookup.Some? then Reported(faults.lookup) else Some(RecordNotFound))
          && refreshTokens.rows == old(refreshTokens.rows)
          && tokens.requests == old(tokens.requests)
        else if !compare(UserFor(email).value.password, password) then
          // wrong password: no token requested, no record stored
          && err == Some(InvalidCredentials)
          && refreshTokens.rows == old(refreshTokens.rows)
          && tokens.requests == old(tokens.requests)
        else
          Issued(old(refreshTokens.rows), refreshTokens.rows, old(tokens.requests), tokens.requests,
                 UserFor(email).value.id, now, faults.insert, access, refresh, err)
    {
      var found := users.FindByEmail(email, faults.lookup);
      if found.Err? {
        return "", "", Some(found.error);
      }
      var user := found.value;
      assert user == UserFor(email).value by {
        var k := FirstWhere(users.rows, HasEmail(email)).value;
        assert forall j :: 0 <= j < k ==> !HasEmail(email)(users.rows[j]);
      }
      if !compare(user.password, password) {
        return "", "", Some(InvalidCredentials);
      }
      access, refresh, err := IssuePair(user.id, now, faults.insert);
    }

    /** Rotates a refresh token. In order: an unknown token is rejected, a revoked one is
        rejected (even when also expired), an expired one is revoked and rejected; otherwise
        the presented token is revoked and a new pair is issued and stored. Nothing is
        rolled back when a step after the revoke fails. */
    method Refresh(token: string, now: int, faults: Faults)
      returns (access: string, refresh: string, err: Option<Error>)
      requires Valid()
      modifies refreshTokens, tokens
      ensures Valid() && Evolves(old(refreshTokens.rows), refreshTokens.rows)
      ensures err.Some? ==> access == "" && refresh == ""
      ensures
        var record := old(RecordFor(token));
        if faults.lookup.Some? || record.None? then
          // no record (or the lookup failed): nothing changes
          && err == Some(InvalidRefreshToken)
          && refreshTokens.rows == old(refreshTokens.rows)
          && tokens.requests == old(tokens.requests)
        else if record.value.revoked then
          // revoked, whatever its expiry: nothing changes
          && err == Some(RefreshTokenRevoked)
          && refreshTokens.rows == old(refreshTokens.rows)
          && tokens.requests == old(tokens.requests)
        else if now > record.value.expiresAt then
          // expired: revoked lazily (the revoke's own error is dropped), nothing requested
          && err == Some(RefreshTokenExpired)
          && refreshTokens.rows == (if faults.revoke.Some? then old(refreshTokens.rows)
                                    else RevokeAll(old(refreshTokens.rows), token))
          && tokens.requests == old(tokens.requests)
        else if faults.revoke.Some? then
          // the revoke failed: its error, nothing changes
          && err == Reported(faults.revoke)
          && refreshTokens.rows == old(refreshTokens.rows)
          && tokens.requests == old(tokens.requests)
        else
          // live: the presented token stays revoked whatever happens next
          Issued(RevokeAll(old(refreshTokens.rows), token), refreshTokens.rows, old(tokens.requests), tokens.requests,
                 record.value.userId, now, faults.insert, access, refresh, err)
    {
      var found := refreshTokens.FindByToken(token, faults.lookup);
      if found.Err? {
        return "", "", Some(InvalidRefreshToken);
      }
      var rt := found.value;
      assert rt == RecordFor(token).value by {
        var k := FirstWhere(refreshTokens.rows, HasToken(token)).value;
        assert forall j :: 0 <= j < k ==> !HasToken(token)(refreshTokens.rows[j]);
      }
      if rt.revoked {
        return "", "", Some(RefreshTokenRevoked);
      }
      if now > rt.expiresAt {
        var ignored := refreshTokens.Revoke(token, faults.revoke);
        return "", "", Some(RefreshTokenExpired);
      }
      var revokeErr := refreshTokens.Revoke(token, faults.revoke);
      if revokeErr.Some? {
        return "", "", revokeErr;
      }
      ghost var revoked := refreshTokens.rows;
      access, refresh, err := IssuePair(rt.userId, now, faults.insert);
      EvolvesTransitive(old(refreshTokens.rows), revoked, refreshTokens.rows);
    }

    /** The steps Login and Refresh share once the caller is authenticated: ask for an
        access token, then a refresh token, for `userId`, and store the refresh token as an
        unrevoked record expiring seven days after `now`. Any failure returns two empty
        strings and its error. */
    method IssuePair(userId: nat, now: int, insertFailure: Option<string>)
      returns (access: string, refresh: string, err: Option<Error>)
      requires Valid()
      modifies refreshTokens, tokens
      ensures Valid() && Evolves(old(refreshTokens.rows), refreshTokens.rows)
      ensures err.Some? ==> access == "" && refresh == ""
      ensures Issued(old(refreshTokens.rows), refreshTokens.rows, old(tokens.requests), tokens.requests,
                     userId, now, insertFailure, access, refresh, err)
    {
      var newAccess := tokens.GenerateAccessToken(userId);
      if newAccess.Err? {
        return "", "", Some(newAccess.error);
      }
      var newRefresh := tokens.GenerateRefreshToken(userId);
      if newRefresh.Err? {
        return "", "", Some(newRefresh.error);
      }
      var createErr := refreshTokens.Create(
        RefreshToken(0, userId, newRefresh.value, false, now + RefreshLifetime), insertFailure);
      if createErr.Some? {
        return "", "", createErr;
      }
      return newAccess.value, newRefresh.value, None;
    }
  }

  /** Replay rejection: once a Refresh has found `token` and its revoke has run, every later
      Refresh of the same token fails as revoked, even when the token has expired since. */
  method RefreshTwice(uc: AuthUseCase, token: string, now1: int, faults1: Faults, now2: int, faults2: Faults)
    returns (err1: Option<Error>, err2: Option<Error>)
    requires uc.Valid()
    requires faults2.lookup.None?
    modifies uc.refreshTokens, uc.tokens
    ensures faults1.lookup.None? && faults1.revoke.None? && err1 != Some(InvalidRefreshToken) ==>
      err2 == Some(RefreshTokenRevoked)
  {
    ghost var before := uc.refreshTokens.rows;
    var access1, refresh1;
    access1, refresh1, err1 := uc.Refresh(token, now1, faults1);
    if faults1.lookup.None? && faults1.revoke.None? && FirstWhere(before, HasToken(token)).Some? {
      var k := FirstWhere(before, HasToken(token)).value;
      if !before[k].revoked {
        var appended := uc.refreshTokens.rows[|before|..];
        assert uc.refreshTokens.rows == RevokeAll(before, token) + appended;
        RevokedStaysFirst(before, token, appended);
      }
    }
    var access2, refresh2;
    access2, refresh2, err2 := uc.Refresh(token, now2, faults2);
  }

  /** A user registers and logs in, on one concrete set of oracles; the refresh token
      handed out is stored unrevoked. */
  method WalkthroughLogin()
  {
    var users := new UserRepository((password: string, cost: nat) => Hashed("bcrypt:" + password, None));
    var store := new RefreshTokenRepository();
    var tokens := new TokenIssuer((kind: Kind, userId: nat, n: nat) =>
      Ok(if n == 0 then "access1" else "refresh1"));
    var uc := new AuthUseCase(users, store, tokens, (hash: string, password: string) => hash == "bcrypt:" + password);

    var err := uc.Register("carol@example.org", "hunter2", None);
    assert err == None;
    assert users.rows == [User(1, "carol@example.org", "bcrypt:" + "hunter2")];
    assert HasEmail("carol@example.org")(users.rows[0]);
    assert uc.UserFor("carol@example.org") == Some(users.rows[0]);

    var access, refresh, loginErr := uc.Login("carol@example.org", "hunter2", 0, Faults(None, None, None));
    assert loginErr == None && access == "access1" && refresh == "refresh1";
    assert store.rows == [RefreshToken(1, 1, "refresh1", false, RefreshLifetime)];
  }

  /** A stored refresh token is rotated once, after which it is revoked and its
      replacement is stored unrevoked; presenting the original token again is rejected
      as revoked. */
  method WalkthroughRotation()
  {
    var users := new UserRepository((password: string, cost: nat) => Hashed(password, None));
    var store := new RefreshTokenRepository();
    var created := store.Create(RefreshToken(0, 1, "refresh1", false, RefreshLifetime), None);
    var tokens := new TokenIssuer((kind: Kind, userId: nat, n: nat) =>
      Ok(if n == 0 then "access2" else "refresh2"));
    var uc := new AuthUseCase(users, store, tokens, (hash: string, password: string) => false);
    var noFaults := Faults(None, None, None);
    assert HasToken("refresh1")(store.rows[0]);
    assert uc.RecordFor("refresh1") == Some(store.rows[0]);

    var access, refresh, err := uc.Refresh("refresh1", 1, noFaults);
    assert err == None && access == "access2" && refresh == "refresh2";
    assert store.rows[0].revoked;
    assert store.rows[1] == RefreshToken(2, 1, "refresh2", false, 1 + RefreshLifetime);

    assert store.rows == [store.rows[0], store.rows[1]];
    assert HasToken("refresh1")(store.rows[0]);
    assert uc.RecordFor("refresh1") == Some(store.rows[0]);
    var replayAccess, replayRefresh, replayErr := uc.Refresh("refresh1", 2, noFaults);
    assert replayErr == Some(RefreshTokenRevoked);
  }
}
