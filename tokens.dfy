/** The token service the authentication use case depends on (the TokenService interface
    of use_cases/auth_service.go). Signing is not modelled: the service is a fake whose
    answers come from an arbitrary, possibly failing oracle, and which logs every request
    so that a caller's use of it is observable. */
module Tokens {
  import opened Common

  datatype Kind = AccessKind | RefreshKind

  /** One call to the service: which kind of token, for which user. */
  datatype Request = Request(kind: Kind, userId: nat)

  class TokenIssuer {
    /** The answer to the n-th request (counting from 0) for a token of that kind and user. */
    const sign: (Kind, nat, nat) -> Result<string>
    /** Every request made so far, oldest first. */
    var requests: seq<Request>

    constructor (sign: (Kind, nat, nat) -> Result<string>)
      ensures this.sign == sign && requests == []
    {
      this.sign := sign;
      requests := [];
    }

    /** GenerateAccessToken(userID): logs the request and returns the oracle's answer. */
    method GenerateAccessToken(userId: nat) returns (r: Result<string>)
      modifies this
      ensures requests == old(requests) + [Request(AccessKind, userId)]
      ensures r == sign(AccessKind, userId, |old(requests)|)
    {
      r := sign(AccessKind, userId, |requests|);
      requests := requests + [Request(AccessKind, userId)];
    }

    /** GenerateRefreshToken(userID): logs the request and returns the oracle's answer. */
    method GenerateRefreshToken(userId: nat) returns (r: Result<string>)
      modifies this
      ensures requests == old(requests) + [Request(RefreshKind, userId)]
      ensures r == sign(RefreshKind, userId, |old(requests)|)
    {
      r := sign(RefreshKind, userId, |requests|);
      requests := requests + [Request(RefreshKind, userId)];
    }
  }
}
