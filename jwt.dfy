/** The signed-token codec the handlers use (HS256 JSON Web Tokens, RFC 7519)
    reduced to what the handlers rely on: a token is issued for an account_id
    claim, and decoding a token either fails or gives the claim back.
    Signing is not modelled: a token is a fixed header followed by the claim. */
module Jwt {
  import opened Http

  /** Stands for the encoded JOSE header and signature of a real token. */
  const Header: string := "HS256."

  /** Issues the token for an account_id claim. */
  function Encode(accountId: string): (token: string)
    ensures |token| > 0
    ensures Decode(token) == Some(accountId)
  {
    var token := Header + accountId;
    assert token[..|Header|] == Header && token[|Header|..] == accountId;
    token
  }

  /** Verifies a token and extracts its account_id claim; None when the token
      is not one this codec issued. */
  function Decode(token: string): (claim: Option<string>)
    ensures claim.Some? ==> token == Header + claim.value
  {
    if |token| >= |Header| && token[..|Header|] == Header then
      assert token == token[..|Header|] + token[|Header|..];
      Some(token[|Header|..])
    else None
  }
}
