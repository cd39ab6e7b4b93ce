/** `verify_token`: the gate in front of every note handler. The token file
    is given as its lines, or as None when `tokens.txt` does not exist. */
module Tokens {
  import opened Results

  /** Whether `token` is one whole line of `lines` (Python's `token in lines`,
      a scan from the first line). */
  function ContainsLine(lines: seq<string>, token: string): (found: bool)
    ensures found <==> exists k :: 0 <= k < |lines| && lines[k] == token
    decreases |lines|
  {
    if |lines| == 0 then false
    else lines[0] == token || ContainsLine(lines[1..], token)
  }

  /** Passes exactly when the token file exists and one of its lines equals
      the token; otherwise fails with Unauthorized (HTTP 401). */
  function VerifyToken(tokenFile: Option<seq<string>>, token: string): (r: Outcome)
    ensures tokenFile.None? ==> r == Fail(Unauthorized)
    ensures tokenFile.Some? ==>
      (r == Pass <==> exists k :: 0 <= k < |tokenFile.value| && tokenFile.value[k] == token)
    ensures r == Pass || r == Fail(Unauthorized)
  {
    match tokenFile
    case None => Fail(Unauthorized)
    case Some(lines) => if ContainsLine(lines, token) then Pass else Fail(Unauthorized)
  }
}
