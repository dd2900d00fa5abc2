/**
 * The bearer-token guard of the internal scheduler endpoints (`verify_scheduler_token` in
 * app/routers/internal.py). The configured token and the Authorization header come in as
 * parameters: None is an unset variable or a missing header.
 */
module InternalAuth {
  import opened Wrappers
  import opened Text

  /** The `HTTPException` the guard raises. */
  datatype HttpError = HttpError(status: nat, detail: string)

  const NOT_CONFIGURED := HttpError(500, "Scheduler token not configured")
  const HEADER_REQUIRED := HttpError(401, "Authorization header required")
  const BAD_FORMAT := HttpError(401, "Invalid authorization format. Expected: Bearer <token>")
  const BAD_TOKEN := HttpError(401, "Invalid authorization token")

  /**
   * The token of an Authorization header: `split()` must give exactly two pieces, the first
   * "bearer" in any case.
   */
  function BearerToken(header: string): (t: Option<string>)
    ensures t.Some? ==> IsWord(t.value)
    ensures t.Some? <==> |Words(header)| == 2 && Lower(Words(header)[0]) == "bearer"
  {
    var parts := Words(header);
    WordsAreWords(header);
    if |parts| != 2 || Lower(parts[0]) != "bearer" then None else Some(parts[1])
  }

  /**
   * `verify_scheduler_token`: 500 when no token is configured, whatever the header; 401 when
   * the header is missing, malformed or carries another token.
   */
  function VerifySchedulerToken(token: Option<string>, authorization: Option<string>): (r: Result<(), HttpError>)
    ensures !Filled(token) ==> r == Err(NOT_CONFIGURED)
    ensures Filled(token) && !Filled(authorization) ==> r == Err(HEADER_REQUIRED)
    ensures Filled(token) && Filled(authorization) && BearerToken(authorization.value).None? ==> r == Err(BAD_FORMAT)
    ensures r.Ok? <==> Filled(token) && Filled(authorization) && BearerToken(authorization.value) == Some(token.value)
    ensures r.Err? && r.error.status == 500 <==> !Filled(token)
  {
    if !Filled(token) then Err(NOT_CONFIGURED)
    else if !Filled(authorization) then Err(HEADER_REQUIRED)
    else
      var provided := BearerToken(authorization.value);
      if provided.None? then Err(BAD_FORMAT)
      else if provided.value != token.value then Err(BAD_TOKEN)
      else Ok(())
  }

  /** A token holding whitespace (say, "   ") counts as configured, yet no header can match it. */
  lemma SpacedTokenNeverMatches(token: string, authorization: Option<string>, i: nat)
    requires i < |token| && IsSpace(token[i])
    ensures VerifySchedulerToken(Some(token), authorization).Err?
  {
  }

  /** The leading word of a word followed by whitespace (or nothing) is that word. */
  lemma {:induction false} WordLengthOfWord(w: string, rest: string)
    requires IsWord(w)
    requires rest == [] || IsSpace(rest[0])
    ensures WordLength(w + rest) == |w|
    decreases |w|
  {
    var s := w + rest;
    assert s[0] == w[0];
    if |w| > 1 {
      assert s[1..] == w[1..] + rest;
      WordLengthOfWord(w[1..], rest);
    } else {
      assert s[1..] == rest;
    }
  }

  /** Splitting a word followed by whitespace (or nothing) yields the word first. */
  lemma WordsAfterWord(w: string, rest: string)
    requires IsWord(w)
    requires rest == [] || IsSpace(rest[0])
    ensures Words(w + rest) == [w] + Words(rest)
  {
    var s := w + rest;
    assert TrimStart(s) == s by { assert s[0] == w[0]; }
    WordLengthOfWord(w, rest);
    assert s[..|w|] == w;
    assert s[|w|..] == rest;
  }

  /** Leading whitespace does not change the split. */
  lemma WordsDropSpace(s: string)
    requires s != [] && IsSpace(s[0])
    ensures Words(s) == Words(s[1..])
  {
    assert TrimStart(s) == TrimStart(s[1..]);
  }

  /** A word is its own leading word. */
  lemma {:induction false} WordLengthAll(w: string)
    requires IsWord(w)
    ensures WordLength(w) == |w|
    decreases |w|
  {
    if |w| > 1 {
      WordLengthAll(w[1..]);
    }
  }

  /** A single word splits to itself. */
  lemma WordsOfWord(w: string)
    requires IsWord(w)
    ensures Words(w) == [w]
  {
    assert TrimStart(w) == w;
    WordLengthAll(w);
    assert w[|w|..] == [];
    assert w[..|w|] == w;
  }

  /** Two words joined by one space split back into the two words. */
  lemma TwoWords(a: string, b: string)
    requires IsWord(a) && IsWord(b)
    ensures Words(a + " " + b) == [a, b]
  {
    var rest := " " + b;
    assert a + " " + b == a + rest;
    WordsAfterWord(a, rest);
    WordsDropSpace(rest);
    assert rest[1..] == b;
    WordsOfWord(b);
  }

  /** A header "<scheme> <token>" with a scheme that lower-cases to "bearer" carries its token. */
  lemma BearerHeader(scheme: string, token: string)
    requires IsWord(scheme) && IsWord(token) && Lower(scheme) == "bearer"
    ensures BearerToken(scheme + " " + token) == Some(token)
  {
    TwoWords(scheme, token);
  }

  lemma BearerScheme()
    ensures IsWord("Bearer") && Lower("Bearer") == "bearer"
  {
    var scheme := "Bearer";
    assert forall i :: 0 <= i < |scheme| ==> 'A' <= scheme[i] <= 'z';
  }

  /** The header the scheduler sends, "Bearer <token>", carries its token. */
  lemma CanonicalHeader(token: string)
    requires IsWord(token)
    ensures BearerToken("Bearer " + token) == Some(token)
  {
    BearerScheme();
    BearerHeader("Bearer", token);
    assert "Bearer" + " " + token == "Bearer " + token;
  }

  /** So the guard accepts it exactly when the configured token is that word. */
  lemma CanonicalHeaderAccepted(token: string, configured: string)
    requires IsWord(token)
    ensures VerifySchedulerToken(Some(configured), Some("Bearer " + token)).Ok? <==> configured == token
  {
    CanonicalHeader(token);
  }
}
