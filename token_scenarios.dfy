/**
 * The multi-step token tests restated over the model: each method makes
 * the same calls in the same order and promises, in its ensures, what the
 * test asserts, including that the cleanup the test defers leaves the
 * store as it found it.
 */
module TokenScenarios {
  import opened AuthTypes
  import Fingerprint
  import Tokens

  /** 24 hours in nanoseconds. */
  const Day: int := 24 * 60 * 60 * 1000000000

  /**
   * Ten (here: `n`) calls of `token(input, MD5)` with one seed give values
   * that differ from the first one, and indeed from each other.
   */
  method TokensCannotRepeat(g: Fingerprint.Generator, input: string, n: nat) returns (tokens: seq<string>)
    requires g.Valid()
    modifies g
    ensures g.Valid()
    ensures |tokens| == n
    ensures forall i :: 1 <= i < n ==> tokens[i] != tokens[0]
    ensures forall i, j :: 0 <= i < j < n ==> tokens[i] != tokens[j]
    ensures forall i :: 0 <= i < n ==> tokens[i] != "" && tokens[i] !in old(g.issued)
    ensures g.issued == old(g.issued) + set t | t in tokens
  {
    tokens := [];
    while |tokens| < n
      invariant g.Valid()
      invariant |tokens| <= n
      invariant forall i, j :: 0 <= i < j < |tokens| ==> tokens[i] != tokens[j]
      invariant forall i :: 0 <= i < |tokens| ==> tokens[i] != "" && tokens[i] !in old(g.issued)
      invariant g.issued == old(g.issued) + set t | t in tokens
      decreases n - |tokens|
    {
      var t := g.Generate(input, MD5);
      tokens := tokens + [t];
    }
  }

  /**
   * TestGetExpiredToken: an application token whose `validUntil` is moved
   * one day into the past is reported as expired.
   */
  method GetExpiredToken(s: Tokens.Store, now: int, later: int) returns (r: Result<Token>)
    requires s.Valid() && now <= later
    modifies s, s.gen
    ensures s.Valid()
    ensures r == Err(TokenExpired) && Message(r.error) == "Token has expired"
    ensures s.tokens == old(s.tokens) && s.passwordTokens == old(s.passwordTokens)
  {
    var t := s.CreateApplicationToken("tsuru-healer", now);
    t := t.(validUntil := now - Day);
    var found := s.UpdateToken(t);
    r := s.GetToken(t.token, later);
    s.DeleteToken(t.token);
  }

  /**
   * TestCreateApplicationToken: the new token is stored exactly once and
   * carries the application's name.
   */
  method CreateApplicationTokenStored(s: Tokens.Store, now: int) returns (t: Token, n: nat)
    requires s.Valid()
    modifies s, s.gen
    ensures s.Valid()
    ensures n == 1 && t.appName == "tsuru-healer"
    ensures s.tokens == old(s.tokens) && s.passwordTokens == old(s.passwordTokens)
  {
    t := s.CreateApplicationToken("tsuru-healer", now);
    n := s.Count(t);
    s.DeleteToken(t.token);
  }

  /** TestDeleteToken: after deleting a new token, looking it up finds nothing. */
  method DeleteThenGet(s: Tokens.Store, now: int, later: int) returns (r: Result<Token>)
    requires s.Valid()
    modifies s, s.gen
    ensures s.Valid()
    ensures r == Err(TokenNotFound) && Message(r.error) == "Token not found"
    ensures s.tokens == old(s.tokens) && s.passwordTokens == old(s.passwordTokens)
  {
    var t := s.CreateApplicationToken("tsuru-healer", now);
    s.DeleteToken(t.token);
    r := s.GetToken(t.token, later);
  }

  /**
   * TestCreatePasswordToken: a reset token for a user with an email is
   * unused, owned by that email, and the stored record equals it.
   */
  method CreatePasswordTokenStored(s: Tokens.Store, now: int) returns (t: PasswordToken, db: Option<PasswordToken>)
    requires s.Valid()
    modifies s, s.gen
    ensures s.Valid()
    ensures t.userEmail == "pure@alanis.com" && !t.used
    ensures db == Some(t)
  {
    var u := User("pure@alanis.com");
    var r := s.CreatePasswordToken(Some(u), now);
    t := r.value;
    db := s.GetPasswordToken(t.token);
  }

  /** One row of the error table: an input and the message it must fail with. */
  datatype ErrorCase = ErrorCase(input: Option<User>, want: string)

  const PasswordTokenErrorCases: seq<ErrorCase> :=
    [ErrorCase(None, "User is nil"), ErrorCase(Some(User("")), "User email is empty")]

  /** createPasswordToken rejects `c.input` with the message `c.want`. */
  predicate RejectedAsExpected(c: ErrorCase)
  {
    match ValidateUser(c.input, UserEmailEmpty)
    case Some(e) => Message(e) == c.want
    case None => false
  }

  /** Every row of the test's own table is rejected with its message. */
  lemma PasswordTokenErrorCasesRejected()
    ensures forall i :: 0 <= i < |PasswordTokenErrorCases| ==> RejectedAsExpected(PasswordTokenErrorCases[i])
  {
  }

  /** What one row of the table checks, in terms of createPasswordToken's contract. */
  lemma OutcomeMatchesRejection(c: ErrorCase, r: Result<PasswordToken>)
    requires r.Err? <==> ValidateUser(c.input, UserEmailEmpty).Some?
    requires r.Err? ==> Some(r.error) == ValidateUser(c.input, UserEmailEmpty)
    ensures (r.Err? && Message(r.error) == c.want) <==> RejectedAsExpected(c)
  {
  }

  /**
   * TestCreatePasswordTokenErrors: runs createPasswordToken on each row and
   * records whether it failed with the row's message. A table of inputs
   * that are all rejected leaves the stores untouched.
   */
  method CheckPasswordTokenErrors(s: Tokens.Store, cases: seq<ErrorCase>, now: int) returns (passed: seq<bool>)
    requires s.Valid()
    modifies s, s.gen
    ensures s.Valid()
    ensures |passed| == |cases|
    ensures forall i :: 0 <= i < |cases| ==> (passed[i] <==> RejectedAsExpected(cases[i]))
    ensures s.tokens == old(s.tokens)
    ensures (forall i :: 0 <= i < |cases| ==> ValidateUser(cases[i].input, UserEmailEmpty).Some?)
            ==> s.passwordTokens == old(s.passwordTokens) && s.gen.issued == old(s.gen.issued)
  {
    passed := [];
    var i := 0;
    while i < |cases|
      invariant s.Valid()
      invariant 0 <= i <= |cases| && |passed| == i
      invariant forall j :: 0 <= j < i ==> (passed[j] <==> RejectedAsExpected(cases[j]))
      invariant s.tokens == old(s.tokens)
      invariant (forall j :: 0 <= j < i ==> ValidateUser(cases[j].input, UserEmailEmpty).Some?)
                ==> s.passwordTokens == old(s.passwordTokens) && s.gen.issued == old(s.gen.issued)
    {
      var r := s.CreatePasswordToken(cases[i].input, now);
      var ok := r.Err? && Message(r.error) == cases[i].want;
      OutcomeMatchesRejection(cases[i], r);
      passed := passed + [ok];
      i := i + 1;
    }
  }
}
