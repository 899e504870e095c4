/**
 * The session/application token store and the password-reset token store.
 * Each collection is a map from a token's value to its record; the
 * decisions the package takes on a lookup are pure functions of that map
 * and of the current instant, which is always passed in.
 */
module Tokens {
  import opened AuthTypes
  import Fingerprint

  /** Every record is stored under its own token value. */
  ghost predicate KeyedByToken(m: map<string, Token>)
  {
    forall k :: k in m ==> m[k].token == k
  }

  ghost predicate PasswordKeyedByToken(m: map<string, PasswordToken>)
  {
    forall k :: k in m ==> m[k].token == k
  }

  /** A user directory holds each user under that user's email. */
  ghost predicate KeyedByEmail(users: map<string, User>)
  {
    forall e :: e in users ==> users[e].email == e
  }

  /**
   * `GetToken(v)` at instant `now`. The empty value and a value with no
   * record are both "Token not found"; a record whose validity window has
   * passed is "Token has expired"; otherwise the stored record comes back.
   */
  function Lookup(tokens: map<string, Token>, v: string, now: int): (r: Result<Token>)
    ensures r.Ok? <==> v != "" && v in tokens && !Expired(tokens[v], now)
    ensures r.Ok? ==> r.value == tokens[v]
    ensures r.Ok? && KeyedByToken(tokens) ==> r.value.token == v
    ensures r == Err(TokenNotFound) <==> v == "" || v !in tokens
    ensures r == Err(TokenExpired) <==> v != "" && v in tokens && Expired(tokens[v], now)
  {
    if v == "" then Err(TokenNotFound)
    else if v !in tokens then Err(TokenNotFound)
    else if Expired(tokens[v], now) then Err(TokenExpired)
    else Ok(tokens[v])
  }

  /** A token that is found stays found at every earlier instant. */
  lemma LookupValidBefore(tokens: map<string, Token>, v: string, earlier: int, now: int)
    requires earlier <= now && Lookup(tokens, v, now).Ok?
    ensures Lookup(tokens, v, earlier) == Lookup(tokens, v, now)
  {
  }

  /** Once a lookup fails, it fails with the same error at every later instant. */
  lemma LookupFailsAfter(tokens: map<string, Token>, v: string, now: int, later: int)
    requires now <= later && Lookup(tokens, v, now).Err?
    ensures Lookup(tokens, v, later) == Lookup(tokens, v, now)
  {
  }

  /** A record stored under a new value is found again until it expires. */
  lemma LookupAfterIssue(tokens: map<string, Token>, t: Token, now: int)
    requires t.token != "" && now < t.validUntil
    ensures Lookup(tokens[t.token := t], t.token, now) == Ok(t)
  {
  }

  /** A deleted value is not found, whatever it held before. */
  lemma LookupAfterDelete(tokens: map<string, Token>, v: string, now: int)
    ensures Lookup(tokens - {v}, v, now) == Err(TokenNotFound)
  {
  }

  /** Storing or removing one record does not change the lookup of another. */
  lemma LookupFrame(tokens: map<string, Token>, k: string, t: Token, v: string, now: int)
    requires k != v
    ensures Lookup(tokens[k := t], v, now) == Lookup(tokens, v, now)
    ensures Lookup(tokens - {k}, v, now) == Lookup(tokens, v, now)
  {
  }

  /** The number of records equal to `t`, as `Find(t).Count()` reports it. */
  function CountMatching(tokens: map<string, Token>, t: Token): (n: nat)
    ensures n <= |tokens|
    ensures n == 0 <==> t !in tokens.Values
  {
    var ks := set k | k in tokens && tokens[k] == t;
    SubsetCardinality(ks, tokens.Keys);
    if t in tokens.Values then
      var k :| k in tokens && tokens[k] == t;
      assert k in ks;
      |ks|
    else
      assert ks == {};
      |ks|
  }

  lemma {:induction false} SubsetCardinality<T>(a: set<T>, b: set<T>)
    requires a <= b
    ensures |a| <= |b|
  {
    if a != {} {
      var x :| x in a;
      SubsetCardinality(a - {x}, b - {x});
    }
  }

  /** In a store keyed by token value, a record is either there once or not at all. */
  lemma CountMatchingKeyed(tokens: map<string, Token>, t: Token)
    requires KeyedByToken(tokens)
    ensures CountMatching(tokens, t) == if t.token in tokens && tokens[t.token] == t then 1 else 0
  {
    var ks := set k | k in tokens && tokens[k] == t;
    if t.token in tokens && tokens[t.token] == t {
      assert ks == {t.token};
    } else {
      assert ks == {};
    }
  }

  /**
   * `Token.User()`: the owner of the token, looked up by email in the user
   * directory; it fails when the directory has no user with that email.
   */
  function TokenUser(t: Token, users: map<string, User>): (r: Result<User>)
    ensures r.Ok? <==> t.userEmail in users
    ensures r.Ok? ==> r.value == users[t.userEmail]
    ensures r.Ok? && KeyedByEmail(users) ==> r.value.email == t.userEmail
    ensures r.Err? ==> r.error == UserNotFound
  {
    if t.userEmail in users then Ok(users[t.userEmail]) else Err(UserNotFound)
  }

  /** The record under `_id == v` in the password-token store. */
  function FindPasswordToken(m: map<string, PasswordToken>, v: string): (r: Option<PasswordToken>)
    ensures r.Some? <==> v in m
    ensures r.Some? ==> r.value == m[v]
    ensures r.Some? && PasswordKeyedByToken(m) ==> r.value.token == v
  {
    if v in m then Some(m[v]) else None
  }

  /** A reset token inserted under its own value is found again, field for field. */
  lemma FindAfterInsert(m: map<string, PasswordToken>, t: PasswordToken)
    ensures FindPasswordToken(m[t.token := t], t.token) == Some(t)
  {
  }

  /** Inserting one reset token does not change what is found under another id. */
  lemma FindFrame(m: map<string, PasswordToken>, t: PasswordToken, v: string)
    requires v != t.token
    ensures FindPasswordToken(m[t.token := t], v) == FindPasswordToken(m, v)
  {
  }

  class Store {
    /** The tokens collection, by token value. */
    var tokens: map<string, Token>
    /** The password-tokens collection, by `_id`, which is the token value. */
    var passwordTokens: map<string, PasswordToken>
    /** The source of fresh token values. */
    const gen: Fingerprint.Generator
    /** How long a user token stays valid. */
    const userTtl: int
    /** How long an application token stays valid. */
    const appTtl: int

    ghost predicate Valid()
      reads this, gen
    {
      && gen.Valid()
      && userTtl > 0 && appTtl > 0
      && KeyedByToken(tokens) && PasswordKeyedByToken(passwordTokens)
      && tokens.Keys <= gen.issued && passwordTokens.Keys <= gen.issued
    }

    constructor (gen: Fingerprint.Generator, userTtl: int, appTtl: int)
      requires gen.Valid() && userTtl > 0 && appTtl > 0
      ensures Valid()
      ensures this.gen == gen && this.userTtl == userTtl && this.appTtl == appTtl
      ensures tokens == map[] && passwordTokens == map[]
    {
      this.gen := gen;
      this.userTtl := userTtl;
      this.appTtl := appTtl;
      tokens := map[];
      passwordTokens := map[];
    }

    /**
     * `newUserToken(u)`: validates the user, then builds an unsaved token
     * owned by the user's email with a fresh value. Saving it is up to the
     * caller.
     */
    method NewUserToken(u: Option<User>, now: int) returns (r: Result<Token>)
      requires Valid()
      modifies gen
      ensures Valid()
      ensures r.Err? <==> ValidateUser(u, UserWithoutEmail).Some?
      ensures r.Err? ==> Some(r.error) == ValidateUser(u, UserWithoutEmail)
      ensures r.Err? ==> gen.issued == old(gen.issued)
      ensures r.Ok? ==> && r.value.userEmail == u.value.email
                        && r.value.appName == ""
                        && r.value.validUntil == now + userTtl
                        && r.value.token != ""
                        && r.value.token !in old(gen.issued)
                        && gen.issued == old(gen.issued) + {r.value.token}
    {
      var check := ValidateUser(u, UserWithoutEmail);
      if check.Some? {
        return Err(check.value);
      }
      var v := gen.Generate(u.value.email, SHA1);
      r := Ok(Token(v, now + userTtl, u.value.email, ""));
    }

    /**
     * `CreateApplicationToken(name)`: a token for the application `name`,
     * with no owner, stored under a value the store has never held.
     */
    method CreateApplicationToken(name: string, now: int) returns (t: Token)
      requires Valid()
      modifies this, gen
      ensures Valid()
      ensures t.appName == name && t.userEmail == "" && t.validUntil == now + appTtl
      ensures t.token != "" && t.token !in old(gen.issued) && t.token !in old(tokens)
      ensures gen.issued == old(gen.issued) + {t.token}
      ensures tokens == old(tokens)[t.token := t]
      ensures passwordTokens == old(passwordTokens)
    {
      var v := gen.Generate(name, SHA1);
      t := Token(v, now + appTtl, "", name);
      tokens := tokens[v := t];
    }

    /** `GetToken(v)` against the current contents of the store. */
    method GetToken(v: string, now: int) returns (r: Result<Token>)
      requires Valid()
      ensures r == Lookup(tokens, v, now)
      ensures r.Ok? ==> r.value.token == v && r.value == tokens[v]
    {
      if v == "" {
        return Err(TokenNotFound);
      }
      if v !in tokens {
        return Err(TokenNotFound);
      }
      var t := tokens[v];
      if t.validUntil <= now {
        return Err(TokenExpired);
      }
      r := Ok(t);
    }

    /** `DeleteToken(v)`: removes the record with value `v`, if any. */
    method DeleteToken(v: string)
      requires Valid()
      modifies this
      ensures Valid()
      ensures tokens == old(tokens) - {v}
      ensures passwordTokens == old(passwordTokens)
    {
      tokens := tokens - {v};
    }

    /**
     * `Tokens().Update({"token": t.Token}, t)`: replaces the record with
     * value `t.token`; reports whether there was one.
     */
    method UpdateToken(t: Token) returns (found: bool)
      requires Valid()
      modifies this
      ensures Valid()
      ensures found <==> t.token in old(tokens)
      ensures tokens == if found then old(tokens)[t.token := t] else old(tokens)
      ensures passwordTokens == old(passwordTokens)
    {
      found := t.token in tokens;
      if found {
        tokens := tokens[t.token := t];
      }
    }

    /** `Tokens().Find(t).Count()`. */
    method Count(t: Token) returns (n: nat)
      requires Valid()
      ensures n == CountMatching(tokens, t)
      ensures n == 1 <==> t.token in tokens && tokens[t.token] == t
      ensures n <= 1
    {
      CountMatchingKeyed(tokens, t);
      n := if t.token in tokens && tokens[t.token] == t then 1 else 0;
    }

    /**
     * `createPasswordToken(u)`: validates the user, then stores and returns
     * an unused reset token for the user's email under a fresh `_id`.
     */
    method CreatePasswordToken(u: Option<User>, now: int) returns (r: Result<PasswordToken>)
      requires Valid()
      modifies this, gen
      ensures Valid()
      ensures tokens == old(tokens)
      ensures r.Err? <==> ValidateUser(u, UserEmailEmpty).Some?
      ensures r.Err? ==> && Some(r.error) == ValidateUser(u, UserEmailEmpty)
                         && passwordTokens == old(passwordTokens)
                         && gen.issued == old(gen.issued)
      ensures r.Ok? ==> && r.value.userEmail == u.value.email
                        && !r.value.used
                        && r.value.creation == now
                        && r.value.token != ""
                        && r.value.token !in old(passwordTokens)
                        && gen.issued == old(gen.issued) + {r.value.token}
                        && passwordTokens == old(passwordTokens)[r.value.token := r.value]
    {
      var check := ValidateUser(u, UserEmailEmpty);
      if check.Some? {
        return Err(check.value);
      }
      var v := gen.Generate(u.value.email, SHA256);
      var t := PasswordToken(v, u.value.email, now, false);
      passwordTokens := passwordTokens[v := t];
      r := Ok(t);
    }

    /** `PasswordTokens().Find({"_id": v}).One(&dbToken)`. */
    method GetPasswordToken(v: string) returns (r: Option<PasswordToken>)
      requires Valid()
      ensures r == FindPasswordToken(passwordTokens, v)
      ensures r.Some? ==> r.value.token == v
    {
      if v in passwordTokens {
        r := Some(passwordTokens[v]);
      } else {
        r := None;
      }
    }
  }
}
