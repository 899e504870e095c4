/**
 * The wire form of a session token: a JSON object with exactly the fields
 * `token`, `valid-until`, `email` and `app`, in that order. The
 * `valid-until` text is the RFC 3339 rendering of the instant with
 * nanoseconds; the model takes that text as an argument. A parser for the
 * same layout shows that the layout loses nothing.
 */
module TokenJson {
  import opened AuthTypes

  const Opening: string := "{\"token\":\""

  /** What follows each of the four values, in field order. */
  const Separators: seq<string> :=
    ["\",\"valid-until\":\"", "\",\"email\":\"", "\",\"app\":\"", "\"}"]

  /** The four field texts of a marshalled token, in wire order. */
  datatype WireToken = WireToken(token: string, validUntil: string, email: string, app: string)

  predicate NoQuote(s: string)
  {
    forall i :: 0 <= i < |s| ==> s[i] != '"'
  }

  predicate HasPrefix(s: string, p: string)
  {
    |p| <= |s| && s[..|p|] == p
  }

  /** vals[0] + seps[0] + vals[1] + seps[1] + ... */
  function Interleave(vals: seq<string>, seps: seq<string>): string
    requires |vals| == |seps|
  {
    if vals == [] then "" else vals[0] + seps[0] + Interleave(vals[1..], seps[1..])
  }

  function Fields(t: Token, validUntilText: string): seq<string>
  {
    [t.token, validUntilText, t.userEmail, t.appName]
  }


  /** Splits `s` before its first quote; None when it has none. */
  function SplitAtQuote(s: string): Option<(string, string)>
  {
    if s == "" then None
    else if s[0] == '"' then Some(("", s))
    else
      match SplitAtQuote(s[1..])
      case None => None
      case Some(p) => Some(([s[0]] + p.0, p.1))
  }

  /** Reads values each ended by the matching separator, up to the end of `s`. */
  function SplitFields(s: string, seps: seq<string>): Option<seq<string>>
    decreases |seps|
  {
    if seps == [] then (if s == "" then Some([]) else None)
    else
      match SplitAtQuote(s)
      case None => None
      case Some(p) =>
        if !HasPrefix(p.1, seps[0]) then None
        else
          match SplitFields(p.1[|seps[0]|..], seps[1..])
          case None => None
          case Some(vs) => Some([p.0] + vs)
  }

  /** Reads back the four field texts of the fixed layout. */
  function UnmarshalJSON(s: string): Option<WireToken>
  {
    if !HasPrefix(s, Opening) then None
    else
      match SplitFields(s[|Opening|..], Separators)
      case Some(vs) =>
        if |vs| == 4 then Some(WireToken(vs[0], vs[1], vs[2], vs[3])) else None
      case None => None
  }

  lemma {:induction false} SplitAtQuoteOf(a: string, b: string)
    requires NoQuote(a) && b != "" && b[0] == '"'
    ensures SplitAtQuote(a + b) == Some((a, b))
  {
    if a != "" {
      assert (a + b)[1..] == a[1..] + b;
      SplitAtQuoteOf(a[1..], b);
      assert [a[0]] + a[1..] == a;
    } else {
      assert a + b == b;
    }
  }

  lemma {:induction false} SplitInterleave(vals: seq<string>, seps: seq<string>)
    requires |vals| == |seps|
    requires forall i :: 0 <= i < |vals| ==> NoQuote(vals[i])
    requires forall i :: 0 <= i < |seps| ==> seps[i] != "" && seps[i][0] == '"'
    ensures SplitFields(Interleave(vals, seps), seps) == Some(vals)
  {
    if vals != [] {
      var rest := Interleave(vals[1..], seps[1..]);
      assert Interleave(vals, seps) == vals[0] + (seps[0] + rest);
      SplitAtQuoteOf(vals[0], seps[0] + rest);
      assert (seps[0] + rest)[..|seps[0]|] == seps[0];
      assert (seps[0] + rest)[|seps[0]|..] == rest;
      SplitInterleave(vals[1..], seps[1..]);
      assert [vals[0]] + vals[1..] == vals;
    }
  }

  lemma SplitInterleaveIfQuoteFree(vals: seq<string>, seps: seq<string>)
    requires |vals| == |seps| && seps == Separators
    ensures (forall i :: 0 <= i < |vals| ==> NoQuote(vals[i]))
            ==> SplitFields(Interleave(vals, seps), seps) == Some(vals)
  {
    if forall i :: 0 <= i < |vals| ==> NoQuote(vals[i]) {
      SplitInterleave(vals, seps);
    }
  }

  /**
   * `json.Marshal(&t)`, with `validUntilText` the formatted `t.ValidUntil`.
   * Parsing its output gives back the four field texts, whenever no field
   * holds a quote (a character the encoder would escape).
   */
  function MarshalJSON(t: Token, validUntilText: string): (r: string)
    ensures HasPrefix(r, Opening)
    ensures NoQuote(t.token) && NoQuote(validUntilText) && NoQuote(t.userEmail) && NoQuote(t.appName)
            ==> UnmarshalJSON(r) == Some(WireToken(t.token, validUntilText, t.userEmail, t.appName))
  {
    var body := Interleave(Fields(t, validUntilText), Separators);
    assert (Opening + body)[..|Opening|] == Opening && (Opening + body)[|Opening|..] == body;
    SplitInterleaveIfQuoteFree(Fields(t, validUntilText), Separators);
    Opening + body
  }

  /** Two tokens with the same wire text agree on every field it carries. */
  lemma MarshalInjective(t1: Token, v1: string, t2: Token, v2: string)
    requires NoQuote(t1.token) && NoQuote(v1) && NoQuote(t1.userEmail) && NoQuote(t1.appName)
    requires NoQuote(t2.token) && NoQuote(v2) && NoQuote(t2.userEmail) && NoQuote(t2.appName)
    requires MarshalJSON(t1, v1) == MarshalJSON(t2, v2)
    ensures t1.token == t2.token && v1 == v2 && t1.userEmail == t2.userEmail && t1.appName == t2.appName
  {
    assert UnmarshalJSON(MarshalJSON(t1, v1)) == Some(WireToken(t1.token, v1, t1.userEmail, t1.appName));
  }

  // The sample proof is split into the three small facts below: stated
  // together in one proof they exceed the solver's resource budget.

  lemma SampleHead()
    ensures Opening + "12saii" + Separators[0] == "{\"token\":\"12saii\",\"valid-until\":\""
  {
  }

  lemma SampleTail()
    ensures Separators[1] + "something@something.com" + Separators[2] + "myapp" + Separators[3]
         == "\",\"email\":\"something@something.com\",\"app\":\"myapp\"}"
  {
  }

  lemma Regroup(o: string, a: string, b: string, c: string, d: string, e: string, f: string, g: string, h: string)
    ensures o + (a + b + (c + d + (e + f + (g + h)))) == (o + a + b) + c + (d + e + f + g + h)
  {
  }

  /** The exact bytes the marshalling test expects for its sample token. */
  lemma MarshalSample(validUntil: int, validUntilText: string)
    ensures MarshalJSON(Token("12saii", validUntil, "something@something.com", "myapp"), validUntilText)
         == "{\"token\":\"12saii\",\"valid-until\":\"" + validUntilText
            + "\",\"email\":\"something@something.com\",\"app\":\"myapp\"}"
  {
    var tok, email, app := "12saii", "something@something.com", "myapp";
    var s1, s2, s3, s4 := Separators[0], Separators[1], Separators[2], Separators[3];
    var f := Fields(Token(tok, validUntil, email, app), validUntilText);
    assert f == [tok, validUntilText, email, app];
    assert Interleave([], []) == "";
    assert [app][1..] == [] && [s4][1..] == [];
    assert Interleave([app], [s4]) == app + s4;
    assert [email, app][1..] == [app] && [s3, s4][1..] == [s4];
    assert Interleave([email, app], [s3, s4]) == email + s3 + (app + s4);
    assert [validUntilText, email, app][1..] == [email, app] && [s2, s3, s4][1..] == [s3, s4];
    assert Interleave([validUntilText, email, app], [s2, s3, s4])
        == validUntilText + s2 + (email + s3 + (app + s4));
    assert f[1..] == [validUntilText, email, app] && Separators[1..] == [s2, s3, s4];
    assert Interleave(f, Separators) == tok + s1 + (validUntilText + s2 + (email + s3 + (app + s4)));
    Regroup(Opening, tok, s1, validUntilText, s2, email, s3, app, s4);
    SampleHead();
    SampleTail();
  }
}
