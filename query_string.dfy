/** `util.parseQueryString`: split a query on `;` or `&`, split each token on
    `=`, and record key to value, later tokens overwriting earlier ones. The
    grammar loosely follows the query component of section 3.4 of RFC 3986,
    with `;` accepted as a second separator; nothing is percent-decoded. */
module QueryString {
  import opened Values

  /** The characters that separate tokens of a query. */
  const TokenSeparators: set<char> := {';', '&'}

  /** `s` contains no character of `seps`. */
  predicate Free(s: string, seps: set<char>) {
    forall j :: 0 <= j < |s| ==> s[j] !in seps
  }

  /** The separators that occur in `s`, in order. */
  function Separators(s: string, seps: set<char>): (r: string)
    ensures |r| <= |s|
  {
    if s == [] then []
    else if s[0] in seps then [s[0]] + Separators(s[1..], seps)
    else Separators(s[1..], seps)
  }

  /** JavaScript's `String.prototype.split` on a character class: the text
      between consecutive separators, including empty tokens at either end.
      The empty string gives one empty token. */
  function Split(s: string, seps: set<char>): (tokens: seq<string>)
    ensures |tokens| == |Separators(s, seps)| + 1
    ensures forall i :: 0 <= i < |tokens| ==> Free(tokens[i], seps)
  {
    if s == [] then [[]]
    else
      var rest := Split(s[1..], seps);
      if s[0] in seps then [[]] + rest
      else [[s[0]] + rest[0]] + rest[1..]
  }

  /** Glue tokens back together, one separator between each two. */
  function Join(tokens: seq<string>, between: string): string
    requires |tokens| == |between| + 1
  {
    if |tokens| == 1 then tokens[0]
    else tokens[0] + [between[0]] + Join(tokens[1..], between[1..])
  }

  /** Joining the tokens with the separators that were removed restores the
      text. */
  lemma {:induction false} JoinSplit(s: string, seps: set<char>)
    ensures Join(Split(s, seps), Separators(s, seps)) == s
  {
    if s != [] {
      JoinSplit(s[1..], seps);
      var rest := Split(s[1..], seps);
      var between := Separators(s[1..], seps);
      if s[0] !in seps && |rest| > 1 {
        assert Join(Split(s, seps), Separators(s, seps))
            == [s[0]] + rest[0] + [between[0]] + Join(rest[1..], between[1..]);
      }
    }
  }

  /** Splitting a separator-free prefix followed by more text extends the
      first token. */
  lemma {:induction false} SplitFreePrefix(t: string, u: string, seps: set<char>)
    requires Free(t, seps)
    ensures Split(t + u, seps) == [t + Split(u, seps)[0]] + Split(u, seps)[1..]
  {
    if t != [] {
      assert (t + u)[0] == t[0] && (t + u)[1..] == t[1..] + u;
      SplitFreePrefix(t[1..], u, seps);
      var first := Split(u, seps)[0];
      assert [t[0]] + (t[1..] + first) == t + first;
    } else {
      assert t + u == u && t + Split(u, seps)[0] == Split(u, seps)[0];
    }
  }

  /** Splitting joined separator-free tokens gives the tokens back. */
  lemma {:induction false} SplitJoin(tokens: seq<string>, between: string, seps: set<char>)
    requires |tokens| == |between| + 1
    requires forall i :: 0 <= i < |tokens| ==> Free(tokens[i], seps)
    requires forall i :: 0 <= i < |between| ==> between[i] in seps
    ensures Split(Join(tokens, between), seps) == tokens
  {
    if |tokens| == 1 {
      SplitFreePrefix(tokens[0], [], seps);
      assert tokens[0] + [] == tokens[0];
    } else {
      var tail := Join(tokens[1..], between[1..]);
      SplitJoin(tokens[1..], between[1..], seps);
      assert Join(tokens, between) == tokens[0] + ([between[0]] + tail);
      assert ([between[0]] + tail)[1..] == tail;
      assert Split([between[0]] + tail, seps) == [[]] + tokens[1..];
      SplitFreePrefix(tokens[0], [between[0]] + tail, seps);
      assert tokens[0] + [] == tokens[0];
      assert [tokens[0]] + tokens[1..] == tokens;
    }
  }

  /** Index of the first separator in `s`, or `|s|` when there is none. */
  function FirstSeparator(s: string, seps: set<char>): (i: nat)
    ensures i <= |s|
    ensures i < |s| ==> s[i] in seps
    ensures Free(s[..i], seps)
  {
    if s == [] || s[0] in seps then 0 else 1 + FirstSeparator(s[1..], seps)
  }

  /** The first token is the text before the first separator; the remaining
      tokens are those of the text after it. */
  lemma {:induction false} SplitAtFirst(s: string, seps: set<char>)
    ensures var i := FirstSeparator(s, seps);
      && Split(s, seps)[0] == s[..i]
      && (i == |s| ==> Split(s, seps) == [s])
      && (i < |s| ==> Split(s, seps)[1..] == Split(s[i + 1..], seps))
  {
    var i := FirstSeparator(s, seps);
    assert s == s[..i] + s[i..];
    SplitFreePrefix(s[..i], s[i..], seps);
    if i < |s| {
      assert s[i..][1..] == s[i + 1..];
    } else {
      assert s[i..] == [];
    }
  }

  /** The key of a token: `keyAndValue[0]`. */
  function KeyOf(token: string): string {
    Split(token, {'='})[0]
  }

  /** The value of a token: `keyAndValue[1] || true`. A missing or empty
      second part is falsy and becomes `true`. */
  function ValueOf(token: string): Value {
    var parts := Split(token, {'='});
    if |parts| > 1 && parts[1] != "" then Str(parts[1]) else Bool(true)
  }

  /** The key is the text before the first `=`. */
  lemma KeyBeforeFirstEquals(token: string)
    ensures KeyOf(token) == token[..FirstSeparator(token, {'='})]
  {
    SplitAtFirst(token, {'='});
  }

  /** The value is `true` when the token has no `=` or nothing follows it;
      otherwise it is the text, verbatim, from the first `=` up to the next
      `=` or the end. Text after a second `=` is dropped. */
  lemma ValueBetweenEquals(token: string)
    ensures var i := FirstSeparator(token, {'='});
      if i == |token| then ValueOf(token) == Bool(true)
      else
        var rest := token[i + 1..];
        var v := rest[..FirstSeparator(rest, {'='})];
        ValueOf(token) == if v == "" then Bool(true) else Str(v)
  {
    var i := FirstSeparator(token, {'='});
    SplitAtFirst(token, {'='});
    if i < |token| {
      SplitAtFirst(token[i + 1..], {'='});
    }
  }

  /** Sequential insertion of the tokens' key/value pairs. */
  function Collect(tokens: seq<string>): Config {
    if tokens == [] then map[]
    else Collect(tokens[..|tokens| - 1])[KeyOf(tokens[|tokens| - 1]) := ValueOf(tokens[|tokens| - 1])]
  }

  /** What parsing a query yields. */
  function ParseQuery(query: string): Config {
    Collect(Split(query, TokenSeparators))
  }

  /** The loop of the source, writing each token's pair into the result. */
  method ParseQueryString(query: string) returns (parsed: Config)
    ensures parsed == ParseQuery(query)
  {
    var tokens := Split(query, TokenSeparators);
    parsed := map[];
    var i := 0;
    while i < |tokens|
      invariant 0 <= i <= |tokens|
      invariant parsed == Collect(tokens[..i])
    {
      var keyAndValue := Split(tokens[i], {'='});
      var value := if |keyAndValue| > 1 && keyAndValue[1] != "" then Str(keyAndValue[1]) else Bool(true);
      parsed := parsed[keyAndValue[0] := value];
      assert tokens[..i + 1][..i] == tokens[..i];
      i := i + 1;
    }
    assert tokens[..i] == tokens;
  }

  /** Token `i` is the last one whose key is `k`. */
  ghost predicate LastWithKey(tokens: seq<string>, k: string, i: int) {
    && 0 <= i < |tokens|
    && KeyOf(tokens[i]) == k
    && forall j :: i < j < |tokens| ==> KeyOf(tokens[j]) != k
  }

  /** The keys of the result are exactly the tokens' keys. */
  lemma {:induction false} CollectKeys(tokens: seq<string>, k: string)
    ensures k in Collect(tokens) <==> exists i :: 0 <= i < |tokens| && KeyOf(tokens[i]) == k
  {
    if tokens != [] {
      var front := tokens[..|tokens| - 1];
      CollectKeys(front, k);
      if k in Collect(front) {
        var i :| 0 <= i < |front| && KeyOf(front[i]) == k;
        assert KeyOf(tokens[i]) == k;
      }
      if i :| 0 <= i < |tokens| - 1 && KeyOf(tokens[i]) == k {
        assert KeyOf(front[i]) == k;
      }
    }
  }

  /** A duplicated key takes the value of its last token. */
  lemma {:induction false} CollectLastWins(tokens: seq<string>, k: string, i: int)
    requires LastWithKey(tokens, k, i)
    ensures k in Collect(tokens) && Collect(tokens)[k] == ValueOf(tokens[i])
  {
    var front := tokens[..|tokens| - 1];
    if i < |front| {
      assert LastWithKey(front, k, i);
      CollectLastWins(front, k, i);
    }
  }

  /** The empty query is one empty token, so it yields `{"": true}`, not an
      empty object. */
  lemma EmptyQuery()
    ensures ParseQuery("") == map["" := Bool(true)]
  {
    assert Split("", TokenSeparators) == [""];
    assert Split("", {'='}) == [""];
  }

  /** The key and value of a token `k=v` with `k` and `v` free of `=`. */
  lemma KeyValueOfPair(k: string, v: string)
    requires Free(k, {'='}) && Free(v, {'='})
    ensures KeyOf(k + "=" + v) == k
    ensures ValueOf(k + "=" + v) == if v == "" then Bool(true) else Str(v)
  {
    SplitJoin([k, v], "=", {'='});
  }

  /** `a=1&b=2;c` splits into the tokens `a=1`, `b=2` and `c`. */
  lemma ExampleTokens()
    ensures Split("a=1&b=2;c", TokenSeparators) == ["a=1", "b=2", "c"]
  {
    var tokens := ["a=1", "b=2", "c"];
    assert Join(tokens, "&;") == "a=1&b=2;c";
    assert Free("a=1", TokenSeparators) && Free("b=2", TokenSeparators) && Free("c", TokenSeparators);
    SplitJoin(tokens, "&;", TokenSeparators);
  }

  /** The three tokens of the example and their pairs. */
  lemma ExamplePairs()
    ensures KeyOf("a=1") == "a" && ValueOf("a=1") == Str("1")
    ensures KeyOf("b=2") == "b" && ValueOf("b=2") == Str("2")
    ensures KeyOf("c") == "c" && ValueOf("c") == Bool(true)
  {
    KeyValueOfPair("a", "1");
    KeyValueOfPair("b", "2");
    assert "a" + "=" + "1" == "a=1" && "b" + "=" + "2" == "b=2";
    SplitJoin(["c"], "", {'='});
  }

  /** `a=1&b=2;c` yields `{a: "1", b: "2", c: true}`. The literal is
      passed as a parameter so that it is not unfolded eagerly. */
  lemma ExampleQuery(query: string)
    requires query == "a=1&b=2;c"
    ensures ParseQuery(query) == map["a" := Str("1"), "b" := Str("2"), "c" := Bool(true)]
  {
    ExampleTokens();
    ExamplePairs();
    var tokens := Split(query, TokenSeparators);
    assert tokens[..2][..1] == tokens[..1] == ["a=1"] && tokens[..2] == ["a=1", "b=2"] && tokens[..1][..0] == [];
    assert tokens[..|tokens| - 1] == tokens[..2];
    assert Collect(tokens[..1]) == map["a" := Str("1")];
    assert Collect(tokens[..2]) == map["a" := Str("1"), "b" := Str("2")];
  }
}
