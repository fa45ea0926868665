/** `util.extractHtmlTags`: `text.replace(/<.+?>/g, '')`. A match is a `<`,
    at least one character, and the first `>` after that; `.` matches any
    character except a line terminator, so a match never spans a line. */
module HtmlTags {
  import opened Values

  /** The characters the regular-expression `.` does not match. */
  predicate LineTerminator(c: char) {
    c == '\n' || c == '\r' || c == '\U{2028}' || c == '\U{2029}'
  }

  predicate NoLineBreak(t: string) {
    forall k :: 0 <= k < |t| ==> !LineTerminator(t[k])
  }

  /** Some `>` at index `d` or later is reached from the start of `t`
      without crossing a line terminator. */
  ghost predicate CloseReachable(t: string, d: nat) {
    exists j :: d <= j < |t| && t[j] == '>' && NoLineBreak(t[..j])
  }

  /** The lazy `.+?>`: scanning from `j`, the end of the match at the
      first `>`, or none if a line terminator or the end comes first. */
  function CloseFrom(s: string, j: nat): (r: Option<nat>)
    requires 1 <= j <= |s| && NoLineBreak(s[..j])
    ensures r.Some? <==> exists k :: j <= k < |s| && s[k] == '>' && NoLineBreak(s[..k])
    ensures r.Some? ==> && j < r.value <= |s| && s[r.value - 1] == '>'
                        && NoLineBreak(s[..r.value - 1])
                        && forall k :: j <= k < r.value - 1 ==> s[k] != '>'
    decreases |s| - j
  {
    if j == |s| then None
    else if s[j] == '>' then Some(j + 1)
    else if LineTerminator(s[j]) then
      assert forall k :: j < k < |s| ==> s[..k][j] == s[j];
      None
    else
      assert s[..j + 1] == s[..j] + [s[j]];
      CloseFrom(s, j + 1)
  }

  /** The length of the match `<.+?>` at the start of `s`, if any. */
  function TagLength(s: string): (r: Option<nat>)
    ensures r.Some? <==> s != [] && s[0] == '<' && CloseReachable(s, 2)
    ensures r.Some? ==> 3 <= r.value <= |s| && s[r.value - 1] == '>' && NoLineBreak(s[..r.value - 1])
    ensures r.Some? ==> forall k :: 2 <= k < r.value - 1 ==> s[k] != '>'
  {
    if 2 <= |s| && s[0] == '<' && !LineTerminator(s[1]) then
      assert s[..2] == [s[0], s[1]];
      CloseFrom(s, 2)
    else
      assert s != [] && s[0] == '<' ==> forall j :: 2 <= j < |s| ==> s[..j][1] == s[1];
      None
  }

  /** What the source computes: every match, left to right, removed. */
  function ExtractHtmlTags(s: string): (r: string)
    ensures |r| <= |s|
    decreases |s|
  {
    if s == [] then []
    else match TagLength(s)
      case Some(m) => ExtractHtmlTags(s[m..])
      case None => [s[0]] + ExtractHtmlTags(s[1..])
  }

  /** Text before the first `<` is kept as it is, ahead of whatever the
      rest becomes. */
  lemma {:induction false} KeptPrefix(p: string, u: string)
    requires forall k :: 0 <= k < |p| ==> p[k] != '<'
    ensures ExtractHtmlTags(p + u) == p + ExtractHtmlTags(u)
  {
    if p != [] {
      var s := p + u;
      assert s[0] == p[0] != '<';
      assert TagLength(s).None?;
      assert ExtractHtmlTags(s) == [s[0]] + ExtractHtmlTags(s[1..]);
      assert s[1..] == p[1..] + u;
      assert forall k :: 0 <= k < |p[1..]| ==> p[1..][k] == p[k + 1];
      KeptPrefix(p[1..], u);
      assert p + ExtractHtmlTags(u) == [p[0]] + (p[1..] + ExtractHtmlTags(u));
    } else {
      assert p + u == u;
    }
  }

  /** A tag `<x>` at the head, with `x` non-empty, on one line and free of
      `>` after its first character, is removed whole and nothing after it. */
  lemma TagRemoved(x: string, q: string)
    requires x != [] && NoLineBreak(x) && forall k :: 1 <= k < |x| ==> x[k] != '>'
    ensures ExtractHtmlTags("<" + x + ">" + q) == ExtractHtmlTags(q)
  {
    var s := "<" + x + ">" + q;
    var e := |x| + 1;
    assert s[e] == '>' && s[1..e] == x && s[e + 1..] == q;
    assert s[..e] == "<" + x;
    assert forall k :: 2 <= k < e ==> s[k] == x[k - 1] != '>';
    assert CloseReachable(s, 2);
    var m := TagLength(s).value;
    assert 2 <= m - 1 && s[m - 1] == '>';
    assert m - 1 == e;
    assert ExtractHtmlTags(s) == ExtractHtmlTags(s[m..]);
  }

  /** The match is lazy: in `<a>b<c>` the two tags are removed separately,
      where a greedy `<.+>` would remove the whole text. The literal is
      passed as a parameter so that it is not unfolded eagerly. */
  lemma LazyExample(s: string)
    requires s == "<a>b<c>"
    ensures ExtractHtmlTags(s) == "b"
  {
    assert TagLength(s) == Some(3);
    assert s[3..] == "b<c>";
    assert TagLength("b<c>") == None;
    assert "b<c>"[1..] == "<c>";
    assert TagLength("<c>") == Some(3);
    assert "<c>"[3..] == "";
  }

  /** Text without `<` is returned unchanged. */
  lemma {:induction false} NoOpenBracketUnchanged(s: string)
    requires forall k :: 0 <= k < |s| ==> s[k] != '<'
    ensures ExtractHtmlTags(s) == s
  {
    if s != [] {
      NoOpenBracketUnchanged(s[1..]);
    }
  }

  /** Removing matches brings no `>` within reach that was not already. */
  lemma {:induction false} CloseReachableKept(t: string, d: nat)
    requires d <= 2
    ensures CloseReachable(ExtractHtmlTags(t), d) ==> CloseReachable(t, d)
  {
    var r := ExtractHtmlTags(t);
    if CloseReachable(r, d) {
      match TagLength(t)
      case Some(m) =>
        assert t[m - 1] == '>' && NoLineBreak(t[..m - 1]);
      case None =>
        var rest := ExtractHtmlTags(t[1..]);
        assert r == [t[0]] + rest;
        var j :| d <= j < |r| && r[j] == '>' && NoLineBreak(r[..j]);
        if j == 0 {
          assert t[0] == '>' && t[..0] == [];
        } else {
          assert !LineTerminator(t[0]) by { assert r[..j][0] == t[0]; }
          var d' := if d == 0 then 0 else d - 1;
          assert rest[j - 1] == '>' && rest[..j - 1] == r[..j][1..];
          CloseReachableKept(t[1..], d');
          var j' :| d' <= j' < |t[1..]| && t[1..][j'] == '>' && NoLineBreak(t[1..][..j']);
          assert t[..j' + 1] == [t[0]] + t[1..][..j'];
          assert t[j' + 1] == '>';
        }
    }
  }

  /** No match starts anywhere in `t`. */
  predicate TagFree(t: string) {
    forall i :: 0 <= i < |t| ==> TagLength(t[i..]).None?
  }

  /** No match is left anywhere in the result. */
  lemma {:induction false} NoTagLeft(s: string)
    ensures TagFree(ExtractHtmlTags(s))
  {
    if s != [] {
      match TagLength(s)
      case Some(m) =>
        NoTagLeft(s[m..]);
        assert ExtractHtmlTags(s) == ExtractHtmlTags(s[m..]);
      case None =>
        NoTagLeft(s[1..]);
        var rest := ExtractHtmlTags(s[1..]);
        var r := [s[0]] + rest;
        assert ExtractHtmlTags(s) == r;
        forall i | 0 <= i < |r|
          ensures TagLength(r[i..]).None?
        {
          if i == 0 {
            CloseReachableKept(s, 2);
            assert r[0..] == r;
          } else {
            assert r[i..] == rest[i - 1..];
            assert TagLength(rest[i - 1..]).None?;
          }
        }
    }
  }

  /** Text holding no match comes back unchanged. */
  lemma {:induction false} TagFreeUnchanged(s: string)
    requires TagFree(s)
    ensures ExtractHtmlTags(s) == s
  {
    if s != [] {
      assert TagLength(s[0..]).None? && s[0..] == s;
      forall i | 0 <= i < |s[1..]|
        ensures TagLength(s[1..][i..]).None?
      {
        assert s[1..][i..] == s[i + 1..];
      }
      TagFreeUnchanged(s[1..]);
    }
  }

  /** A match found in `a` is found unchanged whatever follows `a`: the
      lazy match ends at its first `>`. */
  lemma MatchInPrefix(a: string, t: string)
    requires TagLength(a).Some?
    ensures TagLength(a + t) == TagLength(a)
  {
    var s := a + t;
    var m := TagLength(a).value;
    assert s[..m - 1] == a[..m - 1] && s[m - 1] == '>';
    assert CloseReachable(s, 2);
    var n := TagLength(s).value;
    assert n - 1 < m by {
      assert forall k :: 2 <= k < n - 1 ==> s[k] != '>';
    }
    assert a[n - 1] == s[n - 1] == '>';
  }

  /** A match in `a + [c] + b` with `c` a line terminator lies wholly inside
      `a`: no match at the head of `a` means none at the head of the whole. */
  lemma NoMatchAcrossLine(a: string, c: char, b: string)
    requires LineTerminator(c) && TagLength(a).None?
    ensures TagLength(a + [c] + b).None?
  {
    var s := a + [c] + b;
    if CloseReachable(s, 2) {
      var j :| 2 <= j < |s| && s[j] == '>' && NoLineBreak(s[..j]);
      assert s[|a|] == c;
      assert j < |a|;
      assert a[..j] == s[..j] && a[j] == '>';
      assert CloseReachable(a, 2);
    }
  }

  /** A match never spans a line: the text on either side of a line
      terminator is processed on its own and the terminator is kept. */
  lemma {:induction false} LinesApart(a: string, c: char, b: string)
    requires LineTerminator(c)
    ensures ExtractHtmlTags(a + [c] + b) == ExtractHtmlTags(a) + [c] + ExtractHtmlTags(b)
    decreases |a|
  {
    var s := a + [c] + b;
    if a == [] {
      assert s == [c] + b && s[1..] == b;
      assert TagLength(s).None?;
    } else {
      match TagLength(a)
      case Some(m) =>
        MatchInPrefix(a, [c] + b);
        assert s == a + ([c] + b);
        assert s[m..] == a[m..] + [c] + b;
        LinesApart(a[m..], c, b);
      case None =>
        NoMatchAcrossLine(a, c, b);
        assert s[1..] == a[1..] + [c] + b;
        LinesApart(a[1..], c, b);
        assert ExtractHtmlTags(s) == [a[0]] + ExtractHtmlTags(s[1..]);
    }
  }

  /** Removing tags twice is removing them once. */
  lemma ExtractIdempotent(s: string)
    ensures ExtractHtmlTags(ExtractHtmlTags(s)) == ExtractHtmlTags(s)
  {
    NoTagLeft(s);
    TagFreeUnchanged(ExtractHtmlTags(s));
  }
}
