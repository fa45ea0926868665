/** `util.escapeHtmlTags`: three global replacements in a row, `&` first,
    then `<`, then `>`, each by its character reference. */
module HtmlEscape {
  import opened Strings

  /** `s.replace(/pat/g, rep)` for a literal pattern: leftmost,
      non-overlapping occurrences, scanning on after each replacement. */
  function ReplaceAll(s: string, pat: string, rep: string): string
    requires pat != []
    decreases |s|
  {
    if s == [] then []
    else if StartsWith(s, pat) then rep + ReplaceAll(s[|pat|..], pat, rep)
    else [s[0]] + ReplaceAll(s[1..], pat, rep)
  }

  /** The escaped characters, in the order they are replaced, and their
      references. */
  function Special(n: nat): char
    requires n < 3
  {
    ['&', '<', '>'][n]
  }

  function Reference(n: nat): string
    requires n < 3
  {
    ["&amp;", "&lt;", "&gt;"][n]
  }

  /** How a character reads after the first `n` replacements. */
  function EscapeCharAfter(c: char, n: nat): string
    requires n <= 3
  {
    if n >= 1 && c == '&' then "&amp;"
    else if n >= 2 && c == '<' then "&lt;"
    else if n >= 3 && c == '>' then "&gt;"
    else [c]
  }

  /** The text after the first `n` replacements, character by character. */
  function EscapedAfter(s: string, n: nat): string
    requires n <= 3
  {
    if s == [] then [] else EscapeCharAfter(s[0], n) + EscapedAfter(s[1..], n)
  }

  /** What the source computes. */
  function EscapeHtmlTags(s: string): string {
    ReplaceAll(ReplaceAll(ReplaceAll(s, "&", "&amp;"), "<", "&lt;"), ">", "&gt;")
  }

  /** The reverse substitution, last replacement undone first. */
  function UnescapeHtmlTags(s: string): string {
    ReplaceAll(ReplaceAll(ReplaceAll(s, "&gt;", ">"), "&lt;", "<"), "&amp;", "&")
  }

  /** Three facts about scanning a piece `e` followed by more text `u`: a
      piece without the pattern's first character is kept; the pattern
      itself is replaced; a piece that starts like the pattern but diverges
      from it, and has the first character nowhere else, is kept. */
  lemma {:induction false} ReplaceOverPiece(e: string, u: string, pat: string, rep: string)
    requires pat != []
    ensures (forall k :: 0 <= k < |e| ==> e[k] != pat[0]) ==>
      ReplaceAll(e + u, pat, rep) == e + ReplaceAll(u, pat, rep)
    ensures e == pat ==> ReplaceAll(e + u, pat, rep) == rep + ReplaceAll(u, pat, rep)
    ensures (&& 2 <= |e| && 2 <= |pat| && e[0] == pat[0] && e[1] != pat[1]
             && forall k :: 1 <= k < |e| ==> e[k] != pat[0]) ==>
      ReplaceAll(e + u, pat, rep) == e + ReplaceAll(u, pat, rep)
  {
    if e == [] {
      assert e + u == u;
    } else {
      assert (e + u)[1..] == e[1..] + u;
      ReplaceOverPiece(e[1..], u, pat, rep);
      if e == pat {
        assert (e + u)[..|pat|] == pat && (e + u)[|pat|..] == u;
      }
      if 2 <= |e| && 2 <= |pat| && e[0] == pat[0] && e[1] != pat[1] {
        assert (e + u)[1] != pat[1];
        assert [e[0]] + (e[1..] + ReplaceAll(u, pat, rep)) == e + ReplaceAll(u, pat, rep);
      }
      if forall k :: 0 <= k < |e| ==> e[k] != pat[0] {
        assert (e + u)[0] != pat[0];
        assert [e[0]] + (e[1..] + ReplaceAll(u, pat, rep)) == e + ReplaceAll(u, pat, rep);
      }
    }
  }

  /** Replacement `n` takes the text from stage `n` to stage `n + 1`. */
  lemma {:induction false} ReplaceStep(s: string, n: nat)
    requires n < 3
    ensures ReplaceAll(EscapedAfter(s, n), [Special(n)], Reference(n)) == EscapedAfter(s, n + 1)
  {
    if s != [] {
      ReplaceStep(s[1..], n);
      ReplaceOverPiece(EscapeCharAfter(s[0], n), EscapedAfter(s[1..], n), [Special(n)], Reference(n));
    }
  }

  /** Undoing replacement `n` takes the text from stage `n + 1` back to
      stage `n`. */
  lemma {:induction false} UndoStep(s: string, n: nat)
    requires n < 3
    ensures ReplaceAll(EscapedAfter(s, n + 1), Reference(n), [Special(n)]) == EscapedAfter(s, n)
  {
    if s != [] {
      UndoStep(s[1..], n);
      ReplaceOverPiece(EscapeCharAfter(s[0], n + 1), EscapedAfter(s[1..], n + 1), Reference(n), [Special(n)]);
    }
  }

  lemma {:induction false} StageZero(s: string)
    ensures EscapedAfter(s, 0) == s
  {
    if s != [] {
      StageZero(s[1..]);
    }
  }

  /** The three replacements escape each character on its own. */
  lemma EscapeIsPerCharacter(s: string)
    ensures EscapeHtmlTags(s) == EscapedAfter(s, 3)
  {
    StageZero(s);
    ReplaceStep(s, 0);
    ReplaceStep(s, 1);
    ReplaceStep(s, 2);
  }

  /** Because `&` is replaced first, the reverse substitution recovers the
      text. */
  lemma UnescapeEscape(s: string)
    ensures UnescapeHtmlTags(EscapeHtmlTags(s)) == s
  {
    EscapeIsPerCharacter(s);
    UndoStep(s, 2);
    UndoStep(s, 1);
    UndoStep(s, 0);
    StageZero(s);
  }

  /** A character reference starts at index `i`. */
  predicate ReferenceAt(r: string, i: nat)
    requires i <= |r|
  {
    StartsWith(r[i..], "&amp;") || StartsWith(r[i..], "&lt;") || StartsWith(r[i..], "&gt;")
  }

  function Count(s: string, c: char): nat {
    if s == [] then 0 else (if s[0] == c then 1 else 0) + Count(s[1..], c)
  }

  /** The escaped text has no `<` or `>`, every `&` in it begins a
      character reference, and it grows by 4 per `&` and 3 per `<` or `>`. */
  lemma {:induction false} EscapedShape(s: string)
    ensures var r := EscapedAfter(s, 3);
      && (forall i :: 0 <= i < |r| ==> r[i] != '<' && r[i] != '>')
      && (forall i :: 0 <= i < |r| && r[i] == '&' ==> ReferenceAt(r, i))
      && |r| == |s| + 4 * Count(s, '&') + 3 * Count(s, '<') + 3 * Count(s, '>')
  {
    if s != [] {
      EscapedShape(s[1..]);
      var e, rest := EscapeCharAfter(s[0], 3), EscapedAfter(s[1..], 3);
      var r := e + rest;
      forall i | 0 <= i < |r| && r[i] == '&'
        ensures ReferenceAt(r, i)
      {
        if i < |e| {
          assert i == 0;
          assert r[..|e|] == e;
        } else {
          assert r[i..] == rest[i - |e|..];
        }
      }
    }
  }

  /** The properties stated on the source's own result. */
  lemma EscapeHtmlTagsShape(s: string)
    ensures var r := EscapeHtmlTags(s);
      && (forall i :: 0 <= i < |r| ==> r[i] != '<' && r[i] != '>')
      && (forall i :: 0 <= i < |r| && r[i] == '&' ==> ReferenceAt(r, i))
      && |r| == |s| + 4 * Count(s, '&') + 3 * Count(s, '<') + 3 * Count(s, '>')
  {
    EscapeIsPerCharacter(s);
    EscapedShape(s);
  }
}
