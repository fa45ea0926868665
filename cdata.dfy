/** `util.extractContentsFromCdataSection`: remove one leading `<![CDATA[`
    and one trailing `]]>`, the delimiters of a CDATA section in section 2.7
    of XML 1.0. The two anchored replacements are independent: either
    marker is removed without the other. */
module Cdata {
  import opened Strings

  const Open: string := "<![CDATA["
  const Close: string := "]]>"

  /** The first replacement, anchored at the start of the text. */
  function StripOpen(s: string): string {
    if StartsWith(s, Open) then s[|Open|..] else s
  }

  /** The second replacement, anchored at the end of the text. */
  function StripClose(s: string): string {
    if EndsWith(s, Close) then s[..|s| - |Close|] else s
  }

  /** The contents are a contiguous piece of the text: interior characters
      are never altered, only the ends are cut. Each marker is cut exactly
      when it is present, whether or not the other one is. */
  function ExtractContents(s: string): (r: string)
    ensures exists i, j :: 0 <= i <= j <= |s| && r == s[i..j]
    ensures var i := if StartsWith(s, Open) then |Open| else 0;
            var j := if EndsWith(s, Close) then |s| - |Close| else |s|;
            i <= j && r == s[i..j]
  {
    MarkersApart(s);
    var a := StripOpen(s);
    var i := |s| - |a|;
    assert a == s[i..];
    assert EndsWith(a, Close) <==> EndsWith(s, Close) by {
      if |a| >= |Close| {
        assert a[|a| - |Close|..] == s[|s| - |Close|..];
      }
    }
    var r := StripClose(a);
    assert r == s[i..i + |r|];
    r
  }

  /** The markers cannot overlap: a text with both is at least as long as
      the two together. */
  lemma MarkersApart(s: string)
    ensures StartsWith(s, Open) && EndsWith(s, Close) ==> |Open| + |Close| <= |s|
  {
    if StartsWith(s, Open) && EndsWith(s, Close) {
      // the `]` that opens the closing marker is not inside the opening one
      assert s[|s| - |Close|] == s[|s| - |Close|..][0] == ']';
      assert forall k :: 0 <= k < |Open| ==> s[k] == Open[k] != ']';
    }
  }

  /** A wrapped text comes out as what was wrapped. */
  lemma UnwrapWrapped(s: string)
    ensures ExtractContents(Open + s + Close) == s
  {
    var w := Open + s + Close;
    assert w[..|Open|] == Open;
    var a := w[|Open|..];
    assert a == s + Close;
    assert a[|a| - |Close|..] == Close;
    assert a[..|a| - |Close|] == s;
  }

  /** The text comes back unchanged exactly when neither marker is at its
      start or end. */
  lemma UnchangedIffUnmarked(s: string)
    ensures ExtractContents(s) == s <==> !StartsWith(s, Open) && !EndsWith(s, Close)
  {
    var a := StripOpen(s);
    assert |a| <= |s| && (StartsWith(s, Open) ==> |a| < |s|);
    if !StartsWith(s, Open) && EndsWith(s, Close) {
      assert |ExtractContents(s)| < |s|;
    }
  }

  /** Only one layer of each marker is removed. */
  lemma OneLayerOnly(s: string)
    ensures ExtractContents(Open + (Open + s + Close) + Close) == Open + s + Close
  {
    UnwrapWrapped(Open + s + Close);
  }

  /** So extraction is not idempotent: the doubly wrapped empty text needs
      two passes. */
  lemma NotIdempotent()
    ensures var w := Open + (Open + "" + Close) + Close;
      ExtractContents(ExtractContents(w)) != ExtractContents(w)
  {
    var inner := Open + "" + Close;
    OneLayerOnly("");
    UnwrapWrapped("");
    assert inner != "";
  }
}
