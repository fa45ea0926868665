/** `preparation`: find the script element that is running, read its inline
    settings and its query settings, merge them with the query winning,
    construct the widget on that element, and keep the listener that will
    run it. */
module Preparation {
  import opened Values
  import opened Dom
  import opened ObjectMerge
  import opened QueryString
  import opened Strings
  import opened Cdata
  import opened Widget

  /** `getCurrentScriptElement`: the last script element of the document,
      none when there is none (the source then reads `undefined`). */
  function GetCurrentScriptElement(scripts: seq<Node>): (r: Option<Node>)
    ensures r.None? <==> scripts == []
    ensures r.Some? ==> scripts == scripts[..|scripts| - 1] + [r.value]
  {
    if scripts == [] then None else Some(scripts[|scripts| - 1])
  }

  /** `(search || '?').slice(1)`: the query text without its `?`; an absent
      (empty) `search` contributes the empty query text. */
  function QueryText(search: string): (r: string)
    ensures search == "" ==> r == ""
    ensures search != "" ==> search == [search[0]] + r
  {
    if search == "" then "" else search[1..]
  }

  /** `preparation.parseQueryString`: the settings in the query of the
      script's `src`. */
  function ScriptQuerySettings(search: string): Config {
    ParseQuery(QueryText(search))
  }

  /** `parseEmbedSettingsText`: the inline text, unwrapped from CDATA, given
      to the JSON parser (`JSON.parse`, supplied as `parseJson`). */
  function ParseEmbedSettingsText(textContent: string, parseJson: string -> Option<Config>): Option<Config> {
    parseJson(ExtractContents(textContent))
  }

  /** A CDATA-wrapped text is parsed as what it wraps; unwrapped text as
      itself. */
  lemma EmbedSettingsUnwrapped(text: string, parseJson: string -> Option<Config>)
    ensures ParseEmbedSettingsText(Open + text + Close, parseJson) == parseJson(text)
    ensures !StartsWith(text, Open) && !EndsWith(text, Close) ==>
      ParseEmbedSettingsText(text, parseJson) == parseJson(text)
  {
    UnwrapWrapped(text);
    UnchangedIffUnmarked(text);
  }

  /** The merge of the inline settings with the query settings, in that
      order. */
  function ResolveSettings(inline: Config, search: string): Config {
    MergeAll([inline, ScriptQuerySettings(search)])
  }

  /** A key present in both sources takes the query-string value; a key
      only inline keeps its inline value; no other key appears. */
  lemma ResolvePrecedence(inline: Config, search: string, k: string)
    ensures var query := ScriptQuerySettings(search);
      var r := ResolveSettings(inline, search);
      && (k in r <==> k in inline || k in query)
      && (k in query ==> k in r && r[k] == query[k])
      && (k !in query && k in inline ==> k in r && r[k] == inline[k])
  {
    var query := ScriptQuerySettings(search);
    MergeKeys([inline, query], k);
    if k in query {
      MergeLastWins([inline, query], k, 1);
    } else if k in inline {
      MergeLastWins([inline, query], k, 0);
    }
  }

  /** The element the widget binds to and the settings it receives. */
  datatype Resolution = Resolution(element: Node, settings: Config)

  /** The resolution steps of `preparation` in the source's order. It
      succeeds exactly when the document has a script element and its
      unwrapped text parses; it then binds to the last script element and
      gives the inline settings overridden by the query. Failures: no
      script element or a non-element is a `TypeError` (reading
      `textContent` or calling `getAttribute` fails), inline text that
      `parseJson` (standing for `JSON.parse`) rejects is a `SyntaxError`;
      the query never fails. */
  function Resolve(scripts: seq<Node>, parseJson: string -> Option<Config>): (r: Result<Resolution>)
    ensures scripts == [] ==> r == Failure(TypeError)
    ensures scripts != [] && !scripts[|scripts| - 1].ElementNode? ==> r == Failure(TypeError)
    ensures scripts != [] && scripts[|scripts| - 1].ElementNode? ==>
      var element := scripts[|scripts| - 1];
      var parsed := ParseEmbedSettingsText(element.textContent, parseJson);
      && (parsed.None? ==> r == Failure(SyntaxError))
      && (parsed.Some? ==> r == Success(Resolution(element, ResolveSettings(parsed.value, element.search))))
  {
    match GetCurrentScriptElement(scripts)
    case None => Failure(TypeError)
    case Some(element) =>
      if !element.ElementNode? then Failure(TypeError)
      else match ParseEmbedSettingsText(element.textContent, parseJson)
        case None => Failure(SyntaxError)
        case Some(inline) => Success(Resolution(element, ResolveSettings(inline, element.search)))
  }

  /** A script element with no inline text fails with a `SyntaxError` when
      the parser rejects the empty text, as `JSON.parse` does: absent inline
      settings are not treated as `{}`. */
  lemma EmptyInlineTextFails(scripts: seq<Node>, parseJson: string -> Option<Config>)
    requires scripts != [] && scripts[|scripts| - 1].ElementNode?
    requires scripts[|scripts| - 1].textContent == ""
    requires parseJson("") == None
    ensures Resolve(scripts, parseJson) == Failure(SyntaxError)
  {
    assert ExtractContents("") == "" by {
      assert !StartsWith("", Open) && !EndsWith("", Close);
    }
  }

  /** The listener `preparation` keeps: the initial one does nothing, the
      one `createListener` makes runs the widget it constructed. */
  datatype Listener = Idle | Runs(widget: EmbedTumblrPosts)

  /** The `preparation` function object and its `listener` property. */
  class Loader {
    var listener: Listener

    constructor ()
      ensures listener == Idle
    {
      listener := Idle;
    }

    /** `preparation(document)`: on success the listener runs a new widget
        bound to the current script element with the stored form of the
        resolved settings; on failure the error propagates and the listener
        is unchanged. */
    method Prepare(scripts: seq<Node>, parseJson: string -> Option<Config>) returns (error: Option<Error>)
      modifies this
      ensures var resolved := Resolve(scripts, parseJson);
        && (resolved.Failure? ==> error == Some(resolved.error) && listener == old(listener))
        && (resolved.Success? ==>
              && error == None
              && listener.Runs? && fresh(listener.widget)
              && listener.widget.settings == StoredSettings(Some(resolved.value.settings))
              && listener.widget.targetElement == resolved.value.element
              && listener.widget.contextNode == resolved.value.element.ownerDocument)
    {
      var resolved := Resolve(scripts, parseJson);
      if resolved.Failure? {
        return Some(resolved.error);
      }
      var constructed := Construct(resolved.value.element, Some(resolved.value.settings));
      // The resolved element is an element node, so construction does not throw.
      assert constructed.Success?;
      listener := Runs(constructed.value);
      error := None;
    }
  }
}
