/** The `EmbedTumblrPosts` constructor: it stores the settings merged with
    the constructor function object itself, the target element, and the
    element's owner document, and throws a `TypeError` when the target is
    not an element. */
module Widget {
  import opened Values
  import opened Dom
  import opened ObjectMerge

  /** `EmbedTumblrPosts.DEFAULT_SETTINGS`. */
  const DefaultSettings: Config :=
    map["api_key" := Null, "base-hostname" := Str("example.com"), "limit" := Num(10), "offset" := Num(0)]

  /** The constructor function object as `for ... in` enumerates it: its one
      enumerable own property is `DEFAULT_SETTINGS`. */
  const ConstructorObject: Config := map["DEFAULT_SETTINGS" := Obj(DefaultSettings)]

  /** What the constructor stores: `objectMerge(EmbedTumblrPosts, settings || {})`. */
  function StoredSettings(settings: Option<Config>): Config {
    MergeAll([ConstructorObject, settings.GetOr(map[])])
  }

  /** The stored settings hold the caller's keys with the caller's values,
      plus `DEFAULT_SETTINGS` (holding the defaults object unless the caller
      supplied that key); a missing `settings` counts as `{}`. */
  lemma StoredSettingsShape(settings: Option<Config>, k: string)
    ensures var given := settings.GetOr(map[]);
      var stored := StoredSettings(settings);
      && (k in stored <==> k in given || k == "DEFAULT_SETTINGS")
      && (k in given ==> k in stored && stored[k] == given[k])
      && (k !in given && k == "DEFAULT_SETTINGS" ==> k in stored && stored[k] == Obj(DefaultSettings))
  {
    var given := settings.GetOr(map[]);
    var objects := [ConstructorObject, given];
    MergeKeys(objects, k);
    if k in given {
      MergeLastWins(objects, k, 1);
    } else if k == "DEFAULT_SETTINGS" {
      MergeLastWins(objects, k, 0);
    }
  }

  /** As written, none of the documented defaults ever reaches the stored
      settings as a key of its own: a default key the caller leaves out is
      absent. */
  lemma DefaultsNotApplied(settings: Config, k: string)
    requires k in DefaultSettings && k !in settings
    ensures k !in StoredSettings(Some(settings))
  {
    StoredSettingsShape(Some(settings), k);
  }

  /** The settings the defaults were evidently meant to produce: defaults
      lowest, then inline settings, then query settings. */
  function IntendedSettings(inline: Config, query: Config): Config {
    MergeAll([DefaultSettings, inline, query])
  }

  /** With the defaults applied flat, every documented key is present and
      each key takes its value from the highest-precedence source that has
      it. */
  lemma IntendedPrecedence(inline: Config, query: Config, k: string)
    ensures var r := IntendedSettings(inline, query);
      && (k in DefaultSettings ==> k in r)
      && (k in query ==> k in r && r[k] == query[k])
      && (k !in query && k in inline ==> k in r && r[k] == inline[k])
      && (k !in query && k !in inline && k in DefaultSettings ==> k in r && r[k] == DefaultSettings[k])
  {
    var objects := [DefaultSettings, inline, query];
    if k in query {
      MergeLastWins(objects, k, 2);
    } else if k in inline {
      MergeLastWins(objects, k, 1);
    } else if k in DefaultSettings {
      MergeLastWins(objects, k, 0);
    }
  }

  /** Inline `{limit: 5}` and query `{offset: 3}` resolve to the full set of
      documented keys. */
  lemma IntendedExample()
    ensures IntendedSettings(map["limit" := Num(5)], map["offset" := Num(3)])
         == map["api_key" := Null, "base-hostname" := Str("example.com"), "limit" := Num(5), "offset" := Num(3)]
  {
    var inline, query := map["limit" := Num(5)], map["offset" := Num(3)];
    var r := IntendedSettings(inline, query);
    var expected := map["api_key" := Null, "base-hostname" := Str("example.com"), "limit" := Num(5), "offset" := Num(3)];
    forall k | k in expected
      ensures k in r && r[k] == expected[k]
    {
      IntendedPrecedence(inline, query, k);
    }
    forall k | k in r
      ensures k in expected
    {
      MergeKeys([DefaultSettings, inline, query], k);
    }
  }

  /** A constructed widget. */
  class EmbedTumblrPosts {
    var settings: Config
    var targetElement: Node
    var contextNode: DocumentId

    /** The part of the constructor that runs when the target is an element. */
    constructor (targetElement: Node, settings: Option<Config>)
      requires targetElement.ElementNode?
      ensures this.settings == StoredSettings(settings)
      ensures this.targetElement == targetElement
      ensures this.contextNode == targetElement.ownerDocument
    {
      this.settings := StoredSettings(settings);
      this.targetElement := targetElement;
      this.contextNode := targetElement.ownerDocument;
    }
  }

  /** `new EmbedTumblrPosts(targetElement, settings)`: a `TypeError` exactly
      when the target is not an element, otherwise a new widget holding the
      stored settings, the target and its owner document. */
  method Construct(targetElement: Node, settings: Option<Config>) returns (r: Result<EmbedTumblrPosts>)
    ensures r.Failure? <==> !targetElement.ElementNode?
    ensures r.Failure? ==> r.error == TypeError
    ensures r.Success? ==> && fresh(r.value)
                           && r.value.settings == StoredSettings(settings)
                           && r.value.targetElement == targetElement
                           && r.value.contextNode == targetElement.ownerDocument
  {
    if !targetElement.ElementNode? {
      return Failure(TypeError);
    }
    var widget := new EmbedTumblrPosts(targetElement, settings);
    r := Success(widget);
  }
}
