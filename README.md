# Embed Tumblr Posts: configuration pipeline and install-once guard

This project models the loader of the Embed Tumblr Posts widget
(`embed-tumblr-posts.js`) in Dafny and proves properties of the model. A
`<script>` tag loads the widget. On load the script does four things:

1. It finds the script element that is running: the last `<script>` of the document.
2. It reads two sources of settings from that element:
   - the inline settings: the element's text, unwrapped from CDATA and parsed as JSON;
   - the query settings: the query of the element's `src`, split on `;`/`&` and `=`.
3. It merges the two with `util.objectMerge`, the query winning.
4. It constructs an `EmbedTumblrPosts` widget bound to that element and keeps a listener that will run it.

The constructor is defined behind a re-inclusion guard, so loading the script
twice reuses the first definition. The string helpers `escapeHtmlTags` and
`extractHtmlTags` are modelled as well.

Modules, one per component:

- `Values`: configuration values (`Null`, `Bool`, `Num`, `Str`, `Obj`), JavaScript truthiness, `Option`/`Result`, the two exceptions.
- `Dom`: the document data the loader reads, supplied as inputs.
- `ObjectMerge`: `util.objectMerge`, as a fold (`MergeAll`) and as the source's nested loop (`ObjectMerge`).
- `QueryString`: `util.parseQueryString`, with `String.prototype.split` modelled as `Split`.
- `Cdata`: `util.extractContentsFromCdataSection`.
- `HtmlEscape`: `util.escapeHtmlTags`, as three chained global replacements (`ReplaceAll`).
- `HtmlTags`: `util.extractHtmlTags`. The lazy pattern `<.+?>` is modelled exactly, including that `.` does not match line terminators.
- `Widget`: the `EmbedTumblrPosts` class and its constructor.
- `Registry`: the guard `global.EmbedTumblrPosts || (…)`.
- `Preparation`: `getCurrentScriptElement`, the two settings readers, the resolution, and `preparation` itself (class `Loader`).

## Model

| member | source | states |
|---|---|---|
| `ObjectMerge.MergeAll` | embed-tumblr-posts.js:150-159 | The merge as a left fold, each argument overwriting shared keys; characterized by `MergeKeys` (key union) and `MergeLastWins` (last holder wins) |
| `ObjectMerge.ObjectMerge` | embed-tumblr-posts.js:150-159 | The nested copy loop computes exactly the fold `MergeAll` of its arguments; the arguments are values and are not modified |
| `ObjectMerge.MergeKeys` | embed-tumblr-posts.js:153-157 | A key is in the merge iff some argument has it; zero arguments give the empty object |
| `ObjectMerge.MergeLastWins` | embed-tumblr-posts.js:153-157 | A key takes its value from the last argument that holds it |
| `ObjectMerge.MergeAppend` | embed-tumblr-posts.js:150-159 | Merging `xs + ys` equals the merge of `xs` overwritten by the merge of `ys` (associativity in argument order) |
| `ObjectMerge.MergeThreeIsNested` | embed-tumblr-posts.js:150-159 | `merge(a, b, c) == merge(merge(a, b), c)` |
| `ObjectMerge.MergeOne` | embed-tumblr-posts.js:150-159 | Merging a single object returns it unchanged, values not coerced |
| `QueryString.Split` | embed-tumblr-posts.js:179 | `split(/[;&]/)` gives one more token than there are separators, and no token holds a separator |
| `QueryString.JoinSplit` | embed-tumblr-posts.js:179 | Re-joining the tokens with the removed separators restores the text |
| `QueryString.SplitJoin` | embed-tumblr-posts.js:179 | Splitting separator-free tokens joined by separators gives the tokens back |
| `QueryString.KeyOf` | embed-tumblr-posts.js:181-182 | `keyAndValue[0]`; `KeyBeforeFirstEquals` proves it is the text before the first `=` |
| `QueryString.ValueOf` | embed-tumblr-posts.js:181-182 | `keyAndValue[1] or true`; `ValueBetweenEquals` proves it is `true` or the verbatim text between the first and second `=` |
| `QueryString.KeyBeforeFirstEquals` | embed-tumblr-posts.js:181-182 | A token's key is its text before the first `=` (all of it when there is no `=`) |
| `QueryString.ValueBetweenEquals` | embed-tumblr-posts.js:181-182 | The value is `true` when there is no `=` or nothing follows it; otherwise the verbatim text from the first `=` to the next `=` or the end. Text after a second `=` is dropped and nothing is decoded |
| `QueryString.Collect` | embed-tumblr-posts.js:180-183 | Sequential insertion of each token's pair; `CollectKeys` and `CollectLastWins` give its keys and last-wins values |
| `QueryString.ParseQuery` | embed-tumblr-posts.js:177-185 | `Collect` over the `;`/`&` tokens; `EmptyQuery` and `ExampleQuery` give its results on the empty query and on `a=1&b=2;c` |
| `QueryString.ParseQueryString` | embed-tumblr-posts.js:177-185 | The loop computes `ParseQuery`, sequential insertion of every token's key/value pair |
| `QueryString.CollectKeys` | embed-tumblr-posts.js:180-183 | The result's keys are exactly the keys of the tokens |
| `QueryString.CollectLastWins` | embed-tumblr-posts.js:180-183 | A duplicated key takes the value of its last token |
| `QueryString.EmptyQuery` | embed-tumblr-posts.js:179-182 | The empty query yields `{"": true}`, not `{}` |
| `QueryString.ExampleQuery` | embed-tumblr-posts.js:177-185 | `a=1&b=2;c` yields `{a: "1", b: "2", c: true}` |
| `Cdata.ExtractContents` | embed-tumblr-posts.js:192-197 | The result is the input with a leading `<![CDATA[` cut exactly when present and a trailing `]]>` cut exactly when present, each independently of the other; the two never overlap |
| `Cdata.UnwrapWrapped` | embed-tumblr-posts.js:192-197 | `"<![CDATA[" + s + "]]>"` gives `s` |
| `Cdata.UnchangedIffUnmarked` | embed-tumblr-posts.js:193-196 | The text is returned unchanged iff it neither starts with `<![CDATA[` nor ends with `]]>` |
| `Cdata.OneLayerOnly` | embed-tumblr-posts.js:194-195 | A doubly wrapped text loses only one layer of each marker |
| `Cdata.NotIdempotent` | embed-tumblr-posts.js:192-197 | There is a text on which a second extraction changes the result |
| `HtmlEscape.EscapeHtmlTags` | embed-tumblr-posts.js:215-221 | The three chained global replacements; `EscapeIsPerCharacter`, `UnescapeEscape` and `EscapeHtmlTagsShape` state its properties |
| `HtmlEscape.EscapeIsPerCharacter` | embed-tumblr-posts.js:215-221 | The three chained replacements escape each character on its own (`&`, `<`, `>` to their references, others kept) |
| `HtmlEscape.UnescapeEscape` | embed-tumblr-posts.js:216-219 | Because `&` is replaced first, the reverse substitution (`&gt;`, `&lt;`, then `&amp;`) recovers the input |
| `HtmlEscape.EscapeHtmlTagsShape` | embed-tumblr-posts.js:215-221 | The output has no `<` or `>`; every `&` begins `&amp;`, `&lt;` or `&gt;`; the length is the input length + 4·#`&` + 3·#`<` + 3·#`>` |
| `HtmlTags.TagLength` | embed-tumblr-posts.js:206 | A `<.+?>` match starts at the text's head iff it is `<` and a `>` at index 2 or later is reached without a line terminator; the match ends at the first such `>` |
| `HtmlTags.LazyExample` | embed-tumblr-posts.js:206 | The match is lazy: `<a>b<c>` becomes `b`, where a greedy match would remove everything |
| `HtmlTags.ExtractHtmlTags` | embed-tumblr-posts.js:204-208 | The output is never longer than the input |
| `HtmlTags.KeptPrefix` | embed-tumblr-posts.js:206 | Text before the first `<` is kept verbatim in front of the result for the rest |
| `HtmlTags.TagRemoved` | embed-tumblr-posts.js:206 | A tag `<x>` at the head (non-empty `x` on one line, no `>` after its first character) is removed whole, and the rest is processed on its own |
| `HtmlTags.MatchInPrefix` | embed-tumblr-posts.js:206 | A match at the head of a text is the same match whatever text follows, because the lazy match ends at its first `>` |
| `HtmlTags.NoMatchAcrossLine` | embed-tumblr-posts.js:206 | When no match starts at the head of `a`, none starts at the head of `a`, a line terminator and anything after it |
| `HtmlTags.LinesApart` | embed-tumblr-posts.js:206 | A match never spans a line: the text on each side of a line terminator is processed on its own and the terminator is kept, so a `<` that starts no match survives even when a match follows on a later line |
| `HtmlTags.NoOpenBracketUnchanged` | embed-tumblr-posts.js:205-206 | Text without `<` is returned unchanged |
| `HtmlTags.NoTagLeft` | embed-tumblr-posts.js:206 | No `<.+?>` match starts anywhere in the output |
| `HtmlTags.TagFreeUnchanged` | embed-tumblr-posts.js:206 | Text with no match is returned unchanged |
| `HtmlTags.ExtractIdempotent` | embed-tumblr-posts.js:204-208 | Removing tags twice is the same as removing them once |
| `Widget.StoredSettings` | embed-tumblr-posts.js:28-29 | `objectMerge(EmbedTumblrPosts, settings or {})`; `StoredSettingsShape` and `DefaultsNotApplied` state its keys and values |
| `Widget.StoredSettingsShape` | embed-tumblr-posts.js:28-29 | The stored settings hold the caller's keys and values (a missing `settings` is `{}`) plus a `DEFAULT_SETTINGS` key holding the defaults object unless the caller supplied that key |
| `Widget.DefaultsNotApplied` | embed-tumblr-posts.js:29 | A documented default key (`limit`, `offset`, …) that the caller omits is absent from the stored settings |
| `Widget.IntendedPrecedence` | embed-tumblr-posts.js:43-48 | With the defaults merged flat and lowest, every documented key is present; query beats inline beats default |
| `Widget.IntendedExample` | embed-tumblr-posts.js:43-48 | Inline `{limit: 5}` and query `{offset: 3}` give `{api_key: null, base-hostname: "example.com", limit: 5, offset: 3}` under the intended merge |
| `Widget.EmbedTumblrPosts.constructor` | embed-tumblr-posts.js:27-35 | Stores the merge of the constructor object with `settings` (`{}` when missing), the target, and the target's owner document |
| `Widget.Construct` | embed-tumblr-posts.js:27-35 | `new EmbedTumblrPosts(...)` throws `TypeError` iff the target is not an element; otherwise gives a new widget with the stored settings, target and owner document |
| `Registry.Include` | embed-tumblr-posts.js:20-61 | One evaluation of `global.EmbedTumblrPosts or (build; install)`: reuse a truthy binding, else build and install; `IncludeFrame` states what it changes |
| `Registry.IncludeEach` | embed-tumblr-posts.js:20-61 | One evaluation of the guard per inclusion of the script; `IncludeEachBound` and `RepeatedInclusion` state that it builds at most once and always yields the first binding |
| `Registry.IncludeFrame` | embed-tumblr-posts.js:20 | The guard touches only its own name, and with a truthy definition the name is bound afterwards |
| `Registry.IncludeEachBound` | embed-tumblr-posts.js:20 | Once the name is bound, every further inclusion yields the existing binding, changes nothing and builds nothing |
| `Registry.RepeatedInclusion` | embed-tumblr-posts.js:20-61 | Any number of inclusions all yield the first inclusion's binding and build the definition at most once (exactly once when the name was unbound) |
| `Registry.Global.DefineOnce` | embed-tumblr-posts.js:20-61 | A truthy existing binding is returned and the global object is untouched; otherwise the definition is built once, installed and returned |
| `Preparation.GetCurrentScriptElement` | embed-tumblr-posts.js:109-113 | Gives the last script element; none exactly when the document has no script element |
| `Preparation.QueryText` | embed-tumblr-posts.js:122 | An absent (empty) `search` contributes the empty query text; otherwise the query is `search` without its leading `?` |
| `Preparation.ScriptQuerySettings` | embed-tumblr-posts.js:120-125 | The query settings of the script's `src`: `ParseQuery` of `QueryText(search)`, whose lemmas in `QueryString` apply |
| `Preparation.ParseEmbedSettingsText` | embed-tumblr-posts.js:132-136 | The inline text, unwrapped from CDATA, given to the JSON parser; `EmbedSettingsUnwrapped` and `EmptyInlineTextFails` state its behaviour |
| `Preparation.EmbedSettingsUnwrapped` | embed-tumblr-posts.js:132-136 | CDATA-wrapped inline text is parsed as what it wraps; unmarked text as itself |
| `Preparation.ResolveSettings` | embed-tumblr-posts.js:69-72 | `objectMerge(inline, query)`; `ResolvePrecedence` states the key union and that the query wins |
| `Preparation.ResolvePrecedence` | embed-tumblr-posts.js:69-72 | Resolved keys are the union of the inline and query keys; a key in both takes the query value |
| `Preparation.Resolve` | embed-tumblr-posts.js:67-75 | Resolution fails with `TypeError` when there is no script element or the last one is not an element, and with `SyntaxError` when the inline text does not parse; otherwise it binds to the last script element with the merged settings |
| `Preparation.EmptyInlineTextFails` | embed-tumblr-posts.js:132-136 | With a parser that rejects the empty text, as `JSON.parse` does, a script element with no inline text fails with `SyntaxError` |
| `Preparation.Loader.constructor` | embed-tumblr-posts.js:81-83 | The initial listener does nothing |
| `Preparation.Loader.Prepare` | embed-tumblr-posts.js:67-75 | On success the listener runs a new widget on the current script element with the stored form of the resolved settings; on failure the error propagates and the listener is unchanged |

## Findings

| source | as written | input that shows it | evidently intended | confidence | as-written member | corrected member |
|---|---|---|---|---|---|---|
| embed-tumblr-posts.js:29 | `util.objectMerge(EmbedTumblrPosts, settings)` merges the constructor function itself, so the stored settings get one key `DEFAULT_SETTINGS` plus the caller's keys | settings `{limit: 5}`: the stored settings are `{DEFAULT_SETTINGS: {…}, limit: 5}` and have no `offset` | `objectMerge(EmbedTumblrPosts.DEFAULT_SETTINGS, settings)`: defaults lowest, so every documented key is present | not executed; high (the documented defaults are otherwise never read) | `Widget.DefaultsNotApplied` | `Widget.IntendedSettings` (proved by `Widget.IntendedPrecedence`, `Widget.IntendedExample`) |

The widget class and `Loader.Prepare` keep the as-written merge. That is
what the constructor stores, and the corrected merge is proved beside it.

Other behaviours a reader might not expect are kept as the code has them:

- The empty query gives `{"": true}`.
- Text after a second `=` is dropped from a value.
- Values are not percent-decoded.
- Empty inline text is handed to the JSON parser rather than read as `{}`.

## Left out

- DOM access is not modelled; its results are inputs (`Dom.Node`). This covers `getElementsByTagNameNS` (line 110), `getAttribute`/`textContent` (lines 121, 133), `ownerDocument` and `instanceof Element`.
- `util.parseUri` (lines 166-170) resolves a URL through an `<a>` element. It is not modelled: the `search` part it yields is given as an input.
- `JSON.parse` (line 134) is a library call. It is a parameter `parseJson` whose failure aborts resolution. It is assumed to return an object; a JSON array, string or number (which `for … in` would enumerate differently) is not modelled.
- `addListener`, the `DOMContentLoaded` registration, and the body of the listener closure are left out (lines 55-56, 81-102). They are browser event plumbing, and `run` is empty. A kept listener is `Listener.Runs(widget)`. The widget's render state machine does not exist in the code and is not modelled.
- `supportInternetExplorer` and its user-agent test (lines 227-269) are left out. This environment shim patches browser primitives.
- The bootstrap `if (window === global)` (lines 271-273) is left out. It is an environment check.
- Object key insertion order is not modelled; objects are finite maps. No code depends on the order.
- Inherited enumerable properties that `for … in` would also visit are not modelled. The constructor function object is modelled by its enumerable own properties, i.e. `{DEFAULT_SETTINGS: …}`.
- `getElementsByTagNameNS` returns only elements. A non-element in the script list (`Dom.OtherNode`) is treated as the `TypeError` that reading it would raise; the relative order of that error and a JSON error is not modelled.
- `QueryString.ParseQuery`, `ObjectMerge.MergeAll`: the key `__proto__` is treated as an ordinary key. In the source, assigning to `__proto__` on a plain object (lines 155, 182) calls the prototype setter instead. A string value is ignored, so `__proto__=x` gives `{}` there. An object value becomes the prototype, and its properties are then visited by later `for … in` loops. The model does neither.
- Strings are sequences of Unicode scalar values, not UTF-16 code units, so a lone surrogate cannot be represented.
- Numbers are integers; floating point is not modelled.
- Object identity is not modelled: values are compared structurally. For the guard, a ghost counter of how many times a definition is built stands for "the same object is reused".
- `Widget.EmbedTumblrPosts.constructor` checks the target before storing anything. The source assigns `settings` and `targetElement` and then throws, but the half-built object is unreachable after the throw.
