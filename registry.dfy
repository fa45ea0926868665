/** The re-inclusion guard `global.EmbedTumblrPosts || (function () { …;
    global.EmbedTumblrPosts = EmbedTumblrPosts; return EmbedTumblrPosts; })()`:
    the global object is the one registry; an existing truthy binding is
    reused and nothing is rebuilt, otherwise the definition is built and
    installed under the name. */
module Registry {
  import opened Values

  /** `global[name]` holds a truthy value, so `global[name] || …` takes it. */
  predicate Bound(properties: map<string, Value>, name: string) {
    name in properties && Truthy(properties[name])
  }

  /** The value one evaluation of the guard yields, the global object's
      properties afterwards, and whether the defining function ran. */
  datatype Inclusion = Inclusion(binding: Value, properties: map<string, Value>, built: bool)

  /** One evaluation of the guard. */
  function Include(properties: map<string, Value>, name: string, definition: Value): Inclusion {
    if Bound(properties, name) then Inclusion(properties[name], properties, false)
    else Inclusion(definition, properties[name := definition], true)
  }

  /** Only the guarded name can change, and once an inclusion has run the
      name is bound whenever the definition is truthy (a function object
      always is). */
  lemma IncludeFrame(properties: map<string, Value>, name: string, definition: Value, k: string)
    requires k != name
    ensures var after := Include(properties, name, definition).properties;
      && (k in after <==> k in properties)
      && (k in properties ==> after[k] == properties[k])
      && (Truthy(definition) ==> Bound(after, name))
  {
  }

  /** The results of evaluating the guard once per inclusion of the script,
      each inclusion bringing its own (fresh) definition. */
  datatype Inclusions = Inclusions(bindings: seq<Value>, properties: map<string, Value>, builds: nat)

  function IncludeEach(properties: map<string, Value>, name: string, definitions: seq<Value>): Inclusions
    decreases |definitions|
  {
    if definitions == [] then Inclusions([], properties, 0)
    else
      var first := Include(properties, name, definitions[0]);
      var rest := IncludeEach(first.properties, name, definitions[1..]);
      Inclusions([first.binding] + rest.bindings, rest.properties, rest.builds + if first.built then 1 else 0)
  }

  /** Once the name is bound, every further inclusion yields the existing
      binding, leaves the global object alone and builds nothing. */
  lemma {:induction false} IncludeEachBound(properties: map<string, Value>, name: string, definitions: seq<Value>)
    requires Bound(properties, name)
    ensures var r := IncludeEach(properties, name, definitions);
      && |r.bindings| == |definitions|
      && (forall i :: 0 <= i < |r.bindings| ==> r.bindings[i] == properties[name])
      && r.properties == properties
      && r.builds == 0
  {
    if definitions != [] {
      IncludeEachBound(properties, name, definitions[1..]);
    }
  }

  /** Any number of inclusions build the definition at most once, and all
      of them yield the same binding as the first. */
  lemma RepeatedInclusion(properties: map<string, Value>, name: string, definitions: seq<Value>)
    requires definitions != [] && Truthy(definitions[0])
    ensures var first := Include(properties, name, definitions[0]);
      var r := IncludeEach(properties, name, definitions);
      && (forall i :: 0 <= i < |r.bindings| ==> r.bindings[i] == first.binding)
      && r.properties == first.properties
      && r.builds == if Bound(properties, name) then 0 else 1
  {
    var first := Include(properties, name, definitions[0]);
    IncludeEachBound(first.properties, name, definitions[1..]);
  }

  /** The global object, as far as the guard reads and writes it. */
  class Global {
    var properties: map<string, Value>
    /** How many times a defining function has run against this object. */
    ghost var builds: nat

    constructor (properties: map<string, Value>)
      ensures this.properties == properties && builds == 0
    {
      this.properties := properties;
      builds := 0;
    }

    /** One evaluation of the guard against this object. */
    method DefineOnce(name: string, definition: Value) returns (binding: Value)
      modifies this
      ensures var inclusion := Include(old(properties), name, definition);
        && binding == inclusion.binding
        && properties == inclusion.properties
        && builds == old(builds) + if inclusion.built then 1 else 0
    {
      if name in properties && Truthy(properties[name]) {
        binding := properties[name];
      } else {
        builds := builds + 1;
        properties := properties[name := definition];
        binding := definition;
      }
    }
  }
}
