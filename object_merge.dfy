/** `util.objectMerge`: a shallow key/value union of any number of objects,
    later objects winning. */
module ObjectMerge {
  import opened Values

  /** Object `i` is the last of `objects` that has the key `k`. */
  ghost predicate LastHolder(objects: seq<Config>, k: string, i: int) {
    && 0 <= i < |objects|
    && k in objects[i]
    && forall j :: i < j < |objects| ==> k !in objects[j]
  }

  /** The merge as a left fold over the arguments, each one overwriting the
      keys it shares with those before it. */
  function MergeAll(objects: seq<Config>): Config
  {
    if objects == [] then map[]
    else MergeAll(objects[..|objects| - 1]) + objects[|objects| - 1]
  }

  /** The result's keys are the union of the arguments' keys; in particular
      zero arguments give the empty object. */
  lemma {:induction false} MergeKeys(objects: seq<Config>, k: string)
    ensures k in MergeAll(objects) <==> exists i :: 0 <= i < |objects| && k in objects[i]
  {
    if objects != [] {
      var front := objects[..|objects| - 1];
      MergeKeys(front, k);
      if k in MergeAll(front) {
        var i :| 0 <= i < |front| && k in front[i];
        assert k in objects[i];
      }
      if i :| 0 <= i < |objects| - 1 && k in objects[i] {
        assert k in front[i];
      }
    }
  }

  /** Each key carries its value in the last argument that holds it. */
  lemma {:induction false} MergeLastWins(objects: seq<Config>, k: string, i: int)
    requires LastHolder(objects, k, i)
    ensures k in MergeAll(objects) && MergeAll(objects)[k] == objects[i][k]
  {
    var front := objects[..|objects| - 1];
    if i < |front| {
      assert LastHolder(front, k, i);
      MergeLastWins(front, k, i);
    }
  }

  /** The loop of the source: for each argument in order, copy each of its
      keys into a new object. The arguments are values, so none of them is
      modified. */
  method ObjectMerge(objects: seq<Config>) returns (merged: Config)
    ensures merged == MergeAll(objects)
  {
    merged := map[];
    var i := 0;
    while i < |objects|
      invariant 0 <= i <= |objects|
      invariant merged == MergeAll(objects[..i])
    {
      var obj := objects[i];
      var pending := obj.Keys;
      while pending != {}
        invariant pending <= obj.Keys
        invariant merged == MergeAll(objects[..i]) + map k | k in obj.Keys - pending :: obj[k]
        decreases pending
      {
        var key :| key in pending;
        merged := merged[key := obj[key]];
        pending := pending - {key};
      }
      assert obj.Keys - pending == obj.Keys;
      assert objects[..i + 1][..i] == objects[..i];
      i := i + 1;
    }
    assert objects[..i] == objects;
  }

  /** Merging is associative in argument order: merging a concatenation is
      merging the merges of its two halves. */
  lemma {:induction false} MergeAppend(xs: seq<Config>, ys: seq<Config>)
    ensures MergeAll(xs + ys) == MergeAll(xs) + MergeAll(ys)
  {
    if ys == [] {
      assert xs + ys == xs;
    } else {
      var ys' := ys[..|ys| - 1];
      assert (xs + ys)[..|xs + ys| - 1] == xs + ys';
      MergeAppend(xs, ys');
    }
  }

  /** Merging `[a, b, c]` is merging `[merge([a, b]), c]`. */
  lemma MergeThreeIsNested(a: Config, b: Config, c: Config)
    ensures MergeAll([a, b, c]) == MergeAll([MergeAll([a, b]), c])
  {
    MergeAppend([a, b], [c]);
    assert [a, b] + [c] == [a, b, c];
    MergeAppend([MergeAll([a, b])], [c]);
    assert [MergeAll([a, b])] + [c] == [MergeAll([a, b]), c];
    assert MergeAll([MergeAll([a, b])]) == MergeAll([a, b]);
  }

  /** A single argument comes back unchanged: same keys, same values, no
      coercion. */
  lemma MergeOne(a: Config)
    ensures MergeAll([a]) == a
  {
    assert [a][..0] == [];
  }
}
