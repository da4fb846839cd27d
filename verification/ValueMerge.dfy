/**
 Layered Helm values: the in-place `deepMerge` loop, and the fold of matching overrides that
 `mergeValues` computes for one cluster. JSON objects are values here; HeapMerge has them as objects.
 */
module ValueMerge {
  import opened Wrappers

  datatype Json =
    | Null
    | Bool(b: bool)
    | Number(text: string)
    | String(s: string)
    | Array(items: seq<Json>)
    | Object(fields: map<string, Json>)

  type Fields = map<string, Json>

  /** The value a key ends with: objects merge, otherwise the source wins, otherwise the destination stays. */
  function MergeValue(dst: Json, src: Json): Json
    decreases src, 1
  {
    if dst.Object? && src.Object? then Object(Merge(dst.fields, src)) else src
  }

  /** The recursive merge of an object's fields into `dst`. */
  function Merge(dst: Fields, src: Json): Fields
    requires src.Object?
    decreases src, 0
  {
    map k | k in dst.Keys + src.fields.Keys ::
      if k !in src.fields then dst[k] else if k !in dst then src.fields[k] else MergeValue(dst[k], src.fields[k])
  }

  /** A merge that has visited only some of the source keys. */
  function MergeKeys(dst: Fields, src: Json, keys: set<string>): Fields
    requires src.Object? && keys <= src.fields.Keys
  {
    map k | k in dst.Keys + keys ::
      if k !in keys then dst[k] else if k !in dst then src.fields[k] else MergeValue(dst[k], src.fields[k])
  }

  lemma MergeKeysEnds(dst: Fields, src: Json)
    requires src.Object?
    ensures MergeKeys(dst, src, {}) == dst && MergeKeys(dst, src, src.fields.Keys) == Merge(dst, src)
  {
  }

  /** Visiting one more key changes that key only, and a key not visited is as it was. */
  lemma MergeKeysStep(dst: Fields, src: Json, keys: set<string>, k: string)
    requires src.Object? && keys <= src.fields.Keys && k in src.fields && k !in keys
    ensures k in MergeKeys(dst, src, keys) <==> k in dst
    ensures k in dst ==> MergeKeys(dst, src, keys)[k] == dst[k]
    ensures MergeKeys(dst, src, keys + {k})
            == MergeKeys(dst, src, keys)[k := if k in dst then MergeValue(dst[k], src.fields[k]) else src.fields[k]]
  {
  }

  /** `deepMerge`: visits the source keys in an arbitrary order and updates the destination in place. */
  method DeepMerge(dst: Fields, src: Json) returns (merged: Fields)
    requires src.Object?
    ensures merged == Merge(dst, src)
    decreases src
  {
    hide MergeKeys, Merge;
    MergeKeysEnds(dst, src);
    merged := dst;
    var todo := src.fields.Keys;
    ghost var done: set<string> := {};
    while todo != {}
      invariant done <= src.fields.Keys && todo == src.fields.Keys - done
      invariant merged == MergeKeys(dst, src, done)
      decreases |todo|
    {
      var k :| k in todo;
      MergeKeysStep(dst, src, done, k);
      todo := todo - {k};
      done := done + {k};
      var srcVal := src.fields[k];
      if k !in merged {
        merged := merged[k := srcVal];
        continue;
      }
      var dstVal := merged[k];
      if srcVal.Object? && dstVal.Object? {
        var inner := DeepMerge(dstVal.fields, srcVal);
        merged := merged[k := Object(inner)];
      } else {
        merged := merged[k := srcVal];
      }
    }
    assert done == src.fields.Keys;
  }

  // ---- What a merge means, path by path ---------------------------------------------------------

  /** The value at a path of keys. */
  function At(j: Json, path: seq<string>): Option<Json>
    decreases |path|
  {
    if path == [] then Some(j)
    else if j.Object? && path[0] in j.fields then At(j.fields[path[0]], path[1..])
    else None
  }

  /** Somewhere along the path the source is present where not both sides are objects. */
  predicate Overridden(dst: Json, src: Json, path: seq<string>)
    decreases |path|
  {
    if !(dst.Object? && src.Object?) then true
    else if path == [] || path[0] !in src.fields then false
    else path[0] !in dst.fields || Overridden(dst.fields[path[0]], src.fields[path[0]], path[1..])
  }

  /** At every path: below the first point where not both sides are objects the source alone decides;
      where the source has nothing the destination is kept; where both are objects there is an object
      with the keys of both. */
  lemma {:induction false} MergeAtPath(dst: Json, src: Json, path: seq<string>)
    ensures var r := At(MergeValue(dst, src), path);
            if Overridden(dst, src, path) then r == At(src, path)
            else if At(src, path).None? then r == At(dst, path)
            else && At(dst, path).Some? && At(dst, path).value.Object? && At(src, path).value.Object?
                 && r.Some? && r.value.Object? && r.value.fields.Keys
                      == At(dst, path).value.fields.Keys + At(src, path).value.fields.Keys
    decreases |path|
  {
    if dst.Object? && src.Object? && path != [] {
      var k := path[0];
      if k in src.fields && k in dst.fields {
        MergeAtPath(dst.fields[k], src.fields[k], path[1..]);
      }
    }
  }

  /** Merging a value into itself, and into anything it was merged into, changes nothing. */
  lemma {:induction false} MergeTwice(dst: Json, src: Json)
    ensures MergeValue(MergeValue(dst, src), src) == MergeValue(dst, src)
    ensures MergeValue(src, src) == src
    decreases src
  {
    if src.Object? {
      forall k | k in src.fields
        ensures MergeValue(src.fields[k], src.fields[k]) == src.fields[k]
      {
        MergeTwice(src.fields[k], src.fields[k]);
      }
      assert Merge(src.fields, src) == src.fields;
      if dst.Object? {
        var once := Merge(dst.fields, src);
        forall k | k in once
          ensures Merge(once, src)[k] == once[k]
        {
          if k in src.fields && k in dst.fields {
            MergeTwice(dst.fields[k], src.fields[k]);
          }
        }
        assert Merge(once, src) == once;
      }
    }
  }

  // ---- Overrides ----------------------------------------------------------------------------------

  /** An override; `values` is None when they are absent or not JSON at all. */
  datatype Override =
    Override(clusters: seq<string>, selector: map<string, string>, component: string, values: Option<Json>)

  /** What unmarshalling the values into a map gives: null is a map without entries, and anything else that
      is not an object an error, on which the override is skipped. */
  function Patch(ov: Override): Option<Fields> {
    match ov.values
    case Some(Object(fields)) => Some(fields)
    case Some(Null) => Some(map[])
    case _ => None
  }

  function Label(labels: map<string, string>, k: string): string { if k in labels then labels[k] else "" }

  /** An explicit cluster list decides alone; otherwise every selector entry must match. */
  predicate Matches(ov: Override, cluster: string, labels: map<string, string>) {
    if ov.clusters != [] then cluster in ov.clusters
    else forall k :: k in ov.selector ==> Label(labels, k) == ov.selector[k]
  }

  method OverrideMatches(ov: Override, cluster: string, labels: map<string, string>) returns (r: bool)
    ensures r == Matches(ov, cluster, labels)
    ensures r <==> if ov.clusters != [] then exists i :: 0 <= i < |ov.clusters| && ov.clusters[i] == cluster
                   else forall k :: k in ov.selector ==> ov.selector[k] == (if k in labels then labels[k] else "")
  {
    if |ov.clusters| > 0 {
      for i := 0 to |ov.clusters|
        invariant cluster !in ov.clusters[..i]
      {
        if ov.clusters[i] == cluster {
          return true;
        }
      }
      return false;
    }
    var todo := ov.selector.Keys;
    while todo != {}
      invariant todo <= ov.selector.Keys
      invariant forall k :: k in ov.selector && k !in todo ==> Label(labels, k) == ov.selector[k]
      decreases |todo|
    {
      var k :| k in todo;
      if Label(labels, k) != ov.selector[k] {
        return false;
      }
      todo := todo - {k};
    }
    r := true;
  }

  /** One matching override on the values so far. */
  function ApplyOverride(merged: Fields, component: string, patch: Fields): Fields {
    if component == "" then Merge(merged, Object(patch))
    else if component !in merged || merged[component].Null?
        then merged[component := Object(Merge(map[], Object(patch)))]
    else if merged[component].Object? then merged[component := Object(Merge(merged[component].fields, Object(patch)))]
    else merged
  }

  function Layer(defaults: Fields, overrides: seq<Override>, cluster: string, labels: map<string, string>): Fields {
    if overrides == [] then defaults
    else
      var front, ov := Layer(defaults, overrides[..|overrides| - 1], cluster, labels), overrides[|overrides| - 1];
      if Matches(ov, cluster, labels) && Patch(ov).Some? then ApplyOverride(front, ov.component, Patch(ov).value)
          else front
  }

  /** `mergeValues`: defaults, then the matching overrides in order. */
  method MergeValues(defaults: Fields, overrides: seq<Override>, cluster: string, labels: map<string, string>)
    returns (merged: Fields)
    ensures merged == Layer(defaults, overrides, cluster, labels)
  {
    merged := defaults;
    for i := 0 to |overrides|
      invariant merged == Layer(defaults, overrides[..i], cluster, labels)
    {
      assert overrides[..i + 1][..i] == overrides[..i];
      var ov := overrides[i];
      var matches := OverrideMatches(ov, cluster, labels);
      if !matches || Patch(ov).None? {
        continue;
      }
      var patch := Object(Patch(ov).value);
      if ov.component != "" {
        if ov.component !in merged || merged[ov.component].Null? {
          merged := merged[ov.component := Object(map[])];
        }
        if merged[ov.component].Object? {
          var inner := DeepMerge(merged[ov.component].fields, patch);
          merged := merged[ov.component := Object(inner)];
        }
      } else {
        merged := DeepMerge(merged, patch);
      }
    }
    assert overrides[..|overrides|] == overrides;
  }

  lemma MergeIntoEmpty(patch: Fields)
    ensures Merge(map[], Object(patch)) == patch
  {
  }

  lemma LiftedPatch(merged: Fields, component: string, patch: Fields)
    ensures Merge(merged, Object(map[component := Object(patch)]))
            == merged[component := if component in merged then MergeValue(merged[component], Object(patch))
                else Object(patch)]
  {
  }

  /** A unit-scoped override is its patch lifted under that key exactly when the key is free, null or an
      object; on any other value it is dropped. */
  lemma ScopedIsLiftedIff(merged: Fields, component: string, patch: Fields)
    requires component != ""
    ensures var lifted := Merge(merged, Object(map[component := Object(patch)]));
            ApplyOverride(merged, component, patch) == lifted
            <==> component !in merged || merged[component].Null? || merged[component].Object?
    ensures component in merged && !merged[component].Null? && !merged[component].Object? ==>
              ApplyOverride(merged, component, patch) == merged
  {
    hide Merge;
    MergeIntoEmpty(patch);
    LiftedPatch(merged, component, patch);
    var lifted := Merge(merged, Object(map[component := Object(patch)]));
    assert lifted[component].Object?;
  }

  /** Applying the same override twice in a row is applying it once. */
  lemma OverrideTwice(merged: Fields, component: string, patch: Fields)
    ensures ApplyOverride(ApplyOverride(merged, component, patch), component, patch)
              == ApplyOverride(merged, component, patch)
  {
    if component == "" {
      MergeTwice(Object(merged), Object(patch));
    } else if component !in merged || merged[component].Null? {
      MergeTwice(Object(map[]), Object(patch));
    } else if merged[component].Object? {
      MergeTwice(merged[component], Object(patch));
    }
  }

  // ---- Which override decides a value ---------------------------------------------------------------

  /** The override takes part: it is for this cluster, and its values are an object or null. */
  predicate Applies(ov: Override, cluster: string, labels: map<string, string>) {
    && (if ov.clusters != [] then cluster in ov.clusters
        else forall k :: k in ov.selector ==> ov.selector[k] == (if k in labels then labels[k] else ""))
    && ov.values.Some? && (ov.values.value.Object? || ov.values.value.Null?)
  }

  /** The override's values at their place in the merged values: under its component, if it has one. */
  function Lifted(ov: Override): Json
    requires ov.values.Some?
  {
    var patch := if ov.values.value.Object? then ov.values.value else Object(map[]);
    if ov.component == "" then patch else Object(map[ov.component := patch])
  }

  /** Its component is taken by a value that cannot hold it. */
  predicate Blocked(merged: Fields, ov: Override) {
    && ov.component != "" && ov.component in merged
    && !merged[ov.component].Null? && !merged[ov.component].Object?
  }

  /** On the way along the path some object lacks the next key. */
  predicate Silent(j: Json, path: seq<string>)
    decreases |path|
  {
    j.Object? && path != [] && (path[0] in j.fields ==> Silent(j.fields[path[0]], path[1..]))
  }

  lemma {:induction false} SilentKeeps(dst: Json, src: Json, path: seq<string>)
    requires dst.Object? && Silent(src, path)
    ensures At(MergeValue(dst, src), path) == At(dst, path)
    decreases |path|
  {
    var k := path[0];
    if k in src.fields {
      SilentIsAbsent(src.fields[k], path[1..]);
      if k in dst.fields && dst.fields[k].Object? {
        SilentKeeps(dst.fields[k], src.fields[k], path[1..]);
      } else {
        assert Merge(dst.fields, src)[k] == src.fields[k];
      }
    }
  }

  lemma {:induction false} SilentIsAbsent(j: Json, path: seq<string>)
    requires Silent(j, path)
    ensures At(j, path).None? && path != []
    decreases |path|
  {
    if path[0] in j.fields {
      SilentIsAbsent(j.fields[path[0]], path[1..]);
    }
  }

  /** One override is a merge of its lifted values, or nothing. */
  lemma LayerStep(merged: Fields, ov: Override, cluster: string, labels: map<string, string>)
    ensures Applies(ov, cluster, labels) <==> Matches(ov, cluster, labels) && Patch(ov).Some?
    ensures Applies(ov, cluster, labels) ==>
              ApplyOverride(merged, ov.component, Patch(ov).value)
              == if Blocked(merged, ov) then merged else Merge(merged, Lifted(ov))
  {
    if Applies(ov, cluster, labels) && ov.component != "" {
      hide Merge, ApplyOverride;
      ScopedIsLiftedIff(merged, ov.component, Patch(ov).value);
    }
  }

  lemma LayerSnoc(defaults: Fields, overrides: seq<Override>, cluster: string, labels: map<string, string>, n: nat)
    requires n < |overrides|
    ensures var ov, front := overrides[n], Layer(defaults, overrides[..n], cluster, labels);
            Layer(defaults, overrides[..n + 1], cluster, labels)
            == if Applies(ov, cluster, labels) && !Blocked(front, ov) then Merge(front, Lifted(ov)) else front
  {
    hide ApplyOverride, Matches, Applies, Merge, Blocked, Lifted, Patch;
    assert overrides[..n + 1][..n] == overrides[..n];
    LayerStep(Layer(defaults, overrides[..n], cluster, labels), overrides[n], cluster, labels);
  }

  /** Overrides that do not apply, or say nothing on the path, leave the value there as it was. */
  lemma {:induction false} UntouchedSince(defaults: Fields, overrides: seq<Override>, cluster: string,
                                          labels: map<string, string>, path: seq<string>, i: nat, n: nat)
    requires i <= n <= |overrides|
    requires forall j :: i <= j < n && Applies(overrides[j], cluster, labels) ==> Silent(Lifted(overrides[j]), path)
    ensures At(Object(Layer(defaults, overrides[..n], cluster, labels)), path)
              == At(Object(Layer(defaults, overrides[..i], cluster, labels)), path)
    decreases n
  {
    if i < n {
      hide Applies, Blocked, Lifted, Merge, Layer, Silent, At;
      UntouchedSince(defaults, overrides, cluster, labels, path, i, n - 1);
      LayerSnoc(defaults, overrides, cluster, labels, n - 1);
      var front, ov := Layer(defaults, overrides[..n - 1], cluster, labels), overrides[n - 1];
      if Applies(ov, cluster, labels) && !Blocked(front, ov) {
        MergesLifted(front, ov);
        SilentKeeps(Object(front), Lifted(ov), path);
      }
    }
  }

  lemma LayerNone(defaults: Fields, overrides: seq<Override>, cluster: string, labels: map<string, string>)
    ensures Layer(defaults, overrides[..0], cluster, labels) == defaults
  {
  }

  lemma MergesLifted(front: Fields, ov: Override)
    requires ov.values.Some?
    ensures Lifted(ov).Object? && MergeValue(Object(front), Lifted(ov)) == Object(Merge(front, Lifted(ov)))
  {
  }

  /** The last override that applies and sets a value at a path decides it, unless its component was blocked;
      where none sets anything, the defaults do. */
  lemma LastSettingWins(defaults: Fields, overrides: seq<Override>, cluster: string, labels: map<string, string>,
                        path: seq<string>, i: nat)
    requires i <= |overrides|
    requires forall j :: i <= j < |overrides| && Applies(overrides[j], cluster, labels) ==>
                           Silent(Lifted(overrides[j]), path)
    ensures var end := At(Object(Layer(defaults, overrides, cluster, labels)), path);
            && (i == 0 ==> end == At(Object(defaults), path))
            && (i > 0 && Applies(overrides[i - 1], cluster, labels) ==>
                  var ov, front := overrides[i - 1], Layer(defaults, overrides[..i - 1], cluster, labels);
                  var said := At(Lifted(ov), path);
                  said.Some? && !said.value.Object? ==>
                    end == if Blocked(front, ov) then At(Object(front), path) else said)
  {
    hide Blocked, Lifted, Merge, Silent, MergeValue, Layer;
    assert overrides[..|overrides|] == overrides;
    LayerNone(defaults, overrides, cluster, labels);
    UntouchedSince(defaults, overrides, cluster, labels, path, i, |overrides|);
    if i > 0 && Applies(overrides[i - 1], cluster, labels) {
      var front, ov := Layer(defaults, overrides[..i - 1], cluster, labels), overrides[i - 1];
      LayerSnoc(defaults, overrides, cluster, labels, i - 1);
      MergesLifted(front, ov);
      MergeAtPath(Object(front), Lifted(ov), path);
    }
  }
}
