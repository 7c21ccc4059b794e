/** Load: five layers in order of precedence, then the validations that rely on the source table. */
module ConfigLoad {
  import opened Common
  import opened ConfigTree
  import opened ConfigLayers

  /** One layer that takes part; `typed` marks the ones whose strings are parsed (env and flags). */
  datatype Layer = Layer(name: string, typed: bool, tree: Value)

  predicate Usable(layers: seq<Layer>) {
    forall i :: 0 <= i < |layers| ==> layers[i].tree.Map? && Clean(layers[i].tree)
  }

  predicate AllMaps(layers: seq<Layer>) {
    forall i :: 0 <= i < |layers| ==> layers[i].tree.Map?
  }

  /** What a layer contributes on top of `base`. */
  function Content(c: Conversions, base: Value, l: Layer): (r: Value)
    requires base.Map? && l.tree.Map?
    ensures r.Map?
  {
    if l.typed then ApplyTyped(c, base, l.tree) else l.tree
  }

  function Merged(c: Conversions, layers: seq<Layer>): (r: Value)
    requires AllMaps(layers)
    ensures r.Map?
    decreases |layers|
  {
    if layers == [] then EMPTY
    else
      var n := |layers| - 1;
      var below := Merged(c, layers[..n]);
      Merge(below, Content(c, below, layers[n]))
  }

  /** The last layer that has a leaf at the path. */
  function LastDefining(layers: seq<Layer>, p: Path): (r: Option<nat>)
    ensures r.Some? ==> r.value < |layers| && IsLeaf(layers[r.value].tree, p)
    ensures r.Some? ==> forall j :: r.value < j < |layers| ==> !IsLeaf(layers[j].tree, p)
    ensures r.None? ==> forall j :: 0 <= j < |layers| ==> !IsLeaf(layers[j].tree, p)
    decreases |layers|
  {
    if layers == [] then None
    else if IsLeaf(layers[|layers| - 1].tree, p) then Some(|layers| - 1)
    else LastDefining(layers[..|layers| - 1], p)
  }

  /** The last layer that wrote a flattened key into the table. */
  function SourceOf(layers: seq<Layer>, f: string): Option<string>
    decreases |layers|
  {
    if layers == [] then None
    else if f in FlatKeys(layers[|layers| - 1].tree, "") then Some(layers[|layers| - 1].name)
    else SourceOf(layers[..|layers| - 1], f)
  }

  /** The value a layer gives a leaf: its own, parsed under the type of what lay below. */
  function LeafValue(c: Conversions, layers: seq<Layer>, i: nat, p: Path): Value
    requires AllMaps(layers) && i < |layers| && IsLeaf(layers[i].tree, p)
  {
    var own := Lookup(layers[i].tree, p).value;
    if layers[i].typed then TypedLeaf(c, Lookup(Merged(c, layers[..i]), p), own) else own
  }

  /** A leaf of the merged tree is the value of the last layer with a leaf at its path, typed where that layer is. */
  lemma {:induction false} ValueProvenance(c: Conversions, layers: seq<Layer>, p: Path)
    requires AllMaps(layers) && IsLeaf(Merged(c, layers), p)
    ensures LastDefining(layers, p).Some? && p != []
    ensures Lookup(Merged(c, layers), p) == Some(LeafValue(c, layers, LastDefining(layers, p).value, p))
    decreases |layers|
  {
    if layers != [] {
      var n := |layers| - 1;
      var below, top := Merged(c, layers[..n]), layers[n];
      TypedLeaves(c, below, top.tree, p);
      MergeLeaf(below, Content(c, below, top), p);
      if !IsLeaf(top.tree, p) {
        ValueProvenance(c, layers[..n], p);
        var i := LastDefining(layers[..n], p).value;
        assert layers[..n][..i] == layers[..i];
      }
    }
  }

  /** The layers differ in name. */
  predicate DistinctNames(layers: seq<Layer>) {
    forall i, j :: 0 <= i < j < |layers| ==> layers[i].name != layers[j].name
  }

  /** No layer above the one that defines the leaf writes its flattened key. */
  predicate Undisputed(layers: seq<Layer>, p: Path)
    requires LastDefining(layers, p).Some?
  {
    forall j :: LastDefining(layers, p).value < j < |layers| ==> JoinFrom("", p) !in FlatKeys(layers[j].tree, "")
  }

  /** The table holds the name of the last layer that wrote the key. */
  lemma {:induction false} SourceIsLastWriter(layers: seq<Layer>, f: string, i: nat)
    requires i < |layers| && f in FlatKeys(layers[i].tree, "")
    requires forall j :: i < j < |layers| ==> f !in FlatKeys(layers[j].tree, "")
    ensures SourceOf(layers, f) == Some(layers[i].name)
    decreases |layers|
  {
    if i < |layers| - 1 {
      SourceIsLastWriter(layers[..|layers| - 1], f, i);
    }
  }

  /** Of the layers from `i` on, one of which writes the key, the last to do so. */
  lemma {:induction false} LastWriter(layers: seq<Layer>, f: string, i: nat) returns (k: nat)
    requires i < |layers| && f in FlatKeys(layers[i].tree, "")
    ensures i <= k < |layers| && f in FlatKeys(layers[k].tree, "")
    ensures forall j :: k < j < |layers| ==> f !in FlatKeys(layers[j].tree, "")
    decreases |layers| - i
  {
    k := i;
    if j :| i < j < |layers| && f in FlatKeys(layers[j].tree, "") {
      k := LastWriter(layers, f, j);
    }
  }

  /** The table names the layer that defines a leaf exactly if the leaf is undisputed, whatever the keys. */
  lemma TableExact(layers: seq<Layer>, p: Path)
    requires DistinctNames(layers) && LastDefining(layers, p).Some?
    ensures SourceOf(layers, JoinFrom("", p)) == Some(layers[LastDefining(layers, p).value].name) <==>
            Undisputed(layers, p)
  {
    var i, f := LastDefining(layers, p).value, JoinFrom("", p);
    assert p in LeafPaths(layers[i].tree);
    var k := LastWriter(layers, f, i);
    SourceIsLastWriter(layers, f, k);
  }

  /**
   Tree and table, for all keys: a leaf of the merged tree is the (typed) value of the last
   layer with a leaf at its path, and the table names that very layer exactly if no layer
   above it writes the leaf's flattened key.
   */
  lemma Provenance(c: Conversions, layers: seq<Layer>, p: Path)
    requires AllMaps(layers) && DistinctNames(layers) && IsLeaf(Merged(c, layers), p)
    ensures LastDefining(layers, p).Some?
    ensures var i := LastDefining(layers, p).value;
            && Lookup(Merged(c, layers), p) == Some(LeafValue(c, layers, i, p))
            && (SourceOf(layers, JoinFrom("", p)) == Some(layers[i].name) <==> Undisputed(layers, p))
  {
    ValueProvenance(c, layers, p);
    TableExact(layers, p);
  }

  /** With clean keys every leaf is undisputed. */
  lemma CleanUndisputed(layers: seq<Layer>, p: Path)
    requires Usable(layers) && LastDefining(layers, p).Some? && p != []
    ensures CleanPath(p) && Undisputed(layers, p)
  {
    var i := LastDefining(layers, p).value;
    assert Clean(layers[i].tree) && p in LeafPaths(layers[i].tree);
    forall j | i < j < |layers| ensures JoinFrom("", p) !in FlatKeys(layers[j].tree, "") {
      assert Clean(layers[j].tree);
      NotOverwritten(layers[j].tree, p);
    }
  }

  /** A layer without a leaf at a clean path does not touch its table entry. */
  lemma NotOverwritten(tree: Value, p: Path)
    requires tree.Map? && Clean(tree) && !IsLeaf(tree, p) && p != [] && CleanPath(p)
    ensures JoinFrom("", p) !in FlatKeys(tree, "")
  {
    forall q | q in LeafPaths(tree) ensures JoinFrom("", q) != JoinFrom("", p) {
      assert q != [];
      JoinIsDotted("", p);
      JoinIsDotted("", q);
      if Joined(q) == Joined(p) {
        JoinedInjective(p, q);
      }
    }
  }

  // ---------------------------------------------------------------- validation

  /** The string tests of the validations. */
  datatype Policy = Policy(sensitive: string -> bool, blank: string -> bool, placeholder: string -> bool)

  /** isEmpty. */
  predicate IsEmpty(y: Policy, v: Value) {
    match v
    case Nil => true
    case Str(s) => y.blank(s)
    case List(items) => |items| == 0
    case Map(fields) => |fields| == 0
    case _ => false
  }

  predicate Trusted(source: string) {
    source == "env" || source == "local"
  }

  predicate Acceptable(y: Policy, v: Value, source: string) {
    Trusted(source) && !(v.Str? && y.placeholder(v.s))
  }

  /** The rule for one leaf: a concrete sensitive value comes from env or local and is no placeholder. */
  predicate LeafAllowed(y: Policy, key: string, v: Value, source: string) {
    y.sensitive(key) && !IsEmpty(y, v) ==> Acceptable(y, v, source)
  }

  function SourceAt(sources: map<string, string>, key: string): string {
    if key in sources then sources[key] else ""
  }

  /** validateSensitiveSources as written, over the flattened tree. */
  method ValidateSensitive(m: map<string, Value>, sources: map<string, string>, y: Policy)
    returns (ok: bool, ghost flat: map<string, Value>)
    ensures IsFlattening(Map(m), "", flat)
    ensures ok <==> forall f :: f in flat ==> LeafAllowed(y, f, flat[f], SourceAt(sources, f))
  {
    var all := FlattenMap(m, "");
    flat := all;
    var todo := all.Keys;
    while todo != {}
      invariant todo <= all.Keys
      invariant forall f :: f in all && f !in todo ==> LeafAllowed(y, f, all[f], SourceAt(sources, f))
      decreases todo
    {
      var f :| f in todo;
      todo := todo - {f};
      if !y.sensitive(f) || IsEmpty(y, all[f]) {
        continue;
      }
      if Trusted(SourceAt(sources, f)) {
        if all[f].Str? && y.placeholder(all[f].s) {
          return false, flat;
        }
        continue;
      }
      return false, flat;
    }
    ok := true;
  }

  /** validateRequired as written. */
  method ValidateRequired(m: map<string, Value>, required: seq<Path>, y: Policy) returns (ok: bool)
    ensures ok <==> forall i :: 0 <= i < |required| ==> Present(y, Map(m), required[i])
  {
    for i := 0 to |required|
      invariant forall j :: 0 <= j < i ==> Present(y, Map(m), required[j])
    {
      var v := GetPath(m, required[i]);
      if v.None? || IsEmpty(y, v.value) {
        return false;
      }
    }
    ok := true;
  }

  predicate Present(y: Policy, v: Value, p: Path) {
    Lookup(v, p).Some? && !IsEmpty(y, Lookup(v, p).value)
  }

  // ---------------------------------------------------------------- Load

  /** The files that exist, and the maps built from environment and flags. */
  datatype Inputs = Inputs(
    base: Option<map<string, Value>>,
    envFile: Option<map<string, Value>>,
    local: Option<map<string, Value>>,
    env: map<string, Value>,
    flags: map<string, Value>)

  function FileLayer(name: string, f: Option<map<string, Value>>): seq<Layer> {
    if f.Some? then [Layer(name, false, Map(f.value))] else []
  }

  function OverrideLayer(name: string, m: map<string, Value>): seq<Layer> {
    if |m| > 0 then [Layer(name, true, Map(m))] else []
  }

  /** The layers that take part, lowest precedence first. */
  function Layers(x: Inputs): (r: seq<Layer>)
    ensures AllMaps(r)
  {
    FileLayer("default", x.base) + FileLayer("env-file", x.envFile) + FileLayer("local", x.local)
    + OverrideLayer("env", x.env) + OverrideLayer("flags", x.flags)
  }

  /** The table is exactly what the layers wrote. */
  ghost predicate TableOf(layers: seq<Layer>, sources: map<string, string>) {
    forall f :: SourceOf(layers, f) == if f in sources then Some(sources[f]) else None
  }

  /** Merge one layer and record its sources. */
  method AddLayer(c: Conversions, merged: map<string, Value>, sources: map<string, string>,
                  ghost layers: seq<Layer>, l: Layer)
    returns (merged': map<string, Value>, sources': map<string, string>, ghost layers': seq<Layer>)
    requires AllMaps(layers) && l.tree.Map? && Map(merged) == Merged(c, layers) && TableOf(layers, sources)
    ensures layers' == layers + [l] && AllMaps(layers')
    ensures Map(merged') == Merged(c, layers') && TableOf(layers', sources')
  {
    var content := Content(c, Map(merged), l);
    merged' := MergeMaps(merged, content.fields);
    sources' := RecordSources(sources, l.tree.fields, l.name, "");
    layers' := layers + [l];
    assert layers'[..|layers|] == layers;
    assert Map(l.tree.fields) == l.tree;
  }

  /** A configuration file takes part if it exists. */
  method AddFile(c: Conversions, merged: map<string, Value>, sources: map<string, string>, ghost layers: seq<Layer>,
                 name: string, file: Option<map<string, Value>>)
    returns (merged': map<string, Value>, sources': map<string, string>, ghost layers': seq<Layer>)
    requires AllMaps(layers) && Map(merged) == Merged(c, layers) && TableOf(layers, sources)
    ensures layers' == layers + FileLayer(name, file) && AllMaps(layers')
    ensures Map(merged') == Merged(c, layers') && TableOf(layers', sources')
  {
    merged', sources', layers' := merged, sources, layers;
    if file.Some? {
      merged', sources', layers' := AddLayer(c, merged, sources, layers, Layer(name, false, Map(file.value)));
    }
  }

  /** Overrides take part if there are any. */
  method AddOverrides(c: Conversions, merged: map<string, Value>, sources: map<string, string>,
                      ghost layers: seq<Layer>, name: string, overrides: map<string, Value>)
    returns (merged': map<string, Value>, sources': map<string, string>, ghost layers': seq<Layer>)
    requires AllMaps(layers) && Map(merged) == Merged(c, layers) && TableOf(layers, sources)
    ensures layers' == layers + OverrideLayer(name, overrides) && AllMaps(layers')
    ensures Map(merged') == Merged(c, layers') && TableOf(layers', sources')
  {
    merged', sources', layers' := merged, sources, layers;
    if |overrides| > 0 {
      merged', sources', layers' := AddLayer(c, merged, sources, layers, Layer(name, true, Map(overrides)));
    }
  }

  // ---------------------------------------------------------------- precedence, input by input

  /** What a file says; a missing one says nothing. */
  function Tree(file: Option<map<string, Value>>): (r: Value)
    ensures r.Map?
  {
    Map(if file.Some? then file.value else map[])
  }

  /** The leaf left at a path when `own` is laid over a tree with the leaf `below` there. */
  function Over(below: Option<Value>, own: Value, p: Path): Option<Value> {
    if IsLeaf(own, p) then Lookup(own, p) else if Touches(own, p) then None else below
  }

  /** The same for an input whose strings are parsed under the type of what they replace. */
  function TypedOver(c: Conversions, below: Option<Value>, own: Value, p: Path): Option<Value> {
    if IsLeaf(own, p) then Some(TypedLeaf(c, below, Lookup(own, p).value)) else if Touches(own, p) then None else below
  }

  /** The leaf of the three files. */
  function FromFiles(x: Inputs, p: Path): Option<Value> {
    Over(Over(Over(None, Tree(x.base), p), Tree(x.envFile), p), Tree(x.local), p)
  }

  /** The leaf of the files and the environment. */
  function BeforeFlags(c: Conversions, x: Inputs, p: Path): Option<Value> {
    TypedOver(c, FromFiles(x, p), Map(x.env), p)
  }

  lemma OneMoreLayer(c: Conversions, layers: seq<Layer>, l: Layer, p: Path)
    requires AllMaps(layers) && l.tree.Map? && p != []
    ensures AllMaps(layers + [l])
    ensures var below := LeafAt(Merged(c, layers), p);
            LeafAt(Merged(c, layers + [l]), p) ==
              if l.typed then TypedOver(c, below, l.tree, p) else Over(below, l.tree, p)
  {
    var below := Merged(c, layers);
    assert (layers + [l])[..|layers|] == layers;
    TypedLeaves(c, below, l.tree, p);
    MergeLeaf(below, Content(c, below, l), p);
  }

  lemma EmptySaysNothing(p: Path)
    ensures p != [] ==> !IsLeaf(EMPTY, p) && !Touches(EMPTY, p)
    ensures FlatKeys(EMPTY, "") == {}
  {
  }

  lemma FileLeaf(c: Conversions, layers: seq<Layer>, name: string, f: Option<map<string, Value>>, p: Path)
    requires AllMaps(layers) && p != []
    ensures AllMaps(layers + FileLayer(name, f))
    ensures LeafAt(Merged(c, layers + FileLayer(name, f)), p) == Over(LeafAt(Merged(c, layers), p), Tree(f), p)
  {
    if f.Some? {
      OneMoreLayer(c, layers, Layer(name, false, Map(f.value)), p);
    } else {
      assert layers + FileLayer(name, f) == layers && Tree(f) == EMPTY;
      EmptySaysNothing(p);
    }
  }

  lemma OverrideLeaf(c: Conversions, layers: seq<Layer>, name: string, m: map<string, Value>, p: Path)
    requires AllMaps(layers) && p != []
    ensures AllMaps(layers + OverrideLayer(name, m))
    ensures LeafAt(Merged(c, layers + OverrideLayer(name, m)), p) ==
            TypedOver(c, LeafAt(Merged(c, layers), p), Map(m), p)
  {
    if |m| > 0 {
      OneMoreLayer(c, layers, Layer(name, true, Map(m)), p);
    } else {
      assert layers + OverrideLayer(name, m) == layers && Map(m) == EMPTY;
      EmptySaysNothing(p);
    }
  }

  /** The leaves of the merged tree, input by input. */
  lemma LeavesOf(c: Conversions, x: Inputs, p: Path)
    requires p != []
    ensures LeafAt(Merged(c, Layers(x)), p) == TypedOver(c, BeforeFlags(c, x, p), Map(x.flags), p)
  {
    var a := [];
    FileLeaf(c, a, "default", x.base, p);
    var b := a + FileLayer("default", x.base);
    FileLeaf(c, b, "env-file", x.envFile, p);
    var d := b + FileLayer("env-file", x.envFile);
    FileLeaf(c, d, "local", x.local, p);
    var e := d + FileLayer("local", x.local);
    OverrideLeaf(c, e, "env", x.env, p);
    var g := e + OverrideLayer("env", x.env);
    OverrideLeaf(c, g, "flags", x.flags, p);
    assert LeafAt(Merged(c, a), p) == None;
    assert g + OverrideLayer("flags", x.flags) == Layers(x);
  }

  predicate Overridden(x: Inputs, p: Path) {
    IsLeaf(Map(x.flags), p) || IsLeaf(Map(x.env), p)
  }

  /** Who says a leaf, for every path of the merged tree: the inputs rank flags, env, local, env file, default. */
  lemma Precedence(c: Conversions, x: Inputs, p: Path)
    ensures var tree := Merged(c, Layers(x));
            && (IsLeaf(Map(x.flags), p) ==>
                  Lookup(tree, p) == Some(TypedLeaf(c, BeforeFlags(c, x, p), Lookup(Map(x.flags), p).value)))
            && (IsLeaf(tree, p) && !IsLeaf(Map(x.flags), p) && IsLeaf(Map(x.env), p) ==>
                  Lookup(tree, p) == Some(TypedLeaf(c, FromFiles(x, p), Lookup(Map(x.env), p).value)))
            && (IsLeaf(tree, p) && !Overridden(x, p) ==>
                  if IsLeaf(Tree(x.local), p) then Lookup(tree, p) == Lookup(Tree(x.local), p)
                  else if IsLeaf(Tree(x.envFile), p) then Lookup(tree, p) == Lookup(Tree(x.envFile), p)
                  else Lookup(tree, p) == Lookup(Tree(x.base), p))
  {
    if p == [] {
      assert !IsLeaf(Merged(c, Layers(x)), p);
    } else {
      LeavesOf(c, x, p);
      FilesRank(x, p);
    }
  }

  lemma FilesRank(x: Inputs, p: Path)
    ensures FromFiles(x, p).Some? ==>
              if IsLeaf(Tree(x.local), p) then FromFiles(x, p) == Lookup(Tree(x.local), p)
              else if IsLeaf(Tree(x.envFile), p) then FromFiles(x, p) == Lookup(Tree(x.envFile), p)
              else FromFiles(x, p) == Lookup(Tree(x.base), p)
  {
  }

  /** A leaf is there exactly if some input has it and none above says anything at its path or on the way. */
  lemma LeafIff(c: Conversions, x: Inputs, p: Path)
    ensures IsLeaf(Merged(c, Layers(x)), p) <==>
            || IsLeaf(Map(x.flags), p)
            || (!Touches(Map(x.flags), p) &&
                (|| IsLeaf(Map(x.env), p)
                 || (!Touches(Map(x.env), p) &&
                     (|| IsLeaf(Tree(x.local), p)
                      || (!Touches(Tree(x.local), p) &&
                          (|| IsLeaf(Tree(x.envFile), p)
                           || (!Touches(Tree(x.envFile), p) && IsLeaf(Tree(x.base), p))))))))
  {
    if p != [] {
      LeavesOf(c, x, p);
      TypedStaysLeaf(c, x, p);
    }
  }

  lemma TypedStaysLeaf(c: Conversions, x: Inputs, p: Path)
    ensures forall own: Value, below :: IsLeaf(own, p) ==> !TypedLeaf(c, below, Lookup(own, p).value).Map?
  {
  }

  // ---------------------------------------------------------------- who vouches for a key

  lemma FileSource(layers: seq<Layer>, name: string, file: Option<map<string, Value>>, f: string)
    ensures SourceOf(layers + FileLayer(name, file), f) ==
            if f in FlatKeys(Tree(file), "") then Some(name) else SourceOf(layers, f)
  {
    EmptySaysNothing([]);
    if file.Some? {
      assert (layers + FileLayer(name, file))[..|layers|] == layers;
    } else {
      assert layers + FileLayer(name, file) == layers && Tree(file) == EMPTY;
    }
  }

  lemma OverrideSource(layers: seq<Layer>, name: string, m: map<string, Value>, f: string)
    ensures SourceOf(layers + OverrideLayer(name, m), f) ==
            if f in FlatKeys(Map(m), "") then Some(name) else SourceOf(layers, f)
  {
    EmptySaysNothing([]);
    if |m| > 0 {
      assert (layers + OverrideLayer(name, m))[..|layers|] == layers;
    } else {
      assert layers + OverrideLayer(name, m) == layers && Map(m) == EMPTY;
    }
  }

  /** The input the table names for a flattened key. */
  lemma SourceByInput(x: Inputs, f: string)
    ensures SourceOf(Layers(x), f) ==
            if f in FlatKeys(Map(x.flags), "") then Some("flags")
            else if f in FlatKeys(Map(x.env), "") then Some("env")
            else if f in FlatKeys(Tree(x.local), "") then Some("local")
            else if f in FlatKeys(Tree(x.envFile), "") then Some("env-file")
            else if f in FlatKeys(Tree(x.base), "") then Some("default")
            else None
  {
    var a := [];
    FileSource(a, "default", x.base, f);
    var b := a + FileLayer("default", x.base);
    FileSource(b, "env-file", x.envFile, f);
    var d := b + FileLayer("env-file", x.envFile);
    FileSource(d, "local", x.local, f);
    var e := d + FileLayer("local", x.local);
    OverrideSource(e, "env", x.env, f);
    var g := e + OverrideLayer("env", x.env);
    OverrideSource(g, "flags", x.flags, f);
    assert g + OverrideLayer("flags", x.flags) == Layers(x);
  }

  /** A trusted input vouches for a flattened key: the environment or the local file wrote it, and no flag did. */
  predicate VouchedFor(x: Inputs, f: string) {
    && f !in FlatKeys(Map(x.flags), "")
    && (f in FlatKeys(Map(x.env), "") || f in FlatKeys(Tree(x.local), ""))
  }

  lemma TrustedByInput(x: Inputs, f: string)
    ensures Trusted(SourceName(Layers(x), f)) <==> VouchedFor(x, f)
  {
    NamesDiffer();
    SourceByInput(x, f);
  }

  /** The layering half of Load: whatever the inputs, the tree and the table are those of the layers. */
  method MergeAll(x: Inputs, c: Conversions) returns (merged: map<string, Value>, sources: map<string, string>)
    ensures Map(merged) == Merged(c, Layers(x)) && TableOf(Layers(x), sources)
    // flags over environment over local file over env file over default file
    ensures forall p :: IsLeaf(Map(x.flags), p) ==>
      Lookup(Map(merged), p) == Some(TypedLeaf(c, BeforeFlags(c, x, p), Lookup(Map(x.flags), p).value))
    ensures forall p :: IsLeaf(Map(merged), p) && !IsLeaf(Map(x.flags), p) && IsLeaf(Map(x.env), p) ==>
      Lookup(Map(merged), p) == Some(TypedLeaf(c, FromFiles(x, p), Lookup(Map(x.env), p).value))
    ensures forall p :: IsLeaf(Map(merged), p) && !Overridden(x, p) ==>
      if IsLeaf(Tree(x.local), p) then Lookup(Map(merged), p) == Lookup(Tree(x.local), p)
      else if IsLeaf(Tree(x.envFile), p) then Lookup(Map(merged), p) == Lookup(Tree(x.envFile), p)
      else Lookup(Map(merged), p) == Lookup(Tree(x.base), p)
    // the table names the highest input that writes a key
    ensures forall f :: f in sources <==> SaysKey(x, f)
    ensures forall f :: f in sources ==>
      if f in FlatKeys(Map(x.flags), "") then sources[f] == "flags"
      else if f in FlatKeys(Map(x.env), "") then sources[f] == "env"
      else if f in FlatKeys(Tree(x.local), "") then sources[f] == "local"
      else if f in FlatKeys(Tree(x.envFile), "") then sources[f] == "env-file"
      else sources[f] == "default"
  {
    merged, sources := MergeLayers(x, c);
    forall p {
      Precedence(c, x, p);
    }
    forall f ensures SourceOf(Layers(x), f) == if f in sources then Some(sources[f]) else None {
    }
    forall f {
      SourceByInput(x, f);
    }
  }

  /** Some input writes the flattened key. */
  predicate SaysKey(x: Inputs, f: string) {
    || f in FlatKeys(Map(x.flags), "") || f in FlatKeys(Map(x.env), "") || f in FlatKeys(Tree(x.local), "")
    || f in FlatKeys(Tree(x.envFile), "") || f in FlatKeys(Tree(x.base), "")
  }

  method MergeLayers(x: Inputs, c: Conversions) returns (merged: map<string, Value>, sources: map<string, string>)
    ensures Map(merged) == Merged(c, Layers(x)) && TableOf(Layers(x), sources)
  {
    ghost var layers: seq<Layer> := [];
    merged, sources := map[], map[];
    merged, sources, layers := AddFile(c, merged, sources, layers, "default", x.base);
    merged, sources, layers := AddFile(c, merged, sources, layers, "env-file", x.envFile);
    merged, sources, layers := AddFile(c, merged, sources, layers, "local", x.local);
    merged, sources, layers := AddOverrides(c, merged, sources, layers, "env", x.env);
    merged, sources, layers := AddOverrides(c, merged, sources, layers, "flags", x.flags);
    assert layers == Layers(x);
  }

  datatype Loaded = Config(tree: map<string, Value>) | MissingKey | SensitiveRefused

  /** What Load is meant to demand: every concrete sensitive leaf is defined by a trusted layer. */
  ghost predicate Secure(c: Conversions, y: Policy, layers: seq<Layer>)
    requires AllMaps(layers)
  {
    forall p :: IsLeaf(Merged(c, layers), p) && LastDefining(layers, p).Some? ==>
      LeafAllowed(y, JoinFrom("", p), Lookup(Merged(c, layers), p).value, layers[LastDefining(layers, p).value].name)
  }

  function SourceName(layers: seq<Layer>, f: string): string {
    if SourceOf(layers, f).Some? then SourceOf(layers, f).value else ""
  }

  /** Every entry of a flattened tree is allowed by the layer that wrote its key last. */
  ghost predicate Passes(y: Policy, layers: seq<Layer>, flat: map<string, Value>) {
    forall f :: f in flat ==> LeafAllowed(y, f, flat[f], SourceName(layers, f))
  }

  /** What Load does demand, for all keys: some flattening of the merged tree passes, or does not. */
  ghost predicate Decided(c: Conversions, y: Policy, layers: seq<Layer>, ok: bool)
    requires AllMaps(layers)
  {
    exists flat :: IsFlattening(Merged(c, layers), "", flat) && (ok <==> Passes(y, layers, flat))
  }

  /** No other leaf flattens to the leaf's key. */
  ghost predicate Alone(tree: Value, p: Path) {
    forall q :: IsLeaf(tree, q) && JoinFrom("", q) == JoinFrom("", p) ==> q == p
  }

  /** Every leaf is alone with its flattened key and undisputed. */
  ghost predicate Honest(c: Conversions, layers: seq<Layer>)
    requires AllMaps(layers)
  {
    forall p :: IsLeaf(Merged(c, layers), p) && LastDefining(layers, p).Some? ==>
      Alone(Merged(c, layers), p) && Undisputed(layers, p)
  }

  /** Every key of every input is non-empty and has no dot. */
  predicate CleanInputs(x: Inputs) {
    Clean(Tree(x.base)) && Clean(Tree(x.envFile)) && Clean(Tree(x.local)) && Clean(Map(x.env)) && Clean(Map(x.flags))
  }

  /** A concrete sensitive value that is not vouched for, or a placeholder. */
  predicate Refusable(y: Policy, key: string, v: Value, vouched: bool) {
    y.sensitive(key) && !IsEmpty(y, v) && (!vouched || (v.Str? && y.placeholder(v.s)))
  }

  /** Load, up to the validated tree; `tree` is what was merged, whatever became of it. */
  method Load(x: Inputs, c: Conversions, y: Policy, required: seq<Path>)
    returns (r: Loaded, ghost tree: Value, ghost flat: map<string, Value>)
    ensures tree == Merged(c, Layers(x)) && (r.Config? ==> Map(r.tree) == tree)
    // flags over environment over local file over env file over default file
    ensures forall p :: IsLeaf(Map(x.flags), p) ==>
      Lookup(tree, p) == Some(TypedLeaf(c, BeforeFlags(c, x, p), Lookup(Map(x.flags), p).value))
    ensures forall p :: IsLeaf(tree, p) && !IsLeaf(Map(x.flags), p) && IsLeaf(Map(x.env), p) ==>
      Lookup(tree, p) == Some(TypedLeaf(c, FromFiles(x, p), Lookup(Map(x.env), p).value))
    ensures forall p :: IsLeaf(tree, p) && !Overridden(x, p) ==>
      if IsLeaf(Tree(x.local), p) then Lookup(tree, p) == Lookup(Tree(x.local), p)
      else if IsLeaf(Tree(x.envFile), p) then Lookup(tree, p) == Lookup(Tree(x.envFile), p)
      else Lookup(tree, p) == Lookup(Tree(x.base), p)
    ensures r == MissingKey <==> exists i :: 0 <= i < |required| && !Present(y, tree, required[i])
    // the decision over the flattened tree: the environment or the local file vouches, and no flag speaks
    ensures r != MissingKey ==> IsFlattening(tree, "", flat)
    ensures r != MissingKey ==> (r.Config? <==>
      forall f :: f in flat ==> !Refusable(y, f, flat[f], VouchedFor(x, f)))
    ensures r != MissingKey ==> Decided(c, y, Layers(x), r.Config?)
    // where flattened keys tell leaves apart, it refuses exactly the trees with a sensitive value from a wrong layer
    ensures r != MissingKey && Honest(c, Layers(x)) ==> (r.Config? <==> Secure(c, y, Layers(x)))
    // with clean keys: exactly the trees with a concrete sensitive leaf from a flag or from neither env nor local
    ensures r != MissingKey && CleanInputs(x) ==> (r.Config? <==>
      forall p :: IsLeaf(tree, p) ==> !Refusable(y, JoinFrom("", p), Lookup(tree, p).value, FromTrusted(x, p)))
  {
    var merged, sources := MergeAll(x, c);
    tree := Map(merged);
    r, flat := Validate(x, c, y, required, merged, sources);
  }

  /** The validating half. */
  method Validate(x: Inputs, c: Conversions, y: Policy, required: seq<Path>,
                  merged: map<string, Value>, sources: map<string, string>)
    returns (r: Loaded, ghost flat: map<string, Value>)
    requires Map(merged) == Merged(c, Layers(x)) && TableOf(Layers(x), sources)
    ensures r.Config? ==> r.tree == merged
    ensures r == MissingKey <==> exists i :: 0 <= i < |required| && !Present(y, Map(merged), required[i])
    ensures r != MissingKey ==> IsFlattening(Map(merged), "", flat) && Decision(x, c, y, flat, r.Config?)
  {
    flat := map[];
    var complete := ValidateRequired(merged, required, y);
    if !complete {
      return MissingKey, flat;
    }
    var ok;
    ok, flat := ValidateSensitive(merged, sources, y);
    DecisionMeans(c, y, Layers(x), sources, flat, ok);
    DecisionByInput(c, y, x, flat, ok);
    r := if ok then Config(merged) else SensitiveRefused;
  }

  /** The decision on a flattening of the merged tree, said in every way Load promises it. */
  ghost predicate Decision(x: Inputs, c: Conversions, y: Policy, flat: map<string, Value>, ok: bool) {
    var tree := Merged(c, Layers(x));
    && (ok <==> forall f :: f in flat ==> !Refusable(y, f, flat[f], VouchedFor(x, f)))
    && Decided(c, y, Layers(x), ok)
    && (Honest(c, Layers(x)) ==> (ok <==> Secure(c, y, Layers(x))))
    && (CleanInputs(x) ==> (ok <==>
          forall p :: IsLeaf(tree, p) ==> !Refusable(y, JoinFrom("", p), Lookup(tree, p).value, FromTrusted(x, p))))
  }

  /** The leaf is the environment's or the local file's, and not a flag's. */
  predicate FromTrusted(x: Inputs, p: Path) {
    !IsLeaf(Map(x.flags), p) && (IsLeaf(Map(x.env), p) || IsLeaf(Tree(x.local), p))
  }

  /** The decision by the table is the one by the layers that wrote it. */
  lemma DecisionMeans(c: Conversions, y: Policy, layers: seq<Layer>, sources: map<string, string>,
                      flat: map<string, Value>, ok: bool)
    requires AllMaps(layers) && TableOf(layers, sources) && IsFlattening(Merged(c, layers), "", flat)
    requires ok <==> forall f :: f in flat ==> LeafAllowed(y, f, flat[f], SourceAt(sources, f))
    ensures Decided(c, y, layers, ok) && (ok <==> Passes(y, layers, flat))
    ensures Honest(c, layers) ==> (ok <==> Secure(c, y, layers))
  {
    forall f ensures SourceAt(sources, f) == SourceName(layers, f) {
      assert SourceOf(layers, f) == if f in sources then Some(sources[f]) else None;
    }
    assert ok <==> Passes(y, layers, flat);
    HonestDecision(c, y, layers, ok);
  }

  /** The decision in terms of the five inputs. */
  lemma DecisionByInput(c: Conversions, y: Policy, x: Inputs, flat: map<string, Value>, ok: bool)
    requires IsFlattening(Merged(c, Layers(x)), "", flat) && (ok <==> Passes(y, Layers(x), flat))
    ensures ok <==> forall f :: f in flat ==> !Refusable(y, f, flat[f], VouchedFor(x, f))
    ensures var tree := Merged(c, Layers(x));
            CleanInputs(x) ==> (ok <==>
              forall p :: IsLeaf(tree, p) ==> !Refusable(y, JoinFrom("", p), Lookup(tree, p).value, FromTrusted(x, p)))
  {
    forall f ensures Trusted(SourceName(Layers(x), f)) <==> VouchedFor(x, f) {
      TrustedByInput(x, f);
    }
    if CleanInputs(x) {
      CleanDecision(c, y, x, flat);
    }
  }

  lemma CleanDecision(c: Conversions, y: Policy, x: Inputs, flat: map<string, Value>)
    requires CleanInputs(x) && IsFlattening(Merged(c, Layers(x)), "", flat)
    ensures var tree := Merged(c, Layers(x));
            (forall f :: f in flat ==> !Refusable(y, f, flat[f], VouchedFor(x, f))) <==>
            forall p :: IsLeaf(tree, p) ==> !Refusable(y, JoinFrom("", p), Lookup(tree, p).value, FromTrusted(x, p))
  {
    var tree := Merged(c, Layers(x));
    if forall f :: f in flat ==> !Refusable(y, f, flat[f], VouchedFor(x, f)) {
      forall p | IsLeaf(tree, p)
        ensures !Refusable(y, JoinFrom("", p), Lookup(tree, p).value, FromTrusted(x, p))
      {
        CleanLeaf(c, x, flat, p);
      }
    } else {
      var f :| f in flat && Refusable(y, f, flat[f], VouchedFor(x, f));
      var p := EntryIsLeaf(c, Layers(x), flat, f);
      CleanLeaf(c, x, flat, p);
      assert IsLeaf(tree, p) && Refusable(y, JoinFrom("", p), Lookup(tree, p).value, FromTrusted(x, p));
    }
  }

  lemma CleanLeaf(c: Conversions, x: Inputs, flat: map<string, Value>, p: Path)
    requires CleanInputs(x) && IsFlattening(Merged(c, Layers(x)), "", flat) && IsLeaf(Merged(c, Layers(x)), p)
    ensures JoinFrom("", p) in flat && Lookup(Merged(c, Layers(x)), p) == Some(flat[JoinFrom("", p)])
    ensures VouchedFor(x, JoinFrom("", p)) <==> FromTrusted(x, p)
  {
    CleanLayers(x);
    CleanEntry(c, Layers(x), flat, p);
    KeyIsLeaf(Map(x.flags), p);
    KeyIsLeaf(Map(x.env), p);
    KeyIsLeaf(Tree(x.local), p);
  }

  lemma CleanEntry(c: Conversions, layers: seq<Layer>, flat: map<string, Value>, p: Path)
    requires Usable(layers) && IsFlattening(Merged(c, layers), "", flat) && IsLeaf(Merged(c, layers), p)
    ensures p != [] && CleanPath(p)
    ensures JoinFrom("", p) in flat && Lookup(Merged(c, layers), p) == Some(flat[JoinFrom("", p)])
  {
    CleanIsHonest(c, layers);
    ValueProvenance(c, layers, p);
    LeafIsEntry(c, layers, flat, p);
    CleanUndisputed(layers, p);
  }

  lemma CleanLayers(x: Inputs)
    requires CleanInputs(x)
    ensures Usable(Layers(x))
  {
  }

  /** A clean tree writes the key of a clean path exactly if it has a leaf there. */
  lemma KeyIsLeaf(tree: Value, p: Path)
    requires tree.Map? && Clean(tree) && p != [] && CleanPath(p)
    ensures JoinFrom("", p) in FlatKeys(tree, "") <==> IsLeaf(tree, p)
  {
    if IsLeaf(tree, p) {
      assert p in LeafPaths(tree);
    } else {
      NotOverwritten(tree, p);
    }
  }

  /** An entry of the flattened tree is a leaf of that key. */
  lemma EntryIsLeaf(c: Conversions, layers: seq<Layer>, flat: map<string, Value>, f: string) returns (p: Path)
    requires AllMaps(layers) && IsFlattening(Merged(c, layers), "", flat) && f in flat
    ensures IsLeaf(Merged(c, layers), p) && LastDefining(layers, p).Some? && JoinFrom("", p) == f
    ensures Lookup(Merged(c, layers), p) == Some(flat[f])
  {
    var tree := Merged(c, layers);
    assert FlatAt(tree, "", f, flat[f]);
    p :| p in LeafPaths(tree) && JoinFrom("", p) == f && Lookup(tree, p) == Some(flat[f]);
    ValueProvenance(c, layers, p);
  }

  /** A leaf alone with its key is the entry of that key. */
  lemma LeafIsEntry(c: Conversions, layers: seq<Layer>, flat: map<string, Value>, p: Path)
    requires AllMaps(layers) && IsFlattening(Merged(c, layers), "", flat)
    requires IsLeaf(Merged(c, layers), p) && Alone(Merged(c, layers), p)
    ensures JoinFrom("", p) in flat && Lookup(Merged(c, layers), p) == Some(flat[JoinFrom("", p)])
  {
    assert p in LeafPaths(Merged(c, layers));
    var q := EntryIsLeaf(c, layers, flat, JoinFrom("", p));
  }

  lemma UndisputedSource(layers: seq<Layer>, p: Path)
    requires LastDefining(layers, p).Some? && Undisputed(layers, p)
    ensures SourceName(layers, JoinFrom("", p)) == layers[LastDefining(layers, p).value].name
  {
    assert p in LeafPaths(layers[LastDefining(layers, p).value].tree);
    SourceIsLastWriter(layers, JoinFrom("", p), LastDefining(layers, p).value);
  }

  /** Where flattened keys tell leaves apart, the decision over the flattened tree is the one over its leaves. */
  lemma HonestDecision(c: Conversions, y: Policy, layers: seq<Layer>, ok: bool)
    requires AllMaps(layers)
    ensures Honest(c, layers) && Decided(c, y, layers, ok) ==> (ok <==> Secure(c, y, layers))
  {
    if Honest(c, layers) && Decided(c, y, layers, ok) {
      HonestPasses(c, y, layers, ok);
    }
  }

  lemma HonestPasses(c: Conversions, y: Policy, layers: seq<Layer>, ok: bool)
    requires AllMaps(layers) && Honest(c, layers) && Decided(c, y, layers, ok)
    ensures ok <==> Secure(c, y, layers)
  {
    var flat :| IsFlattening(Merged(c, layers), "", flat) && (ok <==> Passes(y, layers, flat));
    if Secure(c, y, layers) {
      forall f | f in flat ensures LeafAllowed(y, f, flat[f], SourceName(layers, f)) {
        var p := EntryIsLeaf(c, layers, flat, f);
        UndisputedSource(layers, p);
      }
    }
    forall p | IsLeaf(Merged(c, layers), p) && LastDefining(layers, p).Some?
      ensures JoinFrom("", p) in flat && Lookup(Merged(c, layers), p) == Some(flat[JoinFrom("", p)])
      ensures SourceName(layers, JoinFrom("", p)) == layers[LastDefining(layers, p).value].name
    {
      LeafIsEntry(c, layers, flat, p);
      UndisputedSource(layers, p);
    }
  }

  /** Clean keys tell leaves apart. */
  lemma CleanIsHonest(c: Conversions, layers: seq<Layer>)
    requires Usable(layers)
    ensures Honest(c, layers)
  {
    forall p | IsLeaf(Merged(c, layers), p) ensures Alone(Merged(c, layers), p)
    {
      ValueProvenance(c, layers, p);
      CleanUndisputed(layers, p);
      forall q | IsLeaf(Merged(c, layers), q) && JoinFrom("", q) == JoinFrom("", p) ensures q == p {
        ValueProvenance(c, layers, q);
        CleanUndisputed(layers, q);
        JoinIsDotted("", p);
        JoinIsDotted("", q);
        JoinedInjective(p, q);
      }
    }
    forall p | IsLeaf(Merged(c, layers), p) && LastDefining(layers, p).Some? ensures Undisputed(layers, p) {
      ValueProvenance(c, layers, p);
      CleanUndisputed(layers, p);
    }
  }

  predicate Avoids(layers: seq<Layer>, n: string) {
    forall i :: 0 <= i < |layers| ==> layers[i].name != n
  }

  lemma AppendNamed(a: seq<Layer>, b: seq<Layer>, n: string)
    requires DistinctNames(a) && Avoids(a, n) && |b| <= 1 && (b != [] ==> b[0].name == n)
    ensures DistinctNames(a + b)
    ensures forall m :: Avoids(a, m) && m != n ==> Avoids(a + b, m)
  {
  }

  lemma NamesDiffer()
    ensures "default" != "env-file" && "default" != "local" && "default" != "env" && "default" != "flags"
    ensures "env-file" != "local" && "env-file" != "env" && "env-file" != "flags"
    ensures "local" != "env" && "local" != "flags" && "env" != "flags"
  {
    assert "local"[0] != "flags"[0];
  }

  lemma NamesDistinct(x: Inputs)
    ensures DistinctNames(Layers(x))
  {
    var n0, n1, n2, n3, n4 := "default", "env-file", "local", "env", "flags";
    NamesDiffer();
    var one := FileLayer(n0, x.base);
    assert Avoids(one, n1) && Avoids(one, n2) && Avoids(one, n3) && Avoids(one, n4);
    AppendNamed(one, FileLayer(n1, x.envFile), n1);
    var two := one + FileLayer(n1, x.envFile);
    AppendNamed(two, FileLayer(n2, x.local), n2);
    var three := two + FileLayer(n2, x.local);
    AppendNamed(three, OverrideLayer(n3, x.env), n3);
    AppendNamed(three + OverrideLayer(n3, x.env), OverrideLayer(n4, x.flags), n4);
  }

  /**
   After a successful Load, a concrete sensitive value alone with its key is vouched for by the
   local file or the environment; these define it, rather than the default file, the env file or
   the flags, exactly if no layer above the defining one writes its key.
   */
  lemma NoSecretFromFilesOrFlags(x: Inputs, c: Conversions, y: Policy, p: Path)
    requires IsLeaf(Merged(c, Layers(x)), p)
    ensures LastDefining(Layers(x), p).Some?
    ensures var i, source := LastDefining(Layers(x), p).value, SourceName(Layers(x), JoinFrom("", p));
            && Lookup(Merged(c, Layers(x)), p) == Some(LeafValue(c, Layers(x), i, p))
            && (Layers(x)[i].name == source <==> Undisputed(Layers(x), p))
            && (Accepted(x, c, y, p) ==> Trusted(source))
            && (Accepted(x, c, y, p) && Undisputed(Layers(x), p) ==>
                  Layers(x)[i].name !in {"default", "env-file", "flags"})
  {
    NamesDistinct(x);
    Provenance(c, Layers(x), p);
    var i := LastDefining(Layers(x), p).value;
    assert p in LeafPaths(Layers(x)[i].tree);
    var k := LastWriter(Layers(x), JoinFrom("", p), i);
    SourceIsLastWriter(Layers(x), JoinFrom("", p), k);
    if Accepted(x, c, y, p) {
      AcceptedTrusted(x, c, y, p);
    }
  }

  /** Load succeeded, and the leaf is concrete, sensitive and alone with its key. */
  ghost predicate Accepted(x: Inputs, c: Conversions, y: Policy, p: Path) {
    && Decided(c, y, Layers(x), true)
    && IsLeaf(Merged(c, Layers(x)), p) && Alone(Merged(c, Layers(x)), p)
    && y.sensitive(JoinFrom("", p)) && !IsEmpty(y, Lookup(Merged(c, Layers(x)), p).value)
  }

  lemma AcceptedTrusted(x: Inputs, c: Conversions, y: Policy, p: Path)
    requires Accepted(x, c, y, p)
    ensures Trusted(SourceName(Layers(x), JoinFrom("", p)))
  {
    var flat :| IsFlattening(Merged(c, Layers(x)), "", flat) && Passes(y, Layers(x), flat);
    LeafIsEntry(c, Layers(x), flat, p);
  }

  // ---------------------------------------------------------------- a disputed leaf

  /** A default file that sets `k`, and a local file that sets `k` below an empty key. */
  function Forged(k: string, v: Value, w: Value): Inputs {
    Inputs(Some(map[k := v]), None, Some(map["" := Map(map[k := w])]), map[], map[])
  }

  lemma ForgedLayers(k: string, v: Value, w: Value)
    ensures Layers(Forged(k, v, w)) ==
            [Layer("default", false, Map(map[k := v])), Layer("local", false, Map(map["" := Map(map[k := w])]))]
  {
  }

  lemma SingleField(k: string, v: Value, p: Path)
    ensures Lookup(Map(map[k := v]), p) ==
            if p == [] then Some(Map(map[k := v])) else if p[0] == k then Lookup(v, p[1..]) else None
  {
    var m := map[k := v];
    assert m[k] == v;
  }

  lemma OnlyLeaf(k: string, v: Value, p: Path)
    requires !v.Map?
    ensures IsLeaf(Map(map[k := v]), p) <==> p == [k]
    ensures p == [k] ==> Lookup(Map(map[k := v]), p) == Some(v)
  {
    SingleField(k, v, p);
    if p != [] {
      assert p == [p[0]] + p[1..];
    }
  }

  lemma OnlyLeafBelow(k: string, w: Value, p: Path)
    requires !w.Map?
    ensures IsLeaf(Map(map["" := Map(map[k := w])]), p) <==> p == ["", k]
    ensures p == ["", k] ==> Lookup(Map(map["" := Map(map[k := w])]), p) == Some(w)
  {
    SingleField("", Map(map[k := w]), p);
    if p != [] {
      OnlyLeaf(k, w, p[1..]);
      assert p == [p[0]] + p[1..];
    }
  }

  lemma ForgedKeys(k: string, v: Value, w: Value)
    requires k != "" && !v.Map? && !w.Map?
    ensures LeafPaths(Map(map[k := v])) == {[k]} && LeafPaths(Map(map["" := Map(map[k := w])])) == {["", k]}
    ensures JoinFrom("", [k]) == k && JoinFrom("", ["", k]) == k
    ensures Lookup(Map(map[k := v]), [k]) == Some(v) && Lookup(Map(map["" := Map(map[k := w])]), ["", k]) == Some(w)
  {
    assert ["", k][1..] == [k] && [k][1..] == [];
    forall p ensures p in LeafPaths(Map(map[k := v])) <==> p == [k] {
      OnlyLeaf(k, v, p);
    }
    forall p ensures p in LeafPaths(Map(map["" := Map(map[k := w])])) <==> p == ["", k] {
      OnlyLeafBelow(k, w, p);
    }
    OnlyLeaf(k, v, [k]);
    OnlyLeafBelow(k, w, ["", k]);
  }

  /**
   Outside that condition Load can be wrong: here the default file's secret at `k` is attributed
   to the local file and accepted, whichever of the two values the flattening shows.
   */
  lemma ForgedSecretAccepted(c: Conversions, y: Policy, k: string, v: Value, w: Value, ok: bool)
    requires k != "" && !v.Map? && !w.Map?
    requires !(v.Str? && y.placeholder(v.s)) && !(w.Str? && y.placeholder(w.s))
    ensures Decided(c, y, Layers(Forged(k, v, w)), ok) ==> ok
    ensures var layers := Layers(Forged(k, v, w));
            && Lookup(Merged(c, layers), [k]) == Some(v) && LastDefining(layers, [k]) == Some(0)
            && layers[0].name == "default" && SourceName(layers, JoinFrom("", [k])) == "local"
            && (y.sensitive(k) && !IsEmpty(y, v) ==> !Secure(c, y, layers))
  {
    var layers := Layers(Forged(k, v, w));
    if Decided(c, y, layers, ok) {
      var flat :| IsFlattening(Merged(c, layers), "", flat) && (ok <==> Passes(y, layers, flat));
      ForgedPasses(c, y, k, v, w, flat);
    }
    ForgedInsecure(c, y, k, v, w);
  }

  lemma ForgedPasses(c: Conversions, y: Policy, k: string, v: Value, w: Value, flat: map<string, Value>)
    requires k != "" && !v.Map? && !w.Map? && IsFlattening(Merged(c, Layers(Forged(k, v, w))), "", flat)
    requires !(v.Str? && y.placeholder(v.s)) && !(w.Str? && y.placeholder(w.s))
    ensures Passes(y, Layers(Forged(k, v, w)), flat)
  {
    ForgedSource(k, v, w);
    forall f | f in flat ensures LeafAllowed(y, f, flat[f], SourceName(Layers(Forged(k, v, w)), f)) {
      var p := EntryIsLeaf(c, Layers(Forged(k, v, w)), flat, f);
      ForgedLeaf(c, k, v, w, p);
    }
  }

  lemma ForgedInsecure(c: Conversions, y: Policy, k: string, v: Value, w: Value)
    requires k != "" && !v.Map? && !w.Map?
    ensures var layers := Layers(Forged(k, v, w));
            && Lookup(Merged(c, layers), [k]) == Some(v) && LastDefining(layers, [k]) == Some(0)
            && layers[0].name == "default" && SourceName(layers, JoinFrom("", [k])) == "local"
            && (y.sensitive(k) && !IsEmpty(y, v) ==> !Secure(c, y, layers))
  {
    var layers := Layers(Forged(k, v, w));
    ForgedMerge(c, k, v, w);
    ForgedSource(k, v, w);
    ForgedName(k, v, w);
    assert IsLeaf(Merged(c, layers), [k]) && !Trusted(layers[0].name);
  }

  lemma ForgedName(k: string, v: Value, w: Value)
    ensures |Layers(Forged(k, v, w))| == 2 && Layers(Forged(k, v, w))[0].name == "default"
    ensures JoinFrom("", [k]) == k && !Trusted("default")
  {
    ForgedLayers(k, v, w);
    NamesDiffer();
    assert [k][1..] == [];
  }

  lemma ForgedSource(k: string, v: Value, w: Value)
    requires k != "" && !v.Map? && !w.Map?
    ensures SourceName(Layers(Forged(k, v, w)), k) == "local"
  {
    var layers := Layers(Forged(k, v, w));
    ForgedLayers(k, v, w);
    ForgedKeys(k, v, w);
    assert ["", k] in LeafPaths(layers[1].tree);
    SourceIsLastWriter(layers, k, 1);
  }

  /** Both leaves of the merged tree flatten to `k`. */
  lemma ForgedLeaf(c: Conversions, k: string, v: Value, w: Value, p: Path)
    requires k != "" && !v.Map? && !w.Map? && IsLeaf(Merged(c, Layers(Forged(k, v, w))), p)
    ensures JoinFrom("", p) == k && Lookup(Merged(c, Layers(Forged(k, v, w))), p).value in {v, w}
  {
    var layers := Layers(Forged(k, v, w));
    ForgedLayers(k, v, w);
    ForgedKeys(k, v, w);
    ValueProvenance(c, layers, p);
    assert p in LeafPaths(layers[LastDefining(layers, p).value].tree);
  }

  lemma ForgedMerge(c: Conversions, k: string, v: Value, w: Value)
    requires k != "" && !v.Map? && !w.Map?
    ensures var layers := Layers(Forged(k, v, w));
            Lookup(Merged(c, layers), [k]) == Some(v) && LastDefining(layers, [k]) == Some(0)
  {
    var layers := Layers(Forged(k, v, w));
    ForgedLayers(k, v, w);
    ForgedKeys(k, v, w);
    assert layers[..1][..0] == [] && layers[..1] == [layers[0]];
    assert Merged(c, layers[..1]) == Merge(EMPTY, layers[0].tree);
    MergeLeaf(EMPTY, layers[0].tree, [k]);
    assert IsLeaf(layers[0].tree, [k]);
    MergeLeaf(Merged(c, layers[..1]), layers[1].tree, [k]);
    assert !IsLeaf(layers[1].tree, [k]);
  }
}
