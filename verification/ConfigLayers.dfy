/**
 Layered loading: every layer is merged into one tree, and beside the tree a table keeps,
 per flattened path, the name of the layer that said it last. Validation trusts the table;
 here it is shown to agree with the tree.
 */
module ConfigLayers {
  import opened Common
  import opened ConfigTree

  // ---------------------------------------------------------------- typed overrides

  /** The string conversions of the standard library that typed parsing tries. */
  datatype Conversions = Conversions(
    atoi: string -> Option<int>,
    parseInt: string -> Option<int>,
    parseFloat: string -> Option<string>,
    parseBool: string -> Option<bool>)

  /** Parsing without a usable hint: bool, then integer, then float, then the string itself. */
  function ParsePlain(c: Conversions, s: string): (r: Value)
    ensures r.Bool? <==> c.parseBool(s).Some?
    ensures r.Int64? <==> c.parseBool(s).None? && c.parseInt(s).Some?
    ensures r.Float? <==> c.parseBool(s).None? && c.parseInt(s).None? && c.parseFloat(s).Some?
    ensures r == Str(s) <==> c.parseBool(s).None? && c.parseInt(s).None? && c.parseFloat(s).None?
    ensures r == Str(s) || ReadFrom(c, s, r)
  {
    if c.parseBool(s).Some? then Bool(c.parseBool(s).value)
    else if c.parseInt(s).Some? then Int64(c.parseInt(s).value)
    else if c.parseFloat(s).Some? then Float(c.parseFloat(s).value)
    else Str(s)
  }

  /** The value is what the conversion of its type reads in the string. */
  predicate ReadFrom(c: Conversions, s: string, v: Value) {
    match v
    case Int(i) => c.atoi(s) == Some(i)
    case Int64(i) => c.parseInt(s) == Some(i)
    case Float(repr) => c.parseFloat(s) == Some(repr)
    case Bool(b) => c.parseBool(s) == Some(b)
    case _ => false
  }

  /** The string can be read in the type of the value. */
  predicate Readable(c: Conversions, s: string, hint: Value) {
    match hint
    case Int(_) => c.atoi(s).Some?
    case Int64(_) => c.parseInt(s).Some?
    case Float(_) => c.parseFloat(s).Some?
    case Bool(_) => c.parseBool(s).Some?
    case _ => false
  }

  predicate SameType(v: Value, w: Value) {
    || (v.Int? && w.Int?) || (v.Int64? && w.Int64?) || (v.Float? && w.Float?) || (v.Bool? && w.Bool?)
  }

  /** parseWithHint: the type of the value being overridden is tried first. */
  function ParseWithHint(c: Conversions, hint: Option<Value>, s: string): (r: Value)
    ensures r == Str(s) || ReadFrom(c, s, r)
    ensures hint.Some? && Readable(c, s, hint.value) ==> SameType(r, hint.value)
    ensures hint.None? || !Readable(c, s, hint.value) ==> r == ParsePlain(c, s)
  {
    if hint.Some? && hint.value.Int? && c.atoi(s).Some? then Int(c.atoi(s).value)
    else if hint.Some? && hint.value.Int64? && c.parseInt(s).Some? then Int64(c.parseInt(s).value)
    else if hint.Some? && hint.value.Float? && c.parseFloat(s).Some? then Float(c.parseFloat(s).value)
    else if hint.Some? && hint.value.Bool? && c.parseBool(s).Some? then Bool(c.parseBool(s).value)
    else ParsePlain(c, s)
  }

  /** A leaf of an override layer: strings are parsed, anything else is kept. */
  function TypedLeaf(c: Conversions, hint: Option<Value>, v: Value): Value {
    if v.Str? then ParseWithHint(c, hint, v.s) else v
  }

  /** applyTypedOverrides. */
  function ApplyTyped(c: Conversions, base: Value, over: Value): (r: Value)
    requires base.Map? && over.Map?
    ensures r.Map?
    decreases over, 0
  {
    Map(map k | k in over.fields ::
      TypedField(c, if k in base.fields then Some(base.fields[k]) else None, over.fields[k]))
  }

  function TypedField(c: Conversions, hint: Option<Value>, v: Value): Value
    decreases v, 1
  {
    if v.Map? then ApplyTyped(c, if hint.Some? && hint.value.Map? then hint.value else EMPTY, v)
    else TypedLeaf(c, hint, v)
  }

  /** Typing keeps the shape of the layer and types each leaf by the value found at the same path. */
  lemma {:induction false} TypedLeaves(c: Conversions, base: Value, over: Value, p: Path)
    requires base.Map? && over.Map?
    ensures IsLeaf(ApplyTyped(c, base, over), p) <==> IsLeaf(over, p)
    ensures Touches(ApplyTyped(c, base, over), p) <==> Touches(over, p)
    ensures IsLeaf(over, p) ==>
              Lookup(ApplyTyped(c, base, over), p) == Some(TypedLeaf(c, Lookup(base, p), Lookup(over, p).value))
    decreases |p|
  {
    if p != [] && p[0] in over.fields {
      var v := over.fields[p[0]];
      if v.Map? {
        var inner := if p[0] in base.fields && base.fields[p[0]].Map? then base.fields[p[0]] else EMPTY;
        TypedLeaves(c, inner, v, p[1..]);
        if p[1..] != [] {
          assert Lookup(base, p) == Lookup(inner, p[1..]);
        }
      } else {
        var w := ApplyTyped(c, base, over).fields[p[0]];
        assert w == TypedField(c, if p[0] in base.fields then Some(base.fields[p[0]]) else None, v);
        if p[1..] == [] {
          assert p[0] in base.fields ==> Lookup(base, p) == Some(base.fields[p[0]]);
          assert Lookup(v, p[1..]) == Some(v) && Lookup(w, p[1..]) == Some(w);
        } else {
          assert Lookup(v, p[1..]).None? && Lookup(w, p[1..]).None?;
        }
      }
    }
  }

  // ---------------------------------------------------------------- flattened paths

  /** The key both recordSources and flattenMap build below `prefix`. */
  function JoinFrom(prefix: string, p: Path): string
    decreases |p|
  {
    if p == [] then prefix
    else JoinFrom(if prefix == "" then p[0] else prefix + "." + p[0], p[1..])
  }

  predicate CleanKey(k: string) {
    k != "" && '.' !in k
  }

  predicate CleanPath(p: Path) {
    forall i :: 0 <= i < |p| ==> CleanKey(p[i])
  }

  predicate Clean(v: Value) {
    forall p :: p in LeafPaths(v) ==> CleanPath(p)
  }

  /** The dotted form of a path. */
  function Joined(p: Path): string
    requires p != []
    decreases |p|
  {
    if |p| == 1 then p[0] else p[0] + "." + Joined(p[1..])
  }

  lemma {:induction false} JoinIsDotted(prefix: string, p: Path)
    requires p != [] && CleanPath(p)
    ensures JoinFrom(prefix, p) == if prefix == "" then Joined(p) else prefix + "." + Joined(p)
    decreases |p|
  {
    var key := if prefix == "" then p[0] else prefix + "." + p[0];
    if |p| > 1 {
      JoinIsDotted(key, p[1..]);
      if prefix != "" {
        assert prefix + "." + p[0] + "." + Joined(p[1..]) == prefix + "." + (p[0] + "." + Joined(p[1..]));
      }
    }
  }

  /** Where the first dot is, or the length. */
  function FirstDot(s: string): nat {
    if s == "" || s[0] == '.' then 0 else 1 + FirstDot(s[1..])
  }

  lemma {:induction false} FirstDotAfter(k: string, rest: string)
    requires '.' !in k && (rest == "" || rest[0] == '.')
    ensures FirstDot(k + rest) == |k|
    decreases |k|
  {
    if k == "" {
      assert k + rest == rest;
    } else {
      assert (k + rest)[1..] == k[1..] + rest;
      FirstDotAfter(k[1..], rest);
    }
  }

  /** A clean path's first key can be read off its dotted form. */
  lemma HeadLength(p: Path)
    requires p != [] && CleanPath(p)
    ensures FirstDot(Joined(p)) == |p[0]|
  {
    assert CleanKey(p[0]);
    if |p| == 1 {
      assert p[0] + "" == p[0];
      FirstDotAfter(p[0], "");
    } else {
      assert p[0] + "." + Joined(p[1..]) == p[0] + ("." + Joined(p[1..]));
      FirstDotAfter(p[0], "." + Joined(p[1..]));
    }
  }

  /** Different clean paths never flatten to the same key. */
  lemma {:induction false} JoinedInjective(p: Path, q: Path)
    requires p != [] && q != [] && CleanPath(p) && CleanPath(q) && Joined(p) == Joined(q)
    ensures p == q
    decreases |p|
  {
    HeadLength(p);
    HeadLength(q);
    var n := |p[0]|;
    assert p[0] == Joined(p)[..n] && q[0] == Joined(q)[..n];
    if |p| > 1 && |q| > 1 {
      assert Joined(p[1..]) == Joined(p)[n + 1..] && Joined(q[1..]) == Joined(q)[n + 1..];
      JoinedInjective(p[1..], q[1..]);
      assert p == [p[0]] + p[1..] && q == [q[0]] + q[1..];
    }
  }

  /** A dotted key collides with its two halves, and an empty first key with none: ".k" flattens to "k". */
  lemma UncleanPathsCollide(a: string, b: string, p: Path)
    requires a != ""
    ensures JoinFrom("", [a + "." + b]) == JoinFrom("", [a, b])
    ensures JoinFrom("", [""] + p) == JoinFrom("", p)
  {
    assert [a, b][1..] == [b] && [a + "." + b][1..] == [] && [b][1..] == [] && ([""] + p)[1..] == p;
    assert JoinFrom("", [a, b]) == JoinFrom(a, [b]) == JoinFrom(a + "." + b, []);
  }

  /** The flattened key of a field. */
  function KeyOf(prefix: string, k: string): string {
    if prefix == "" then k else prefix + "." + k
  }

  function FlatKeys(v: Value, prefix: string): set<string> {
    set p | p in LeafPaths(v) :: JoinFrom(prefix, p)
  }

  /** Some leaf with flattened key `f` has the value `x`. */
  ghost predicate FlatAt(v: Value, prefix: string, f: string, x: Value) {
    exists p :: p in LeafPaths(v) && JoinFrom(prefix, p) == f && Lookup(v, p) == Some(x)
  }

  /** A leaf below a field is a leaf of the map, under the same flattened key. */
  lemma FieldLeaf(v: Value, prefix: string, k: string, q: Path)
    requires v.Map? && k in v.fields && IsLeaf(v.fields[k], q)
    ensures [k] + q in LeafPaths(v) && Lookup(v, [k] + q) == Lookup(v.fields[k], q)
    ensures JoinFrom(prefix, [k] + q) == JoinFrom(KeyOf(prefix, k), q)
  {
    assert ([k] + q)[1..] == q;
    assert IsLeaf(v, [k] + q);
  }

  lemma FlatKeysOfField(v: Value, prefix: string, k: string)
    requires v.Map? && k in v.fields
    ensures FlatKeys(v.fields[k], KeyOf(prefix, k)) <= FlatKeys(v, prefix)
  {
    forall f | f in FlatKeys(v.fields[k], KeyOf(prefix, k)) ensures f in FlatKeys(v, prefix) {
      var q :| q in LeafPaths(v.fields[k]) && JoinFrom(KeyOf(prefix, k), q) == f;
      FieldLeaf(v, prefix, k, q);
    }
  }

  lemma FlatKeysFromField(v: Value, prefix: string, f: string) returns (k: string)
    requires v.Map? && f in FlatKeys(v, prefix)
    ensures k in v.fields && f in FlatKeys(v.fields[k], KeyOf(prefix, k))
  {
    var p :| p in LeafPaths(v) && JoinFrom(prefix, p) == f;
    k := p[0];
    assert IsLeaf(v, p);
    assert IsLeaf(v.fields[k], p[1..]);
    assert p[1..] in LeafPaths(v.fields[k]);
  }

  lemma FlatAtField(v: Value, prefix: string, k: string, f: string, x: Value)
    requires v.Map? && k in v.fields && FlatAt(v.fields[k], KeyOf(prefix, k), f, x)
    ensures FlatAt(v, prefix, f, x)
  {
    var q :| q in LeafPaths(v.fields[k]) && JoinFrom(KeyOf(prefix, k), q) == f && Lookup(v.fields[k], q) == Some(x);
    FieldLeaf(v, prefix, k, q);
  }

  lemma LeafKeys(v: Value, key: string)
    requires !v.Map?
    ensures FlatKeys(v, key) == {key} && FlatAt(v, key, key, v)
  {
    assert LeafPaths(v) == {[]};
    assert JoinFrom(key, []) == key && Lookup(v, []) == Some(v);
  }

  // ---------------------------------------------------------------- the source table

  /** The table `r` is `dest` with every key of `keys` attributed to `source`. */
  predicate Stamped(dest: map<string, string>, keys: set<string>, source: string, r: map<string, string>) {
    && r.Keys == dest.Keys + keys
    && forall f :: f in r ==> r[f] == if f in keys then source else dest[f]
  }

  /** recordSources as written: a recursive loop over the fields in any order. */
  method RecordSources(dest: map<string, string>, m: map<string, Value>, source: string, prefix: string)
    returns (r: map<string, string>)
    ensures Stamped(dest, FlatKeys(Map(m), prefix), source, r)
    decreases Map(m), 1
  {
    r := dest;
    var todo := m.Keys;
    ghost var keys: set<string> := {};
    while todo != {}
      invariant todo <= m.Keys && keys <= FlatKeys(Map(m), prefix)
      invariant forall k :: k in m && k !in todo ==> FlatKeys(m[k], KeyOf(prefix, k)) <= keys
      invariant Stamped(dest, keys, source, r)
      decreases todo
    {
      var k :| k in todo;
      FlatKeysOfField(Map(m), prefix, k);
      var r' := RecordField(r, m, k, source, prefix);
      StampedTwice(dest, keys, r, FlatKeys(m[k], KeyOf(prefix, k)), source, r');
      r := r';
      keys := keys + FlatKeys(m[k], KeyOf(prefix, k));
      todo := todo - {k};
    }
    forall f | f in FlatKeys(Map(m), prefix) ensures f in keys {
      var k := FlatKeysFromField(Map(m), prefix, f);
    }
    assert keys == FlatKeys(Map(m), prefix);
  }

  lemma StampedTwice(dest: map<string, string>, a: set<string>, r: map<string, string>, b: set<string>,
                     source: string, r': map<string, string>)
    requires Stamped(dest, a, source, r) && Stamped(r, b, source, r')
    ensures Stamped(dest, a + b, source, r')
  {
  }

  /** The body of the loop: descend into a map, attribute a leaf. */
  method RecordField(dest: map<string, string>, m: map<string, Value>, k: string, source: string, prefix: string)
    returns (r: map<string, string>)
    requires k in m
    ensures Stamped(dest, FlatKeys(m[k], KeyOf(prefix, k)), source, r)
    decreases Map(m), 0
  {
    var key := KeyOf(prefix, k);
    assert Map(m).fields[k] == m[k];
    if m[k].Map? {
      r := RecordSources(dest, m[k].fields, source, key);
    } else {
      LeafKeys(m[k], key);
      r := dest[key := source];
    }
  }

  /** A flattening lists every leaf key, with the value of some leaf of that key. */
  ghost predicate IsFlattening(v: Value, prefix: string, flat: map<string, Value>) {
    && flat.Keys == FlatKeys(v, prefix)
    && forall f :: f in flat ==> FlatAt(v, prefix, f, flat[f])
  }

  /** flattenMap as written. */
  method FlattenMap(m: map<string, Value>, prefix: string) returns (out: map<string, Value>)
    ensures IsFlattening(Map(m), prefix, out)
    decreases Map(m)
  {
    out := map[];
    var todo := m.Keys;
    while todo != {}
      invariant todo <= m.Keys && out.Keys <= FlatKeys(Map(m), prefix)
      invariant forall k :: k in m && k !in todo ==> FlatKeys(m[k], KeyOf(prefix, k)) <= out.Keys
      invariant forall f :: f in out ==> FlatAt(Map(m), prefix, f, out[f])
      decreases todo
    {
      var k :| k in todo;
      var key := KeyOf(prefix, k);
      assert Map(m).fields[k] == m[k];
      FlatKeysOfField(Map(m), prefix, k);
      var sub: map<string, Value>;
      if m[k].Map? {
        sub := FlattenMap(m[k].fields, key);
      } else {
        LeafKeys(m[k], key);
        sub := map[key := m[k]];
      }
      forall f | f in sub ensures FlatAt(Map(m), prefix, f, sub[f]) {
        FlatAtField(Map(m), prefix, k, f, sub[f]);
      }
      out := out + sub;
      todo := todo - {k};
    }
    forall f | f in FlatKeys(Map(m), prefix) ensures f in out {
      var k := FlatKeysFromField(Map(m), prefix, f);
    }
  }
}
