/** Configuration trees: nested string maps, their leaves, and the in-place merge of two of them. */
module ConfigTree {
  import opened Common

  /** What a decoded layer holds. Everything that is not a map is a leaf. */
  datatype Value =
    | Map(fields: map<string, Value>)
    | Nil
    | Str(s: string)
    | Int(i: int)
    | Int64(i: int)
    | Float(repr: string)
    | Bool(b: bool)
    | List(items: seq<Value>)

  type Path = seq<string>

  const EMPTY: Value := Map(map[])

  /** getPath, for any path. */
  function Lookup(v: Value, p: Path): Option<Value>
    decreases |p|
  {
    if p == [] then Some(v)
    else if v.Map? && p[0] in v.fields then Lookup(v.fields[p[0]], p[1..])
    else None
  }

  predicate IsLeaf(v: Value, p: Path) {
    Lookup(v, p).Some? && !Lookup(v, p).value.Map?
  }

  /** The leaf at a path. */
  function LeafAt(v: Value, p: Path): Option<Value> {
    if IsLeaf(v, p) then Lookup(v, p) else None
  }

  /** The paths of all leaves. */
  function LeafPaths(v: Value): (ps: set<Path>)
    ensures forall p :: p in ps <==> IsLeaf(v, p)
    decreases v
  {
    if !v.Map? then
      assert forall p: Path :: p != [] ==> Lookup(v, p).None?;
      {[]}
    else
      var ps := set k, q | k in v.fields && q in LeafPaths(v.fields[k]) :: [k] + q;
      assert forall p :: IsLeaf(v, p) ==> p in ps by {
        forall p | IsLeaf(v, p) ensures p in ps {
          assert p[1..] in LeafPaths(v.fields[p[0]]);
          assert p == [p[0]] + p[1..];
        }
      }
      assert forall p :: p in ps ==> IsLeaf(v, p) by {
        forall p | p in ps ensures IsLeaf(v, p) {
          var k, q :| k in v.fields && q in LeafPaths(v.fields[k]) && p == [k] + q;
          assert p[1..] == q;
        }
      }
      ps
  }

  /** The merge of `src` into `dst`: maps are merged field by field, anything else is replaced. */
  function Merge(dst: Value, src: Value): (r: Value)
    requires dst.Map? && src.Map?
    ensures r.Map?
    decreases src, 0
  {
    Map(map k | k in dst.fields.Keys + src.fields.Keys ::
      if k !in src.fields then dst.fields[k]
      else MergeField(if k in dst.fields then Some(dst.fields[k]) else None, src.fields[k]))
  }

  function MergeField(dv: Option<Value>, v: Value): Value
    decreases v, 1
  {
    if dv.Some? && dv.value.Map? && v.Map? then Merge(dv.value, v) else v
  }

  /**
   What a merged tree holds at a path: the source's leaf if it has one there; otherwise a
   leaf can only be the old one, and it survives exactly if the source neither has a map
   there nor a leaf on the way.
   */
  lemma {:induction false} MergeLeaf(dst: Value, src: Value, p: Path)
    requires dst.Map? && src.Map?
    ensures IsLeaf(src, p) ==> Lookup(Merge(dst, src), p) == Lookup(src, p)
    ensures IsLeaf(Merge(dst, src), p) && !IsLeaf(src, p) ==> Lookup(Merge(dst, src), p) == Lookup(dst, p)
    ensures IsLeaf(Merge(dst, src), p) && Touches(src, p) ==> IsLeaf(src, p)
    ensures IsLeaf(dst, p) && !Touches(src, p) ==> Lookup(Merge(dst, src), p) == Lookup(dst, p)
    decreases |p|
  {
    if p != [] && p[0] in src.fields {
      var v := src.fields[p[0]];
      if v.Map? && p[0] in dst.fields && dst.fields[p[0]].Map? {
        MergeLeaf(dst.fields[p[0]], v, p[1..]);
      } else if p[0] in dst.fields && !dst.fields[p[0]].Map? {
        assert p[1..] == [] || Lookup(dst.fields[p[0]], p[1..]).None?;
        assert p[1..] == [] ==> Touches(v, p[1..]);
      } else {
        assert !v.Map? ==> Touches(v, p[1..]);
      }
    }
  }

  /** The source says something at the path or about one of its ancestors. */
  predicate Touches(v: Value, p: Path)
    decreases |p|
  {
    if p == [] || !v.Map? then true
    else p[0] in v.fields && Touches(v.fields[p[0]], p[1..])
  }

  /** mergeMaps as written: a loop over the source's fields in any order, updating the destination. */
  method MergeMaps(dst: map<string, Value>, src: map<string, Value>) returns (r: map<string, Value>)
    ensures Map(r) == Merge(Map(dst), Map(src))
    decreases Map(src), 1
  {
    r := dst;
    var todo := src.Keys;
    while todo != {}
      invariant todo <= src.Keys
      invariant r.Keys == dst.Keys + (src.Keys - todo)
      invariant forall k :: k in r ==>
        r[k] == if k in src && k !in todo then MergeField(if k in dst then Some(dst[k]) else None, src[k]) else dst[k]
      decreases todo
    {
      var k :| k in todo;
      var v := MergeOne(if k in r then Some(r[k]) else None, src, k);
      r := r[k := v];
      todo := todo - {k};
    }
  }

  /** The body of the loop: two maps are merged, anything else is replaced. */
  method MergeOne(dv: Option<Value>, src: map<string, Value>, k: string) returns (v: Value)
    requires k in src
    ensures v == MergeField(dv, src[k])
    decreases Map(src), 0
  {
    assert Map(src).fields[k] == src[k];
    v := src[k];
    if dv.Some? && dv.value.Map? && src[k].Map? {
      var merged := MergeMaps(dv.value.fields, src[k].fields);
      v := Map(merged);
    }
  }

  // ---------------------------------------------------------------- the order of merging

  /** One field of a merged map. */
  lemma FieldOfMerge(dst: Value, src: Value, k: string)
    requires dst.Map? && src.Map? && (k in dst.fields || k in src.fields)
    ensures k in Merge(dst, src).fields
    ensures Merge(dst, src).fields[k] ==
            if k !in src.fields then dst.fields[k]
            else if k in dst.fields && dst.fields[k].Map? && src.fields[k].Map? then Merge(dst.fields[k], src.fields[k])
            else src.fields[k]
  {
  }

  /** Every field of `x` is said again by `z`, at all depths: `x` adds nothing below `z`. */
  predicate Absorbs(z: Value, x: Value)
    requires z.Map? && x.Map?
    decreases x
  {
    forall k :: k in x.fields ==>
      && k in z.fields
      && (x.fields[k].Map? && z.fields[k].Map? ==> Absorbs(z.fields[k], x.fields[k]))
  }

  lemma {:induction false} AbsorbsIff(x: Value, z: Value)
    requires x.Map? && z.Map?
    ensures Merge(x, z) == z <==> Absorbs(z, x)
    decreases x
  {
    var m := Merge(x, z);
    forall k | k in x.fields && k in z.fields
      ensures m.fields[k] == z.fields[k] <==>
              (x.fields[k].Map? && z.fields[k].Map? ==> Absorbs(z.fields[k], x.fields[k]))
    {
      FieldOfMerge(x, z, k);
      if x.fields[k].Map? && z.fields[k].Map? {
        AbsorbsIff(x.fields[k], z.fields[k]);
      }
    }
    if Absorbs(z, x) {
      forall k | k in z.fields ensures m.fields[k] == z.fields[k] {
        FieldOfMerge(x, z, k);
      }
      assert m.fields == z.fields;
    }
  }

  /** A scalar of `b` between maps of `a` and `c` hides nothing of `a` that `c` does not say again. */
  predicate Associates(a: Value, b: Value, c: Value)
    requires a.Map? && b.Map? && c.Map?
    decreases c
  {
    forall k :: k in c.fields && k in a.fields && k in b.fields && a.fields[k].Map? && c.fields[k].Map? ==>
      if b.fields[k].Map? then Associates(a.fields[k], b.fields[k], c.fields[k])
      else Absorbs(c.fields[k], a.fields[k])
  }

  /** The order of merging three layers does not matter exactly if no scalar in the middle hides anything. */
  lemma {:induction false} MergeAssociatesIff(a: Value, b: Value, c: Value)
    requires a.Map? && b.Map? && c.Map?
    ensures Merge(Merge(a, b), c) == Merge(a, Merge(b, c)) <==> Associates(a, b, c)
    decreases c
  {
    var l, r := Merge(Merge(a, b), c), Merge(a, Merge(b, c));
    forall k | k in l.fields ensures k in r.fields && (l.fields[k] == r.fields[k] <==> FieldAssociates(a, b, c, k)) {
      BothSides(a, b, c, k);
      if k in c.fields && k in a.fields && k in b.fields && a.fields[k].Map? && c.fields[k].Map? {
        if b.fields[k].Map? {
          MergeAssociatesIff(a.fields[k], b.fields[k], c.fields[k]);
        } else {
          AbsorbsIff(a.fields[k], c.fields[k]);
        }
      }
    }
    if Associates(a, b, c) {
      assert forall k :: k in l.fields ==> FieldAssociates(a, b, c, k);
      assert l.fields == r.fields;
    }
    if l == r {
      forall k | k in c.fields ensures FieldAssociates(a, b, c, k) {
        BothSides(a, b, c, k);
      }
    }
  }

  /** A field of both ways of merging. */
  lemma BothSides(a: Value, b: Value, c: Value, k: string)
    requires a.Map? && b.Map? && c.Map? && (k in a.fields || k in b.fields || k in c.fields)
    ensures var l, r := Merge(Merge(a, b), c), Merge(a, Merge(b, c));
            && k in l.fields && k in r.fields
            && (if k in c.fields && k in a.fields && k in b.fields && a.fields[k].Map? && c.fields[k].Map?
                then
                  if b.fields[k].Map?
                  then && l.fields[k] == Merge(Merge(a.fields[k], b.fields[k]), c.fields[k])
                       && r.fields[k] == Merge(a.fields[k], Merge(b.fields[k], c.fields[k]))
                  else l.fields[k] == c.fields[k] && r.fields[k] == Merge(a.fields[k], c.fields[k])
                else l.fields[k] == r.fields[k])
  {
    if k in a.fields || k in b.fields { FieldOfMerge(a, b, k); }
    if k in b.fields || k in c.fields { FieldOfMerge(b, c, k); }
    FieldOfMerge(Merge(a, b), c, k);
    FieldOfMerge(a, Merge(b, c), k);
  }

  predicate FieldAssociates(a: Value, b: Value, c: Value, k: string)
    requires a.Map? && b.Map? && c.Map?
  {
    k in c.fields && k in a.fields && k in b.fields && a.fields[k].Map? && c.fields[k].Map? ==>
      if b.fields[k].Map? then Associates(a.fields[k], b.fields[k], c.fields[k])
      else Absorbs(c.fields[k], a.fields[k])
  }

  // ---------------------------------------------------------------- paths

  /** setPath: non-map values on the way are replaced by maps. */
  function SetPath(v: Value, p: Path, x: Value): (r: Value)
    requires v.Map?
    ensures r.Map?
    decreases |p|
  {
    if p == [] then v
    else if |p| == 1 then Map(v.fields[p[0] := x])
    else
      var next := if p[0] in v.fields && v.fields[p[0]].Map? then v.fields[p[0]] else EMPTY;
      Map(v.fields[p[0] := SetPath(next, p[1..], x)])
  }

  predicate Related(p: Path, q: Path) {
    p <= q || q <= p
  }

  /** What was set is found again, and leaves on unrelated paths are found as before. */
  lemma {:induction false} SetThenLookup(v: Value, p: Path, x: Value, q: Path)
    requires v.Map? && p != []
    ensures Lookup(SetPath(v, p, x), p) == Some(x)
    ensures !Related(p, q) && IsLeaf(v, q) ==> Lookup(SetPath(v, p, x), q) == Lookup(v, q)
    ensures !Related(p, q) && IsLeaf(SetPath(v, p, x), q) ==> Lookup(SetPath(v, p, x), q) == Lookup(v, q)
    decreases |p|
  {
    if |p| > 1 {
      var next := if p[0] in v.fields && v.fields[p[0]].Map? then v.fields[p[0]] else EMPTY;
      if q != [] {
        if p[0] == q[0] && !Related(p, q) {
          assert p == [p[0]] + p[1..] && q == [q[0]] + q[1..];
          assert !Related(p[1..], q[1..]);
        }
        SetThenLookup(next, p[1..], x, q[1..]);
      } else {
        SetThenLookup(next, p[1..], x, q);
      }
    }
  }

  /** getPath as written: a loop down the path. */
  method GetPath(m: map<string, Value>, nodes: Path) returns (r: Option<Value>)
    ensures r == Lookup(Map(m), nodes)
  {
    if nodes == [] {
      return Some(Map(m));
    }
    var cur, last := m, |nodes| - 1;
    for i := 0 to last
      invariant Lookup(Map(m), nodes) == Lookup(Map(cur), nodes[i..])
    {
      assert nodes[i..][1..] == nodes[i + 1..];
      if nodes[i] !in cur || !cur[nodes[i]].Map? {
        assert nodes[i + 1..] != [];
        return None;
      }
      cur := cur[nodes[i]].fields;
    }
    assert nodes[last..] == [nodes[last]] && nodes[last..][1..] == [];
    r := if nodes[last] in cur then Some(cur[nodes[last]]) else None;
  }
}
