/** The deep merge behind `extend`: `defaultsDeep({}, options, parent)` copies
    the new options into a fresh object and then fills in, at every depth,
    whatever the parent's raw options have and the new options lack. */
module DeepMerge {
  import opened Values

  /** `defaultsDeep({}, n, o)`: every key of either side; where both sides
      hold a plain object the two are merged again, otherwise `n` wins. */
  function MergeOver(n: Tree, o: Tree): (r: Tree)
    ensures r.Keys == n.Keys + o.Keys
    decreases Obj(n), 0
  {
    map k | k in n.Keys + o.Keys ::
      if k in n && k in o then MergeValue(n[k], o[k])
      else if k in n then n[k]
      else o[k]
  }

  /** One entry present on both sides. */
  function MergeValue(nv: Value, ov: Value): (r: Value)
    ensures !(nv.Obj? && ov.Obj?) ==> r == nv
    ensures nv.Obj? && ov.Obj? ==> r.Obj? && r.fields.Keys == nv.fields.Keys + ov.fields.Keys
    decreases nv, 1
  {
    if nv.Obj? && ov.Obj? then Obj(MergeOver(nv.fields, ov.fields)) else nv
  }

  /** A leaf of the new options wins at whatever depth it sits; a plain
      object of the new options keeps all its keys. */
  lemma {:induction false} MergeNewWins(nv: Value, ov: Value, path: seq<string>)
    requires Lookup(nv, path).Some?
    ensures Lookup(MergeValue(nv, ov), path).Some?
    ensures !Lookup(nv, path).value.Obj? ==>
              Lookup(MergeValue(nv, ov), path) == Lookup(nv, path)
    ensures Lookup(nv, path).value.Obj? ==>
              Lookup(MergeValue(nv, ov), path).value.Obj? &&
              Lookup(nv, path).value.fields.Keys <= Lookup(MergeValue(nv, ov), path).value.fields.Keys
    decreases |path|
  {
    if path != [] && ov.Obj? {
      assert nv.Obj? && path[0] in nv.fields;
      var k := path[0];
      var m := MergeOver(nv.fields, ov.fields);
      assert MergeValue(nv, ov) == Obj(m);
      if k in ov.fields {
        assert m[k] == MergeValue(nv.fields[k], ov.fields[k]);
        MergeNewWins(nv.fields[k], ov.fields[k], path[1..]);
      } else {
        assert m[k] == nv.fields[k];
      }
    }
  }

  /** Whatever the parent has where the new options have nothing (and no
      leaf of the new options hides it) is inherited as it is. */
  lemma {:induction false} MergeParentFills(nv: Value, ov: Value, path: seq<string>)
    requires Lookup(ov, path).Some?
    requires Lookup(nv, path) == None && !Shadowed(nv, path)
    ensures Lookup(MergeValue(nv, ov), path) == Lookup(ov, path)
    decreases |path|
  {
    assert path != [] && nv.Obj? && ov.Obj? && path[0] in ov.fields;
    var k := path[0];
    var m := MergeOver(nv.fields, ov.fields);
    assert MergeValue(nv, ov) == Obj(m);
    if k in nv.fields {
      assert m[k] == MergeValue(nv.fields[k], ov.fields[k]);
      MergeParentFills(nv.fields[k], ov.fields[k], path[1..]);
    } else {
      assert m[k] == ov.fields[k];
    }
  }

  /** Where both sides hold a plain object, at any depth, the result holds
      their merge: inherited properties and new ones side by side. */
  lemma {:induction false} MergeNested(nv: Value, ov: Value, path: seq<string>)
    requires Lookup(nv, path).Some? && Lookup(nv, path).value.Obj?
    requires Lookup(ov, path).Some? && Lookup(ov, path).value.Obj?
    ensures Lookup(MergeValue(nv, ov), path) ==
              Some(Obj(MergeOver(Lookup(nv, path).value.fields, Lookup(ov, path).value.fields)))
    decreases |path|
  {
    if path != [] {
      var k := path[0];
      var m := MergeOver(nv.fields, ov.fields);
      assert MergeValue(nv, ov) == Obj(m);
      assert m[k] == MergeValue(nv.fields[k], ov.fields[k]);
      MergeNested(nv.fields[k], ov.fields[k], path[1..]);
    }
  }

  /** The merge invents nothing: every entry of the result, at any depth,
      comes from the new options or from the parent. */
  lemma {:induction false} MergeInventsNothing(nv: Value, ov: Value, path: seq<string>)
    requires Lookup(MergeValue(nv, ov), path).Some?
    ensures Lookup(nv, path).Some? || Lookup(ov, path).Some?
    decreases |path|
  {
    if path != [] && nv.Obj? && ov.Obj? {
      var k := path[0];
      var m := MergeOver(nv.fields, ov.fields);
      assert MergeValue(nv, ov) == Obj(m);
      if k in nv.fields && k in ov.fields {
        assert m[k] == MergeValue(nv.fields[k], ov.fields[k]);
        MergeInventsNothing(nv.fields[k], ov.fields[k], path[1..]);
      }
    }
  }

  /** `extend()` with nothing to add reproduces the parent's options. */
  lemma MergeOverNothing(o: Tree)
    ensures MergeOver(map[], o) == o
  {
  }

  /** Merging a tree over itself gives the same tree back, at every depth. */
  lemma {:induction false} MergeSelf(v: Value)
    ensures MergeValue(v, v) == v
    decreases v
  {
    if v.Obj? {
      forall k | k in v.fields
        ensures MergeOver(v.fields, v.fields)[k] == v.fields[k]
      {
        MergeSelf(v.fields[k]);
      }
    }
  }
}
