/** Value substitution: `replaceValues` walks a style tree through its plain
    objects and replaces each leaf that names a variable by that variable's value. */
module Substitution {
  import opened Values

  /** `_variables[value] || value` for one leaf: a string naming a variable
      whose value is truthy becomes that value; any other leaf is kept. */
  function Resolve(vars: Tree, leaf: Value): (r: Value)
    ensures leaf.Str? && leaf.s in vars && Truthy(vars[leaf.s]) ==> r == vars[leaf.s]
    ensures leaf.Str? && leaf.s in vars && !Truthy(vars[leaf.s]) ==> r == leaf
    ensures !(leaf.Str? && leaf.s in vars) ==> r == leaf
  {
    if leaf.Str? && leaf.s in vars && Truthy(vars[leaf.s]) then vars[leaf.s] else leaf
  }

  /** One entry of `replaceValues`: plain objects are walked, everything else
      is resolved as a leaf. */
  function ReplaceValue(vars: Tree, v: Value): (r: Value)
    ensures v.Obj? ==> r.Obj? && r.fields.Keys == v.fields.Keys
    decreases v, 1
  {
    if v.Obj? then Obj(ReplaceValues(vars, v.fields)) else Resolve(vars, v)
  }

  /** `replaceValues(object)`: `mapValues` over the entries of a plain object. */
  function ReplaceValues(vars: Tree, t: Tree): (r: Tree)
    ensures r.Keys == t.Keys
    decreases Obj(t), 0
  {
    map k | k in t :: ReplaceValue(vars, t[k])
  }

  /** No leaf of `v` is changed by resolving it against `vars`. */
  predicate NoReferences(vars: Tree, v: Value)
    decreases v
  {
    if v.Obj? then forall k :: k in v.fields ==> NoReferences(vars, v.fields[k])
    else Resolve(vars, v) == v
  }

  /** At every path that runs through plain objects of the input, the output
      holds a plain object with the same keys where the input has one, and
      the resolved leaf where the input has a leaf. */
  lemma {:induction false} ReplaceAtPath(vars: Tree, v: Value, path: seq<string>)
    requires Lookup(v, path).Some?
    ensures Lookup(ReplaceValue(vars, v), path).Some?
    ensures Lookup(v, path).value.Obj? ==>
              Lookup(ReplaceValue(vars, v), path).value.Obj? &&
              Lookup(ReplaceValue(vars, v), path).value.fields.Keys == Lookup(v, path).value.fields.Keys
    ensures !Lookup(v, path).value.Obj? ==>
              Lookup(ReplaceValue(vars, v), path).value == Resolve(vars, Lookup(v, path).value)
    decreases |path|
  {
    if path != [] {
      var k := path[0];
      assert ReplaceValue(vars, v).fields[k] == ReplaceValue(vars, v.fields[k]);
      ReplaceAtPath(vars, v.fields[k], path[1..]);
    }
  }

  /** The output has no entry the input lacks, except below a leaf that was
      replaced by an object-valued variable: substitution adds no keys. */
  lemma {:induction false} ReplaceAddsNothing(vars: Tree, v: Value, path: seq<string>)
    requires Lookup(ReplaceValue(vars, v), path).Some?
    requires !Shadowed(v, path)
    ensures Lookup(v, path).Some?
    decreases |path|
  {
    if path != [] {
      var k := path[0];
      assert v.Obj?;
      assert k in ReplaceValue(vars, v).fields;
      assert ReplaceValue(vars, v).fields[k] == ReplaceValue(vars, v.fields[k]);
      ReplaceAddsNothing(vars, v.fields[k], path[1..]);
    }
  }

  /** A tree with no variable references passes through unchanged. */
  lemma {:induction false} ReplaceWithoutReferences(vars: Tree, v: Value)
    requires NoReferences(vars, v)
    ensures ReplaceValue(vars, v) == v
    decreases v
  {
    if v.Obj? {
      forall k | k in v.fields
        ensures ReplaceValues(vars, v.fields)[k] == v.fields[k]
      {
        ReplaceWithoutReferences(vars, v.fields[k]);
      }
    }
  }

  /** Without variables every tree passes through unchanged, at every depth. */
  lemma {:induction false} ReplaceWithoutVariables(v: Value)
    ensures ReplaceValue(map[], v) == v
    decreases v
  {
    if v.Obj? {
      forall k | k in v.fields
        ensures ReplaceValues(map[], v.fields)[k] == v.fields[k]
      {
        ReplaceWithoutVariables(v.fields[k]);
      }
    }
  }

  /** Substitution is done in one pass: when no variable's value itself holds
      a reference, a second pass changes nothing. */
  lemma {:induction false} ReplaceIdempotent(vars: Tree, v: Value)
    requires forall name :: name in vars ==> NoReferences(vars, vars[name])
    ensures ReplaceValue(vars, ReplaceValue(vars, v)) == ReplaceValue(vars, v)
    decreases v
  {
    if v.Obj? {
      var once := ReplaceValues(vars, v.fields);
      forall k | k in once
        ensures ReplaceValues(vars, once)[k] == once[k]
      {
        ReplaceIdempotent(vars, v.fields[k]);
      }
    } else if v.Str? && v.s in vars && Truthy(vars[v.s]) {
      ReplaceWithoutReferences(vars, vars[v.s]);
    }
  }

  /** A reference is resolved once: the substituted value is returned as it
      is, even when it is itself the name of another truthy variable (or of
      a variable whose value names itself). `b` is non-empty because the
      empty string is falsy and would leave `a` unresolved. */
  lemma ReferenceNotResolvedAgain(a: string, b: string, target: Value)
    requires a != b && b != "" && Truthy(target)
    ensures var vars := map[a := Str(b), b := target];
            ReplaceValue(vars, Str(a)) == Str(b) && ReplaceValue(vars, Str(b)) == target
  {
  }
}
