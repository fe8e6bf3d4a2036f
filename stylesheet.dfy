/** `ExtensibleStyleSheet`: splits a style description into variables and
    style groups, substitutes variable references, registers the groups with
    the host framework, and extends an instance by deep-merging new options
    over the raw options it was built from. */
module StyleSheet {
  import opened Values
  import opened Substitution
  import opened DeepMerge

  /** The variable table: the top-level entries whose key starts with `$`.
      Nested keys are never variable declarations. */
  function VariablesOf(options: Tree): (vars: Tree)
    ensures forall k :: k in vars <==> k in options && IsVariableName(k)
    ensures forall k :: k in vars ==> vars[k] == options[k]
  {
    map k | k in options && IsVariableName(k) :: options[k]
  }

  /** What is left of the argument object once the variables are deleted. */
  function ResidualOf(options: Tree): (rest: Tree)
    ensures forall k :: k in rest <==> k in options && !IsVariableName(k)
    ensures forall k :: k in rest ==> rest[k] == options[k]
  {
    map k | k in options && !IsVariableName(k) :: options[k]
  }

  /** The tree handed to the style registrar: the residual entries with
      their variable references substituted. */
  function WorkingTree(options: Tree): (w: Tree)
    ensures forall k :: k in w <==> k in options && !IsVariableName(k)
  {
    ReplaceValues(VariablesOf(options), ResidualOf(options))
  }

  /** The entries copied onto the instance, variables first and registered
      styles second, so that a style group shadows a variable of its name. */
  function SurfaceOf(options: Tree, register: Tree -> Tree): (surface: Tree)
    ensures forall k :: k in surface <==> k in VariablesOf(options) || k in register(WorkingTree(options))
    ensures forall k :: k in register(WorkingTree(options)) ==> surface[k] == register(WorkingTree(options))[k]
    ensures forall k :: k in VariablesOf(options) && k !in register(WorkingTree(options)) ==>
              surface[k] == VariablesOf(options)[k]
  {
    VariablesOf(options) + register(WorkingTree(options))
  }

  /** Extraction splits the options in two without losing or inventing
      anything: the variables and the residual are disjoint and together
      give back the options. */
  lemma ExtractionSplits(options: Tree)
    ensures VariablesOf(options).Keys !! ResidualOf(options).Keys
    ensures VariablesOf(options) + ResidualOf(options) == options
  {
  }

  /** Every entry under a style group, at any depth, reaches the registrar,
      including nested keys that start with `$`: a leaf arrives resolved, a
      plain object arrives with the same keys. */
  lemma {:induction false} WorkingTreeKeepsNested(options: Tree, path: seq<string>)
    requires path != [] && !IsVariableName(path[0])
    requires Lookup(Obj(options), path).Some?
    ensures Lookup(Obj(WorkingTree(options)), path).Some?
    ensures !Lookup(Obj(options), path).value.Obj? ==>
              Lookup(Obj(WorkingTree(options)), path).value ==
              Resolve(VariablesOf(options), Lookup(Obj(options), path).value)
    ensures Lookup(Obj(options), path).value.Obj? ==>
              Lookup(Obj(WorkingTree(options)), path).value.Obj? &&
              Lookup(Obj(WorkingTree(options)), path).value.fields.Keys ==
              Lookup(Obj(options), path).value.fields.Keys
  {
    var vars := VariablesOf(options);
    var rest := ResidualOf(options);
    assert Lookup(Obj(rest), path) == Lookup(Obj(options), path);
    assert ReplaceValue(vars, Obj(rest)) == Obj(WorkingTree(options));
    ReplaceAtPath(vars, Obj(rest), path);
  }

  /** With a registrar that keeps the group names (as the host's does), the
      instance exposes exactly the top-level names of its options: each
      variable with its raw value, each style group as registered. */
  lemma SurfaceSeparates(options: Tree, register: Tree -> Tree, name: string)
    requires register(WorkingTree(options)).Keys == WorkingTree(options).Keys
    ensures name in SurfaceOf(options, register) <==> name in options
    ensures name in options && IsVariableName(name) ==>
              SurfaceOf(options, register)[name] == options[name]
    ensures name in options && !IsVariableName(name) ==>
              SurfaceOf(options, register)[name] == register(WorkingTree(options))[name]
  {
  }

  /** Extraction commutes with the merge: the variable table of an extension
      is the parent's table with the new variables merged over it. */
  lemma VariablesOfMerge(n: Tree, o: Tree)
    ensures VariablesOf(MergeOver(n, o)) == MergeOver(VariablesOf(n), VariablesOf(o))
  {
  }

  /** Likewise the style groups of an extension are the parent's groups
      with the new groups merged over them. */
  lemma ResidualOfMerge(n: Tree, o: Tree)
    ensures ResidualOf(MergeOver(n, o)) == MergeOver(ResidualOf(n), ResidualOf(o))
  {
  }

  /** Extending twice accumulates the entries of every link, the latest
      leaf winning: a top-level name is present after two extensions exactly
      when some link defines it, and it holds the value of the most recent
      link that defines it as a leaf; the variable table of the chain is the
      chain of the variable tables. */
  lemma ChainedExtension(base: Tree, first: Tree, second: Tree, name: string)
    ensures var final := MergeOver(second, MergeOver(first, base));
            && (name in final <==> name in base || name in first || name in second)
            && (name in second && !second[name].Obj? ==> final[name] == second[name])
            && (name !in second && name in first && !first[name].Obj? ==> final[name] == first[name])
            && (name !in second && name !in first && name in base ==> final[name] == base[name])
    ensures VariablesOf(MergeOver(second, MergeOver(first, base))) ==
              MergeOver(VariablesOf(second), MergeOver(VariablesOf(first), VariablesOf(base)))
  {
    VariablesOfMerge(second, MergeOver(first, base));
    VariablesOfMerge(first, base);
  }

  /** The argument object as the caller sees it: the constructor deletes the
      variable entries from it in place. */
  class JsObject {
    var entries: Tree

    constructor (entries: Tree)
      ensures this.entries == entries
    {
      this.entries := entries;
    }
  }

  class ExtensibleStyleSheet {
    /** `StyleSheet.create` of the host framework. */
    const register: Tree -> Tree
    /** `_options`: the raw options, variables included, kept for `extend`. */
    var options: Tree
    /** `_variables` */
    var variables: Tree
    /** `_styles`: what the registrar returned. */
    var styles: Tree
    /** The entries `Object.assign` copies onto the instance. */
    var surface: Tree

    ghost predicate Valid()
      reads this
    {
      && variables == VariablesOf(options)
      && styles == register(WorkingTree(options))
      && surface == SurfaceOf(options, register)
    }

    /** `new ExtensibleStyleSheet(args)` */
    constructor (args: JsObject, register: Tree -> Tree)
      modifies args
      ensures Valid() && this.register == register
      ensures options == old(args.entries)
      ensures variables == VariablesOf(old(args.entries))
      ensures styles == register(WorkingTree(old(args.entries)))
      ensures args.entries == ResidualOf(old(args.entries))
    {
      this.register := register;
      options := args.entries;
      variables := map[];
      new;
      ghost var original := args.entries;
      var names := set k | k in args.entries && IsVariableName(k);
      ghost var declared := names;
      while names != {}
        invariant names <= declared
        invariant options == original
        invariant variables == map k | k in declared - names :: original[k]
        invariant args.entries == map k | k in original && k !in declared - names :: original[k]
        decreases names
      {
        var name :| name in names;
        variables := variables[name := args.entries[name]];
        args.entries := args.entries - {name};
        names := names - {name};
      }
      assert variables == VariablesOf(original);
      assert args.entries == ResidualOf(original);
      styles := register(ReplaceValues(variables, args.entries));
      surface := variables + styles;
    }

    /** `ExtensibleStyleSheet.create(args)` */
    static method Create(args: JsObject, register: Tree -> Tree) returns (sheet: ExtensibleStyleSheet)
      modifies args
      ensures fresh(sheet) && sheet.Valid() && sheet.register == register
      ensures sheet.options == old(args.entries)
      ensures args.entries == ResidualOf(old(args.entries))
    {
      sheet := new ExtensibleStyleSheet(args, register);
    }

    /** Property access on the instance: a style group shadows a variable of
        the same name. */
    function Get(name: string): (r: Option<Value>)
      reads this
      requires Valid()
      ensures name in styles ==> r == Some(styles[name])
      ensures name !in styles && name in variables ==> r == Some(variables[name])
      ensures name !in styles && name !in variables ==> r == None
    {
      if name in surface then Some(surface[name]) else None
    }

    /** `extend(opts)`: a fresh instance built from `opts` merged over this
        instance's raw options; this instance is left as it was. */
    method Extend(opts: Tree) returns (sheet: ExtensibleStyleSheet)
      requires Valid()
      ensures fresh(sheet) && sheet.Valid() && sheet.register == register
      ensures unchanged(this)
      ensures sheet.options == MergeOver(opts, options)
      ensures sheet.variables == MergeOver(VariablesOf(opts), variables)
      ensures opts == map[] ==>
                sheet.variables == variables && sheet.styles == styles && sheet.surface == surface
    {
      var merged := new JsObject(MergeOver(opts, options));
      sheet := new ExtensibleStyleSheet(merged, register);
      VariablesOfMerge(opts, options);
      MergeOverNothing(options);
    }
  }
}
