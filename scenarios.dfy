/** The behaviours the repository's tests pin down. The lemmas are stated on
    the tree handed to the registrar (`WorkingTree`) or on the merged raw
    options; the client methods build instances with the identity registrar,
    as the tests' stand-in registrar behaves. */
module Scenarios {
  import opened Values
  import opened Substitution
  import opened DeepMerge
  import opened StyleSheet

  /** References to defined variables are replaced by their values. */
  lemma SubstitutesDefinedReferences()
    ensures var options := map[
              "$color" := Str("#ff0000"),
              "$fontSize" := Num(14.0),
              "container" := Obj(map["backgroundColor" := Str("$color"), "fontSize" := Str("$fontSize")])];
            WorkingTree(options) ==
              map["container" := Obj(map["backgroundColor" := Str("#ff0000"), "fontSize" := Num(14.0)])]
  {
    var options := map[
      "$color" := Str("#ff0000"),
      "$fontSize" := Num(14.0),
      "container" := Obj(map["backgroundColor" := Str("$color"), "fontSize" := Str("$fontSize")])];
    var vars := VariablesOf(options);
    assert vars == map["$color" := Str("#ff0000"), "$fontSize" := Num(14.0)];
    assert ResidualOf(options) == map["container" := options["container"]];
    var inner := ReplaceValues(vars, options["container"].fields);
    assert inner == map["backgroundColor" := Str("#ff0000"), "fontSize" := Num(14.0)];
  }

  /** A reference to an undefined variable is passed on literally. */
  lemma KeepsUnresolvedReferences()
    ensures var options := map["container" := Obj(map["backgroundColor" := Str("$color")])];
            WorkingTree(options) == options
  {
    var options := map["container" := Obj(map["backgroundColor" := Str("$color")])];
    assert VariablesOf(options) == map[];
    assert ResidualOf(options) == options;
    ReplaceWithoutVariables(Obj(options));
  }

  /** Extending merges the properties of a style group. */
  lemma ExtendMergesGroups()
    ensures MergeOver(map["merged" := Obj(map["fontWeight" := Str("bold")])],
                      map["merged" := Obj(map["fontSize" := Num(14.0)])]) ==
            map["merged" := Obj(map["fontSize" := Num(14.0), "fontWeight" := Str("bold")])]
  {
    var inner := MergeOver(map["fontWeight" := Str("bold")], map["fontSize" := Num(14.0)]);
    assert inner == map["fontSize" := Num(14.0), "fontWeight" := Str("bold")];
  }

  /** Extending overrides a property both sides define. */
  lemma ExtendOverridesProperties()
    ensures MergeOver(map["container" := Obj(map["fontSize" := Num(22.0)])],
                      map["container" := Obj(map["fontSize" := Num(32.0)])]) ==
            map["container" := Obj(map["fontSize" := Num(22.0)])]
  {
    var inner := MergeOver(map["fontSize" := Num(22.0)], map["fontSize" := Num(32.0)]);
    assert inner == map["fontSize" := Num(22.0)];
  }

  // The stylesheet of the chained-extension test and its two extensions.
  const Base: Tree := map["$color" := Str("#ff0000"), "container" := Obj(map["fontSize" := Num(12.0)])]
  const First: Tree := map[
    "$color2" := Str("#00ff00"),
    "container" := Obj(map["fontWeight" := Str("bold")]),
    "centered" := Obj(map["justifyContent" := Str("center")])]
  const Second: Tree := map[
    "$color" := Str("#00ffff"),
    "$color3" := Str("#ffffff"),
    "container" := Obj(map["fontSize" := Num(24.0)])]

  /** The raw options after the first extension: the inherited and the new
      variable, and the new group beside the inherited one. */
  lemma FirstExtension()
    ensures var middle := MergeOver(First, Base);
            && "$color" in middle && middle["$color"] == Str("#ff0000")
            && "$color2" in middle && middle["$color2"] == Str("#00ff00")
            && "centered" in middle && middle["centered"] == Obj(map["justifyContent" := Str("center")])
  {
  }

  /** The `container` group after the first extension: the inherited
      `fontSize` beside the new `fontWeight`. */
  lemma FirstExtensionContainer()
    ensures var middle := MergeOver(First, Base);
            "container" in middle && middle["container"] == Obj(map["fontSize" := Num(12.0), "fontWeight" := Str("bold")])
  {
    var container := MergeOver(map["fontWeight" := Str("bold")], map["fontSize" := Num(12.0)]);
    assert container == map["fontSize" := Num(12.0), "fontWeight" := Str("bold")];
  }

  /** The variables of the raw options after the second extension. */
  lemma SecondExtensionVariables()
    ensures var final := MergeOver(Second, MergeOver(First, Base));
            && "$color" in final && final["$color"] == Str("#00ffff")
            && "$color2" in final && final["$color2"] == Str("#00ff00")
            && "$color3" in final && final["$color3"] == Str("#ffffff")
  {
    FirstExtension();
  }

  /** The `container` group after the second extension: the latest
      `fontSize` beside the inherited `fontWeight`. */
  lemma SecondExtensionContainer()
    ensures var final := MergeOver(Second, MergeOver(First, Base));
            "container" in final && final["container"] == Obj(map["fontSize" := Num(24.0), "fontWeight" := Str("bold")])
  {
    FirstExtensionContainer();
    var middle := MergeOver(First, Base);
    var container := MergeOver(map["fontSize" := Num(24.0)], middle["container"].fields);
    assert container == map["fontSize" := Num(24.0), "fontWeight" := Str("bold")];
    assert MergeOver(Second, middle)["container"] == Obj(container);
  }

  /** The `centered` group after the second extension, inherited as it is. */
  lemma SecondExtensionCentered()
    ensures var final := MergeOver(Second, MergeOver(First, Base));
            "centered" in final && final["centered"] == Obj(map["justifyContent" := Str("center")])
  {
    FirstExtension();
  }

  /** Two extensions in a row accumulate variables from every link, the
      latest value winning. */
  lemma ExtendTwiceVariables()
    ensures var final := MergeOver(Second, MergeOver(First, Base));
            && "$color" in VariablesOf(final) && VariablesOf(final)["$color"] == Str("#00ffff")
            && "$color2" in VariablesOf(final) && VariablesOf(final)["$color2"] == Str("#00ff00")
            && "$color3" in VariablesOf(final) && VariablesOf(final)["$color3"] == Str("#ffffff")
  {
    SecondExtensionVariables();
  }

  /** Two extensions in a row accumulate style groups from every link, the
      latest value winning, and the groups reach the registrar unchanged. */
  lemma ExtendTwiceGroups()
    ensures var final := MergeOver(Second, MergeOver(First, Base));
            && "container" in WorkingTree(final)
            && WorkingTree(final)["container"] == Obj(map["fontSize" := Num(24.0), "fontWeight" := Str("bold")])
            && "centered" in WorkingTree(final)
            && WorkingTree(final)["centered"] == Obj(map["justifyContent" := Str("center")])
  {
    SecondExtensionContainer();
    SecondExtensionCentered();
    var final := MergeOver(Second, MergeOver(First, Base));
    var vars := VariablesOf(final);
    var rest := ResidualOf(final);
    ReplaceWithoutReferences(vars, rest["container"]);
    ReplaceWithoutReferences(vars, rest["centered"]);
  }

  /** A client of the class: `extend()` gives a new instance with the
      parent's variables and styles, and `create` deletes the argument's
      variable entries in place. */
  method ExtendWithoutOptions() returns (args: JsObject, parent: ExtensibleStyleSheet, child: ExtensibleStyleSheet)
    ensures args.entries == map["container" := Obj(map["fontSize" := Num(12.0)])]
    ensures parent.Valid() && child.Valid() && child != parent
    ensures child.variables == parent.variables && child.styles == parent.styles
    ensures child.Get("$color") == Some(Str("#00FF00"))
    ensures child.Get("container") == Some(Obj(map["fontSize" := Num(12.0)]))
  {
    var options := map["$color" := Str("#00FF00"), "container" := Obj(map["fontSize" := Num(12.0)])];
    SplitsColorAndContainer(options);
    args := new JsObject(options);
    parent := ExtensibleStyleSheet.Create(args, t => t);
    child := parent.Extend(map[]);
  }

  /** How `ExtendWithoutOptions`' argument splits: one variable, and one group
      that reaches the registrar as it is. */
  lemma SplitsColorAndContainer(options: Tree)
    requires options == map["$color" := Str("#00FF00"), "container" := Obj(map["fontSize" := Num(12.0)])]
    ensures VariablesOf(options) == map["$color" := Str("#00FF00")]
    ensures ResidualOf(options) == map["container" := Obj(map["fontSize" := Num(12.0)])]
    ensures WorkingTree(options) == map["container" := Obj(map["fontSize" := Num(12.0)])]
  {
    assert ResidualOf(options) == map["container" := options["container"]];
    ReplaceWithoutReferences(VariablesOf(options), options["container"]);
  }

  /** A client of the class: `extend` adds a new variable beside the
      inherited one and overrides a variable of the same name. */
  method ExtendWithVariables() returns (parent: ExtensibleStyleSheet, child: ExtensibleStyleSheet)
    ensures child.Valid() && child != parent
    ensures child.Get("$color") == Some(Str("#0000FF"))
    ensures child.Get("$baseColor") == Some(Str("#0F0F0F"))
  {
    var args := new JsObject(map["$baseColor" := Str("#0F0F0F"), "$color" := Str("#000000")]);
    parent := ExtensibleStyleSheet.Create(args, t => t);
    assert parent.variables == map["$baseColor" := Str("#0F0F0F"), "$color" := Str("#000000")];
    child := parent.Extend(map["$color" := Str("#0000FF")]);
    OverrideVariable();
  }

  /** The variable table of `ExtendWithVariables`' child: the override
      beside the inherited variable. */
  lemma OverrideVariable()
    ensures var merged := MergeOver(VariablesOf(map["$color" := Str("#0000FF")]),
                                    map["$baseColor" := Str("#0F0F0F"), "$color" := Str("#000000")]);
            && "$color" in merged && merged["$color"] == Str("#0000FF")
            && "$baseColor" in merged && merged["$baseColor"] == Str("#0F0F0F")
  {
    assert VariablesOf(map["$color" := Str("#0000FF")]) == map["$color" := Str("#0000FF")];
  }
}
