# Extensible stylesheet, modelled in Dafny

This project models `ExtensibleStyleSheet` (`index.js`), a helper that sits
on top of React Native's `StyleSheet.create`. A style description is a plain
object. Its top-level keys that start with `$` are variables. The
constructor moves them into `_variables` and deletes them from the caller's
object in place. It replaces every leaf that names a truthy variable by that
variable's value, hands the result to the registrar, and copies the
variables and then the registered styles onto the instance. `extend` deep-merges
new options over the instance's raw `_options` into a fresh object and
builds a new instance from it.

Files:

- `values.dfy` (module `Values`): JavaScript values (`Value`: string, number,
  boolean, null, array, other non-plain object, plain object), truthiness,
  the `$` test, and paths into nested plain objects (`Lookup`, `Shadowed`).
- `substitution.dfy` (module `Substitution`): `replaceValues` and its properties.
- `deep_merge.dfy` (module `DeepMerge`): `defaultsDeep({}, options, parent)`
  and its properties.
- `stylesheet.dfy` (module `StyleSheet`): variable extraction, the tree
  handed to the registrar, the instance surface, and the class
  `ExtensibleStyleSheet` with its constructor, `Create`, `Extend` and
  property access `Get`. The caller's argument object is the class
  `JsObject`, and the constructor deletes the variable entries from it.
- `scenarios.dfy` (module `Scenarios`): the behaviours pinned down by
  `test/index.js`, stated on the model.

The registrar (`StyleSheet.create`) is a parameter `register: Tree -> Tree`.
The instance keeps it, so `Extend` registers with the same one, as the
JavaScript module does with its single imported `StyleSheet`. The registrar
is modelled as a deterministic, total function: registering the same tree
twice gives the same result. `Extend` with no options relies on this to
reproduce the parent's styles; a registrar that handed out fresh handles on
each call would not. Most scenarios are lemmas about the tree handed to the
registrar (`WorkingTree`) or about the merged raw options, so no registrar
appears in them. Only the client methods `ExtendWithoutOptions` and
`ExtendWithVariables` build instances, and they pass the identity, which is
how the tests' stand-in registrar behaves. A call with no
argument (`create()`, `new ExtensibleStyleSheet()`, `extend()`) is modelled by
passing an empty object or map.

## Model

| member | source | states |
|---|---|---|
| Substitution.Resolve | index.js:47 | a string leaf naming a variable with a truthy value becomes that value; a falsy variable (`''`, `0`, `false`, `null`) or an undefined name leaves the literal reference |
| Substitution.ReplaceValue | index.js:42-48 | a plain object is walked and comes back as a plain object with the same keys |
| Substitution.ReplaceValues | index.js:41-49 | `mapValues` keeps the key set of the object |
| Substitution.ReplaceAtPath | index.js:41-49 | at every path through plain objects of the input, the output has a plain object with the same keys where the input has one, and the resolved leaf where the input has a leaf; recursion enters plain objects only |
| Substitution.ReplaceAddsNothing | index.js:41-49 | the output has no entry the input lacks, except below a leaf replaced by an object-valued variable |
| Substitution.ReplaceWithoutReferences | index.js:47 | a tree whose leaves name no truthy variable passes through unchanged |
| Substitution.ReplaceWithoutVariables | index.js:41-49 | with an empty variable table every tree passes through unchanged, at every depth |
| Substitution.ReplaceIdempotent | index.js:47 | substitution is one pass: when no variable value holds a reference, substituting again changes nothing |
| Substitution.ReferenceNotResolvedAgain | index.js:47 | a variable whose value names another variable yields that name, not the other variable's value |
| DeepMerge.MergeOver | index.js:38 | the merged object has every key of either side |
| DeepMerge.MergeValue | index.js:38 | the new value wins unless both sides are plain objects, in which case the result is a plain object with the keys of both |
| DeepMerge.MergeNewWins | index.js:38 | a leaf of the new options wins at any depth; a plain object of the new options keeps all its keys |
| DeepMerge.MergeParentFills | index.js:38 | what the parent has where the new options have nothing, and no new leaf hides it, is inherited unchanged at any depth |
| DeepMerge.MergeNested | index.js:38 | where both sides hold plain objects at the same path, the result holds their merge |
| DeepMerge.MergeInventsNothing | index.js:38 | every entry of the result, at any depth, comes from the new options or from the parent |
| DeepMerge.MergeOverNothing | index.js:37-39 | merging nothing over the parent's options gives them back unchanged |
| DeepMerge.MergeSelf | index.js:38 | merging a tree over itself gives it back, at every depth |
| StyleSheet.VariablesOf | index.js:22-25 | the variable table holds exactly the top-level entries whose key starts with `$`, with their original values |
| StyleSheet.ResidualOf | index.js:22-26 | the argument object keeps exactly its entries whose key does not start with `$` |
| StyleSheet.WorkingTree | index.js:29-30 | the tree handed to the registrar has exactly the non-`$` top-level keys, so no variable entry reaches it |
| StyleSheet.SurfaceOf | index.js:34 | the instance exposes the union of variables and registered styles; a registered style wins over a variable of the same name, and a variable that no style shadows keeps its raw value |
| StyleSheet.ExtractionSplits | index.js:19-27 | variables and residual are disjoint and together give back the options |
| StyleSheet.WorkingTreeKeepsNested | index.js:22-30 | every entry under a style group reaches the registrar, including nested `$` keys, which are never extracted |
| StyleSheet.SurfaceSeparates | index.js:30-34 | with a registrar that keeps group names, the instance exposes exactly the options' top-level names: variables raw, groups as registered |
| StyleSheet.VariablesOfMerge | index.js:37-39 | an extension's variable table is the new variables merged over the parent's table |
| StyleSheet.ResidualOfMerge | index.js:37-39 | an extension's style groups are the new groups merged over the parent's groups |
| StyleSheet.ChainedExtension | index.js:37-39 | after two extensions a name is present exactly when some link defines it, the latest leaf wins, and the variable table is the chain of variable tables |
| StyleSheet.ExtensibleStyleSheet.constructor | index.js:16-35 | `_options` is the argument as it was, `_variables` its `$` entries, the argument loses them in place, the registrar receives the substituted residual, and the surface is variables then styles |
| StyleSheet.ExtensibleStyleSheet.Create | index.js:10-12 | `create` builds a fresh instance exactly as the constructor does |
| StyleSheet.ExtensibleStyleSheet.Get | index.js:34 | property access yields the registered style if there is one, else the variable, else nothing |
| StyleSheet.ExtensibleStyleSheet.Extend | index.js:37-39 | a fresh instance built from the new options merged over the raw options, the variable table merged likewise, the parent untouched; with no options it reproduces the parent's variables, styles and surface |
| Scenarios.SubstitutesDefinedReferences | test/index.js:69-89 | `'$color'` and `'$fontSize'` under `container` reach the registrar as their values |
| Scenarios.KeepsUnresolvedReferences | test/index.js:91-103 | an undefined `'$color'` reaches the registrar literally |
| Scenarios.ExtendMergesGroups | test/index.js:153-161 | `{merged:{fontWeight}}` over `{merged:{fontSize}}` gives both properties |
| Scenarios.ExtendOverridesProperties | test/index.js:163-170 | `fontSize: 22` over `fontSize: 32` gives 22 |
| Scenarios.FirstExtension | test/index.js:172-189 | after the first extension both colours and the new `centered` group are present |
| Scenarios.FirstExtensionContainer | test/index.js:172-189 | after the first extension `container` holds the inherited `fontSize` and the new `fontWeight` |
| Scenarios.SecondExtensionVariables | test/index.js:193-207 | after the second extension `$color` is overridden and `$color2`, `$color3` are present |
| Scenarios.SecondExtensionContainer | test/index.js:193-212 | after the second extension `container` is `{fontSize: 24, fontWeight: 'bold'}` |
| Scenarios.SecondExtensionCentered | test/index.js:193-214 | after the second extension `centered` is inherited as it was |
| Scenarios.ExtendTwiceVariables | test/index.js:205-207 | the final variables are `$color='#00ffff'`, `$color2='#00ff00'`, `$color3='#ffffff'` |
| Scenarios.ExtendTwiceGroups | test/index.js:209-214 | the final groups reach the registrar as `container={fontSize:24, fontWeight:'bold'}` and `centered={justifyContent:'center'}` |
| Scenarios.ExtendWithoutOptions | test/index.js:107-122 | `extend()` gives a new instance, distinct from its parent, that inherits `$color`; it also inherits the `container` group `{fontSize: 12}`, as the test at lines 144-151 of the same file expects; `create` has deleted `$color` from the caller's object |
| Scenarios.SplitsColorAndContainer | test/index.js:144-151 | `{$color, container}` splits into the variable `$color` and the group `container`, which reaches the registrar unchanged |
| Scenarios.ExtendWithVariables | test/index.js:124-142 | `extend({$color})` over a parent with `$baseColor` and an older `$color` exposes the new `$color` and the inherited `$baseColor` |
| Scenarios.OverrideVariable | test/index.js:137-142 | a new `$color` overrides the parent's `$color` in the merged variable table, beside the inherited `$baseColor` |

## Left out

- StyleSheet.ExtensibleStyleSheet.constructor: always succeeds, but two inputs make the JavaScript constructor throw. First, the class body is strict code, so `delete options[name]` (index.js:26) throws a `TypeError` when the argument is frozen or sealed and has a `$` key. `JsObject` has no notion of non-configurable properties. Second, a cyclic plain-object style tree makes `replaceValues` (index.js:41-49) recurse until the stack overflows. `Value` is an inductive datatype and cannot be cyclic.
- The registrar `StyleSheet.create` (index.js:2, 30) is a foreign call. It is a parameter, and errors it raises, which propagate to the caller, are not modelled.
- The static forwarding loop (index.js:52-54) copies the registrar namespace's other members onto the class. It is reflection over a foreign object and is not modelled.
- Lookup quirks of `_variables[value]`: an array leaf is turned into a string key (`['$a']` finds `$a`), an object with its own `toString` may do the same, and names inherited from `Object.prototype` such as `'constructor'` resolve to a truthy function. Only string leaves are looked up, in the variable table itself. Numbers, booleans and `null` never turn into a key starting with `$`, so for them this is exact.
- DeepMerge.MergeValue: merges only when both sides are plain objects. lodash `defaultsDeep` recurses whenever both sides are objects of any kind: arrays (merged index by index, or into a plain object on the other side), functions and class instances. So a plain object in the new options over a class instance in the parent picks up the instance's own enumerable properties, and a function in the new options over a plain object in the parent receives that object's properties. In the model every non-plain value (`Arr`, `Opaque`) is a leaf, and the new side replaces it.
- `undefined`, `NaN` and symbol-keyed entries are not values of the model. An explicit `undefined` in the new options would let the parent's value through.
- Key order of JavaScript objects is not modelled; maps are unordered. It affects only enumeration order, not any value.
- Aliasing of nested objects: `_options` is a shallow copy, so its nested objects are shared with the caller's. Values in the model are immutable. In JavaScript, `extend` can write into a shared object: when the new options hold a function or another non-plain object where the parent holds a plain object, `defaultsDeep` copies the parent's properties onto the caller's own object. The model cannot show this side effect.
- `Object.assign` onto the instance can shadow `extend`, `_options` and the other members when a style group uses those names. The surface is kept as a separate map (`surface`, read by `Get`).
