# makeStyles: style resolution and class-name queries, modelled in Dafny

This project models the runtime of `makeStyles` in `react-theme-provider`.
A caller describes a component's styles as a list of definitions. Each
definition is `[matchers, styles, resolvedStyles?]`: an optional object of
variant matchers (`{primary: true}`), a style object or a function of the
theme tokens, and, once computed, the compiled declarations. The closure
returned by `makeNonReactStyles` answers a query `(selectors, {rtl, tokens,
target}, ...classNames)` with a class string. To do that it:

1. resolves every definition. Nested selectors are flattened into
   `selector + property` keys, and each string or number leaf becomes a hashed
   class name with its CSS.
2. assigns every matcher `name + value` pair of the list its own bit
   (`1 << i`) and turns each definition's matchers, and the query's
   selectors, into a bit mask.
3. keeps the definitions whose bits are 0 or share a bit with the query's
   mask.
4. merges what it kept, later definitions winning. Classes the target's cache
   already knows are merged last, as overrides.
5. hands the merge to `insertStyles`, and memoises the answer per mask and
   override names.

When the browser supports CSS variables, style functions receive a proxy over
the tokens, and a leaf read through it yields `var(--theme-a-b-c)`. Without
CSS variables, the compiled result of each style function is cached in a
global graph keyed by `[tokens, styleFunction]`.

Modules, one per part of `packages/react-theme-provider/src/makeStyles.ts`:

- `JsValues` (js_values.dfy): the JavaScript values the code inspects.
  - Objects are sequences of own properties; a read takes the last entry with
    the key. An array or a string is read by decimal index, and has `length`.
  - `isObject` is modelled here.
  - `'' + x` is modelled as `JsText`.
- `Selectors` (selectors.dfy): `isNestedSelector` and
  `normalizeNestedProperty`.
- `ThemeProxy` (theme_proxy.dfy): `createCSSVariablesProxy`, written as a
  function from an access path to what the read yields.
- `PathGraph` (path_graph.dfy): `graphGet` and `graphSet`.
  - The nested `Map`s are flattened to a map from key paths to slots.
  - The `PathStore` class holds the mutable graph.
- `Declarations` (declarations.dfy): `resolveStyles`.
  - Its traversal is the function `Flatten`, which yields the leaves in
    order.
  - Its writes into `result` are the function `Apply`.
  - The recursive methods `ResolveStyles` and `ResolveProperty` are proved
    equal to `Apply` of `Flatten`.
- `Matchers` (matchers.dfy): `matchersToBits`'s table construction,
  `selectorsToBits`, and the mask filter `m === 0 || !!(m & mask)`.
  - `1 << i` is modelled with 32-bit wrap-around.
  - `&` is modelled on `ToUint32` values.
- `Variants` (variants.dfy): `resolveStylesToClasses`.
  - The definition list is the `DefinitionList` class, which owns its
    lazily built `mapping`.
  - The module state (the environment flags and the graph) is the `Runtime`
    class.
  - One callback of `definitions.map` is the function `Step`, and a whole
    call is `ResolveAll`.
- `ClassNames` (class_names.dfy): the `classNames.forEach` that separates
  pass-through class names from overrides found in the target's cache.
- `Query` (query.dfy): the parts that make up a query.
  - `createTarget` and its registry of renderers.
  - The selection reduce, `Object.assign`, and the `cxCache` memo.
  - The whole closure: the `StyleQuery` class, specified by the function
    `Call`.

`hashString`, `expand`, `convertProperty`, `compileCSS` and `insertStyles`
are outside the file. They are the fields of the `Collaborators` datatype,
and everything is proved for every choice of them. The only assumption is
that `expand` does not deepen a style object.

### Behaviours of the source the model keeps and exhibits

These behaviours follow from the code as written. The model keeps them, and a
lemma shows each one.

- **A graph hit drops the styles** (`Variants.FallbackRepeatDropsStyles`). On
  a graph hit, `resolveStylesToClasses` returns `[matchers, resolvedStyles]`.
  The compiled styles are then in slot 1, and the consumer reads slot 2. So
  without CSS variables, a second call with the same tokens contributes
  nothing from a style function's definition.
- **Bits re-converted to 0** (`Variants.ReconvertedBitsMatchAll`). A graph miss
  hands the definition's slot 0 to `matchersToBits` again. If that slot
  already holds bits, the number is converted to 0, because `for...in` over a
  number enumerates nothing. The definition then matches every query.
- **Pass-through names lose their spaces** (`ClassNames.PassThroughRunTogether`).
  Pass-through class names are concatenated without separators, so
  `"x y"` becomes `"xy"`.
- **A cache hit repeats the prefix** (`Query.RepeatedCallRepeatsPrefix`). On a
  `cxCache` hit, `nonMakeClasses` is prepended to a cached string that already
  begins with it.
- **A token named `value` is hidden** (`ThemeProxy.ValueKeyShadowed`,
  `ThemeProxy.ShadowedValueExample`, `ThemeProxy.ShadowedValueHidesChildren`).
  The copy a proxy makes sets `value` to the path string, so below the root a
  token key named `value` always reads as a variable reference. For
  `{a: {value: {b: 'red'}}}`, `a.value` gives `var(--theme-a-value)` and
  `a.value.b` is a read on a string, outside the proxy.
- **Non-object tokens throw** (`Query.Call`, `Query.CallFails`). In
  development with CSS variables, `new Proxy(tokens, g)` throws a TypeError
  when `tokens` is not an object.
- **Ambiguous cache keys** (`JsValues.IntToStringConcatAmbiguous`). The key
  `selectorsMask + '' + overridesHash` runs the mask's digits into the
  override names, so mask 1 with names `2x` and mask 12 with name `x` share
  a key. Names that do not begin with a digit keep keys apart
  (`JsValues.IntToStringPrefixFree`).
- **Raw definitions in production** (`Query.Prepared`). In production with CSS
  variables the definition list is read as it is. A definition whose slot 0
  is still a matcher object therefore never matches (`Matchers.Matches`), and
  a list without a `mapping` turns every non-empty query into a TypeError
  (`Query.CallFails`).

## Model

| member | source | states |
|---|---|---|
| Selectors.NestedSelectorFirstChar | packages/react-theme-provider/src/makeStyles.ts:97-101 | a property name is a nested selector iff it is non-empty and starts with `:`, `[`, `>` or `&` |
| Selectors.NormalizeNestedProperty | packages/react-theme-provider/src/makeStyles.ts:103-109 | a name starting with `&` loses exactly that character (putting it back gives the input); any other name is returned unchanged |
| Selectors.NormalizeRemovesOnlyOne | packages/react-theme-provider/src/makeStyles.ts:103-109 | `&&x` normalises to `&x`: only one ampersand is removed |
| JsValues.Get | packages/react-theme-provider/src/makeStyles.ts:115-116 | a property read that is not undefined returns the value of an own entry with that key |
| JsValues.IsObject | packages/react-theme-provider/src/makeStyles.ts:44-46 | a value is an object for `isObject` iff it is neither null, undefined, a string, a number, a boolean nor an array |
| JsValues.GetMissing | packages/react-theme-provider/src/makeStyles.ts:115-116 | reading a key no entry has gives undefined |
| JsValues.ArrayIndexRead | packages/react-theme-provider/src/makeStyles.ts:115 | `a[i]` on an array reads item `i` |
| JsValues.ArrayHasNoValue | packages/react-theme-provider/src/makeStyles.ts:116 | an array has no property `value`, so array tokens start with an empty path prefix |
| JsValues.GetLastEntry | packages/react-theme-provider/src/makeStyles.ts:115-116 | reading a key gives the value of its last entry |
| JsValues.NatToString | packages/react-theme-provider/src/makeStyles.ts:332 | the decimal rendering of a mask, used as the start of the cache key, is non-empty and made of digits only |
| JsValues.IntToString | packages/react-theme-provider/src/makeStyles.ts:332 | the rendering of a number begins with `-` iff it is negative |
| JsValues.NatToStringRoundTrip | packages/react-theme-provider/src/makeStyles.ts:332 | reading the digits of the rendering back gives the number |
| JsValues.IntToStringPrefixFree | packages/react-theme-provider/src/makeStyles.ts:331-332 | two cache keys `mask + names` are equal only for equal masks and equal names, when neither name string begins with a digit |
| JsValues.IntToStringConcatAmbiguous | packages/react-theme-provider/src/makeStyles.ts:331-332 | mask 1 with names `2x` and mask 12 with names `x` give the same cache key |
| PathGraph.PathStore.constructor | packages/react-theme-provider/src/makeStyles.ts:59 | the graph starts as an empty Map |
| PathGraph.Lookup | packages/react-theme-provider/src/makeStyles.ts:62-72 | the empty path gives the root Map; a node found along a non-empty path is the one stored under that path |
| PathGraph.Walk | packages/react-theme-provider/src/makeStyles.ts:63-69 | a node found from `here` along `rest` is the one stored under `here + rest` |
| PathGraph.SetFrom | packages/react-theme-provider/src/makeStyles.ts:75-91 | when the set succeeds the path holds the value |
| PathGraph.PathStore.Get | packages/react-theme-provider/src/makeStyles.ts:62-72 | `graphGet` walks the key path through nested Maps and gives the node found, or undefined at the first missing key, or a TypeError when a stored value sits where a Map is needed |
| PathGraph.PathStore.Set | packages/react-theme-provider/src/makeStyles.ts:75-91 | `graphSet` creates each missing intermediate Map, keeps existing ones, and sets the last key to the value, replacing whatever subtree it held; it reports the TypeError when a stored value sits on the path |
| PathGraph.Replace | packages/react-theme-provider/src/makeStyles.ts:90 | after `map.set(key, v)` the key holds `v`, everything that hung below it is gone, and every other entry is kept |
| PathGraph.SetFromFrame | packages/react-theme-provider/src/makeStyles.ts:75-91 | `graphSet` changes nothing outside the subtree of the node it starts from |
| PathGraph.GraphSetFrame | packages/react-theme-provider/src/makeStyles.ts:75-91 | `graphSet` from the root leaves every path that is neither a prefix of the target path nor below it as it was |
| PathGraph.SetFromAside | packages/react-theme-provider/src/makeStyles.ts:75-91 | from an intermediate node, every path that is neither on the remaining route nor below the target keeps its slot |
| PathGraph.GetAfterSet | packages/react-theme-provider/src/makeStyles.ts:62-91 | `graphGet(g, p)` after `graphSet(g, p, v)` gives `v`, unless the set threw |
| PathGraph.SetFromSucceeds | packages/react-theme-provider/src/makeStyles.ts:76-88 | `graphSet` cannot throw along a path whose prefixes hold Maps or nothing |
| PathGraph.MissingPrefixGivesUndefined | packages/react-theme-provider/src/makeStyles.ts:63-68 | `graphGet` gives undefined as soon as a key along the path is missing |
| ThemeProxy.GetAppended | packages/react-theme-provider/src/makeStyles.ts:116 | the spread copy `{...o, value: p}` reads `p` for `value` and what `o` has for every other key |
| ThemeProxy.ProxyGet | packages/react-theme-provider/src/makeStyles.ts:114-120 | `get` gives a proxy iff the key holds an object, whose copy has `value` = prefix + `-key`; otherwise `var(--theme` + prefix + `-key)` |
| ThemeProxy.ProxyRead | packages/react-theme-provider/src/makeStyles.ts:111-124 | the empty read is the proxy over the tokens; a read past a non-object first key is outside the proxy |
| ThemeProxy.WalkAppend | packages/react-theme-provider/src/makeStyles.ts:114-120 | reading a path in two parts is reading the second part from where the first ends |
| ThemeProxy.ValueKeyShadowed | packages/react-theme-provider/src/makeStyles.ts:116 | below the root, a path that continues past a key named `value` on an object path is outside the proxy, whatever the tokens hold there |
| ThemeProxy.ReachObject | packages/react-theme-provider/src/makeStyles.ts:114-116 | an object path from a root without `value` leads to a proxy whose `value` is a string |
| ThemeProxy.ValueThenMore | packages/react-theme-provider/src/makeStyles.ts:116-119 | on such a proxy, reading `value` and then more keys is outside the proxy |
| ThemeProxy.ShadowedValueExample | packages/react-theme-provider/src/makeStyles.ts:114-119 | on `{a: {value: {b: 'red'}}}`, `a.value` reads as `var(--theme-a-value)` |
| ThemeProxy.ArrayTokensExample | packages/react-theme-provider/src/makeStyles.ts:111-124 | on array tokens `[{a: 1}]`, `0` gives a proxy and `0.a` reads as `var(--theme-0-a)` |
| ThemeProxy.ShadowedValueHidesChildren | packages/react-theme-provider/src/makeStyles.ts:114-119 | on the same tokens, `a.value.b` is outside the proxy |
| ThemeProxy.StepIntoObject | packages/react-theme-provider/src/makeStyles.ts:115-116 | reading an object-valued key gives a proxy over a copy whose `value` is the old path prefix plus `-key` |
| ThemeProxy.ProxyLeafIsVariable | packages/react-theme-provider/src/makeStyles.ts:111-124 | on a token tree (an object or an array) whose root has no `value`, reading `k1...kn` along objects yields `var(--theme-k1-...-kn)` when `kn` is not an object or is named `value` |
| ThemeProxy.ProxyIntermediateCarriesPath | packages/react-theme-provider/src/makeStyles.ts:114-116 | reading an object-valued path yields another proxy whose target carries `-k1-...-kn` as its `value` |
| ThemeProxy.WalkToLeaf | packages/react-theme-provider/src/makeStyles.ts:114-119 | from any target with prefix `pre` whose own `value` is not an object, a read along objects ending at a non-object or at `value` yields `var(--theme` + `pre-k1-...-kn` + `)` |
| ThemeProxy.WalkToObject | packages/react-theme-provider/src/makeStyles.ts:114-116 | from any target with prefix `pre`, an object path yields a proxy whose prefix is `pre-k1-...-kn` |
| ThemeProxy.LookupThroughCopy | packages/react-theme-provider/src/makeStyles.ts:116 | a leaf path of the original (objects, then a non-object or `value`) is one through the copy |
| ThemeProxy.CopyKeepsObjectPath | packages/react-theme-provider/src/makeStyles.ts:116 | an object path of the original remains one through the copy |
| Declarations.Declaration | packages/react-theme-provider/src/makeStyles.ts:152-169 | the class name is `a` + hash(selector + property + value) and the CSS is compiled under it; the RTL CSS is present iff the conversion changes the key or the value, and is compiled with class `r` + className |
| Declarations.Flatten | packages/react-theme-provider/src/makeStyles.ts:132-180 | every write of `resolveStyles` is for a string or number leaf whose selector extends the selector passed in |
| Declarations.FlattenProps | packages/react-theme-provider/src/makeStyles.ts:136-177 | the writes of the property loop are all for primitive leaves under the current selector |
| Declarations.PropLeaves | packages/react-theme-provider/src/makeStyles.ts:137-176 | defined as: nothing for null, undefined, booleans, arrays and non-selector objects, the nested tree's writes under `selector + normalised name`, one write for a string or number; its contract states that every write is a string or number leaf whose selector extends `selector` |
| Declarations.FlattenPropsAppend | packages/react-theme-provider/src/makeStyles.ts:136-177 | the writes for a sequence of properties are those for each part in order |
| Declarations.ResolveStyles | packages/react-theme-provider/src/makeStyles.ts:132-180 | the result object is `result` with the declarations of the flattened leaves written in traversal order |
| Declarations.ResolveProperty | packages/react-theme-provider/src/makeStyles.ts:136-177 | one property's callback writes exactly that property's leaves into the result |
| Declarations.FlattenPropsStep | packages/react-theme-provider/src/makeStyles.ts:136-177 | handling property `i` extends the writes of properties before it by that property's writes |
| Declarations.Resolve | packages/react-theme-provider/src/makeStyles.ts:132 | `resolveStyles(styles)` with the default empty selector and a fresh result object |
| Declarations.ApplyKeys | packages/react-theme-provider/src/makeStyles.ts:155-168 | the keys of the result are the initial keys plus `selector + property` of every leaf, and no others |
| Declarations.ApplyLastWriteWins | packages/react-theme-provider/src/makeStyles.ts:166-168 | the value under a key is the declaration of the last leaf with that key |
| Declarations.ApplyUntouched | packages/react-theme-provider/src/makeStyles.ts:166-168 | a key no leaf writes keeps its initial presence and value |
| Declarations.ResolvedEntriesAreLeaves | packages/react-theme-provider/src/makeStyles.ts:132-180 | every entry of the compiled map is the declaration of some primitive leaf of the tree with that merge key |
| Declarations.LastWriter | packages/react-theme-provider/src/makeStyles.ts:166-168 | every written key has a last leaf that writes it |
| Declarations.ApplyTwo | packages/react-theme-provider/src/makeStyles.ts:166-168 | two writes give the two declarations, the second replacing the first on a shared key |
| Declarations.HoverExample | packages/react-theme-provider/src/makeStyles.ts:132-180 | `{color: 'red', '&:hover': {color: 'blue'}}` compiles to exactly the keys `color` and `:hovercolor`, with classes `a` + hash(`colorred`) and `a` + hash(`:hovercolorblue`) |
| Declarations.ExampleLeaves | packages/react-theme-provider/src/makeStyles.ts:132-180 | that tree's writes are `color: red` at the root, then `color: blue` under `:hover` |
| Declarations.HoverSelector | packages/react-theme-provider/src/makeStyles.ts:141-147 | `&:hover` is a nested selector and becomes the prefix `:hover` |
| Matchers.PairKeys | packages/react-theme-provider/src/makeStyles.ts:195 | every matcher pair is keyed by `'' + name + value` |
| Matchers.Shl1 | packages/react-theme-provider/src/makeStyles.ts:197 | `1 << i` is a signed 32-bit integer |
| Matchers.Shl1Bits | packages/react-theme-provider/src/makeStyles.ts:197 | `1 << i` as unsigned is `2^(i mod 32)`, and it is negative iff `i mod 32` is 31 |
| Matchers.BuildTable | packages/react-theme-provider/src/makeStyles.ts:184-200 | the table gives the matcher pairs of all definitions in order `1 << 0`, `1 << 1`, ... with one counter across definitions; `null` matchers add no pair |
| Matchers.TableIsPowerTable | packages/react-theme-provider/src/makeStyles.ts:184-200 | with at most 31 pairs the table gives distinct keys distinct single bits, each that of the key's last occurrence |
| Matchers.AssignBitsValues | packages/react-theme-provider/src/makeStyles.ts:193-199 | a key gets `2^(position of its last occurrence)`; keys not among the pairs keep their value |
| Matchers.SelectorsToBits | packages/react-theme-provider/src/makeStyles.ts:210-221 | the mask is the sum of the registered bits of the selector pairs, with 0 for each unregistered pair |
| Matchers.UnregisteredContributeNothing | packages/react-theme-provider/src/makeStyles.ts:215-217 | pairs the table does not know give mask 0; `{}` gives 0 |
| Matchers.BitSetOfAnd | packages/react-theme-provider/src/makeStyles.ts:342 | the 1-bits of `a & b` are exactly the common 1-bits of `a` and `b` |
| Matchers.BitAnd | packages/react-theme-provider/src/makeStyles.ts:342 | `a & b` on unsigned values is at most each operand |
| Matchers.Matches | packages/react-theme-provider/src/makeStyles.ts:342 | only a definition with compiled bits can match, and bits 0 match every mask |
| Matchers.SumBitsPositions | packages/react-theme-provider/src/makeStyles.ts:210-221 | the sum of registered bits of distinct pairs has exactly their positions as 1-bits, and stays below `2^31` |
| Matchers.MaskMatching | packages/react-theme-provider/src/makeStyles.ts:342 | a definition with compiled bits is selected iff none of its pairs is registered or it shares a registered pair with the query's selectors |
| Matchers.ThemeExample | packages/react-theme-provider/src/makeStyles.ts:182-221 | with `{theme: 'dark'}` as the only matcher: it gets bit 1, a `dark` query selects it, a `light` query does not, and a `null`-matcher definition is selected by both |
| Variants.Slots | packages/react-theme-provider/src/makeStyles.ts:187 | slot 0 of each definition, in order |
| Variants.DefinitionList.constructor | packages/react-theme-provider/src/makeStyles.ts:183 | a new definition list has no `mapping` |
| Variants.DefinitionList.MatchersToBits | packages/react-theme-provider/src/makeStyles.ts:182-208 | the table is built from the list as it is now only if absent, and kept otherwise; `null` gives 0, an object the sum of its pairs' bits, a number 0; the definitions are not changed |
| Variants.ShapedLookup | packages/react-theme-provider/src/makeStyles.ts:251-252 | on a graph holding only `[tokens, styles]` paths, `graphGet` finds the stored map or gives undefined, and never throws |
| Variants.ShapedSet | packages/react-theme-provider/src/makeStyles.ts:262 | `graphSet` on such a graph adds the tokens Map if needed, stores the map under it, never throws, and keeps the graph in that shape |
| Variants.Step | packages/react-theme-provider/src/makeStyles.ts:224-276 | one callback appends exactly one entry; it changes only definition `i` and never its style source; the graph only grows and keeps its shape |
| Variants.Passes | packages/react-theme-provider/src/makeStyles.ts:224-276 | the callbacks for `i..n` append one entry per definition, leave the definitions before `i` and every style source unchanged, and only grow the graph |
| Variants.Runtime.constructor | packages/react-theme-provider/src/makeStyles.ts:52-59 | the module state holds the CSS-variables flag and an empty graph |
| Variants.Runtime.ResolveStylesToClasses | packages/react-theme-provider/src/makeStyles.ts:223-282 | the new definitions, table, graph and returned entries are those of the callbacks run in order, and `resolvedStyles.mapping` is the list's table |
| Variants.Runtime.ResolveOne | packages/react-theme-provider/src/makeStyles.ts:224-276 | the callback for definition `i`: reuse slot 2 or a graph hit, or else convert the matchers, compile, and store in slot 2 (or in the graph for a style function without CSS variables) |
| Variants.SettledStep | packages/react-theme-provider/src/makeStyles.ts:234-268 | a definition whose styles are already cached changes nothing and returns its cached entry |
| Variants.StepSettles | packages/react-theme-provider/src/makeStyles.ts:239-274 | after its callback a definition's styles are cached, in slot 2 or in the graph for its tokens |
| Variants.ResolveAllSettles | packages/react-theme-provider/src/makeStyles.ts:223-282 | after a call every definition's styles are cached |
| Variants.SettledPasses | packages/react-theme-provider/src/makeStyles.ts:224-276 | over settled definitions the callbacks change no state and return the cached entries |
| Variants.RepeatedCall | packages/react-theme-provider/src/makeStyles.ts:223-282 | a second call (any tokens with CSS variables, the same tokens without) changes nothing and returns the cached entries |
| Variants.CssVariablesStable | packages/react-theme-provider/src/makeStyles.ts:231-245 | with CSS variables a second call, with any tokens, returns exactly what the first returned and changes nothing |
| Variants.CssVariablesEntries | packages/react-theme-provider/src/makeStyles.ts:231-245 | with CSS variables every entry returned is `[slot 0, null, slot 2]` of the updated definition |
| Variants.FallbackRepeatDropsStyles | packages/react-theme-provider/src/makeStyles.ts:254-255 | without CSS variables, a repeated call returns a style function's definition with no styles in slot 2 |
| Variants.FallbackMissCompiles | packages/react-theme-provider/src/makeStyles.ts:258-264 | a graph miss stores the compiled styles under `[tokens, styles]` and returns them in slot 2, without touching the definition's own slot 2 |
| Variants.ReconvertedBitsMatchAll | packages/react-theme-provider/src/makeStyles.ts:259 | a graph miss on a definition whose slot 0 already holds bits resets them to 0, which every mask selects |
| Variants.MappingBuiltOnce | packages/react-theme-provider/src/makeStyles.ts:183-201 | a call keeps an existing table; an absent one stays absent or is built from slot 0 of the definitions as they were when the call began (its bits: `Matchers.TableIsPowerTable`) |
| Variants.PassesMapping | packages/react-theme-provider/src/makeStyles.ts:183-201 | the table after the callbacks is the one before (possibly still absent), or the one built from the original definitions |
| ClassNames.Split | packages/react-theme-provider/src/makeStyles.ts:317 | `split(' ')` always yields at least one piece |
| ClassNames.SplitJoin | packages/react-theme-provider/src/makeStyles.ts:317 | joining the pieces with spaces gives the string back, and no piece holds a space |
| ClassNames.JoinSplit | packages/react-theme-provider/src/makeStyles.ts:317 | splitting a space-join of space-free pieces gives the pieces back |
| ClassNames.SortPiecesRoute | packages/react-theme-provider/src/makeStyles.ts:317-324 | the pass-through string is the unknown pieces run together, and the override names are the known pieces run together, each in order |
| ClassNames.Classes | packages/react-theme-provider/src/makeStyles.ts:315-326 | the pass-through string is the unknown pieces of the string class names run together, the override names the known ones |
| ClassNames.OverriddenKeys | packages/react-theme-provider/src/makeStyles.ts:318-319 | a property key is overridden iff some piece names a cached declaration for it |
| ClassNames.LastOverrideWins | packages/react-theme-provider/src/makeStyles.ts:319 | the override for a key is the declaration named by the last piece for that key |
| ClassNames.OverrideKept | packages/react-theme-provider/src/makeStyles.ts:319 | pieces that do not name a key leave its override as it was |
| ClassNames.ClassesAreSpaceFree | packages/react-theme-provider/src/makeStyles.ts:315-326 | the pass-through and override strings hold no space |
| ClassNames.PassThroughRunTogether | packages/react-theme-provider/src/makeStyles.ts:322 | the pass-through names `x y` come out as `xy` |
| ClassNames.SortClassNames | packages/react-theme-provider/src/makeStyles.ts:315-326 | the nested loops compute the split into pass-through names, overrides and override names of `Classes` |
| Query.Renderer.constructor | packages/react-theme-provider/src/makeStyles.ts:33 | a new renderer has an empty cache and index 0 |
| Query.Registry.constructor | packages/react-theme-provider/src/makeStyles.ts:19 | no document has a renderer yet |
| Query.Registry.CreateTarget | packages/react-theme-provider/src/makeStyles.ts:21-38 | a document's existing renderer is returned and nothing changes; otherwise a fresh empty renderer is registered for it and returned |
| Query.Selected | packages/react-theme-provider/src/makeStyles.ts:339-347 | the selected indices are increasing, all selected, and include every index whose bits are 0 or meet the mask |
| Query.MatchedAreSelected | packages/react-theme-provider/src/makeStyles.ts:339-347 | the reduce keeps slot 2 of exactly the selected entries, in order |
| Query.MatchDefinitions | packages/react-theme-provider/src/makeStyles.ts:339-347 | the reduce loop computes the matched list |
| Query.Matched | packages/react-theme-provider/src/makeStyles.ts:339-347 | the reduce keeps at most one item per entry |
| Query.Merge | packages/react-theme-provider/src/makeStyles.ts:349 | every override is in the merge with its own value |
| Query.AssignKeys | packages/react-theme-provider/src/makeStyles.ts:349 | a key of `Object.assign` comes from the target or from some non-undefined source |
| Query.AssignLastWins | packages/react-theme-provider/src/makeStyles.ts:349 | the value is the last source's with that key |
| Query.AssignKeepsTarget | packages/react-theme-provider/src/makeStyles.ts:349 | a key no source has keeps the target's value |
| Query.MergeOrder | packages/react-theme-provider/src/makeStyles.ts:349 | overrides win; any other key is present iff a matched definition has it, with the value of the last one that does |
| Query.MaskOf | packages/react-theme-provider/src/makeStyles.ts:329 | the mask is the selectors' bit sum when the table exists; without one, `{}` gives 0 and any selector is a TypeError |
| Query.Prepared | packages/react-theme-provider/src/makeStyles.ts:297-303 | in production with CSS variables the raw definitions are read; otherwise they are resolved with the proxy (development with CSS variables) or the tokens; one entry per definition either way |
| Query.Response | packages/react-theme-provider/src/makeStyles.ts:329-354 | defined as: a TypeError without a mask, a `cxCache` hit with CSS variables returning pass-through + cached, otherwise the inserted merge cached and returned; its contract states that the definitions, table and graph are untouched |
| Query.Call | packages/react-theme-provider/src/makeStyles.ts:291-355 | one call keeps the graph holding only `[tokens, styles]` paths; in development with CSS variables, non-object tokens give a TypeError and change nothing |
| Query.StyleQuery.constructor | packages/react-theme-provider/src/makeStyles.ts:289 | the closure starts with an empty `cxCache` |
| Query.StyleQuery.Prepare | packages/react-theme-provider/src/makeStyles.ts:294-303 | `resolvedStyles` and its mapping are those of `Prepared` on the current state |
| Query.StyleQuery.Answer | packages/react-theme-provider/src/makeStyles.ts:329-354 | the answer and the new `cxCache` and renderer are those of `Response` |
| Query.StyleQuery.Query | packages/react-theme-provider/src/makeStyles.ts:291-355 | the answer and the new list, table, graph, `cxCache` and renderer are those of `Call` on the old state |
| Query.CallFails | packages/react-theme-provider/src/makeStyles.ts:301-329 | a call fails only when the proxy cannot be built over the tokens, or the list has no table and the query has selectors; otherwise, with a table, every call answers |
| Query.ResponseFails | packages/react-theme-provider/src/makeStyles.ts:329-354 | the answer is a TypeError iff there is no mask |
| Query.CachedCallInsertsNothing | packages/react-theme-provider/src/makeStyles.ts:334-337 | with CSS variables, a known cache key returns pass-through + cached (or the proxy's TypeError) and leaves the renderer and `cxCache` as they were |
| Query.RepeatedCallRepeatsPrefix | packages/react-theme-provider/src/makeStyles.ts:331-352 | with CSS variables, a repeat of a successful call with the same selectors, tokens and class names changes nothing, whatever its `rtl` and whatever target whose cache sorts the names the same way; its answer is the first one if that was a hit, else the first answer with the pass-through names prepended again |
| Query.PreparedStable | packages/react-theme-provider/src/makeStyles.ts:297-303 | with CSS variables, preparing the list it leaves behind gives the same result again |
| Query.ResponseAgain | packages/react-theme-provider/src/makeStyles.ts:331-352 | a second answer for the same mask and class split, on any target and either direction, comes from `cxCache` and changes nothing |
| Query.ProductionReadsSettledList | packages/react-theme-provider/src/makeStyles.ts:297-303 | once every definition has slot 2, production reads give what development resolution gives |

## Left out

- The `<style>` node `createTarget` creates and appends (lines 28-31) is left out: the model has no DOM, and a renderer is its cache and index.
- Documents, tokens objects and style functions are abstract ids. `WeakMap` and `Map` identity, and garbage collection, are not modelled.
- `canUseCSSVariables` (line 52) and `process.env.NODE_ENV` (line 297) are constants of a `Runtime`, fixed when it is built.
- The functions the file imports are arbitrary total functions, parameters of every result: `hashString`, `expand`, `convertProperty`, `compileCSS`, and `insertStyles` with the renderer state it reads and writes. Their own behaviour is not part of this model.
- Numbers are integers. Fractional numbers, `NaN` and infinities, together with their string forms, are left out.
- The key order of objects is left out. `Object.keys` puts integer-like keys first; the model enumerates properties in the order given, and lets a later duplicate shadow an earlier one on read.
- Properties inherited through a prototype are left out, except the `length` of an array or a string: a key such as `constructor` is treated as absent, in `mapping`, `cxCache`, the renderer cache and the tokens alike.
- Matchers.MaskMatching: proved only for at most 31 matcher pairs with distinct `name + value` keys. Past that, `1 << i` wraps and distinct pairs can share a bit; that case is modelled but no lemma describes it.
- `makeStyles` and `defaultTarget` (lines 358-369) are left out. They bind fixed options around the closure and call `createTarget(document)`, which the model covers as `Query.Registry.CreateTarget`.
- The proxy is modelled by what its reads give. Each read creates a new Proxy object, and the identity of those objects is not modelled. A style function is an arbitrary function of what it receives (`Variants.TokenArg`: the tokens object, or the proxy over it). The proxy's reads are modelled and proved separately in `ThemeProxy` and are not used in resolution.
- Declarations.Flatten: when `expand` returns something that is not a plain object, the model writes nothing. In JavaScript `Object.keys` throws on null and undefined, and enumerates the indices of a string or an array, whose characters or items would then be handled as properties. Only a definition's top-level styles can be such a value, since nested calls receive objects. The thrown error and the index properties are not modelled.
- Query.StyleQuery.Query: the selectors are a sequence of name/value pairs. A `for...in` over a non-object `selectors` value is not modelled.
- Query.Call: its own contract states only that the graph keeps its shape. Its meaning is carried by `Query.Response`, `Query.Prepared` and the lemmas about it.
