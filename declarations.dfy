/**
  `resolveStyles`: flattening a nested style object into a map from
  `selector + property` to the compiled declaration `[className, css]` or
  `[className, css, rtlCss]`.  The helpers it relies on (shorthand expansion,
  hashing, RTL conversion, CSS text generation) and the style-insertion routine
  are not part of this model; they are the fields of `Collaborators`.
 */
module Declarations {
  import opened Wrappers
  import opened JsValues
  import opened Selectors

  /** One compiled declaration: `[className, css]`, or `[className, css, rtlCss]`. */
  datatype Compiled = Compiled(className: string, css: string, rtlCss: Option<string>)

  /** The object `resolveStyles` fills: merge key to compiled declaration. */
  type CompiledMap = map<string, Compiled>

  /** A renderer's insertion cache: class name to `[propertyKey, declaration]`. */
  type RendererCache = map<string, (string, Compiled)>

  /** `expand` never nests deeper than its input: it only rewrites shorthand leaves. */
  type Expander = f: Value -> Value | forall v :: Depth(f(v)) <= Depth(v)
    witness (v: Value) => v

  /** `convertProperty(name, value)` returns `{key, value}`. */
  datatype RtlConversion = RtlConversion(key: string, value: Value)

  /** What `insertStyles(definitions, rtl, target)` gives back and leaves in the target. */
  datatype Insertion = Insertion(classes: string, cache: RendererCache, index: int)

  datatype Collaborators = Collaborators(
    hash: string -> string,                                // @emotion/hash
    expand: Expander,                                      // inline-style-expand-shorthand
    convertProperty: (string, Value) -> RtlConversion,     // rtl-css-js
    compileCSS: (string, string, string, Value) -> string, // className, selector, property, value
    insertStyles: (CompiledMap, bool, RendererCache, int) -> Insertion)

  const HashPrefix: string := "a"

  /** The declaration `resolveStyles` stores for the primitive `value` of `name` under `selector`. */
  function Declaration(env: Collaborators, selector: string, name: string, value: Value): (r: Compiled)
    ensures r.className == HashPrefix + env.hash(selector + name + JsText(value))
    ensures r.css == env.compileCSS(r.className, selector, name, value)
    ensures var rtl := env.convertProperty(name, value);
            (r.rtlCss.Some? <==> rtl.key != name || rtl.value != value) &&
            (r.rtlCss.Some? ==> r.rtlCss.value == env.compileCSS("r" + r.className, selector, rtl.key, rtl.value))
  {
    var className := HashPrefix + env.hash(selector + name + JsText(value));
    var rtl := env.convertProperty(name, value);
    var css := env.compileCSS(className, selector, name, value);
    if rtl.key != name || rtl.value != value then
      Compiled(className, css, Some(env.compileCSS("r" + className, selector, rtl.key, rtl.value)))
    else
      Compiled(className, css, None)
  }

  /** A primitive leaf of the style tree, with the selector prefix it was reached under. */
  datatype Leaf = Leaf(selector: string, name: string, value: Value) {
    function Key(): string { selector + name }
  }

  /** The leaves of a style tree in traversal order: the writes `resolveStyles` makes. */
  function Flatten(env: Collaborators, styles: Value, selector: string): (r: seq<Leaf>)
    ensures forall i :: 0 <= i < |r| ==> IsPrimitiveLeaf(r[i].value) && selector <= r[i].selector
    decreases Depth(styles), 0, 0
  {
    var expanded := env.expand(styles);
    if expanded.Obj? then
      ObjectDepth(expanded);
      FlattenProps(env, expanded.entries, selector)
    else []
  }

  function FlattenProps(env: Collaborators, entries: seq<(string, Value)>, selector: string): (r: seq<Leaf>)
    ensures forall i :: 0 <= i < |r| ==> IsPrimitiveLeaf(r[i].value) && selector <= r[i].selector
    decreases EntriesDepth(entries), 1, |entries|
  {
    if entries == [] then []
    else PropLeaves(env, entries[0], selector, entries) + FlattenProps(env, entries[1..], selector)
  }

  /** The writes for one property: none for null, undefined, booleans, arrays and objects under a
      key that is not a nested selector; the nested tree's writes for a nested selector; one write
      for a string or number. */
  function PropLeaves(env: Collaborators, prop: (string, Value), selector: string,
                      ghost within: seq<(string, Value)>): (r: seq<Leaf>)
    requires Depth(prop.1) <= EntriesDepth(within) && |within| > 0
    ensures forall i :: 0 <= i < |r| ==> IsPrimitiveLeaf(r[i].value) && selector <= r[i].selector
    decreases EntriesDepth(within), 1, |within|, 0
  {
    var (name, value) := prop;
    if IsNullish(value) then []
    else if IsObject(value) then
      if IsNestedSelector(name) then
        var nested := Flatten(env, value, selector + NormalizeNestedProperty(name));
        PrefixTransitive(selector, selector + NormalizeNestedProperty(name), nested);
        nested
      else []
    else if IsPrimitiveLeaf(value) then [Leaf(selector, name, value)]
    else []
  }

  lemma PrefixTransitive(selector: string, longer: string, leaves: seq<Leaf>)
    requires selector <= longer
    requires forall i :: 0 <= i < |leaves| ==> longer <= leaves[i].selector
    ensures forall i :: 0 <= i < |leaves| ==> selector <= leaves[i].selector
  {
    forall i | 0 <= i < |leaves| ensures selector <= leaves[i].selector {
      assert leaves[i].selector[..|longer|][..|selector|] == leaves[i].selector[..|selector|];
    }
  }

  /** Writing the leaves into `acc` one after another, later writes replacing earlier ones. */
  function Apply(env: Collaborators, acc: CompiledMap, leaves: seq<Leaf>): CompiledMap
    decreases |leaves|
  {
    if leaves == [] then acc
    else
      var l := leaves[0];
      Apply(env, acc[l.Key() := Declaration(env, l.selector, l.name, l.value)], leaves[1..])
  }

  lemma {:induction false} ApplyAppend(env: Collaborators, acc: CompiledMap, a: seq<Leaf>, b: seq<Leaf>)
    ensures Apply(env, acc, a + b) == Apply(env, Apply(env, acc, a), b)
    decreases |a|
  {
    if a != [] {
      var l := a[0];
      assert (a + b)[1..] == a[1..] + b;
      ApplyAppend(env, acc[l.Key() := Declaration(env, l.selector, l.name, l.value)], a[1..], b);
    } else {
      assert a + b == b;
    }
  }

  lemma {:induction false} FlattenPropsAppend(env: Collaborators, a: seq<(string, Value)>, b: seq<(string, Value)>,
                                              selector: string)
    ensures FlattenProps(env, a + b, selector) == FlattenProps(env, a, selector) + FlattenProps(env, b, selector)
    decreases |a|
  {
    if a != [] {
      assert (a + b)[0] == a[0] && (a + b)[1..] == a[1..] + b;
      FlattenPropsAppend(env, a[1..], b, selector);
      PropLeavesWithin(env, a[0], selector, a + b, a);
      var here := PropLeaves(env, a[0], selector, a);
      calc {
        FlattenProps(env, a + b, selector);
        PropLeaves(env, a[0], selector, a + b) + FlattenProps(env, a[1..] + b, selector);
        here + (FlattenProps(env, a[1..], selector) + FlattenProps(env, b, selector));
        (here + FlattenProps(env, a[1..], selector)) + FlattenProps(env, b, selector);
      }
    } else {
      assert a + b == b;
    }
  }

  /** The writes for a property do not depend on which entry list it was found in. */
  lemma PropLeavesWithin(env: Collaborators, prop: (string, Value), selector: string,
                         w1: seq<(string, Value)>, w2: seq<(string, Value)>)
    requires Depth(prop.1) <= EntriesDepth(w1) && |w1| > 0
    requires Depth(prop.1) <= EntriesDepth(w2) && |w2| > 0
    ensures PropLeaves(env, prop, selector, w1) == PropLeaves(env, prop, selector, w2)
  {
  }

  /** `resolveStyles(styles, selector, result)`: walks the expanded properties in order and
      writes each string or number leaf, recursing into nested selectors with the same result. */
  method ResolveStyles(env: Collaborators, styles: Value, selector: string, result: CompiledMap)
    returns (out: CompiledMap)
    ensures out == Apply(env, result, Flatten(env, styles, selector))
    decreases Depth(styles), 1
  {
    var expandedStyles := env.expand(styles);
    out := result;
    if !expandedStyles.Obj? {
      return;
    }
    ObjectDepth(expandedStyles);
    var properties := expandedStyles.entries;
    var i := 0;
    while i < |properties|
      invariant 0 <= i <= |properties|
      invariant out == Apply(env, result, FlattenProps(env, properties[..i], selector))
    {
      ghost var before := out;
      out := ResolveProperty(env, properties[i], selector, out, properties);
      FlattenPropsStep(env, properties, i, selector);
      ApplyAppend(env, result, FlattenProps(env, properties[..i], selector),
                  PropLeaves(env, properties[i], selector, properties));
      i := i + 1;
    }
    assert properties[..i] == properties;
  }

  /** The `forEach` callback of `resolveStyles` for one property. */
  method ResolveProperty(env: Collaborators, prop: (string, Value), selector: string, result: CompiledMap,
                         ghost within: seq<(string, Value)>)
    returns (out: CompiledMap)
    requires Depth(prop.1) <= EntriesDepth(within) && |within| > 0
    ensures out == Apply(env, result, PropLeaves(env, prop, selector, within))
    decreases Depth(prop.1), 2
  {
    var (propName, propValue) := prop;
    out := result;
    if IsNullish(propValue) {
    } else if IsObject(propValue) {
      if IsNestedSelector(propName) {
        out := ResolveStyles(env, propValue, selector + NormalizeNestedProperty(propName), out);
      }
    } else if IsPrimitiveLeaf(propValue) {
      var className := HashPrefix + env.hash(selector + propName + JsText(propValue));
      var css := env.compileCSS(className, selector, propName, propValue);
      var key := selector + propName;
      var rtl := env.convertProperty(propName, propValue);
      var flippedInRtl := rtl.key != propName || rtl.value != propValue;
      if flippedInRtl {
        var rtlCSS := env.compileCSS("r" + className, selector, rtl.key, rtl.value);
        out := out[key := Compiled(className, css, Some(rtlCSS))];
      } else {
        out := out[key := Compiled(className, css, None)];
      }
      assert out == result[key := Declaration(env, selector, propName, propValue)];
      ApplyOne(env, result, Leaf(selector, propName, propValue));
    }
  }

  lemma ApplyOne(env: Collaborators, acc: CompiledMap, l: Leaf)
    ensures Apply(env, acc, [l]) == acc[l.Key() := Declaration(env, l.selector, l.name, l.value)]
  {
    assert [l][1..] == [];
  }

  lemma FlattenPropsStep(env: Collaborators, properties: seq<(string, Value)>, i: nat, selector: string)
    requires i < |properties|
    ensures Depth(properties[i].1) <= EntriesDepth(properties)
    ensures FlattenProps(env, properties[..i + 1], selector) ==
              FlattenProps(env, properties[..i], selector) + PropLeaves(env, properties[i], selector, properties)
  {
    assert properties[..i + 1] == properties[..i] + properties[i..i + 1];
    FlattenPropsAppend(env, properties[..i], properties[i..i + 1], selector);
    assert properties[i..i + 1][1..] == [];
    PropLeavesWithin(env, properties[i], selector, properties[i..i + 1], properties);
  }

  /** What `resolveStyles(styles)` returns: the leaves' declarations written into `{}` in order. */
  function Compile(env: Collaborators, styles: Value): CompiledMap {
    Apply(env, map[], Flatten(env, styles, ""))
  }

  /** `resolveStyles(styles)` with the default empty selector and a fresh result object. */
  method Resolve(env: Collaborators, styles: Value) returns (out: CompiledMap)
    ensures out == Compile(env, styles)
  {
    out := ResolveStyles(env, styles, "", map[]);
  }

  /** Merge key `k` is present after the writes iff it was before or some leaf writes it. */
  lemma {:induction false} ApplyKeys(env: Collaborators, acc: CompiledMap, leaves: seq<Leaf>, k: string)
    ensures k in Apply(env, acc, leaves) <==>
              k in acc || exists i :: 0 <= i < |leaves| && leaves[i].Key() == k
    decreases |leaves|
  {
    if leaves != [] {
      var l := leaves[0];
      ApplyKeys(env, acc[l.Key() := Declaration(env, l.selector, l.name, l.value)], leaves[1..], k);
      if exists i :: 0 <= i < |leaves[1..]| && leaves[1..][i].Key() == k {
        var i :| 0 <= i < |leaves[1..]| && leaves[1..][i].Key() == k;
        assert leaves[i + 1].Key() == k;
      }
      if exists i :: 0 <= i < |leaves| && leaves[i].Key() == k {
        var i :| 0 <= i < |leaves| && leaves[i].Key() == k;
        if i > 0 { assert leaves[1..][i - 1].Key() == k; }
      }
    }
  }

  /** Last write wins: the value under a key is the declaration of the last leaf writing it. */
  lemma {:induction false} ApplyLastWriteWins(env: Collaborators, acc: CompiledMap, leaves: seq<Leaf>, i: nat)
    requires i < |leaves|
    requires forall j :: i < j < |leaves| ==> leaves[j].Key() != leaves[i].Key()
    ensures leaves[i].Key() in Apply(env, acc, leaves)
    ensures Apply(env, acc, leaves)[leaves[i].Key()] ==
              Declaration(env, leaves[i].selector, leaves[i].name, leaves[i].value)
    decreases |leaves|
  {
    var l := leaves[0];
    var acc' := acc[l.Key() := Declaration(env, l.selector, l.name, l.value)];
    var rest := leaves[1..];
    assert Apply(env, acc, leaves) == Apply(env, acc', rest);
    assert forall j :: 0 <= j < |rest| ==> rest[j] == leaves[j + 1];
    if i == 0 {
      ApplyUntouched(env, acc', rest, l.Key());
    } else {
      ApplyLastWriteWins(env, acc', rest, i - 1);
    }
  }

  /** A key no leaf writes keeps whatever `acc` had (or stays absent). */
  lemma {:induction false} ApplyUntouched(env: Collaborators, acc: CompiledMap, leaves: seq<Leaf>, k: string)
    requires forall j :: 0 <= j < |leaves| ==> leaves[j].Key() != k
    ensures k in Apply(env, acc, leaves) <==> k in acc
    ensures k in acc ==> Apply(env, acc, leaves)[k] == acc[k]
    decreases |leaves|
  {
    if leaves != [] {
      var l := leaves[0];
      ApplyUntouched(env, acc[l.Key() := Declaration(env, l.selector, l.name, l.value)], leaves[1..], k);
    }
  }

  /** Every entry `resolveStyles` adds is content-addressed: it is the declaration of a primitive
      leaf whose selector starts with the given prefix and whose selector and name form its key. */
  lemma {:induction false} ResolvedEntriesAreLeaves(env: Collaborators, styles: Value, selector: string, k: string)
    requires k in Apply(env, map[], Flatten(env, styles, selector))
    ensures exists i :: 0 <= i < |Flatten(env, styles, selector)| &&
              var l := Flatten(env, styles, selector)[i];
              l.Key() == k && IsPrimitiveLeaf(l.value) && selector <= l.selector &&
              Apply(env, map[], Flatten(env, styles, selector))[k] == Declaration(env, l.selector, l.name, l.value)
  {
    var leaves := Flatten(env, styles, selector);
    ApplyKeys(env, map[], leaves, k);
    var i :| 0 <= i < |leaves| && leaves[i].Key() == k;
    var last := LastWriter(leaves, k, i);
    ApplyLastWriteWins(env, map[], leaves, last);
  }

  /** The last index writing `k`, at or after a known one. */
  lemma {:induction false} LastWriter(leaves: seq<Leaf>, k: string, i: nat) returns (last: nat)
    requires i < |leaves| && leaves[i].Key() == k
    ensures i <= last < |leaves| && leaves[last].Key() == k
    ensures forall j :: last < j < |leaves| ==> leaves[j].Key() != k
    decreases |leaves| - i
  {
    if exists j :: i < j < |leaves| && leaves[j].Key() == k {
      var j :| i < j < |leaves| && leaves[j].Key() == k;
      last := LastWriter(leaves, k, j);
    } else {
      last := i;
    }
  }

  /** The two-property example `{color: 'red', '&:hover': {color: 'blue'}}` under the empty
      selector yields exactly the keys `color` and `:hovercolor`, with class names hashed from
      `colorred` and `:hovercolorblue`. */
  lemma HoverExample(env: Collaborators)
    requires env.expand(HoverTree()) == HoverTree()
    requires env.expand(ExampleTree()) == ExampleTree()
    ensures var out := Apply(env, map[], Flatten(env, ExampleTree(), ""));
            out.Keys == {"color", ":hovercolor"} &&
            out["color"].className == "a" + env.hash("colorred") &&
            out[":hovercolor"].className == "a" + env.hash(":hovercolorblue") &&
            out[":hovercolor"] == Declaration(env, ":hover", "color", Str("blue"))
  {
    var leaves := ExampleLeaves(env);
    ApplyTwo(env, leaves[0], leaves[1]);
    assert leaves == [leaves[0], leaves[1]];
    ExampleStrings();
  }

  lemma ExampleStrings()
    ensures Leaf("", "color", Str("red")).Key() == "color"
    ensures Leaf(":hover", "color", Str("blue")).Key() == ":hovercolor"
    ensures "" + "color" + JsText(Str("red")) == "colorred"
    ensures ":hover" + "color" + JsText(Str("blue")) == ":hovercolorblue"
  {
  }

  lemma ApplyTwo(env: Collaborators, a: Leaf, b: Leaf)
    ensures Apply(env, map[], [a, b]) ==
              map[a.Key() := Declaration(env, a.selector, a.name, a.value)]
                 [b.Key() := Declaration(env, b.selector, b.name, b.value)]
  {
    var m1 := map[a.Key() := Declaration(env, a.selector, a.name, a.value)];
    assert [a, b][1..] == [b] && [b][1..] == [];
    assert Apply(env, map[], [a, b]) == Apply(env, m1, [b]);
  }

  function HoverTree(): Value { Obj([("color", Str("blue"))]) }

  function ExampleTree(): Value { Obj([("color", Str("red")), ("&:hover", HoverTree())]) }

  lemma ExampleLeaves(env: Collaborators) returns (leaves: seq<Leaf>)
    requires env.expand(HoverTree()) == HoverTree()
    requires env.expand(ExampleTree()) == ExampleTree()
    ensures leaves == Flatten(env, ExampleTree(), "")
    ensures leaves == [Leaf("", "color", Str("red")), Leaf(":hover", "color", Str("blue"))]
  {
    var entries := ExampleTree().entries;
    HoverProp(env);
    ColorProp(env);
    assert FlattenProps(env, entries[1..][1..], "") == [];
    assert FlattenProps(env, entries[1..], "") == [Leaf(":hover", "color", Str("blue"))];
    assert FlattenProps(env, entries, "") == PropLeaves(env, entries[0], "", entries) + FlattenProps(env, entries[1..], "");
    leaves := Flatten(env, ExampleTree(), "");
  }

  /** The `color` property contributes one leaf at the top. */
  lemma ColorProp(env: Collaborators)
    ensures var entries := ExampleTree().entries;
            PropLeaves(env, entries[0], "", entries) == [Leaf("", "color", Str("red"))]
  {
  }

  /** The `&:hover` property contributes the nested tree's leaf under `:hover`. */
  lemma HoverProp(env: Collaborators)
    requires env.expand(HoverTree()) == HoverTree()
    ensures var entries := ExampleTree().entries;
            PropLeaves(env, entries[1], "", entries[1..]) == [Leaf(":hover", "color", Str("blue"))]
  {
    HoverLeaves(env);
    HoverSelector();
  }

  lemma HoverSelector()
    ensures IsNestedSelector("&:hover")
    ensures "" + NormalizeNestedProperty("&:hover") == ":hover"
  {
    assert NestedSelectorPattern[3] <= "&:hover";
  }

  lemma HoverLeaves(env: Collaborators)
    requires env.expand(HoverTree()) == HoverTree()
    ensures Flatten(env, HoverTree(), ":hover") == [Leaf(":hover", "color", Str("blue"))]
  {
    var hoverEntries := HoverTree().entries;
    assert FlattenProps(env, hoverEntries[1..], ":hover") == [];
  }
}
