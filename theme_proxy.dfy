/**
  `createCSSVariablesProxy`: a view of a token tree in which reading a leaf
  through the access path `a.b.c` yields `var(--theme-a-b-c)` instead of the
  token's value.  Each intermediate read returns a new proxy over a copy of the
  token sub-object that also carries the accumulated path in its `value`
  property.  The proxy is modelled as a function of the access path.
 */
module ThemeProxy {
  import opened JsValues

  /** What a property read on the proxy gives. */
  datatype ProxyView =
    | Proxied(target: Value)   // another proxy, over this target
    | Text(s: string)          // the CSS variable reference
    | Outside                  // a read on a string the proxy already returned

  /** `target.value ?? ''` */
  function PathPrefix(target: Value): string {
    var v := Lookup(target, "value");
    if IsNullish(v) then "" else JsText(v)
  }

  /** The proxy's `get` trap for one property read. */
  function ProxyGet(target: Value, key: string): (r: ProxyView)
    ensures r.Proxied? <==> IsObject(Lookup(target, key))
    ensures r.Proxied? ==> Lookup(r.target, "value") == Str(PathPrefix(target) + "-" + key)
    ensures r.Text? ==> r.s == VarRef(PathPrefix(target) + "-" + key)
  {
    var child := Lookup(target, key);
    if IsObject(child) then
      var extra := ("value", Str(PathPrefix(target) + "-" + key));
      GetAppended(child.entries, extra, "value");
      Proxied(Obj(child.entries + [extra]))
    else
      Text(VarRef(PathPrefix(target) + "-" + key))
  }

  /** The CSS custom-property reference `var(--theme<path>)`. */
  function VarRef(path: string): string {
    "var(--theme" + path + ")"
  }

  /** Reading `proxy.k1.k2...kn` on the proxy built over `tokens`. */
  function ProxyRead(tokens: Value, path: seq<string>): (r: ProxyView)
    ensures path == [] ==> r == Proxied(tokens)
    ensures |path| > 1 && !IsObject(Lookup(tokens, path[0])) ==> r == Outside
  {
    if path == [] then Proxied(tokens)
    else ProxyWalk(ProxyGet(tokens, path[0]), path[1..])
  }

  function ProxyWalk(view: ProxyView, path: seq<string>): ProxyView
    decreases |path|
  {
    if path == [] then view
    else
      match view
      case Proxied(t) => ProxyWalk(ProxyGet(t, path[0]), path[1..])
      case _ => Outside
  }

  /** `k1 + "-" + k2 + ... + "-" + kn` */
  function JoinDash(path: seq<string>): string
    decreases |path|
  {
    if path == [] then "" else if |path| == 1 then path[0] else path[0] + "-" + JoinDash(path[1..])
  }

  /** The underlying token object reached by `path`, every step of which is an object. */
  predicate ObjectPath(tokens: Value, path: seq<string>)
    decreases |path|
  {
    path == [] || (path[0] != "value" && IsObject(Lookup(tokens, path[0])) &&
                   ObjectPath(Lookup(tokens, path[0]), path[1..]))
  }

  function Follow(tokens: Value, path: seq<string>): Value
    decreases |path|
  {
    if path == [] then tokens else Follow(Lookup(tokens, path[0]), path[1..])
  }

  /** Appending `value` to a target hides only that key. */
  lemma GetAppended(entries: seq<(string, Value)>, extra: (string, Value), key: string)
    ensures Get(entries + [extra], key) == if key == extra.0 then extra.1 else Get(entries, key)
  {
    assert (entries + [extra])[..|entries|] == entries;
  }

  /** The last read of `path` lands on a key that is not object-valued: either the key is
      `value`, which every proxy copy below the root overwrites with its path string, or the
      token there is not an object.  Every key before it is object-valued and not `value`. */
  predicate LeafPath(target: Value, path: seq<string>)
    requires |path| > 0
  {
    var init, last := path[..|path| - 1], path[|path| - 1];
    ObjectPath(target, init) && (last == "value" || !IsObject(Lookup(Follow(target, init), last)))
  }

  /** The generalised walk: from a target whose path prefix is `pre`, a leaf read yields the variable. */
  lemma {:induction false} WalkToLeaf(target: Value, pre: string, path: seq<string>)
    requires |path| > 0
    requires PathPrefix(target) == pre && !IsObject(Lookup(target, "value"))
    requires LeafPath(target, path)
    ensures ProxyWalk(Proxied(target), path) == Text(VarRef(pre + "-" + JoinDash(path)))
    decreases |path|
  {
    var k := path[0];
    if |path| == 1 {
      assert path[..0] == [];
      assert ProxyWalk(Proxied(target), path) == ProxyWalk(ProxyGet(target, k), []);
    } else {
      var init := path[..|path| - 1];
      assert init[0] == k && init[1..] == path[1..][..|path[1..]| - 1];
      var pre' := pre + "-" + k;
      var next := StepIntoObject(target, pre, k);
      assert ProxyWalk(Proxied(target), path) == ProxyWalk(Proxied(next), path[1..]);
      LookupThroughCopy(Lookup(target, k), pre', path[1..]);
      WalkToLeaf(next, pre', path[1..]);
      DashAssoc(pre, path);
    }
  }

  /** The copy the proxy makes exposes the same object paths and leaves as the original. */
  lemma {:induction false} LookupThroughCopy(child: Value, pre: string, rest: seq<string>)
    requires child.Obj? && |rest| > 0
    requires LeafPath(child, rest)
    ensures LeafPath(Obj(child.entries + [("value", Str(pre))]), rest)
  {
    var copy := Obj(child.entries + [("value", Str(pre))]);
    GetAppended(child.entries, ("value", Str(pre)), rest[0]);
    if |rest| > 1 {
      assert rest[..|rest| - 1][0] == rest[0];
      assert Lookup(copy, rest[0]) == Lookup(child, rest[0]);
      assert Follow(copy, rest[..|rest| - 1]) == Follow(child, rest[..|rest| - 1]);
    } else {
      assert rest[..0] == [];
    }
  }

  /** Reading `k1...kn` through the proxy, with `k1..k(n-1)` object-valued and `kn` a leaf or
      `value`, yields `var(--theme-k1-...-kn)`, provided the token root has no `value` property. */
  lemma ProxyLeafIsVariable(tokens: Value, path: seq<string>)
    requires |path| > 0
    requires IsNullish(Lookup(tokens, "value"))
    requires LeafPath(tokens, path)
    ensures ProxyRead(tokens, path) == Text(VarRef("-" + JoinDash(path)))
  {
    RootPrefix(tokens);
    ReadIsWalk(tokens, path);
    WalkToLeaf(tokens, "", path);
    assert "" + "-" == "-";
  }

  lemma RootPrefix(tokens: Value)
    requires IsNullish(Lookup(tokens, "value"))
    ensures PathPrefix(tokens) == ""
  {
  }

  /** An intermediate read returns another proxy carrying the accumulated path. */
  lemma {:induction false} ProxyIntermediateCarriesPath(tokens: Value, path: seq<string>)
    requires |path| > 0
    requires IsNullish(Lookup(tokens, "value"))
    requires ObjectPath(tokens, path)
    ensures ProxyRead(tokens, path).Proxied?
    ensures Lookup(ProxyRead(tokens, path).target, "value") == Str("-" + JoinDash(path))
    ensures PathPrefix(ProxyRead(tokens, path).target) == "-" + JoinDash(path)
  {
    RootPrefix(tokens);
    ReadIsWalk(tokens, path);
    WalkToObject(tokens, "", path);
    assert "" + "-" == "-";
  }

  lemma {:induction false} WalkToObject(target: Value, pre: string, path: seq<string>)
    requires |path| > 0
    requires PathPrefix(target) == pre
    requires ObjectPath(target, path)
    ensures ProxyWalk(Proxied(target), path).Proxied?
    ensures Lookup(ProxyWalk(Proxied(target), path).target, "value") == Str(pre + "-" + JoinDash(path))
    ensures PathPrefix(ProxyWalk(Proxied(target), path).target) == pre + "-" + JoinDash(path)
    decreases |path|
  {
    var k := path[0];
    var pre' := pre + "-" + k;
    var next := StepIntoObject(target, pre, k);
    assert ProxyWalk(Proxied(target), path) == ProxyWalk(Proxied(next), path[1..]);
    if |path| > 1 {
      GetAppended(Lookup(target, k).entries, ("value", Str(pre')), path[1]);
      CopyKeepsObjectPath(Lookup(target, k), pre', path[1..]);
      WalkToObject(next, pre', path[1..]);
      DashAssoc(pre, path);
    }
  }

  /** One read of an object-valued key: a proxy whose path prefix grew by `-key`. */
  lemma StepIntoObject(target: Value, pre: string, key: string) returns (next: Value)
    requires PathPrefix(target) == pre
    requires IsObject(Lookup(target, key))
    ensures next == Obj(Lookup(target, key).entries + [("value", Str(pre + "-" + key))])
    ensures ProxyGet(target, key) == Proxied(next)
    ensures Lookup(next, "value") == Str(pre + "-" + key)
    ensures PathPrefix(next) == pre + "-" + key
  {
    next := Obj(Lookup(target, key).entries + [("value", Str(pre + "-" + key))]);
    GetAppended(Lookup(target, key).entries, ("value", Str(pre + "-" + key)), "value");
  }

  lemma DashAssoc(pre: string, path: seq<string>)
    requires |path| > 1
    ensures pre + "-" + path[0] + "-" + JoinDash(path[1..]) == pre + "-" + JoinDash(path)
  {
    var a, b, j := pre + "-", path[0], JoinDash(path[1..]);
    assert JoinDash(path) == b + "-" + j;
    AppendAssoc(a, b, "-");
    AppendAssoc(a, b + "-", j);
  }

  lemma AppendAssoc<T>(x: seq<T>, y: seq<T>, z: seq<T>)
    ensures (x + y) + z == x + (y + z)
  {
  }

  lemma CopyKeepsObjectPath(child: Value, pre: string, rest: seq<string>)
    requires child.Obj? && |rest| > 0
    requires ObjectPath(child, rest)
    ensures ObjectPath(Obj(child.entries + [("value", Str(pre))]), rest)
  {
    GetAppended(child.entries, ("value", Str(pre)), rest[0]);
  }

  /** Reading a path in two parts is reading the second part from where the first ends. */
  lemma {:induction false} WalkAppend(view: ProxyView, a: seq<string>, b: seq<string>)
    ensures ProxyWalk(view, a + b) == ProxyWalk(ProxyWalk(view, a), b)
    decreases |a|
  {
    if a == [] {
      assert a + b == b;
    } else {
      assert (a + b)[0] == a[0] && (a + b)[1..] == a[1..] + b;
      match view
      case Proxied(t) =>
        WalkAppend(ProxyGet(t, a[0]), a[1..], b);
      case _ =>
    }
  }

  /** Below the root, a token key named `value` is hidden by the path string of the proxy's
      copy: reading it yields a variable reference even when the token there is an object, so
      any further read falls outside the proxy. */
  lemma ValueKeyShadowed(tokens: Value, path: seq<string>, j: nat)
    requires IsNullish(Lookup(tokens, "value"))
    requires j + 1 < |path| && path[j] == "value" && ObjectPath(tokens, path[..j])
    ensures ProxyRead(tokens, path) == Outside
  {
    var init, tail := path[..j], path[j..];
    assert init + tail == path;
    ReadIsWalk(tokens, path);
    WalkAppend(Proxied(tokens), init, tail);
    var t := ReachObject(tokens, init);
    assert |tail| > 1 && tail[0] == "value";
    ValueThenMore(t, tail);
  }

  lemma ReadIsWalk(tokens: Value, path: seq<string>)
    ensures ProxyRead(tokens, path) == ProxyWalk(Proxied(tokens), path)
  {
  }

  /** The view an object path from the root leads to: a proxy whose `value` is not an object. */
  lemma ReachObject(tokens: Value, path: seq<string>) returns (t: Value)
    requires IsNullish(Lookup(tokens, "value")) && ObjectPath(tokens, path)
    ensures ProxyWalk(Proxied(tokens), path) == Proxied(t) && !IsObject(Lookup(t, "value"))
  {
    if path == [] {
      t := tokens;
    } else {
      RootPrefix(tokens);
      WalkToObject(tokens, "", path);
      t := ProxyWalk(Proxied(tokens), path).target;
    }
  }

  /** Reading `value` on a proxy whose `value` is not an object gives a string; reading on is
      outside the proxy. */
  lemma ValueThenMore(t: Value, rest: seq<string>)
    requires |rest| > 1 && rest[0] == "value" && !IsObject(Lookup(t, "value"))
    ensures ProxyWalk(Proxied(t), rest) == Outside
  {
    assert ProxyWalk(Proxied(t), rest) == ProxyWalk(ProxyGet(t, "value"), rest[1..]);
  }

  function ShadowTokens(): Value {
    Obj([("a", Obj([("value", Obj([("b", Str("red"))]))]))])
  }

  /** For `{a: {value: {b: 'red'}}}`, `a.value` reads as `var(--theme-a-value)` although the token
      there is an object, */
  lemma ShadowedValueExample()
    ensures ProxyRead(ShadowTokens(), ["a", "value"]) == Text("var(--theme-a-value)")
  {
    var path := ["a", "value"];
    ShadowLeaf();
    ProxyLeafIsVariable(ShadowTokens(), path);
    ShadowVarRef();
  }

  lemma ShadowVarRef()
    ensures VarRef("-" + JoinDash(["a", "value"])) == "var(--theme-a-value)"
  {
    assert ["a", "value"][1..] == ["value"];
    assert JoinDash(["value"]) == "value";
    assert "a" + "-" + "value" == "a-value";
    assert "-" + "a-value" == "-a-value";
    assert "var(--theme" + "-a-value" + ")" == "var(--theme-a-value)";
  }

  lemma ShadowLeaf()
    ensures IsNullish(Lookup(ShadowTokens(), "value")) && LeafPath(ShadowTokens(), ["a", "value"])
  {
    var t := ShadowTokens();
    assert Lookup(t, "value") == Undefined;
    assert ["a", "value"][..1] == ["a"];
    assert ObjectPath(t, ["a"]) by { assert ["a"][1..] == []; }
  }

  /** and `a.value.b` is not a read on the proxy at all. */
  lemma ShadowedValueHidesChildren()
    ensures ProxyRead(ShadowTokens(), ["a", "value", "b"]) == Outside
  {
    var t := ShadowTokens();
    assert Lookup(t, "value") == Undefined;
    assert ["a", "value", "b"][..1] == ["a"];
    assert ObjectPath(t, ["a"]) by { assert ["a"][1..] == []; }
    ValueKeyShadowed(t, ["a", "value", "b"], 1);
  }

  function ArrayTokens(): Value {
    Arr([Obj([("a", Num(1))])])
  }

  /** Array tokens are read by index: on `[{a: 1}]`, `0` gives a proxy and `0.a` reads as
      `var(--theme-0-a)`. */
  lemma ArrayTokensExample()
    ensures ProxyRead(ArrayTokens(), ["0"]).Proxied?
    ensures ProxyRead(ArrayTokens(), ["0", "a"]) == Text("var(--theme-0-a)")
  {
    var t := ArrayTokens();
    ArrayHasNoValue(t.items);
    ArrayIndexRead(t.items, 0);
    assert NatToString(0) == "0";
    ArrayLeaf();
    ProxyIntermediateCarriesPath(t, ["0"]);
    ProxyLeafIsVariable(t, ["0", "a"]);
    ArrayVarRef();
  }

  lemma ArrayLeaf()
    ensures ObjectPath(ArrayTokens(), ["0"]) && LeafPath(ArrayTokens(), ["0", "a"])
  {
    var t := ArrayTokens();
    ArrayIndexRead(t.items, 0);
    assert NatToString(0) == "0";
    assert ["0", "a"][..1] == ["0"];
    assert ["0"][1..] == [];
    assert Follow(t, ["0"]) == Obj([("a", Num(1))]);
  }

  lemma ArrayVarRef()
    ensures VarRef("-" + JoinDash(["0", "a"])) == "var(--theme-0-a)"
  {
    assert ["0", "a"][1..] == ["a"];
    assert JoinDash(["a"]) == "a";
    assert "0" + "-" + "a" == "0-a";
    assert "-" + "0-a" == "-0-a";
    assert "var(--theme" + "-0-a" + ")" == "var(--theme-0-a)";
  }
}
