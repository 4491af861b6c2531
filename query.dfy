/**
  The renderer targets and the closure `makeNonReactStyles` returns.  A query
  resolves the definition list (or, in production with CSS variables, reads it
  as it is), splits its extra class names, turns its selectors into a mask,
  keeps slot 2 of every entry the mask selects, merges them with the
  overrides last, and hands the result to `insertStyles`.  With CSS variables
  the returned classes are memoised per mask and override names.

  Documents are abstract ids; the `<style>` node a new target gets is not part
  of this model.
 */
module Query {
  import opened Wrappers
  import opened JsValues
  import opened Declarations
  import opened Matchers
  import opened Variants
  import opened ClassNames

  /** A renderer: its insertion cache and the index of the next rule. */
  class Renderer {
    var cache: RendererCache
    var index: int

    constructor ()
      ensures cache == map[] && index == 0
    {
      cache := map[];
      index := 0;
    }
  }

  /** The `targets` WeakMap, from documents to renderers. */
  class Registry {
    var targets: map<nat, Renderer>

    constructor ()
      ensures targets == map[]
    {
      targets := map[];
    }

    /** `createTarget(document)`: the document's renderer, created empty on first use. */
    method CreateTarget(doc: nat) returns (target: Renderer)
      modifies this
      ensures doc in targets && targets[doc] == target
      ensures doc in old(targets) ==> targets == old(targets) && target == old(targets)[doc]
      ensures doc !in old(targets) ==>
                fresh(target) && target.cache == map[] && target.index == 0 && targets == old(targets)[doc := target]
    {
      if doc in targets {
        return targets[doc];
      }
      target := new Renderer();
      targets := targets[doc := target];
    }
  }

  // ---------------------------------------------------------------------------
  // Selecting and merging.
  // ---------------------------------------------------------------------------

  /** The reduce over resolved entries: slot 2 of every entry the mask selects, in order. */
  function Matched(entries: seq<Entry>, mask: int): (r: seq<Option<CompiledMap>>)
    ensures |r| <= |entries|
    decreases |entries|
  {
    if entries == [] then []
    else
      var last := entries[|entries| - 1];
      Matched(entries[..|entries| - 1], mask) + (if Matches(last.matchers, mask) then [last.styles] else [])
  }

  /** The indices of the selected entries, in increasing order. */
  function Selected(entries: seq<Entry>, mask: int): (r: seq<nat>)
    ensures forall k :: 0 <= k < |r| ==> r[k] < |entries| && Matches(entries[r[k]].matchers, mask)
    ensures forall k, l :: 0 <= k < l < |r| ==> r[k] < r[l]
    ensures forall j :: 0 <= j < |entries| && Matches(entries[j].matchers, mask) ==> j in r
    decreases |entries|
  {
    if entries == [] then []
    else
      var n := |entries| - 1;
      Selected(entries[..n], mask) + (if Matches(entries[n].matchers, mask) then [n] else [])
  }

  /** The matched list is slot 2 of the selected entries, in order: an entry is kept iff its bits
      are 0 or share a bit with the mask. */
  lemma {:induction false} MatchedAreSelected(entries: seq<Entry>, mask: int)
    ensures var m, s := Matched(entries, mask), Selected(entries, mask);
            |m| == |s| && forall k :: 0 <= k < |m| ==> m[k] == entries[s[k]].styles
    decreases |entries|
  {
    if entries != [] {
      var n := |entries| - 1;
      var init := entries[..n];
      MatchedAreSelected(init, mask);
      var m0, s0 := Matched(init, mask), Selected(init, mask);
      var m, s := Matched(entries, mask), Selected(entries, mask);
      if Matches(entries[n].matchers, mask) {
        assert m == m0 + [entries[n].styles] && s == s0 + [n];
      } else {
        assert m == m0 && s == s0;
      }
      forall k | 0 <= k < |m| ensures m[k] == entries[s[k]].styles {
        if k < |m0| {
          assert m[k] == m0[k] && s[k] == s0[k] && init[s0[k]] == entries[s0[k]];
        }
      }
    }
  }

  /** `matchedDefinitions`, with the loop of the reduce. */
  method MatchDefinitions(entries: seq<Entry>, mask: int) returns (acc: seq<Option<CompiledMap>>)
    ensures acc == Matched(entries, mask)
  {
    acc := [];
    var i := 0;
    while i < |entries|
      invariant 0 <= i <= |entries|
      invariant acc == Matched(entries[..i], mask)
    {
      assert entries[..i + 1][..i] == entries[..i];
      var matchersInBits := entries[i].matchers;
      if Matches(matchersInBits, mask) {
        acc := acc + [entries[i].styles];
      } else {
        assert acc + [] == acc;
      }
      i := i + 1;
    }
    assert entries[..i] == entries;
  }

  predicate Has(o: Option<CompiledMap>, k: string) {
    o.Some? && k in o.value
  }

  /** `Object.assign(target, ...sources)`: left to right, `undefined` sources skipped. */
  function Assign(target: CompiledMap, sources: seq<Option<CompiledMap>>): CompiledMap
    decreases |sources|
  {
    if sources == [] then target
    else
      var m := Assign(target, sources[..|sources| - 1]);
      var last := sources[|sources| - 1];
      if last.Some? then m + last.value else m
  }

  /** `Object.assign({}, ...matchedDefinitions, overrides)` */
  function Merge(matched: seq<Option<CompiledMap>>, overrides: CompiledMap): (r: CompiledMap)
    ensures overrides.Keys <= r.Keys && forall k :: k in overrides ==> r[k] == overrides[k]
  {
    Assign(map[], matched) + overrides
  }

  /** A key of the merge comes from the target or some source. */
  lemma {:induction false} AssignKeys(target: CompiledMap, sources: seq<Option<CompiledMap>>, k: string)
    ensures k in Assign(target, sources) <==> k in target || exists j :: 0 <= j < |sources| && Has(sources[j], k)
    decreases |sources|
  {
    if sources != [] {
      var n := |sources| - 1;
      AssignKeys(target, sources[..n], k);
      if !Has(sources[n], k) && exists j :: 0 <= j < |sources| && Has(sources[j], k) {
        var j :| 0 <= j < |sources| && Has(sources[j], k);
        assert sources[..n][j] == sources[j];
      }
    }
  }

  /** The value for a key is the one of the last source that has it. */
  lemma {:induction false} AssignLastWins(target: CompiledMap, sources: seq<Option<CompiledMap>>, k: string, j: nat)
    requires j < |sources| && Has(sources[j], k)
    requires forall j' :: j < j' < |sources| ==> !Has(sources[j'], k)
    ensures var r := Assign(target, sources); k in r && r[k] == sources[j].value[k]
    decreases |sources|
  {
    var n := |sources| - 1;
    if j < n {
      assert !Has(sources[n], k);
      assert sources[..n][j] == sources[j];
      AssignLastWins(target, sources[..n], k, j);
    }
  }

  /** A key no source has keeps the target's value. */
  lemma {:induction false} AssignKeepsTarget(target: CompiledMap, sources: seq<Option<CompiledMap>>, k: string)
    requires forall j :: 0 <= j < |sources| ==> !Has(sources[j], k)
    requires k in target
    ensures var r := Assign(target, sources); k in r && r[k] == target[k]
    decreases |sources|
  {
    if sources != [] {
      var n := |sources| - 1;
      assert !Has(sources[n], k);
      assert forall j :: 0 <= j < n ==> sources[..n][j] == sources[j];
      AssignKeepsTarget(target, sources[..n], k);
    }
  }

  /** Overrides win over every matched definition; any other key comes from the last matched
      definition that has it, and only from one. */
  lemma MergeOrder(matched: seq<Option<CompiledMap>>, overrides: CompiledMap, k: string)
    ensures var r := Merge(matched, overrides);
            && (k in overrides ==> k in r && r[k] == overrides[k])
            && (k !in overrides ==> (k in r <==> exists j :: 0 <= j < |matched| && Has(matched[j], k)))
            && (forall j :: (0 <= j < |matched| && Has(matched[j], k) && k !in overrides &&
                             (forall j' :: j < j' < |matched| ==> !Has(matched[j'], k)))
                  ==> r[k] == matched[j].value[k])
  {
    AssignKeys(map[], matched, k);
    forall j | 0 <= j < |matched| && Has(matched[j], k) && k !in overrides &&
               (forall j' :: j < j' < |matched| ==> !Has(matched[j'], k))
      ensures Merge(matched, overrides)[k] == matched[j].value[k]
    {
      AssignLastWins(map[], matched, k, j);
    }
  }

  // ---------------------------------------------------------------------------
  // One call of the closure.
  // ---------------------------------------------------------------------------

  /** `selectorsToBits(resolvedStyles.mapping, selectors)`: without a table, any selector is a
      TypeError (`undefined[key]`). */
  function MaskOf(mapping: Option<BitTable>, selectors: seq<(string, Value)>): (r: Option<int>)
    ensures r.None? <==> mapping.None? && selectors != []
    ensures mapping.Some? ==> r == Some(SumBits(mapping.value, selectors))
  {
    if mapping.Some? then Some(SumBits(mapping.value, selectors))
    else if selectors == [] then Some(0)
    else None
  }

  /** What a style function receives: the CSS-variables proxy in development when CSS variables
      are available, the tokens object otherwise. */
  function TokensFor(canUse: bool, production: bool, tokens: TokensObject): TokenArg {
    if canUse && !production then Proxy(tokens) else Plain(tokens)
  }

  /** `new Proxy(tokens, g)` throws a TypeError unless `tokens` is an object; the proxy is built
      only in development when CSS variables are available. */
  predicate ProxyThrows(canUse: bool, production: bool, tokens: TokensObject) {
    canUse && !production && !(tokens.value.Obj? || tokens.value.Arr?)
  }

  /** `resolvedStyles`: in production with CSS variables the definition list itself, read as
      prepared at build time; otherwise the result of `resolveStylesToClasses`. */
  function Prepared(env: Collaborators, canUse: bool, production: bool, tokens: TokensObject,
                    defs: seq<Definition>, mapping: Option<BitTable>, graph: Graph): (r: Pass)
    requires WellShaped(graph)
    ensures WellShaped(r.graph) && |r.entries| == |defs|
  {
    if production && canUse then Pass(defs, mapping, graph, SettledEntries(true, defs))
    else ResolveAll(env, canUse, TokensFor(canUse, production, tokens), defs, mapping, graph)
  }

  datatype Outcome = Ok(classes: string) | TypeError

  /** The state a call reads and writes: the definition list and its table, the graph, the
      closure's `cxCache`, and the target renderer. */
  datatype QueryState = QueryState(defs: seq<Definition>, mapping: Option<BitTable>, graph: Graph,
                                   cxCache: map<string, string>, cache: RendererCache, index: int)

  /** One call `(selectors, {rtl, tokens, target}, ...classNames)` of the closure. */
  function Call(env: Collaborators, canUse: bool, production: bool, s: QueryState,
                selectors: seq<(string, Value)>, rtl: bool, tokens: TokensObject,
                classNames: seq<Option<string>>): (r: (Outcome, QueryState))
    requires WellShaped(s.graph)
    ensures WellShaped(r.1.graph)
    ensures ProxyThrows(canUse, production, tokens) ==> r == (TypeError, s)
  {
    if ProxyThrows(canUse, production, tokens) then (TypeError, s)
    else
      var p := Prepared(env, canUse, production, tokens, s.defs, s.mapping, s.graph);
      Response(env, canUse, s.(defs := p.defs, mapping := p.mapping, graph := p.graph),
               p.entries, MaskOf(p.mapping, selectors), Classes(s.cache, classNames), rtl)
  }

  /** The part of a call after resolution: the mask, the `cxCache` lookup, and the insertion. */
  function Response(env: Collaborators, canUse: bool, s: QueryState, entries: seq<Entry>,
                   mask: Option<int>, split: ClassSplit, rtl: bool): (r: (Outcome, QueryState))
    ensures r.1.defs == s.defs && r.1.mapping == s.mapping && r.1.graph == s.graph
  {
    match mask
    case None => (TypeError, s)
    case Some(m) =>
      var key := IntToString(m) + split.overridesCx;
      if canUse && key in s.cxCache then (Ok(split.nonMake + s.cxCache[key]), s)
      else
        var ins := env.insertStyles(Merge(Matched(entries, m), split.overrides), rtl, s.cache, s.index);
        var classes := split.nonMake + ins.classes;
        (Ok(classes), s.(cxCache := s.cxCache[key := classes], cache := ins.cache, index := ins.index))
  }

  /** The closure `makeNonReactStyles(styles)` returns, with its `cxCache`. */
  class StyleQuery {
    const runtime: Runtime
    const list: DefinitionList
    var cxCache: map<string, string>

    constructor (runtime: Runtime, list: DefinitionList)
      ensures this.runtime == runtime && this.list == list && cxCache == map[]
    {
      this.runtime := runtime;
      this.list := list;
      cxCache := map[];
    }

    /** `resolvedStyles` and its `mapping`. */
    method Prepare(tokens: TokensObject) returns (entries: seq<Entry>, mapping: Option<BitTable>)
      requires runtime.Valid()
      modifies list, runtime.graph
      ensures runtime.Valid()
      ensures var p := Prepared(runtime.env, runtime.canUseCSSVariables, runtime.production, tokens,
                                old(list.defs), old(list.mapping), old(runtime.graph.slots));
              Pass(list.defs, list.mapping, runtime.graph.slots, entries) == p && mapping == p.mapping
    {
      if runtime.production && runtime.canUseCSSVariables {
        entries := SettledEntries(true, list.defs);
        mapping := list.mapping;
      } else {
        entries, mapping := runtime.ResolveStylesToClasses(list, TokensFor(runtime.canUseCSSVariables, runtime.production, tokens));
      }
    }

    method Query(selectors: seq<(string, Value)>, rtl: bool, tokens: TokensObject, target: Renderer,
                 classNames: seq<Option<string>>) returns (r: Outcome)
      requires runtime.Valid()
      modifies this, list, runtime.graph, target
      ensures runtime.Valid()
      ensures (r, QueryState(list.defs, list.mapping, runtime.graph.slots, cxCache, target.cache, target.index))
              == Call(runtime.env, runtime.canUseCSSVariables, runtime.production,
                      QueryState(old(list.defs), old(list.mapping), old(runtime.graph.slots),
                                 old(cxCache), old(target.cache), old(target.index)),
                      selectors, rtl, tokens, classNames)
    {
      if ProxyThrows(runtime.canUseCSSVariables, runtime.production, tokens) {
        return TypeError;
      }
      var entries, mapping := Prepare(tokens);
      var split := SortClassNames(target.cache, classNames);
      var mask: Option<int> := Some(0);
      if mapping.Some? {
        var bits := SelectorsToBits(mapping.value, selectors);
        mask := Some(bits);
      } else if |selectors| > 0 {
        mask := None;
      }
      assert mask == MaskOf(mapping, selectors);
      r := Answer(mask, split, rtl, target, entries);
    }

    /** The part of a call after resolution. */
    method Answer(mask: Option<int>, split: ClassSplit, rtl: bool, target: Renderer, entries: seq<Entry>)
      returns (r: Outcome)
      modifies this, target
      ensures (r, QueryState(list.defs, list.mapping, runtime.graph.slots, cxCache, target.cache, target.index))
              == Response(runtime.env, runtime.canUseCSSVariables,
                               QueryState(list.defs, list.mapping, runtime.graph.slots,
                                          old(cxCache), old(target.cache), old(target.index)),
                               entries, mask, split, rtl)
    {
      if mask.None? {
        return TypeError;
      }
      var key := IntToString(mask.value) + split.overridesCx;
      if runtime.canUseCSSVariables && key in cxCache {
        return Ok(split.nonMake + cxCache[key]);
      }
      var matched := MatchDefinitions(entries, mask.value);
      var ins := runtime.env.insertStyles(Merge(matched, split.overrides), rtl, target.cache, target.index);
      target.cache := ins.cache;
      target.index := ins.index;
      var classes := split.nonMake + ins.classes;
      cxCache := cxCache[key := classes];
      r := Ok(classes);
    }
  }

  // ---------------------------------------------------------------------------
  // Properties of a call.
  // ---------------------------------------------------------------------------

  /** A call fails only when the proxy cannot be built over the tokens, or the list never got a
      table and the query has selectors; otherwise every call succeeds. */
  lemma CallFails(env: Collaborators, canUse: bool, production: bool, s: QueryState,
                  selectors: seq<(string, Value)>, rtl: bool, tokens: TokensObject, classNames: seq<Option<string>>)
    requires WellShaped(s.graph)
    ensures Call(env, canUse, production, s, selectors, rtl, tokens, classNames).0 == TypeError ==>
              ProxyThrows(canUse, production, tokens) || (s.mapping.None? && selectors != [])
    ensures s.mapping.Some? && !ProxyThrows(canUse, production, tokens) ==>
              Call(env, canUse, production, s, selectors, rtl, tokens, classNames).0.Ok?
  {
    if !ProxyThrows(canUse, production, tokens) {
      var p := Prepared(env, canUse, production, tokens, s.defs, s.mapping, s.graph);
      if !(production && canUse) {
        MappingBuiltOnce(env, canUse, TokensFor(canUse, production, tokens), s.defs, s.mapping, s.graph);
      }
      ResponseFails(env, canUse, s.(defs := p.defs, mapping := p.mapping, graph := p.graph), p.entries,
                    MaskOf(p.mapping, selectors), Classes(s.cache, classNames), rtl);
    }
  }

  lemma ResponseFails(env: Collaborators, canUse: bool, s: QueryState, entries: seq<Entry>,
                      mask: Option<int>, split: ClassSplit, rtl: bool)
    ensures Response(env, canUse, s, entries, mask, split, rtl).0 == TypeError <==> mask.None?
  {
  }


  /** With CSS variables, a call whose cache key is known returns the pass-through names and the
      cached string without inserting anything. */
  lemma CachedCallInsertsNothing(env: Collaborators, production: bool, s: QueryState,
                                 selectors: seq<(string, Value)>, rtl: bool, tokens: TokensObject,
                                 classNames: seq<Option<string>>)
    requires WellShaped(s.graph)
    requires var p := Prepared(env, true, production, tokens, s.defs, s.mapping, s.graph);
             var m := MaskOf(p.mapping, selectors);
             m.Some? && IntToString(m.value) + Classes(s.cache, classNames).overridesCx in s.cxCache
    ensures var (o, s') := Call(env, true, production, s, selectors, rtl, tokens, classNames);
            var p := Prepared(env, true, production, tokens, s.defs, s.mapping, s.graph);
            var split := Classes(s.cache, classNames);
            && (ProxyThrows(true, production, tokens) ==> o == TypeError && s' == s)
            && (!ProxyThrows(true, production, tokens) ==>
                  o == Ok(split.nonMake + s.cxCache[IntToString(MaskOf(p.mapping, selectors).value) + split.overridesCx]))
            && s'.cache == s.cache && s'.index == s.index && s'.cxCache == s.cxCache
  {
  }

  /** With CSS variables, a second call with the same selectors, tokens and class names is
      answered from `cxCache` and changes nothing, whatever its `rtl` flag and whatever target it
      names, as long as that target's cache sorts the class names the same way: neither is part
      of the cache key.  When the first call inserted, the string it cached already begins with
      the pass-through names, and the second call prepends them once more. */
  lemma RepeatedCallRepeatsPrefix(env: Collaborators, production: bool, s: QueryState,
                                  selectors: seq<(string, Value)>, rtl1: bool, rtl2: bool,
                                  tokens: TokensObject, classNames: seq<Option<string>>,
                                  cache2: RendererCache, index2: int)
    requires WellShaped(s.graph)
    requires Call(env, true, production, s, selectors, rtl1, tokens, classNames).0.Ok?
    requires Classes(cache2, classNames) == Classes(s.cache, classNames)
    ensures var (o1, s1) := Call(env, true, production, s, selectors, rtl1, tokens, classNames);
            var t := s1.(cache := cache2, index := index2);
            var (o2, s2) := Call(env, true, production, t, selectors, rtl2, tokens, classNames);
            var split := Classes(s.cache, classNames);
            var p := Prepared(env, true, production, tokens, s.defs, s.mapping, s.graph);
            var key := IntToString(MaskOf(p.mapping, selectors).value) + split.overridesCx;
            && s2 == t
            && (key in s.cxCache ==> o2 == o1)
            && (key !in s.cxCache ==>
                  o2 == Ok(split.nonMake + o1.classes) && o1.classes[..|split.nonMake|] == split.nonMake)
  {
    var p := Prepared(env, true, production, tokens, s.defs, s.mapping, s.graph);
    PreparedStable(env, production, tokens, s.defs, s.mapping, s.graph);
    var m := MaskOf(p.mapping, selectors);
    var split := Classes(s.cache, classNames);
    var s0 := s.(defs := p.defs, mapping := p.mapping, graph := p.graph);
    assert Call(env, true, production, s, selectors, rtl1, tokens, classNames)
           == Response(env, true, s0, p.entries, m, split, rtl1);
    ResponseAgain(env, s0, p.entries, m.value, split, rtl1, rtl2, cache2, index2);
  }

  /** With CSS variables, the definitions `resolvedStyles` leaves behind give the same result again. */
  lemma PreparedStable(env: Collaborators, production: bool, tokens: TokensObject,
                       defs: seq<Definition>, mapping: Option<BitTable>, graph: Graph)
    requires WellShaped(graph)
    ensures var p := Prepared(env, true, production, tokens, defs, mapping, graph);
            Prepared(env, true, production, tokens, p.defs, p.mapping, p.graph) == p
  {
    if !production {
      CssVariablesStable(env, Proxy(tokens), Proxy(tokens), defs, mapping, graph);
    }
  }

  /** A second answer for the same mask and class split, on any target, comes from `cxCache`. */
  lemma ResponseAgain(env: Collaborators, s: QueryState, entries: seq<Entry>, m: int, split: ClassSplit,
                      rtl1: bool, rtl2: bool, cache2: RendererCache, index2: int)
    ensures var (o1, s1) := Response(env, true, s, entries, Some(m), split, rtl1);
            var t := s1.(cache := cache2, index := index2);
            var (o2, s2) := Response(env, true, t, entries, Some(m), split, rtl2);
            var key := IntToString(m) + split.overridesCx;
            && s2 == t
            && (key in s.cxCache ==> o2 == o1)
            && (key !in s.cxCache ==>
                  o2 == Ok(split.nonMake + o1.classes) && o1.classes[..|split.nonMake|] == split.nonMake)
  {
  }

  /** In production with CSS variables the definitions are read as they are; once every
      definition has its compiled styles in slot 2, that gives what development resolution gives. */
  lemma ProductionReadsSettledList(env: Collaborators, tokens: TokensObject,
                                   defs: seq<Definition>, mapping: Option<BitTable>, graph: Graph)
    requires WellShaped(graph)
    requires forall j :: 0 <= j < |defs| ==> defs[j].resolved.Some?
    ensures Prepared(env, true, true, tokens, defs, mapping, graph) == Prepared(env, true, false, tokens, defs, mapping, graph)
  {
    var p := Pass(defs, mapping, graph, []);
    SettledPasses(env, true, Proxy(tokens), p, 0);
    assert [] + SettledEntries(true, defs)[0..] == SettledEntries(true, defs);
  }
}
