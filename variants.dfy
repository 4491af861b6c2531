/**
  `resolveStylesToClasses`, `matchersToBits` on a definition list, and the
  global `graph` cache they share.  A definition list is `makeNonReactStyles`'s
  argument: an array of `[matchers, styles, resolvedStyles?]` that the resolver
  rewrites in place (slot 0 becomes the matchers' bits, slot 2 the compiled
  styles) and that carries the lazily built `mapping` table.

  Object identities (the tokens object, a style function) are abstract ids.
 */
module Variants {
  import opened Wrappers
  import opened JsValues
  import opened Declarations
  import opened Matchers
  import opened PathGraph

  /** A tokens object as the caller passes it: its identity and its content. */
  datatype TokensObject = TokensObject(id: nat, value: Value)

  /** What a style function receives: the tokens object itself, or the CSS-variables proxy over it. */
  datatype TokenArg = Plain(obj: TokensObject) | Proxy(obj: TokensObject)

  /** Slot 1 of a definition: a style object, or a function of the tokens with its identity. */
  datatype StyleSource = Static(styles: Value) | Dynamic(id: nat, fn: TokenArg -> Value)

  /** `[matchers, styles, resolvedStyles]` */
  datatype Definition = Definition(matchers: MatcherSlot, styles: StyleSource, resolved: Option<CompiledMap>)

  /** One element of the array `resolveStylesToClasses` returns, as its consumer reads it: slot 0
      and slot 2.  On a `graph` hit the source puts the compiled styles in slot 1, which nobody
      reads, and leaves slot 2 undefined. */
  datatype Entry = Entry(matchers: MatcherSlot, styles: Option<CompiledMap>)

  /** The keys of the `graph` paths `[tokens, styles]`. */
  datatype GraphKey = TokensKey(id: nat) | StylesKey(id: nat)

  type Graph = map<seq<GraphKey>, Slot<CompiledMap>>

  function GraphPath(tokens: TokenArg, stylesId: nat): seq<GraphKey> {
    [TokensKey(tokens.obj.id), StylesKey(stylesId)]
  }

  /** `styles(tokens)` for a function, the object itself otherwise. */
  function StylesOf(styles: StyleSource, tokens: TokenArg): Value {
    match styles
    case Static(v) => v
    case Dynamic(_, f) => f(tokens)
  }

  /** Slot 0 of every definition. */
  function Slots(defs: seq<Definition>): (r: seq<MatcherSlot>)
    ensures |r| == |defs| && forall j :: 0 <= j < |defs| ==> r[j] == defs[j].matchers
  {
    seq(|defs|, j requires 0 <= j < |defs| => defs[j].matchers)
  }

  /** The table `matchersToBits` works with: the stored one, or the one it builds from slot 0 of
      the definitions as they are now. */
  function TableFor(defs: seq<Definition>, mapping: Option<BitTable>): BitTable {
    if mapping.Some? then mapping.value else TableOf(Slots(defs))
  }

  /** `matchersToBits` once the table exists: `null` gives 0, an object the sum of its pairs' bits,
      and a number 0, because a `for...in` over a number enumerates nothing. */
  function SlotBits(table: BitTable, slot: MatcherSlot): int {
    match slot
    case NoMatchers => 0
    case Conds(pairs) => SumBits(table, pairs)
    case Bits(_) => SumBits(table, [])
  }

  class DefinitionList {
    var defs: seq<Definition>
    var mapping: Option<BitTable>

    constructor (defs: seq<Definition>)
      ensures this.defs == defs && mapping == None
    {
      this.defs := defs;
      mapping := None;
    }

    /** `matchersToBits(definitions, matchers)`: builds `definitions.mapping` only when it is
        absent, then converts `matchers`. */
    method MatchersToBits(matchers: MatcherSlot) returns (bits: int)
      modifies this
      ensures defs == old(defs)
      ensures mapping == Some(TableFor(old(defs), old(mapping)))
      ensures bits == SlotBits(mapping.value, matchers)
    {
      if mapping.None? {
        var table := BuildTable(Slots(defs));
        mapping := Some(table);
      }
      match matchers
      case NoMatchers =>
        bits := 0;
      case Conds(pairs) =>
        bits := SelectorsToBits(mapping.value, pairs);
      case Bits(_) =>
        bits := SelectorsToBits(mapping.value, []);
    }
  }

  /** The `graph` only ever holds paths `[tokens, styles]`: a Map per tokens object, and under it
      a compiled style map per style function. */
  ghost predicate WellShaped(g: Graph) {
    forall p :: p in g ==>
      (|p| == 1 && g[p] == SubMap) || (|p| == 2 && g[p].Leaf? && p[..1] in g)
  }

  /** On a well-shaped graph, `graphGet(graph, [a, b])` finds the stored map or gives undefined;
      it never calls `.get` on a compiled map. */
  lemma ShapedLookup(g: Graph, a: GraphKey, b: GraphKey)
    requires WellShaped(g)
    ensures PathGraph.Lookup(g, [a, b]) == if [a, b] in g then Found(g[[a, b]]) else Missing
    ensures [a, b] in g ==> g[[a, b]].Leaf?
  {
    assert [] + [a] == [a] && [a] + [b] == [a, b] && [a, b][1..] == [b] && [b][1..] == [];
    if [a] in g {
      assert g[[a]] == SubMap;
      assert PathGraph.Lookup(g, [a, b]) == Walk(g, SubMap, [a], [b]);
      if [a, b] in g {
        assert Walk(g, SubMap, [a], [b]) == Walk(g, g[[a, b]], [a, b], []);
      }
    } else {
      PairNeedsPrefix(g, a, b);
    }
  }

  lemma PairNeedsPrefix(g: Graph, a: GraphKey, b: GraphKey)
    requires WellShaped(g)
    ensures [a, b] in g ==> [a] in g
  {
    assert [a, b][..1] == [a];
  }

  /** On a well-shaped graph, `graphSet(graph, [a, b], v)` adds the Map for `a` if needed and
      stores `v` under it, and the graph stays well-shaped. */
  lemma ShapedSet(g: Graph, a: GraphKey, b: GraphKey, v: CompiledMap)
    requires WellShaped(g)
    ensures SetFrom(g, SubMap, [], [a, b], v) == (SetPair(g, a, b, v), true)
    ensures WellShaped(SetPair(g, a, b, v))
  {
    assert [] + [a] == [a] && [a] + [b] == [a, b] && [a, b][1..] == [b];
    var g1 := if [a] in g then g else g[[a] := SubMap];
    assert g1[[a]] == SubMap;
    ShapedNoExtension(g1, [a, b]);
    ReplaceWithoutExtensions(g1, [a, b], v);
    var g' := SetPair(g, a, b, v);
    forall p | p in g' ensures (|p| == 1 && g'[p] == SubMap) || (|p| == 2 && g'[p].Leaf? && p[..1] in g') {
      if p == [a, b] {
        assert p[..1] == [a];
      }
    }
  }

  /** The graph after `graphSet(graph, [a, b], v)` on a well-shaped graph. */
  function SetPair(g: Graph, a: GraphKey, b: GraphKey, v: CompiledMap): (r: Graph)
    ensures g.Keys <= r.Keys
  {
    (if [a] in g then g else g[[a] := SubMap])[[a, b] := Slot.Leaf(v)]
  }

  lemma ShapedNoExtension(g: Graph, p: seq<GraphKey>)
    requires forall q :: q in g ==> |q| <= 2
    requires |p| == 2
    ensures forall q :: q in g ==> !StrictPrefix(p, q)
  {
  }

  lemma ReplaceWithoutExtensions(g: Graph, p: seq<GraphKey>, v: CompiledMap)
    requires forall q :: q in g ==> !StrictPrefix(p, q)
    ensures Replace(g, p, v) == g[p := Slot.Leaf(v)]
  {
  }

  // ---------------------------------------------------------------------------
  // One call of resolveStylesToClasses, as a function of the state it reads.
  // ---------------------------------------------------------------------------

  /** The definition list, its table and the graph, and the entries returned so far. */
  datatype Pass = Pass(defs: seq<Definition>, mapping: Option<BitTable>, graph: Graph, entries: seq<Entry>)

  /** The callback of `definitions.map` for definition `i`. */
  function Step(env: Collaborators, canUse: bool, tokens: TokenArg, p: Pass, i: nat): (r: Pass)
    requires i < |p.defs| && WellShaped(p.graph)
    ensures |r.defs| == |p.defs| && WellShaped(r.graph)
    ensures |r.entries| == |p.entries| + 1 && r.entries[..|p.entries|] == p.entries
    ensures forall k :: 0 <= k < |p.defs| && k != i ==> r.defs[k] == p.defs[k]
    ensures r.defs[i].styles == p.defs[i].styles
    ensures p.graph.Keys <= r.graph.Keys
    ensures r.mapping == p.mapping || r.mapping == Some(TableFor(p.defs, p.mapping))
    ensures r.mapping.None? ==> r.defs == p.defs
  {
    var d := p.defs[i];
    if canUse then
      if d.resolved.Some? then p.(entries := p.entries + [Entry(d.matchers, d.resolved)])
      else Compiled(env, tokens, p, i)
    else if d.styles.Dynamic? then
      var path := GraphPath(tokens, d.styles.id);
      ShapedLookup(p.graph, path[0], path[1]);
      if PathGraph.Lookup(p.graph, path).Found? then
        p.(entries := p.entries + [Entry(d.matchers, None)])
      else
        var table := TableFor(p.defs, p.mapping);
        var bits := SlotBits(table, d.matchers);
        var compiled := Compile(env, StylesOf(d.styles, tokens));
        ShapedSet(p.graph, path[0], path[1], compiled);
        Pass(p.defs[i := d.(matchers := Bits(bits))], Some(table),
             SetPair(p.graph, path[0], path[1], compiled),
             p.entries + [Entry(Bits(bits), Some(compiled))])
    else if d.resolved.Some? then p.(entries := p.entries + [Entry(d.matchers, d.resolved)])
    else Compiled(env, tokens, p, i)
  }

  /** Converting the matchers of definition `i` and storing its compiled styles in slot 2. */
  function Compiled(env: Collaborators, tokens: TokenArg, p: Pass, i: nat): (r: Pass)
    requires i < |p.defs|
  {
    var d := p.defs[i];
    var table := TableFor(p.defs, p.mapping);
    var bits := SlotBits(table, d.matchers);
    var compiled := Compile(env, StylesOf(d.styles, tokens));
    Pass(p.defs[i := d.(matchers := Bits(bits), resolved := Some(compiled))], Some(table), p.graph,
         p.entries + [Entry(Bits(bits), Some(compiled))])
  }

  /** The callbacks for definitions `i..` in order. */
  function Passes(env: Collaborators, canUse: bool, tokens: TokenArg, p: Pass, i: nat): (r: Pass)
    requires i <= |p.defs| && WellShaped(p.graph)
    ensures |r.defs| == |p.defs| && WellShaped(r.graph)
    ensures |r.entries| == |p.entries| + (|p.defs| - i) && r.entries[..|p.entries|] == p.entries
    ensures forall j :: 0 <= j < |p.defs| ==> r.defs[j].styles == p.defs[j].styles
    ensures forall j :: 0 <= j < i ==> r.defs[j] == p.defs[j]
    ensures p.graph.Keys <= r.graph.Keys
    decreases |p.defs| - i
  {
    if i == |p.defs| then p else Passes(env, canUse, tokens, Step(env, canUse, tokens, p, i), i + 1)
  }

  lemma PassesUnfold(env: Collaborators, canUse: bool, tokens: TokenArg, p: Pass, i: nat)
    requires i < |p.defs| && WellShaped(p.graph)
    ensures Passes(env, canUse, tokens, p, i) == Passes(env, canUse, tokens, Step(env, canUse, tokens, p, i), i + 1)
  {
  }

  lemma PassesDone(env: Collaborators, canUse: bool, tokens: TokenArg, p: Pass, i: nat)
    requires i == |p.defs| && WellShaped(p.graph)
    ensures Passes(env, canUse, tokens, p, i) == p
  {
  }

  /** `resolveStylesToClasses(definitions, tokens)`: the new list, table and graph, and the
      returned entries. */
  function ResolveAll(env: Collaborators, canUse: bool, tokens: TokenArg,
                      defs: seq<Definition>, mapping: Option<BitTable>, graph: Graph): Pass
    requires WellShaped(graph)
  {
    Passes(env, canUse, tokens, Pass(defs, mapping, graph, []), 0)
  }

  /** The module state: the collaborators, the environment flags, and the global `graph`. */
  class Runtime {
    const env: Collaborators
    const canUseCSSVariables: bool
    const production: bool
    const graph: PathStore<GraphKey, CompiledMap>

    ghost predicate Valid()
      reads graph
    {
      WellShaped(graph.slots)
    }

    constructor (env: Collaborators, canUseCSSVariables: bool, production: bool)
      ensures this.env == env && this.canUseCSSVariables == canUseCSSVariables
      ensures this.production == production
      ensures fresh(graph) && graph.slots == map[] && Valid()
    {
      this.env := env;
      this.canUseCSSVariables := canUseCSSVariables;
      this.production := production;
      graph := new PathStore();
    }

    /** `resolveStylesToClasses(definitions, tokens)`, returning the entries and `definitions.mapping`. */
    method ResolveStylesToClasses(list: DefinitionList, tokens: TokenArg)
      returns (entries: seq<Entry>, mapping: Option<BitTable>)
      requires Valid()
      modifies list, graph
      ensures Valid()
      ensures var r := ResolveAll(env, canUseCSSVariables, tokens, old(list.defs), old(list.mapping), old(graph.slots));
              list.defs == r.defs && list.mapping == r.mapping && graph.slots == r.graph && entries == r.entries
      ensures mapping == list.mapping
    {
      ghost var target := ResolveAll(env, canUseCSSVariables, tokens, list.defs, list.mapping, graph.slots);
      entries := [];
      ghost var p := Pass(list.defs, list.mapping, graph.slots, entries);
      var i := 0;
      while i < |list.defs|
        invariant p == Pass(list.defs, list.mapping, graph.slots, entries)
        invariant 0 <= i <= |p.defs| && WellShaped(p.graph)
        invariant target == Passes(env, canUseCSSVariables, tokens, p, i)
      {
        PassesUnfold(env, canUseCSSVariables, tokens, p, i);
        p := Step(env, canUseCSSVariables, tokens, p, i);
        entries := ResolveOne(list, tokens, i, entries);
        i := i + 1;
      }
      PassesDone(env, canUseCSSVariables, tokens, p, i);
      mapping := list.mapping;
    }

    /** The callback of `definitions.map` for definition `i`, given the entries returned so far. */
    method ResolveOne(list: DefinitionList, tokens: TokenArg, i: nat, entries: seq<Entry>)
      returns (entries': seq<Entry>)
      requires Valid() && i < |list.defs|
      modifies list, graph
      ensures Valid()
      ensures Pass(list.defs, list.mapping, graph.slots, entries')
              == Step(env, canUseCSSVariables, tokens, Pass(old(list.defs), old(list.mapping), old(graph.slots), entries), i)
    {
      var d := list.defs[i];
      if canUseCSSVariables {
        if d.resolved.Some? {
          entries' := entries + [Entry(d.matchers, d.resolved)];
        } else {
          var bits := list.MatchersToBits(d.matchers);
          var compiled := Resolve(env, StylesOf(d.styles, tokens));
          list.defs := list.defs[i := d.(matchers := Bits(bits), resolved := Some(compiled))];
          entries' := entries + [Entry(Bits(bits), Some(compiled))];
        }
      } else if d.styles.Dynamic? {
        var path := GraphPath(tokens, d.styles.id);
        ShapedLookup(graph.slots, path[0], path[1]);
        var found := graph.Get(path);
        if found.Found? {
          entries' := entries + [Entry(d.matchers, None)];
        } else {
          var bits := list.MatchersToBits(d.matchers);
          var compiled := Resolve(env, d.styles.fn(tokens));
          ShapedSet(graph.slots, path[0], path[1], compiled);
          var stored := graph.Set(path, compiled);
          list.defs := list.defs[i := d.(matchers := Bits(bits))];
          entries' := entries + [Entry(Bits(bits), Some(compiled))];
        }
      } else if d.resolved.Some? {
        entries' := entries + [Entry(d.matchers, d.resolved)];
      } else {
        var bits := list.MatchersToBits(d.matchers);
        var compiled := Resolve(env, d.styles.styles);
        list.defs := list.defs[i := d.(matchers := Bits(bits), resolved := Some(compiled))];
        entries' := entries + [Entry(Bits(bits), Some(compiled))];
      }
    }
  }

  // ---------------------------------------------------------------------------
  // What one call leaves behind for the next.
  // ---------------------------------------------------------------------------

  /** Definition `j` will be reused by the next call: its compiled styles are in slot 2, or, for
      a style function without CSS variables, they are in `graph` under these tokens. */
  ghost predicate SettledAt(canUse: bool, tokens: TokenArg, defs: seq<Definition>, graph: Graph, j: nat)
    requires j < |defs|
  {
    (canUse || defs[j].styles.Static? ==> defs[j].resolved.Some?) &&
    (!canUse && defs[j].styles.Dynamic? ==> GraphPath(tokens, defs[j].styles.id) in graph)
  }

  ghost predicate Settled(canUse: bool, tokens: TokenArg, defs: seq<Definition>, graph: Graph) {
    forall j :: 0 <= j < |defs| ==> SettledAt(canUse, tokens, defs, graph, j)
  }

  /** The entry a reused definition yields: slot 2 as stored, except that a `graph` hit leaves
      slot 2 undefined. */
  function SettledEntry(canUse: bool, d: Definition): Entry {
    if !canUse && d.styles.Dynamic? then Entry(d.matchers, None) else Entry(d.matchers, d.resolved)
  }

  function SettledEntries(canUse: bool, defs: seq<Definition>): (r: seq<Entry>)
    ensures |r| == |defs| && forall j :: 0 <= j < |defs| ==> r[j] == SettledEntry(canUse, defs[j])
  {
    seq(|defs|, j requires 0 <= j < |defs| => SettledEntry(canUse, defs[j]))
  }

  /** A settled definition changes nothing and yields its settled entry. */
  lemma SettledStep(env: Collaborators, canUse: bool, tokens: TokenArg, p: Pass, i: nat)
    requires i < |p.defs| && WellShaped(p.graph)
    requires SettledAt(canUse, tokens, p.defs, p.graph, i)
    ensures Step(env, canUse, tokens, p, i) == p.(entries := p.entries + [SettledEntry(canUse, p.defs[i])])
  {
    if !canUse && p.defs[i].styles.Dynamic? {
      var path := GraphPath(tokens, p.defs[i].styles.id);
      ShapedLookup(p.graph, path[0], path[1]);
    }
  }

  lemma {:induction false} SettledPasses(env: Collaborators, canUse: bool, tokens: TokenArg, p: Pass, i: nat)
    requires i <= |p.defs| && WellShaped(p.graph)
    requires forall j :: i <= j < |p.defs| ==> SettledAt(canUse, tokens, p.defs, p.graph, j)
    ensures Passes(env, canUse, tokens, p, i) == p.(entries := p.entries + SettledEntries(canUse, p.defs)[i..])
    decreases |p.defs| - i
  {
    var e := SettledEntries(canUse, p.defs);
    if i < |p.defs| {
      SettledStep(env, canUse, tokens, p, i);
      var p' := p.(entries := p.entries + [e[i]]);
      SettledPasses(env, canUse, tokens, p', i + 1);
      AppendNext(p.entries, e, i);
    } else {
      AppendNone(p.entries, e);
    }
  }

  lemma AppendNext<T>(a: seq<T>, e: seq<T>, i: nat)
    requires i < |e|
    ensures a + [e[i]] + e[i + 1..] == a + e[i..]
  {
    assert e[i..] == [e[i]] + e[i + 1..];
  }

  lemma AppendNone<T>(a: seq<T>, e: seq<T>)
    ensures a + e[|e|..] == a
  {
    assert e[|e|..] == [];
  }

  /** Definition `i` is settled once its callback has run. */
  lemma StepSettles(env: Collaborators, canUse: bool, tokens: TokenArg, p: Pass, i: nat)
    requires i < |p.defs| && WellShaped(p.graph)
    ensures var r := Step(env, canUse, tokens, p, i); SettledAt(canUse, tokens, r.defs, r.graph, i)
  {
    if !canUse && p.defs[i].styles.Dynamic? {
      var path := GraphPath(tokens, p.defs[i].styles.id);
      ShapedLookup(p.graph, path[0], path[1]);
    }
  }

  lemma {:induction false} PassesSettle(env: Collaborators, canUse: bool, tokens: TokenArg, p: Pass, i: nat)
    requires i <= |p.defs| && WellShaped(p.graph)
    requires forall j :: 0 <= j < i ==> SettledAt(canUse, tokens, p.defs, p.graph, j)
    ensures var r := Passes(env, canUse, tokens, p, i); Settled(canUse, tokens, r.defs, r.graph)
    decreases |p.defs| - i
  {
    if i < |p.defs| {
      var p' := Step(env, canUse, tokens, p, i);
      StepSettles(env, canUse, tokens, p, i);
      forall j | 0 <= j < i ensures SettledAt(canUse, tokens, p'.defs, p'.graph, j) {
        SettledAtKept(canUse, tokens, p.defs, p'.defs, p.graph, p'.graph, j);
      }
      PassesSettle(env, canUse, tokens, p', i + 1);
    }
  }

  lemma SettledAtKept(canUse: bool, tokens: TokenArg, defs: seq<Definition>, defs': seq<Definition>,
                      g: Graph, g': Graph, j: nat)
    requires j < |defs| == |defs'| && defs'[j] == defs[j] && g.Keys <= g'.Keys
    requires SettledAt(canUse, tokens, defs, g, j)
    ensures SettledAt(canUse, tokens, defs', g', j)
  {
    if !canUse && defs[j].styles.Dynamic? {
      assert GraphPath(tokens, defs[j].styles.id) in g.Keys;
    }
  }

  /** After a call, every definition is settled. */
  lemma ResolveAllSettles(env: Collaborators, canUse: bool, tokens: TokenArg,
                          defs: seq<Definition>, mapping: Option<BitTable>, graph: Graph)
    requires WellShaped(graph)
    ensures var r := ResolveAll(env, canUse, tokens, defs, mapping, graph); Settled(canUse, tokens, r.defs, r.graph)
  {
    PassesSettle(env, canUse, tokens, Pass(defs, mapping, graph, []), 0);
  }

  /** A second call with the same tokens object (or any tokens when CSS variables are in use)
      compiles nothing, changes neither the list, nor the table, nor the graph, and yields the
      settled entries. */
  lemma RepeatedCall(env: Collaborators, canUse: bool, tokens: TokenArg, tokens': TokenArg,
                     defs: seq<Definition>, mapping: Option<BitTable>, graph: Graph)
    requires WellShaped(graph)
    requires canUse || tokens'.obj.id == tokens.obj.id
    ensures var r := ResolveAll(env, canUse, tokens, defs, mapping, graph);
            ResolveAll(env, canUse, tokens', r.defs, r.mapping, r.graph)
            == r.(entries := SettledEntries(canUse, r.defs))
  {
    var r := ResolveAll(env, canUse, tokens, defs, mapping, graph);
    ResolveAllSettles(env, canUse, tokens, defs, mapping, graph);
    forall j | 0 <= j < |r.defs| ensures SettledAt(canUse, tokens', r.defs, r.graph, j) {
      assert SettledAt(canUse, tokens, r.defs, r.graph, j);
    }
    SettledPasses(env, canUse, tokens', Pass(r.defs, r.mapping, r.graph, []), 0);
    assert SettledEntries(canUse, r.defs)[0..] == SettledEntries(canUse, r.defs);
  }

  /** With CSS variables, every entry of a call is slot 0 and slot 2 of the definition as the
      call leaves it. */
  lemma {:induction false} CssVariablesEntries(env: Collaborators, tokens: TokenArg, p: Pass, i: nat)
    requires i <= |p.defs| && WellShaped(p.graph)
    requires p.entries == SettledEntries(true, p.defs)[..i]
    ensures var r := Passes(env, true, tokens, p, i); r.entries == SettledEntries(true, r.defs)
    decreases |p.defs| - i
  {
    if i < |p.defs| {
      var p' := Step(env, true, tokens, p, i);
      CssVariablesStep(env, tokens, p, i);
      SettledPrefixUpdate(p.defs, p'.defs, i);
      CssVariablesEntries(env, tokens, p', i + 1);
    } else {
      assert SettledEntries(true, p.defs)[..i] == SettledEntries(true, p.defs);
    }
  }

  lemma CssVariablesStep(env: Collaborators, tokens: TokenArg, p: Pass, i: nat)
    requires i < |p.defs| && WellShaped(p.graph)
    ensures var r := Step(env, true, tokens, p, i); r.entries == p.entries + [SettledEntry(true, r.defs[i])]
  {
  }

  lemma SettledPrefixUpdate(defs: seq<Definition>, defs': seq<Definition>, i: nat)
    requires i < |defs| == |defs'|
    requires forall k :: 0 <= k < |defs| && k != i ==> defs'[k] == defs[k]
    ensures SettledEntries(true, defs')[..i + 1] == SettledEntries(true, defs)[..i] + [SettledEntry(true, defs'[i])]
  {
  }

  /** With CSS variables, later calls return exactly what the first returned and change nothing,
      whatever tokens they receive. */
  lemma CssVariablesStable(env: Collaborators, tokens: TokenArg, tokens': TokenArg,
                           defs: seq<Definition>, mapping: Option<BitTable>, graph: Graph)
    requires WellShaped(graph)
    ensures var r := ResolveAll(env, true, tokens, defs, mapping, graph);
            ResolveAll(env, true, tokens', r.defs, r.mapping, r.graph) == r
  {
    assert SettledEntries(true, defs)[..0] == [];
    CssVariablesEntries(env, tokens, Pass(defs, mapping, graph, []), 0);
    RepeatedCall(env, true, tokens, tokens', defs, mapping, graph);
  }

  /** Without CSS variables, a repeated call with the same tokens finds every style function's
      result in `graph` and returns entries whose slot 2 is undefined. */
  lemma FallbackRepeatDropsStyles(env: Collaborators, tokens: TokenArg,
                                  defs: seq<Definition>, mapping: Option<BitTable>, graph: Graph, j: nat)
    requires WellShaped(graph) && j < |defs| && defs[j].styles.Dynamic?
    ensures var r := ResolveAll(env, false, tokens, defs, mapping, graph);
            ResolveAll(env, false, tokens, r.defs, r.mapping, r.graph).entries[j] == Entry(r.defs[j].matchers, None)
  {
    RepeatedCall(env, false, tokens, tokens, defs, mapping, graph);
  }

  /** Without CSS variables, a style function not yet in `graph` for these tokens is compiled and
      stored there, slot 0 gets the bits, and slot 2 is left as it was. */
  lemma FallbackMissCompiles(env: Collaborators, tokens: TokenArg, p: Pass, i: nat)
    requires i < |p.defs| && WellShaped(p.graph) && p.defs[i].styles.Dynamic?
    requires GraphPath(tokens, p.defs[i].styles.id) !in p.graph
    ensures var r := Step(env, false, tokens, p, i);
            var compiled := Compile(env, p.defs[i].styles.fn(tokens));
            && PathGraph.Lookup(r.graph, GraphPath(tokens, p.defs[i].styles.id)) == Found(Slot.Leaf(compiled))
            && r.entries[|p.entries|] == Entry(r.defs[i].matchers, Some(compiled))
            && r.defs[i].resolved == p.defs[i].resolved
  {
    var path := GraphPath(tokens, p.defs[i].styles.id);
    ShapedLookup(p.graph, path[0], path[1]);
    var r := Step(env, false, tokens, p, i);
    ShapedLookup(r.graph, path[0], path[1]);
  }

  /** Converting slot 0 a second time, which happens when a style function meets a new tokens
      object, turns the stored bits into 0: the definition then matches every query. */
  lemma ReconvertedBitsMatchAll(env: Collaborators, tokens: TokenArg, p: Pass, i: nat, mask: int)
    requires i < |p.defs| && WellShaped(p.graph) && p.defs[i].styles.Dynamic? && p.defs[i].matchers.Bits?
    requires GraphPath(tokens, p.defs[i].styles.id) !in p.graph
    ensures var r := Step(env, false, tokens, p, i);
            r.defs[i].matchers == Bits(0) && Matches(r.entries[|p.entries|].matchers, mask)
  {
    var path := GraphPath(tokens, p.defs[i].styles.id);
    ShapedLookup(p.graph, path[0], path[1]);
  }

  /** The table is built at most once, from slot 0 of the definitions as first passed. */
  lemma {:induction false} PassesMapping(env: Collaborators, canUse: bool, tokens: TokenArg, p: Pass, i: nat,
                                         defs0: seq<Definition>)
    requires i <= |p.defs| && WellShaped(p.graph)
    requires p.mapping.None? ==> p.defs == defs0
    ensures var r := Passes(env, canUse, tokens, p, i);
            r.mapping == p.mapping || (p.mapping.None? && r.mapping == Some(TableOf(Slots(defs0))))
    decreases |p.defs| - i
  {
    if i < |p.defs| {
      var p' := Step(env, canUse, tokens, p, i);
      StepMapping(env, canUse, tokens, p, i, defs0);
      PassesMapping(env, canUse, tokens, p', i + 1, defs0);
    }
  }

  lemma StepMapping(env: Collaborators, canUse: bool, tokens: TokenArg, p: Pass, i: nat, defs0: seq<Definition>)
    requires i < |p.defs| && WellShaped(p.graph)
    requires p.mapping.None? ==> p.defs == defs0
    ensures var r := Step(env, canUse, tokens, p, i);
            && (r.mapping == p.mapping || (p.mapping.None? && r.mapping == Some(TableOf(Slots(defs0)))))
            && (r.mapping.None? ==> r.defs == defs0)
  {
    assert TableFor(p.defs, p.mapping) == if p.mapping.Some? then p.mapping.value else TableOf(Slots(defs0));
  }

  /** `definitions.mapping` is kept once it exists; an absent one either stays absent, when no
      callback converts matchers, or is built from the matchers as they were first passed
      (its bits are described by `Matchers.TableIsPowerTable`). */
  lemma MappingBuiltOnce(env: Collaborators, canUse: bool, tokens: TokenArg,
                         defs: seq<Definition>, mapping: Option<BitTable>, graph: Graph)
    requires WellShaped(graph)
    ensures var r := ResolveAll(env, canUse, tokens, defs, mapping, graph);
            r.mapping == mapping || (mapping.None? && r.mapping == Some(TableOf(Slots(defs))))
  {
    PassesMapping(env, canUse, tokens, Pass(defs, mapping, graph, []), 0, defs);
  }
}
