/**
  `matchersToBits` and `selectorsToBits`: every matcher `name + value` pair of a
  definition list gets the bit `1 << i`, `i` counting the pairs of the whole
  list in order; a matcher set or a query's selectors become the sum of the
  bits registered for their pairs.  A definition is selected when its bits are
  0 or share a bit with the query's mask.
 */
module Matchers {
  import opened JsValues

  /** Slot 0 of a definition: `null`, a matcher object, or the number it was compiled to. */
  datatype MatcherSlot = NoMatchers | Conds(pairs: seq<(string, Value)>) | Bits(bits: int)

  /** The name-and-value table attached to a definition list as `definitions.mapping`. */
  type BitTable = map<string, int>

  /** `'' + name + value` */
  function MaskKey(pair: (string, Value)): string {
    "" + pair.0 + JsText(pair.1)
  }

  function Pow2(k: nat): (r: nat)
    ensures r >= 1
  {
    if k == 0 then 1 else 2 * Pow2(k - 1)
  }

  /** `1 << i` on 32-bit integers: the shift count is taken modulo 32 and bit 31 is the sign. */
  function Shl1(i: nat): (r: int)
    ensures -0x8000_0000 <= r < 0x8000_0000
  {
    var k := i % 32;
    Pow2Of31();
    if k == 31 then -0x8000_0000 else Pow2Grows(k, 30); Pow2(k)
  }

  /** As `&` reads it, `1 << i` is the single bit `2^(i mod 32)`; it is negative exactly when
      that bit is bit 31. */
  lemma Shl1Bits(i: nat)
    ensures ToUint32(Shl1(i)) == Pow2(i % 32)
    ensures Shl1(i) < 0 <==> i % 32 == 31
  {
    Pow2Of31();
    Pow2Grows(i % 32, 31);
  }

  lemma Pow2Of31()
    ensures Pow2(31) == 0x8000_0000 && Pow2(32) == 0x1_0000_0000
  {
    assert Pow2(4) == 16;
    assert Pow2(8) == 256;
    assert Pow2(12) == 4096;
    assert Pow2(16) == 65536;
    assert Pow2(20) == 1048576;
    assert Pow2(24) == 16777216;
    assert Pow2(28) == 268435456;
  }

  /** `ToUint32`, as applied by `&` to its operands. */
  function ToUint32(x: int): nat {
    x % Pow2(32)
  }

  /** Bitwise AND of two non-negative integers. */
  function BitAnd(a: nat, b: nat): (r: nat)
    ensures r <= a && r <= b
    decreases a
  {
    if a == 0 || b == 0 then 0
    else 2 * BitAnd(a / 2, b / 2) + (if a % 2 == 1 && b % 2 == 1 then 1 else 0)
  }

  /** `!!(x & y)` on JavaScript numbers. */
  predicate JsAndNonZero(x: int, y: int) {
    BitAnd(ToUint32(x), ToUint32(y)) != 0
  }

  /** The filter of the query closure: `matchersInBits === 0 || !!(matchersInBits & mask)`.
      A `null` or object slot is not `=== 0`, and `&` turns it into 0. */
  predicate Matches(slot: MatcherSlot, mask: int)
    ensures Matches(slot, mask) ==> slot.Bits?
    ensures slot == Bits(0) ==> Matches(slot, mask)
  {
    slot.Bits? && (slot.bits == 0 || JsAndNonZero(slot.bits, mask))
  }

  /** The matcher pairs of all definitions, in order; `Object.keys` of a number or `null` is empty. */
  function MaskKeys(slots: seq<MatcherSlot>): seq<string>
    decreases |slots|
  {
    if slots == [] then []
    else PairKeys(SlotPairs(slots[0])) + MaskKeys(slots[1..])
  }

  function SlotPairs(slot: MatcherSlot): seq<(string, Value)> {
    if slot.Conds? then slot.pairs else []
  }

  function PairKeys(pairs: seq<(string, Value)>): (r: seq<string>)
    ensures |r| == |pairs|
    ensures forall i :: 0 <= i < |pairs| ==> r[i] == MaskKey(pairs[i])
  {
    if pairs == [] then [] else [MaskKey(pairs[0])] + PairKeys(pairs[1..])
  }

  /** `mapping[key] = 1 << i; i++` for each key in turn, starting at counter `i`. */
  function AssignBits(mapping: BitTable, keys: seq<string>, i: nat): BitTable
    decreases |keys|
  {
    if keys == [] then mapping else AssignBits(mapping[keys[0] := Shl1(i)], keys[1..], i + 1)
  }

  /** The table `matchersToBits` builds from the definitions' matcher slots. */
  function TableOf(slots: seq<MatcherSlot>): BitTable {
    AssignBits(map[], MaskKeys(slots), 0)
  }

  lemma {:induction false} AssignBitsAppend(mapping: BitTable, a: seq<string>, b: seq<string>, i: nat)
    ensures AssignBits(mapping, a + b, i) == AssignBits(AssignBits(mapping, a, i), b, i + |a|)
    decreases |a|
  {
    if a == [] {
      assert a + b == b;
    } else {
      ConsAppend(a, b);
      AssignBitsAppend(mapping[a[0] := Shl1(i)], a[1..], b, i + 1);
    }
  }

  lemma ConsAppend<T>(a: seq<T>, b: seq<T>)
    requires a != []
    ensures (a + b)[0] == a[0] && (a + b)[1..] == a[1..] + b
  {
  }

  lemma {:induction false} MaskKeysAppend(a: seq<MatcherSlot>, b: seq<MatcherSlot>)
    ensures MaskKeys(a + b) == MaskKeys(a) + MaskKeys(b)
    decreases |a|
  {
    if a == [] {
      assert a + b == b;
    } else {
      assert (a + b)[0] == a[0] && (a + b)[1..] == a[1..] + b;
      MaskKeysAppend(a[1..], b);
    }
  }

  /** Building `definitions.mapping`: walk the definitions, and their matcher pairs, with one
      running counter. */
  method BuildTable(slots: seq<MatcherSlot>) returns (mapping: BitTable)
    ensures mapping == TableOf(slots)
  {
    var i := 0;
    mapping := map[];
    ghost var keys: seq<string> := [];
    var d := 0;
    while d < |slots|
      invariant 0 <= d <= |slots|
      invariant keys == MaskKeys(slots[..d]) && i == |keys|
      invariant mapping == AssignBits(map[], keys, 0)
    {
      var matchers := slots[d];
      MaskKeysSnoc(slots, d);
      if matchers.Conds? {
        var pairs := matchers.pairs;
        var j := 0;
        ghost var done := keys;
        assert done + PairKeys(pairs)[..0] == done;
        while j < |pairs|
          invariant 0 <= j <= |pairs|
          invariant keys == done + PairKeys(pairs)[..j] && i == |keys|
          invariant mapping == AssignBits(map[], keys, 0)
          decreases |pairs| - j
        {
          var maskKey := "" + pairs[j].0 + JsText(pairs[j].1);
          SnocSlice(done, PairKeys(pairs), j);
          AssignNext(map[], keys, maskKey, mapping);
          keys := keys + [maskKey];
          mapping := mapping[maskKey := Shl1(i)];
          i := i + 1;
          j := j + 1;
        }
        assert PairKeys(pairs)[..j] == PairKeys(pairs);
      } else {
        assert keys + [] == keys;
      }
      d := d + 1;
    }
    assert slots[..d] == slots;
  }

  lemma MaskKeysSnoc(slots: seq<MatcherSlot>, d: nat)
    requires d < |slots|
    ensures MaskKeys(slots[..d + 1]) == MaskKeys(slots[..d]) + PairKeys(SlotPairs(slots[d]))
  {
    assert slots[..d + 1] == slots[..d] + [slots[d]];
    MaskKeysAppend(slots[..d], [slots[d]]);
    assert [slots[d]][1..] == [];
    assert MaskKeys([slots[d]]) == PairKeys(SlotPairs(slots[d])) + [];
  }

  /** One step of the inner loop: registering one more key gives it the next bit. */
  lemma AssignNext(m0: BitTable, keys: seq<string>, key: string, mapping: BitTable)
    requires mapping == AssignBits(m0, keys, 0)
    ensures mapping[key := Shl1(|keys|)] == AssignBits(m0, keys + [key], 0)
  {
    AssignBitsSnoc(m0, keys, key, 0);
  }

  lemma SnocSlice<T>(done: seq<T>, keys: seq<T>, j: nat)
    requires j < |keys|
    ensures done + keys[..j + 1] == (done + keys[..j]) + [keys[j]]
  {
    assert keys[..j + 1] == keys[..j] + [keys[j]];
  }

  lemma {:induction false} AssignBitsSnoc(mapping: BitTable, keys: seq<string>, key: string, i: nat)
    ensures AssignBits(mapping, keys + [key], i) == AssignBits(mapping, keys, i)[key := Shl1(i + |keys|)]
    decreases |keys|
  {
    if keys == [] {
      assert keys + [key] == [key];
      assert [key][1..] == [];
    } else {
      assert (keys + [key])[0] == keys[0] && (keys + [key])[1..] == keys[1..] + [key];
      AssignBitsSnoc(mapping[keys[0] := Shl1(i)], keys[1..], key, i + 1);
    }
  }

  /** `selectorInBits || 0`: a missing key counts 0. */
  function BitOf(mapping: BitTable, pair: (string, Value)): int {
    var key := MaskKey(pair);
    if key in mapping then mapping[key] else 0
  }

  /** The sum `selectorsToBits` computes. */
  function SumBits(mapping: BitTable, pairs: seq<(string, Value)>): int
    decreases |pairs|
  {
    if pairs == [] then 0 else BitOf(mapping, pairs[0]) + SumBits(mapping, pairs[1..])
  }

  lemma {:induction false} SumBitsAppend(mapping: BitTable, a: seq<(string, Value)>, b: seq<(string, Value)>)
    ensures SumBits(mapping, a + b) == SumBits(mapping, a) + SumBits(mapping, b)
    decreases |a|
  {
    if a == [] {
      assert a + b == b;
    } else {
      assert (a + b)[0] == a[0] && (a + b)[1..] == a[1..] + b;
      SumBitsAppend(mapping, a[1..], b);
    }
  }

  /** `selectorsToBits(mapping, selectors)` */
  method SelectorsToBits(mapping: BitTable, selectors: seq<(string, Value)>) returns (mask: int)
    ensures mask == SumBits(mapping, selectors)
  {
    mask := 0;
    var i := 0;
    while i < |selectors|
      invariant 0 <= i <= |selectors|
      invariant mask == SumBits(mapping, selectors[..i])
    {
      var selectorKey := "" + selectors[i].0 + JsText(selectors[i].1);
      var selectorInBits := if selectorKey in mapping then mapping[selectorKey] else 0;
      assert selectors[..i + 1] == selectors[..i] + [selectors[i]];
      SumBitsAppend(mapping, selectors[..i], [selectors[i]]);
      mask := mask + selectorInBits;
      i := i + 1;
    }
    assert selectors[..i] == selectors;
  }

  /** Pairs none of whose keys are registered contribute no bits; in particular `{}` gives 0. */
  lemma {:induction false} UnregisteredContributeNothing(mapping: BitTable, pairs: seq<(string, Value)>)
    requires forall i :: 0 <= i < |pairs| ==> MaskKey(pairs[i]) !in mapping
    ensures SumBits(mapping, pairs) == 0
    decreases |pairs|
  {
    if pairs != [] {
      UnregisteredContributeNothing(mapping, pairs[1..]);
    }
  }

  // ---------------------------------------------------------------------------
  // Bits of a number as a set of positions.
  // ---------------------------------------------------------------------------

  function Shift(s: set<nat>): set<nat> {
    set x | x in s :: x + 1
  }

  /** The positions of the 1-bits of `n`. */
  function BitSet(n: nat): set<nat>
    decreases n
  {
    if n == 0 then {} else (if n % 2 == 1 then {0} else {}) + Shift(BitSet(n / 2))
  }

  lemma BitSetOfDouble(m: nat, r: nat)
    requires r < 2
    ensures BitSet(2 * m + r) == (if r == 1 then {0} else {}) + Shift(BitSet(m))
  {
    if m == 0 && r == 0 {
      assert BitSet(m) == {};
      assert Shift({}) == {};
    } else {
      assert (2 * m + r) % 2 == r && (2 * m + r) / 2 == m;
    }
  }

  lemma ShiftIntersect(x: set<nat>, y: set<nat>)
    ensures Shift(x) * Shift(y) == Shift(x * y)
    ensures 0 !in Shift(x)
  {
    forall v | v in Shift(x) * Shift(y) ensures v in Shift(x * y) {
      var p :| p in x && v == p + 1;
      var q :| q in y && v == q + 1;
      assert p == q && p in x * y;
    }
  }

  lemma ShiftMember(x: set<nat>, y: nat)
    ensures y in x ==> y + 1 in Shift(x)
  {
  }

  lemma ShiftUnion(x: set<nat>, y: set<nat>)
    ensures Shift(x + y) == Shift(x) + Shift(y)
  {
  }

  /** The 1-bits of `a & b` are the common 1-bits of `a` and `b`. */
  lemma {:induction false} BitSetOfAnd(a: nat, b: nat)
    ensures BitSet(BitAnd(a, b)) == BitSet(a) * BitSet(b)
    decreases a
  {
    if a == 0 || b == 0 {
      assert BitSet(0) == {};
    } else {
      var r := if a % 2 == 1 && b % 2 == 1 then 1 else 0;
      assert BitAnd(a, b) == 2 * BitAnd(a / 2, b / 2) + r;
      BitSetOfAnd(a / 2, b / 2);
      BitSetOfDouble(BitAnd(a / 2, b / 2), r);
      ShiftIntersect(BitSet(a / 2), BitSet(b / 2));
      ShiftIntersect(BitSet(b / 2), BitSet(a / 2));
      var lowA: set<nat> := if a % 2 == 1 then {0} else {};
      var lowB: set<nat> := if b % 2 == 1 then {0} else {};
      assert BitSet(a) == lowA + Shift(BitSet(a / 2));
      assert BitSet(b) == lowB + Shift(BitSet(b / 2));
      assert BitSet(a) * BitSet(b) == lowA * lowB + Shift(BitSet(a / 2)) * Shift(BitSet(b / 2));
    }
  }

  /** Only 0 has no 1-bits. */
  lemma {:induction false} BitSetEmpty(n: nat)
    ensures BitSet(n) == {} <==> n == 0
    decreases n
  {
    if n > 0 && n % 2 == 0 {
      BitSetEmpty(n / 2);
      var x :| x in BitSet(n / 2);
      assert x + 1 in BitSet(n);
    } else if n > 0 {
      assert 0 in BitSet(n);
    }
  }

  /** Adding a power of two whose bit is clear sets exactly that bit. */
  lemma {:induction false} BitSetAddPower(a: nat, k: nat)
    requires k !in BitSet(a)
    ensures BitSet(a + Pow2(k)) == BitSet(a) + {k}
    decreases k
  {
    if a == 0 {
      BitSetOfPower(k);
    } else if k == 0 {
      AddLowBit(a);
    } else {
      SplitLowBit(a);
      ShiftMember(BitSet(a / 2), k - 1);
      BitSetAddPower(a / 2, k - 1);
      HighBitStep(a, k, a / 2 + Pow2(k - 1));
    }
  }

  lemma HighBitStep(a: nat, k: nat, h': nat)
    requires k > 0 && h' == a / 2 + Pow2(k - 1)
    requires BitSet(h') == BitSet(a / 2) + {k - 1}
    ensures BitSet(a + Pow2(k)) == BitSet(a) + {k}
  {
    var low: set<nat> := if a % 2 == 1 then {0} else {};
    calc {
      BitSet(a + Pow2(k));
    == { AddHighBit(a, k); }
      BitSet(2 * h' + a % 2);
    == { BitSetOfDouble(h', a % 2); }
      low + Shift(BitSet(h'));
    == { ShiftAdd(low, BitSet(a / 2), k - 1); }
      (low + Shift(BitSet(a / 2))) + {k};
    == { SplitLowBit(a); }
      BitSet(a) + {k};
    }
  }

  lemma ShiftAdd(low: set<nat>, x: set<nat>, j: nat)
    ensures low + Shift(x + {j}) == (low + Shift(x)) + {j + 1}
  {
    ShiftUnion(x, {j});
    ShiftSingleton(j);
  }

  lemma ShiftSingleton(k: nat)
    ensures Shift({k}) == {k + 1}
  {
  }

  lemma SplitLowBit(a: nat)
    ensures a == 2 * (a / 2) + a % 2
    ensures BitSet(a) == (if a % 2 == 1 then {0} else {}) + Shift(BitSet(a / 2))
  {
    BitSetOfDouble(a / 2, a % 2);
  }

  lemma AddLowBit(a: nat)
    requires 0 !in BitSet(a)
    ensures BitSet(a + 1) == BitSet(a) + {0}
  {
    SplitLowBit(a);
    assert a % 2 == 0;
    BitSetOfDouble(a / 2, 1);
  }

  lemma AddHighBit(a: nat, k: nat)
    requires k > 0
    ensures a + Pow2(k) == 2 * (a / 2 + Pow2(k - 1)) + a % 2
  {
  }

  lemma {:induction false} BitSetOfPower(k: nat)
    ensures BitSet(Pow2(k)) == {k}
    decreases k
  {
    if k == 0 {
      assert BitSet(1) == {0} + Shift(BitSet(0));
      assert Shift({}) == {};
    } else {
      BitSetOfPower(k - 1);
      BitSetOfDouble(Pow2(k - 1), 0);
      assert Shift({k - 1}) == {k};
    }
  }

  /** A number whose 1-bits all lie below `m` is less than `2^m`. */
  lemma {:induction false} BitSetBound(n: nat, m: nat)
    requires forall x :: x in BitSet(n) ==> x < m
    ensures n < Pow2(m)
    decreases n
  {
    if n > 0 {
      SplitLowBit(n);
      if n % 2 == 1 {
        assert 0 in BitSet(n);
      } else {
        BitSetEmpty(n / 2);
        var x :| x in BitSet(n / 2);
        assert x + 1 in BitSet(n);
      }
      forall x | x in BitSet(n / 2) ensures x < m - 1 {
        assert x + 1 in BitSet(n);
      }
      BitSetBound(n / 2, m - 1);
    }
  }

  // ---------------------------------------------------------------------------
  // The table built from a definition list gives every pair its own bit.
  // ---------------------------------------------------------------------------

  /** `table` gives every key the bit `2^index[k]` with distinct positions below 31. */
  ghost predicate PowerTable(table: BitTable, index: map<string, nat>) {
    && table.Keys == index.Keys
    && (forall k :: k in table ==> index[k] < 31 && table[k] == Pow2(index[k]))
    && Injective(index)
  }

  /** Distinct keys have distinct positions. */
  ghost predicate Injective(index: map<string, nat>) {
    forall k, k' :: k in index && k' in index && k != k' ==> index[k] != index[k']
  }

  /** The position of the last occurrence of `k` in `keys`. */
  function LastIndex(keys: seq<string>, k: string): (r: nat)
    requires k in keys
    ensures r < |keys| && keys[r] == k
    ensures forall j :: r < j < |keys| ==> keys[j] != k
  {
    if keys[|keys| - 1] == k then |keys| - 1 else LastIndex(keys[..|keys| - 1], k)
  }

  lemma {:induction false} AssignBitsValues(mapping: BitTable, keys: seq<string>, i: nat, k: string)
    requires i + |keys| <= 31
    ensures k in AssignBits(mapping, keys, i) <==> k in mapping || k in keys
    ensures k in keys ==> AssignBits(mapping, keys, i)[k] == Pow2(i + LastIndex(keys, k))
    ensures k !in keys && k in mapping ==> AssignBits(mapping, keys, i)[k] == mapping[k]
    decreases |keys|
  {
    if keys != [] {
      InCons(keys, k);
      AssignBitsValues(mapping[keys[0] := Shl1(i)], keys[1..], i + 1, k);
      if k in keys[1..] {
        LastIndexOfTail(keys, k);
      } else if k == keys[0] {
        FirstIsLast(keys, k);
        ShlSmall(i);
      }
    }
  }

  lemma InCons(keys: seq<string>, k: string)
    requires |keys| > 0
    ensures k in keys <==> k == keys[0] || k in keys[1..]
  {
    assert keys == [keys[0]] + keys[1..];
  }

  lemma FirstIsLast(keys: seq<string>, k: string)
    requires |keys| > 0 && keys[0] == k && k !in keys[1..]
    ensures LastIndex(keys, k) == 0
  {
    forall j | 0 < j < |keys| ensures keys[j] != k { assert keys[j] == keys[1..][j - 1]; }
    LastIndexIsOnly(keys, k, 0);
  }

  lemma ShlSmall(i: nat)
    requires i < 31
    ensures Shl1(i) == Pow2(i)
  {
    assert i % 32 == i;
  }

  lemma LastIndexIsOnly(keys: seq<string>, k: string, i: nat)
    requires i < |keys| && keys[i] == k
    requires forall j :: i < j < |keys| ==> keys[j] != k
    ensures LastIndex(keys, k) == i
  {
  }

  lemma LastIndexOfTail(keys: seq<string>, k: string)
    requires |keys| > 0 && k in keys[1..]
    ensures LastIndex(keys, k) == 1 + LastIndex(keys[1..], k)
  {
    var t := LastIndex(keys[1..], k);
    forall j | 1 + t < j < |keys| ensures keys[j] != k {
      assert keys[j] == keys[1..][j - 1];
    }
    LastIndexIsOnly(keys, k, 1 + t);
  }

  /** With at most 31 pairs, the table of a definition list gives distinct pairs distinct
      single bits: pair `k` gets `2^j` where `j` is the position of its last occurrence. */
  lemma TableIsPowerTable(slots: seq<MatcherSlot>)
    requires |MaskKeys(slots)| <= 31
    ensures PowerTable(TableOf(slots), IndexOf(MaskKeys(slots)))
  {
    AssignedIsPowerTable(map[], MaskKeys(slots));
  }

  /** The bit position `matchersToBits` gives each key: that of its last occurrence. */
  function IndexOf(keys: seq<string>): map<string, nat> {
    map k | k in keys :: LastIndex(keys, k)
  }

  lemma AssignedIsPowerTable(empty: BitTable, keys: seq<string>)
    requires empty == map[] && |keys| <= 31
    ensures PowerTable(AssignBits(empty, keys, 0), IndexOf(keys))
  {
    var table, index := AssignBits(empty, keys, 0), IndexOf(keys);
    forall k ensures (k in table <==> k in index) && (k in table ==> index[k] < 31 && table[k] == Pow2(index[k])) {
      AssignBitsValues(empty, keys, 0, k);
    }
    assert table.Keys == index.Keys;
  }

  /** The keys among `pairs` that the table registers. */
  function RegisteredKeys(table: BitTable, pairs: seq<(string, Value)>): (r: set<string>)
    ensures forall k :: k in r ==> k in table
    decreases |pairs|
  {
    if pairs == [] then {}
    else (if MaskKey(pairs[0]) in table then {MaskKey(pairs[0])} else {}) + RegisteredKeys(table, pairs[1..])
  }

  /** No two pairs of a matcher or selector object produce the same `name + value` key. */
  predicate DistinctMaskKeys(pairs: seq<(string, Value)>) {
    forall i, j :: 0 <= i < j < |pairs| ==> MaskKey(pairs[i]) != MaskKey(pairs[j])
  }

  function Positions(index: map<string, nat>, keys: set<string>): set<nat>
    requires keys <= index.Keys
  {
    set k | k in keys :: index[k]
  }

  /** The sum of the registered bits of pairs with distinct keys has exactly their positions
      as 1-bits, so it stays below `2^31`. */
  lemma {:induction false} SumBitsPositions(table: BitTable, index: map<string, nat>, pairs: seq<(string, Value)>)
    requires PowerTable(table, index)
    requires DistinctMaskKeys(pairs)
    ensures SumBits(table, pairs) >= 0
    ensures BitSet(SumBits(table, pairs)) == Positions(index, RegisteredKeys(table, pairs))
    ensures SumBits(table, pairs) < Pow2(31)
    decreases |pairs|
  {
    if pairs == [] {
      assert BitSet(0) == {};
      assert Positions(index, {}) == {};
    } else {
      DistinctTail(pairs);
      SumBitsPositions(table, index, pairs[1..]);
      SumBitsPositionsStep(table, index, pairs);
      SumBitsBound(table, index, pairs);
    }
  }

  lemma SumBitsPositionsStep(table: BitTable, index: map<string, nat>, pairs: seq<(string, Value)>)
    requires PowerTable(table, index)
    requires |pairs| > 0 && DistinctMaskKeys(pairs)
    requires SumBits(table, pairs[1..]) >= 0
    requires BitSet(SumBits(table, pairs[1..])) == Positions(index, RegisteredKeys(table, pairs[1..]))
    ensures SumBits(table, pairs) >= 0
    ensures BitSet(SumBits(table, pairs)) == Positions(index, RegisteredKeys(table, pairs))
  {
    if MaskKey(pairs[0]) in table {
      RegisteredCase(table, index, pairs);
    } else {
      UnregisteredStep(table, pairs);
    }
  }

  lemma RegisteredCase(table: BitTable, index: map<string, nat>, pairs: seq<(string, Value)>)
    requires |pairs| > 0 && DistinctMaskKeys(pairs)
    requires MaskKey(pairs[0]) in table && MaskKey(pairs[0]) in index
    requires table[MaskKey(pairs[0])] == Pow2(index[MaskKey(pairs[0])])
    requires RegisteredKeys(table, pairs[1..]) <= index.Keys && Injective(index)
    requires SumBits(table, pairs[1..]) >= 0
    requires BitSet(SumBits(table, pairs[1..])) == Positions(index, RegisteredKeys(table, pairs[1..]))
    ensures SumBits(table, pairs) >= 0
    ensures BitSet(SumBits(table, pairs)) == Positions(index, RegisteredKeys(table, pairs))
  {
    var key := MaskKey(pairs[0]);
    var sRest: nat := SumBits(table, pairs[1..]);
    KeyNotInRest(table, pairs);
    RegisteredStep(table, pairs, Pow2(index[key]));
    AddRegisteredBit(index, sRest, RegisteredKeys(table, pairs[1..]), key);
  }

  lemma RegisteredStep(table: BitTable, pairs: seq<(string, Value)>, bit: int)
    requires |pairs| > 0 && MaskKey(pairs[0]) in table && table[MaskKey(pairs[0])] == bit
    ensures SumBits(table, pairs) == SumBits(table, pairs[1..]) + bit
    ensures RegisteredKeys(table, pairs) == {MaskKey(pairs[0])} + RegisteredKeys(table, pairs[1..])
  {
  }

  lemma UnregisteredStep(table: BitTable, pairs: seq<(string, Value)>)
    requires |pairs| > 0 && MaskKey(pairs[0]) !in table
    ensures SumBits(table, pairs) == SumBits(table, pairs[1..])
    ensures RegisteredKeys(table, pairs) == RegisteredKeys(table, pairs[1..])
  {
    assert RegisteredKeys(table, pairs) == {} + RegisteredKeys(table, pairs[1..]);
  }

  /** Adding the bit of a key not yet counted adds exactly its position. */
  lemma AddRegisteredBit(index: map<string, nat>, sRest: nat, kRest: set<string>, key: string)
    requires kRest <= index.Keys && key in index && key !in kRest
    requires Injective(index)
    requires BitSet(sRest) == Positions(index, kRest)
    ensures BitSet(sRest + Pow2(index[key])) == Positions(index, {key} + kRest)
  {
    PositionNotTaken(index, kRest, key);
    BitSetAddPower(sRest, index[key]);
    PositionsAdd(index, kRest, key);
  }

  lemma SumBitsBound(table: BitTable, index: map<string, nat>, pairs: seq<(string, Value)>)
    requires PowerTable(table, index)
    requires SumBits(table, pairs) >= 0
    requires BitSet(SumBits(table, pairs)) == Positions(index, RegisteredKeys(table, pairs))
    ensures SumBits(table, pairs) < Pow2(31)
  {
    PositionsBelow(table, index, RegisteredKeys(table, pairs));
    BitSetBound(SumBits(table, pairs), 31);
  }

  lemma DistinctTail(pairs: seq<(string, Value)>)
    requires |pairs| > 0 && DistinctMaskKeys(pairs)
    ensures DistinctMaskKeys(pairs[1..])
  {
    var rest := pairs[1..];
    forall i, j | 0 <= i < j < |rest| ensures MaskKey(rest[i]) != MaskKey(rest[j]) {
      assert rest[i] == pairs[i + 1] && rest[j] == pairs[j + 1];
    }
  }

  lemma KeyNotInRest(table: BitTable, pairs: seq<(string, Value)>)
    requires |pairs| > 0 && DistinctMaskKeys(pairs)
    ensures MaskKey(pairs[0]) !in RegisteredKeys(table, pairs[1..])
  {
    var rest := pairs[1..];
    KeyFromPair(table, rest, MaskKey(pairs[0]));
    forall i | 0 <= i < |rest| ensures MaskKey(rest[i]) != MaskKey(pairs[0]) {
      assert rest[i] == pairs[i + 1];
    }
  }

  lemma PositionNotTaken(index: map<string, nat>, keys: set<string>, key: string)
    requires keys <= index.Keys && key in index && key !in keys
    requires Injective(index)
    ensures index[key] !in Positions(index, keys)
  {
  }

  lemma PositionsAdd(index: map<string, nat>, keys: set<string>, key: string)
    requires keys <= index.Keys && key in index
    ensures Positions(index, {key} + keys) == Positions(index, keys) + {index[key]}
  {
  }

  lemma PositionsBelow(table: BitTable, index: map<string, nat>, keys: set<string>)
    requires PowerTable(table, index) && keys <= table.Keys
    ensures forall x :: x in Positions(index, keys) ==> x < 31
  {
  }

  lemma {:induction false} KeyFromPair(table: BitTable, pairs: seq<(string, Value)>, key: string)
    ensures key in RegisteredKeys(table, pairs) ==> exists i :: 0 <= i < |pairs| && MaskKey(pairs[i]) == key
    decreases |pairs|
  {
    if pairs != [] && MaskKey(pairs[0]) != key {
      KeyFromPair(table, pairs[1..], key);
      if key in RegisteredKeys(table, pairs[1..]) {
        var i :| 0 <= i < |pairs[1..]| && MaskKey(pairs[1..][i]) == key;
        assert MaskKey(pairs[i + 1]) == key;
      }
    }
  }

  lemma PositionsIntersect(index: map<string, nat>, a: set<string>, b: set<string>)
    requires a <= index.Keys && b <= index.Keys
    requires Injective(index)
    ensures Positions(index, a) * Positions(index, b) == Positions(index, a * b)
    ensures Positions(index, a) == {} <==> a == {}
  {
    if a != {} {
      var k :| k in a;
      assert index[k] in Positions(index, a);
    }
  }

  /** Mask matching: a definition whose matcher pairs have the compiled bits is selected by a query
      with the compiled mask iff none of its pairs is registered, or some registered pair of the
      definition also occurs in the query's selectors. */
  lemma MaskMatching(table: BitTable, index: map<string, nat>,
                     conds: seq<(string, Value)>, selectors: seq<(string, Value)>)
    requires PowerTable(table, index)
    requires DistinctMaskKeys(conds) && DistinctMaskKeys(selectors)
    ensures var rc := RegisteredKeys(table, conds);
            Matches(Bits(SumBits(table, conds)), SumBits(table, selectors)) <==>
              rc == {} || rc * RegisteredKeys(table, selectors) != {}
  {
    var bits, mask := SumBits(table, conds), SumBits(table, selectors);
    var rc, rs := RegisteredKeys(table, conds), RegisteredKeys(table, selectors);
    SumBitsPositions(table, index, conds);
    SumBitsPositions(table, index, selectors);
    SmallIsUint32(bits);
    SmallIsUint32(mask);
    ZeroBitsIff(index, bits, rc);
    AndBitsIff(index, bits, mask, rc, rs);
  }

  lemma SmallIsUint32(x: int)
    requires 0 <= x < Pow2(31)
    ensures ToUint32(x) == x
  {
    Pow2Grows(31, 32);
    ModOfSmall(x, Pow2(32));
  }

  lemma ModOfSmall(x: int, m: int)
    requires 0 <= x < m
    ensures x % m == x
  {
  }

  lemma ZeroBitsIff(index: map<string, nat>, bits: nat, rc: set<string>)
    requires rc <= index.Keys
    requires Injective(index)
    requires BitSet(bits) == Positions(index, rc)
    ensures bits == 0 <==> rc == {}
  {
    BitSetEmpty(bits);
    PositionsIntersect(index, rc, rc);
  }

  lemma AndBitsIff(index: map<string, nat>, bits: nat, mask: nat, rc: set<string>, rs: set<string>)
    requires rc <= index.Keys && rs <= index.Keys
    requires Injective(index)
    requires BitSet(bits) == Positions(index, rc) && BitSet(mask) == Positions(index, rs)
    ensures BitAnd(bits, mask) != 0 <==> rc * rs != {}
  {
    BitSetOfAnd(bits, mask);
    BitSetEmpty(BitAnd(bits, mask));
    PositionsIntersect(index, rc, rs);
    PositionsIntersect(index, rc * rs, rc);
  }

  /** With `{theme: 'dark'}` as the only matcher of a list it gets bit 1: a `{theme: 'dark'}` query
      selects it, a `{theme: 'light'}` query does not, and a `null`-matcher definition (compiled to
      0) is selected by both. */
  lemma ThemeExample()
    ensures TableOf([NoMatchers, Conds([("theme", Str("dark"))])]) == map["themedark" := 1]
    ensures Matches(Bits(SumBits(map["themedark" := 1], [("theme", Str("dark"))])),
                    SumBits(map["themedark" := 1], [("theme", Str("dark"))]))
    ensures !Matches(Bits(SumBits(map["themedark" := 1], [("theme", Str("dark"))])),
                     SumBits(map["themedark" := 1], [("theme", Str("light"))]))
    ensures Matches(Bits(0), SumBits(map["themedark" := 1], [("theme", Str("light"))]))
  {
    ExampleTable();
    ExampleSums();
    ExampleMatches();
  }

  lemma ExampleTable()
    ensures TableOf([NoMatchers, Conds([("theme", Str("dark"))])]) == map["themedark" := 1]
  {
    var slots := [NoMatchers, Conds([("theme", Str("dark"))])];
    assert MaskKey(("theme", Str("dark"))) == "themedark";
    assert slots[1..][1..] == [];
    assert MaskKeys(slots[1..]) == ["themedark"];
    assert MaskKeys(slots) == ["themedark"];
    assert ["themedark"][1..] == [];
    assert Shl1(0) == 1;
  }

  lemma ExampleSums()
    ensures SumBits(map["themedark" := 1], [("theme", Str("dark"))]) == 1
    ensures SumBits(map["themedark" := 1], [("theme", Str("light"))]) == 0
  {
    assert MaskKey(("theme", Str("dark"))) == "themedark";
    assert MaskKey(("theme", Str("light"))) == "themelight";
    assert "themelight" != "themedark" by { assert "themelight"[5] != "themedark"[5]; }
  }

  lemma ExampleMatches()
    ensures Matches(Bits(1), 1) && !Matches(Bits(1), 0) && Matches(Bits(0), 0)
  {
    Pow2Grows(1, 31);
    SmallIsUint32(1);
    SmallIsUint32(0);
    assert BitAnd(0, 0) == 0;
  }

  lemma {:induction false} Pow2Grows(j: nat, k: nat)
    requires j <= k
    ensures Pow2(j) <= Pow2(k)
    decreases k
  {
    if j < k { Pow2Grows(j, k - 1); }
  }
}
