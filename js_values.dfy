module Wrappers {
  datatype Option<T> = None | Some(value: T)
}

/**
  The JavaScript values the style resolver inspects: style trees, token trees,
  matcher and selector objects.  A plain object is the sequence of its own
  enumerable properties in key order; reading a property takes the last entry
  with that key, which is also how an object spread `{...o, k: v}` behaves.
  Numbers are integers.
 */
module JsValues {

  datatype Value =
    | Undefined
    | Null
    | Bool(b: bool)
    | Num(n: int)
    | Str(s: string)
    | Arr(items: seq<Value>)
    | Obj(entries: seq<(string, Value)>)

  /** `isObject`: not null or undefined, of type 'object', and not an array. */
  predicate IsObject(v: Value)
    ensures IsObject(v) <==> !IsNullish(v) && !IsPrimitiveLeaf(v) && !v.Bool? && !v.Arr?
  {
    v.Obj?
  }

  /** `typeof v === 'string' || typeof v === 'number'` */
  predicate IsPrimitiveLeaf(v: Value) {
    v.Str? || v.Num?
  }

  /** `v == null` (loose equality: null or undefined) */
  predicate IsNullish(v: Value) {
    v.Undefined? || v.Null?
  }

  /** The own properties `o[key]` reads: an object's entries; an array's items, and a string's
      characters, under their decimal indices followed by `length`.  Other values have none. */
  function Entries(v: Value): (r: seq<(string, Value)>)
    ensures v.Obj? ==> r == v.entries
  {
    match v
    case Obj(entries) => entries
    case Arr(items) => Indexed(items) + [("length", Num(|items|))]
    case Str(s) => Indexed(seq(|s|, i requires 0 <= i < |s| => Str([s[i]]))) + [("length", Num(|s|))]
    case _ => []
  }

  function Indexed(items: seq<Value>): seq<(string, Value)> {
    seq(|items|, i requires 0 <= i < |items| => (NatToString(i), items[i]))
  }

  lemma ArrayEntries(items: seq<Value>)
    ensures var r := Entries(Arr(items));
            |r| == |items| + 1 && r[|items|] == ("length", Num(|items|)) &&
            forall i :: 0 <= i < |items| ==> r[i] == (NatToString(i), items[i])
  {
  }

  /** Property read `o[key]`: the last entry with that key, or undefined. */
  function Get(entries: seq<(string, Value)>, key: string): (r: Value)
    ensures r != Undefined ==> exists i :: 0 <= i < |entries| && entries[i] == (key, r)
  {
    if entries == [] then Undefined
    else if entries[|entries| - 1].0 == key then entries[|entries| - 1].1
    else Get(entries[..|entries| - 1], key)
  }

  /** A key no entry has reads as undefined. */
  lemma {:induction false} GetMissing(entries: seq<(string, Value)>, key: string)
    requires forall i :: 0 <= i < |entries| ==> entries[i].0 != key
    ensures Get(entries, key) == Undefined
    decreases |entries|
  {
    if entries != [] {
      var n := |entries| - 1;
      assert forall i :: 0 <= i < n ==> entries[..n][i] == entries[i];
      GetMissing(entries[..n], key);
    }
  }

  /** The entry read is the last one with the key. */
  lemma {:induction false} GetLastEntry(entries: seq<(string, Value)>, key: string, i: nat)
    requires i < |entries| && entries[i].0 == key
    requires forall j :: i < j < |entries| ==> entries[j].0 != key
    ensures Get(entries, key) == entries[i].1
    decreases |entries|
  {
    var n := |entries| - 1;
    if i < n {
      assert entries[..n][i] == entries[i];
      assert forall j :: i < j < n ==> entries[..n][j] == entries[j];
      GetLastEntry(entries[..n], key, i);
    }
  }

  /** `o[key]` on any value.  Prototype properties other than `length` are left out. */
  function Lookup(v: Value, key: string): Value {
    Get(Entries(v), key)
  }

  /** `a[i]` on an array reads item `i`. */
  lemma ArrayIndexRead(items: seq<Value>, i: nat)
    requires i < |items|
    ensures Lookup(Arr(items), NatToString(i)) == items[i]
  {
    var entries := Entries(Arr(items));
    ArrayEntries(items);
    forall j | i < j < |entries| ensures entries[j].0 != NatToString(i) {
      if j < |items| {
        NatToStringRoundTrip(i);
        NatToStringRoundTrip(j);
      } else {
        assert entries[j].0[0] == 'l';
      }
    }
    GetLastEntry(entries, NatToString(i), i);
  }

  /** An array has no property `value`. */
  lemma ArrayHasNoValue(items: seq<Value>)
    ensures Lookup(Arr(items), "value") == Undefined
  {
    var entries := Entries(Arr(items));
    ArrayEntries(items);
    forall j | 0 <= j < |entries| ensures entries[j].0 != "value" {
      assert entries[j].0[0] != 'v';
    }
    GetMissing(entries, "value");
  }

  predicate IsDigit(c: char) {
    '0' <= c <= '9'
  }

  function DigitChar(d: nat): (c: char)
    requires d < 10
    ensures IsDigit(c) && c as int - '0' as int == d
  {
    ('0' as int + d) as char
  }

  /** Decimal digits of a natural number, most significant first, without leading zeros. */
  function NatToString(n: nat): (r: string)
    ensures |r| >= 1
    ensures forall k :: 0 <= k < |r| ==> IsDigit(r[k])
    decreases n
  {
    if n < 10 then [DigitChar(n)] else NatToString(n / 10) + [DigitChar(n % 10)]
  }

  /** JavaScript's decimal rendering of an integer. */
  function IntToString(n: int): (r: string)
    ensures |r| >= 1 && (r[0] == '-' <==> n < 0)
  {
    if n < 0 then "-" + NatToString(-n) else NatToString(n)
  }

  /** The number a string of decimal digits denotes. */
  function DigitsValue(s: string): nat
    requires forall k :: 0 <= k < |s| ==> IsDigit(s[k])
  {
    if s == [] then 0
    else
      assert IsDigit(s[|s| - 1]);
      DigitsValue(s[..|s| - 1]) * 10 + (s[|s| - 1] as int - '0' as int)
  }

  /** Reading the digits back gives the number. */
  lemma {:induction false} NatToStringRoundTrip(n: nat)
    ensures DigitsValue(NatToString(n)) == n
    decreases n
  {
    if n >= 10 {
      var s := NatToString(n);
      assert s[..|s| - 1] == NatToString(n / 10);
      NatToStringRoundTrip(n / 10);
    } else {
      assert [DigitChar(n)][..0] == [];
    }
  }

  /** The length of the run of digits a string begins with. */
  function DigitRun(s: string): (r: nat)
    ensures r <= |s|
  {
    if s != [] && IsDigit(s[0]) then 1 + DigitRun(s[1..]) else 0
  }

  lemma {:induction false} DigitRunAppend(digits: string, tail: string)
    requires forall k :: 0 <= k < |digits| ==> IsDigit(digits[k])
    requires tail == [] || !IsDigit(tail[0])
    ensures DigitRun(digits + tail) == |digits|
    decreases |digits|
  {
    if digits != [] {
      assert (digits + tail)[1..] == digits[1..] + tail;
      DigitRunAppend(digits[1..], tail);
    } else {
      assert digits + tail == tail;
    }
  }

  lemma DigitsSplit(d1: string, d2: string, o1: string, o2: string)
    requires forall k :: 0 <= k < |d1| ==> IsDigit(d1[k])
    requires forall k :: 0 <= k < |d2| ==> IsDigit(d2[k])
    requires o1 == [] || !IsDigit(o1[0])
    requires o2 == [] || !IsDigit(o2[0])
    requires d1 + o1 == d2 + o2
    ensures d1 == d2 && o1 == o2
  {
    DigitRunAppend(d1, o1);
    DigitRunAppend(d2, o2);
    assert d1 == (d1 + o1)[..|d1|] && o1 == (d1 + o1)[|d1|..];
    assert d2 == (d2 + o2)[..|d2|] && o2 == (d2 + o2)[|d2|..];
  }

  lemma SignThenDigits(m: int, o: string)
    ensures (IntToString(m) + o)[0] == '-' <==> m < 0
    ensures m < 0 ==> (IntToString(m) + o)[1..] == NatToString(-m) + o
    ensures m >= 0 ==> IntToString(m) + o == NatToString(m) + o
  {
    if m < 0 {
      assert IntToString(m) + o == "-" + (NatToString(-m) + o);
    }
  }

  /** A decimal rendering followed by a string that does not begin with a digit can be split
      back into the number and that string. */
  lemma IntToStringPrefixFree(m1: int, m2: int, o1: string, o2: string)
    requires o1 == [] || !IsDigit(o1[0])
    requires o2 == [] || !IsDigit(o2[0])
    requires IntToString(m1) + o1 == IntToString(m2) + o2
    ensures m1 == m2 && o1 == o2
  {
    SignThenDigits(m1, o1);
    SignThenDigits(m2, o2);
    var n1: nat := if m1 < 0 then -m1 else m1;
    var n2: nat := if m2 < 0 then -m2 else m2;
    assert NatToString(n1) + o1 == NatToString(n2) + o2;
    DigitsSplit(NatToString(n1), NatToString(n2), o1, o2);
    NatToStringRoundTrip(n1);
    NatToStringRoundTrip(n2);
  }

  /** Without that condition the split is ambiguous. */
  lemma IntToStringConcatAmbiguous()
    ensures IntToString(1) + "2x" == IntToString(12) + "x"
  {
    assert NatToString(12) == NatToString(1) + [DigitChar(2)];
  }

  /** `'' + v`: string conversion of a value. */
  function JsText(v: Value): string
    decreases v, 1
  {
    match v
    case Undefined => "undefined"
    case Null => "null"
    case Bool(b) => if b then "true" else "false"
    case Num(n) => IntToString(n)
    case Str(s) => s
    case Arr(items) => JoinItems(v, items)
    case Obj(_) => "[object Object]"
  }

  /** `Array.prototype.join(',')`, where null and undefined items become ''. */
  function JoinItems(ghost whole: Value, items: seq<Value>): string
    requires forall i :: 0 <= i < |items| ==> items[i] < whole
    decreases whole, 0, |items|
  {
    if items == [] then ""
    else
      var first := if IsNullish(items[0]) then "" else JsText(items[0]);
      if |items| == 1 then first else first + "," + JoinItems(whole, items[1..])
  }

  /** Nesting depth: primitives are 0, an object or array is one more than its deepest member. */
  function Depth(v: Value): nat
    decreases v, 1
  {
    match v
    case Arr(items) => 1 + MaxItemDepth(v, items)
    case Obj(entries) => 1 + MaxEntryDepth(v, entries)
    case _ => 0
  }

  function MaxItemDepth(ghost whole: Value, items: seq<Value>): (d: nat)
    requires forall i :: 0 <= i < |items| ==> items[i] < whole
    ensures forall i :: 0 <= i < |items| ==> Depth(items[i]) <= d
    decreases whole, 0, |items|
  {
    if items == [] then 0
    else
      var rest := MaxItemDepth(whole, items[1..]);
      var here := Depth(items[0]);
      if here < rest then rest else here
  }

  function MaxEntryDepth(ghost whole: Value, entries: seq<(string, Value)>): (d: nat)
    requires forall i :: 0 <= i < |entries| ==> entries[i].1 < whole
    ensures forall i :: 0 <= i < |entries| ==> Depth(entries[i].1) <= d
    decreases whole, 0, |entries|
  {
    if entries == [] then 0
    else
      var rest := MaxEntryDepth(whole, entries[1..]);
      var here := Depth(entries[0].1);
      if here < rest then rest else here
  }

  /** The deepest property value of an object's entries. */
  function EntriesDepth(entries: seq<(string, Value)>): (d: nat)
    ensures forall i :: 0 <= i < |entries| ==> Depth(entries[i].1) <= d
  {
    if entries == [] then 0
    else
      var rest := EntriesDepth(entries[1..]);
      var here := Depth(entries[0].1);
      if here < rest then rest else here
  }

  lemma {:induction false} EntriesDepthOf(v: Value, entries: seq<(string, Value)>)
    requires forall i :: 0 <= i < |entries| ==> entries[i].1 < v
    ensures EntriesDepth(entries) == MaxEntryDepth(v, entries)
  {
    if entries != [] {
      EntriesDepthOf(v, entries[1..]);
    }
  }

  /** An object is one deeper than its deepest property. */
  lemma ObjectDepth(v: Value)
    requires v.Obj?
    ensures Depth(v) == 1 + EntriesDepth(v.entries)
  {
    EntriesDepthOf(v, v.entries);
  }

  /** A property of an object is strictly shallower than the object. */
  lemma EntryShallower(v: Value, i: int)
    requires v.Obj? && 0 <= i < |v.entries|
    ensures Depth(v.entries[i].1) < Depth(v)
  {
  }
}
