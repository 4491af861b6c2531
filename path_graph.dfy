/**
  `graph`, `graphGet` and `graphSet`: a store of values reached through a path
  of keys in nested `Map`s.  The nested maps are flattened: the map reached by
  the key path `p` is the entry `p ↦ SubMap`, a stored value is `p ↦ Leaf(v)`,
  and the root map is the empty path.  Stored values are objects, so they are
  always truthy.
 */
module PathGraph {

  datatype Slot<V> = SubMap | Leaf(value: V)

  /** What `graphGet` gives: the node found, undefined, or a TypeError from calling `.get`
      on a stored value that is not a Map. */
  datatype GetResult<V> = Found(slot: Slot<V>) | Missing | NotAMap

  /** `p` is a proper prefix of `q`. */
  predicate StrictPrefix<K(==)>(p: seq<K>, q: seq<K>) {
    |p| < |q| && q[..|p|] == p
  }

  /** Walking the rest of the path from node `cur`, which sits at `here`. */
  function Walk<K(==), V>(slots: map<seq<K>, Slot<V>>, cur: Slot<V>, here: seq<K>, rest: seq<K>): (r: GetResult<V>)
    ensures r.Found? && rest != [] ==> here + rest in slots && slots[here + rest] == r.slot
    decreases |rest|
  {
    if rest == [] then Found(cur)
    else if cur.Leaf? then NotAMap
    else if here + [rest[0]] !in slots then Missing
    else
      assert (here + [rest[0]]) + rest[1..] == here + rest;
      assert rest[1..] == [] ==> rest == [rest[0]];
      Walk(slots, slots[here + [rest[0]]], here + [rest[0]], rest[1..])
  }

  /** `graphGet(root, path)` as a value: the root for the empty path, and otherwise only ever the
      slot stored at exactly that path. */
  function Lookup<K(==), V>(slots: map<seq<K>, Slot<V>>, path: seq<K>): (r: GetResult<V>)
    ensures path == [] ==> r == Found(SubMap)
    ensures r.Found? && path != [] ==> path in slots && slots[path] == r.slot
  {
    assert [] + path == path;
    Walk(slots, SubMap, [], path)
  }

  /** `map.set(key, value)` where `key` is reached at `p`: the old subtree under `p` goes away. */
  function Replace<K(==), V>(slots: map<seq<K>, Slot<V>>, p: seq<K>, v: V): (r: map<seq<K>, Slot<V>>)
    ensures p in r && r[p] == Leaf(v)
    ensures forall q :: q in r && q != p ==> q in slots && r[q] == slots[q] && !StrictPrefix(p, q)
    ensures forall q :: q in slots && !StrictPrefix(p, q) && q != p ==> q in r
  {
    (map q | q in slots && !StrictPrefix(p, q) :: slots[q])[p := Leaf(v)]
  }

  /** `graphSet` from node `cur` at `here`: the new slots, and false when it threw a TypeError. */
  function SetFrom<K(==), V>(slots: map<seq<K>, Slot<V>>, cur: Slot<V>, here: seq<K>, rest: seq<K>, v: V)
    : (r: (map<seq<K>, Slot<V>>, bool))
    requires |rest| > 0
    ensures r.1 ==> here + rest in r.0 && r.0[here + rest] == Leaf(v)
    decreases |rest|
  {
    var next := here + [rest[0]];
    assert |rest| > 1 ==> next + rest[1..] == here + rest;
    assert |rest| == 1 ==> rest == [rest[0]];
    if cur.Leaf? then (slots, false)
    else if |rest| == 1 then (Replace(slots, next, v), true)
    else if next in slots then SetFrom(slots, slots[next], next, rest[1..], v)
    else SetFrom(slots[next := SubMap], SubMap, next, rest[1..], v)
  }

  class PathStore<K(==), V> {
    var slots: map<seq<K>, Slot<V>>

    constructor ()
      ensures slots == map[]
    {
      slots := map[];
    }

    /** `graphGet(graph, path)` */
    method Get(path: seq<K>) returns (r: GetResult<V>)
      ensures r == Lookup(slots, path)
    {
      var cur: Slot<V> := SubMap;
      var i := 0;
      while i < |path|
        invariant 0 <= i <= |path|
        invariant Lookup(slots, path) == Walk(slots, cur, path[..i], path[i..])
      {
        assert path[..i] + [path[i..][0]] == path[..i + 1];
        assert path[i..][1..] == path[i + 1..];
        if cur.Leaf? {
          return NotAMap;
        }
        if path[..i + 1] !in slots {
          return Missing;
        }
        cur := slots[path[..i + 1]];
        i := i + 1;
      }
      return Found(cur);
    }

    /** `graphSet(graph, path, value)`; `ok` is false where the source throws a TypeError. */
    method Set(path: seq<K>, value: V) returns (ok: bool)
      requires |path| > 0
      modifies this
      ensures (slots, ok) == SetFrom(old(slots), SubMap, [], path, value)
    {
      var cur: Slot<V> := SubMap;
      var i := 0;
      while i < |path| - 1
        invariant 0 <= i <= |path| - 1
        invariant SetFrom(old(slots), SubMap, [], path, value) == SetFrom(slots, cur, path[..i], path[i..], value)
      {
        assert path[..i] + [path[i..][0]] == path[..i + 1];
        assert path[i..][1..] == path[i + 1..];
        if cur.Leaf? {
          return false;
        }
        var key := path[..i + 1];
        if key !in slots {
          slots := slots[key := SubMap];
        }
        cur := slots[key];
        i := i + 1;
      }
      assert path[..i] + [path[i..][0]] == path;
      if cur.Leaf? {
        return false;
      }
      slots := Replace(slots, path, value);
      return true;
    }
  }

  /** `graphSet` changes only what lies strictly below `here`. */
  lemma {:induction false} SetFromFrame<K, V>(slots: map<seq<K>, Slot<V>>, cur: Slot<V>, here: seq<K>,
                                                rest: seq<K>, v: V, q: seq<K>)
    requires |rest| > 0
    requires !StrictPrefix(here, q)
    ensures var s' := SetFrom(slots, cur, here, rest, v).0;
            (q in s' <==> q in slots) && (q in slots ==> s'[q] == slots[q])
    decreases |rest|
  {
    var next := here + [rest[0]];
    if cur.Leaf? || |rest| == 1 {
      ExtensionOfExtension(here, rest[0], q);
    } else {
      ExtensionOfExtension(here, rest[0], q);
      if next in slots {
        SetFromFrame(slots, slots[next], next, rest[1..], v, q);
      } else {
        SetFromFrame(slots[next := SubMap], SubMap, next, rest[1..], v, q);
      }
    }
  }

  /** A top-level `graphSet(graph, path, v)` leaves every path that is neither a prefix of
      `path` nor an extension of it as it was. */
  lemma GraphSetFrame<K, V>(slots: map<seq<K>, Slot<V>>, path: seq<K>, v: V, q: seq<K>)
    requires |path| > 0
    requires !(q <= path) && !StrictPrefix(path, q)
    ensures var s' := SetFrom(slots, SubMap, [], path, v).0;
            (q in s' <==> q in slots) && (q in slots ==> s'[q] == slots[q])
  {
    assert [] + path == path;
    SetFromAside(slots, SubMap, [], path, v, q);
  }

  /** `graphSet` from `here` touches only the prefixes of `here + rest` longer than `here`, and the
      paths below `here + rest`. */
  lemma {:induction false} SetFromAside<K, V>(slots: map<seq<K>, Slot<V>>, cur: Slot<V>, here: seq<K>,
                                               rest: seq<K>, v: V, q: seq<K>)
    requires |rest| > 0
    requires !(q <= here + rest && |q| > |here|) && !StrictPrefix(here + rest, q)
    ensures var s' := SetFrom(slots, cur, here, rest, v).0;
            (q in s' <==> q in slots) && (q in slots ==> s'[q] == slots[q])
    decreases |rest|
  {
    var next := here + [rest[0]];
    if |rest| == 1 {
      assert next == here + rest;
    } else if !cur.Leaf? {
      assert next + rest[1..] == here + rest;
      assert next <= here + rest;
      if next in slots {
        SetFromAside(slots, slots[next], next, rest[1..], v, q);
      } else {
        SetFromAside(slots[next := SubMap], SubMap, next, rest[1..], v, q);
      }
    }
  }

  lemma ExtensionOfExtension<K>(here: seq<K>, key: K, q: seq<K>)
    ensures StrictPrefix(here + [key], q) || q == here + [key] ==> StrictPrefix(here, q)
  {
    if StrictPrefix(here + [key], q) {
      assert q[..|here|] == (q[..|here| + 1])[..|here|];
    }
    if q == here + [key] {
      assert q[..|here|] == here;
    }
  }

  /** After a `graphSet` that did not throw, walking the same path finds the value. */
  lemma {:induction false} WalkAfterSetFrom<K, V>(slots: map<seq<K>, Slot<V>>, cur: Slot<V>, here: seq<K>,
                                                    rest: seq<K>, v: V)
    requires |rest| > 0
    requires SetFrom(slots, cur, here, rest, v).1
    ensures Walk(SetFrom(slots, cur, here, rest, v).0, cur, here, rest) == Found(Leaf(v))
    decreases |rest|
  {
    var next := here + [rest[0]];
    var s' := SetFrom(slots, cur, here, rest, v).0;
    if |rest| > 1 {
      assert !StrictPrefix(next, next);
      if next in slots {
        SetFromFrame(slots, slots[next], next, rest[1..], v, next);
        WalkAfterSetFrom(slots, slots[next], next, rest[1..], v);
      } else {
        SetFromFrame(slots[next := SubMap], SubMap, next, rest[1..], v, next);
        WalkAfterSetFrom(slots[next := SubMap], SubMap, next, rest[1..], v);
      }
    }
  }

  /** `graphGet(g, p)` returns `v` after `graphSet(g, p, v)` on a non-empty path, unless the
      set threw because a value already sat where the path needs a Map. */
  lemma {:induction false} GetAfterSet<K, V>(slots: map<seq<K>, Slot<V>>, path: seq<K>, v: V)
    requires |path| > 0
    requires SetFrom(slots, SubMap, [], path, v).1
    ensures Lookup(SetFrom(slots, SubMap, [], path, v).0, path) == Found(Leaf(v))
  {
    WalkAfterSetFrom(slots, SubMap, [], path, v);
  }

  /** `graphSet` along a path whose prefixes hold Maps or nothing never throws. */
  lemma {:induction false} SetFromSucceeds<K, V>(slots: map<seq<K>, Slot<V>>, here: seq<K>, rest: seq<K>, v: V)
    requires |rest| > 0
    requires forall j :: 0 < j < |rest| && here + rest[..j] in slots ==> slots[here + rest[..j]] == SubMap
    ensures SetFrom(slots, SubMap, here, rest, v).1
    decreases |rest|
  {
    if |rest| > 1 {
      var next := here + [rest[0]];
      assert here + rest[..1] == next;
      var s1 := if next in slots then slots else slots[next := SubMap];
      assert s1[next] == SubMap;
      forall j | 0 < j < |rest[1..]| && next + rest[1..][..j] in s1
        ensures s1[next + rest[1..][..j]] == SubMap
      {
        assert next + rest[1..][..j] == here + rest[..j + 1];
      }
      SetFromSucceeds(s1, next, rest[1..], v);
    }
  }

  /** `graphGet` gives undefined as soon as a key along the path is missing. */
  lemma {:induction false} MissingPrefixGivesUndefined<K, V>(slots: map<seq<K>, Slot<V>>, path: seq<K>, j: nat)
    requires j < |path|
    requires path[..j + 1] !in slots
    requires forall k :: 0 < k <= j ==> path[..k] in slots && slots[path[..k]] == SubMap
    ensures Lookup(slots, path) == Missing
  {
    assert [] + path[..j + 1] == path[..j + 1];
    forall k | 0 < k <= j ensures [] + path[..k] == path[..k] { }
    WalkMissing(slots, SubMap, [], path, j);
  }

  lemma {:induction false} WalkMissing<K, V>(slots: map<seq<K>, Slot<V>>, cur: Slot<V>, here: seq<K>,
                                               rest: seq<K>, j: nat)
    requires cur == SubMap
    requires j < |rest|
    requires here + rest[..j + 1] !in slots
    requires forall k :: 0 < k <= j ==> here + rest[..k] in slots && slots[here + rest[..k]] == SubMap
    ensures Walk(slots, cur, here, rest) == Missing
    decreases |rest|
  {
    var next := here + [rest[0]];
    assert here + rest[..1] == next;
    if j > 0 {
      assert slots[next] == SubMap;
      forall k | 0 < k <= j - 1
        ensures next + rest[1..][..k] in slots && slots[next + rest[1..][..k]] == SubMap
      {
        assert next + rest[1..][..k] == here + rest[..k + 1];
      }
      assert next + rest[1..][..j] == here + rest[..j + 1];
      WalkMissing(slots, SubMap, next, rest[1..], j - 1);
    }
  }
}
