/**
  The extra class names a style query receives.  Each string is split on single
  spaces; a piece the target renderer's cache knows is an override (its
  declaration is merged last, and the piece goes into the cache key), any
  other piece is passed through.  Both kinds are concatenated as they come,
  without separators.
 */
module ClassNames {
  import opened Wrappers
  import opened Declarations

  /** `s.split(' ')`: the pieces between single spaces, empty pieces included. */
  function Split(s: string): (r: seq<string>)
    ensures |r| >= 1
    decreases |s|
  {
    if s == [] then [""]
    else
      var rest := Split(s[1..]);
      if s[0] == ' ' then [""] + rest else [[s[0]] + rest[0]] + rest[1..]
  }

  /** `pieces.join(' ')` */
  function Join(pieces: seq<string>): string
    decreases |pieces|
  {
    if pieces == [] then ""
    else if |pieces| == 1 then pieces[0]
    else pieces[0] + " " + Join(pieces[1..])
  }

  predicate NoSpace(s: string) {
    forall k :: 0 <= k < |s| ==> s[k] != ' '
  }

  /** Joining the pieces gives the string back, and no piece holds a space. */
  lemma {:induction false} SplitJoin(s: string)
    ensures Join(Split(s)) == s
    ensures forall k :: 0 <= k < |Split(s)| ==> NoSpace(Split(s)[k])
    decreases |s|
  {
    if s != [] {
      SplitJoin(s[1..]);
      var rest := Split(s[1..]);
      assert s == [s[0]] + s[1..];
      if s[0] == ' ' {
        assert Join([""] + rest) == "" + " " + Join(rest) by {
          assert ([""] + rest)[1..] == rest;
        }
      } else {
        var r := [[s[0]] + rest[0]] + rest[1..];
        assert r[1..] == rest[1..];
        if |rest| > 1 {
          assert Join(rest) == rest[0] + " " + Join(rest[1..]);
          assert Join(r) == ([s[0]] + rest[0]) + " " + Join(rest[1..]);
        }
        forall k | 0 <= k < |r| ensures NoSpace(r[k]) {
          if k == 0 {
            assert NoSpace(rest[0]);
          } else {
            assert r[k] == rest[k];
          }
        }
      }
    }
  }

  /** Splitting a string that starts with a word without spaces. */
  lemma {:induction false} SplitWord(w: string, t: string)
    requires NoSpace(w)
    ensures Split(w + t) == [w + Split(t)[0]] + Split(t)[1..]
    decreases |w|
  {
    if w != [] {
      var R := Split(t);
      assert (w + t)[0] == w[0] && (w + t)[1..] == w[1..] + t;
      SplitWord(w[1..], t);
      var rest := Split(w[1..] + t);
      assert rest == [w[1..] + R[0]] + R[1..];
      assert rest[1..] == R[1..];
      assert w[0] != ' ' && w + t != [];
      assert Split(w + t) == [[w[0]] + rest[0]] + rest[1..];
      assert [w[0]] + (w[1..] + R[0]) == w + R[0];
    } else {
      var R := Split(t);
      assert w + t == t && w + R[0] == R[0] && [R[0]] + R[1..] == R;
    }
  }

  /** Splitting a join of space-free pieces gives the pieces back. */
  lemma {:induction false} JoinSplit(pieces: seq<string>)
    requires |pieces| >= 1
    requires forall k :: 0 <= k < |pieces| ==> NoSpace(pieces[k])
    ensures Split(Join(pieces)) == pieces
    decreases |pieces|
  {
    if |pieces| == 1 {
      SplitWord(pieces[0], "");
      assert pieces[0] + "" == pieces[0];
    } else {
      var tail := Join(pieces[1..]);
      JoinSplit(pieces[1..]);
      assert Join(pieces) == pieces[0] + (" " + tail);
      SplitWord(pieces[0], " " + tail);
      assert (" " + tail)[1..] == tail;
      assert Split(" " + tail) == [""] + pieces[1..];
      assert pieces[0] + "" == pieces[0];
    }
  }

  /** What the query collects from its class names: the pass-through names, the override
      declarations, and the override names that go into the cache key. */
  datatype ClassSplit = ClassSplit(nonMake: string, overrides: CompiledMap, overridesCx: string)

  const NoClasses: ClassSplit := ClassSplit("", map[], "")

  /** Piece `c` names a declaration of the renderer's cache for property key `k`. */
  predicate Overrides(cache: RendererCache, c: string, k: string) {
    c in cache && cache[c].0 == k
  }

  function SortPiece(cache: RendererCache, acc: ClassSplit, c: string): ClassSplit {
    if c in cache then
      acc.(overrides := acc.overrides[cache[c].0 := cache[c].1], overridesCx := acc.overridesCx + c)
    else
      acc.(nonMake := acc.nonMake + c)
  }

  /** The inner `forEach` over pieces, in order. */
  function SortPieces(cache: RendererCache, acc: ClassSplit, pieces: seq<string>): ClassSplit
    decreases |pieces|
  {
    if pieces == [] then acc
    else SortPiece(cache, SortPieces(cache, acc, pieces[..|pieces| - 1]), pieces[|pieces| - 1])
  }

  /** The pieces of the class names that are strings, in order; `undefined` names are skipped. */
  function Pieces(classNames: seq<Option<string>>): seq<string>
    decreases |classNames|
  {
    if classNames == [] then []
    else
      var last := classNames[|classNames| - 1];
      Pieces(classNames[..|classNames| - 1]) + (if last.Some? then Split(last.value) else [])
  }

  function Classes(cache: RendererCache, classNames: seq<Option<string>>): (r: ClassSplit)
    ensures r.nonMake == Concat(Unknown(cache, Pieces(classNames)))
    ensures r.overridesCx == Concat(Known(cache, Pieces(classNames)))
  {
    SortPiecesRoute(cache, NoClasses, Pieces(classNames));
    SortPieces(cache, NoClasses, Pieces(classNames))
  }

  /** The pieces the cache knows, and those it does not, each in order. */
  function Known(cache: RendererCache, pieces: seq<string>): seq<string> {
    if pieces == [] then []
    else (if pieces[0] in cache then [pieces[0]] else []) + Known(cache, pieces[1..])
  }

  function Unknown(cache: RendererCache, pieces: seq<string>): seq<string> {
    if pieces == [] then []
    else (if pieces[0] in cache then [] else [pieces[0]]) + Unknown(cache, pieces[1..])
  }

  function Concat(pieces: seq<string>): string {
    if pieces == [] then "" else pieces[0] + Concat(pieces[1..])
  }

  lemma {:induction false} KnownSnoc(cache: RendererCache, pieces: seq<string>, c: string)
    ensures Known(cache, pieces + [c]) == Known(cache, pieces) + Known(cache, [c])
    ensures Unknown(cache, pieces + [c]) == Unknown(cache, pieces) + Unknown(cache, [c])
  {
    if pieces != [] {
      assert (pieces + [c])[1..] == pieces[1..] + [c];
      KnownSnoc(cache, pieces[1..], c);
    }
  }

  lemma {:induction false} ConcatAppend(a: seq<string>, b: seq<string>)
    ensures Concat(a + b) == Concat(a) + Concat(b)
  {
    if a != [] {
      assert (a + b)[0] == a[0] && (a + b)[1..] == a[1..] + b;
      ConcatAppend(a[1..], b);
      calc {
        Concat(a + b);
        a[0] + Concat(a[1..] + b);
        a[0] + (Concat(a[1..]) + Concat(b));
        (a[0] + Concat(a[1..])) + Concat(b);
      }
    } else {
      assert a + b == b;
    }
  }

  /** Pass-through names are the unknown pieces run together; override names the known ones. */
  lemma {:induction false} SortPiecesRoute(cache: RendererCache, acc: ClassSplit, pieces: seq<string>)
    ensures var r := SortPieces(cache, acc, pieces);
            r.nonMake == acc.nonMake + Concat(Unknown(cache, pieces)) &&
            r.overridesCx == acc.overridesCx + Concat(Known(cache, pieces))
    decreases |pieces|
  {
    if pieces != [] {
      var init, c := pieces[..|pieces| - 1], pieces[|pieces| - 1];
      assert pieces == init + [c];
      SortPiecesRoute(cache, acc, init);
      KnownSnoc(cache, init, c);
      ConcatAppend(Unknown(cache, init), Unknown(cache, [c]));
      ConcatAppend(Known(cache, init), Known(cache, [c]));
    }
  }

  /** A property key is overridden iff the accumulator had it or some piece names a declaration
      of it. */
  lemma {:induction false} OverriddenKeys(cache: RendererCache, acc: ClassSplit, pieces: seq<string>, k: string)
    ensures k in SortPieces(cache, acc, pieces).overrides <==>
            k in acc.overrides || exists j :: 0 <= j < |pieces| && Overrides(cache, pieces[j], k)
    decreases |pieces|
  {
    if pieces != [] {
      var n := |pieces| - 1;
      var init := pieces[..n];
      OverriddenKeys(cache, acc, init, k);
      if Overrides(cache, pieces[n], k) {
        assert k in SortPieces(cache, acc, pieces).overrides;
      } else {
        if exists j :: 0 <= j < |pieces| && Overrides(cache, pieces[j], k) {
          var j :| 0 <= j < |pieces| && Overrides(cache, pieces[j], k);
          assert init[j] == pieces[j];
        }
        InitOverrides(cache, pieces, k);
      }
    }
  }

  lemma InitOverrides(cache: RendererCache, pieces: seq<string>, k: string)
    requires pieces != []
    ensures forall j :: 0 <= j < |pieces| - 1 && Overrides(cache, pieces[..|pieces| - 1][j], k) ==>
              Overrides(cache, pieces[j], k)
  {
  }

  /** The override for property key `k` is the declaration named by the last piece for `k`. */
  lemma {:induction false} LastOverrideWins(cache: RendererCache, acc: ClassSplit, pieces: seq<string>, k: string, j: nat)
    requires j < |pieces| && Overrides(cache, pieces[j], k)
    requires forall j' :: j < j' < |pieces| ==> !Overrides(cache, pieces[j'], k)
    ensures var r := SortPieces(cache, acc, pieces).overrides; k in r && r[k] == cache[pieces[j]].1
    decreases |pieces|
  {
    var n := |pieces| - 1;
    if j < n {
      var init := pieces[..n];
      assert init[j] == pieces[j];
      assert !Overrides(cache, pieces[n], k);
      LastOverrideWins(cache, acc, init, k, j);
    }
  }

  /** Without a piece for `k`, the accumulator's override for `k` is kept. */
  lemma {:induction false} OverrideKept(cache: RendererCache, acc: ClassSplit, pieces: seq<string>, k: string)
    requires forall j :: 0 <= j < |pieces| ==> !Overrides(cache, pieces[j], k)
    requires k in acc.overrides
    ensures var r := SortPieces(cache, acc, pieces).overrides; k in r && r[k] == acc.overrides[k]
    decreases |pieces|
  {
    if pieces != [] {
      var n := |pieces| - 1;
      var init := pieces[..n];
      assert !Overrides(cache, pieces[n], k);
      assert forall j :: 0 <= j < n ==> init[j] == pieces[j];
      OverrideKept(cache, acc, init, k);
    }
  }

  lemma {:induction false} PiecesNoSpace(classNames: seq<Option<string>>)
    ensures forall k :: 0 <= k < |Pieces(classNames)| ==> NoSpace(Pieces(classNames)[k])
    decreases |classNames|
  {
    if classNames != [] {
      var last := classNames[|classNames| - 1];
      PiecesNoSpace(classNames[..|classNames| - 1]);
      if last.Some? {
        SplitJoin(last.value);
      }
    }
  }

  lemma {:induction false} ConcatNoSpace(pieces: seq<string>)
    requires forall k :: 0 <= k < |pieces| ==> NoSpace(pieces[k])
    ensures NoSpace(Concat(pieces))
  {
    if pieces != [] {
      ConcatNoSpace(pieces[1..]);
    }
  }

  lemma {:induction false} KnownFrom(cache: RendererCache, pieces: seq<string>)
    ensures forall k :: 0 <= k < |Known(cache, pieces)| ==> Known(cache, pieces)[k] in pieces
    ensures forall k :: 0 <= k < |Unknown(cache, pieces)| ==> Unknown(cache, pieces)[k] in pieces
  {
    if pieces != [] {
      KnownFrom(cache, pieces[1..]);
    }
  }

  /** The two strings of the split hold no space. */
  lemma ClassesAreSpaceFree(cache: RendererCache, classNames: seq<Option<string>>)
    ensures var r := Classes(cache, classNames);
            NoSpace(r.nonMake) && NoSpace(r.overridesCx)
  {
    var pieces := Pieces(classNames);
    PiecesNoSpace(classNames);
    KnownFrom(cache, pieces);
    ConcatNoSpace(Known(cache, pieces));
    ConcatNoSpace(Unknown(cache, pieces));
  }

  /** Two pass-through names in one string lose the space between them. */
  lemma PassThroughRunTogether(cache: RendererCache)
    requires "x" !in cache && "y" !in cache
    ensures Classes(cache, [Some("x y")]).nonMake == "xy"
  {
    assert NoSpace("x") && NoSpace("y");
    assert Join(["x", "y"]) == "x y" by {
      assert ["x", "y"][1..] == ["y"];
    }
    JoinSplit(["x", "y"]);
    assert [Some("x y")][..0] == [];
    assert Pieces([Some("x y")]) == ["x", "y"];
    assert ["x", "y"][..1] == ["x"] && ["x"][..0] == [];
    assert SortPieces(cache, NoClasses, ["x"]).nonMake == "x";
    assert Pieces([Some("x y")]) == ["x", "y"];
    assert ["x", "y"][..1] == ["x"];
  }

  lemma SortPiecesSnoc(cache: RendererCache, acc: ClassSplit, done: seq<string>, pieces: seq<string>, j: nat)
    requires j < |pieces|
    ensures SortPieces(cache, acc, done + pieces[..j + 1]) == SortPiece(cache, SortPieces(cache, acc, done + pieces[..j]), pieces[j])
  {
    assert (done + pieces[..j + 1])[..|done + pieces[..j + 1]| - 1] == done + pieces[..j];
  }

  lemma PiecesSnoc(classNames: seq<Option<string>>, i: nat)
    requires i < |classNames|
    ensures Pieces(classNames[..i + 1]) ==
            Pieces(classNames[..i]) + (if classNames[i].Some? then Split(classNames[i].value) else [])
  {
    assert classNames[..i + 1][..i] == classNames[..i];
  }

  /** The `classNames.forEach` of the query closure. */
  method SortClassNames(cache: RendererCache, classNames: seq<Option<string>>) returns (split: ClassSplit)
    ensures split == Classes(cache, classNames)
  {
    split := NoClasses;
    var i := 0;
    while i < |classNames|
      invariant 0 <= i <= |classNames|
      invariant split == SortPieces(cache, NoClasses, Pieces(classNames[..i]))
    {
      PiecesSnoc(classNames, i);
      if classNames[i].Some? {
        var pieces := Split(classNames[i].value);
        ghost var done := Pieces(classNames[..i]);
        assert done + pieces[..0] == done;
        var j := 0;
        while j < |pieces|
          invariant 0 <= j <= |pieces|
          invariant split == SortPieces(cache, NoClasses, done + pieces[..j])
        {
          var c := pieces[j];
          SortPiecesSnoc(cache, NoClasses, done, pieces, j);
          if c in cache {
            split := split.(overrides := split.overrides[cache[c].0 := cache[c].1], overridesCx := split.overridesCx + c);
          } else {
            split := split.(nonMake := split.nonMake + c);
          }
          j := j + 1;
        }
        assert pieces[..j] == pieces;
      } else {
        assert Pieces(classNames[..i]) + [] == Pieces(classNames[..i]);
      }
      i := i + 1;
    }
    assert classNames[..i] == classNames;
  }
}
