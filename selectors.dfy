/**
  Recognising nested-selector property names (`:hover`, `[data-x]`, `> *`,
  `&.active`) and turning them into the text appended to the selector prefix.
 */
module Selectors {

  /** The alternatives of the anchored pattern `^(:|\[|>|&)`. */
  const NestedSelectorPattern: seq<string> := [":", "[", ">", "&"]

  /** `^(alt1|alt2|...)` tested against `s`: some alternative is a prefix of `s`. */
  predicate MatchesAtStart(alternatives: seq<string>, s: string) {
    exists i :: 0 <= i < |alternatives| && alternatives[i] <= s
  }

  /** `isNestedSelector`: the regular-expression test of the property name. */
  predicate IsNestedSelector(property: string) {
    MatchesAtStart(NestedSelectorPattern, property)
  }

  /** A nested selector is exactly a non-empty name starting with one of `:`, `[`, `>`, `&`. */
  lemma NestedSelectorFirstChar(property: string)
    ensures IsNestedSelector(property) <==>
              |property| > 0 && property[0] in {':', '[', '>', '&'}
  {
    if |property| > 0 && property[0] in {':', '[', '>', '&'} {
      var k := if property[0] == ':' then 0 else if property[0] == '[' then 1
               else if property[0] == '>' then 2 else 3;
      assert NestedSelectorPattern[k] <= property;
    }
  }

  /** `normalizeNestedProperty`: drop one leading `&`, keep anything else as it is. */
  function NormalizeNestedProperty(nestedProperty: string): (r: string)
    ensures |nestedProperty| > 0 && nestedProperty[0] == '&' ==> "&" + r == nestedProperty
    ensures !(|nestedProperty| > 0 && nestedProperty[0] == '&') ==> r == nestedProperty
  {
    if |nestedProperty| > 0 && nestedProperty[0] == '&' then nestedProperty[1..]
    else nestedProperty
  }

  /** Normalising never removes more than the one ampersand: a second `&` survives. */
  lemma NormalizeRemovesOnlyOne(s: string)
    ensures NormalizeNestedProperty("&&" + s) == "&" + s
  {
    assert ("&&" + s)[1..] == "&" + s;
  }
}
