/**
 * JavaScript `Set`s as duplicate-free sequences in insertion order: adding
 * an element already present keeps its place, and iteration visits the
 * elements oldest first.
 */
module InsertionSet {
  import opened Wrappers

  predicate Distinct<T(==)>(s: seq<T>)
  {
    forall i, j :: 0 <= i < j < |s| ==> s[i] != s[j]
  }

  lemma DistinctTail<T>(s: seq<T>)
    requires Distinct(s) && s != []
    ensures Distinct(s[1..]) && s[0] !in s[1..]
  {
    assert forall i :: 0 < i < |s| ==> s[i] == s[1..][i - 1];
  }

  /** `set.add(x)`. */
  function Add<T(==,!new)>(s: seq<T>, x: T): (r: seq<T>)
    ensures forall y :: y in r <==> y in s || y == x
    ensures Distinct(s) ==> Distinct(r)
    ensures s <= r && |r| <= |s| + 1
  {
    if x in s then s else s + [x]
  }

  /** `xs.forEach(x => set.add(x))`. */
  function AddAll<T(==,!new)>(s: seq<T>, xs: seq<T>): (r: seq<T>)
    ensures forall y :: y in r <==> y in s || y in xs
    ensures Distinct(s) ==> Distinct(r)
    ensures s <= r
  {
    if xs == [] then s
    else
      var r := Add(AddAll(s, xs[..|xs| - 1]), xs[|xs| - 1]);
      assert forall y :: y in xs <==> y in xs[..|xs| - 1] || y == xs[|xs| - 1] by {
        assert xs == xs[..|xs| - 1] + [xs[|xs| - 1]];
      }
      r
  }

  /**
   * `pickAndRemoveFrom`: take the first element in iteration order and
   * delete it, or report null for an empty set.
   */
  function PickAndRemoveFrom<T(==,!new)>(s: seq<T>): (r: (Option<T>, seq<T>))
    ensures r.0.None? <==> s == []
    ensures r.0.None? ==> r.1 == s
    ensures r.0.Some? ==> s == [r.0.value] + r.1
    ensures Distinct(s) && r.0.Some? ==>
              Distinct(r.1) && r.0.value !in r.1 &&
              forall y :: y in r.1 <==> y in s && y != r.0.value
  {
    if s == [] then (None, s) else (Some(s[0]), s[1..])
  }
}
