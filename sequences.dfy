/** Searching sequences, and LINQ's `Distinct` over them. */
module Sequences {
  import opened Wrappers

  /** The index of the first `x` in `s` (`IndexOf`). */
  function FirstIndexOf<T(==)>(s: seq<T>, x: T): (r: Option<nat>)
    ensures r.None? <==> x !in s
    ensures r.Some? ==> r.value < |s| && s[r.value] == x && x !in s[..r.value]
  {
    if s == [] then None
    else if s[0] == x then Some(0)
    else match FirstIndexOf(s[1..], x)
      case None => None
      case Some(k) => Some(k + 1)
  }

  /** The index of the last `x` in `s` (`LastIndexOf`). */
  function LastIndexOf<T(==)>(s: seq<T>, x: T): (r: Option<nat>)
    ensures r.None? <==> x !in s
    ensures r.Some? ==> r.value < |s| && s[r.value] == x && x !in s[r.value + 1..]
  {
    if s == [] then None
    else if s[|s| - 1] == x then Some(|s| - 1)
    else LastIndexOf(s[..|s| - 1], x)
  }

  predicate NoDuplicates<T(==)>(s: seq<T>)
  {
    forall i, j :: 0 <= i < j < |s| ==> s[i] != s[j]
  }

  /** `Enumerable.Distinct`: the elements of `s`, each once, where it first occurs. */
  function Distinct<T(==)>(s: seq<T>): (r: seq<T>)
    ensures NoDuplicates(r)
    ensures forall i :: 0 <= i < |r| ==> r[i] in s
    ensures forall i :: 0 <= i < |s| ==> s[i] in r
  {
    if s == [] then []
    else
      var d := Distinct(s[..|s| - 1]);
      if s[|s| - 1] in d then d else d + [s[|s| - 1]]
  }

  /** `Distinct` keeps the order of first occurrences. */
  lemma {:induction false} DistinctKeepsFirstOccurrenceOrder<T>(s: seq<T>, i: nat, j: nat)
    requires i < j < |Distinct(s)|
    ensures FirstIndexOf(s, Distinct(s)[i]).value < FirstIndexOf(s, Distinct(s)[j]).value
  {
    var init := s[..|s| - 1];
    var d := Distinct(init);
    var x := s[|s| - 1];
    assert s == init + [x];
    var a, b := Distinct(s)[i], Distinct(s)[j];
    FirstIndexInPrefix(init, x, a);
    if j < |d| {
      DistinctKeepsFirstOccurrenceOrder(init, i, j);
      FirstIndexInPrefix(init, x, b);
    } else {
      assert b == x && x !in init;
      FirstIndexAtEnd(init, x);
    }
  }

  lemma FirstIndexInPrefix<T>(init: seq<T>, x: T, a: T)
    requires a in init
    ensures FirstIndexOf(init + [x], a) == FirstIndexOf(init, a)
  {
    var k := FirstIndexOf(init, a).value;
    var r := FirstIndexOf(init + [x], a).value;
    assert (init + [x])[k] == a;
  }

  lemma FirstIndexAtEnd<T>(init: seq<T>, x: T)
    requires x !in init
    ensures FirstIndexOf(init + [x], x) == Some(|init|)
  {
    assert (init + [x])[|init|] == x;
  }

  /** On a sequence without duplicates `Distinct` changes nothing. */
  lemma {:induction false} DistinctOfDistinctElements<T>(s: seq<T>)
    requires NoDuplicates(s)
    ensures Distinct(s) == s
  {
    if s != [] {
      var init := s[..|s| - 1];
      DistinctOfDistinctElements(init);
      assert s == init + [s[|s| - 1]];
    }
  }
}
