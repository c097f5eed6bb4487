/** Sequences of numbers in order. */
module Sorting {

  predicate Ascending(s: seq<nat>) { forall i, j :: 0 <= i < j < |s| ==> s[i] <= s[j] }

  predicate StrictlyAscending(s: seq<nat>) { forall i, j :: 0 <= i < j < |s| ==> s[i] < s[j] }

  lemma ConsAscending(x: nat, s: seq<nat>)
    requires Ascending(s) && forall y :: y in s ==> x <= y
    ensures Ascending([x] + s)
  {
    var r := [x] + s;
    assert forall i :: 0 < i < |r| ==> r[i] == s[i - 1] && s[i - 1] in s;
  }

  /** Put `x` where it belongs in the sorted `s`. */
  function Insert(s: seq<nat>, x: nat): (r: seq<nat>)
    requires Ascending(s)
    ensures Ascending(r) && |r| == |s| + 1 && forall y :: y in r <==> y == x || y in s
  {
    if s == [] then [x]
    else if x <= s[0] then [x] + s
    else
      assert forall y :: y in s <==> y == s[0] || y in s[1..];
      var rest := Insert(s[1..], x);
      ConsAscending(s[0], rest);
      [s[0]] + rest
  }

  lemma ConsDistinct(x: nat, s: seq<nat>)
    requires StrictlyAscending(s) && forall y :: y in s ==> x < y
    ensures StrictlyAscending([x] + s)
  {
    var r := [x] + s;
    assert forall i :: 0 < i < |r| ==> r[i] == s[i - 1] && s[i - 1] in s;
  }

  /** Inserting a new number keeps the numbers distinct. */
  lemma {:induction false} InsertKeepsDistinct(s: seq<nat>, x: nat)
    requires StrictlyAscending(s) && x !in s
    ensures StrictlyAscending(Insert(s, x))
  {
    if s == [] {
    } else if x <= s[0] {
      ConsDistinct(x, s);
    } else {
      InsertKeepsDistinct(s[1..], x);
      assert forall y :: y in s[1..] ==> s[0] < y;
      ConsDistinct(s[0], Insert(s[1..], x));
    }
  }
}
