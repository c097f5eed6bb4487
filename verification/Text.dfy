/** Substring search. */
module Text {
  import opened FixedWidth

  predicate OccursAt(text: string, pattern: string, i: nat) {
    i + |pattern| <= |text| && text[i..i + |pattern|] == pattern
  }

  /** The first place at or after `from` where `pattern` occurs. */
  function Find(text: string, pattern: string, from: nat): (r: Option<nat>)
    requires from <= |text|
    ensures r.Some? ==>
              && from <= r.value && OccursAt(text, pattern, r.value)
              && forall i :: from <= i < r.value ==> !OccursAt(text, pattern, i)
    ensures r.None? ==> forall i :: from <= i ==> !OccursAt(text, pattern, i)
    decreases |text| - from
  {
    if OccursAt(text, pattern, from) then Some(from)
    else if from == |text| then None
    else Find(text, pattern, from + 1)
  }
}
