/** Small value wrappers shared by the renderer modules. */
module Wrappers {

  /** An optional value: `None` stands for a null reference, a missing entry or an unset slot. */
  datatype Option<+T> = None | Some(value: T)

  /** The position of the first element whose key is `k`: the scan of a list from its front that stops at the first match. */
  function FirstWhere<T, K(==)>(s: seq<T>, key: T -> K, k: K): (r: Option<nat>)
    ensures r.Some? <==> exists i :: 0 <= i < |s| && key(s[i]) == k
    ensures r.Some? ==> r.value < |s| && key(s[r.value]) == k
    ensures r.Some? ==> forall i :: 0 <= i < r.value ==> key(s[i]) != k
  {
    if s == [] then None
    else if key(s[0]) == k then Some(0)
    else match FirstWhere(s[1..], key, k)
      case None => None
      case Some(i) =>
        assert forall j :: 1 <= j < i + 1 ==> s[j] == s[1..][j - 1];
        Some(i + 1)
  }

  /** The position of the last element whose key is `k`: the one a later write with the same key leaves in place. */
  function LastWhere<T, K(==)>(s: seq<T>, key: T -> K, k: K): (r: Option<nat>)
    ensures r.Some? <==> exists i :: 0 <= i < |s| && key(s[i]) == k
    ensures r.Some? ==> r.value < |s| && key(s[r.value]) == k
    ensures r.Some? ==> forall i :: r.value < i < |s| ==> key(s[i]) != k
  {
    if s == [] then None
    else if key(s[|s| - 1]) == k then Some(|s| - 1)
    else
      var prefix := s[..|s| - 1];
      assert forall i :: 0 <= i < |prefix| ==> prefix[i] == s[i];
      LastWhere(prefix, key, k)
  }

  /** Concatenation regrouped; a loop that appends to a field calls it to keep its step cheap. */
  lemma {:induction false} Regroup<T>(a: seq<T>, b: seq<T>, c: seq<T>)
    ensures a + (b + c) == (a + b) + c
  {
  }
}
