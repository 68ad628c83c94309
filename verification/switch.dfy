/**
 The semantics of a JavaScript `switch` statement whose clauses each end in
 `return`: the case labels are compared with the scrutinee in order, the first
 equal label selects its clause, and `default` is taken when no label is equal.
 Labels that share one clause by falling through (`case A: case B: return x;`)
 are written here as separate cases returning the same value.
 */
module Switch {

  /** True when no case of `cases` has the label `key`. */
  predicate NoCaseFor<K(==), V>(cases: seq<(K, V)>, key: K) {
    forall i :: 0 <= i < |cases| ==> cases[i].0 != key
  }

  /** True when `cases[i]` is the first case whose label is `key`. */
  predicate FirstCaseFor<K(==), V>(cases: seq<(K, V)>, key: K, i: int) {
    && 0 <= i < |cases|
    && cases[i].0 == key
    && forall j :: 0 <= j < i ==> cases[j].0 != key
  }

  /** The value a switch over `cases` with default value `fallback` returns for `key`. */
  function Select<K(==), V>(cases: seq<(K, V)>, key: K, fallback: V): (r: V)
    ensures NoCaseFor(cases, key) ==> r == fallback
    ensures forall i :: FirstCaseFor(cases, key, i) ==> r == cases[i].1
    decreases |cases|
  {
    if |cases| == 0 then fallback
    else if cases[0].0 == key then cases[0].1
    else
      var r := Select(cases[1..], key, fallback);
      assert forall i :: FirstCaseFor(cases, key, i) ==> FirstCaseFor(cases[1..], key, i - 1);
      r
  }
}
