/** Properties shared by the compile-time CLDR number-variation tables. */
module CLDRNumberTables {

  /** Each code is smaller than the next. */
  predicate StrictlyIncreasing(codes: seq<int>)
  {
    forall i :: 0 < i < |codes| ==> codes[i - 1] < codes[i]
  }

  /** No code occurs twice. */
  predicate NoDuplicates(codes: seq<int>)
  {
    forall i, j :: 0 <= i < j < |codes| ==> codes[i] != codes[j]
  }

  /** In a strictly increasing list a later code is larger than every earlier one. */
  lemma {:induction false} IncreasingOrdersPairs(codes: seq<int>, i: nat, j: nat)
    requires StrictlyIncreasing(codes)
    requires i < j < |codes|
    ensures codes[i] < codes[j]
    decreases j - i
  {
    if i + 1 < j {
      IncreasingOrdersPairs(codes, i, j - 1);
    }
  }

  /** A strictly increasing list has no duplicates. */
  lemma IncreasingHasNoDuplicates(codes: seq<int>)
    requires StrictlyIncreasing(codes)
    ensures NoDuplicates(codes)
  {
    forall i, j | 0 <= i < j < |codes| ensures codes[i] != codes[j] {
      IncreasingOrdersPairs(codes, i, j);
    }
  }
}
