/** `IntlCLDRNumberType46`: the number variations of CLDR number type 46 and its fallback. */
module IntlCLDRNumberType46 {
  import opened CLDRNumberTables
  import IntlCLDRNumberType23

  /** `getNumberVariations()`: the three covered variation codes, in increasing order. */
  function GetNumberVariations(): (r: seq<int>)
    ensures |r| == 3 && StrictlyIncreasing(r)
    ensures r[0] == 4 && r[1] == 20 && r[2] == 24
  {
    [4, 20, 24]
  }

  /** `getFallback()`: the largest covered code, which is the last of the list. */
  function GetFallback(): (r: int)
    ensures r in GetNumberVariations()
    ensures r == GetNumberVariations()[|GetNumberVariations()| - 1]
    ensures forall c :: c in GetNumberVariations() ==> c <= r
  {
    24
  }

  /** The variation list has no duplicates, and the fallback is one of its codes. */
  lemma VariationsWellFormed()
    ensures NoDuplicates(GetNumberVariations())
    ensures GetFallback() in GetNumberVariations()
  {
    IncreasingHasNoDuplicates(GetNumberVariations());
  }

  /**
   * Type 46 covers a subset of what type 23 covers (all but code 8), in the
   * same order, and both fall back to the same code.
   */
  lemma SubsetOfType23()
    ensures forall c :: c in GetNumberVariations() ==> c in IntlCLDRNumberType23.GetNumberVariations()
    ensures IntlCLDRNumberType23.GetNumberVariations() ==
      GetNumberVariations()[..1] + [8] + GetNumberVariations()[1..]
    ensures GetFallback() == IntlCLDRNumberType23.GetFallback()
  {
  }
}
