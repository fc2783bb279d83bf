/** `IntlCLDRNumberType23`: the number variations of CLDR number type 23 and its fallback. */
module IntlCLDRNumberType23 {
  import opened CLDRNumberTables

  /** `getNumberVariations()`: the four covered variation codes, in increasing order. */
  function GetNumberVariations(): (r: seq<int>)
    ensures |r| == 4 && StrictlyIncreasing(r)
    ensures r[0] == 4 && r[1] == 8 && r[2] == 20 && r[3] == 24
  {
    [4, 8, 20, 24]
  }

  /** `getFallback()`: the largest covered code, which is the last of the list. */
  function GetFallback(): (r: int)
    ensures r in GetNumberVariations()
    ensures r == GetNumberVariations()[|GetNumberVariations()| - 1]
    ensures forall c :: c in GetNumberVariations() ==> c <= r
  {
    24
  }

  /** The variation list has no duplicates, and the fallback is one of its codes. */
  lemma VariationsWellFormed()
    ensures NoDuplicates(GetNumberVariations())
    ensures GetFallback() in GetNumberVariations()
  {
    IncreasingHasNoDuplicates(GetNumberVariations());
  }
}
