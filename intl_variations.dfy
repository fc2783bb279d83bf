/**
 * Variation categories used by fbt. The numeric codes of `IntlVariations` are
 * not part of this model, so the categories are named, not numbered.
 */
module IntlVariations {

  /**
   * A value a variation axis can take. Only `GENDER_ANY` occurs in the
   * modelled leaf nodes; every other `IntlVariations` code is `OtherVariation`.
   */
  datatype VariationValue = GenderAny | OtherVariation(code: int)

  /** The six plural categories of section 5.1 of UTS #35 Part 3 (Numbers). */
  datatype NumberCategory =
    | NumberZero
    | NumberOne
    | NumberTwo
    | NumberFew
    | NumberMany
    | NumberOther
}
