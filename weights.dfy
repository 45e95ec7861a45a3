/**
 * The percent-or-fraction convention of the weight fields: an entry above 1
 * is a whole-number percentage and is divided by 100, anything else is taken
 * as a fraction already. Negative entries are not rejected.
 */
module Weights {

  function Normalize(raw: real): (w: real)
    ensures raw > 1.0 ==> w * 100.0 == raw
    ensures raw <= 1.0 ==> w == raw
  {
    if raw > 1.0 then raw / 100.0 else raw
  }

  /** An entry between 0 and 100 becomes a fraction between 0 and 1. */
  lemma NormalizeInUnitRange(raw: real)
    requires 0.0 <= raw <= 100.0
    ensures 0.0 <= Normalize(raw) <= 1.0
  {
  }

  /** "50" and "0.5" mean the same weight: a percentage above 1 and its fraction agree. */
  lemma PercentAndFractionAgree(p: real)
    requires 1.0 < p <= 100.0
    ensures Normalize(p) == Normalize(p / 100.0)
  {
  }

  /** Normalising an already normalised entry changes nothing (for entries up to 100). */
  lemma NormalizeIdempotent(raw: real)
    requires raw <= 100.0
    ensures Normalize(Normalize(raw)) == Normalize(raw)
  {
  }
}
