/** The vehicle condition scale shared by the data-cleaning script (which
    produces the ordinal codes the regressor is trained on) and the app's
    segmented picker (which feeds the same codes back to the model). */
module Conditions {
  import opened Wrappers

  /** The five levels, from worst to best. */
  datatype Condition = Salvage | Fair | Good | Excellent | New

  /** The ordinal code of a level: Salvage is 0 and New is 4. */
  function Ordinal(c: Condition): (k: int)
    ensures 0 <= k <= 4
  {
    match c
    case Salvage => 0
    case Fair => 1
    case Good => 2
    case Excellent => 3
    case New => 4
  }

  /** The picker's tag for a level: its ordinal as a floating-point value. */
  function Tag(c: Condition): real
  {
    Ordinal(c) as real
  }

  /** The level a picker tag stands for, if it is one of the five tags. */
  function FromTag(x: real): (r: Option<Condition>)
    ensures r.Some? ==> Tag(r.value) == x
  {
    if x == 0.0 then Some(Salvage)
    else if x == 1.0 then Some(Fair)
    else if x == 2.0 then Some(Good)
    else if x == 3.0 then Some(Excellent)
    else if x == 4.0 then Some(New)
    else None
  }

  /** The picker starts on "Good". */
  const DefaultCondition: Condition := Good

  /** Tags and levels are in one-to-one correspondence: every level's tag is
      decoded back to that level, and every decodable value is a whole number
      in 0..4. */
  lemma TagRoundTrip(c: Condition, x: real)
    ensures FromTag(Tag(c)) == Some(c)
    ensures FromTag(x).Some? <==> (0.0 <= x <= 4.0 && x == x.Floor as real)
  {
  }

  /** Distinct levels have distinct codes. */
  lemma OrdinalInjective(c: Condition, d: Condition)
    ensures Ordinal(c) == Ordinal(d) <==> c == d
  {
  }
}
