/**
 * Mass and length conversions between metric and imperial units, with
 * the exact international definitions: one avoirdupois pound is
 * 0.45359237 kg and one inch is 2.54 cm.
 */
module Units {

  const KilogramsPerPound: real := 0.45359237
  const CentimetresPerInch: real := 2.54

  /** `lbs_to_kg`: a mass in pounds as kilograms. */
  function LbsToKg(lbs: real): (kg: real)
    ensures kg / KilogramsPerPound == lbs
    ensures 0.0 <= lbs ==> 0.0 <= kg <= lbs
  {
    lbs * KilogramsPerPound
  }

  /** `kg_to_lbs`: a mass in kilograms as pounds. */
  function KgToLbs(kg: real): (lbs: real)
    ensures lbs * KilogramsPerPound == kg
    ensures 0.0 <= kg ==> kg <= lbs
  {
    kg / KilogramsPerPound
  }

  /** `inches_to_cm`: a length in inches as centimetres. */
  function InchesToCm(inches: real): (cm: real)
    ensures cm / CentimetresPerInch == inches
    ensures 0.0 <= inches ==> inches <= cm
  {
    inches * CentimetresPerInch
  }

  /** `cm_to_inches`: a length in centimetres as inches. */
  function CmToInches(cm: real): (inches: real)
    ensures inches * CentimetresPerInch == cm
    ensures 0.0 <= cm ==> 0.0 <= inches <= cm
  {
    cm / CentimetresPerInch
  }

  /** Pounds to kilograms and back gives the pounds again, and the other way round. */
  lemma MassRoundTrip(x: real)
    ensures KgToLbs(LbsToKg(x)) == x
    ensures LbsToKg(KgToLbs(x)) == x
  {
  }

  /** Inches to centimetres and back gives the inches again, and the other way round. */
  lemma LengthRoundTrip(x: real)
    ensures CmToInches(InchesToCm(x)) == x
    ensures InchesToCm(CmToInches(x)) == x
  {
  }

  /** Both conversions into metric preserve order, so range bounds carry over. */
  lemma ToMetricMonotonic(x: real, y: real)
    requires x <= y
    ensures LbsToKg(x) <= LbsToKg(y)
    ensures InchesToCm(x) <= InchesToCm(y)
  {
  }
}
