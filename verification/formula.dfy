/**
 * The Mifflin-St Jeor basal metabolic rate and the result record both
 * front ends produce.
 */
module Formula {
  import opened Wrappers
  import opened Text

  /** The calculator's failures: ValueError with its message, and KeyError with the missing key. */
  datatype Error = InvalidArgument(message: string) | MissingKey(key: string)

  /** What one computation yields: energy in kcal/day, the metric body values and their imperial equivalents. */
  datatype Report = Report(
    bmr: real,
    tdee: real,
    weightKg: real,
    heightCm: real,
    weightLbs: real,
    heightInches: real,
    factor: real)

  const SexMessage: string := "sex must be 'm' or 'f'"

  /** The sex codes the formula knows, after lowering. */
  predicate KnownSex(sex: string) {
    Lower(sex) == "m" || Lower(sex) == "f"
  }

  /**
   * `bmr_mifflin_st_jeor`: 10 w + 6.25 h - 5 a, plus 5 for men and minus
   * 161 for women; any other code is a ValueError.
   */
  function Bmr(sex: string, weightKg: real, heightCm: real, ageYears: int): (r: Result<real, Error>)
    ensures r.Failure? <==> !KnownSex(sex)
    ensures r.Failure? ==> r.error == InvalidArgument(SexMessage)
    ensures Lower(sex) == "m" ==> r == Success(10.0 * weightKg + 6.25 * heightCm - 5.0 * ageYears as real + 5.0)
    ensures Lower(sex) == "f" ==> r == Success(10.0 * weightKg + 6.25 * heightCm - 5.0 * ageYears as real - 161.0)
  {
    var s := Lower(sex);
    if s != "m" && s != "f" then
      Failure(InvalidArgument(SexMessage))
    else
      var base := 10.0 * weightKg + 6.25 * heightCm - 5.0 * ageYears as real;
      Success(if s == "m" then base + 5.0 else base - 161.0)
  }

  /** Total daily energy expenditure: the rate scaled by the activity factor; a factor of at least one never lowers a non-negative rate. */
  function Tdee(bmr: real, factor: real): (t: real)
    ensures 0.0 <= bmr && 1.0 <= factor ==> bmr <= t
  {
    bmr * factor
  }

  /** Exactly the four codes m, M, f and F are accepted. */
  lemma BmrAcceptedCodes(sex: string, w: real, h: real, a: int)
    ensures Bmr(sex, w, h, a).Success? <==> sex in {"m", "M", "f", "F"}
  {
    LowerIsLetter(sex, 'm');
    LowerIsLetter(sex, 'f');
  }

  /** Only the lowered code matters: "M" and "m" give the same result. */
  lemma BmrCaseInsensitive(s1: string, s2: string, w: real, h: real, a: int)
    requires Lower(s1) == Lower(s2)
    ensures Bmr(s1, w, h, a) == Bmr(s2, w, h, a)
  {
  }

  /** For the same body the male value exceeds the female value by exactly 166. */
  lemma BmrSexOffset(w: real, h: real, a: int)
    ensures Bmr("m", w, h, a).Success? && Bmr("f", w, h, a).Success?
    ensures Bmr("m", w, h, a).value - Bmr("f", w, h, a).value == 166.0
  {
    assert Lower("m") == "m";
    assert Lower("f") == "f";
  }

  /** The rate rises with weight and height and falls with age. */
  lemma BmrMonotonic(sex: string, w1: real, h1: real, a1: int, w2: real, h2: real, a2: int)
    requires KnownSex(sex)
    requires w1 <= w2 && h1 <= h2 && a2 <= a1
    ensures Bmr(sex, w1, h1, a1).value <= Bmr(sex, w2, h2, a2).value
  {
  }

  /** The two worked values of the formula. */
  lemma BmrExamples()
    ensures Bmr("m", 70.0, 175.0, 25) == Success(1673.75)
    ensures Bmr("f", 60.0, 165.0, 30) == Success(1320.25)
  {
    assert Lower("m") == "m";
    assert Lower("f") == "f";
  }
}
