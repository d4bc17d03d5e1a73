/**
 * The windowed front end's logic: its activity table keyed by descriptive
 * labels, its Person with case-sensitive units, the range checks on the
 * entered values and the chain that turns checked values into a report.
 */
module GuiCalculator {
  import opened Wrappers
  import opened Text
  import opened Dict
  import opened Units
  import opened Formula

  /** `ACTIVITY_FACTORS`, in insertion order. */
  const ActivityFactors: Table := [
    ("Sedentary (little/no exercise)", 1.2),
    ("Light (1\U{2013}3 days/wk)", 1.375),
    ("Moderate (3\U{2013}5 days/wk)", 1.55),
    ("Very (6\U{2013}7 days/wk)", 1.725),
    ("Athlete (very hard/physical job)", 1.9)
  ]

  /** Five distinct labels whose factors strictly increase and are all at least 1.2. */
  lemma ActivityTableShape()
    ensures |ActivityFactors| == 5 && DistinctKeys(ActivityFactors)
    ensures forall i, j :: 0 <= i < j < 5 ==> ActivityFactors[i].1 < ActivityFactors[j].1
    ensures forall i :: 0 <= i < 5 ==> 1.2 <= ActivityFactors[i].1 <= 1.9
  {
  }

  /** The values one computation is built from; units are kept as entered. */
  datatype Person = Person(
    sex: string,
    age: int,
    weight: real,
    weightUnit: string,
    height: real,
    heightUnit: string,
    activityLabel: string)

  /**
   * `Person.weight_kg`: the weight itself when the unit is exactly "kg";
   * under any other unit the weight is taken as pounds and converted once.
   */
  function WeightKg(p: Person): (w: real)
    ensures p.weightUnit == "kg" ==> w == p.weight
    ensures p.weightUnit != "kg" ==> KgToLbs(w) == p.weight
  {
    if p.weightUnit == "kg" then p.weight else LbsToKg(p.weight)
  }

  /**
   * `Person.height_cm`: the height itself when the unit is exactly "cm";
   * under any other unit the height is taken as inches and converted once.
   */
  function HeightCm(p: Person): (h: real)
    ensures p.heightUnit == "cm" ==> h == p.height
    ensures p.heightUnit != "cm" ==> CmToInches(h) == p.height
  {
    if p.heightUnit == "cm" then p.height else InchesToCm(p.height)
  }

  /** The comparison is case-sensitive: a weight stored in "KG" is read as pounds. */
  lemma UnitsAreCaseSensitive(p: Person)
    requires p.weightUnit == "KG" && p.heightUnit == "CM"
    ensures WeightKg(p) == LbsToKg(p.weight)
    ensures HeightCm(p) == InchesToCm(p.height)
  {
  }

  const AgeMessage: string := "Age must be between 14 and 90."
  const WeightKgMessage: string := "Weight in kg must be between 30 and 300."
  const WeightLbMessage: string := "Weight in lb must be between 66 and 660."
  const HeightCmMessage: string := "Height in cm must be between 120 and 220."
  const HeightInMessage: string := "Height in inches must be between 47 and 87."

  predicate AgeInRange(age: int) {
    14 <= age <= 90
  }

  /** The weight bound of the chosen unit; a unit other than kg or lb has none. */
  predicate WeightInRange(weight: real, unit: string) {
    && (unit == "kg" ==> 30.0 <= weight <= 300.0)
    && (unit == "lb" ==> 66.0 <= weight <= 660.0)
  }

  /** The height bound of the chosen unit; a unit other than cm or in has none. */
  predicate HeightInRange(height: real, unit: string) {
    && (unit == "cm" ==> 120.0 <= height <= 220.0)
    && (unit == "in" ==> 47.0 <= height <= 87.0)
  }

  /**
   * The sanity checks of `TDEEApp.compute`: age, then weight, then height.
   * The values pass exactly when all three bounds hold, and a failure
   * carries the message of the first bound violated.
   */
  function Validate(age: int, weight: real, weightUnit: string, height: real, heightUnit: string): (r: Outcome<string>)
    ensures r.Pass? <==> AgeInRange(age) && WeightInRange(weight, weightUnit) && HeightInRange(height, heightUnit)
    ensures !AgeInRange(age) ==> r == Fail(AgeMessage)
    ensures AgeInRange(age) && !WeightInRange(weight, weightUnit) ==>
      r == Fail(if weightUnit == "kg" then WeightKgMessage else WeightLbMessage)
    ensures AgeInRange(age) && WeightInRange(weight, weightUnit) && !HeightInRange(height, heightUnit) ==>
      r == Fail(if heightUnit == "cm" then HeightCmMessage else HeightInMessage)
  {
    if !(14 <= age <= 90) then Fail(AgeMessage)
    else if weightUnit == "kg" && !(30.0 <= weight <= 300.0) then Fail(WeightKgMessage)
    else if weightUnit == "lb" && !(66.0 <= weight <= 660.0) then Fail(WeightLbMessage)
    else if heightUnit == "cm" && !(120.0 <= height <= 220.0) then Fail(HeightCmMessage)
    else if heightUnit == "in" && !(47.0 <= height <= 87.0) then Fail(HeightInMessage)
    else Pass
  }

  /** Both age bounds are inclusive: 14 and 90 pass, 13, 91, 10 and 95 do not. */
  lemma AgeBoundsInclusive(weight: real, weightUnit: string, height: real, heightUnit: string)
    requires WeightInRange(weight, weightUnit) && HeightInRange(height, heightUnit)
    ensures Validate(14, weight, weightUnit, height, heightUnit) == Pass
    ensures Validate(90, weight, weightUnit, height, heightUnit) == Pass
    ensures Validate(13, weight, weightUnit, height, heightUnit) == Fail(AgeMessage)
    ensures Validate(91, weight, weightUnit, height, heightUnit) == Fail(AgeMessage)
    ensures Validate(10, weight, weightUnit, height, heightUnit) == Fail(AgeMessage)
    ensures Validate(95, weight, weightUnit, height, heightUnit) == Fail(AgeMessage)
  {
  }

  /** Under a unit the checks do not know, the entered weight or height cannot make them fail. */
  lemma UnknownUnitsUnchecked(age: int, w1: real, w2: real, weightUnit: string, h1: real, h2: real, heightUnit: string)
    requires weightUnit != "kg" && weightUnit != "lb"
    requires heightUnit != "cm" && heightUnit != "in"
    ensures Validate(age, w1, weightUnit, h1, heightUnit) == Validate(age, w2, weightUnit, h2, heightUnit)
    ensures AgeInRange(age) ==> Validate(age, w1, weightUnit, h1, heightUnit) == Pass
  {
  }

  /**
   * The body of `TDEEApp.compute` after parsing: check the ranges, build
   * the Person, normalise to metric, compute the rate (which rejects an
   * unknown sex code), read the factor by exact label (a KeyError for an
   * unknown one) and scale.
   */
  function Compute(sex: string, age: int, weight: real, weightUnit: string, height: real, heightUnit: string, activity: string): (r: Result<Report, Error>)
    ensures r.Success? <==>
      Validate(age, weight, weightUnit, height, heightUnit).Pass? && KnownSex(sex) && activity in Keys(ActivityFactors)
    ensures Validate(age, weight, weightUnit, height, heightUnit).Fail? ==>
      r == Failure(InvalidArgument(Validate(age, weight, weightUnit, height, heightUnit).error))
    ensures Validate(age, weight, weightUnit, height, heightUnit).Pass? && !KnownSex(sex) ==>
      r == Failure(InvalidArgument(SexMessage))
    ensures Validate(age, weight, weightUnit, height, heightUnit).Pass? && KnownSex(sex) && activity !in Keys(ActivityFactors) ==>
      r == Failure(MissingKey(activity))
    ensures r.Success? ==>
      && (activity, r.value.factor) in ActivityFactors
      && r.value.tdee == Tdee(r.value.bmr, r.value.factor)
      && Bmr(sex, r.value.weightKg, r.value.heightCm, age) == Success(r.value.bmr)
  {
    match Validate(age, weight, weightUnit, height, heightUnit)
    case Fail(message) => Failure(InvalidArgument(message))
    case Pass =>
      var person := Person(sex, age, weight, weightUnit, height, heightUnit, activity);
      var wKg := WeightKg(person);
      var hCm := HeightCm(person);
      match Bmr(person.sex, wKg, hCm, person.age)
      case Failure(e) => Failure(e)
      case Success(bmr) =>
        match Get(ActivityFactors, activity)
        case None => Failure(MissingKey(activity))
        case Some(factor) =>
          Success(Report(bmr, Tdee(bmr, factor), wKg, hCm, KgToLbs(wKg), CmToInches(hCm), factor))
  }

  /** The metric values are the entered ones converted exactly once, and the imperial reference values give back what was entered in imperial units. */
  lemma ReportNormalisation(sex: string, age: int, weight: real, weightUnit: string, height: real, heightUnit: string, activity: string)
    requires Compute(sex, age, weight, weightUnit, height, heightUnit, activity).Success?
    ensures var rep := Compute(sex, age, weight, weightUnit, height, heightUnit, activity).value;
      && (weightUnit == "kg" ==> rep.weightKg == weight)
      && (weightUnit != "kg" ==> rep.weightKg == LbsToKg(weight) && rep.weightLbs == weight)
      && (heightUnit == "cm" ==> rep.heightCm == height)
      && (heightUnit != "cm" ==> rep.heightCm == InchesToCm(height) && rep.heightInches == height)
  {
    MassRoundTrip(weight);
    LengthRoundTrip(height);
  }

  /** For checked values in known units the rate is positive: at least 434 kcal/day. */
  lemma {:induction false} CheckedBmrPositive(sex: string, age: int, weight: real, weightUnit: string, height: real, heightUnit: string)
    requires Validate(age, weight, weightUnit, height, heightUnit).Pass? && KnownSex(sex)
    requires weightUnit == "kg" || weightUnit == "lb"
    requires heightUnit == "cm" || heightUnit == "in"
    ensures var p := Person(sex, age, weight, weightUnit, height, heightUnit, "");
      Bmr(sex, WeightKg(p), HeightCm(p), age).value >= 434.0
  {
    var p := Person(sex, age, weight, weightUnit, height, heightUnit, "");
    if weightUnit == "lb" {
      ToMetricMonotonic(66.0, weight);
    }
    if heightUnit == "in" {
      ToMetricMonotonic(47.0, height);
    }
    assert WeightKg(p) >= LbsToKg(66.0) && HeightCm(p) >= InchesToCm(47.0);
    BmrMonotonic(sex, LbsToKg(66.0), InchesToCm(47.0), 90, WeightKg(p), HeightCm(p), age);
  }

  /** Every report the checks admit in known units has its TDEE at least its BMR. */
  lemma TdeeAtLeastBmr(sex: string, age: int, weight: real, weightUnit: string, height: real, heightUnit: string, activity: string)
    requires Validate(age, weight, weightUnit, height, heightUnit).Pass? && KnownSex(sex)
    requires activity in Keys(ActivityFactors)
    requires weightUnit == "kg" || weightUnit == "lb"
    requires heightUnit == "cm" || heightUnit == "in"
    ensures var rep := Compute(sex, age, weight, weightUnit, height, heightUnit, activity).value;
      rep.bmr > 0.0 && rep.tdee >= rep.bmr
  {
    var rep := Compute(sex, age, weight, weightUnit, height, heightUnit, activity).value;
    CheckedBmrPositive(sex, age, weight, weightUnit, height, heightUnit);
    ActivityTableShape();
    assert rep.factor >= 1.2;
  }
}
