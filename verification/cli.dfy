/**
 * The text front end's logic: its activity table keyed by short names with
 * a case-insensitive lookup, its Person with case-insensitive units, the
 * test by which a typed answer is accepted, and the computation that runs
 * once every answer has been accepted.
 */
module CliCalculator {
  import opened Wrappers
  import opened Text
  import opened Dict
  import opened Units
  import opened Formula

  /** `ACTIVITY_FACTORS`, in insertion order. */
  const ActivityFactors: Table := [
    ("sedentary", 1.2),
    ("light", 1.375),
    ("moderate", 1.55),
    ("very", 1.725),
    ("athlete", 1.9)
  ]

  /** The keys, in the order the table lists them. */
  lemma ActivityKeysInOrder()
    ensures Keys(ActivityFactors) == ["sedentary", "light", "moderate", "very", "athlete"]
  {
  }

  /** Five distinct keys whose factors strictly increase and are all at least 1.2. */
  lemma ActivityTableShape()
    ensures |ActivityFactors| == 5 && DistinctKeys(ActivityFactors)
    ensures forall i, j :: 0 <= i < j < 5 ==> ActivityFactors[i].1 < ActivityFactors[j].1
    ensures forall i :: 0 <= i < 5 ==> 1.2 <= ActivityFactors[i].1 <= 1.9
  {
  }

  /** Every key is already lower case, so lowering it finds it again. */
  lemma KeysAreLowerCase()
    ensures forall k :: k in Keys(ActivityFactors) ==> Lower(k) == k
  {
    ActivityKeysInOrder();
    assert Lower("sedentary") == "sedentary";
    assert Lower("light") == "light";
    assert Lower("moderate") == "moderate";
    assert Lower("very") == "very";
    assert Lower("athlete") == "athlete";
  }

  /** The message of an unknown activity: the five keys, in table order, joined by ", ". */
  const ActivityMessage: string := "activity must be one of: " + Join(Keys(ActivityFactors), ", ")

  lemma ActivityMessageText()
    ensures ActivityMessage == "activity must be one of: " + Join(["sedentary", "light", "moderate", "very", "athlete"], ", ")
  {
    ActivityKeysInOrder();
  }

  /**
   * `tdee_from_bmr`: the rate scaled by the factor of the lowered key, or
   * a ValueError naming the valid keys when the lowered key is not one.
   */
  function TdeeFromBmr(bmr: real, activityKey: string): (r: Result<real, Error>)
    ensures r.Success? <==> Lower(activityKey) in Keys(ActivityFactors)
    ensures r.Failure? ==> r.error == InvalidArgument(ActivityMessage)
    ensures r.Success? ==>
      exists i :: 0 <= i < |ActivityFactors| && ActivityFactors[i].0 == Lower(activityKey) && r.value == Tdee(bmr, ActivityFactors[i].1)
  {
    var key := Lower(activityKey);
    match Get(ActivityFactors, key)
    case None => Failure(InvalidArgument(ActivityMessage))
    case Some(factor) => Success(Tdee(bmr, factor))
  }

  /** The key's case does not matter: "Light" finds the same factor as "light". */
  lemma TdeeCaseInsensitive(bmr: real, k1: string, k2: string)
    requires Lower(k1) == Lower(k2)
    ensures TdeeFromBmr(bmr, k1) == TdeeFromBmr(bmr, k2)
  {
  }

  /** The worked example: a rate of 1673.75 at the sedentary level is 2008.5. */
  lemma TdeeSedentaryExample()
    ensures TdeeFromBmr(1673.75, "sedentary") == Success(2008.5)
  {
    ActivityTableShape();
    GetAt(ActivityFactors, 0);
    assert Lower("sedentary") == "sedentary";
  }

  /** "Light" finds the same factor as "light". */
  lemma TdeeLightAnyCase(bmr: real)
    ensures TdeeFromBmr(bmr, "Light") == TdeeFromBmr(bmr, "light")
  {
    assert Lower("Light") == "light" == Lower("light");
    TdeeCaseInsensitive(bmr, "Light", "light");
  }

  /** An unknown key is refused with the message naming the five keys. */
  lemma TdeeUnknownKey(bmr: real)
    ensures TdeeFromBmr(bmr, "unknown_key") ==
      Failure(InvalidArgument("activity must be one of: " + Join(["sedentary", "light", "moderate", "very", "athlete"], ", ")))
  {
    assert Lower("unknown_key") !in Keys(ActivityFactors) by {
      assert Lower("unknown_key") == "unknown_key";
      ActivityKeysInOrder();
    }
    ActivityMessageText();
  }

  /** A non-negative rate is never lowered by any activity level. */
  lemma TdeeAtLeastBmr(bmr: real, activityKey: string)
    requires 0.0 <= bmr
    requires TdeeFromBmr(bmr, activityKey).Success?
    ensures TdeeFromBmr(bmr, activityKey).value >= bmr
  {
    ActivityTableShape();
  }

  /** The values one computation is built from; units are kept as answered. */
  datatype Person = Person(
    sex: string,
    age: int,
    weight: real,
    weightUnit: string,
    height: real,
    heightUnit: string,
    activity: string)

  /**
   * `Person.weight_kg`: the weight itself when the lowered unit is "kg";
   * under any other unit the weight is taken as pounds and converted once.
   */
  function WeightKg(p: Person): (w: real)
    ensures Lower(p.weightUnit) == "kg" ==> w == p.weight
    ensures Lower(p.weightUnit) != "kg" ==> KgToLbs(w) == p.weight
  {
    if Lower(p.weightUnit) == "kg" then p.weight else LbsToKg(p.weight)
  }

  /**
   * `Person.height_cm`: the height itself when the lowered unit is "cm";
   * under any other unit the height is taken as inches and converted once.
   */
  function HeightCm(p: Person): (h: real)
    ensures Lower(p.heightUnit) == "cm" ==> h == p.height
    ensures Lower(p.heightUnit) != "cm" ==> CmToInches(h) == p.height
  {
    if Lower(p.heightUnit) == "cm" then p.height else InchesToCm(p.height)
  }

  /** A non-zero value is left unchanged exactly when its unit is already metric, in any case. */
  lemma UnchangedIffMetric(p: Person)
    ensures p.weight != 0.0 ==> (WeightKg(p) == p.weight <==> Lower(p.weightUnit) == "kg")
    ensures p.height != 0.0 ==> (HeightCm(p) == p.height <==> Lower(p.heightUnit) == "cm")
  {
  }

  /** Units compare case-insensitively: "KG" and "Cm" are metric. */
  lemma UnitsAreCaseInsensitive(p: Person)
    requires p.weightUnit == "KG" && p.heightUnit == "Cm"
    ensures WeightKg(p) == p.weight && HeightCm(p) == p.height
  {
    assert Lower("KG") == "kg";
    assert Lower("Cm") == "cm";
  }

  /** `[c.lower() for c in choices]`. */
  function LowerAll(choices: seq<string>): (r: seq<string>)
    ensures |r| == |choices|
    ensures forall i :: 0 <= i < |choices| ==> r[i] == Lower(choices[i])
  {
    if choices == [] then [] else [Lower(choices[0])] + LowerAll(choices[1..])
  }

  /**
   * The test in `ask_choice`: the answer is stripped and lowered, and
   * accepted, as that normal form, when it equals some lowered choice.
   */
  function AcceptChoice(answer: string, choices: seq<string>): (r: Option<string>)
    ensures r.Some? <==> Lower(Strip(answer)) in LowerAll(choices)
    ensures r.Some? ==> r.value == Lower(Strip(answer))
  {
    var v := Lower(Strip(answer));
    if v in LowerAll(choices) then Some(v) else None
  }

  /** An accepted answer is lower-case, stripped and the lowering of one of the choices. */
  lemma AcceptedIsCanonical(answer: string, choices: seq<string>)
    requires AcceptChoice(answer, choices).Some?
    ensures var v := AcceptChoice(answer, choices).value;
      && Lower(v) == v
      && Strip(v) == v
      && exists i :: 0 <= i < |choices| && Lower(choices[i]) == v
  {
    var s := Strip(answer);
    LowerIdempotent(s);
    LowerKeepsTrimmed(s);
    StripTrimmed(Lower(s));
  }

  /** Choices that are already lower-case are accepted as themselves. */
  lemma AcceptedFromLowerChoices(answer: string, choices: seq<string>)
    requires forall i :: 0 <= i < |choices| ==> Lower(choices[i]) == choices[i]
    requires AcceptChoice(answer, choices).Some?
    ensures AcceptChoice(answer, choices).value in choices
  {
    AcceptedIsCanonical(answer, choices);
  }

  /**
   * What `main` computes from the accepted answers: the Person, its metric
   * values, the rate, the TDEE by case-insensitive key, and the factor read
   * again by the exact key for the report.
   */
  function Compute(sex: string, age: int, weight: real, weightUnit: string, height: real, heightUnit: string, activity: string): (r: Result<Report, Error>)
    ensures r.Success? <==> KnownSex(sex) && activity in Keys(ActivityFactors)
    ensures !KnownSex(sex) ==> r == Failure(InvalidArgument(SexMessage))
    ensures KnownSex(sex) && Lower(activity) !in Keys(ActivityFactors) ==> r == Failure(InvalidArgument(ActivityMessage))
    ensures KnownSex(sex) && Lower(activity) in Keys(ActivityFactors) && activity !in Keys(ActivityFactors) ==>
      r == Failure(MissingKey(activity))
    ensures r.Success? ==>
      && (activity, r.value.factor) in ActivityFactors
      && r.value.tdee == Tdee(r.value.bmr, r.value.factor)
      && Bmr(sex, r.value.weightKg, r.value.heightCm, age) == Success(r.value.bmr)
  {
    KeysAreLowerCase();
    ActivityTableShape();
    var person := Person(sex, age, weight, weightUnit, height, heightUnit, activity);
    var wKg := WeightKg(person);
    var hCm := HeightCm(person);
    match Bmr(person.sex, wKg, hCm, person.age)
    case Failure(e) => Failure(e)
    case Success(bmr) =>
      match TdeeFromBmr(bmr, person.activity)
      case Failure(e) => Failure(e)
      case Success(tdee) =>
        match Get(ActivityFactors, activity)
        case None => Failure(MissingKey(activity))
        case Some(factor) =>
          assert tdee == Tdee(bmr, factor) by {
            var i :| 0 <= i < |ActivityFactors| && ActivityFactors[i].0 == Lower(activity) && tdee == Tdee(bmr, ActivityFactors[i].1);
            GetAt(ActivityFactors, i);
          }
          Success(Report(bmr, tdee, wKg, hCm, KgToLbs(wKg), CmToInches(hCm), factor))
  }

  /** The metric values are the answered ones converted exactly once, and the imperial reference values give back what was answered in imperial units. */
  lemma ReportNormalisation(sex: string, age: int, weight: real, weightUnit: string, height: real, heightUnit: string, activity: string)
    requires KnownSex(sex) && activity in Keys(ActivityFactors)
    ensures var rep := Compute(sex, age, weight, weightUnit, height, heightUnit, activity).value;
      && (Lower(weightUnit) == "kg" ==> rep.weightKg == weight)
      && (Lower(weightUnit) != "kg" ==> rep.weightKg == LbsToKg(weight) && rep.weightLbs == weight)
      && (Lower(heightUnit) == "cm" ==> rep.heightCm == height)
      && (Lower(heightUnit) != "cm" ==> rep.heightCm == InchesToCm(height) && rep.heightInches == height)
  {
    MassRoundTrip(weight);
    LengthRoundTrip(height);
  }

  /** A sex answer accepted from the choices m and f is a code the formula knows. */
  lemma AcceptedSexIsKnown(answer: string)
    requires AcceptChoice(answer, ["m", "f"]).Some?
    ensures KnownSex(AcceptChoice(answer, ["m", "f"]).value)
  {
    assert Lower("m") == "m" && Lower("f") == "f";
    AcceptedIsCanonical(answer, ["m", "f"]);
    AcceptedFromLowerChoices(answer, ["m", "f"]);
  }

  /** An activity answer accepted from the table's keys is exactly one of those keys. */
  lemma AcceptedActivityIsKey(answer: string)
    requires AcceptChoice(answer, Keys(ActivityFactors)).Some?
    ensures AcceptChoice(answer, Keys(ActivityFactors)).value in Keys(ActivityFactors)
  {
    KeysAreLowerCase();
    AcceptedFromLowerChoices(answer, Keys(ActivityFactors));
  }

  /** With a known sex, an exact key and lower-case units, `main` computes a report from the values converted at most once. */
  lemma MainSucceeds(sex: string, age: int, weight: real, weightUnit: string, height: real, heightUnit: string, activity: string)
    requires KnownSex(sex) && activity in Keys(ActivityFactors)
    requires Lower(weightUnit) == weightUnit && Lower(heightUnit) == heightUnit
    ensures var r := Compute(sex, age, weight, weightUnit, height, heightUnit, activity);
      && r.Success?
      && r.value.weightKg == (if weightUnit == "kg" then weight else LbsToKg(weight))
      && r.value.heightCm == (if heightUnit == "cm" then height else InchesToCm(height))
  {
    ReportNormalisation(sex, age, weight, weightUnit, height, heightUnit, activity);
  }

  /**
   * Once every answer has passed `ask_choice`, `main` cannot fail, and its
   * metric values are the answered ones converted at most once.
   */
  lemma PromptedAnswersCompute(
    sexAnswer: string, age: int, weight: real, weightUnitAnswer: string,
    height: real, heightUnitAnswer: string, activityAnswer: string)
    requires AcceptChoice(sexAnswer, ["m", "f"]).Some?
    requires AcceptChoice(weightUnitAnswer, ["kg", "lb"]).Some?
    requires AcceptChoice(heightUnitAnswer, ["cm", "in"]).Some?
    requires AcceptChoice(activityAnswer, Keys(ActivityFactors)).Some?
    ensures var wu := AcceptChoice(weightUnitAnswer, ["kg", "lb"]).value;
      var hu := AcceptChoice(heightUnitAnswer, ["cm", "in"]).value;
      var r := Compute(AcceptChoice(sexAnswer, ["m", "f"]).value, age, weight, wu, height, hu,
                       AcceptChoice(activityAnswer, Keys(ActivityFactors)).value);
      && r.Success?
      && r.value.weightKg == (if wu == "kg" then weight else LbsToKg(weight))
      && r.value.heightCm == (if hu == "cm" then height else InchesToCm(height))
  {
    AcceptedSexIsKnown(sexAnswer);
    AcceptedActivityIsKey(activityAnswer);
    AcceptedIsCanonical(weightUnitAnswer, ["kg", "lb"]);
    AcceptedIsCanonical(heightUnitAnswer, ["cm", "in"]);
    MainSucceeds(
      AcceptChoice(sexAnswer, ["m", "f"]).value, age,
      weight, AcceptChoice(weightUnitAnswer, ["kg", "lb"]).value,
      height, AcceptChoice(heightUnitAnswer, ["cm", "in"]).value,
      AcceptChoice(activityAnswer, Keys(ActivityFactors)).value);
  }
}
