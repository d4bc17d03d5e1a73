/**
 * The two front ends duplicate the activity table and the conversion
 * chain. These lemmas show that the duplicates agree: the same factors in
 * the same order, and the same report for the same body, unit and level
 * once the windowed form's range checks have passed.
 */
module FrontEnds {
  import opened Wrappers
  import opened Text
  import opened Dict
  import opened Formula
  import Units
  import Gui = GuiCalculator
  import Cli = CliCalculator

  /** The i-th label of the form and the i-th key of the prompt carry the same factor. */
  lemma SameFactors()
    ensures |Gui.ActivityFactors| == |Cli.ActivityFactors| == 5
    ensures forall i :: 0 <= i < 5 ==> Gui.ActivityFactors[i].1 == Cli.ActivityFactors[i].1
  {
  }

  /** The report of a body already in metric units at a known factor, independent of either front end. */
  function Expected(sex: string, age: int, weightKg: real, heightCm: real, factor: real): Result<Report, Error>
  {
    if !KnownSex(sex) then Failure(InvalidArgument(SexMessage))
    else
      var bmr := Bmr(sex, weightKg, heightCm, age).value;
      Success(Report(bmr, Tdee(bmr, factor), weightKg, heightCm, Units.KgToLbs(weightKg), Units.CmToInches(heightCm), factor))
  }

  /** The form computes the expected report for the i-th label once the range checks pass. */
  lemma GuiComputesExpected(sex: string, age: int, weight: real, weightUnit: string, height: real, heightUnit: string, i: nat)
    requires i < 5
    requires Gui.Validate(age, weight, weightUnit, height, heightUnit).Pass?
    ensures var p := Gui.Person(sex, age, weight, weightUnit, height, heightUnit, Gui.ActivityFactors[i].0);
      Gui.Compute(sex, age, weight, weightUnit, height, heightUnit, Gui.ActivityFactors[i].0)
        == Expected(sex, age, Gui.WeightKg(p), Gui.HeightCm(p), Gui.ActivityFactors[i].1)
  {
    Gui.ActivityTableShape();
    GetAt(Gui.ActivityFactors, i);
  }

  /** The prompt computes the expected report for the i-th key. */
  lemma CliComputesExpected(sex: string, age: int, weight: real, weightUnit: string, height: real, heightUnit: string, i: nat)
    requires i < 5
    ensures var q := Cli.Person(sex, age, weight, weightUnit, height, heightUnit, Cli.ActivityFactors[i].0);
      Cli.Compute(sex, age, weight, weightUnit, height, heightUnit, Cli.ActivityFactors[i].0)
        == Expected(sex, age, Cli.WeightKg(q), Cli.HeightCm(q), Cli.ActivityFactors[i].1)
  {
    Cli.ActivityTableShape();
    Cli.KeysAreLowerCase();
    GetAt(Cli.ActivityFactors, i);
  }

  /**
   * For lower-case kg/lb and cm/in units, values the form accepts and the
   * i-th activity level, both front ends compute the same report.
   */
  lemma SameReport(sex: string, age: int, weight: real, weightUnit: string, height: real, heightUnit: string, i: nat)
    requires i < 5
    requires weightUnit == "kg" || weightUnit == "lb"
    requires heightUnit == "cm" || heightUnit == "in"
    requires Gui.Validate(age, weight, weightUnit, height, heightUnit).Pass?
    ensures Gui.Compute(sex, age, weight, weightUnit, height, heightUnit, Gui.ActivityFactors[i].0)
         == Cli.Compute(sex, age, weight, weightUnit, height, heightUnit, Cli.ActivityFactors[i].0)
  {
    GuiComputesExpected(sex, age, weight, weightUnit, height, heightUnit, i);
    CliComputesExpected(sex, age, weight, weightUnit, height, heightUnit, i);
    SameFactors();
    var p := Gui.Person(sex, age, weight, weightUnit, height, heightUnit, Gui.ActivityFactors[i].0);
    var q := Cli.Person(sex, age, weight, weightUnit, height, heightUnit, Cli.ActivityFactors[i].0);
    assert Gui.WeightKg(p) == Cli.WeightKg(q) by {
      assert Lower("kg") == "kg" && Lower("lb") == "lb";
    }
    assert Gui.HeightCm(p) == Cli.HeightCm(q) by {
      assert Lower("cm") == "cm" && Lower("in") == "in";
    }
  }
}
