# Mifflin–St Jeor energy-expenditure calculator: a Dafny model

This project models the arithmetic and validation core of a calculator that
estimates Basal Metabolic Rate (BMR) and Total Daily Energy Expenditure
(TDEE) with the Mifflin–St Jeor formula. The calculator has two front ends:
a text prompt (`firingrange.py`) and a Tk form (`tdee_gui.py`). Both share
the same core:

- **Units**: pounds↔kilograms with the exact international pound (0.45359237 kg), and inches↔centimetres with 2.54 cm per inch.
- **Formula**: BMR = 10·kg + 6.25·cm − 5·years, plus 5 for sex code `m` and minus 161 for `f`, where the code is compared after lower-casing. Any other code is a `ValueError`. TDEE = BMR × activity factor.
- **Activity tables**: five factors, 1.2, 1.375, 1.55, 1.725 and 1.9. The prompt keys them by short names and looks them up case-insensitively. The form keys them by descriptive labels and looks them up exactly.
- **Person normalisation**: one conversion from the stored unit to metric. The prompt compares units case-insensitively and the form case-sensitively. Any unit other than `kg` (resp. `cm`) is read as pounds (resp. inches).
- **Form range checks**: age, then weight by unit, then height by unit. The first violated bound gives the message.
- **Prompt answer test** (`ask_choice`): an answer is stripped and lowered, then accepted if it equals a lowered choice.

Modules:

- `Wrappers`: Option, Result and Outcome.
- `Text`: Python's `str.lower`, `str.strip` and `str.join`.
- `Dict`: an insertion-ordered `str`→`float` dict.
- `Units` and `Formula`: the shared code.
- `GuiCalculator` and `CliCalculator`: the two front ends.
- `FrontEnds`: lemmas showing that the duplicated code in the two front ends agrees.

Python `float` is modelled as `real` and `int` as `int`. Errors are values: a
`ValueError` is `InvalidArgument(message)` and a `KeyError` is `MissingKey(key)`.

The conversions and `bmr_mifflin_st_jeor` appear verbatim in both files
(`tdee_gui.py:9-27` and `firingrange.py:7-29`). They are modelled once; the
table below cites one copy or the other.

Where the code does more than its own comments say, the model follows the code:

- The `Person` fields are commented `# 'kg' or 'lb'` and `# 'cm' or 'in'` (`tdee_gui.py:43-45`, `firingrange.py:52-54`). The code accepts any unit string and reads every unit other than `kg` (resp. `cm`) as pounds (resp. inches). The form's range checks skip units they do not know.
- Python floats round; over `real` the unit round trips hold exactly.

## Model

| member | source | states |
|---|---|---|
| Units.LbsToKg | tdee_gui.py:9-10 | dividing the result by 0.45359237 gives the pounds back; a non-negative mass in kg is never more than in lb |
| Units.KgToLbs | tdee_gui.py:12-13 | multiplying the result by 0.45359237 gives the kilograms back; a non-negative mass in lb is never less than in kg |
| Units.InchesToCm | tdee_gui.py:15-16 | dividing the result by 2.54 gives the inches back; never less than the inches for non-negative input |
| Units.CmToInches | tdee_gui.py:18-19 | multiplying the result by 2.54 gives the centimetres back; never more than the centimetres for non-negative input |
| Units.MassRoundTrip | firingrange.py:7-11 | kg_to_lbs(lbs_to_kg(x)) == x and lbs_to_kg(kg_to_lbs(x)) == x for every real x |
| Units.LengthRoundTrip | firingrange.py:13-17 | cm_to_inches(inches_to_cm(x)) == x and inches_to_cm(cm_to_inches(x)) == x for every real x |
| Units.ToMetricMonotonic | tdee_gui.py:9-16 | both conversions into metric preserve order |
| Text.Lower | tdee_gui.py:23 | `str.lower`: same length, each character case-mapped |
| Text.LowerIdempotent | firingrange.py:81 | lowering twice equals lowering once |
| Text.LowerIsLetter | tdee_gui.py:23-24 | a string lowers to a one-letter lower-case string exactly when it is that letter or its capital |
| Text.Strip | firingrange.py:81 | `str.strip`: a contiguous slice of the input; everything removed is whitespace; the result has no whitespace at either end |
| Text.StripTrimmed | firingrange.py:81 | a string with no whitespace at either end is its own strip |
| Text.StripIdempotent | firingrange.py:81 | stripping twice equals stripping once |
| Text.LowerKeepsTrimmed | firingrange.py:81 | lowering a stripped string leaves it stripped |
| Text.Join | firingrange.py:43 | `sep.join`: empty for no parts, the part itself for one part; starts with the first part and ends with the last |
| Text.JoinSnoc | firingrange.py:43 | appending a part to a non-empty list appends the separator and that part, so every join is the parts in order with one separator between neighbours |
| Text.JoinLength | firingrange.py:43 | a join's length is the parts' total length plus one separator per pair of neighbours |
| Dict.Keys | firingrange.py:43 | the dict's keys in insertion order, one per entry |
| Dict.Get | firingrange.py:42-44 | absent exactly when the key is not among the keys; otherwise the pair (key, value) is an entry of the dict |
| Dict.GetAt | firingrange.py:44 | with distinct keys, reading the i-th key yields the i-th value |
| Formula.Bmr | tdee_gui.py:22-27 | fails, with "sex must be 'm' or 'f'", exactly when the lowered code is neither m nor f; otherwise 10w + 6.25h − 5a + 5 (m) or − 161 (f) |
| Formula.Tdee | tdee_gui.py:169 | BMR scaled by the factor; a factor ≥ 1 never lowers a non-negative BMR |
| Formula.BmrAcceptedCodes | tdee_gui.py:23-25 | the formula succeeds exactly for the codes m, M, f and F |
| Formula.BmrCaseInsensitive | firingrange.py:25 | codes with the same lowering give the same result ("M" and "m" agree) |
| Formula.BmrSexOffset | tdee_gui.py:26-27 | for identical inputs the male value exceeds the female value by exactly 166 |
| Formula.BmrMonotonic | tdee_gui.py:26 | BMR rises with weight and height and falls with age |
| Formula.BmrExamples | firingrange.py:28-29 | bmr("m",70,175,25) = 1673.75 and bmr("f",60,165,30) = 1320.25 |
| GuiCalculator.ActivityTableShape | tdee_gui.py:29-35 | five distinct labels; factors strictly increasing, all within [1.2, 1.9] |
| GuiCalculator.WeightKg | tdee_gui.py:48-49 | unit exactly "kg": the weight unchanged; any other unit: a value whose kg_to_lbs is the stored weight (one conversion) |
| GuiCalculator.HeightCm | tdee_gui.py:51-52 | unit exactly "cm": the height unchanged; any other unit: a value whose cm_to_inches is the stored height (one conversion) |
| GuiCalculator.UnitsAreCaseSensitive | tdee_gui.py:49 | a weight in "KG" is read as pounds and a height in "CM" as inches |
| GuiCalculator.Validate | tdee_gui.py:147-156 | passes exactly when 14 ≤ age ≤ 90, kg weight in [30,300], lb weight in [66,660], cm height in [120,220] and in height in [47,87]; otherwise fails with the message of the first violated check in order age, weight, height |
| GuiCalculator.AgeBoundsInclusive | tdee_gui.py:147-148 | ages 14 and 90 pass; 13, 91, 10 and 95 fail with the age message |
| GuiCalculator.UnknownUnitsUnchecked | tdee_gui.py:149-156 | under units other than kg/lb and cm/in, weight and height never cause a failure |
| GuiCalculator.Compute | tdee_gui.py:147-169 | succeeds exactly when the checks pass, the sex code is known and the label is a table key; failures in that order: check message, sex ValueError, KeyError; on success TDEE = BMR × the label's factor and BMR is the formula at the normalised values |
| GuiCalculator.ReportNormalisation | tdee_gui.py:165-176 | metric values are the entered ones converted at most once; the displayed lb/in reference values equal the entered imperial values |
| GuiCalculator.CheckedBmrPositive | tdee_gui.py:147-167 | for values that pass the checks in kg/lb and cm/in, BMR is at least 434 kcal/day |
| GuiCalculator.TdeeAtLeastBmr | tdee_gui.py:147-169 | for values that pass the checks in kg/lb and cm/in, with a known sex code and a table label, the report has BMR > 0 and TDEE ≥ BMR |
| CliCalculator.ActivityKeysInOrder | firingrange.py:32-38 | the keys are sedentary, light, moderate, very, athlete in that order |
| CliCalculator.ActivityTableShape | firingrange.py:32-38 | five distinct keys; factors strictly increasing, all within [1.2, 1.9] |
| CliCalculator.KeysAreLowerCase | firingrange.py:32-38 | every key is its own lowering |
| CliCalculator.ActivityMessageText | firingrange.py:43 | the unknown-activity message is "activity must be one of: " followed by the five keys in table order, joined by ", " |
| CliCalculator.TdeeFromBmr | firingrange.py:40-44 | succeeds exactly when the lowered key is a table key, and then returns bmr × that key's factor; otherwise a ValueError with the message listing the keys |
| CliCalculator.TdeeCaseInsensitive | firingrange.py:41 | keys with the same lowering give the same result |
| CliCalculator.TdeeSedentaryExample | firingrange.py:40-44 | tdee_from_bmr(1673.75, "sedentary") = 2008.5 |
| CliCalculator.TdeeLightAnyCase | firingrange.py:41 | tdee_from_bmr(b, "Light") = tdee_from_bmr(b, "light") |
| CliCalculator.TdeeUnknownKey | firingrange.py:42-43 | "unknown_key" fails with the message listing the five keys |
| CliCalculator.TdeeAtLeastBmr | firingrange.py:44 | for a non-negative BMR every successful lookup gives TDEE ≥ BMR |
| CliCalculator.WeightKg | firingrange.py:57-58 | lowered unit "kg": the weight unchanged; any other unit: a value whose kg_to_lbs is the stored weight (one conversion) |
| CliCalculator.HeightCm | firingrange.py:60-61 | lowered unit "cm": the height unchanged; any other unit: a value whose cm_to_inches is the stored height (one conversion) |
| CliCalculator.UnchangedIffMetric | firingrange.py:57-61 | a non-zero weight (height) is returned unchanged exactly when the lowered unit is "kg" ("cm") |
| CliCalculator.UnitsAreCaseInsensitive | firingrange.py:58 | units "KG" and "Cm" count as metric |
| CliCalculator.LowerAll | firingrange.py:79 | the lowered choices, position by position |
| CliCalculator.AcceptChoice | firingrange.py:78-83 | accepts exactly when the stripped, lowered answer is among the lowered choices, and returns that normal form |
| CliCalculator.AcceptedIsCanonical | firingrange.py:79-83 | an accepted value is lower-case, stripped and the lowering of one of the choices |
| CliCalculator.AcceptedFromLowerChoices | firingrange.py:79-83 | when the choices are lower-case, the accepted value is one of them |
| CliCalculator.Compute | firingrange.py:109-129 | succeeds exactly when the sex code is known and the activity is exactly a key; failures in order: sex ValueError, activity ValueError, KeyError of the report's factor read; on success TDEE = BMR × the key's factor |
| CliCalculator.ReportNormalisation | firingrange.py:117-128 | metric values are the answered ones converted at most once; the reference lb/in values equal the answered imperial values |
| CliCalculator.AcceptedSexIsKnown | firingrange.py:88 | an answer accepted from m/f is a code the formula knows |
| CliCalculator.AcceptedActivityIsKey | firingrange.py:106-107 | an answer accepted from the table's keys is exactly a key |
| CliCalculator.MainSucceeds | firingrange.py:109-120 | with a known sex, an exact key and lower-case units, main computes a report from the values converted at most once |
| CliCalculator.PromptedAnswersCompute | firingrange.py:88-120 | once every answer has passed ask_choice, main cannot fail, and its metric values are the answers converted at most once |
| FrontEnds.SameFactors | tdee_gui.py:29-35 | the form's i-th label and the prompt's i-th key carry the same factor |
| FrontEnds.GuiComputesExpected | tdee_gui.py:158-169 | after the checks pass, the form computes the reference report for the i-th label |
| FrontEnds.CliComputesExpected | firingrange.py:109-120 | the prompt computes the reference report for the i-th key |
| FrontEnds.SameReport | tdee_gui.py:158-169 | for lower-case kg/lb and cm/in units, values the form accepts and the same activity level, both front ends produce the same report |

## Left out

- The Tk form is not modelled: widget layout, `clear`, dialogs, themes, the main loop and the `TclError` handler. Only the value chain of `TDEEApp.compute` is modelled, without the label updates.
- The console I/O is not modelled: the re-prompt loops of `ask_float`, `ask_int` and `ask_choice`, and the printing in `main`. `ask_choice` is modelled by its acceptance test only. `main` is modelled by its computation on already-accepted answers.
- Parsing raw text with `float()`/`int()` is not modelled, nor the `ValueError` it raises. The model starts from parsed values.
- IEEE-754 rounding is not modelled; quantities are exact reals. The `:.0f`/`:.1f`/`:.3f` formatting of results is not modelled. NaN and infinities are not modelled.
- Text.Lower: maps only the ASCII letters A–Z. Python's `str.lower` also maps other letters. The KELVIN SIGN U+212A, for one, lowers to `k`, so the prompt front end would accept "Kg" as "kg".
- GuiCalculator.Compute: the generic `except Exception` path is modelled as `MissingKey(label)`, not as the dialog text it produces.
- CliCalculator.ActivityMessageText: the message is proved equal to the prefix followed by the `Join` of the five keys. It is not proved equal to the single spelled-out string "activity must be one of: sedentary, light, moderate, very, athlete", whose proof is too costly for the verifier.
