/**
 * Health metrics and text utilities of the planner (utils.py): BMI, BMR (Mifflin-St Jeor),
 * TDEE, calorie targets, profile validation, workout durations, sets/reps and exercise
 * extraction, and the weekly schedule.
 *
 * Python floats are modelled as exact reals, and `round` as rounding of the exact value
 * to the nearest, ties to even.
 */
module Utils {
  import opened Wrappers
  import opened PyStr

  // ================================================================ rounding

  /** Python's `round(x)`: the nearest integer, ties to the even neighbour. */
  function RoundHalfEven(x: real): (r: int)
    ensures r as real - 0.5 <= x <= r as real + 0.5
    ensures x == x.Floor as real + 0.5 ==> r % 2 == 0
  {
    var f := x.Floor;
    var d := x - f as real;
    if d < 0.5 then f
    else if d > 0.5 then f + 1
    else if f % 2 == 0 then f
    else f + 1
  }

  /** Python's `round(x, 1)`: a whole number of tenths, the nearest one to `x`, and the even
      one of the two when `x` lies exactly half-way. */
  function Round1(x: real): (r: real)
    ensures (r * 10.0).Floor as real == r * 10.0
    ensures -0.05 <= r - x <= 0.05
    ensures x * 10.0 - (x * 10.0).Floor as real == 0.5 ==> (r * 10.0).Floor % 2 == 0
  {
    RoundHalfEven(x * 10.0) as real / 10.0
  }

  /** Python's `int(x)` on a float: truncation toward zero. */
  function Trunc(x: real): (r: int)
    ensures x >= 0.0 ==> r == x.Floor
    ensures x < 0.0 ==> r == -((-x).Floor)
    ensures -1.0 < x - r as real < 1.0
  {
    if x >= 0.0 then x.Floor else -((-x).Floor)
  }

  // ================================================================ BMI

  datatype BmiResult = BmiResult(value: real, category: string)

  /** The BMI bands of the source, half-open: [0, 18.5), [18.5, 25), [25, 30), [30, oo). */
  function BmiCategory(bmi: real): (c: string)
    ensures c == "Underweight" <==> bmi < 18.5
    ensures c == "Normal" <==> 18.5 <= bmi < 25.0
    ensures c == "Overweight" <==> 25.0 <= bmi < 30.0
    ensures c == "Obese" <==> 30.0 <= bmi
  {
    if bmi < 18.5 then "Underweight"
    else if bmi < 25.0 then "Normal"
    else if bmi < 30.0 then "Overweight"
    else "Obese"
  }

  /** weight / (height in metres)^2, unrounded. */
  function Bmi(heightCm: real, weightKg: real): real
    requires heightCm > 0.0
  {
    var heightM := heightCm / 100.0;
    weightKg / (heightM * heightM)
  }

  /** `calculate_bmi`: a non-positive height is reported, never raised; otherwise the category
      is read off the unrounded BMI and only the returned value is rounded to one decimal. */
  function CalculateBmi(heightCm: real, weightKg: real): (r: BmiResult)
    ensures heightCm <= 0.0 ==> r == BmiResult(0.0, "Invalid height")
    ensures heightCm > 0.0 ==> r.category == BmiCategory(Bmi(heightCm, weightKg))
    ensures heightCm > 0.0 ==> (r.value * 10.0).Floor as real == r.value * 10.0
    ensures heightCm > 0.0 ==> -0.05 <= r.value - Bmi(heightCm, weightKg) <= 0.05
    ensures heightCm > 0.0 ==> var t := Bmi(heightCm, weightKg) * 10.0;
      t - t.Floor as real == 0.5 ==> (r.value * 10.0).Floor % 2 == 0
  {
    if heightCm <= 0.0 then BmiResult(0.0, "Invalid height")
    else
      var bmi := Bmi(heightCm, weightKg);
      BmiResult(Round1(bmi), BmiCategory(bmi))
  }

  /** The three cases of the unit tests: 170 cm with 70, 50 and 80 kg. */
  lemma CalculateBmiExamples()
    ensures CalculateBmi(170.0, 70.0) == BmiResult(24.2, "Normal")
    ensures CalculateBmi(170.0, 50.0) == BmiResult(17.3, "Underweight")
    ensures CalculateBmi(170.0, 80.0) == BmiResult(27.7, "Overweight")
  {
    assert Bmi(170.0, 70.0) == 70.0 / 2.89;
    assert (70.0 / 2.89 * 10.0).Floor == 242;
    assert Bmi(170.0, 50.0) == 50.0 / 2.89;
    assert (50.0 / 2.89 * 10.0).Floor == 173;
    assert Bmi(170.0, 80.0) == 80.0 / 2.89;
    assert (80.0 / 2.89 * 10.0).Floor == 276;
  }

  /** The category comes from the unrounded value: a BMI just under 25 is shown as 25.0 and
      still called "Normal". */
  lemma CategoryIgnoresRounding()
    ensures CalculateBmi(100.0, 24.97) == BmiResult(25.0, "Normal")
  {
    assert Bmi(100.0, 24.97) == 24.97;
    assert (24.97 * 10.0).Floor == 249;
  }

  // ================================================================ BMR

  /** Four times the Mifflin-St Jeor estimate, 10w + 6.25h - 5a + 5 for "male" (any case)
      and 10w + 6.25h - 5a - 161 otherwise; exact in quarters for whole-number inputs. */
  function BmrQuarters(weightKg: int, heightCm: int, age: int, gender: string): int
  {
    40 * weightKg + 25 * heightCm - 20 * age + (if Lower(gender) == "male" then 20 else -644)
  }

  /** `round(q / 4)` with ties to even. */
  function RoundQuarters(q: int): (r: int)
    ensures 4 * r - 2 <= q <= 4 * r + 2
    ensures q % 4 == 2 ==> r % 2 == 0
  {
    var f := q / 4;
    var m := q % 4;
    if m < 2 then f
    else if m > 2 then f + 1
    else if f % 2 == 0 then f
    else f + 1
  }

  /** `calculate_bmr`: the Mifflin-St Jeor estimate rounded to a whole number. */
  function CalculateBmr(weightKg: int, heightCm: int, age: int, gender: string): (r: int)
    ensures 4 * r - 2 <= BmrQuarters(weightKg, heightCm, age, gender) <= 4 * r + 2
    ensures BmrQuarters(weightKg, heightCm, age, gender) % 4 == 2 ==> r % 2 == 0
  {
    RoundQuarters(BmrQuarters(weightKg, heightCm, age, gender))
  }

  /** Shifting by an even number of whole units commutes with ties-to-even rounding. */
  lemma RoundQuartersShift(q: int, k: int)
    requires k % 2 == 0
    ensures RoundQuarters(q + 4 * k) == RoundQuarters(q) + k
  {
    assert (q + 4 * k) / 4 == q / 4 + k;
    assert (q + 4 * k) % 4 == q % 4;
  }

  /** The male estimate exceeds the estimate for any other gender by exactly 5 + 161 = 166,
      also after rounding (166 is even, so a tie rounds the same way in both). */
  lemma BmrMaleMinusOther(weightKg: int, heightCm: int, age: int, gender: string)
    requires Lower(gender) != "male"
    ensures CalculateBmr(weightKg, heightCm, age, "Male") - CalculateBmr(weightKg, heightCm, age, gender) == 166
  {
    assert Lower("Male") == "male";
    var q := BmrQuarters(weightKg, heightCm, age, gender);
    assert BmrQuarters(weightKg, heightCm, age, "Male") == q + 4 * 166;
    RoundQuartersShift(q, 166);
  }

  /** "Other" and "Female" both take the female formula. */
  lemma BmrOtherIsFemale(weightKg: int, heightCm: int, age: int)
    ensures CalculateBmr(weightKg, heightCm, age, "Other") == CalculateBmr(weightKg, heightCm, age, "Female")
  {
    assert Lower("Other") != "male" by { assert Lower("Other")[0] == 'o'; }
    assert Lower("Female") != "male" by { assert |Lower("Female")| == 6; }
  }

  /** The ranges of the unit tests. */
  lemma CalculateBmrExamples()
    ensures 1600 < CalculateBmr(70, 170, 25, "Male") < 1800
    ensures 1200 < CalculateBmr(60, 160, 25, "Female") < 1400
  {
    assert Lower("Male") == "male";
    assert Lower("Female") != "male" by { assert |Lower("Female")| == 6; }
  }

  // ================================================================ TDEE

  const ActivityMultipliers: map<string, real> :=
    map["Sedentary" := 1.2, "Light" := 1.375, "Moderate" := 1.55, "Active" := 1.725, "Very Active" := 1.9]

  /** `activity_multipliers.get(activity_level, 1.2)` */
  function ActivityMultiplier(activityLevel: string): (m: real)
    ensures activityLevel in ActivityMultipliers ==> m == ActivityMultipliers[activityLevel]
    ensures activityLevel !in ActivityMultipliers ==> m == 1.2
    ensures 1.2 <= m <= 1.9
  {
    if activityLevel in ActivityMultipliers then ActivityMultipliers[activityLevel] else 1.2
  }

  /** `calculate_tdee`: BMR times the activity multiplier, rounded to the nearest whole number,
      ties to the even one. */
  function CalculateTdee(bmr: real, activityLevel: string): (r: int)
    ensures var p := bmr * ActivityMultiplier(activityLevel);
      r as real - 0.5 <= p <= r as real + 0.5 && (p == p.Floor as real + 0.5 ==> r % 2 == 0)
  {
    RoundHalfEven(bmr * ActivityMultiplier(activityLevel))
  }

  /** An activity level outside the table gets the "Sedentary" multiplier. */
  lemma UnknownLevelIsSedentary(activityLevel: string)
    requires activityLevel !in ActivityMultipliers
    ensures ActivityMultiplier(activityLevel) == ActivityMultiplier("Sedentary")
  {
    var sedentary := "Sedentary";
    assert sedentary in ActivityMultipliers && ActivityMultipliers[sedentary] == 1.2;
  }

  lemma CalculateTdeeExample()
    ensures CalculateTdee(1500.0, "Moderate") == 2325
  {
    assert ActivityMultiplier("Moderate") == 1.55;
    assert (1500.0 * 1.55).Floor == 2325;
  }

  // ================================================================ calorie goals

  /** The goals offered by the form (config.py). */
  const FitnessGoals: seq<string> :=
    ["Weight Loss", "Muscle Gain", "Maintain Fitness", "Improve Endurance", "Build Strength", "General Health"]

  /** The returned dictionary: `deficit` and `surplus` are keys that may be absent. */
  datatype CalorieGoals = CalorieGoals(dailyCalories: int, deficit: Option<int>, surplus: Option<int>)

  /** The signed adjustment a result records: surplus minus deficit, absent keys counting 0. */
  function Delta(g: CalorieGoals): int
  {
    g.surplus.GetOr(0) - g.deficit.GetOr(0)
  }

  /** `calculate_calorie_goals`: goals are matched by exact, case-sensitive string. */
  function CalculateCalorieGoals(tdee: real, goal: string): (r: CalorieGoals)
    ensures r.dailyCalories == Trunc(tdee + Delta(r) as real)
    ensures Delta(r) == (if goal == "Weight Loss" then -500 else if goal == "Muscle Gain" then 300 else 0)
    ensures r.deficit.Some? <==> goal != "Muscle Gain"
    ensures r.surplus.Some? <==> goal != "Weight Loss"
    ensures goal != "Weight Loss" && goal != "Muscle Gain" ==> r.deficit == Some(0) && r.surplus == Some(0)
  {
    if goal == "Weight Loss" then CalorieGoals(Trunc(tdee - 500.0), Some(500), None)
    else if goal == "Muscle Gain" then CalorieGoals(Trunc(tdee + 300.0), None, Some(300))
    else CalorieGoals(Trunc(tdee), Some(0), Some(0))
  }

  /** For a whole-number TDEE (what `calculate_tdee` returns) and every goal of the form, the
      daily target moves away from TDEE in the direction of the goal: down for "Weight Loss",
      up for "Muscle Gain", not at all otherwise. */
  lemma {:induction false} CalorieTargetFollowsGoal(tdee: int, k: nat)
    requires k < |FitnessGoals|
    ensures var g := FitnessGoals[k]; var r := CalculateCalorieGoals(tdee as real, g);
      && (g == "Weight Loss" ==> r.dailyCalories == tdee - 500)
      && (g == "Muscle Gain" ==> r.dailyCalories == tdee + 300)
      && (g != "Weight Loss" && g != "Muscle Gain" ==> r.dailyCalories == tdee)
  {
    var g := FitnessGoals[k];
    var r := CalculateCalorieGoals(tdee as real, g);
    var x := (tdee + Delta(r)) as real;
    assert x.Floor == tdee + Delta(r);
  }

  // ================================================================ validation

  /** The profile dictionary: each field may be absent. Numbers are whole numbers. */
  datatype UserInputs = UserInputs(
    name: Option<string>, age: Option<int>, heightCm: Option<int>, weightKg: Option<int>, goal: Option<string>)

  const RequiredFields: seq<string> := ["name", "age", "height_cm", "weight_kg", "goal"]

  const AgeRangeMessage := "Age must be between 10 and 90"
  const HeightRangeMessage := "Height must be between 100cm and 230cm"
  const WeightRangeMessage := "Weight must be between 30kg and 200kg"

  /** `bool(user_inputs.get(field))`: present and not empty / not zero. */
  predicate Truthy(u: UserInputs, field: string)
  {
    match field
    case "name" => u.name.Some? && u.name.value != ""
    case "age" => u.age.Some? && u.age.value != 0
    case "height_cm" => u.heightCm.Some? && u.heightCm.value != 0
    case "weight_kg" => u.weightKg.Some? && u.weightKg.value != 0
    case "goal" => u.goal.Some? && u.goal.value != ""
    case _ => false
  }

  /** Inclusive range checks on `user_inputs.get(field, 0)`. */
  predicate AgeInRange(u: UserInputs) { 10 <= u.age.GetOr(0) <= 90 }
  predicate HeightInRange(u: UserInputs) { 100 <= u.heightCm.GetOr(0) <= 230 }
  predicate WeightInRange(u: UserInputs) { 30 <= u.weightKg.GetOr(0) <= 200 }

  function RequiredMessage(field: string): string
  {
    field + " is required"
  }

  /** The "is required" messages for the listed fields, in list order. */
  function MissingFieldErrors(u: UserInputs, fields: seq<string>): seq<string>
  {
    if fields == [] then []
    else
      var last := fields[|fields| - 1];
      MissingFieldErrors(u, fields[..|fields| - 1]) + (if Truthy(u, last) then [] else [RequiredMessage(last)])
  }

  /** Every message the validator issues, in its fixed order. */
  function ValidationErrors(u: UserInputs): seq<string>
  {
    MissingFieldErrors(u, RequiredFields)
    + (if AgeInRange(u) then [] else [AgeRangeMessage])
    + (if HeightInRange(u) then [] else [HeightRangeMessage])
    + (if WeightInRange(u) then [] else [WeightRangeMessage])
  }

  /** `validate_user_inputs`: every check runs, none short-circuits; valid iff no message. */
  method ValidateUserInputs(u: UserInputs) returns (isValid: bool, errors: seq<string>)
    ensures errors == ValidationErrors(u)
    ensures isValid <==> errors == []
  {
    errors := [];
    var i := 0;
    while i < |RequiredFields|
      invariant 0 <= i <= |RequiredFields|
      invariant errors == MissingFieldErrors(u, RequiredFields[..i])
    {
      var field := RequiredFields[i];
      if !Truthy(u, field) {
        errors := errors + [RequiredMessage(field)];
      }
      assert RequiredFields[..i + 1][..i] == RequiredFields[..i];
      i := i + 1;
    }
    assert RequiredFields[..i] == RequiredFields;
    if u.age.GetOr(0) < 10 || u.age.GetOr(0) > 90 {
      errors := errors + [AgeRangeMessage];
    }
    if u.heightCm.GetOr(0) < 100 || u.heightCm.GetOr(0) > 230 {
      errors := errors + [HeightRangeMessage];
    }
    if u.weightKg.GetOr(0) < 30 || u.weightKg.GetOr(0) > 200 {
      errors := errors + [WeightRangeMessage];
    }
    isValid := |errors| == 0;
  }

  lemma MissingFieldErrorsOfRequired(u: UserInputs)
    ensures MissingFieldErrors(u, RequiredFields) ==
      (if Truthy(u, "name") then [] else [RequiredMessage("name")])
      + (if Truthy(u, "age") then [] else [RequiredMessage("age")])
      + (if Truthy(u, "height_cm") then [] else [RequiredMessage("height_cm")])
      + (if Truthy(u, "weight_kg") then [] else [RequiredMessage("weight_kg")])
      + (if Truthy(u, "goal") then [] else [RequiredMessage("goal")])
  {
    var f := RequiredFields;
    assert f[..1][..0] == [];
    assert MissingFieldErrors(u, f[..1]) == (if Truthy(u, "name") then [] else [RequiredMessage("name")]);
    assert f[..2][..1] == f[..1];
    assert MissingFieldErrors(u, f[..2]) == MissingFieldErrors(u, f[..1])
      + (if Truthy(u, "age") then [] else [RequiredMessage("age")]);
    assert f[..3][..2] == f[..2];
    assert MissingFieldErrors(u, f[..3]) == MissingFieldErrors(u, f[..2])
      + (if Truthy(u, "height_cm") then [] else [RequiredMessage("height_cm")]);
    assert f[..4][..3] == f[..3];
    assert MissingFieldErrors(u, f[..4]) == MissingFieldErrors(u, f[..3])
      + (if Truthy(u, "weight_kg") then [] else [RequiredMessage("weight_kg")]);
    assert f[..5][..4] == f[..4];
    assert f[..5] == f;
  }

  /** A profile is valid exactly when every required field is truthy and age, height and weight
      lie in their inclusive ranges. */
  lemma ValidIffComplete(u: UserInputs)
    ensures ValidationErrors(u) == [] <==>
      (forall f :: f in RequiredFields ==> Truthy(u, f)) && AgeInRange(u) && HeightInRange(u) && WeightInRange(u)
  {
    MissingFieldErrorsOfRequired(u);
  }

  /** Different fields never share a presence message. */
  lemma RequiredMessageInjective(f: string, g: string)
    requires RequiredMessage(f) == RequiredMessage(g)
    ensures f == g
  {
    assert |f| == |g|;
    assert f == RequiredMessage(f)[..|f|];
    assert g == RequiredMessage(g)[..|g|];
  }

  /** A presence message is among those for `fields` exactly when its field is listed and
      missing or falsy. */
  lemma {:induction false} MissingFieldErrorsIff(u: UserInputs, fields: seq<string>, f: string)
    ensures RequiredMessage(f) in MissingFieldErrors(u, fields) <==> f in fields && !Truthy(u, f)
  {
    if fields != [] {
      var init, last := fields[..|fields| - 1], fields[|fields| - 1];
      assert fields == init + [last];
      MissingFieldErrorsIff(u, init, f);
      if RequiredMessage(last) == RequiredMessage(f) {
        RequiredMessageInjective(last, f);
      }
    }
  }

  /** The presence messages open with a lower-case letter, the range messages with an
      upper-case one. */
  lemma MessageOpenings(f: string)
    requires f in RequiredFields
    ensures RequiredMessage(f)[0] == f[0] && !IsUpper(f[0])
    ensures IsUpper(AgeRangeMessage[0]) && IsUpper(HeightRangeMessage[0]) && IsUpper(WeightRangeMessage[0])
  {
    assert AgeRangeMessage[0] == 'A' && HeightRangeMessage[0] == 'H' && WeightRangeMessage[0] == 'W';
  }

  /** A presence message is issued exactly when its field is missing or falsy. */
  lemma RequiredMessageIff(u: UserInputs, f: string)
    requires f in RequiredFields
    ensures RequiredMessage(f) in ValidationErrors(u) <==> !Truthy(u, f)
  {
    MissingFieldErrorsIff(u, RequiredFields, f);
    MessageOpenings(f);
  }

  /** A range message is issued exactly when its check fails. */
  lemma RangeMessageIff(u: UserInputs)
    ensures AgeRangeMessage in ValidationErrors(u) <==> !AgeInRange(u)
    ensures HeightRangeMessage in ValidationErrors(u) <==> !HeightInRange(u)
    ensures WeightRangeMessage in ValidationErrors(u) <==> !WeightInRange(u)
  {
    forall m | m in MissingFieldErrors(u, RequiredFields)
      ensures m != AgeRangeMessage && m != HeightRangeMessage && m != WeightRangeMessage
    {
      var f := MissingFieldOf(u, RequiredFields, m);
      MessageOpenings(f);
    }
  }

  /** Every message for `fields` is the presence message of one of them. */
  lemma {:induction false} MissingFieldOf(u: UserInputs, fields: seq<string>, m: string) returns (f: string)
    requires m in MissingFieldErrors(u, fields)
    ensures f in fields && m == RequiredMessage(f)
  {
    var init, last := fields[..|fields| - 1], fields[|fields| - 1];
    if m in MissingFieldErrors(u, init) {
      f := MissingFieldOf(u, init, m);
    } else {
      f := last;
    }
  }

  /** A missing age fails both the presence check and the range check (it reads as 0). */
  lemma MissingAgeTwoMessages(u: UserInputs)
    requires u.age.None?
    ensures RequiredMessage("age") in ValidationErrors(u) && AgeRangeMessage in ValidationErrors(u)
  {
    RequiredMessageIff(u, "age");
    RangeMessageIff(u);
  }

  /** The three profiles of the unit tests. */
  lemma ValidationExamples()
    ensures ValidationErrors(UserInputs(Some("John Doe"), Some(25), Some(170), Some(70), Some("Weight Loss"))) == []
    ensures ValidationErrors(UserInputs(Some("John Doe"), Some(5), Some(170), Some(70), Some("Weight Loss"))) == [AgeRangeMessage]
    ensures "goal is required" in ValidationErrors(UserInputs(Some("John Doe"), Some(25), Some(170), Some(70), None))
  {
    MissingFieldErrorsOfRequired(UserInputs(Some("John Doe"), Some(25), Some(170), Some(70), Some("Weight Loss")));
    MissingFieldErrorsOfRequired(UserInputs(Some("John Doe"), Some(5), Some(170), Some(70), Some("Weight Loss")));
    RequiredMessageIff(UserInputs(Some("John Doe"), Some(25), Some(170), Some(70), None), "goal");
    assert RequiredMessage("goal") == "goal is required";
  }

  // ================================================================ durations

  /** The minutes `parse_workout_duration` reads from a text: the first number, read as hours
      (plus a second number as minutes) when the text mentions "hour" or any 'h'; 0 when there
      is no digit. */
  function DurationMinutes(durationStr: string): (m: nat)
    ensures DigitRuns(Strip(Lower(durationStr))) == [] ==> m == 0
  {
    var s := Strip(Lower(durationStr));
    var numbers := DigitRuns(s);
    if numbers == [] then 0
    else if Contains(s, "hour") || Contains(s, "h") then
      60 * DigitsValue(numbers[0]) + (if |numbers| > 1 then DigitsValue(numbers[1]) else 0)
    else DigitsValue(numbers[0])
  }

  /** `parse_workout_duration`, accumulating `total_minutes` as the source does. */
  method ParseWorkoutDuration(durationStr: string) returns (totalMinutes: nat)
    ensures totalMinutes == DurationMinutes(durationStr)
  {
    var s := Strip(Lower(durationStr));
    var numbers := DigitRuns(s);
    if numbers == [] {
      return 0;
    }
    totalMinutes := 0;
    if Contains(s, "hour") || Contains(s, "h") {
      var hours := DigitsValue(numbers[0]);
      totalMinutes := totalMinutes + hours * 60;
      if |numbers| > 1 {
        var minutes := DigitsValue(numbers[1]);
        totalMinutes := totalMinutes + minutes;
      }
    } else {
      totalMinutes := DigitsValue(numbers[0]);
    }
  }

  /** `format_duration` */
  function FormatDuration(minutes: int): string
  {
    if minutes < 60 then IntToString(minutes) + " minutes"
    else
      var hours := minutes / 60;
      var remaining := minutes % 60;
      if remaining == 0 then IntToString(hours) + " hour" + (if hours > 1 then "s" else "")
      else IntToString(hours) + "h " + IntToString(remaining) + "m"
  }

  /** A formatted duration is a lower-case, stripped text: parsing sees it unchanged. */
  lemma NormalizedText(s: string)
    requires s != [] && !IsSpace(s[0]) && !IsSpace(s[|s| - 1])
    requires forall i :: 0 <= i < |s| ==> !IsUpper(s[i])
    ensures Strip(Lower(s)) == s
  {
    LowerNoUpper(s);
    StripCharsUnchanged(s, Whitespace);
  }

  /** The text shape `<digits><tail>` produced by `format_duration`, where the tail is
      lower-case, starts with a non-digit and does not end in whitespace. */
  predicate DurationShape(d: string, tail: string)
  {
    && d != [] && AllDigits(d)
    && tail != [] && !IsDigit(tail[0]) && !IsSpace(tail[|tail| - 1])
    && forall i :: 0 <= i < |tail| ==> !IsUpper(tail[i])
  }

  lemma DurationShapeRuns(d: string, tail: string)
    requires DurationShape(d, tail)
    ensures Strip(Lower(d + tail)) == d + tail
    ensures DigitRuns(d + tail) == [d] + DigitRuns(tail)
  {
    var s := d + tail;
    forall i | 0 <= i < |s| ensures !IsUpper(s[i]) {
      if i >= |d| {
        assert s[i] == tail[i - |d|];
      }
    }
    NormalizedText(s);
    DigitRunsCons(d, tail);
  }

  /** Minutes only: a tail with no digit and no 'h' reads as the number itself. */
  lemma ParseMinutesShape(d: string, tail: string)
    requires DurationShape(d, tail)
    requires forall i :: 0 <= i < |tail| ==> !IsDigit(tail[i]) && tail[i] != 'h'
    ensures DurationMinutes(d + tail) == DigitsValue(d)
  {
    var s := d + tail;
    DurationShapeRuns(d, tail);
    DigitRunsNone(tail);
    forall i | 0 <= i < |s| ensures s[i] != 'h' {
      if i >= |d| {
        assert s[i] == tail[i - |d|];
      }
    }
    NoCharNoContains(s, "hour");
    NoCharNoContains(s, "h");
  }

  /** Hours: a tail with an 'h' reads the first number as hours and the next one, if any, as
      minutes. */
  lemma ParseHoursShape(d: string, tail: string)
    requires DurationShape(d, tail) && Contains(d + tail, "h")
    ensures DurationMinutes(d + tail) ==
      60 * DigitsValue(d) + (if DigitRuns(tail) != [] then DigitsValue(DigitRuns(tail)[0]) else 0)
  {
    DurationShapeRuns(d, tail);
  }

  /** An 'h' at position `j` of the tail is an 'h' of the whole text. */
  lemma HourMark(d: string, tail: string, j: nat)
    requires j < |tail| && tail[j] == 'h'
    ensures Contains(d + tail, "h")
  {
    var s := d + tail;
    assert s[|d| + j..|d| + j + 1] == "h";
    OccursAtContains(s, "h", |d| + j);
  }

  /** The tails " minutes", " hour" and " hours" are lower case, free of digits, start with a
      space and end with a letter. */
  predicate PlainTail(tail: string)
  {
    && tail != [] && tail[0] == ' ' && !IsSpace(tail[|tail| - 1])
    && forall i :: 0 <= i < |tail| ==> !IsDigit(tail[i]) && !IsUpper(tail[i])
  }

  lemma MinutesTail()
    ensures PlainTail(" minutes")
    ensures forall i :: 0 <= i < |" minutes"| ==> " minutes"[i] != 'h'
  {
    var t := " minutes";
    assert forall i :: 0 <= i < |t| ==> t[i] in {' ', 'm', 'i', 'n', 'u', 't', 'e', 's'};
  }

  lemma HourTail(plural: bool)
    ensures var tail := " hour" + (if plural then "s" else ""); PlainTail(tail) && tail[1] == 'h'
  {
    var tail := " hour" + (if plural then "s" else "");
    assert forall i :: 0 <= i < |tail| ==> tail[i] in {' ', 'h', 'o', 'u', 'r', 's'};
  }

  lemma RoundTripMinutes(m: nat)
    requires m < 60
    ensures DurationMinutes(FormatDuration(m)) == m
  {
    MinutesTail();
    ParseMinutesShape(NatToString(m), " minutes");
  }

  lemma RoundTripWholeHours(m: nat)
    requires m >= 60 && m % 60 == 0
    ensures DurationMinutes(FormatDuration(m)) == m
  {
    var h := m / 60;
    var tail := " hour" + (if h > 1 then "s" else "");
    HourTail(h > 1);
    assert FormatDuration(m) == NatToString(h) + tail;
    DigitRunsNone(tail);
    HourMark(NatToString(h), tail, 1);
    ParseHoursShape(NatToString(h), tail);
  }

  lemma HoursMinutesTail(dr: string)
    requires dr != [] && AllDigits(dr)
    ensures var tail := "h " + dr + "m";
      && tail[0] == 'h' && !IsSpace(tail[|tail| - 1])
      && (forall i :: 0 <= i < |tail| ==> !IsUpper(tail[i]))
      && DigitRuns(tail) == [dr]
  {
    var tail := "h " + dr + "m";
    forall i | 0 <= i < |tail| ensures !IsUpper(tail[i]) {
      if 2 <= i < |tail| - 1 {
        assert tail[i] == dr[i - 2];
      }
    }
    assert tail[1..] == " " + dr + "m";
    assert (" " + dr + "m")[1..] == dr + "m";
    DigitRunsCons(dr, "m");
    DigitRunsNone("m");
  }

  /** `<hours>h <minutes>m` reads as sixty times the hours plus the minutes. */
  lemma ParseHoursMinutes(dh: string, dr: string)
    requires dh != [] && AllDigits(dh) && dr != [] && AllDigits(dr)
    ensures DurationMinutes(dh + ("h " + dr + "m")) == 60 * DigitsValue(dh) + DigitsValue(dr)
  {
    var tail := "h " + dr + "m";
    HoursMinutesTail(dr);
    HourMark(dh, tail, 0);
    ParseHoursShape(dh, tail);
  }

  lemma RoundTripHoursMinutes(m: nat)
    requires m >= 60 && m % 60 != 0
    ensures DurationMinutes(FormatDuration(m)) == m
  {
    var h, r := m / 60, m % 60;
    assert FormatDuration(m) == NatToString(h) + ("h " + NatToString(r) + "m");
    ParseHoursMinutes(NatToString(h), NatToString(r));
  }

  /** Parsing a formatted duration gives the number of minutes back. */
  lemma DurationRoundTrip(m: nat)
    ensures DurationMinutes(FormatDuration(m)) == m
  {
    if m < 60 {
      RoundTripMinutes(m);
    } else if m % 60 == 0 {
      RoundTripWholeHours(m);
    } else {
      RoundTripHoursMinutes(m);
    }
  }

  // ================================================================ sets and reps

  /** End of the run of digits that starts at `i`. */
  function RunEnd(s: string, i: nat): (e: nat)
    requires i <= |s|
    ensures i <= e <= |s| && AllDigits(s[i..e])
    ensures e < |s| ==> !IsDigit(s[e])
  {
    var k := DigitPrefixLen(s[i..]);
    assert s[i..i + k] == s[i..][..k];
    i + k
  }

  /** First position at or after `j` that is not whitespace (`\s*` is greedy). */
  function SkipSpaces(s: string, j: nat): (e: nat)
    requires j <= |s|
    ensures j <= e <= |s|
    ensures forall k :: j <= k < e ==> IsSpace(s[k])
    ensures e < |s| ==> !IsSpace(s[e])
    decreases |s| - j
  {
    if j < |s| && IsSpace(s[j]) then SkipSpaces(s, j + 1) else j
  }

  /** A match of `(\d+)\s*<kw>` whose number starts at `i`: `i` begins a run of digits and the
      run is followed, after optional whitespace, by the keyword. */
  predicate CountAt(s: string, i: int, kw: string)
  {
    0 <= i < |s| && IsDigit(s[i]) && (i == 0 || !IsDigit(s[i - 1]))
    && OccursAt(s, kw, SkipSpaces(s, RunEnd(s, i)))
  }

  /** Leftmost match at or after `from`, or -1 (`re.search`). */
  function FirstCountAt(s: string, kw: string, from: nat): (r: int)
    ensures r == -1 || (from <= r && CountAt(s, r, kw))
    decreases |s| - from
  {
    if from >= |s| then -1
    else if CountAt(s, from, kw) then from
    else FirstCountAt(s, kw, from + 1)
  }

  /** The search skips no match. */
  lemma {:induction false} FirstCountAtFirst(s: string, kw: string, from: nat, k: int)
    requires from <= k && (FirstCountAt(s, kw, from) == -1 || k < FirstCountAt(s, kw, from))
    ensures !CountAt(s, k, kw)
    decreases |s| - from
  {
    if from < |s| && !CountAt(s, from, kw) && from < k {
      FirstCountAtFirst(s, kw, from + 1, k);
    }
  }

  /** No match anywhere in `s`. */
  ghost predicate NoCount(s: string, kw: string)
  {
    forall k :: !CountAt(s, k, kw)
  }

  function CountKeyword(target: string): string
  {
    if target == "sets" then "set" else "rep"
  }

  /** `extract_sets_reps`: the number of the leftmost match of `(\d+)\s*set` (target 'sets')
      or `(\d+)\s*rep` (any other target) in the lower-cased text, or None. */
  function ExtractSetsReps(text: string, target: string): (r: Option<nat>)
  {
    var s := Lower(text);
    var i := FirstCountAt(s, CountKeyword(target), 0);
    if i == -1 then None
    else
      var run := s[i..RunEnd(s, i)];
      assert run == s[i..][..DigitPrefixLen(s[i..])];
      Some(DigitsValue(run))
  }

  /** No number is reported exactly when the text has no match at all. */
  lemma ExtractSetsRepsNone(text: string, target: string)
    ensures ExtractSetsReps(text, target).None? <==> NoCount(Lower(text), CountKeyword(target))
  {
    var s := Lower(text);
    var kw := CountKeyword(target);
    var i := FirstCountAt(s, kw, 0);
    if i != -1 {
      assert CountAt(s, i, kw);
    } else {
      forall k ensures !CountAt(s, k, kw) {
        if 0 <= k {
          FirstCountAtFirst(s, kw, 0, k);
        }
      }
    }
  }

  /** The leftmost match decides: its digits are the number reported. */
  lemma ExtractSetsRepsLeftmost(text: string, target: string, i: nat)
    requires CountAt(Lower(text), i, CountKeyword(target))
    requires forall k :: 0 <= k < i ==> !CountAt(Lower(text), k, CountKeyword(target))
    ensures ExtractSetsReps(text, target) == Some(DigitsValue(Lower(text)[i..RunEnd(Lower(text), i)]))
  {
    var s := Lower(text);
    var kw := CountKeyword(target);
    var j := FirstCountAt(s, kw, 0);
    if j == -1 || i < j {
      FirstCountAtFirst(s, kw, 0, i);
      assert false;
    }
    assert j == i;
  }

  /** A run of digits `d` at `i`, not preceded by a digit, followed by one space and then the
      keyword, is a match whose number is `d`. */
  lemma CountAtDigits(s: string, i: nat, d: string, kw: string)
    requires d != [] && AllDigits(d) && kw != [] && !IsSpace(kw[0])
    requires i + |d| + 1 + |kw| <= |s| && s[i..i + |d|] == d && (i == 0 || !IsDigit(s[i - 1]))
    requires s[i + |d|] == ' ' && s[i + |d| + 1..i + |d| + 1 + |kw|] == kw
    ensures CountAt(s, i, kw) && RunEnd(s, i) == i + |d| && s[i..RunEnd(s, i)] == d
  {
    assert s[i..] == d + s[i + |d|..];
    DigitPrefixLenOf(d, s[i + |d|..]);
    assert s[i] == d[0];
    assert SkipSpaces(s, i + |d| + 1) == i + |d| + 1 by {
      assert s[i + |d| + 1] == kw[0];
    }
  }

  /** The phrase `<d1> sets of <d2> reps` of the unit tests, for any two numbers. */
  function SetsRepsPhrase(d1: string, d2: string): string
  {
    d1 + " sets of " + d2 + " reps"
  }

  lemma SetsRepsPhraseChars(d1: string, d2: string)
    requires AllDigits(d1) && AllDigits(d2)
    ensures var t := SetsRepsPhrase(d1, d2);
      && |t| == |d1| + 9 + |d2| + 5
      && t[..|d1|] == d1 && t[|d1| + 9..|d1| + 9 + |d2|] == d2
      && t[|d1|] == ' ' && t[|d1| + 1..|d1| + 4] == "set"
      && t[|d1| + 9 + |d2|] == ' ' && t[|d1| + 9 + |d2| + 1..|d1| + 9 + |d2| + 4] == "rep"
      && (forall k :: |d1| <= k < |d1| + 9 ==> !IsDigit(t[k]))
      && (forall k :: 0 <= k < |t| ==> !IsUpper(t[k]))
  {
    var t := SetsRepsPhrase(d1, d2);
    var mid := " sets of ";
    assert t == d1 + mid + d2 + " reps";
    forall k | |d1| <= k < |d1| + 9 ensures !IsDigit(t[k]) {
      assert t[k] == mid[k - |d1|];
      assert mid[k - |d1|] in {' ', 's', 'e', 't', 'o', 'f'};
    }
    forall k | 0 <= k < |t| ensures !IsUpper(t[k]) {
      if k < |d1| {
        assert t[k] == d1[k];
      } else if k < |d1| + 9 {
        assert t[k] == mid[k - |d1|];
      } else if k < |d1| + 9 + |d2| {
        assert t[k] == d2[k - |d1| - 9];
      } else {
        assert t[k] == " reps"[k - |d1| - 9 - |d2|];
      }
    }
  }

  lemma PhraseIsLower(d1: string, d2: string)
    requires AllDigits(d1) && AllDigits(d2)
    ensures Lower(SetsRepsPhrase(d1, d2)) == SetsRepsPhrase(d1, d2)
  {
    SetsRepsPhraseChars(d1, d2);
    LowerNoUpper(SetsRepsPhrase(d1, d2));
  }

  lemma PhraseMatches(d1: string, d2: string)
    requires d1 != [] && AllDigits(d1) && d2 != [] && AllDigits(d2)
    ensures var t, i := SetsRepsPhrase(d1, d2), |d1| + 9;
      && CountAt(t, 0, "set") && t[0..RunEnd(t, 0)] == d1
      && CountAt(t, i, "rep") && t[i..RunEnd(t, i)] == d2
  {
    var t := SetsRepsPhrase(d1, d2);
    SetsRepsPhraseChars(d1, d2);
    CountAtDigits(t, 0, d1, "set");
    CountAtDigits(t, |d1| + 9, d2, "rep");
  }

  /** In `<d1> sets of <d2> reps` the first number counts sets ... */
  lemma ExtractSetsOfPhrase(d1: string, d2: string)
    requires d1 != [] && AllDigits(d1) && d2 != [] && AllDigits(d2)
    ensures ExtractSetsReps(SetsRepsPhrase(d1, d2), "sets") == Some(DigitsValue(d1))
  {
    PhraseIsLower(d1, d2);
    PhraseMatches(d1, d2);
    ExtractSetsRepsLeftmost(SetsRepsPhrase(d1, d2), "sets", 0);
  }

  /** ... and the second counts reps: the first number is followed by "sets", not "reps". */
  lemma ExtractRepsOfPhrase(d1: string, d2: string)
    requires d1 != [] && AllDigits(d1) && d2 != [] && AllDigits(d2)
    ensures ExtractSetsReps(SetsRepsPhrase(d1, d2), "reps") == Some(DigitsValue(d2))
  {
    PhraseIsLower(d1, d2);
    PhraseMatches(d1, d2);
    NoRepInFirstPart(d1, d2);
    ExtractSetsRepsLeftmost(SetsRepsPhrase(d1, d2), "reps", |d1| + 9);
  }

  lemma NoRepInFirstPart(d1: string, d2: string)
    requires d1 != [] && AllDigits(d1) && d2 != [] && AllDigits(d2)
    ensures forall k :: 0 <= k < |d1| + 9 ==> !CountAt(SetsRepsPhrase(d1, d2), k, "rep")
  {
    var t := SetsRepsPhrase(d1, d2);
    SetsRepsPhraseChars(d1, d2);
    CountAtDigits(t, 0, d1, "set");
    assert t[|d1| + 1] != "rep"[0];
    forall k | 0 <= k < |d1| ensures IsDigit(t[k]) {
      assert t[k] == d1[k];
    }
  }

  // ================================================================ exercises

  datatype Exercise = Exercise(name: string, description: string, sets: Option<nat>, reps: Option<nat>)

  /** A stripped line that names an exercise: not empty, not a '#' or '*' line, and mentioning
      one of the five exercise keywords (any case). */
  predicate IsExerciseLine(line: string)
  {
    var l := Lower(line);
    && line != "" && line[0] != '#' && line[0] != '*'
    && (Contains(l, "push-up") || Contains(l, "squat") || Contains(l, "lunge")
        || Contains(l, "plank") || Contains(l, "burpee"))
  }

  /** The exercise name: the text before the first '-', stripped, or the whole line. */
  function ExerciseName(line: string): (name: string)
    ensures Contains(line, "-") ==> name == Strip(line[..Find(line, "-")])
    ensures !Contains(line, "-") ==> name == line
  {
    if Contains(line, "-") then Strip(Split(line, "-")[0]) else line
  }

  function ExerciseOf(line: string): Exercise
  {
    Exercise(ExerciseName(line), line, ExtractSetsReps(line, "sets"), ExtractSetsReps(line, "reps"))
  }

  /** The stripped lines that name an exercise, in order. */
  function ExerciseLines(lines: seq<string>): (r: seq<string>)
    ensures |r| <= |lines|
    ensures forall k :: 0 <= k < |r| ==> IsExerciseLine(r[k]) && Strip(r[k]) == r[k]
  {
    if lines == [] then []
    else
      var rest := ExerciseLines(lines[..|lines| - 1]);
      var l := Strip(lines[|lines| - 1]);
      StripIdempotent(lines[|lines| - 1]);
      rest + (if IsExerciseLine(l) then [l] else [])
  }

  /** No exercise line is dropped. */
  lemma {:induction false} ExerciseLinesComplete(lines: seq<string>, i: nat)
    requires i < |lines| && IsExerciseLine(Strip(lines[i]))
    ensures Strip(lines[i]) in ExerciseLines(lines)
  {
    if i < |lines| - 1 {
      ExerciseLinesComplete(lines[..|lines| - 1], i);
    }
  }

  /** One entry per exercise line, in the same order. */
  function ExercisesOf(exerciseLines: seq<string>): (r: seq<Exercise>)
    ensures |r| == |exerciseLines|
  {
    seq(|exerciseLines|, k requires 0 <= k < |exerciseLines| => ExerciseOf(exerciseLines[k]))
  }

  lemma ExercisesOfSnoc(exerciseLines: seq<string>, line: string)
    ensures ExercisesOf(exerciseLines + [line]) == ExercisesOf(exerciseLines) + [ExerciseOf(line)]
  {
    assert forall k :: 0 <= k < |exerciseLines| ==> (exerciseLines + [line])[k] == exerciseLines[k];
  }

  /** `extract_exercises_from_text`: one entry per exercise line, in order. */
  method ExtractExercisesFromText(text: string) returns (exercises: seq<Exercise>)
    ensures exercises == ExercisesOf(ExerciseLines(Split(text, "\n")))
  {
    exercises := [];
    var lines := Split(text, "\n");
    var i := 0;
    while i < |lines|
      invariant 0 <= i <= |lines|
      invariant exercises == ExercisesOf(ExerciseLines(lines[..i]))
    {
      var line := Strip(lines[i]);
      assert lines[..i + 1][..i] == lines[..i];
      ghost var done := ExerciseLines(lines[..i]);
      assert ExerciseLines(lines[..i + 1]) == done + (if IsExerciseLine(line) then [line] else []);
      if IsExerciseLine(line) {
        ExercisesOfSnoc(done, line);
        exercises := exercises + [ExerciseOf(line)];
      }
      i := i + 1;
    }
    assert lines[..i] == lines;
  }

  /** Every extracted entry describes a stripped exercise line of the text and carries that
      line's name, sets and reps; and every exercise line of the text has an entry. */
  lemma ExtractedExercises(text: string, k: nat)
    requires k < |ExercisesOf(ExerciseLines(Split(text, "\n")))|
    ensures var e := ExercisesOf(ExerciseLines(Split(text, "\n")))[k];
      && IsExerciseLine(e.description) && Strip(e.description) == e.description
      && e.name == ExerciseName(e.description)
      && e.sets == ExtractSetsReps(e.description, "sets")
      && e.reps == ExtractSetsReps(e.description, "reps")
  {
  }

  // ================================================================ weekly schedule

  const WeekDays: seq<string> := ["Monday", "Tuesday", "Wednesday", "Thursday", "Friday", "Saturday", "Sunday"]

  const FrequencyMap: map<string, nat> :=
    map["3 days/week" := 3, "4 days/week" := 4, "5 days/week" := 5, "6 days/week" := 6, "Daily" := 7]

  /** `frequency_map.get(workout_frequency, 3)` */
  function FrequencyDays(workoutFrequency: string): (n: nat)
    ensures workoutFrequency !in FrequencyMap ==> n == 3
    ensures workoutFrequency == "Daily" ==> n == 7
    ensures 3 <= n <= 7
  {
    if workoutFrequency in FrequencyMap then FrequencyMap[workoutFrequency] else 3
  }

  /** `generate_weekly_schedule`: the first `min(n, len(days))` available days, the default list
      being Monday to Sunday. */
  function GenerateWeeklySchedule(workoutFrequency: string, availableDays: Option<seq<string>>): (r: seq<string>)
    ensures var days := availableDays.GetOr(WeekDays);
      && |r| == (if FrequencyDays(workoutFrequency) <= |days| then FrequencyDays(workoutFrequency) else |days|)
      && r == days[..|r|]
  {
    var days := if availableDays.None? then WeekDays else availableDays.value;
    var numDays := FrequencyDays(workoutFrequency);
    if numDays <= |days| then days[..numDays] else days
  }
}
