/**
 * The six-step booking form of src/components/BookingPage.js: the form
 * data and the `handleInputChange` reducer, the step counter with its
 * validation gate, submission, the step titles, and the controls each step
 * renders with the browser constraints (`required`, `pattern`, `min`,
 * `max`) that `validateCurrentStep` checks.
 */
module Booking {
  import opened Js

  /** The value stored under one key of `formData`: a string, a checkbox boolean, or an array. */
  datatype FieldValue = Text(s: string) | Checked(b: bool) | Items(items: seq<string>)

  /** The `type` of the input that fired a change event, as far as the reducer distinguishes it. */
  datatype InputKind = Checkbox | FileInput | OtherInput

  /** A change event: the target's `name`, `type`, `value`, `checked` and `files` (`null` is `None`). */
  datatype Change = Change(name: string, kind: InputKind, value: string, checked: bool, files: Option<seq<string>>)

  /** The keys of `initialState` whose initial value is `''`. */
  const TextFieldNames: set<string> := {
    "firstName", "lastName", "company", "email", "phone",
    "industry", "propertyType",
    "bookingType", "frequency", "reason", "firstTimeDeepCleaning",
    "squareFootage", "levels", "bedrooms", "bathrooms", "powderRooms", "kitchens",
    "lastCleaned", "people", "builtYear", "lastRenovated", "pets", "furnished",
    "package", "interiorWindows", "insideEmptyKitchenCabinets",
    "address", "city", "province", "postal", "date", "accessMethod", "accessDetails",
    "details", "hearAbout", "referralName"
  }

  /** `initialState`: every text field empty, no extras and no images. */
  const InitialState: map<string, FieldValue> :=
    (map k | k in TextFieldNames :: Text(""))["extras" := Items([])]["images" := Items([])]

  /** The form holds exactly the text fields, `extras` and `images`. */
  lemma InitialStateKeys()
    ensures InitialState.Keys == TextFieldNames + {"extras", "images"}
  {
  }

  /** The list fields are not text fields. */
  lemma ListFieldsNotText()
    ensures "extras" !in TextFieldNames && "images" !in TextFieldNames
  {
  }

  /** Every text field starts empty; `extras` and `images` start as empty lists. */
  lemma InitialStateValues()
    ensures forall k :: k in TextFieldNames ==> InitialState[k] == Text("")
    ensures InitialState["extras"] == Items([]) && InitialState["images"] == Items([])
  {
    ListFieldsNotText();
  }

  // ---------------------------------------------------------------- reducer

  /** `xs.filter(v => v !== x)`. */
  function Remove(xs: seq<string>, x: string): (r: seq<string>)
    ensures x !in r
    ensures forall y :: y in r <==> y in xs && y != x
    ensures multiset(r) == multiset(xs)[x := 0]
  {
    if xs == [] then []
    else
      assert xs == [xs[0]] + xs[1..];
      if xs[0] == x then Remove(xs[1..], x)
      else [xs[0]] + Remove(xs[1..], x)
  }

  /** The filter works element by element, so the kept values stay in their order. */
  lemma {:induction false} RemoveAppend(a: seq<string>, b: seq<string>, x: string)
    ensures Remove(a + b, x) == Remove(a, x) + Remove(b, x)
  {
    if a == [] {
      assert a + b == b;
    } else {
      var ab := a + b;
      assert ab[0] == a[0] && ab[1..] == a[1..] + b;
      RemoveAppend(a[1..], b, x);
      if a[0] == x {
        assert Remove(ab, x) == Remove(ab[1..], x);
      } else {
        assert Remove(ab, x) == [a[0]] + Remove(ab[1..], x);
        assert [a[0]] + (Remove(a[1..], x) + Remove(b, x)) == ([a[0]] + Remove(a[1..], x)) + Remove(b, x);
      }
    }
  }

  /** Removing a value that is not there changes nothing. */
  lemma {:induction false} RemoveAbsent(xs: seq<string>, x: string)
    requires x !in xs
    ensures Remove(xs, x) == xs
  {
    if xs != [] {
      RemoveAbsent(xs[1..], x);
      assert xs == [xs[0]] + xs[1..];
    }
  }

  /** Removing the value just appended restores a list that did not hold it. */
  lemma {:induction false} RemoveAppended(xs: seq<string>, x: string)
    requires x !in xs
    ensures Remove(xs + [x], x) == xs
  {
    if xs == [] {
      assert [] + [x] == [x];
      assert [x][1..] == [];
    } else {
      assert (xs + [x])[1..] == xs[1..] + [x];
      RemoveAppended(xs[1..], x);
      assert xs == [xs[0]] + xs[1..];
    }
  }

  /** The extras checkbox rule: remove every copy of a selected value, otherwise append it at the end. */
  function Toggle(extras: seq<string>, value: string): (r: seq<string>)
    ensures value in extras ==> value !in r && forall y :: y != value ==> (y in r <==> y in extras)
    ensures value in extras ==> multiset(r) == multiset(extras)[value := 0] && r == Remove(extras, value)
    ensures value !in extras ==> r == extras + [value]
  {
    if value in extras then Remove(extras, value) else extras + [value]
  }

  /** Toggling an unselected extra twice restores the selection exactly. */
  lemma ToggleTwiceRestores(extras: seq<string>, value: string)
    requires value !in extras
    ensures Toggle(Toggle(extras, value), value) == extras
  {
    RemoveAppended(extras, value);
  }

  /** `prev.extras`; a key that does not hold an array (the form never stores one) reads as no extras. */
  function ExtrasOf(data: map<string, FieldValue>): seq<string>
  {
    if "extras" in data && data["extras"].Items? then data["extras"].items else []
  }

  /** The updater that `handleInputChange` passes to `setFormData`. */
  function Reduce(prev: map<string, FieldValue>, c: Change): map<string, FieldValue>
  {
    if c.kind == Checkbox && c.name == "extras" then
      prev["extras" := Items(Toggle(ExtrasOf(prev), c.value))]
    else if c.kind == Checkbox then
      if c.name == "firstTimeDeepCleaning" then prev[c.name := Text(if c.checked then "Yes" else "")]
      else prev[c.name := Checked(c.checked)]
    else if c.kind == FileInput then
      prev[c.name := Items(if c.files.Some? then c.files.value else [])]
    else
      prev[c.name := Text(c.value)]
  }

  /** Every change writes the field it names and leaves every other field as it was. */
  lemma ReduceTouchesOnlyNamedField(prev: map<string, FieldValue>, c: Change)
    ensures Reduce(prev, c).Keys == prev.Keys + {c.name}
    ensures forall k :: k in prev && k != c.name ==> Reduce(prev, c)[k] == prev[k]
  {
  }

  /** The value each kind of change stores under its name. */
  lemma ReduceStores(prev: map<string, FieldValue>, c: Change)
    ensures c.kind == Checkbox && c.name == "extras" ==>
      Reduce(prev, c)["extras"] == Items(Toggle(ExtrasOf(prev), c.value))
    ensures c.kind == Checkbox && c.name == "firstTimeDeepCleaning" ==>
      Reduce(prev, c)[c.name] == Text(if c.checked then "Yes" else "")
    ensures c.kind == Checkbox && c.name != "extras" && c.name != "firstTimeDeepCleaning" ==>
      Reduce(prev, c)[c.name] == Checked(c.checked)
    ensures c.kind == FileInput ==> Reduce(prev, c)[c.name] == Items(if c.files.Some? then c.files.value else [])
    ensures c.kind == OtherInput ==> Reduce(prev, c)[c.name] == Text(c.value)
  {
  }

  /** Clicking the same extras checkbox twice, starting unselected, restores the form data. */
  lemma ExtrasClickedTwice(prev: map<string, FieldValue>, c: Change)
    requires c.kind == Checkbox && c.name == "extras"
    requires "extras" in prev && prev["extras"].Items? && c.value !in prev["extras"].items
    ensures Reduce(Reduce(prev, c), c) == prev
  {
    ToggleTwiceRestores(prev["extras"].items, c.value);
  }

  // ------------------------------------------------------------ step counter

  const FirstStep := 1
  const LastStep := 6

  /** `s => Math.min(6, s + 1)`. */
  function NextStep(s: int): (r: int)
    ensures 1 <= s <= 6 ==> 1 <= r <= 6
    ensures r >= s || s > LastStep
    ensures s < LastStep ==> r == s + 1
  {
    if s + 1 < LastStep then s + 1 else LastStep
  }

  /** `s => Math.max(1, s - 1)`. */
  function PrevStep(s: int): (r: int)
    ensures 1 <= s <= 6 ==> 1 <= r <= 6
    ensures r <= s || s < FirstStep
    ensures s > FirstStep ==> r == s - 1
  {
    if s - 1 > FirstStep then s - 1 else FirstStep
  }

  /** Going back and forth between two steps returns to where one started. */
  lemma StepRoundTrips(s: int)
    ensures FirstStep <= s < LastStep ==> PrevStep(NextStep(s)) == s
    ensures FirstStep < s <= LastStep ==> NextStep(PrevStep(s)) == s
  {
  }

  /** The last step is a fixed point of `NextStep` and the first one of `PrevStep`. */
  lemma StepEnds()
    ensures NextStep(LastStep) == LastStep && PrevStep(FirstStep) == FirstStep
  {
  }

  /** The heading of each step; `''` for a step outside 1..6. */
  function StepTitle(step: int): (title: string)
    ensures title == "" <==> !(FirstStep <= step <= LastStep)
  {
    match step
    case 1 => "Personal Information"
    case 2 => "Select Industry"
    case 3 => "Select Service"
    case 4 => "Property Details"
    case 5 => "Packages and Extras"
    case 6 => "Additional Details"
    case _ => ""
  }

  // ------------------------------------------------------ browser constraints

  /** The text of a field, `''` when it holds no string. */
  function TextOf(data: map<string, FieldValue>, name: string): string
  {
    if name in data && data[name].Text? then data[name].s else ""
  }

  predicate IsRecurring(data: map<string, FieldValue>)
  {
    TextOf(data, "bookingType") == "Recurring"
  }

  predicate IsOneTime(data: map<string, FieldValue>)
  {
    TextOf(data, "bookingType") == "One-Time"
  }

  predicate PhoneChar(c: char)
  {
    IsDigit(c) || IsWhitespace(c) || c == '(' || c == ')' || c == '-'
  }

  /** The number of decimal digits in `s`. */
  function DigitCount(s: string): (n: nat)
    ensures n <= |s|
    ensures n == |s| <==> forall i :: 0 <= i < |s| ==> IsDigit(s[i])
    ensures n == 0 <==> forall i :: 0 <= i < |s| ==> !IsDigit(s[i])
  {
    if s == [] then 0 else (if IsDigit(s[0]) then 1 else 0) + DigitCount(s[1..])
  }

  /** The phone number once the optional leading `+` is taken off. */
  function PhoneBody(s: string): string
  {
    if |s| > 0 && s[0] == '+' then s[1..] else s
  }

  /**
   * The phone `pattern` `^(?:\+)?(?=(?:\D*\d){10,15}\D*$)[\d\s()\-]+$`: an
   * optional `+`, then one or more digits, spaces, parentheses or hyphens,
   * of which 10 to 15 are digits.
   */
  predicate PhonePattern(s: string)
  {
    var body := PhoneBody(s);
    |body| > 0 && (forall i :: 0 <= i < |body| ==> PhoneChar(body[i])) && 10 <= DigitCount(body) <= 15
  }

  /** An accepted phone number has at least ten characters and no `+` after the first. */
  lemma PhonePatternShape(s: string)
    requires PhonePattern(s)
    ensures |s| >= 10
    ensures forall i :: 0 < i < |s| ==> s[i] != '+'
  {
    var body := PhoneBody(s);
    if |s| > 0 && s[0] == '+' {
      forall i | 0 < i < |s| ensures s[i] != '+' {
        assert s[i] == body[i - 1];
      }
    }
  }

  /** A second leading `+` is never accepted. */
  lemma PhoneSinglePlus(s: string)
    requires |s| >= 2 && s[0] == '+' && s[1] == '+'
    ensures !PhonePattern(s)
  {
    assert PhoneBody(s)[0] == '+';
  }

  predicate IsAsciiLetter(c: char)
  {
    ('A' <= c <= 'Z') || ('a' <= c <= 'z')
  }

  /**
   * The Canadian postal code the `postal` field asks for: letter, digit,
   * letter, an optional space or hyphen, digit, letter, digit.
   */
  predicate PostalPattern(s: string)
  {
    (|s| == 6 || (|s| == 7 && (s[3] == ' ' || s[3] == '-')))
    && IsAsciiLetter(s[0]) && IsDigit(s[1]) && IsAsciiLetter(s[2])
    && IsDigit(s[|s| - 3]) && IsAsciiLetter(s[|s| - 2]) && IsDigit(s[|s| - 1])
  }

  /**
   * The `pattern` attribute exactly as the page writes it. A JSX attribute
   * string keeps `\\` as two backslashes, so the regular expression reads
   * `\\d`: a literal backslash followed by the letter `d`, in each of the
   * three places a digit was meant.
   */
  predicate PostalPatternAsWritten(s: string)
  {
    (|s| == 9 || (|s| == 10 && (s[4] == ' ' || s[4] == '-')))
    && IsAsciiLetter(s[0]) && s[1] == '\\' && s[2] == 'd' && IsAsciiLetter(s[3])
    && s[|s| - 5] == '\\' && s[|s| - 4] == 'd' && IsAsciiLetter(s[|s| - 3])
    && s[|s| - 2] == '\\' && s[|s| - 1] == 'd'
  }

  /** As written, no real postal code is accepted, while a string of backslashes and `d`s is. */
  lemma PostalAsWrittenRejectsRealCodes(s: string)
    ensures PostalPattern(s) ==> !PostalPatternAsWritten(s)
    ensures !PostalPatternAsWritten("L4M 1A1") && PostalPattern("L4M 1A1")
    ensures PostalPatternAsWritten("L\\dM \\dA\\d") && !PostalPattern("L\\dM \\dA\\d")
  {
  }

  /** The corrected pattern accepts a code with a space, with a hyphen or with nothing between the halves, in either case. */
  lemma PostalPatternSeparators(a: string, b: string)
    requires |a| == 3 && |b| == 3
    requires IsAsciiLetter(a[0]) && IsDigit(a[1]) && IsAsciiLetter(a[2])
    requires IsDigit(b[0]) && IsAsciiLetter(b[1]) && IsDigit(b[2])
    ensures PostalPattern(a + b) && PostalPattern(a + " " + b) && PostalPattern(a + "-" + b)
    ensures forall sep: char :: !(sep == ' ' || sep == '-') ==> !PostalPattern(a + [sep] + b)
  {
    forall sep: char | !(sep == ' ' || sep == '-') ensures !PostalPattern(a + [sep] + b) {
      assert (a + [sep] + b)[3] == sep;
    }
  }

  /** The value of a decimal digit string. */
  function DigitsValue(s: string): (n: nat)
    requires forall i :: 0 <= i < |s| ==> IsDigit(s[i])
  {
    if s == [] then 0
    else
      assert IsDigit(s[|s| - 1]);
      DigitsValue(s[..|s| - 1]) * 10 + (s[|s| - 1] as int - '0' as int)
  }

  /** `NatToString` and `DigitsValue` are inverse: the digits of `n` read back as `n`. */
  lemma {:induction false} DigitsValueOfNatToString(n: nat)
    ensures DigitsValue(NatToString(n)) == n
  {
    if n >= 10 {
      DigitsValueOfNatToString(n / 10);
      var s := NatToString(n);
      assert s[..|s| - 1] == NatToString(n / 10);
    }
  }

  /**
   * A required `type="number"` input with `step="1"`: a whole number at
   * least `min` and, when there is a `max`, at most `max`.
   */
  predicate NumberInRange(s: string, min: int, max: Option<int>)
  {
    |s| > 0 && (forall i :: 0 <= i < |s| ==> IsDigit(s[i]))
    && min <= DigitsValue(s) && (max.Some? ==> DigitsValue(s) <= max.value)
  }

  /** The `builtYear` rule accepts a year written in decimal exactly when it lies in 1900..currentYear. */
  lemma BuiltYearRange(year: nat, currentYear: int)
    ensures NumberInRange(NatToString(year), 1900, Some(currentYear)) <==> 1900 <= year <= currentYear
  {
    DigitsValueOfNatToString(year);
  }

  /** What `checkValidity()` tests on a control besides presence. */
  datatype Rule = Present | Phone | Postal | PostalAsWritten | Number(min: int, max: Option<int>)

  /** One control of a step: the field it edits, its `required` attribute and its constraint. */
  datatype Control = Control(name: string, required: bool, rule: Rule)

  /** A field holds a value: a non-empty string, a ticked box or a non-empty array. */
  predicate HasValue(data: map<string, FieldValue>, name: string)
  {
    name in data &&
    match data[name]
    case Text(s) => s != ""
    case Checked(b) => b
    case Items(items) => items != []
  }

  /** `input.checkValidity()`: the field is filled and satisfies the control's constraint. */
  predicate CheckValidity(c: Control, data: map<string, FieldValue>)
  {
    HasValue(data, c.name) &&
    match c.rule
    case Present => true
    case Phone => PhonePattern(TextOf(data, c.name))
    case Postal => PostalPattern(TextOf(data, c.name))
    case PostalAsWritten => PostalPatternAsWritten(TextOf(data, c.name))
    case Number(min, max) => NumberInRange(TextOf(data, c.name), min, max)
  }

  /** The loop body's test: a control stops the step only when it is required and invalid. */
  predicate Passes(c: Control, data: map<string, FieldValue>)
  {
    !c.required || CheckValidity(c, data)
  }

  /**
   * The controls rendered in the panel of `step`, in document order, for the
   * current form data (one entry per radio group and per checkbox group).
   */
  function StepControls(step: int, data: map<string, FieldValue>, currentYear: int): seq<Control>
  {
    match step
    case 1 => [Control("firstName", true, Present), Control("lastName", true, Present),
               Control("company", false, Present), Control("email", true, Present),
               Control("phone", true, Phone)]
    case 2 => [Control("industry", true, Present), Control("propertyType", true, Present)]
    case 3 => [Control("bookingType", true, Present)]
              + (if IsRecurring(data) then [Control("frequency", IsRecurring(data), Present),
                                            Control("firstTimeDeepCleaning", false, Present)] else [])
              + (if IsOneTime(data) then [Control("reason", IsOneTime(data), Present)] else [])
    case 4 => [Control("squareFootage", true, Number(0, None)), Control("levels", true, Number(1, None)),
               Control("bedrooms", true, Number(0, None)), Control("bathrooms", true, Number(0, None)),
               Control("powderRooms", true, Number(0, None)), Control("kitchens", true, Number(0, None)),
               Control("lastCleaned", true, Present), Control("people", true, Number(1, None)),
               Control("builtYear", true, Number(1900, Some(currentYear))),
               Control("lastRenovated", true, Present), Control("pets", true, Present),
               Control("furnished", true, Present)]
    case 5 => (if IsRecurring(data) then [Control("package", IsRecurring(data), Present)] else [])
              + (if IsOneTime(data) then [Control("extras", false, Present),
                                          Control("interiorWindows", IsOneTime(data), Present),
                                          Control("insideEmptyKitchenCabinets", IsOneTime(data), Present)] else [])
    case 6 => [Control("address", true, Present), Control("city", true, Present),
               Control("province", true, Present), Control("postal", true, Postal),
               Control("date", true, Present), Control("accessMethod", true, Present)]
              + (if TextOf(data, "accessMethod") == "Other" then [Control("accessDetails", false, Present)] else [])
              + [Control("details", true, Present), Control("hearAbout", true, Present)]
              + (if TextOf(data, "hearAbout") == "Referral" then [Control("referralName", false, Present)] else [])
              + [Control("images", false, Present)]
    case _ => []
  }

  /** What `validateCurrentStep` decides: every control of the step passes. */
  predicate StepValid(step: int, data: map<string, FieldValue>, currentYear: int)
  {
    var controls := StepControls(step, data, currentYear);
    forall i :: 0 <= i < |controls| ==> Passes(controls[i], data)
  }

  /** The names of the required controls of a step. */
  function RequiredNames(controls: seq<Control>): (names: set<string>)
    ensures forall n :: n in names <==> exists i :: 0 <= i < |controls| && controls[i].required && controls[i].name == n
  {
    set i | 0 <= i < |controls| && controls[i].required :: controls[i].name
  }

  /** `frequency` and `package` are required exactly for a recurring booking. */
  lemma RecurringRequirements(data: map<string, FieldValue>, year: int)
    ensures "frequency" in RequiredNames(StepControls(3, data, year)) <==> IsRecurring(data)
    ensures "package" in RequiredNames(StepControls(5, data, year)) <==> IsRecurring(data)
  {
    var c3 := StepControls(3, data, year);
    if IsRecurring(data) {
      assert c3[1].name == "frequency" && c3[1].required;
      assert StepControls(5, data, year)[0].name == "package";
    }
  }

  /** `reason`, `interiorWindows` and `insideEmptyKitchenCabinets` are required exactly for a one-time booking. */
  lemma OneTimeRequirements(data: map<string, FieldValue>, year: int)
    ensures "reason" in RequiredNames(StepControls(3, data, year)) <==> IsOneTime(data)
    ensures "interiorWindows" in RequiredNames(StepControls(5, data, year)) <==> IsOneTime(data)
    ensures "insideEmptyKitchenCabinets" in RequiredNames(StepControls(5, data, year)) <==> IsOneTime(data)
  {
    if IsOneTime(data) {
      assert !IsRecurring(data);
      var c3 := StepControls(3, data, year);
      var c5 := StepControls(5, data, year);
      assert c3[1].name == "reason" && c3[1].required;
      assert c5[1].name == "interiorWindows" && c5[1].required;
      assert c5[2].name == "insideEmptyKitchenCabinets" && c5[2].required;
    }
  }

  /** `company`, `accessDetails` and `referralName` are never required, on any step. */
  lemma OptionalFields(step: int, data: map<string, FieldValue>, year: int)
    ensures "company" !in RequiredNames(StepControls(step, data, year))
    ensures "accessDetails" !in RequiredNames(StepControls(step, data, year))
    ensures "referralName" !in RequiredNames(StepControls(step, data, year))
  {
    var controls := StepControls(step, data, year);
    forall i | 0 <= i < |controls| && controls[i].required
      ensures controls[i].name != "company" && controls[i].name != "accessDetails" && controls[i].name != "referralName"
    {
      if step == 6 {
        OptionalFieldsOfLastStep(data, year, i);
      }
    }
  }

  lemma OptionalFieldsOfLastStep(data: map<string, FieldValue>, year: int, i: int)
    requires 0 <= i < |StepControls(6, data, year)| && StepControls(6, data, year)[i].required
    ensures StepControls(6, data, year)[i].name !in {"accessDetails", "referralName", "company"}
  {
    var a := [Control("address", true, Present), Control("city", true, Present),
              Control("province", true, Present), Control("postal", true, Postal),
              Control("date", true, Present), Control("accessMethod", true, Present)];
    var b := if TextOf(data, "accessMethod") == "Other" then [Control("accessDetails", false, Present)] else [];
    var c := [Control("details", true, Present), Control("hearAbout", true, Present)];
    var d := if TextOf(data, "hearAbout") == "Referral" then [Control("referralName", false, Present)] else [];
    var e := [Control("images", false, Present)];
    var all := a + b + c + d + e;
    assert StepControls(6, data, year) == all;
    var x := all[i];
    assert x in all;
    assert x in a || x in b || x in c || x in d || x in e;
  }

  /** An empty required field blocks its step. */
  lemma EmptyRequiredBlocks(step: int, data: map<string, FieldValue>, year: int, name: string)
    requires name in RequiredNames(StepControls(step, data, year))
    requires !HasValue(data, name)
    ensures !StepValid(step, data, year)
  {
    var controls := StepControls(step, data, year);
    var i :| 0 <= i < |controls| && controls[i].required && controls[i].name == name;
    assert !Passes(controls[i], data);
  }

  /** A fresh form can never leave step 1: its first name is empty. */
  lemma FreshFormBlocked(year: int)
    ensures !StepValid(1, InitialState, year)
  {
    assert !Passes(StepControls(1, InitialState, year)[0], InitialState);
  }

  /** A control with the postal `pattern` as the page writes it rather than as intended. */
  function WrittenAs(c: Control): Control
  {
    if c.rule == Postal then c.(rule := PostalAsWritten) else c
  }

  /** `validateCurrentStep` with the postal `pattern` as written. */
  predicate StepValidAsWritten(step: int, data: map<string, FieldValue>, currentYear: int)
  {
    var controls := StepControls(step, data, currentYear);
    forall i :: 0 <= i < |controls| ==> Passes(WrittenAs(controls[i]), data)
  }

  /** Only the last step carries the postal control, so every other step validates as before. */
  lemma AsWrittenDiffersOnlyOnLastStep(step: int, data: map<string, FieldValue>, year: int)
    requires step != LastStep
    ensures StepValidAsWritten(step, data, year) <==> StepValid(step, data, year)
  {
    var controls := StepControls(step, data, year);
    NoPostalBeforeLastStep(step, data, year);
    forall i | 0 <= i < |controls| ensures WrittenAs(controls[i]) == controls[i] {
      assert controls[i].rule != Postal;
    }
  }

  /** The postal control belongs to the last step only. */
  lemma NoPostalBeforeLastStep(step: int, data: map<string, FieldValue>, year: int)
    requires step != LastStep
    ensures forall i | 0 <= i < |StepControls(step, data, year)| :: StepControls(step, data, year)[i].rule != Postal
  {
    var cs := StepControls(step, data, year);
    if step == 3 {
      var a := [Control("bookingType", true, Present)];
      var b := if IsRecurring(data) then [Control("frequency", IsRecurring(data), Present),
                                          Control("firstTimeDeepCleaning", false, Present)] else [];
      var c := if IsOneTime(data) then [Control("reason", IsOneTime(data), Present)] else [];
      assert cs == a + b + c;
      forall i | 0 <= i < |cs| ensures cs[i].rule == Present {
        if i >= |a + b| { assert cs[i] == c[i - |a + b|]; }
        else if i >= |a| { assert cs[i] == b[i - |a|]; }
      }
    } else if step == 5 {
      var b := if IsRecurring(data) then [Control("package", IsRecurring(data), Present)] else [];
      var c := if IsOneTime(data) then [Control("extras", false, Present),
                                        Control("interiorWindows", IsOneTime(data), Present),
                                        Control("insideEmptyKitchenCabinets", IsOneTime(data), Present)] else [];
      assert cs == b + c;
      forall i | 0 <= i < |cs| ensures cs[i].rule == Present {
        if i >= |b| { assert cs[i] == c[i - |b|]; }
      }
    }
  }

  /** With the pattern as written, a real postal code keeps the last step from validating. */
  lemma PostalAsWrittenBlocksSubmit(data: map<string, FieldValue>, year: int)
    requires PostalPattern(TextOf(data, "postal"))
    ensures !StepValidAsWritten(LastStep, data, year)
  {
    PostalAsWrittenRejectsRealCodes(TextOf(data, "postal"));
    var postal := StepControls(LastStep, data, year)[3];
    assert postal == Control("postal", true, Postal);
    assert !Passes(WrittenAs(postal), data);
  }

  // ------------------------------------------------------------- component

  /** The loop of `validateCurrentStep`: the first required control that fails
      `checkValidity()` stops it with `false`. */
  method CheckControls(controls: seq<Control>, data: map<string, FieldValue>) returns (ok: bool)
    ensures ok <==> forall i :: 0 <= i < |controls| ==> Passes(controls[i], data)
  {
    var i := 0;
    while i < |controls|
      invariant 0 <= i <= |controls|
      invariant forall j :: 0 <= j < i ==> Passes(controls[j], data)
    {
      if controls[i].required && !CheckValidity(controls[i], data) {
        return false;
      }
      i := i + 1;
    }
    return true;
  }

  /** The component's state: `currentStep` and `formData`. */
  class BookingPage {
    var currentStep: int
    var formData: map<string, FieldValue>

    ghost predicate Valid()
      reads this
    {
      FirstStep <= currentStep <= LastStep
    }

    constructor ()
      ensures Valid()
      ensures currentStep == FirstStep && formData == InitialState
    {
      currentStep := FirstStep;
      formData := InitialState;
    }

    /** `handleInputChange`: apply the reducer to the form data. */
    method HandleInputChange(c: Change)
      modifies this`formData
      ensures formData == Reduce(old(formData), c)
    {
      formData := Reduce(formData, c);
    }

    /** `validateCurrentStep`: the first required control that fails stops the scan. */
    method ValidateCurrentStep(currentYear: int) returns (ok: bool)
      ensures ok <==> StepValid(currentStep, formData, currentYear)
    {
      ok := CheckControls(StepControls(currentStep, formData, currentYear), formData);
    }

    /** `goNext`: advance one step, up to the last, only when the current step validates. */
    method GoNext(currentYear: int)
      requires Valid()
      modifies this`currentStep
      ensures Valid()
      ensures currentStep == if StepValid(old(currentStep), formData, currentYear) then NextStep(old(currentStep)) else old(currentStep)
    {
      var ok := ValidateCurrentStep(currentYear);
      if !ok {
        return;
      }
      currentStep := NextStep(currentStep);
    }

    /** `goPrev`: go back one step, down to the first; no validation. */
    method GoPrev()
      requires Valid()
      modifies this`currentStep
      ensures Valid()
      ensures currentStep == PrevStep(old(currentStep))
    {
      currentStep := PrevStep(currentStep);
    }

    /** `handleSubmit`: when the current step validates, reset the form and return to step 1. */
    method HandleSubmit(currentYear: int)
      requires Valid()
      modifies this`currentStep, this`formData
      ensures Valid()
      ensures StepValid(old(currentStep), old(formData), currentYear) ==> formData == InitialState && currentStep == FirstStep
      ensures !StepValid(old(currentStep), old(formData), currentYear) ==> formData == old(formData) && currentStep == old(currentStep)
    {
      var ok := ValidateCurrentStep(currentYear);
      if !ok {
        return;
      }
      formData := InitialState;
      currentStep := FirstStep;
    }
  }
}
