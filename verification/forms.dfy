/** The form templates, the difficulty table and the choice of the fields a
    new form shows: the template is picked by level, and a template with more
    fields than the level allows keeps its required fields and a random
    selection of its optional ones. */
module Forms {
  import opened Validation
  import opened Scoring

  datatype FieldKind = TextInput | NumberInput | Select(options: seq<string>) | DateInput

  datatype Field = Field(caption: string, kind: FieldKind, validation: Rule, correct: string, required: bool)

  datatype Template = Template(title: string, formNumber: string, jurisdiction: string, fields: seq<Field>)

  datatype Difficulty = Difficulty(level: nat, timeLimit: nat, fieldsCount: nat, requiredFields: nat, complexFields: nat)

  const DifficultySettings: seq<Difficulty> := [
    Difficulty(1, 45, 4, 3, 0),
    Difficulty(2, 40, 5, 4, 1),
    Difficulty(3, 35, 6, 5, 1),
    Difficulty(4, 30, 7, 6, 2),
    Difficulty(5, 28, 8, 7, 2),
    Difficulty(6, 25, 9, 8, 3),
    Difficulty(7, 22, 10, 9, 3),
    Difficulty(8, 20, 11, 10, 4),
    Difficulty(9, 18, 12, 11, 4),
    Difficulty(10, 15, 13, 12, 5)
  ]

  // The reference answers the federal form draws on.
  const PandaCompanyName := "Gusto Payroll Solutions"
  const PandaEin := "94-1234567"
  const PandaQuarter := "Q1"
  const PandaTotalWages := "125000.00"
  const PandaFederalIncomeTax := "18750.00"

  const Form941 := Template(
    "IRS Form 941 - Employer's Quarterly Federal Tax Return", "941", "Federal", [
      Field("Employer ID Number (EIN)", TextInput, Ein, PandaEin, true),
      Field("Name of Business", TextInput, Required, PandaCompanyName, true),
      Field("Quarter", Select(["Q1 (Jan-Mar)", "Q2 (Apr-Jun)", "Q3 (Jul-Sep)", "Q4 (Oct-Dec)"]),
            Required, PandaQuarter + " (Jan-Mar)", true),
      Field("Total Wages, Tips, Other Compensation", NumberInput, Currency, PandaTotalWages, true),
      Field("Federal Income Tax Withheld", NumberInput, Currency, PandaFederalIncomeTax, true)
    ])

  const CaliforniaDE9 := Template(
    "California DE 9 - Quarterly Contribution Return and Report", "CA DE 9", "California", [
      Field("CA Employer Account Number", TextInput, Required, "123-4567-8", true),
      Field("Business Name", TextInput, Required, "Gusto California LLC", true),
      Field("Reporting Period", Select(["Q1 2024", "Q2 2024", "Q3 2024", "Q4 2024"]), Required, "Q1 2024", true),
      Field("Total Subject Wages", NumberInput, Currency, "85000.00", true),
      Field("UI Contributions Due", NumberInput, Currency, "2890.00", true)
    ])

  const NewYorkNYS45 := Template(
    "New York NYS-45 - Quarterly Combined Withholding, Wage Reporting", "NYS-45", "New York", [
      Field("NYS ID Number", TextInput, Required, "WTN-123456789", true),
      Field("Business Name", TextInput, Required, "Gusto New York Inc", true),
      Field("Quarter Ending", DateInput, Date, "2024-03-31", true),
      Field("Total NYS Wages", NumberInput, Currency, "95000.00", true),
      Field("NYS Income Tax Withheld", NumberInput, Currency, "5700.00", true)
    ])

  const TexasC3 := Template(
    "Texas C-3 - Employer's Quarterly Tax Report", "C-3", "Texas", [
      Field("TX Employer Account Number", TextInput, Required, "12345678901", true),
      Field("Legal Business Name", TextInput, Required, "Gusto Texas Operations", true),
      Field("Report Period", Select(["1st Qtr 2024", "2nd Qtr 2024", "3rd Qtr 2024", "4th Qtr 2024"]),
            Required, "1st Qtr 2024", true),
      Field("Total Taxable Wages", NumberInput, Currency, "78000.00", true),
      Field("Unemployment Tax Due", NumberInput, Currency, "2106.00", true)
    ])

  const IllinoisUI3 := Template(
    "Illinois UI-3/40 - Employer's Quarterly Tax and Wage Report", "UI-3/40", "Illinois", [
      Field("IL Employer Account Number", TextInput, Required, "1234567-8", true),
      Field("Employer Name", TextInput, Required, "Gusto Illinois Branch", true),
      Field("Calendar Quarter",
            Select(["1st Quarter 2024", "2nd Quarter 2024", "3rd Quarter 2024", "4th Quarter 2024"]),
            Required, "1st Quarter 2024", true),
      Field("Total Wages Paid", NumberInput, Currency, "67000.00", true),
      Field("UI Tax Due", NumberInput, Currency, "2043.50", true)
    ])

  const FloridaRT6 := Template(
    "Florida RT-6 - Employer's Quarterly Report", "RT-6", "Florida", [
      Field("FL Employer Account Number", TextInput, Required, "12-3456789-10-1", true),
      Field("Business Name", TextInput, Required, "Gusto Florida Services", true),
      Field("Quarter", Select(["1st Qtr 2024", "2nd Qtr 2024", "3rd Qtr 2024", "4th Qtr 2024"]),
            Required, "1st Qtr 2024", true),
      Field("Total Wages", NumberInput, Currency, "89000.00", true),
      Field("Tax Due", NumberInput, Currency, "2403.00", true)
    ])

  /** The federal form first, then the state forms, in cycle order. */
  const FormSequence: seq<Template> := [Form941, CaliforniaDE9, NewYorkNYS45, TexasC3, IllinoisUI3, FloridaRT6]

  /** `formSequence[(level - 1) % formSequence.length]` */
  function SelectTemplate(level: int): Template
    requires level >= 1
  {
    FormSequence[(level - 1) % |FormSequence|]
  }

  /** The difficulty row of a level; levels past the table use its last row. */
  function DifficultyFor(level: int): (d: Difficulty)
    requires level >= 1
    ensures d.level == if level <= |DifficultySettings| then level else |DifficultySettings|
    ensures d.fieldsCount == d.level + 3 && d.requiredFields == d.level + 2
  {
    DifficultySettings[if level - 1 <= |DifficultySettings| - 1 then level - 1 else |DifficultySettings| - 1]
  }

  /** The templates repeat every six levels: level 7 gets the federal form
      again. */
  lemma TemplateCycle(level: int)
    requires level >= 1
    ensures SelectTemplate(level + 6) == SelectTemplate(level)
  {
    assert |FormSequence| == 6;
    assert (level + 6 - 1) % 6 == (level - 1) % 6;
  }

  /** Level 1 and level 7 both get the federal form. */
  lemma FederalFormFirst()
    ensures SelectTemplate(7) == SelectTemplate(1) == Form941
  {
    TemplateCycle(1);
  }

  /** A higher level never allows more time or fewer fields. */
  lemma DifficultyMonotonic(l1: int, l2: int)
    requires 1 <= l1 <= l2
    ensures DifficultyFor(l2).timeLimit <= DifficultyFor(l1).timeLimit
    ensures DifficultyFor(l1).fieldsCount <= DifficultyFor(l2).fieldsCount
  {
  }

  // ---------------------------------------------------------------- field selection

  /** `b` holds the same items as `a`, possibly reordered. */
  ghost predicate IsPermutation<T>(a: seq<T>, b: seq<T>)
  {
    |a| == |b| && multiset(a) == multiset(b)
  }

  /** `fields.filter(field => field.required)` */
  function RequiredOf(fields: seq<Field>): (r: seq<Field>)
    ensures |r| <= |fields|
  {
    if fields == [] then []
    else
      var last := fields[|fields| - 1];
      RequiredOf(fields[..|fields| - 1]) + (if last.required then [last] else [])
  }

  /** `fields.filter(field => !field.required)` */
  function OptionalOf(fields: seq<Field>): (r: seq<Field>)
    ensures |r| == |fields| - |RequiredOf(fields)|
  {
    if fields == [] then []
    else
      var last := fields[|fields| - 1];
      OptionalOf(fields[..|fields| - 1]) + (if last.required then [] else [last])
  }

  /** Splitting the fields into required and optional ones loses and adds
      nothing. */
  lemma {:induction false} SplitByRequired(fields: seq<Field>)
    ensures multiset(RequiredOf(fields)) + multiset(OptionalOf(fields)) == multiset(fields)
  {
    if fields != [] {
      var init := fields[..|fields| - 1];
      SplitByRequired(init);
      assert fields == init + [fields[|fields| - 1]];
    }
  }

  /** The required part holds only required fields, the optional part only
      optional ones. */
  lemma {:induction false} PartsByRequired(fields: seq<Field>)
    ensures forall i :: 0 <= i < |RequiredOf(fields)| ==> RequiredOf(fields)[i].required
    ensures forall i :: 0 <= i < |OptionalOf(fields)| ==> !OptionalOf(fields)[i].required
  {
    if fields != [] {
      PartsByRequired(fields[..|fields| - 1]);
    }
  }

  /** The fields a new form shows, given the template's fields, the level's
      field count and the optional fields after shuffling. */
  function SelectFields(fields: seq<Field>, fieldsCount: nat, shuffledOptional: seq<Field>): seq<Field>
    requires |shuffledOptional| == |OptionalOf(fields)|
  {
    var maxFields := if fieldsCount + 2 <= |fields| then fieldsCount + 2 else |fields|;
    if |fields| > maxFields then
      var required := RequiredOf(fields);
      required + shuffledOptional[..Max(0, maxFields - |required|)]
    else fields
  }

  /** A template within the level's limit (field count + 2) is shown whole
      and in order. Otherwise the form shows every required field first, in
      template order, then the first max(0, limit - #required) shuffled
      optional fields. */
  lemma SelectFieldsSpec(fields: seq<Field>, fieldsCount: nat, shuffledOptional: seq<Field>)
    requires |shuffledOptional| == |OptionalOf(fields)|
    ensures |fields| <= fieldsCount + 2 ==> SelectFields(fields, fieldsCount, shuffledOptional) == fields
    ensures |fields| > fieldsCount + 2 ==>
      var r := SelectFields(fields, fieldsCount, shuffledOptional);
      var required := RequiredOf(fields);
      && |r| == Max(|required|, fieldsCount + 2)
      && r[..|required|] == required
      && r[|required|..] == shuffledOptional[..|r| - |required|]
  {
  }

  /** With the optional fields shuffled, a form shows nothing that is not in
      its template, and no field more often than the template has it. */
  lemma SelectedFromTemplate(fields: seq<Field>, fieldsCount: nat, shuffledOptional: seq<Field>)
    requires IsPermutation(OptionalOf(fields), shuffledOptional)
    ensures multiset(SelectFields(fields, fieldsCount, shuffledOptional)) <= multiset(fields)
  {
    if |fields| > fieldsCount + 2 {
      var required := RequiredOf(fields);
      var keep := Max(0, fieldsCount + 2 - |required|);
      var shown := shuffledOptional[..keep];
      var r := SelectFields(fields, fieldsCount, shuffledOptional);
      assert r == required + shown;
      assert multiset(r) == multiset(required) + multiset(shown);
      PrefixSubMultiset(shuffledOptional, keep);
      assert multiset(shown) <= multiset(OptionalOf(fields));
      SplitByRequired(fields);
    }
  }

  lemma PrefixSubMultiset<T>(s: seq<T>, k: nat)
    requires k <= |s|
    ensures multiset(s[..k]) <= multiset(s)
  {
    assert s == s[..k] + s[k..];
  }

  predicate AllRequired(fields: seq<Field>)
  {
    forall i :: 0 <= i < |fields| ==> fields[i].required
  }

  lemma {:induction false} NoOptionalFields(fields: seq<Field>)
    requires AllRequired(fields)
    ensures OptionalOf(fields) == []
  {
    if fields != [] {
      var init := fields[..|fields| - 1];
      assert AllRequired(init) by {
        forall i | 0 <= i < |init| ensures init[i].required { assert init[i] == fields[i]; }
      }
      NoOptionalFields(init);
    }
  }

  /** Every shipped template has five fields, all of them required. */
  lemma ShippedTemplateShape(t: Template)
    requires t in FormSequence
    ensures |t.fields| == 5 && AllRequired(t.fields)
  {
    if t == Form941 {
      assert AllRequired(Form941.fields);
    } else if t == CaliforniaDE9 {
      assert AllRequired(CaliforniaDE9.fields);
    } else if t == NewYorkNYS45 {
      assert AllRequired(NewYorkNYS45.fields);
    } else if t == TexasC3 {
      assert AllRequired(TexasC3.fields);
    } else if t == IllinoisUI3 {
      assert AllRequired(IllinoisUI3.fields);
    } else {
      assert AllRequired(FloridaRT6.fields);
    }
  }

  /** With the shipped tables no template is ever cut down: every template
      has five fields, all required, and every level allows at least six, so
      the selection of optional fields never takes effect. */
  lemma ShippedTemplatesShownWhole(level: int, shuffledOptional: seq<Field>)
    requires level >= 1
    requires |shuffledOptional| == |OptionalOf(SelectTemplate(level).fields)|
    ensures SelectFields(SelectTemplate(level).fields, DifficultyFor(level).fieldsCount, shuffledOptional)
            == SelectTemplate(level).fields
    ensures OptionalOf(SelectTemplate(level).fields) == []
  {
    var t := SelectTemplate(level);
    ShippedTemplateShape(t);
    ShortTemplateShownWhole(t.fields, DifficultyFor(level).fieldsCount, shuffledOptional);
  }

  lemma ShortTemplateShownWhole(fields: seq<Field>, fieldsCount: nat, shuffledOptional: seq<Field>)
    requires |fields| == 5 && AllRequired(fields) && fieldsCount >= 4
    requires |shuffledOptional| == |OptionalOf(fields)|
    ensures SelectFields(fields, fieldsCount, shuffledOptional) == fields
    ensures OptionalOf(fields) == []
  {
    NoOptionalFields(fields);
  }

  // ---------------------------------------------------------------- shuffle

  function Swap<T>(s: seq<T>, i: nat, j: nat): (r: seq<T>)
    requires i < |s| && j < |s|
    ensures |r| == |s|
  {
    s[i := s[j]][j := s[i]]
  }

  lemma SwapPermutes<T>(s: seq<T>, i: nat, j: nat)
    requires i < |s| && j < |s|
    ensures multiset(Swap(s, i, j)) == multiset(s)
  {
  }

  /** The random draws a shuffle of n items may use: for each i from n - 1
      down to 1, `draws[i]` is `Math.floor(Math.random() * (i + 1))`. */
  predicate ValidDraws(draws: seq<nat>, n: nat)
  {
    |draws| == n && forall i :: 0 < i < n ==> draws[i] <= i
  }

  /** The Fisher-Yates passes for positions i down to 1. */
  function ShuffledFrom<T>(s: seq<T>, draws: seq<nat>, i: int): (r: seq<T>)
    requires ValidDraws(draws, |s|) && i < |s|
    ensures |r| == |s|
    decreases i
  {
    if i <= 0 then s else ShuffledFrom(Swap(s, i, draws[i]), draws, i - 1)
  }

  function Shuffled<T>(s: seq<T>, draws: seq<nat>): seq<T>
    requires ValidDraws(draws, |s|)
  {
    ShuffledFrom(s, draws, |s| - 1)
  }

  /** Whatever the random draws, a shuffle only reorders its input. */
  lemma {:induction false} ShuffledIsPermutation<T>(s: seq<T>, draws: seq<nat>, i: int)
    requires ValidDraws(draws, |s|) && i < |s|
    ensures IsPermutation(s, ShuffledFrom(s, draws, i))
    decreases i
  {
    if i > 0 {
      SwapPermutes(s, i, draws[i]);
      ShuffledIsPermutation(Swap(s, i, draws[i]), draws, i - 1);
    }
  }

  /** `shuffleArray`: in place, swapping each position from the last down to
      1 with a position drawn at or below it. */
  method ShuffleArray<T>(a: array<T>, draws: seq<nat>)
    requires ValidDraws(draws, a.Length)
    modifies a
    ensures a[..] == Shuffled(old(a[..]), draws)
    ensures IsPermutation(old(a[..]), a[..])
  {
    var i := a.Length - 1;
    while i > 0
      invariant i < a.Length
      invariant ShuffledFrom(a[..], draws, i) == Shuffled(old(a[..]), draws)
      decreases i
    {
      var j := draws[i];
      ghost var before := a[..];
      a[i], a[j] := a[j], a[i];
      assert a[..] == Swap(before, i, j);
      i := i - 1;
    }
    ShuffledIsPermutation(old(a[..]), draws, a.Length - 1);
  }
}
