/** The game object: the screen it is on, the score and level counters, the
    clock, the form on the desk with its entered values and error list, and
    the player's profile and leaderboard. The form goes empty -> filled ->
    reviewed; it is scored on submission and replaced by a fresh one. */
module Game {
  import opened Text
  import opened Validation
  import opened Answers
  import opened Scoring
  import opened Forms
  import opened Rankings

  /** The screens 'menu', 'playing' and 'gameOver'. */
  datatype GameState = Menu | Playing | TimeUp

  /** 'submitted' is declared but never entered: a submitted form stays
      Reviewed until the next form replaces it. */
  datatype FormState = Empty | Filled | Reviewed | Submitted

  datatype ReviewOutcome = NotFilled | MissingRequired | InvalidValues | Accepted

  datatype GameReport = GameReport(accuracy: nat, rating: Rating)

  predicate NoDuplicates(s: seq<string>)
  {
    forall i, j :: 0 <= i < j < |s| ==> s[i] != s[j]
  }

  /** `addError`: the message is appended unless it is already listed. */
  function WithError(errors: seq<string>, m: string): (r: seq<string>)
    ensures forall x :: x in r <==> x in errors || x == m
    ensures NoDuplicates(errors) ==> NoDuplicates(r)
    ensures errors <= r && |r| <= |errors| + 1
  {
    if m in errors then errors else errors + [m]
  }

  function Reported(errors: seq<string>, msg: Option<string>): seq<string>
  {
    match msg
    case None => errors
    case Some(m) => WithError(errors, m)
  }

  /** The value stored for field `i`, or the empty string if none has been
      entered (an absent value is falsy in every test the game makes). */
  function ValueAt(filled: map<nat, string>, i: nat): string
  {
    if i in filled then filled[i] else ""
  }

  /** What `validateField` returns for a trimmed value. */
  predicate FieldPasses(f: Field, v: string, parsesAsDate: string -> bool)
  {
    !(f.required && v == []) && ValueAccepted(f.validation, v, parsesAsDate)
  }

  /** A non-empty value its rule rejects. */
  predicate InvalidFormat(f: Field, v: string, parsesAsDate: string -> bool)
  {
    v != [] && !ValueAccepted(f.validation, v, parsesAsDate)
  }

  function InvalidMessage(f: Field): string
  {
    "Invalid format for " + f.caption
  }

  function RequiredMessage(f: Field): string
  {
    f.caption + " is required"
  }

  /** The message `validateField` reports for a trimmed value, given the
      form's state at the time. */
  function FieldMessage(f: Field, v: string, state: FormState, parsesAsDate: string -> bool): (msg: Option<string>)
  {
    if f.required && v == [] then
      (if state == Reviewed then Some(RequiredMessage(f)) else None)
    else if ValueAccepted(f.validation, v, parsesAsDate) then None
    else Some(InvalidMessage(f))
  }

  /** A field reports an error exactly when it fails, except that a missing
      required value is only reported once the form is reviewed. */
  lemma FieldMessageSpec(f: Field, v: string, state: FormState, parsesAsDate: string -> bool)
    ensures FieldMessage(f, v, state, parsesAsDate).Some? <==>
      !FieldPasses(f, v, parsesAsDate) && (InvalidFormat(f, v, parsesAsDate) || state == Reviewed)
    ensures InvalidFormat(f, v, parsesAsDate) ==> FieldMessage(f, v, state, parsesAsDate) == Some(InvalidMessage(f))
    ensures f.required && v == [] && state != Reviewed ==> FieldMessage(f, v, state, parsesAsDate) == None
  {
  }

  /** What `validateField` decides about one raw input: the trimmed value
      it stores, whether the field passes and the message it reports. */
  datatype FieldCheck = FieldCheck(value: string, passes: bool, message: Option<string>)

  function CheckField(f: Field, raw: string, state: FormState, parsesAsDate: string -> bool): FieldCheck
  {
    var v := Trim(raw);
    FieldCheck(v, FieldPasses(f, v, parsesAsDate), FieldMessage(f, v, state, parsesAsDate))
  }

  /** The checks `reviewForm` makes, one per field, while the form is Filled. */
  function ReviewChecks(fields: seq<Field>, inputs: seq<string>, parsesAsDate: string -> bool): (c: seq<FieldCheck>)
    requires |fields| == |inputs|
    ensures |c| == |fields|
  {
    seq(|fields|, i requires 0 <= i < |fields| => CheckField(fields[i], inputs[i], Filled, parsesAsDate))
  }

  /** `checks` are the decisions `validateField` makes on `inputs` while
      the form is Filled. */
  predicate ChecksFor(fields: seq<Field>, inputs: seq<string>, parsesAsDate: string -> bool, checks: seq<FieldCheck>)
  {
    && |checks| == |fields| == |inputs|
    && forall i {:trigger CheckField(fields[i], inputs[i], Filled, parsesAsDate)} :: 0 <= i < |fields| ==>
         checks[i] == CheckField(fields[i], inputs[i], Filled, parsesAsDate)
  }

  /** Connects `ReviewChecks` to the form `ReviewForm`'s loop invariant uses. */
  lemma ReviewChecksAgree(fields: seq<Field>, inputs: seq<string>, parsesAsDate: string -> bool)
    requires |fields| == |inputs|
    ensures ChecksFor(fields, inputs, parsesAsDate, ReviewChecks(fields, inputs, parsesAsDate))
  {
  }

  /** A check made during a review stores the trimmed input; it passes
      exactly when that value is accepted by the field's rule, or it is empty
      and the field optional; and the only message it can report is the
      invalid-format one, for a non-empty value the rule rejects. */
  lemma ReviewCheckSpec(fields: seq<Field>, inputs: seq<string>, parsesAsDate: string -> bool, i: nat)
    requires |fields| == |inputs| && i < |fields|
    ensures var c, v := ReviewChecks(fields, inputs, parsesAsDate)[i], Trim(inputs[i]);
      && c.value == v
      && (c.passes <==> (v == [] && !fields[i].required) || (v != [] && RuleAccepts(fields[i].validation, v, parsesAsDate)))
      && c.message == (if v != [] && !RuleAccepts(fields[i].validation, v, parsesAsDate) then Some(InvalidMessage(fields[i])) else None)
  {
  }

  /** What `reviewForm` has built up after the first k checks: the stored
      values, the error list, whether every field passed and how many
      required fields have a value. */
  datatype ReviewProgress = ReviewProgress(filled: map<nat, string>, errors: seq<string>, allValid: bool, requiredFilled: nat)

  function ReviewPrefix(fields: seq<Field>, checks: seq<FieldCheck>, k: nat, filled0: map<nat, string>): ReviewProgress
    requires k <= |fields| == |checks|
  {
    if k == 0 then ReviewProgress(filled0, [], true, 0)
    else
      var p := ReviewPrefix(fields, checks, k - 1, filled0);
      var f := fields[k - 1];
      var c := checks[k - 1];
      ReviewProgress(p.filled[k - 1 := c.value],
                     Reported(p.errors, c.message),
                     p.allValid && c.passes && !(f.required && c.value == []),
                     p.requiredFilled + (if f.required && c.value != [] then 1 else 0))
  }

  /** The outcome of a review of a filled form. */
  function ReviewVerdict(fields: seq<Field>, checks: seq<FieldCheck>, filled0: map<nat, string>): ReviewOutcome
    requires |fields| == |checks|
  {
    var p := ReviewPrefix(fields, checks, |fields|, filled0);
    if p.requiredFilled < |RequiredOf(fields)| then MissingRequired
    else if !p.allValid then InvalidValues
    else Accepted
  }

  lemma {:induction false} PrefixStoresValues(fields: seq<Field>, checks: seq<FieldCheck>, k: nat, filled0: map<nat, string>)
    requires k <= |fields| == |checks|
    ensures var m := ReviewPrefix(fields, checks, k, filled0).filled;
      && (forall i: nat :: i in m <==> i in filled0 || i < k)
      && (forall i :: 0 <= i < k ==> m[i] == checks[i].value)
      && (forall i: nat :: i in filled0 && i >= k ==> m[i] == filled0[i])
  {
    if k > 0 {
      PrefixStoresValues(fields, checks, k - 1, filled0);
    }
  }

  lemma {:induction false} PrefixAllValid(fields: seq<Field>, checks: seq<FieldCheck>, k: nat, filled0: map<nat, string>)
    requires k <= |fields| == |checks|
    ensures ReviewPrefix(fields, checks, k, filled0).allValid <==>
      forall i :: 0 <= i < k ==> checks[i].passes && !(fields[i].required && checks[i].value == [])
  {
    if k > 0 {
      PrefixAllValid(fields, checks, k - 1, filled0);
    }
  }

  lemma {:induction false} PrefixRequiredCount(fields: seq<Field>, checks: seq<FieldCheck>, k: nat, filled0: map<nat, string>)
    requires k <= |fields| == |checks|
    ensures var n := ReviewPrefix(fields, checks, k, filled0).requiredFilled;
      && n <= |RequiredOf(fields[..k])|
      && (n == |RequiredOf(fields[..k])| <==> forall i :: 0 <= i < k && fields[i].required ==> checks[i].value != [])
  {
    if k > 0 {
      PrefixRequiredCount(fields, checks, k - 1, filled0);
      assert fields[..k][..k - 1] == fields[..k - 1];
    }
  }

  lemma {:induction false} PrefixErrors(fields: seq<Field>, checks: seq<FieldCheck>, k: nat, filled0: map<nat, string>)
    requires k <= |fields| == |checks|
    ensures var e := ReviewPrefix(fields, checks, k, filled0).errors;
      && NoDuplicates(e)
      && forall m :: m in e <==> exists i :: 0 <= i < k && checks[i].message == Some(m)
  {
    if k > 0 {
      PrefixErrors(fields, checks, k - 1, filled0);
    }
  }

  lemma {:induction false} PrefixSilent(fields: seq<Field>, checks: seq<FieldCheck>, k: nat, filled0: map<nat, string>)
    requires k <= |fields| == |checks|
    requires forall i :: 0 <= i < k ==> checks[i].message == None
    ensures ReviewPrefix(fields, checks, k, filled0).errors == []
  {
    if k > 0 {
      PrefixSilent(fields, checks, k - 1, filled0);
    }
  }

  /** A review stores every input trimmed and keeps any other stored value. */
  lemma ReviewStoresInputs(fields: seq<Field>, inputs: seq<string>, filled0: map<nat, string>, parsesAsDate: string -> bool)
    requires |fields| == |inputs|
    ensures var m := ReviewPrefix(fields, ReviewChecks(fields, inputs, parsesAsDate), |fields|, filled0).filled;
      && (forall i: nat :: i in m <==> i in filled0 || i < |fields|)
      && (forall i :: 0 <= i < |fields| ==> m[i] == Trim(inputs[i]))
      && (forall i: nat :: i in filled0 && i >= |fields| ==> m[i] == filled0[i])
  {
    var checks := ReviewChecks(fields, inputs, parsesAsDate);
    PrefixStoresValues(fields, checks, |fields|, filled0);
    forall i | 0 <= i < |fields|
      ensures checks[i].value == Trim(inputs[i])
    {
    }
  }

  /** The messages of a review are exactly the "Invalid format" messages of
      the fields whose non-empty value was rejected, each once. No "is
      required" message appears, whatever was left empty. */
  lemma ReviewErrorsSpec(fields: seq<Field>, inputs: seq<string>, filled0: map<nat, string>, parsesAsDate: string -> bool)
    requires |fields| == |inputs|
    ensures var e := ReviewPrefix(fields, ReviewChecks(fields, inputs, parsesAsDate), |fields|, filled0).errors;
      && NoDuplicates(e)
      && forall m :: m in e <==>
           exists i :: 0 <= i < |fields| && InvalidFormat(fields[i], Trim(inputs[i]), parsesAsDate) && m == InvalidMessage(fields[i])
  {
    var checks := ReviewChecks(fields, inputs, parsesAsDate);
    PrefixErrors(fields, checks, |fields|, filled0);
    forall i | 0 <= i < |fields|
      ensures checks[i].message == (if InvalidFormat(fields[i], Trim(inputs[i]), parsesAsDate) then Some(InvalidMessage(fields[i])) else None)
    {
      FieldMessageSpec(fields[i], Trim(inputs[i]), Filled, parsesAsDate);
    }
  }

  /** A review is accepted exactly when every field passes, and reports a
      missing required value before any rejected one. */
  lemma ReviewVerdictSpec(fields: seq<Field>, inputs: seq<string>, filled0: map<nat, string>, parsesAsDate: string -> bool)
    requires |fields| == |inputs|
    ensures ReviewVerdict(fields, ReviewChecks(fields, inputs, parsesAsDate), filled0) == Accepted <==>
      forall i :: 0 <= i < |fields| ==> FieldPasses(fields[i], Trim(inputs[i]), parsesAsDate)
    ensures ReviewVerdict(fields, ReviewChecks(fields, inputs, parsesAsDate), filled0) == MissingRequired <==>
      exists i :: 0 <= i < |fields| && fields[i].required && Trim(inputs[i]) == []
  {
    var checks := ReviewChecks(fields, inputs, parsesAsDate);
    PrefixAllValid(fields, checks, |fields|, filled0);
    PrefixRequiredCount(fields, checks, |fields|, filled0);
    assert fields[..|fields|] == fields;
    forall i | 0 <= i < |fields|
      ensures checks[i].value == Trim(inputs[i])
      ensures checks[i].passes == FieldPasses(fields[i], Trim(inputs[i]), parsesAsDate)
    {
    }
  }

  /** An accepted review leaves no error listed. */
  lemma AcceptedReviewHasNoErrors(fields: seq<Field>, inputs: seq<string>, filled0: map<nat, string>, parsesAsDate: string -> bool)
    requires |fields| == |inputs|
    requires ReviewVerdict(fields, ReviewChecks(fields, inputs, parsesAsDate), filled0) == Accepted
    ensures ReviewPrefix(fields, ReviewChecks(fields, inputs, parsesAsDate), |fields|, filled0).errors == []
  {
    var checks := ReviewChecks(fields, inputs, parsesAsDate);
    PrefixAllValid(fields, checks, |fields|, filled0);
    forall i | 0 <= i < |fields|
      ensures checks[i].message == None
    {
      assert checks[i].passes;
    }
    PrefixSilent(fields, checks, |fields|, filled0);
  }

  /** How many of the first k fields are scored: both the entered and the
      reference value are non-empty. */
  function ScoredCount(fields: seq<Field>, filled: map<nat, string>, k: nat): nat
    requires k <= |fields|
  {
    if k == 0 then 0
    else
      var scored := ValueAt(filled, k - 1) != [] && fields[k - 1].correct != [];
      ScoredCount(fields, filled, k - 1) + (if scored then 1 else 0)
  }

  /** How many of the scored fields among the first k match their reference
      value; never more than were scored. */
  function CorrectCount(fields: seq<Field>, filled: map<nat, string>, k: nat): (c: nat)
    requires k <= |fields|
    ensures c <= ScoredCount(fields, filled, k)
  {
    if k == 0 then 0
    else
      var v := ValueAt(filled, k - 1);
      var f := fields[k - 1];
      CorrectCount(fields, filled, k - 1)
        + (if v != [] && f.correct != [] && IsAnswerCorrect(v, f.correct, f.validation) then 1 else 0)
  }

  /** When every scored field among the first k matches its reference
      value, the correct count equals the scored count; with
      `AnswerMatchesItself`, this is the case for a form filled in with its
      reference values. */
  lemma {:induction false} AllScoredCorrect(fields: seq<Field>, filled: map<nat, string>, k: nat)
    requires k <= |fields|
    requires forall i :: 0 <= i < k && ValueAt(filled, i) != [] && fields[i].correct != [] ==>
      IsAnswerCorrect(ValueAt(filled, i), fields[i].correct, fields[i].validation)
    ensures CorrectCount(fields, filled, k) == ScoredCount(fields, filled, k)
  {
    if k > 0 {
      AllScoredCorrect(fields, filled, k - 1);
    }
  }

  /** A form filled in with exactly its reference values is scored in full
      (currency references being well-formed amounts). */
  lemma ReferenceAnswersAllCorrect(fields: seq<Field>, filled: map<nat, string>)
    requires forall i :: 0 <= i < |fields| ==> ValueAt(filled, i) == fields[i].correct
    requires forall i :: 0 <= i < |fields| && fields[i].validation == Currency ==> CurrencyShape(fields[i].correct)
    ensures CorrectCount(fields, filled, |fields|) == ScoredCount(fields, filled, |fields|)
  {
    forall i | 0 <= i < |fields| && ValueAt(filled, i) != [] && fields[i].correct != []
      ensures IsAnswerCorrect(ValueAt(filled, i), fields[i].correct, fields[i].validation)
    {
      AnswerMatchesItself(fields[i].correct, fields[i].validation);
    }
    AllScoredCorrect(fields, filled, |fields|);
  }

  /** The field choice of `generateNewForm`: a template longer than the
      level's limit keeps its required fields and the first optional ones
      after an in-place shuffle. */
  method SelectFormFields(templateFields: seq<Field>, fieldsCount: nat, draws: seq<nat>) returns (formFields: seq<Field>)
    requires ValidDraws(draws, |OptionalOf(templateFields)|)
    ensures IsPermutation(OptionalOf(templateFields), Shuffled(OptionalOf(templateFields), draws))
    ensures formFields == SelectFields(templateFields, fieldsCount, Shuffled(OptionalOf(templateFields), draws))
  {
    formFields := templateFields;
    var optionalFields := OptionalOf(templateFields);
    ShuffledIsPermutation(optionalFields, draws, |optionalFields| - 1);
    var maxFields := if fieldsCount + 2 <= |formFields| then fieldsCount + 2 else |formFields|;
    if |formFields| > maxFields {
      var requiredFields := RequiredOf(formFields);
      var shuffled := new Field[|optionalFields|](i requires 0 <= i < |optionalFields| => optionalFields[i]);
      assert shuffled[..] == optionalFields;
      ShuffleArray(shuffled, draws);
      var fieldsToKeep := Max(0, maxFields - |requiredFields|);
      formFields := requiredFields + shuffled[..fieldsToKeep];
    }
  }

  class TaxFilingGame {
    var gameState: GameState
    var level: int
    var score: int
    var timeLeft: int
    var formsCompleted: nat
    var correctForms: nat
    var formState: FormState
    /** The current form's fields; none before the first form is dealt. */
    var fields: seq<Field>
    /** Entered values by field position, as trimmed by `validateField`. */
    var filledFields: map<nat, string>
    var errors: seq<string>
    var currentUser: Option<Profile>
    /** The stored leaderboard. */
    var rankings: seq<Entry>
    /** `!isNaN(Date.parse(v))`, which the model takes as given. */
    const parsesAsDate: string -> bool

    predicate Valid()
      reads this
    {
      && level >= 1
      && score >= 0
      && correctForms <= formsCompleted
      && formState != Submitted
      && NoDuplicates(errors)
      && (forall i :: i in filledFields ==> i < |fields|)
    }

    /** A new game object on the menu screen, with the stored profile and
        leaderboard. */
    constructor (parsesAsDate: string -> bool, storedUser: Option<Profile>, storedRankings: seq<Entry>)
      ensures Valid()
      ensures gameState == Menu && level == 1 && score == 0 && timeLeft == 30
      ensures formsCompleted == 0 && correctForms == 0
      ensures formState == Empty && fields == [] && filledFields == map[] && errors == []
      ensures currentUser == storedUser && rankings == storedRankings
      ensures this.parsesAsDate == parsesAsDate
    {
      gameState := Menu;
      level := 1;
      score := 0;
      timeLeft := 30;
      formsCompleted := 0;
      correctForms := 0;
      formState := Empty;
      fields := [];
      filledFields := map[];
      errors := [];
      currentUser := storedUser;
      rankings := storedRankings;
      this.parsesAsDate := parsesAsDate;
    }

    method AddError(message: string)
      requires Valid()
      modifies this`errors
      ensures errors == WithError(old(errors), message)
      ensures Valid()
    {
      if message !in errors {
        errors := errors + [message];
      }
    }

    method ClearErrors()
      requires Valid()
      modifies this`errors
      ensures errors == []
      ensures Valid()
    {
      errors := [];
    }

    /** `fillForm`: only an empty form can be started. */
    method FillForm()
      requires Valid()
      modifies this`formState
      ensures Valid()
      ensures formState == if old(formState) == Empty then Filled else old(formState)
    {
      if formState != Empty {
        return;
      }
      formState := Filled;
    }

    /** `validateField` for the input of field `index`, given that field's
        description and the raw text of its input:
        the trimmed value is stored whatever the state, and a failure is
        reported (a missing required value only once reviewed). */
    method ValidateField(index: nat, field: Field, raw: string) returns (ok: bool)
      requires Valid() && index < |fields|
      modifies this`filledFields, this`errors
      ensures var c := CheckField(field, raw, old(formState), parsesAsDate);
        && filledFields == old(filledFields)[index := c.value]
        && errors == Reported(old(errors), c.message)
        && ok == c.passes
      ensures Valid()
    {
      var value := Trim(raw);
      StoreValue(index, value);
      ok := ReportCheck(field, value);
    }

    /** The first step of `validateField`: the trimmed value is stored. */
    method StoreValue(index: nat, value: string)
      requires Valid() && index < |fields|
      modifies this`filledFields
      ensures filledFields == old(filledFields)[index := value]
      ensures Valid()
    {
      filledFields := filledFields[index := value];
    }

    /** The rest of `validateField`: the required test, then the rule's test
        of the trimmed value, each failure reported through `addError`. */
    method ReportCheck(field: Field, value: string) returns (ok: bool)
      requires Valid()
      modifies this`errors
      ensures errors == Reported(old(errors), FieldMessage(field, value, formState, parsesAsDate))
      ensures ok == FieldPasses(field, value, parsesAsDate)
      ensures Valid()
    {
      if field.required && value == [] {
        if formState == Reviewed {
          AddError(RequiredMessage(field));
        }
        return false;
      }
      var isValid := RuleAccepts(field.validation, value, parsesAsDate);
      if !isValid && value != [] {
        AddError(InvalidMessage(field));
        return false;
      }
      return true;
    }

    /** The callback of `reviewForm`'s `forEach`: validates input `index`
        and updates the two tallies, taking the review one field further. */
    method ReviewInput(index: nat, raw: string, allValid: bool, requiredFieldsFilled: nat,
                       ghost inputs: seq<string>, ghost checks: seq<FieldCheck>, ghost filled0: map<nat, string>)
      returns (allValid': bool, requiredFieldsFilled': nat)
      requires Valid() && formState == Filled
      requires ChecksFor(fields, inputs, parsesAsDate, checks) && index < |fields| && raw == inputs[index]
      requires ReviewPrefix(fields, checks, index, filled0) == ReviewProgress(filledFields, errors, allValid, requiredFieldsFilled)
      modifies this`filledFields, this`errors
      ensures Valid()
      ensures ReviewPrefix(fields, checks, index + 1, filled0) == ReviewProgress(filledFields, errors, allValid', requiredFieldsFilled')
    {
      var field := fields[index];
      assert checks[index] == CheckField(field, raw, formState, parsesAsDate);
      var isValid := ValidateField(index, field, raw);
      var value := filledFields[index];
      requiredFieldsFilled' := requiredFieldsFilled;
      if field.required && value != [] {
        requiredFieldsFilled' := requiredFieldsFilled + 1;
      }
      allValid' := allValid;
      if !isValid || (field.required && value == []) {
        allValid' := false;
      }
    }

    /** The `forEach` of `reviewForm`: every input is validated in order,
        while the form is Filled. */
    method ValidateInputs(inputs: seq<string>, ghost checks: seq<FieldCheck>) returns (allValid: bool, requiredFieldsFilled: nat)
      requires Valid() && formState == Filled && errors == [] && ChecksFor(fields, inputs, parsesAsDate, checks)
      modifies this`filledFields, this`errors
      ensures Valid()
      ensures ReviewPrefix(fields, checks, |fields|, old(filledFields))
              == ReviewProgress(filledFields, errors, allValid, requiredFieldsFilled)
    {
      var formFields := fields;
      allValid := true;
      requiredFieldsFilled := 0;
      var index := 0;
      while index < |formFields|
        invariant 0 <= index <= |formFields| && formFields == fields
        invariant Valid() && formState == Filled
        invariant ReviewPrefix(formFields, checks, index, old(filledFields))
                  == ReviewProgress(filledFields, errors, allValid, requiredFieldsFilled)
      {
        allValid, requiredFieldsFilled := ReviewInput(index, inputs[index], allValid, requiredFieldsFilled, inputs, checks, old(filledFields));
        index := index + 1;
      }
    }

    /** `reviewForm`, with the raw text of every input: a filled form is
        validated field by field, and becomes Reviewed exactly when every
        field passes; otherwise it stays Filled. */
    method ReviewForm(inputs: seq<string>) returns (outcome: ReviewOutcome)
      requires Valid() && |inputs| == |fields|
      modifies this`filledFields, this`errors, this`formState
      ensures Valid()
      ensures old(formState) != Filled ==>
        outcome == NotFilled && formState == old(formState)
        && filledFields == old(filledFields) && errors == old(errors)
      ensures old(formState) == Filled ==>
        var checks := ReviewChecks(fields, inputs, parsesAsDate);
        var p := ReviewPrefix(fields, checks, |fields|, old(filledFields));
        && outcome == ReviewVerdict(fields, checks, old(filledFields))
        && filledFields == p.filled && errors == p.errors
        && formState == (if outcome == Accepted then Reviewed else Filled)
    {
      if formState != Filled {
        return NotFilled;
      }
      ClearErrors();
      var totalRequiredFields := |RequiredOf(fields)|;
      ReviewChecksAgree(fields, inputs, parsesAsDate);
      var allValid, requiredFieldsFilled := ValidateInputs(inputs, ReviewChecks(fields, inputs, parsesAsDate));
      if requiredFieldsFilled < totalRequiredFields {
        return MissingRequired;
      }
      if !allValid {
        return InvalidValues;
      }
      formState := Reviewed;
      return Accepted;
    }

    /** `levelUp`: one level more and ten seconds on the clock. */
    method LevelUp()
      requires Valid()
      modifies this`level, this`timeLeft
      ensures Valid()
      ensures level == old(level) + 1 && timeLeft == old(timeLeft) + LevelUpBonusSeconds
    {
      level := level + 1;
      timeLeft := timeLeft + LevelUpBonusSeconds;
    }

    /** The scoring loop of `submitForm`: the fields whose entered and
        reference values are both non-empty are scored, and those whose
        answer matches are correct. */
    method CountAnswers() returns (correctFields: nat, totalScoredFields: nat)
      ensures totalScoredFields == ScoredCount(fields, filledFields, |fields|)
      ensures correctFields == CorrectCount(fields, filledFields, |fields|)
    {
      var form, filled := fields, filledFields;
      correctFields, totalScoredFields := 0, 0;
      var index := 0;
      while index < |form|
        invariant 0 <= index <= |form|
        invariant totalScoredFields == ScoredCount(form, filled, index)
        invariant correctFields == CorrectCount(form, filled, index)
      {
        var field := form[index];
        var value := ValueAt(filled, index);
        if value != [] && field.correct != [] {
          totalScoredFields := totalScoredFields + 1;
          if IsAnswerCorrect(value, field.correct, field.validation) {
            correctFields := correctFields + 1;
          }
        }
        index := index + 1;
      }
    }

    /** `submitForm`: a reviewed form is scored field by field and counted;
        the level rises once the game-wide form count reaches twice the
        level. The form stays Reviewed, so it can be submitted again until
        the next form is dealt. */
    method SubmitForm()
      requires Valid()
      modifies this`score, this`formsCompleted, this`correctForms, this`level, this`timeLeft
      ensures Valid()
      ensures old(formState) != Reviewed ==>
        score == old(score) && formsCompleted == old(formsCompleted) && correctForms == old(correctForms)
        && level == old(level) && timeLeft == old(timeLeft)
      ensures old(formState) == Reviewed ==>
        var c, s := CorrectCount(fields, filledFields, |fields|), ScoredCount(fields, filledFields, |fields|);
        && score == old(score) + FormPoints(c, s, old(timeLeft))
        && formsCompleted == old(formsCompleted) + 1
        && correctForms == old(correctForms) + (if CountsAsCorrect(c, s) then 1 else 0)
        && (if LevelUpDue(formsCompleted, old(level))
            then level == old(level) + 1 && timeLeft == old(timeLeft) + LevelUpBonusSeconds
            else level == old(level) && timeLeft == old(timeLeft))
    {
      if formState != Reviewed {
        return;
      }
      var correctFields, totalScoredFields := CountAnswers();
      var totalFormScore := FormPoints(correctFields, totalScoredFields, timeLeft);
      score := score + totalFormScore;
      formsCompleted := formsCompleted + 1;
      if CountsAsCorrect(correctFields, totalScoredFields) {
        correctForms := correctForms + 1;
      }
      if LevelUpDue(formsCompleted, level) {
        LevelUp();
      }
    }

    /** `generateNewForm`: the level's template, cut down to the level's
        field limit if it is longer, as a fresh empty form. `draws` are the
        random picks of the shuffle of the optional fields. */
    method GenerateNewForm(draws: seq<nat>)
      requires Valid()
      requires ValidDraws(draws, |OptionalOf(SelectTemplate(level).fields)|)
      modifies this`fields, this`filledFields, this`errors, this`formState
      ensures Valid()
      ensures fields == SelectFields(SelectTemplate(level).fields, DifficultyFor(level).fieldsCount,
                                     Shuffled(OptionalOf(SelectTemplate(level).fields), draws))
      ensures filledFields == map[] && errors == [] && formState == Empty
    {
      var template := SelectTemplate(level);
      var difficulty := DifficultyFor(level);
      var formFields := SelectFormFields(template.fields, difficulty.fieldsCount, draws);
      fields := formFields;
      filledFields := map[];
      errors := [];
      formState := Empty;
    }

    /** The clock a new game starts with: the level's time limit. */
    method StartTimer()
      requires level >= 1
      modifies this`timeLeft
      ensures timeLeft == DifficultyFor(level).timeLimit
    {
      timeLeft := DifficultyFor(level).timeLimit;
    }

    /** The counters of a new game. */
    method ResetCounters()
      requires Valid()
      modifies this`gameState, this`level, this`score, this`formsCompleted, this`correctForms,
        this`fields, this`filledFields, this`formState
      ensures Valid()
      ensures gameState == Playing && level == 1 && score == 0 && formsCompleted == 0 && correctForms == 0
      ensures fields == [] && filledFields == map[] && formState == Empty
    {
      gameState := Playing;
      level := 1;
      score := 0;
      formsCompleted := 0;
      correctForms := 0;
      fields := [];
      filledFields := map[];
      formState := Empty;
    }

    /** `startGame`: every counter back to its start, a first form dealt
        and the clock set. */
    method StartGame(draws: seq<nat>)
      requires Valid()
      requires ValidDraws(draws, |OptionalOf(SelectTemplate(1).fields)|)
      modifies this`gameState, this`level, this`score, this`timeLeft, this`formsCompleted, this`correctForms
      modifies this`fields, this`filledFields, this`errors, this`formState
      ensures Valid()
      ensures gameState == Playing && level == 1 && score == 0
      ensures formsCompleted == 0 && correctForms == 0
      ensures timeLeft == DifficultyFor(level).timeLimit
      ensures fields == SelectFields(SelectTemplate(level).fields, DifficultyFor(level).fieldsCount,
                                     Shuffled(OptionalOf(SelectTemplate(level).fields), draws))
      ensures formState == Empty && filledFields == map[] && errors == []
      ensures currentUser == old(currentUser) && rankings == old(rankings)
    {
      ResetCounters();
      GenerateNewForm(draws);
      StartTimer();
    }

    /** `updateRankings` with the game's player and score, writing the
        leaderboard back. */
    method SaveUserProfile()
      modifies this`rankings
      ensures currentUser.Some? ==> rankings == Top(SortByScore(WithGame(old(rankings), currentUser.value, score)))
      ensures currentUser.None? ==> rankings == old(rankings)
    {
      rankings := UpdateRankings(rankings, currentUser, score);
    }

    /** `updateScoreAndSave`: the player's profile records this game, then
        the leaderboard is updated from it. */
    method UpdateScoreAndSave()
      modifies this`currentUser, this`rankings
      ensures old(currentUser).None? ==> currentUser == None && rankings == old(rankings)
      ensures old(currentUser).Some? ==>
        && currentUser == Some(RecordGame(old(currentUser).value, score))
        && rankings == Top(SortByScore(WithGame(old(rankings), currentUser.value, score)))
    {
      if currentUser.Some? {
        currentUser := Some(RecordGame(currentUser.value, score));
        SaveUserProfile();
      }
    }

    /** `gameOver`: the game ends, the percentage of correct forms and the
        rating are reported, and the player's records are updated. */
    method GameOver() returns (report: GameReport)
      requires Valid()
      modifies this`gameState, this`currentUser, this`rankings
      ensures Valid() && gameState == TimeUp
      ensures report.accuracy == GameOverAccuracy(correctForms, formsCompleted)
      ensures report.rating == RatingFor(report.accuracy, score)
      ensures old(currentUser).None? ==> currentUser == None && rankings == old(rankings)
      ensures old(currentUser).Some? ==>
        && currentUser == Some(RecordGame(old(currentUser).value, score))
        && rankings == Top(SortByScore(WithGame(old(rankings), currentUser.value, score)))
    {
      gameState := TimeUp;
      var accuracy := GameOverAccuracy(correctForms, formsCompleted);
      report := GameReport(accuracy, RatingFor(accuracy, score));
      UpdateScoreAndSave();
    }

    /** One second of the running clock: a second less, and the game ends
        when none are left. The clock only runs while a game is played. */
    method Tick() returns (report: Option<GameReport>)
      requires Valid() && gameState == Playing
      modifies this`timeLeft, this`gameState, this`currentUser, this`rankings
      ensures Valid()
      ensures timeLeft == old(timeLeft) - 1
      ensures report.Some? <==> timeLeft <= 0
      ensures gameState == if timeLeft <= 0 then TimeUp else Playing
      ensures timeLeft > 0 ==> currentUser == old(currentUser) && rankings == old(rankings)
      ensures report.Some? ==> report.value.accuracy == GameOverAccuracy(correctForms, formsCompleted)
      ensures report.Some? ==> report.value.rating == RatingFor(report.value.accuracy, score)
      ensures timeLeft <= 0 && old(currentUser).None? ==> currentUser == None && rankings == old(rankings)
      ensures timeLeft <= 0 && old(currentUser).Some? ==>
        && currentUser == Some(RecordGame(old(currentUser).value, score))
        && rankings == Top(SortByScore(WithGame(old(rankings), currentUser.value, score)))
    {
      timeLeft := timeLeft - 1;
      if timeLeft <= 0 {
        var r := GameOver();
        return Some(r);
      }
      return None;
    }

    /** `handlePiggyClick`: while a game is played, a piggy adds its points
        and seconds. */
    method HandlePiggyClick(piggyId: string)
      requires Valid()
      modifies this`score, this`timeLeft
      ensures Valid()
      ensures gameState != Playing ==> score == old(score) && timeLeft == old(timeLeft)
      ensures gameState == Playing ==>
        score == old(score) + PiggyBonus(piggyId).points && timeLeft == old(timeLeft) + PiggyBonus(piggyId).seconds
    {
      if gameState != Playing {
        return;
      }
      var bonus := PiggyBonus(piggyId);
      score := score + bonus.points;
      timeLeft := timeLeft + bonus.seconds;
    }
  }

  /** Nothing stops a reviewed form from being submitted twice: both
      submissions are scored and counted. */
  method SubmitTwice(g: TaxFilingGame)
    requires g.Valid() && g.formState == Reviewed
    modifies g
    ensures g.formsCompleted == old(g.formsCompleted) + 2
    ensures g.score >= old(g.score) + 2 * BaseScore
  {
    g.SubmitForm();
    FormPointsBounds(CorrectCount(g.fields, g.filledFields, |g.fields|),
                     ScoredCount(g.fields, g.filledFields, |g.fields|), old(g.timeLeft));
    ghost var mid := g.score;
    ghost var t := g.timeLeft;
    g.SubmitForm();
    FormPointsBounds(CorrectCount(g.fields, g.filledFields, |g.fields|),
                     ScoredCount(g.fields, g.filledFields, |g.fields|), t);
  }
}
