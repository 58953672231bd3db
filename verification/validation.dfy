/** The per-field validation rules of the tax forms (the `switch` on a field's
    `validation` tag). Each rule is a character-level matcher over an already
    trimmed value. For the seven pattern rules (EIN, SSN, phone, e-mail, ZIP,
    currency and percentage) two lemmas show that the matcher accepts exactly
    the strings its regular expression describes: every string built from the
    pattern's parts is accepted, and every accepted string splits into such
    parts. The number matcher is its pattern `^\d+$` written out, and
    `YearValues` lists the strings the year rule accepts. */
module Validation {
  import opened Text

  /** The validation tags. `Unlisted` stands for any tag the switch does not
      name, which falls into its `default` branch. */
  datatype Rule =
    | Ein | Ssn | Phone | Email | Zip | Currency | Number | Percentage | Year | Date
    | Required | Unlisted

  /** A part of an e-mail address: `[^\s@]+`. */
  predicate EmailPart(s: string)
  {
    s != [] && forall i :: 0 <= i < |s| ==> !IsSpace(s[i]) && s[i] != '@'
  }

  // ---------------------------------------------------------------- ein

  /** `^\d{2}-\d{7}$` */
  predicate EinShape(s: string)
  {
    |s| == 10 && AllDigits(s[..2]) && s[2] == '-' && AllDigits(s[3..])
  }

  lemma EinFromParts(a: string, b: string)
    requires |a| == 2 && AllDigits(a) && |b| == 7 && AllDigits(b)
    ensures EinShape(a + "-" + b)
  {
    var s := a + "-" + b;
    assert s[..2] == a && s[3..] == b;
  }

  lemma EinSplit(s: string) returns (a: string, b: string)
    requires EinShape(s)
    ensures |a| == 2 && AllDigits(a) && |b| == 7 && AllDigits(b)
    ensures s == a + "-" + b
  {
    a, b := s[..2], s[3..];
    assert s == s[..2] + [s[2]] + s[3..];
  }

  // ---------------------------------------------------------------- ssn

  /** `^\d{3}-\d{2}-\d{4}$` */
  predicate SsnShape(s: string)
  {
    && |s| == 11 && AllDigits(s[..3]) && s[3] == '-'
    && AllDigits(s[4..6]) && s[6] == '-' && AllDigits(s[7..])
  }

  lemma SsnFromParts(a: string, b: string, c: string)
    requires |a| == 3 && AllDigits(a) && |b| == 2 && AllDigits(b) && |c| == 4 && AllDigits(c)
    ensures SsnShape(a + "-" + b + "-" + c)
  {
    var s := a + "-" + b + "-" + c;
    assert s[..3] == a && s[4..6] == b && s[7..] == c;
  }

  lemma SsnSplit(s: string) returns (a: string, b: string, c: string)
    requires SsnShape(s)
    ensures |a| == 3 && AllDigits(a) && |b| == 2 && AllDigits(b) && |c| == 4 && AllDigits(c)
    ensures s == a + "-" + b + "-" + c
  {
    a, b, c := s[..3], s[4..6], s[7..];
    assert s == s[..3] + [s[3]] + s[4..6] + [s[6]] + s[7..];
  }

  // ---------------------------------------------------------------- phone

  /** `^\(\d{3}\) \d{3}-\d{4}$` */
  predicate PhoneShape(s: string)
  {
    && |s| == 14 && s[0] == '(' && AllDigits(s[1..4]) && s[4] == ')' && s[5] == ' '
    && AllDigits(s[6..9]) && s[9] == '-' && AllDigits(s[10..])
  }

  lemma PhoneFromParts(a: string, b: string, c: string)
    requires |a| == 3 && AllDigits(a) && |b| == 3 && AllDigits(b) && |c| == 4 && AllDigits(c)
    ensures PhoneShape("(" + a + ") " + b + "-" + c)
  {
    var s := "(" + a + ") " + b + "-" + c;
    assert s[1..4] == a && s[6..9] == b && s[10..] == c;
  }

  lemma PhoneSplit(s: string) returns (a: string, b: string, c: string)
    requires PhoneShape(s)
    ensures |a| == 3 && AllDigits(a) && |b| == 3 && AllDigits(b) && |c| == 4 && AllDigits(c)
    ensures s == "(" + a + ") " + b + "-" + c
  {
    a, b, c := s[1..4], s[6..9], s[10..];
    assert s == [s[0]] + s[1..4] + s[4..6] + s[6..9] + [s[9]] + s[10..];
  }

  // ---------------------------------------------------------------- email

  /** The index of the first `@` in `s`, or `|s|` when there is none. */
  function FirstAt(s: string): (k: nat)
    ensures k <= |s| && '@' !in s[..k]
    ensures k < |s| ==> s[k] == '@'
  {
    if s == [] || s[0] == '@' then 0
    else
      var k := 1 + FirstAt(s[1..]);
      assert s[..k] == [s[0]] + s[1..][..k - 1];
      k
  }

  /** `d` has a `.` that is neither its first nor its last character. */
  predicate InnerDot(d: string)
  {
    |d| >= 3 && '.' in d[1..|d| - 1]
  }

  /** `^[^\s@]+@[^\s@]+\.[^\s@]+$`: no white space anywhere, exactly one `@`
      with something before it, and a dot strictly inside what follows it. */
  predicate EmailShape(s: string)
  {
    && (forall i :: 0 <= i < |s| ==> !IsSpace(s[i]))
    && var k := FirstAt(s);
    && 0 < k < |s|
    && '@' !in s[k + 1..]
    && InnerDot(s[k + 1..])
  }

  lemma {:induction false} FirstAtOf(l: string, t: string)
    requires '@' !in l && t != [] && t[0] == '@'
    ensures FirstAt(l + t) == |l|
  {
    if l != [] {
      assert l[0] in l;
      assert (l + t)[1..] == l[1..] + t;
      assert '@' !in l[1..] by { forall i | 0 <= i < |l[1..]| ensures l[1..][i] != '@' { assert l[1..][i] == l[i + 1]; } }
      FirstAtOf(l[1..], t);
    } else {
      assert l + t == t;
    }
  }

  lemma EmailFromParts(l: string, d1: string, d2: string)
    requires EmailPart(l) && EmailPart(d1) && EmailPart(d2)
    ensures EmailShape(l + "@" + d1 + "." + d2)
  {
    var s := l + "@" + d1 + "." + d2;
    assert '@' !in l by { forall i | 0 <= i < |l| ensures l[i] != '@' { } }
    assert s == l + ("@" + d1 + "." + d2);
    FirstAtOf(l, "@" + d1 + "." + d2);
    var d := s[|l| + 1..];
    assert d == d1 + "." + d2;
    assert d[|d1|] == '.' && 1 <= |d1| <= |d| - 2;
    assert d[1..|d| - 1][|d1| - 1] == '.';
    forall i | 0 <= i < |s| ensures !IsSpace(s[i]) {
      if i < |l| { assert s[i] == l[i]; }
      else if i == |l| { }
      else if i < |l| + 1 + |d1| { assert s[i] == d1[i - |l| - 1]; }
      else if i == |l| + 1 + |d1| { }
      else { assert s[i] == d2[i - |l| - 2 - |d1|]; }
    }
    forall i | 0 <= i < |d| ensures d[i] != '@' {
      if i < |d1| { assert d[i] == d1[i]; }
      else if i > |d1| { assert d[i] == d2[i - |d1| - 1]; }
    }
  }

  /** A domain with an inner dot splits at that dot into two parts. */
  lemma DomainSplit(d: string) returns (d1: string, d2: string)
    requires InnerDot(d)
    requires forall i :: 0 <= i < |d| ==> !IsSpace(d[i]) && d[i] != '@'
    ensures EmailPart(d1) && EmailPart(d2)
    ensures d == d1 + "." + d2
  {
    var m := d[1..|d| - 1];
    var j :| 0 <= j < |m| && m[j] == '.';
    var p := j + 1;
    assert d[p] == m[j];
    d1, d2 := d[..p], d[p + 1..];
    assert d == d1 + [d[p]] + d2;
  }

  lemma EmailSplit(s: string) returns (l: string, d1: string, d2: string)
    requires EmailShape(s)
    ensures EmailPart(l) && EmailPart(d1) && EmailPart(d2)
    ensures s == l + "@" + d1 + "." + d2
  {
    var k := FirstAt(s);
    var d := s[k + 1..];
    forall i | 0 <= i < |d| ensures !IsSpace(d[i]) && d[i] != '@' {
      assert d[i] == s[k + 1 + i];
      assert d[i] in s[k + 1..];
    }
    d1, d2 := DomainSplit(d);
    l := s[..k];
    forall i | 0 <= i < |l| ensures !IsSpace(l[i]) && l[i] != '@' {
      assert l[i] == s[i];
      assert l[i] in s[..k];
    }
    assert s == l + [s[k]] + d;
  }

  // ---------------------------------------------------------------- zip

  /** `^\d{5}(-\d{4})?$` */
  predicate ZipShape(s: string)
  {
    || (|s| == 5 && AllDigits(s))
    || (|s| == 10 && AllDigits(s[..5]) && s[5] == '-' && AllDigits(s[6..]))
  }

  /** `b == []` stands for the absent optional group. */
  lemma ZipFromParts(a: string, b: string)
    requires |a| == 5 && AllDigits(a) && (b == [] || (|b| == 4 && AllDigits(b)))
    ensures ZipShape(if b == [] then a else a + "-" + b)
  {
    if b != [] {
      var s := a + "-" + b;
      assert s[..5] == a && s[6..] == b;
    }
  }

  lemma ZipSplit(s: string) returns (a: string, b: string)
    requires ZipShape(s)
    ensures |a| == 5 && AllDigits(a) && (b == [] || (|b| == 4 && AllDigits(b)))
    ensures s == if b == [] then a else a + "-" + b
  {
    if |s| == 5 {
      a, b := s, [];
    } else {
      a, b := s[..5], s[6..];
      assert s == s[..5] + [s[5]] + s[6..];
    }
  }

  // ---------------------------------------------------------------- currency

  /** `^\d+(\.\d{2})?$` */
  predicate CurrencyShape(s: string)
  {
    var n := DigitRun(s);
    n > 0 && (n == |s| || (n + 3 == |s| && s[n] == '.' && AllDigits(s[n + 1..])))
  }

  /** `f == []` stands for the absent optional group. */
  lemma CurrencyFromParts(w: string, f: string)
    requires w != [] && AllDigits(w) && (f == [] || (|f| == 2 && AllDigits(f)))
    ensures CurrencyShape(if f == [] then w else w + "." + f)
  {
    if f == [] {
      DigitRunOf(w, []);
      assert w + [] == w;
    } else {
      var s := w + "." + f;
      assert s == w + ("." + f);
      DigitRunOf(w, "." + f);
      assert s[|w| + 1..] == f;
    }
  }

  lemma CurrencySplit(s: string) returns (w: string, f: string)
    requires CurrencyShape(s)
    ensures w != [] && AllDigits(w) && (f == [] || (|f| == 2 && AllDigits(f)))
    ensures s == if f == [] then w else w + "." + f
  {
    var n := DigitRun(s);
    if n == |s| {
      w, f := s, [];
      assert s[..n] == s;
    } else {
      w, f := s[..n], s[n + 1..];
      assert s == s[..n] + [s[n]] + s[n + 1..];
    }
  }

  // ---------------------------------------------------------------- number

  /** `^\d+$` */
  predicate NumberShape(s: string)
  {
    s != [] && AllDigits(s)
  }

  // ---------------------------------------------------------------- percentage

  /** `^\d+(\.\d+)?%$` */
  predicate PercentageShape(s: string)
  {
    && |s| >= 2 && s[|s| - 1] == '%'
    && var b := s[..|s| - 1];
    && var n := DigitRun(b);
    && n > 0
    && (n == |b| || (b[n] == '.' && n + 1 < |b| && AllDigits(b[n + 1..])))
  }

  /** `f == []` stands for the absent optional group. */
  lemma PercentageFromParts(w: string, f: string)
    requires w != [] && AllDigits(w) && AllDigits(f)
    ensures PercentageShape((if f == [] then w else w + "." + f) + "%")
  {
    var b := if f == [] then w else w + "." + f;
    var s := b + "%";
    assert s[..|s| - 1] == b;
    if f == [] {
      DigitRunOf(w, []);
      assert w + [] == w;
    } else {
      assert b == w + ("." + f);
      DigitRunOf(w, "." + f);
      assert b[|w| + 1..] == f;
    }
  }

  lemma PercentageSplit(s: string) returns (w: string, f: string)
    requires PercentageShape(s)
    ensures w != [] && AllDigits(w) && AllDigits(f)
    ensures s == (if f == [] then w else w + "." + f) + "%"
  {
    var b := s[..|s| - 1];
    var n := DigitRun(b);
    assert s == b + [s[|s| - 1]];
    if n == |b| {
      w, f := b, [];
      assert b[..n] == b;
    } else {
      w, f := b[..n], b[n + 1..];
      assert b == b[..n] + [b[n]] + b[n + 1..];
    }
  }

  // ---------------------------------------------------------------- year

  /** `^\d{4}$` with `parseInt` of the value within 2020..2030. */
  predicate YearShape(s: string)
  {
    |s| == 4 && AllDigits(s) && 2020 <= DigitsValue(s) <= 2030
  }

  /** The years accepted are exactly "2020" to "2030": "202" and any digit,
      or "2030". */
  lemma YearValues(s: string)
    ensures YearShape(s) <==>
      |s| == 4 && s[0] == '2' && s[1] == '0' && ((s[2] == '2' && IsDigit(s[3])) || (s[2] == '3' && s[3] == '0'))
  {
    if |s| == 4 && AllDigits(s) {
      var d0, d1, d2, d3 := DigitValue(s[0]), DigitValue(s[1]), DigitValue(s[2]), DigitValue(s[3]);
      assert s[..1][..0] == [] && s[..2][..1] == s[..1] && s[..3][..2] == s[..2];
      assert DigitsValue(s[..1]) == d0;
      assert DigitsValue(s[..2]) == 10 * d0 + d1;
      assert DigitsValue(s[..3]) == 100 * d0 + 10 * d1 + d2;
      assert DigitsValue(s) == 1000 * d0 + 100 * d1 + 10 * d2 + d3;
    }
  }

  // ---------------------------------------------------------------- the switch

  /** The `switch` of the validation rule on a non-empty trimmed value, with
      the `|| value === ''` escape left to `ValueAccepted`. `parsesAsDate`
      stands for `!isNaN(Date.parse(value))`. */
  predicate RuleAccepts(rule: Rule, v: string, parsesAsDate: string -> bool)
  {
    match rule
    case Ein => EinShape(v)
    case Ssn => SsnShape(v)
    case Phone => PhoneShape(v)
    case Email => EmailShape(v)
    case Zip => ZipShape(v)
    case Currency => CurrencyShape(v)
    case Number => NumberShape(v)
    case Percentage => PercentageShape(v)
    case Year => YearShape(v)
    case Date => v != [] && parsesAsDate(v)
    case Required => true
    case Unlisted => true
  }

  /** Whether a trimmed value raises no format error: every rule lets the
      empty value through, `date` included (its own test fails on "", but no
      error is raised for an empty value). */
  predicate ValueAccepted(rule: Rule, v: string, parsesAsDate: string -> bool)
  {
    v == [] || RuleAccepts(rule, v, parsesAsDate)
  }

  /** The empty value passes every rule, `date` included; `required` and
      unlisted tags pass everything; `number` and `year` accept only non-empty
      digit strings. */
  lemma AcceptedValues(rule: Rule, v: string, parsesAsDate: string -> bool)
    ensures ValueAccepted(rule, [], parsesAsDate)
    ensures rule == Required || rule == Unlisted ==> ValueAccepted(rule, v, parsesAsDate)
    ensures (rule == Number || rule == Year) && RuleAccepts(rule, v, parsesAsDate) ==> v != [] && AllDigits(v)
  {
  }
}
