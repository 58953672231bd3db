/** Answer checking at submission (`isAnswerCorrect`): a currency answer is
    compared numerically after `$` and `,` are removed, a phone answer after
    white space, hyphens and parentheses are removed, and every other answer
    case-insensitively after trimming. */
module Answers {
  import opened Text
  import opened Validation

  /** What `parseFloat` returns, with a finite number kept exactly as
      `mantissa * 10^exponent`. */
  datatype JsNumber = NaN | Infinite(negative: bool) | Finite(mantissa: int, exponent: int)

  /** The optional sign that starts `s`, and what follows it. */
  function SignOf(s: string): (bool, string)
  {
    if s != [] && (s[0] == '+' || s[0] == '-') then (s[0] == '-', s[1..]) else (false, s)
  }

  /** The value of the longest `e[+-]?\d+` or `E[+-]?\d+` that starts `s`,
      or 0 when `s` does not start with one (then no exponent is read). */
  function ExponentOf(s: string): int
  {
    if s != [] && (s[0] == 'e' || s[0] == 'E') then
      var (negative, t) := SignOf(s[1..]);
      var k := DigitRun(t);
      if k == 0 then 0
      else if negative then -(DigitsValue(t[..k]) as int) else DigitsValue(t[..k])
    else 0
  }

  /** The digits of a `.\d*` that starts `t`, or "" when `t` does not start
      with a dot. */
  function FractionOf(t: string): (f: string)
    ensures AllDigits(f)
    ensures f != [] ==> |t| > |f| && t[0] == '.' && t[1..1 + |f|] == f
  {
    if t != [] && t[0] == '.' then t[1..][..DigitRun(t[1..])] else []
  }

  /** The number an unsigned decimal literal at the start of `u` denotes:
      digits, an optional `.` with digits, an optional exponent. */
  function UnsignedDecimal(u: string): JsNumber
  {
    var whole := u[..DigitRun(u)];
    var tail := u[|whole|..];
    var hasDot := tail != [] && tail[0] == '.';
    var frac := FractionOf(tail);
    if whole == [] && frac == [] then NaN
    else
      var rest := if hasDot then tail[1 + |frac|..] else tail;
      assert AllDigits(whole + frac);
      Finite(DigitsValue(whole + frac), ExponentOf(rest) - |frac|)
  }

  /** `parseFloat`: skip leading white space, then read the longest prefix
      that is a decimal literal (`[+-]?`, then `Infinity` or digits with an
      optional fraction and exponent); no such prefix gives NaN. */
  function ParseFloat(s: string): JsNumber
  {
    var (negative, u) := SignOf(TrimStart(s));
    if |u| >= 8 && u[..8] == "Infinity" then Infinite(negative)
    else
      match UnsignedDecimal(u)
      case Finite(m, e) => Finite(if negative then -m else m, e)
      case other => other
  }

  function Abs(x: int): nat
  {
    if x < 0 then -x else x
  }

  /** `m * 10^k`, one factor of ten at a time. */
  function Scaled(m: int, k: nat): int
  {
    if k == 0 then m else 10 * Scaled(m, k - 1)
  }

  lemma ScaledSmall(m: int)
    ensures Scaled(m, 0) == m && Scaled(m, 2) == 100 * m
  {
    assert Scaled(m, 1) == 10 * m;
  }

  /** `Math.abs(a - b) < 0.01`, computed exactly: both numbers are brought to
      their smaller exponent e, and |A - B| * 10^e < 10^-2 is decided on
      integers. NaN and infinite operands never pass. */
  predicate WithinCent(a: JsNumber, b: JsNumber)
  {
    if a.Finite? && b.Finite? then
      var e := if a.exponent <= b.exponent then a.exponent else b.exponent;
      var x := Scaled(a.mantissa, a.exponent - e);
      var y := Scaled(b.mantissa, b.exponent - e);
      var d := e + 2;
      if d >= 0 then Scaled(Abs(x - y), d) < 1 else Abs(x - y) < Pow10(-d)
    else false
  }

  /** The characters `replace(/[$,]/g, '')` deletes. */
  predicate CurrencyMark(c: char)
  {
    c == '$' || c == ','
  }

  /** The characters `replace(/[\s\-\(\)]/g, '')` deletes. */
  predicate PhoneMark(c: char)
  {
    IsSpace(c) || c == '-' || c == '(' || c == ')'
  }

  function StripCurrency(s: string): string
  {
    Remove(s, CurrencyMark)
  }

  function StripPhone(s: string): string
  {
    Remove(s, PhoneMark)
  }

  /** `toString().toLowerCase().trim()` */
  function Normalize(s: string): string
  {
    Trim(ToLowerAscii(s))
  }

  predicate IsAnswerCorrect(user: string, correct: string, rule: Rule)
  {
    if rule == Currency then
      WithinCent(ParseFloat(StripCurrency(user)), ParseFloat(StripCurrency(correct)))
    else if rule == Phone then
      StripPhone(user) == StripPhone(correct)
    else
      Normalize(user) == Normalize(correct)
  }

  lemma WithinCentSymmetric(a: JsNumber, b: JsNumber)
    ensures WithinCent(a, b) == WithinCent(b, a)
  {
  }

  lemma CurrencyAnswerSymmetric(a: string, b: string)
    ensures IsAnswerCorrect(a, b, Currency) == IsAnswerCorrect(b, a, Currency)
  {
    WithinCentSymmetric(ParseFloat(StripCurrency(a)), ParseFloat(StripCurrency(b)));
  }

  /** It does not matter which of the two values is the reference one. */
  lemma AnswerSymmetric(a: string, b: string, rule: Rule)
    ensures IsAnswerCorrect(a, b, rule) == IsAnswerCorrect(b, a, rule)
  {
    if rule == Currency {
      CurrencyAnswerSymmetric(a, b);
    }
  }

  /** Outside currency and phone fields the comparison ignores letter case
      and the white space around an answer: an answer that differs from the
      reference only in the case of ASCII letters, typed with any white space
      before or after it, is correct. */
  lemma CaseAndPaddingIgnored(p: string, a: string, q: string, b: string, rule: Rule)
    requires rule != Currency && rule != Phone
    requires AllSpace(p) && AllSpace(q)
    requires ToLowerAscii(a) == ToLowerAscii(b)
    ensures IsAnswerCorrect(p + a + q, b, rule)
  {
    ToLowerConcat(p, a);
    ToLowerConcat(p + a, q);
    LowerKeepsSpace(p);
    LowerKeepsSpace(q);
    TrimIgnoresPadding(p, ToLowerAscii(a), q);
  }

  /** Outside currency fields every answer matches itself; a currency answer
      in which `parseFloat` finds no number matches nothing, itself included. */
  lemma AnswerReflexivity(a: string, b: string, rule: Rule)
    ensures rule != Currency ==> IsAnswerCorrect(a, a, rule)
    ensures rule == Currency && ParseFloat(StripCurrency(a)) == NaN ==> !IsAnswerCorrect(a, b, rule)
  {
  }

  /** The value in cents of a string the currency rule accepts. */
  function Cents(s: string): (c: nat)
    requires CurrencyShape(s)
  {
    var n := DigitRun(s);
    if n == |s| then DigitsValue(s) * 100
    else DigitsValue(s[..n]) * 100 + DigitsValue(s[n + 1..])
  }

  lemma UnsignedCurrency(s: string)
    requires CurrencyShape(s)
    ensures var n := UnsignedDecimal(s);
            && n.Finite? && (n.exponent == 0 || n.exponent == -2)
            && Scaled(n.mantissa, n.exponent + 2) == Cents(s)
  {
    var n := DigitRun(s);
    var whole := s[..n];
    var tail := s[n..];
    if n == |s| {
      assert tail == [] && FractionOf(tail) == [];
      assert whole + [] == s;
      ScaledSmall(DigitsValue(s));
    } else {
      var t := s[n + 1..];
      assert tail[1..] == t;
      assert DigitRun(t) == 2 by { DigitRunOf(t, []); assert t + [] == t; }
      assert t[..2] == t;
      assert FractionOf(tail) == t;
      assert tail[3..] == [];
      assert ExponentOf([]) == 0;
      DigitsValueAppend(whole, t);
      assert Pow10(2) == 100;
      ScaledSmall(DigitsValue(whole + t));
    }
  }

  /** A value the currency rule accepts holds no `$` or `,`. */
  lemma CurrencyHasNoMarks(s: string)
    requires CurrencyShape(s)
    ensures StripCurrency(s) == s
  {
    var n := DigitRun(s);
    forall i | 0 <= i < |s| ensures !CurrencyMark(s[i]) {
      if i < n { assert s[..n][i] == s[i]; }
      else if i > n { assert s[n + 1..][i - n - 1] == s[i]; }
    }
    RemoveSpec(s, CurrencyMark);
  }

  /** Text that starts with a digit is read as an unsigned decimal. */
  lemma ParseFloatOfDigits(s: string)
    requires DigitRun(s) > 0
    ensures ParseFloat(s) == UnsignedDecimal(s)
  {
    assert s[..DigitRun(s)][0] == s[0];
    assert TrimStart(s) == s;
    assert SignOf(s) == (false, s);
    assert !(|s| >= 8 && s[..8] == "Infinity") by { if |s| >= 8 { assert s[..8][0] == s[0]; } }
  }

  /** A value the currency rule accepts parses to exactly its number of cents
      (with exponent 0 or -2). */
  lemma ParseCurrency(s: string)
    requires CurrencyShape(s)
    ensures StripCurrency(s) == s
    ensures var n := ParseFloat(s);
            && n.Finite? && (n.exponent == 0 || n.exponent == -2)
            && Scaled(n.mantissa, n.exponent + 2) == Cents(s)
  {
    CurrencyHasNoMarks(s);
    ParseFloatOfDigits(s);
    UnsignedCurrency(s);
  }

  /** Between numbers read from currency values the comparison is exact
      equality of their amounts in cents. */
  lemma WithinCentOfCents(a: JsNumber, b: JsNumber)
    requires a.Finite? && (a.exponent == 0 || a.exponent == -2)
    requires b.Finite? && (b.exponent == 0 || b.exponent == -2)
    ensures WithinCent(a, b) <==> Scaled(a.mantissa, a.exponent + 2) == Scaled(b.mantissa, b.exponent + 2)
  {
    ScaledSmall(a.mantissa);
    ScaledSmall(b.mantissa);
    ScaledSmall(a.mantissa - b.mantissa);
    ScaledSmall(b.mantissa - a.mantissa);
    ScaledSmall(Abs(a.mantissa - b.mantissa));
  }

  /** In the exact-decimal model of the comparison, values the currency
      rule accepts match exactly when their amounts in cents are equal. The
      program subtracts doubles instead, and for most of the shipped
      reference amounts that lets an answer one cent off through. */
  lemma CurrencyAnswerIsCentEquality(user: string, correct: string)
    requires CurrencyShape(user) && CurrencyShape(correct)
    ensures IsAnswerCorrect(user, correct, Currency) <==> Cents(user) == Cents(correct)
  {
    ParseCurrency(user);
    ParseCurrency(correct);
    WithinCentOfCents(ParseFloat(user), ParseFloat(correct));
  }

  /** A reference value matches itself (a currency one when it has the
      currency rule's form). */
  lemma AnswerMatchesItself(a: string, rule: Rule)
    requires rule == Currency ==> CurrencyShape(a)
    ensures IsAnswerCorrect(a, a, rule)
  {
    if rule == Currency {
      CurrencyAnswerIsCentEquality(a, a);
    }
  }

  /** A digit string followed by `.` and two digits, read in cents. */
  lemma CentsOfDecimal(w: string, f: string)
    requires w != [] && AllDigits(w) && |f| == 2 && AllDigits(f)
    ensures CurrencyShape(w + "." + f)
    ensures Cents(w + "." + f) == DigitsValue(w) * 100 + DigitsValue(f)
  {
    CurrencyFromParts(w, f);
    var s := w + "." + f;
    assert s == w + ("." + f);
    DigitRunOf(w, "." + f);
    assert DigitRun(s) == |w| < |s|;
    assert s[..|w|] == w && s[|w| + 1..] == f;
    assert Cents(s) == DigitsValue(s[..|w|]) * 100 + DigitsValue(s[|w| + 1..]);
  }

  /** Deleting `$` and `,` twice deletes nothing more: grouping marks never
      change a currency answer. */
  lemma StripCurrencyIdempotent(s: string)
    ensures StripCurrency(StripCurrency(s)) == StripCurrency(s)
  {
    RemoveSpec(s, CurrencyMark);
    RemoveSpec(StripCurrency(s), CurrencyMark);
  }

  /** A thousands separator between two mark-free parts is deleted and
      nothing else is: "18,750.00" is compared as "18750.00". */
  lemma GroupingIgnored(a: string, b: string)
    requires forall i :: 0 <= i < |a| ==> !CurrencyMark(a[i])
    requires forall i :: 0 <= i < |b| ==> !CurrencyMark(b[i])
    ensures StripCurrency(a + "," + b) == a + b == StripCurrency(a + b)
  {
    assert a + "," + b == a + ("," + b);
    RemoveConcat(a, b, CurrencyMark);
    RemoveConcat(a, "," + b, CurrencyMark);
    RemoveConcat(",", b, CurrencyMark);
    RemoveSpec(a, CurrencyMark);
    RemoveSpec(b, CurrencyMark);
  }

  /** A currency answer is judged on what is left once `$` and `,` are
      deleted. */
  lemma CurrencyAnswerOfStripped(u1: string, u2: string, c: string)
    requires StripCurrency(u1) == StripCurrency(u2)
    ensures IsAnswerCorrect(u1, c, Currency) == IsAnswerCorrect(u2, c, Currency)
  {
  }

  /** Two amounts with the same whole part differ by their cents digits. */
  lemma SameWholePart(w: string, f1: string, f2: string)
    requires w != [] && AllDigits(w)
    requires |f1| == 2 && AllDigits(f1) && |f2| == 2 && AllDigits(f2)
    ensures CurrencyShape(w + "." + f1) && CurrencyShape(w + "." + f2)
    ensures Cents(w + "." + f2) == Cents(w + "." + f1) + DigitsValue(f2) - DigitsValue(f1)
  {
    CentsOfDecimal(w, f1);
    CentsOfDecimal(w, f2);
  }

  lemma PlainAmounts()
    ensures CurrencyShape("18750.00") && CurrencyShape("18750.02")
    ensures Cents("18750.02") == Cents("18750.00") + 2
  {
    SameWholePart("18750", "00", "02");
    assert "18750" + "." + "00" == "18750.00";
    assert "18750" + "." + "02" == "18750.02";
    assert DigitsValue("00") == 0 && DigitsValue("02") == 2;
  }

  /** Thousands separators do not matter, but an amount two cents off does:
      "18,750.00" answers any reference "18750.00" answers, and "18750.02"
      does not answer "18750.00". The double subtraction of the program
      gives the same verdict on this pair (a distance just above 0.02). */
  lemma CurrencyExamples(a: string, b: string, c: string)
    requires forall i :: 0 <= i < |a| ==> !CurrencyMark(a[i])
    requires forall i :: 0 <= i < |b| ==> !CurrencyMark(b[i])
    ensures IsAnswerCorrect(a + "," + b, c, Currency) == IsAnswerCorrect(a + b, c, Currency)
    ensures !IsAnswerCorrect("18750.02", "18750.00", Currency)
  {
    GroupingIgnored(a, b);
    CurrencyAnswerOfStripped(a + "," + b, a + b, c);
    PlainAmounts();
    CurrencyAnswerIsCentEquality("18750.02", "18750.00");
  }


  lemma StripPhoneOfDigits(s: string)
    requires AllDigits(s)
    ensures StripPhone(s) == s
  {
    RemoveSpec(s, PhoneMark);
  }

  lemma StripFormattedPhone(a: string, b: string, c: string)
    ensures StripPhone("(" + a + ") " + b + "-" + c) == StripPhone(a) + StripPhone(b) + StripPhone(c)
  {
    assert StripPhone("(") == [] && StripPhone(") ") == [] && StripPhone("-") == [];
    RemoveConcat("(", a, PhoneMark);
    RemoveConcat("(" + a, ") ", PhoneMark);
    RemoveConcat("(" + a + ") ", b, PhoneMark);
    RemoveConcat("(" + a + ") " + b, "-", PhoneMark);
    RemoveConcat("(" + a + ") " + b + "-", c, PhoneMark);
  }

  /** Punctuation in phone numbers does not matter: a number written as
      `(ddd) ddd-dddd` answers the same ten digits written bare. */
  lemma PhonePunctuationIgnored(a: string, b: string, c: string)
    requires AllDigits(a) && AllDigits(b) && AllDigits(c)
    ensures IsAnswerCorrect("(" + a + ") " + b + "-" + c, a + b + c, Phone)
  {
    assert AllDigits(a + b + c);
    StripPhoneOfDigits(a);
    StripPhoneOfDigits(b);
    StripPhoneOfDigits(c);
    StripPhoneOfDigits(a + b + c);
    StripFormattedPhone(a, b, c);
  }
}
