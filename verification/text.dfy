/** Character-level helpers shared by the validation rules and the answer
    comparison: JavaScript's notion of white space, ASCII digits, trimming,
    filtering and the value of a digit string. */
module Text {

  /** JavaScript's `\s` and the characters `String.prototype.trim` removes:
      the WhiteSpace code points (tab, vertical tab, form feed, U+FEFF and
      every Zs space separator) and the LineTerminator code points. */
  predicate IsSpace(c: char)
  {
    || c == '\t' || c == '\n' || c == '\U{000B}' || c == '\U{000C}' || c == '\r'
    || c == ' ' || c == '\U{00A0}' || c == '\U{1680}'
    || ('\U{2000}' <= c <= '\U{200A}')
    || c == '\U{2028}' || c == '\U{2029}' || c == '\U{202F}' || c == '\U{205F}'
    || c == '\U{3000}' || c == '\U{FEFF}'
  }

  /** JavaScript's `\d`: the ASCII digits only. */
  predicate IsDigit(c: char)
  {
    '0' <= c <= '9'
  }

  predicate AllDigits(s: string)
  {
    forall i :: 0 <= i < |s| ==> IsDigit(s[i])
  }

  predicate AllSpace(s: string)
  {
    forall i :: 0 <= i < |s| ==> IsSpace(s[i])
  }

  /** Drops the leading white space. */
  function TrimStart(s: string): (r: string)
    ensures |r| <= |s| && r == s[|s| - |r|..]
    ensures AllSpace(s[..|s| - |r|])
    ensures r != [] ==> !IsSpace(r[0])
  {
    if s != [] && IsSpace(s[0]) then TrimStart(s[1..]) else s
  }

  /** Drops the trailing white space. */
  function TrimEnd(s: string): (r: string)
    ensures |r| <= |s| && r == s[..|r|]
    ensures AllSpace(s[|r|..])
    ensures r != [] ==> !IsSpace(r[|r| - 1])
  {
    if s != [] && IsSpace(s[|s| - 1]) then TrimEnd(s[..|s| - 1]) else s
  }

  /** `String.prototype.trim`: the longest middle part of `s` that neither
      starts nor ends with white space. */
  function Trim(s: string): (r: string)
    ensures r != [] ==> !IsSpace(r[0]) && !IsSpace(r[|r| - 1])
    ensures r == [] <==> AllSpace(s)
  {
    var t := TrimStart(s);
    var r := TrimEnd(t);
    assert r == [] ==> AllSpace(s) by {
      if r == [] {
        assert s == s[..|s| - |t|] + t;
      }
    }
    r
  }

  /** Trimming keeps a middle slice of `s`: what was cut off on either side
      is all white space. */
  lemma TrimIsSlice(s: string) returns (lead: nat)
    ensures lead + |Trim(s)| <= |s|
    ensures Trim(s) == s[lead..lead + |Trim(s)|]
    ensures AllSpace(s[..lead]) && AllSpace(s[lead + |Trim(s)|..])
  {
    var t := TrimStart(s);
    var r := TrimEnd(t);
    lead := |s| - |t|;
    assert r == t[..|r|];
    assert s[lead + |r|..] == t[|r|..];
  }

  /** Trimming a value that is already trimmed changes nothing. */
  lemma TrimIdempotent(s: string)
    ensures Trim(Trim(s)) == Trim(s)
  {
    var r := Trim(s);
    if r != [] {
      assert TrimStart(r) == r;
      assert TrimEnd(r) == r;
    }
  }

  /** Leading white space makes no difference to `TrimStart`. */
  lemma {:induction false} TrimStartPadded(p: string, x: string)
    requires AllSpace(p)
    ensures TrimStart(p + x) == TrimStart(x)
  {
    if p != [] {
      assert (p + x)[1..] == p[1..] + x;
      TrimStartPadded(p[1..], x);
    } else {
      assert p + x == x;
    }
  }

  /** Trailing white space makes no difference to `TrimEnd`. */
  lemma {:induction false} TrimEndPadded(x: string, q: string)
    requires AllSpace(q)
    ensures TrimEnd(x + q) == TrimEnd(x)
  {
    if q != [] {
      assert (x + q)[..|x + q| - 1] == x + q[..|q| - 1];
      TrimEndPadded(x, q[..|q| - 1]);
    } else {
      assert x + q == x;
    }
  }

  /** Once a non-space character is reached, what follows is kept. */
  lemma {:induction false} TrimStartAppend(x: string, q: string)
    requires TrimStart(x) != []
    ensures TrimStart(x + q) == TrimStart(x) + q
  {
    if IsSpace(x[0]) {
      assert (x + q)[1..] == x[1..] + q;
      TrimStartAppend(x[1..], q);
    }
  }

  /** White space added on either side of a value makes no difference once
      it is trimmed. */
  lemma TrimIgnoresPadding(p: string, s: string, q: string)
    requires AllSpace(p) && AllSpace(q)
    ensures Trim(p + s + q) == Trim(s)
  {
    assert p + s + q == p + (s + q);
    TrimStartPadded(p, s + q);
    if TrimStart(s) == [] {
      assert s[..|s|] == s;
      TrimStartPadded(s, q);
      TrimStartPadded(q, []);
      assert q + [] == q;
    } else {
      TrimStartAppend(s, q);
      TrimEndPadded(TrimStart(s), q);
    }
  }

  /** White space is not changed by lower-casing. */
  lemma LowerKeepsSpace(p: string)
    requires AllSpace(p)
    ensures ToLowerAscii(p) == p
  {
    assert forall i :: 0 <= i < |p| ==> ToLowerAscii(p)[i] == p[i];
  }

  /** Lower-casing works character by character. */
  lemma ToLowerConcat(a: string, b: string)
    ensures ToLowerAscii(a + b) == ToLowerAscii(a) + ToLowerAscii(b)
  {
  }

  /** The characters of `s` that `drop` does not reject, in order. */
  function Remove(s: string, drop: char -> bool): (r: string)
    ensures |r| <= |s|
  {
    if s == [] then []
    else
      var rest := Remove(s[1..], drop);
      if drop(s[0]) then rest else [s[0]] + rest
  }

  /** Nothing that `drop` rejects survives, and a string with nothing to
      drop is kept whole. */
  lemma {:induction false} RemoveSpec(s: string, drop: char -> bool)
    ensures forall i :: 0 <= i < |Remove(s, drop)| ==> !drop(Remove(s, drop)[i])
    ensures (forall i :: 0 <= i < |s| ==> !drop(s[i])) ==> Remove(s, drop) == s
  {
    if s != [] {
      RemoveSpec(s[1..], drop);
      if forall i :: 0 <= i < |s| ==> !drop(s[i]) {
        assert forall i :: 0 <= i < |s[1..]| ==> !drop(s[1..][i]) by {
          forall i | 0 <= i < |s[1..]| ensures !drop(s[1..][i]) { assert s[1..][i] == s[i + 1]; }
        }
      }
    }
  }

  lemma {:induction false} RemoveConcat(a: string, b: string, drop: char -> bool)
    ensures Remove(a + b, drop) == Remove(a, drop) + Remove(b, drop)
  {
    if a != [] {
      assert (a + b)[1..] == a[1..] + b;
      RemoveConcat(a[1..], b, drop);
    } else {
      assert a + b == b;
    }
  }

  /** ASCII upper-case letters to lower case; every other character is kept. */
  function ToLowerAscii(s: string): (r: string)
    ensures |r| == |s|
    ensures forall i :: 0 <= i < |s| && !('A' <= s[i] <= 'Z') ==> r[i] == s[i]
    ensures forall i :: 0 <= i < |s| && 'A' <= s[i] <= 'Z' ==> r[i] as int == s[i] as int + 32
    ensures forall i :: 0 <= i < |r| ==> !('A' <= r[i] <= 'Z')
  {
    seq(|s|, i requires 0 <= i < |s| =>
      if 'A' <= s[i] <= 'Z' then (s[i] as int - 'A' as int + 'a' as int) as char else s[i])
  }

  /** The number of leading digits of `s`. */
  function DigitRun(s: string): (n: nat)
    ensures n <= |s| && AllDigits(s[..n])
    ensures n < |s| ==> !IsDigit(s[n])
  {
    if s == [] || !IsDigit(s[0]) then 0 else 1 + DigitRun(s[1..])
  }

  /** A run of digits followed by a non-digit (or nothing) is counted whole. */
  lemma {:induction false} DigitRunOf(w: string, t: string)
    requires AllDigits(w)
    requires t == [] || !IsDigit(t[0])
    ensures DigitRun(w + t) == |w|
  {
    if w != [] {
      assert (w + t)[1..] == w[1..] + t;
      DigitRunOf(w[1..], t);
    }
  }

  function Pow10(n: nat): (r: nat)
    ensures r >= 1
  {
    if n == 0 then 1 else 10 * Pow10(n - 1)
  }

  function DigitValue(c: char): nat
    requires IsDigit(c)
  {
    c as int - '0' as int
  }

  /** The decimal value of a string of digits (as `parseInt` reads it). */
  function DigitsValue(s: string): (v: nat)
    requires AllDigits(s)
    ensures v < Pow10(|s|)
  {
    if s == [] then 0 else 10 * DigitsValue(s[..|s| - 1]) + DigitValue(s[|s| - 1])
  }

  /** Kept apart so that the multiplication is reasoned about on its own. */
  lemma ShiftByTen(x: int, p: int)
    ensures x * (10 * p) == 10 * (x * p)
  {
  }

  /** Reading two digit strings one after the other shifts the first. */
  lemma {:induction false} DigitsValueAppend(a: string, b: string)
    requires AllDigits(a) && AllDigits(b)
    ensures AllDigits(a + b)
    ensures DigitsValue(a + b) == DigitsValue(a) * Pow10(|b|) + DigitsValue(b)
  {
    if b != [] {
      var b' := b[..|b| - 1];
      assert (a + b)[..|a + b| - 1] == a + b';
      DigitsValueAppend(a, b');
      var x, p, y := DigitsValue(a), Pow10(|b'|), DigitsValue(b');
      ShiftByTen(x, p);
      assert DigitsValue(a + b) == 10 * (x * p + y) + DigitValue(b[|b| - 1]);
    } else {
      assert a + b == a;
    }
  }
}
