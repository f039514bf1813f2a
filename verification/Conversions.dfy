/** The C conversions from text that the source applies to received parameters. */
module Conversions {

  predicate IsSpace(c: char) {
    c == ' ' || '\t' <= c <= '\r'
  }

  predicate IsDigit(c: char) {
    '0' <= c <= '9'
  }

  function SkipSpaces(s: string): string {
    if s != "" && IsSpace(s[0]) then SkipSpaces(s[1..]) else s
  }

  /** The length of the run of digits at the start. */
  function DigitRun(s: string): (n: nat)
    ensures n <= |s|
  {
    if s != "" && IsDigit(s[0]) then 1 + DigitRun(s[1..]) else 0
  }

  function Digits(s: string): int {
    if s == "" then 0 else 10 * Digits(s[..|s| - 1]) + (s[|s| - 1] as int - '0' as int)
  }

  /** atoi, without its overflow. */
  function Atoi(text: string): int {
    var s := SkipSpaces(text);
    if s != "" && s[0] == '-' then -Digits(s[1..][..DigitRun(s[1..])])
    else if s != "" && s[0] == '+' then Digits(s[1..][..DigitRun(s[1..])])
    else Digits(s[..DigitRun(s)])
  }

  /** Digits behind a point. */
  function Fraction(s: string): real {
    if s == "" then 0.0 else ((s[0] as int - '0' as int) as real + Fraction(s[1..])) / 10.0
  }

  /** Digits, then a point and digits if there is one. */
  function Decimal(s: string): real {
    var whole := DigitRun(s);
    var rest := s[whole..];
    if rest != "" && rest[0] == '.' then
      var n := DigitRun(rest[1..]);
      Digits(s[..whole]) as real + Fraction(rest[1..][..n])
    else
      Digits(s[..whole]) as real
  }

  /** atof on decimal fractions: sign, digits, point, digits. */
  function Atof(text: string): real {
    var s := SkipSpaces(text);
    if s != "" && s[0] == '-' then -Decimal(s[1..])
    else if s != "" && s[0] == '+' then Decimal(s[1..])
    else Decimal(s)
  }

  // ---------- decimal text ----------

  function ShowNat(n: nat): (s: string)
    ensures s != ""
  {
    if n < 10 then ['0' + n as char] else ShowNat(n / 10) + ['0' + (n % 10) as char]
  }

  /** Converter::convertToString(int). */
  function Show(n: int): string {
    if n < 0 then "-" + ShowNat(-n) else ShowNat(n)
  }

  predicate AllDigits(s: string) {
    forall i | 0 <= i < |s| :: IsDigit(s[i])
  }

  lemma {:induction false} ShowNatDigits(n: nat)
    ensures AllDigits(ShowNat(n)) && Digits(ShowNat(n)) == n
  {
    if n < 10 {
      assert ShowNat(n)[..0] == "";
    } else {
      ShowNatDigits(n / 10);
      var front := ShowNat(n / 10);
      assert ShowNat(n)[..|front|] == front;
    }
  }

  lemma {:induction false} DigitRunOfDigits(s: string)
    requires AllDigits(s)
    ensures DigitRun(s) == |s|
    decreases |s|
  {
    if s != "" {
      DigitRunOfDigits(s[1..]);
    }
  }

  lemma {:induction false} DigitsAlone(s: string)
    requires s != "" && AllDigits(s)
    ensures Atoi(s) == Digits(s)
    ensures Atoi("-" + s) == -Digits(s)
  {
    DigitRunOfDigits(s);
    assert s[..|s|] == s;
    assert SkipSpaces(s) == s by {
      assert IsDigit(s[0]);
    }
    var t := "-" + s;
    assert SkipSpaces(t) == t && t[1..] == s;
  }

  /** atoi reads back every number that convertToString wrote. */
  lemma AtoiShow(n: int)
    ensures Atoi(Show(n)) == n
  {
    var m := if n < 0 then -n else n;
    ShowNatDigits(m);
    DigitsAlone(ShowNat(m));
  }

  // ---------- what the two conversions read ----------

  lemma {:induction false} DigitRunStops(d: string, rest: string)
    requires AllDigits(d) && (rest == "" || !IsDigit(rest[0]))
    ensures DigitRun(d + rest) == |d|
    decreases |d|
  {
    if d == "" {
      assert d + rest == rest;
    } else {
      assert (d + rest)[1..] == d[1..] + rest;
      DigitRunStops(d[1..], rest);
    }
  }

  lemma {:induction false} SpacesSkipped(spaces: string, s: string)
    requires forall i | 0 <= i < |spaces| :: IsSpace(spaces[i])
    requires s == "" || !IsSpace(s[0])
    ensures SkipSpaces(spaces + s) == s
    decreases |spaces|
  {
    if spaces == "" {
      assert spaces + s == s;
    } else {
      assert (spaces + s)[1..] == spaces[1..] + s;
      SpacesSkipped(spaces[1..], s);
    }
  }

  /** What stands before a number, and what that makes of it. */
  predicate IsSign(sign: string) {
    sign == "" || sign == "+" || sign == "-"
  }

  /** atoi: white space, a sign, digits; whatever follows them is not looked at. */
  lemma AtoiReads(spaces: string, sign: string, d: string, rest: string)
    requires (forall i | 0 <= i < |spaces| :: IsSpace(spaces[i])) && IsSign(sign)
    requires d != "" && AllDigits(d) && (rest == "" || !IsDigit(rest[0]))
    ensures Atoi(spaces + (sign + (d + rest))) == if sign == "-" then -Digits(d) else Digits(d)
  {
    var s := sign + (d + rest);
    assert s[0] == if sign == "" then d[0] else sign[0];
    SpacesSkipped(spaces, s);
    DigitRunStops(d, rest);
    assert (d + rest)[..|d|] == d;
    if sign != "" {
      assert s[1..] == d + rest;
    } else {
      assert s == d + rest;
    }
  }

  /** atof: the same, with a point and further digits. */
  lemma AtofReads(spaces: string, sign: string, w: string, f: string, t: string)
    requires (forall i | 0 <= i < |spaces| :: IsSpace(spaces[i])) && IsSign(sign)
    requires w != "" && AllDigits(w) && AllDigits(f) && t == w + ("." + f)
    ensures var x := Digits(w) as real + Fraction(f);
            Atof(spaces + (sign + t)) == if sign == "-" then -x else x
  {
    DecimalReads(w, f, t);
    AtofSigned(spaces, sign, t);
  }

  lemma AtofSigned(spaces: string, sign: string, t: string)
    requires (forall i | 0 <= i < |spaces| :: IsSpace(spaces[i])) && IsSign(sign) && t != "" && IsDigit(t[0])
    ensures Atof(spaces + (sign + t)) == if sign == "-" then -Decimal(t) else Decimal(t)
  {
    var s := sign + t;
    assert s[0] == if sign == "" then t[0] else sign[0];
    SpacesSkipped(spaces, s);
    assert if sign != "" then s[1..] == t else s == t;
  }

  lemma DecimalParts(s: string, whole: nat, f: string)
    requires DigitRun(s) == whole < |s| && s[whole] == '.' && s[whole + 1..] == f && DigitRun(f) == |f|
    ensures Decimal(s) == Digits(s[..whole]) as real + Fraction(f)
  {
    var rest := s[whole..];
    assert rest[0] == '.' && rest[1..] == f && f[..|f|] == f;
  }

  lemma DecimalReads(w: string, f: string, s: string)
    requires AllDigits(w) && AllDigits(f) && s == w + ("." + f)
    ensures Decimal(s) == Digits(w) as real + Fraction(f)
  {
    DigitRunStops(w, "." + f);
    DigitRunOfDigits(f);
    assert s[..|w|] == w && s[|w| + 1..] == f;
    DecimalParts(s, |w|, f);
  }

  /** Moving the point behind one more digit multiplies by ten. */
  lemma PointMoves(w: string, c: char, f: string)
    requires AllDigits(w) && IsDigit(c) && AllDigits(f)
    ensures Decimal(w + [c] + ("." + f)) == 10.0 * Decimal(w + ("." + ([c] + f)))
  {
    DecimalReads(w + [c], f, w + [c] + ("." + f));
    DecimalReads(w, [c] + f, w + ("." + ([c] + f)));
  }

  /** A whole number, with a point or without, is read as itself by atof too. */
  lemma AtofShow(n: int)
    ensures Atof(Show(n)) == n as real && Atof(Show(n) + ".") == n as real
  {
    var m := if n < 0 then -n else n;
    var d, sign := ShowNat(m), if n < 0 then "-" else "";
    ShowNatDigits(m);
    WholeDecimal(d);
    AtofSigned("", sign, d);
    AtofReads("", sign, d, "", d + ".");
    assert d + ("." + "") == d + ".";
    assert "" + (sign + d) == Show(n) && "" + (sign + (d + ".")) == Show(n) + ".";
  }

  lemma WholeDecimal(d: string)
    requires AllDigits(d)
    ensures Decimal(d) == Digits(d) as real
  {
    DigitRunOfDigits(d);
    assert d[..|d|] == d && d[|d|..] == "";
  }
}
