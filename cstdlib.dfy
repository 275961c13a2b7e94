/**
 * The part of the C standard library that the configuration parser relies on:
 * the 32-bit `int` type, `isspace` in the "C" locale, and `atoi`, whose meaning
 * ISO C11 fixes in section 7.22.1.2 by reference to `strtol` with base 10
 * (section 7.22.1.4). The `%d` conversion of `printf` is modelled as well, as
 * the rendering that `atoi` inverts.
 */
module CStdlib {

  /** C's `int` on the platforms the server targets: 32-bit two's complement. */
  newtype int32 = x: int | InInt32Range(x)

  /** INT_MIN <= x <= INT_MAX for a 32-bit `int`. */
  predicate InInt32Range(x: int) {
    -0x8000_0000 <= x < 0x8000_0000
  }

  /** `isspace` in the "C" locale: space, \t, \n, \v, \f and \r. */
  predicate IsSpace(c: char)
    ensures IsSpace(c) ==> !IsDigit(c) && !IsSign(c)
  {
    c == ' ' || c == '\t' || c == '\n' || c == '\U{000B}' || c == '\U{000C}' || c == '\r'
  }

  predicate IsDigit(c: char) {
    '0' <= c <= '9'
  }

  predicate IsSign(c: char) {
    c == '+' || c == '-'
  }

  predicate AllSpaces(s: string) {
    forall k :: 0 <= k < |s| ==> IsSpace(s[k])
  }

  predicate AllDigits(s: string) {
    forall k :: 0 <= k < |s| ==> IsDigit(s[k])
  }

  function DigitValue(c: char): (d: nat)
    requires IsDigit(c)
    ensures d < 10
  {
    (c as int - '0' as int) as nat
  }

  function DigitChar(d: nat): (c: char)
    requires d < 10
    ensures IsDigit(c) && DigitValue(c) == d
  {
    ('0' as int + d) as char
  }

  /** Length of the longest prefix of `s` made of white-space characters. */
  function SpacePrefix(s: string): (n: nat)
    ensures n <= |s|
    ensures AllSpaces(s[..n])
    ensures n == |s| || !IsSpace(s[n])
  {
    if s == [] || !IsSpace(s[0]) then 0 else 1 + SpacePrefix(s[1..])
  }

  /** Length of the longest prefix of `s` made of decimal digits. */
  function DigitPrefix(s: string): (n: nat)
    ensures n <= |s|
    ensures AllDigits(s[..n])
    ensures n == |s| || !IsDigit(s[n])
  {
    if s == [] || !IsDigit(s[0]) then 0 else 1 + DigitPrefix(s[1..])
  }

  /** The number a string of decimal digits denotes, most significant first. */
  function DigitsValue(ds: string): nat
    requires AllDigits(ds)
  {
    if ds == [] then 0 else 10 * DigitsValue(ds[..|ds| - 1]) + DigitValue(ds[|ds| - 1])
  }

  /**
   * The mathematical value of the subject sequence that `strtol(s, NULL, 10)`
   * recognises: leading white space is skipped, one optional sign is accepted,
   * then the longest run of decimal digits is taken. Without digits the value
   * is 0. No range check is made here.
   */
  function StrtolValue(s: string): (v: int)
    ensures (forall k :: 0 <= k < |s| ==> !IsDigit(s[k])) ==> v == 0
  {
    var t := s[SpacePrefix(s)..];
    var signed := |t| > 0 && IsSign(t[0]);
    var u := if signed then t[1..] else t;
    var magnitude: int := DigitsValue(u[..DigitPrefix(u)]);
    if signed && t[0] == '-' then -magnitude else magnitude
  }

  /** The value of a magnitude under a sign of "", "+" or "-". */
  function Signed(sign: string, magnitude: nat): int {
    if sign == "-" then -(magnitude as int) else magnitude as int
  }

  /** `atoi(s)` has defined behaviour exactly when the value fits in an `int`. */
  predicate AtoiDefined(s: string) {
    InInt32Range(StrtolValue(s))
  }

  /** `atoi` (C11 section 7.22.1.2): `(int) strtol(s, NULL, 10)` on defined inputs. */
  function Atoi(s: string): (r: int32)
    requires AtoiDefined(s)
    ensures r as int == StrtolValue(s)
  {
    StrtolValue(s) as int32
  }

  /**
   * What the text must contain for `atoi` to return a given kind of value:
   * a result other than 0 needs a digit, and a negative result needs a minus
   * sign.
   */
  lemma AtoiText(s: string)
    requires AtoiDefined(s)
    ensures Atoi(s) != 0 ==> exists k :: 0 <= k < |s| && IsDigit(s[k])
    ensures Atoi(s) < 0 ==> exists k :: 0 <= k < |s| && s[k] == '-'
  {
  }

  /** Decimal digits of `n`, most significant first, without leading zeros. */
  function Digits(n: nat): (ds: string)
    ensures |ds| > 0 && AllDigits(ds)
    ensures DigitsValue(ds) == n
    ensures n == 0 ==> ds == "0"
    ensures n > 0 ==> ds[0] != '0'
  {
    if n < 10 then
      [DigitChar(n)]
    else
      var ds := Digits(n / 10) + [DigitChar(n % 10)];
      assert ds[..|ds| - 1] == Digits(n / 10);
      assert ds[0] == Digits(n / 10)[0];
      ds
  }

  /**
   * What `printf("%d", n)` writes for an `int` n: a minus sign for a negative
   * number, then the fewest digits that denote its magnitude. Reading it back
   * as `strtol` does gives `n` again.
   */
  function Decimal(n: int): (r: string)
    ensures |r| > 0
    ensures r[0] == '-' <==> n < 0
    ensures var ds := if n < 0 then r[1..] else r; |ds| > 0 && AllDigits(ds) && (|ds| > 1 ==> ds[0] != '0')
    ensures StrtolValue(r) == n
  {
    if n < 0 then
      StrtolOfNumeral("", "-", Digits(-n), "");
      assert "" + "-" + Digits(-n) + "" == "-" + Digits(-n);
      assert ("-" + Digits(-n))[1..] == Digits(-n);
      "-" + Digits(-n)
    else
      StrtolOfNumeral("", "", Digits(n), "");
      assert "" + "" + Digits(n) + "" == Digits(n);
      Digits(n)
  }

  /** The white space skipped in front of `t` adds to the white space that begins `t`. */
  lemma {:induction false} SpacePrefixAppend(ws: string, t: string)
    requires AllSpaces(ws)
    ensures SpacePrefix(ws + t) == |ws| + SpacePrefix(t)
  {
    if ws == [] {
      assert ws + t == t;
    } else {
      assert (ws + t)[1..] == ws[1..] + t;
      SpacePrefixAppend(ws[1..], t);
    }
  }

  /** A run of digits followed by a non-digit: the digit run is exactly `ds`. */
  lemma {:induction false} DigitPrefixOf(ds: string, rest: string)
    requires AllDigits(ds)
    requires rest == [] || !IsDigit(rest[0])
    ensures DigitPrefix(ds + rest) == |ds|
    ensures (ds + rest)[..|ds|] == ds
  {
    if ds != [] {
      assert (ds + rest)[1..] == ds[1..] + rest;
      DigitPrefixOf(ds[1..], rest);
    }
  }

  /**
   * The defining property of `atoi` on a well-formed numeral: white space, an
   * optional sign and at least one digit, followed by anything that does not
   * start with a digit, denote the signed value of the digits.
   */
  lemma {:induction false} StrtolOfNumeral(ws: string, sign: string, ds: string, rest: string)
    requires AllSpaces(ws)
    requires sign == "" || sign == "+" || sign == "-"
    requires |ds| > 0 && AllDigits(ds)
    requires rest == [] || !IsDigit(rest[0])
    ensures StrtolValue(ws + sign + ds + rest) == Signed(sign, DigitsValue(ds))
  {
    var t := sign + ds + rest;
    assert ws + sign + ds + rest == ws + t;
    assert t[0] == if sign == "" then ds[0] else sign[0];
    StrtolAfterSpaces(ws, t);
    StrtolOfSignedDigits(sign, ds, rest);
  }

  /** A numeral that starts right at the sign or the first digit. */
  lemma {:induction false} StrtolOfSignedDigits(sign: string, ds: string, rest: string)
    requires sign == "" || sign == "+" || sign == "-"
    requires |ds| > 0 && AllDigits(ds)
    requires rest == [] || !IsDigit(rest[0])
    ensures StrtolValue(sign + ds + rest) == Signed(sign, DigitsValue(ds))
  {
    var t := sign + ds + rest;
    var u := ds + rest;
    DigitPrefixOf(ds, rest);
    assert u[..DigitPrefix(u)] == ds;
    if sign == "" {
      assert t == u;
      assert t[0] == ds[0] && IsDigit(ds[0]);
      assert !IsSpace(t[0]) && !IsSign(t[0]);
      assert SpacePrefix(t) == 0;
    } else {
      assert t == [sign[0]] + u;
      assert t[0] == sign[0] && (sign[0] == '+' || sign[0] == '-');
      assert !IsSpace(t[0]) && IsSign(t[0]);
      assert SpacePrefix(t) == 0;
      assert t[1..] == u;
    }
  }

  /** Leading white space does not change the value. */
  lemma {:induction false} StrtolAfterSpaces(ws: string, t: string)
    requires AllSpaces(ws)
    ensures StrtolValue(ws + t) == StrtolValue(t)
  {
    SpacePrefixAppend(ws, t);
    assert (ws + t)[|ws| + SpacePrefix(t)..] == t[SpacePrefix(t)..];
  }

  /**
   * Without a digit right after the white space and the optional sign, `atoi`
   * yields 0. When no sign is given, the character that ends the white space
   * must itself be neither white space nor a sign.
   */
  lemma {:induction false} StrtolWithoutDigits(ws: string, sign: string, rest: string)
    requires AllSpaces(ws)
    requires sign == "" || sign == "+" || sign == "-"
    requires rest == [] || !IsDigit(rest[0])
    requires sign == "" && rest != [] ==> !IsSpace(rest[0]) && !IsSign(rest[0])
    ensures StrtolValue(ws + sign + rest) == 0
  {
    var t := sign + rest;
    assert ws + sign + rest == ws + t;
    StrtolAfterSpaces(ws, t);
    assert SpacePrefix(t) == 0;
    assert t[SpacePrefix(t)..] == t;
    var u := if |t| > 0 && IsSign(t[0]) then t[1..] else t;
    if sign == "" {
      assert u == rest;
    } else {
      assert u == rest;
    }
    assert DigitPrefix(u) == 0;
  }

  /** `atoi` inverts `%d`: reading back what `printf` writes for an `int` gives the same `int`. */
  lemma AtoiDecimal(n: int32)
    ensures AtoiDefined(Decimal(n as int))
    ensures Atoi(Decimal(n as int)) == n
  {
  }
}
