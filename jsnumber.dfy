/** The JavaScript number parsing the curve importer relies on: parseInt and
    parseFloat, over exact values. */
module JsNumber {
  import opened JsString

  /** A JavaScript number as the importer can produce one. Finite values are exact
      reals: there is no IEEE-754 rounding and no negative zero. */
  datatype Number = NaN | Infinity(negative: bool) | Finite(value: real)

  /** The result of parseInt: NaN, or an integer. */
  datatype ParsedInt = NotANumber | Integer(value: int)

  /** The radix argument of parseInt: 10 given explicitly, or left out. */
  datatype Radix = Ten | Unspecified

  /** `x * 50.0` */
  function Times50(x: Number): Number {
    match x
    case NaN => NaN
    case Infinity(neg) => Infinity(neg)
    case Finite(v) => Finite(v * 50.0)
  }

  /** Unary minus, `-x`. */
  function Negate(x: Number): Number {
    match x
    case NaN => NaN
    case Infinity(neg) => Infinity(!neg)
    case Finite(v) => Finite(-v)
  }

  /** The digit value of c in radices up to 36 ('0'-'9', then 'a'-'z' or 'A'-'Z');
      36 for a code point that is no digit in any radix. */
  function DigitOf(c: char): (d: nat)
    ensures d <= 36
    ensures d < 10 <==> '0' <= c <= '9'
  {
    if '0' <= c <= '9' then c as int - '0' as int
    else if 'a' <= c <= 'z' then c as int - 'a' as int + 10
    else if 'A' <= c <= 'Z' then c as int - 'A' as int + 10
    else 36
  }

  /** The length of the run of radix digits at the start of s. */
  function DigitRun(s: string, radix: nat): (n: nat)
    ensures n <= |s|
    ensures n < |s| ==> DigitOf(s[n]) >= radix
  {
    if |s| == 0 || DigitOf(s[0]) >= radix then 0 else 1 + DigitRun(s[1..], radix)
  }

  /** Everything in a digit run is a digit of the radix. */
  lemma {:induction false} DigitRunDigits(s: string, radix: nat)
    ensures forall k :: 0 <= k < DigitRun(s, radix) ==> DigitOf(s[k]) < radix
  {
    if |s| > 0 && DigitOf(s[0]) < radix {
      DigitRunDigits(s[1..], radix);
      forall k | 1 <= k < DigitRun(s, radix) ensures DigitOf(s[k]) < radix {
        assert s[k] == s[1..][k - 1];
      }
    }
  }

  /** The value of the digit string s in the given radix, most significant digit first. */
  function DigitsValue(s: string, radix: nat): nat {
    if |s| == 0 then 0 else DigitsValue(s[..|s| - 1], radix) * radix + DigitOf(s[|s| - 1])
  }

  /** x times 10 to the power e. */
  function ScaleUp(x: real, e: nat): real {
    if e == 0 then x else 10.0 * ScaleUp(x, e - 1)
  }

  /** x divided by 10 to the power e. */
  function ScaleDown(x: real, e: nat): real {
    if e == 0 then x else ScaleDown(x, e - 1) / 10.0
  }

  /** x times 10 to the power e, for an exponent of either sign. */
  function Scale(x: real, e: int): real {
    if e >= 0 then ScaleUp(x, e) else ScaleDown(x, -e)
  }

  /** t without the one sign character it may start with. */
  function Unsigned(t: string): (u: string)
    ensures u == t || (|t| > 0 && u == t[1..])
  {
    if |t| > 0 && (t[0] == '+' || t[0] == '-') then t[1..] else t
  }

  /** True when u starts with the prefix "0x" or "0X". */
  predicate HexPrefixed(u: string) {
    |u| >= 2 && u[0] == '0' && (u[1] == 'x' || u[1] == 'X')
  }

  /** The integer named by the longest run of radix digits at the start of v. */
  function ReadDigits(v: string, radix: nat, negative: bool): ParsedInt {
    var n := DigitRun(v, radix);
    if n == 0 then NotANumber
    else
      var magnitude: int := DigitsValue(v[..n], radix);
      Integer(if negative then -magnitude else magnitude)
  }

  /** parseInt(s, radix) as section 19.2.5 of ECMA-262 defines it: leading white space
      skipped, an optional sign, with the radix left out a "0x"/"0X" prefix selecting
      radix 16, then the longest run of digits; NaN when that run is empty. */
  function ParseInt(s: string, radix: Radix): ParsedInt {
    var t := TrimStart(s);
    var u := Unsigned(t);
    var negative := |t| > 0 && t[0] == '-';
    if radix == Unspecified && HexPrefixed(u) then ReadDigits(u[2..], 16, negative)
    else ReadDigits(u, 10, negative)
  }

  /** The exponent of the ExponentPart that s starts with ('e' or 'E', an optional sign,
      at least one digit), or 0 when s starts with none. */
  function Exponent(s: string): int {
    if |s| >= 1 && (s[0] == 'e' || s[0] == 'E') then
      var negative := |s| >= 2 && s[1] == '-';
      var d := if |s| >= 2 && (s[1] == '+' || s[1] == '-') then s[2..] else s[1..];
      var n := DigitRun(d, 10);
      if n == 0 then 0
      else if negative then -(DigitsValue(d[..n], 10) as int)
      else DigitsValue(d[..n], 10)
    else 0
  }

  /** The value of the longest StrUnsignedDecimalLiteral that u starts with:
      "Infinity", or digits with an optional fraction and an optional exponent;
      NaN when u starts with none. */
  function UnsignedDecimal(u: string): Number {
    if |u| >= 8 && u[..8] == "Infinity" then Infinity(false)
    else
      var a := DigitRun(u, 10);
      var dot := a < |u| && u[a] == '.';
      var b := if dot then DigitRun(u[a + 1..], 10) else 0;
      if a == 0 && b == 0 then NaN
      else
        var fraction := if dot then DigitsValue(u[a + 1..a + 1 + b], 10) else 0;
        var mantissa := DigitsValue(u[..a], 10) as real + ScaleDown(fraction as real, b);
        var e := Exponent(u[if dot then a + 1 + b else a..]);
        Finite(Scale(mantissa, e))
  }

  /** parseFloat(s) as section 19.2.4 of ECMA-262 defines it: leading white space
      skipped, an optional sign, then the longest prefix that is an unsigned decimal
      literal; NaN when there is no such prefix. */
  function ParseFloat(s: string): Number {
    var t := TrimStart(s);
    var magnitude := UnsignedDecimal(Unsigned(t));
    if |t| > 0 && t[0] == '-' then Negate(magnitude) else magnitude
  }

  /** The decimal numeral of a natural number, most significant digit first. */
  function NatDigits(n: nat): (s: string)
    ensures |s| >= 1
  {
    if n < 10 then [('0' as int + n) as char]
    else NatDigits(n / 10) + [('0' as int + n % 10) as char]
  }

  /** A numeral is made of decimal digits. */
  lemma {:induction false} NatDigitsAreDigits(n: nat)
    ensures forall k :: 0 <= k < |NatDigits(n)| ==> '0' <= NatDigits(n)[k] <= '9'
  {
    if n >= 10 {
      NatDigitsAreDigits(n / 10);
      var s := NatDigits(n);
      forall k | 0 <= k < |s| - 1 ensures '0' <= s[k] <= '9' {
        assert s[k] == NatDigits(n / 10)[k];
      }
    }
  }

  /** The decimal numeral of an integer, with a leading '-' when it is negative. */
  function Decimal(n: int): string {
    if n < 0 then "-" + NatDigits(-n) else NatDigits(n)
  }

  /** True when s cannot extend a decimal digit run: it is empty or starts with a non-digit. */
  predicate EndsDigits(s: string) {
    |s| == 0 || !('0' <= s[0] <= '9')
  }

  lemma {:induction false} DigitsValueOfNatDigits(n: nat)
    ensures DigitsValue(NatDigits(n), 10) == n
  {
    if n >= 10 {
      DigitsValueOfNatDigits(n / 10);
      var s := NatDigits(n);
      assert s[..|s| - 1] == NatDigits(n / 10);
    }
  }

  lemma {:induction false} DigitRunOfDigits(d: string, rest: string)
    requires forall k :: 0 <= k < |d| ==> '0' <= d[k] <= '9'
    requires EndsDigits(rest)
    ensures DigitRun(d + rest, 10) == |d|
  {
    if |d| > 0 {
      DigitRunOfDigits(d[1..], rest);
      assert (d + rest)[1..] == d[1..] + rest;
    }
  }

  /** A string that does not start white is its own TrimStart. */
  lemma TrimStartNonWhite(s: string)
    requires |s| > 0 && !IsWhite(s[0])
    ensures TrimStart(s) == s
  {
    assert LeadingWhite(s) == 0;
  }

  lemma ReadDigitsDecimal(m: nat, rest: string, negative: bool)
    requires EndsDigits(rest)
    ensures ReadDigits(NatDigits(m) + rest, 10, negative) == Integer(if negative then -(m as int) else m)
  {
    var digits := NatDigits(m);
    NatDigitsAreDigits(m);
    DigitRunOfDigits(NatDigits(m), rest);
    assert (digits + rest)[..|digits|] == digits;
    DigitsValueOfNatDigits(m);
  }

  /** parseInt reads back the decimal numeral of any integer, whatever follows it that is
      not a digit (and, with the radix left out, not the 'x' of a hexadecimal prefix). */
  lemma ParseIntOfDigits(sign: string, d: string, rest: string, radix: Radix)
    requires sign == "" || sign == "-"
    requires |d| >= 1 && forall k :: 0 <= k < |d| ==> '0' <= d[k] <= '9'
    requires radix == Unspecified && d == "0" ==> |rest| == 0 || (rest[0] != 'x' && rest[0] != 'X')
    requires d[0] == '0' ==> d == "0"
    ensures ParseInt(sign + d + rest, radix) == ReadDigits(d + rest, 10, sign == "-")
  {
    var s := sign + d + rest;
    var u := d + rest;
    assert s[0] == if sign == "-" then '-' else d[0];
    TrimStartNonWhite(s);
    assert Unsigned(s) == u;
    assert !(radix == Unspecified && HexPrefixed(u)) by {
      if |d| >= 2 {
        assert u[1] == d[1];
      } else {
        assert u[0] == d[0];
      }
    }
  }

  lemma NatDigitsLeading(m: nat)
    ensures NatDigits(m)[0] == '0' ==> NatDigits(m) == "0"
  {
    if m >= 10 {
      NatDigitsLeading(m / 10);
      assert NatDigits(m)[0] == NatDigits(m / 10)[0];
    }
  }

  /** parseInt reads back the decimal numeral of any integer, whatever follows it that is
      not a digit (and, with the radix left out, not the 'x' of a hexadecimal prefix). */
  lemma ParseIntDecimal(n: int, rest: string, radix: Radix)
    requires EndsDigits(rest)
    requires radix == Unspecified && n == 0 ==> |rest| == 0 || (rest[0] != 'x' && rest[0] != 'X')
    ensures ParseInt(Decimal(n) + rest, radix) == Integer(n)
  {
    var m: nat := if n < 0 then -n else n;
    var sign := if n < 0 then "-" else "";
    assert Decimal(n) == sign + NatDigits(m);
    NatDigitsLeading(m);
    assert NatDigits(m) == "0" ==> m == 0;
    NatDigitsAreDigits(m);
    ParseIntOfDigits(sign, NatDigits(m), rest, radix);
    ReadDigitsDecimal(m, rest, n < 0);
  }

  lemma UnsignedDecimalDigits(m: nat, rest: string)
    requires EndsDigits(rest)
    requires |rest| == 0 || (rest[0] != '.' && rest[0] != 'e' && rest[0] != 'E')
    ensures UnsignedDecimal(NatDigits(m) + rest) == Finite(m as real)
  {
    var digits := NatDigits(m);
    var u := digits + rest;
    assert !(|u| >= 8 && u[..8] == "Infinity") by {
      NatDigitsAreDigits(m);
      assert u[0] == digits[0];
      if |u| >= 8 {
        assert u[..8][0] == u[0];
      }
    }
    assert DigitRun(u, 10) == |digits| by {
      NatDigitsAreDigits(m);
      DigitRunOfDigits(digits, rest);
    }
    assert !(|digits| < |u| && u[|digits|] == '.') by {
      if |digits| < |u| { assert u[|digits|] == rest[0]; }
    }
    assert DigitsValue(u[..|digits|], 10) == m by {
      assert u[..|digits|] == digits;
      DigitsValueOfNatDigits(m);
    }
    assert Exponent(u[|digits|..]) == 0 by {
      assert u[|digits|..] == rest;
    }
    assert ScaleUp(m as real + ScaleDown(0 as real, 0), 0) == m as real;
  }

  /** parseFloat reads back the decimal numeral of any integer, whatever follows it that
      cannot continue a decimal literal. */
  lemma ParseFloatDecimal(n: int, rest: string)
    requires EndsDigits(rest)
    requires |rest| == 0 || (rest[0] != '.' && rest[0] != 'e' && rest[0] != 'E')
    ensures ParseFloat(Decimal(n) + rest) == Finite(n as real)
  {
    var m: nat := if n < 0 then -n else n;
    var sign := if n < 0 then "-" else "";
    var d := NatDigits(m);
    NatDigitsAreDigits(m);
    assert Decimal(n) + rest == sign + d + rest;
    ParseFloatOfDigits(sign, d, rest, Decimal(n) + rest, d + rest);
    UnsignedDecimalDigits(m, rest);
  }

  lemma ParseFloatOfDigits(sign: string, d: string, rest: string, s: string, u: string)
    requires sign == "" || sign == "-"
    requires |d| >= 1 && '0' <= d[0] <= '9'
    requires s == sign + d + rest && u == d + rest
    ensures ParseFloat(s) == if sign == "-" then Negate(UnsignedDecimal(u)) else UnsignedDecimal(u)
  {
    assert s[0] == if sign == "-" then '-' else d[0];
    TrimStartNonWhite(s);
    assert Unsigned(s) == u;
  }

  /** An ExponentPart: 'e' or 'E', an optional sign and the numeral of k, followed by
      anything that cannot continue it, stands for the exponent k with that sign. */
  lemma ExponentOf(marker: char, sign: string, k: nat, rest: string, s: string)
    requires marker == 'e' || marker == 'E'
    requires sign == "" || sign == "+" || sign == "-"
    requires EndsDigits(rest)
    requires s == [marker] + sign + NatDigits(k) + rest
    ensures Exponent(s) == if sign == "-" then -(k as int) else k
  {
    var d := s[1 + |sign|..];
    var n := |NatDigits(k)|;
    ExponentCuts(marker, sign, k, rest, s, d, n);
    ExponentParts(s, d, n, k, sign == "-");
  }

  lemma ExponentCuts(marker: char, sign: string, k: nat, rest: string, s: string, d: string, n: nat)
    requires marker == 'e' || marker == 'E'
    requires sign == "" || sign == "+" || sign == "-"
    requires EndsDigits(rest)
    requires s == [marker] + sign + NatDigits(k) + rest
    requires d == s[1 + |sign|..] && n == |NatDigits(k)|
    ensures |s| >= 1 && (s[0] == 'e' || s[0] == 'E')
    ensures d == if |s| >= 2 && (s[1] == '+' || s[1] == '-') then s[2..] else s[1..]
    ensures (sign == "-") == (|s| >= 2 && s[1] == '-')
    ensures DigitRun(d, 10) == n >= 1 && DigitsValue(d[..n], 10) == k
  {
    var digits := NatDigits(k);
    NatDigitsAreDigits(k);
    SignedTail(marker, sign, digits, rest, s, d);
    DigitsThenRest(digits, rest, d, n);
    DigitsValueOfNatDigits(k);
  }

  /** After the marker and the optional sign come the digits and the rest. */
  lemma SignedTail(marker: char, sign: string, digits: string, rest: string, s: string, d: string)
    requires sign == "" || sign == "+" || sign == "-"
    requires |digits| >= 1 && '0' <= digits[0] <= '9'
    requires s == [marker] + sign + digits + rest && d == s[1 + |sign|..]
    ensures |s| >= 2 && s[0] == marker && d == digits + rest
    ensures s[1] == if sign == "" then digits[0] else sign[0]
  {
    assert s == [marker] + (sign + (digits + rest));
  }

  /** A digit run followed by a non-digit: its length and its value. */
  lemma DigitsThenRest(digits: string, rest: string, d: string, n: nat)
    requires forall k :: 0 <= k < |digits| ==> '0' <= digits[k] <= '9'
    requires EndsDigits(rest) && d == digits + rest && n == |digits|
    ensures DigitRun(d, 10) == n && d[..n] == digits
  {
    DigitRunOfDigits(digits, rest);
  }

  /** Exponent on a string cut into its marker, its sign and its digit run. */
  lemma ExponentParts(s: string, d: string, n: nat, v: nat, negative: bool)
    requires |s| >= 1 && (s[0] == 'e' || s[0] == 'E')
    requires d == if |s| >= 2 && (s[1] == '+' || s[1] == '-') then s[2..] else s[1..]
    requires negative == (|s| >= 2 && s[1] == '-')
    requires DigitRun(d, 10) == n >= 1 && DigitsValue(d[..n], 10) == v
    ensures Exponent(s) == if negative then -(v as int) else v
  {
  }

  /** Digits, a '.', at least one fraction digit and an optional exponent: the value
      m + f / 10^|f|, scaled by the exponent that follows the fraction. */
  lemma UnsignedDecimalFraction(m: nat, f: string, tail: string, u: string)
    requires |f| >= 1 && forall k :: 0 <= k < |f| ==> '0' <= f[k] <= '9'
    requires EndsDigits(tail)
    requires u == NatDigits(m) + "." + f + tail
    ensures UnsignedDecimal(u) ==
      Finite(Scale(m as real + ScaleDown(DigitsValue(f, 10) as real, |f|), Exponent(tail)))
  {
    var digits := NatDigits(m);
    NatDigitsAreDigits(m);
    DigitsValueOfNatDigits(m);
    FractionOfDigits(digits, m, f, tail, u, |digits|, |f|,
      Finite(Scale(m as real + ScaleDown(DigitsValue(f, 10) as real, |f|), Exponent(tail))));
  }

  /** UnsignedDecimal of digits "." f tail, with the run lengths a and b passed in. */
  lemma FractionOfDigits(digits: string, m: nat, f: string, tail: string, u: string, a: nat, b: nat, x: Number)
    requires |digits| >= 1 && forall k :: 0 <= k < |digits| ==> '0' <= digits[k] <= '9'
    requires DigitsValue(digits, 10) == m
    requires |f| >= 1 && forall k :: 0 <= k < |f| ==> '0' <= f[k] <= '9'
    requires EndsDigits(tail)
    requires u == digits + "." + f + tail
    requires a == |digits| && b == |f|
    requires x == Finite(Scale(m as real + ScaleDown(DigitsValue(f, 10) as real, |f|), Exponent(tail)))
    ensures UnsignedDecimal(u) == x
  {
    FractionCuts(digits, f, tail, u, a, b);
    FractionOfCuts(u, a, b, digits, m, f, tail, x);
  }

  /** UnsignedDecimal from the cut facts of FractionCuts. */
  lemma FractionOfCuts(u: string, a: nat, b: nat, digits: string, m: nat, f: string, tail: string, x: Number)
    requires |u| >= 1 && '0' <= u[0] <= '9'
    requires DigitRun(u, 10) == a && a < |u| && u[a] == '.'
    requires DigitRun(u[a + 1..], 10) == b >= 1
    requires u[..a] == digits && u[a + 1..a + 1 + b] == f && u[a + 1 + b..] == tail
    requires DigitsValue(digits, 10) == m && |f| == b
    requires x == Finite(Scale(m as real + ScaleDown(DigitsValue(f, 10) as real, |f|), Exponent(tail)))
    ensures UnsignedDecimal(u) == x
  {
    FractionValue(u, a, b, digits, m, f, tail, x);
    FractionParts(u, a, b, x);
  }

  /** Where the digit runs of digits + "." + f + tail end. */
  lemma FractionCuts(digits: string, f: string, tail: string, u: string, a: nat, b: nat)
    requires |digits| >= 1 && forall k :: 0 <= k < |digits| ==> '0' <= digits[k] <= '9'
    requires |f| >= 1 && forall k :: 0 <= k < |f| ==> '0' <= f[k] <= '9'
    requires EndsDigits(tail)
    requires u == digits + "." + f + tail
    requires a == |digits| && b == |f|
    ensures |u| >= 1 && '0' <= u[0] <= '9'
    ensures DigitRun(u, 10) == a && a < |u| && u[a] == '.'
    ensures DigitRun(u[a + 1..], 10) == b >= 1
    ensures u[..a] == digits && u[a + 1..a + 1 + b] == f && u[a + 1 + b..] == tail
  {
    var v := f + tail;
    var w := "." + v;
    Reassociate(digits, f, tail, u, v, w);
    WholeCut(digits, w, u, a);
    DropDot(u, a, w, v);
    DigitRunOfDigits(f, tail);
    SliceOfSlice(u, a + 1, b, f, tail);
  }

  /** Regroups the numeral digits "." f tail as digits followed by the part from the dot on. */
  lemma Reassociate(digits: string, f: string, tail: string, u: string, v: string, w: string)
    requires u == digits + "." + f + tail && v == f + tail && w == "." + v
    ensures u == digits + w
  {
  }

  /** Past the dot at position a comes the rest v. */
  lemma DropDot(u: string, a: nat, w: string, v: string)
    requires a <= |u| && u[a..] == w && w == "." + v
    ensures a + 1 <= |u| && u[a + 1..] == v
  {
    assert u[a + 1..] == u[a..][1..];
  }

  /** The digit run of digits + w, when w starts with '.', is digits. */
  lemma WholeCut(digits: string, w: string, u: string, a: nat)
    requires |digits| >= 1 && forall k :: 0 <= k < |digits| ==> '0' <= digits[k] <= '9'
    requires |w| >= 1 && w[0] == '.'
    requires u == digits + w && a == |digits|
    ensures |u| >= 1 && '0' <= u[0] <= '9'
    ensures DigitRun(u, 10) == a && a < |u| && u[a] == '.'
    ensures u[..a] == digits && u[a..] == w
  {
    assert u[0] == digits[0];
    DigitRunOfDigits(digits, w);
  }

  /** A suffix f + tail of u at i splits at i + |f| into f and tail. */
  lemma SliceOfSlice(u: string, i: nat, b: nat, f: string, tail: string)
    requires i <= |u| && u[i..] == f + tail && |f| == b
    ensures u[i..i + b] == f && u[i + b..] == tail
  {
    assert u[i..][..b] == u[i..i + b];
    assert u[i..][b..] == u[i + b..];
  }

  /** The value FractionParts names, in terms of the pieces of u. */
  lemma FractionValue(u: string, a: nat, b: nat, digits: string, m: nat, f: string, tail: string, x: Number)
    requires a < |u| && a + 1 + b <= |u| && |f| == b
    requires u[..a] == digits && u[a + 1..a + 1 + b] == f && u[a + 1 + b..] == tail
    requires DigitsValue(digits, 10) == m
    requires x == Finite(Scale(m as real + ScaleDown(DigitsValue(f, 10) as real, |f|), Exponent(tail)))
    ensures x == Finite(Scale(
      DigitsValue(u[..a], 10) as real + ScaleDown(DigitsValue(u[a + 1..a + 1 + b], 10) as real, b),
      Exponent(u[a + 1 + b..])))
  {
  }

  /** UnsignedDecimal on a string cut into its digit run, '.', fraction run and the rest. */
  lemma FractionParts(u: string, a: nat, b: nat, x: Number)
    requires |u| >= 1 && '0' <= u[0] <= '9'
    requires DigitRun(u, 10) == a && a < |u| && u[a] == '.'
    requires DigitRun(u[a + 1..], 10) == b >= 1
    requires x == Finite(Scale(
      DigitsValue(u[..a], 10) as real + ScaleDown(DigitsValue(u[a + 1..a + 1 + b], 10) as real, b),
      Exponent(u[a + 1 + b..])))
    ensures UnsignedDecimal(u) == x
  {
    assert !(|u| >= 8 && u[..8] == "Infinity") by {
      if |u| >= 8 {
        assert u[..8][0] == u[0];
      }
    }
  }

  /** parseFloat of an optionally negative decimal with a fraction and an optional
      exponent. */
  lemma ParseFloatFraction(sign: string, m: nat, f: string, tail: string, s: string)
    requires sign == "" || sign == "-"
    requires |f| >= 1 && forall k :: 0 <= k < |f| ==> '0' <= f[k] <= '9'
    requires EndsDigits(tail)
    requires s == sign + NatDigits(m) + "." + f + tail
    ensures var v := Scale(m as real + ScaleDown(DigitsValue(f, 10) as real, |f|), Exponent(tail));
      ParseFloat(s) == Finite(if sign == "-" then -v else v)
  {
    var digits := NatDigits(m);
    NatDigitsAreDigits(m);
    var rest := "." + f + tail;
    var u := digits + rest;
    SignedPieces(sign, digits, f, tail, s, rest, u);
    ParseFloatOfDigits(sign, digits, rest, s, u);
    UnsignedDecimalFraction(m, f, tail, u);
  }

  /** The signed numeral cut as sign, digits and the rest from the dot on. */
  lemma SignedPieces(sign: string, digits: string, f: string, tail: string, s: string, rest: string, u: string)
    requires s == sign + digits + "." + f + tail && rest == "." + f + tail && u == digits + rest
    ensures s == sign + digits + rest && u == digits + "." + f + tail
  {
  }

  /** parseFloat("1.5") is 1.5. */
  lemma ParseFloatOneAndAHalf(s: string)
    requires s == "1.5"
    ensures ParseFloat(s) == Finite(1.5)
  {
    assert NatDigits(1) == "1";
    assert s == "" + NatDigits(1) + "." + "5" + "";
    ParseFloatFraction("", 1, "5", "", s);
    assert DigitsValue("5", 10) == 5;
  }

  /** parseFloat("-2.5e-1") is -0.25: a sign, a fraction and a negative exponent. */
  lemma ParseFloatNegativeExponent(s: string)
    requires s == "-2.5e-1"
    ensures ParseFloat(s) == Finite(-0.25)
  {
    NegativeExponentPieces(s);
    NegativeExponentValue(2, "5", "e-1");
    NegativeFraction(2, "5", "e-1", s, 0.25);
  }

  /** ParseFloatFraction for a negative sign, with the magnitude passed in. */
  lemma NegativeFraction(m: nat, f: string, tail: string, s: string, v: real)
    requires |f| >= 1 && forall k :: 0 <= k < |f| ==> '0' <= f[k] <= '9'
    requires EndsDigits(tail)
    requires s == "-" + NatDigits(m) + "." + f + tail
    requires Scale(m as real + ScaleDown(DigitsValue(f, 10) as real, |f|), Exponent(tail)) == v
    ensures ParseFloat(s) == Finite(-v)
  {
    ParseFloatFraction("-", m, f, tail, s);
  }

  /** "-2.5e-1" cut into sign, whole digits, fraction digits and exponent. */
  lemma NegativeExponentPieces(s: string)
    requires s == "-2.5e-1"
    ensures |"5"| >= 1 && forall k :: 0 <= k < |"5"| ==> '0' <= "5"[k] <= '9'
    ensures EndsDigits("e-1")
    ensures s == "-" + NatDigits(2) + "." + "5" + "e-1"
  {
    assert NatDigits(2) == "2";
  }

  /** The value of 2.5 scaled by the exponent of "e-1". */
  lemma NegativeExponentValue(m: nat, f: string, tail: string)
    requires m == 2 && f == "5" && tail == "e-1"
    ensures Scale(m as real + ScaleDown(DigitsValue(f, 10) as real, |f|), Exponent(tail)) == 0.25
  {
    assert DigitsValue(f, 10) == 5;
    assert ScaleDown(5.0, 1) == 0.5;
    assert NatDigits(1) == "1";
    assert tail == ['e'] + "-" + NatDigits(1) + "";
    ExponentOf('e', "-", 1, "", tail);
    assert Scale(2.5, -1) == ScaleDown(2.5, 1) == 0.25;
  }

  /** With no radix a "0x" prefix reads hexadecimal digits; with radix 10 the same string
      is the numeral 0 followed by a non-digit. */
  lemma ParseIntHex(s: string)
    requires s == "0x1F"
    ensures ParseInt(s, Unspecified) == Integer(31)
    ensures ParseInt(s, Ten) == Integer(0)
  {
    TrimStartNonWhite(s);
    assert Unsigned(s) == s && HexPrefixed(s);
    var hex := s[2..];
    assert hex == "1F" && hex[1..] == "F" && hex[1..][1..] == "";
    assert DigitOf('1') == 1 && DigitOf('F') == 15 && DigitOf('x') == 33;
    assert DigitRun(hex, 16) == 2;
    assert hex[..2] == hex && hex[..1] == "1" && hex[..1][..0] == "";
    assert DigitsValue(hex[..1], 16) == 1;
    assert DigitsValue(hex, 16) == DigitsValue(hex[..1], 16) * 16 + DigitOf(hex[1]) == 31;
    assert s[1..] == "x1F";
    assert DigitRun(s, 10) == 1;
    assert s[..1] == "0";
    assert DigitsValue("0", 10) == 0;
  }
}
