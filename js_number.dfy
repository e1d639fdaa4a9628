/** The conversion ECMAScript applies when a string is compared with a number, as in
    `password > 20`: StringToNumber (section 7.1.4.1.1 of ECMA-262, grammar
    StringNumericLiteral of section 7.1.4.1). */
module JsNumber {
  import opened Wrappers
  import opened Strings

  /** A Number value. Finite values are kept exact: IEEE-754 rounding is not modelled. */
  datatype Number = NaN | PositiveInfinity | NegativeInfinity | Finite(value: real)

  /** StrWhiteSpaceChar: a WhiteSpace or LineTerminator code point (sections 12.2 and 12.3 of ECMA-262). */
  predicate IsStrWhiteSpaceChar(c: char) {
    c == '\t' || c == '\U{000B}' || c == '\U{000C}' || c == ' ' || c == '\U{00A0}' || c == '\U{FEFF}'
    || c == '\U{1680}' || '\U{2000}' <= c <= '\U{200A}' || c == '\U{202F}' || c == '\U{205F}' || c == '\U{3000}'
    || c == '\n' || c == '\r' || c == '\U{2028}' || c == '\U{2029}'
  }

  function TrimStart(s: string): (t: string)
    ensures |t| <= |s| && t == s[|s| - |t|..]
    ensures |t| > 0 ==> !IsStrWhiteSpaceChar(t[0])
    ensures forall i :: 0 <= i < |s| - |t| ==> IsStrWhiteSpaceChar(s[i])
  {
    if |s| > 0 && IsStrWhiteSpaceChar(s[0]) then TrimStart(s[1..]) else s
  }

  function TrimEnd(s: string): (t: string)
    ensures |t| <= |s| && t == s[..|t|]
    ensures |t| > 0 ==> !IsStrWhiteSpaceChar(t[|t| - 1])
    ensures forall i :: |t| <= i < |s| ==> IsStrWhiteSpaceChar(s[i])
  {
    if |s| > 0 && IsStrWhiteSpaceChar(s[|s| - 1]) then TrimEnd(s[..|s| - 1]) else s
  }

  /** `TrimStart` drops exactly the leading run of white space. */
  lemma TrimStartDrops(s: string, n: nat)
    requires n <= |s|
    requires forall i :: 0 <= i < n ==> IsStrWhiteSpaceChar(s[i])
    requires n < |s| ==> !IsStrWhiteSpaceChar(s[n])
    ensures TrimStart(s) == s[n..]
  {
  }

  /** The string without leading and trailing StrWhiteSpace. */
  function Trim(s: string): string {
    TrimEnd(TrimStart(s))
  }
  /** A string with no white space at either end is its own trim. */
  lemma TrimOfUnpadded(s: string)
    requires |s| > 0 ==> !IsStrWhiteSpaceChar(s[0]) && !IsStrWhiteSpaceChar(s[|s| - 1])
    ensures Trim(s) == s
  {
    TrimStartDrops(s, 0);
    assert s[0..] == s;
  }


  /** The value of `c` as a digit in bases up to 16; 16 for a character that is no digit. */
  function DigitOf(c: char): (d: nat)
    ensures d <= 16
  {
    if '0' <= c <= '9' then c as int - '0' as int
    else if 'a' <= c <= 'f' then c as int - 'a' as int + 10
    else if 'A' <= c <= 'F' then c as int - 'A' as int + 10
    else 16
  }

  predicate AllDigitsIn(s: string, base: nat) {
    forall i :: 0 <= i < |s| ==> DigitOf(s[i]) < base
  }

  /** The value of a string of digits in `base`, most significant digit first. */
  function ValueIn(s: string, base: nat): nat
    requires AllDigitsIn(s, base)
  {
    if |s| == 0 then 0 else ValueIn(s[..|s| - 1], base) * base + DigitOf(s[|s| - 1])
  }

  /** Length of the longest prefix of `s` made of decimal digits. */
  function DigitRun(s: string): (n: nat)
    ensures n <= |s| && AllDigitsIn(s[..n], 10)
    ensures n < |s| ==> DigitOf(s[n]) >= 10
  {
    if |s| > 0 && DigitOf(s[0]) < 10 then 1 + DigitRun(s[1..]) else 0
  }

  function Pow10(n: nat): (p: real)
    ensures p >= 1.0
  {
    if n == 0 then 1.0 else 10.0 * Pow10(n - 1)
  }

  /** SignedInteger spanning all of `s`: an optional sign, then at least one digit. */
  function Exponent(s: string): Option<int> {
    var signed := |s| > 0 && (s[0] == '+' || s[0] == '-');
    var digits := if signed then s[1..] else s;
    if |digits| > 0 && AllDigitsIn(digits, 10) then
      Some(if signed && s[0] == '-' then -(ValueIn(digits, 10) as int) else ValueIn(digits, 10))
    else None
  }

  /** A decimal literal cut into its leading digits, an optional point, the digits after
      the point, and whatever follows (where an exponent may stand). */
  datatype DecimalParts = DecimalParts(whole: string, hasPoint: bool, fraction: string, rest: string)

  function SplitDecimal(u: string): (p: DecimalParts)
    ensures u == p.whole + (if p.hasPoint then "." else "") + p.fraction + p.rest
    ensures AllDigitsIn(p.whole, 10) && AllDigitsIn(p.fraction, 10)
  {
    var i := DigitRun(u);
    var afterWhole := u[i..];
    if |afterWhole| > 0 && afterWhole[0] == '.' then
      var afterPoint := afterWhole[1..];
      var j := DigitRun(afterPoint);
      assert u == u[..i] + "." + afterPoint[..j] + afterPoint[j..];
      DecimalParts(u[..i], true, afterPoint[..j], afterPoint[j..])
    else
      assert u == u[..i] + "" + "" + afterWhole;
      DecimalParts(u[..i], false, "", afterWhole)
  }

  /** StrUnsignedDecimalLiteral other than `Infinity`:
      DecimalDigits [`.` [DecimalDigits]] [ExponentPart] or `.` DecimalDigits [ExponentPart]. */
  function UnsignedDecimal(u: string): Number {
    var p := SplitDecimal(u);
    if |p.whole| + |p.fraction| == 0 then NaN
    else
      var mantissa := ValueIn(p.whole, 10) as real + ValueIn(p.fraction, 10) as real / Pow10(|p.fraction|);
      if p.rest == "" then Finite(mantissa)
      else if p.rest[0] == 'e' || p.rest[0] == 'E' then
        match Exponent(p.rest[1..])
        case None => NaN
        case Some(e) => Finite(if e >= 0 then mantissa * Pow10(e) else mantissa / Pow10(-e))
      else NaN
  }

  function Unsigned(u: string): Number {
    if u == "Infinity" then PositiveInfinity else UnsignedDecimal(u)
  }

  function Negate(n: Number): Number {
    match n
    case NaN => NaN
    case PositiveInfinity => NegativeInfinity
    case NegativeInfinity => PositiveInfinity
    case Finite(v) => Finite(-v)
  }

  /** StrDecimalLiteral: an optional sign before StrUnsignedDecimalLiteral. */
  function StrDecimalLiteral(t: string): Number {
    if |t| > 0 && t[0] == '+' then Unsigned(t[1..])
    else if |t| > 0 && t[0] == '-' then Negate(Unsigned(t[1..]))
    else Unsigned(t)
  }

  /** The base a NonDecimalIntegerLiteral prefix letter selects, 0 for any other character. */
  function PrefixBase(c: char): nat {
    if c == 'x' || c == 'X' then 16
    else if c == 'o' || c == 'O' then 8
    else if c == 'b' || c == 'B' then 2
    else 0
  }

  /** StrNumericLiteral: `0x`, `0o` or `0b` followed by digits of that base, or StrDecimalLiteral. */
  function StrNumericLiteral(t: string): Number {
    if |t| >= 2 && t[0] == '0' && PrefixBase(t[1]) > 0 then
      if |t| > 2 && AllDigitsIn(t[2..], PrefixBase(t[1])) then Finite(ValueIn(t[2..], PrefixBase(t[1])) as real)
      else NaN
    else StrDecimalLiteral(t)
  }

  /** StringToNumber: white space alone is 0, a StringNumericLiteral its value, anything else NaN. */
  function StringToNumber(s: string): Number {
    var t := Trim(s);
    if t == "" then Finite(0.0) else StrNumericLiteral(t)
  }

  /** The relational comparison `n > bound` of a Number with a finite bound: NaN compares false. */
  predicate GreaterThan(n: Number, bound: real) {
    match n
    case NaN => false
    case PositiveInfinity => true
    case NegativeInfinity => false
    case Finite(v) => v > bound
  }

  /** A literal in hexadecimal notation: `0x` or `0X`, then at least one hexadecimal digit. */
  predicate IsHexLiteral(t: string) {
    |t| > 2 && t[0] == '0' && (t[1] == 'x' || t[1] == 'X') && AllDigitsIn(t[2..], 16)
  }

  /** A string that is a hexadecimal literal once trimmed converts to that literal's value. */
  lemma HexLiteralValue(s: string)
    requires IsHexLiteral(Trim(s))
    ensures StringToNumber(s) == Finite(ValueIn(Trim(s)[2..], 16) as real)
  {
  }

  /** A string whose first non-blank character cannot begin a numeric literal
      (a digit, `.`, a sign or the `I` of `Infinity`) converts to NaN. */
  lemma NaNUnlessNumericStart(s: string)
    requires |Trim(s)| > 0
    requires !IsDigit(Trim(s)[0]) && Trim(s)[0] !in ".+-I"
    ensures StringToNumber(s) == NaN
  {
    var t := Trim(s);
    assert t != "Infinity";
    assert DigitRun(t) == 0;
    assert t[0..] == t;
  }

  /** Trimming removes blanks only: a non-blank character of `s` is kept, at a known offset. */
  lemma TrimKeeps(s: string, i: int)
    requires 0 <= i < |s| && !IsStrWhiteSpaceChar(s[i])
    ensures var off := |s| - |TrimStart(s)|; off <= i < off + |Trim(s)| && Trim(s)[i - off] == s[i]
  {
    var t1 := TrimStart(s);
    var off := |s| - |t1|;
    assert t1[i - off] == s[i];
  }

  /** Trimming keeps every letter and digit. */
  lemma TrimKeepsClasses(s: string)
    ensures HasLower(s) ==> HasLower(Trim(s))
    ensures HasUpper(s) ==> HasUpper(Trim(s))
    ensures HasDigit(s) ==> HasDigit(Trim(s))
  {
    if HasLower(s) {
      var i :| 0 <= i < |s| && IsLower(s[i]);
      TrimKeepsAt(s, i);
    }
    if HasUpper(s) {
      var i :| 0 <= i < |s| && IsUpper(s[i]);
      TrimKeepsAt(s, i);
    }
    if HasDigit(s) {
      var i :| 0 <= i < |s| && IsDigit(s[i]);
      TrimKeepsAt(s, i);
    }
  }

  /** A letter or digit of `s` reappears in `Trim(s)`. */
  lemma TrimKeepsAt(s: string, i: int)
    requires 0 <= i < |s| && (IsLetter(s[i]) || IsDigit(s[i]))
    ensures exists k :: 0 <= k < |Trim(s)| && Trim(s)[k] == s[i]
  {
    assert !IsStrWhiteSpaceChar(s[i]);
    TrimKeeps(s, i);
    var off := |s| - |TrimStart(s)|;
    assert Trim(s)[i - off] == s[i];
  }

  /** An exponent holds a sign and digits, no letter. */
  lemma ExponentHasNoLetter(r: string)
    requires Exponent(r).Some?
    ensures forall i :: 0 <= i < |r| ==> !IsLetter(r[i])
  {
    var signed := |r| > 0 && (r[0] == '+' || r[0] == '-');
    var digits := if signed then r[1..] else r;
    forall i | 0 <= i < |r| ensures !IsLetter(r[i]) {
      if !(signed && i == 0) {
        var k := if signed then i - 1 else i;
        assert r[i] == digits[k];
        assert DigitOf(digits[k]) < 10;
      }
    }
  }

  /** A decimal literal (whose digits may be followed only by an exponent part) has at
      most one letter: its exponent marker. */
  lemma DecimalHasOneLetterAtMost(u: string)
    requires SplitDecimal(u).rest == "" || Exponent(SplitDecimal(u).rest[1..]).Some?
    ensures forall i, j :: 0 <= i < j < |u| ==> !(IsLetter(u[i]) && IsLetter(u[j]))
  {
    var p := SplitDecimal(u);
    ExponentTailHasNoLetter(p.rest);
    PartsHaveOneLetterAtMost(p, u);
  }

  /** What follows the digits of a decimal literal is nothing, or a marker and an exponent. */
  lemma DecimalRestShape(u: string)
    requires UnsignedDecimal(u) != NaN
    ensures SplitDecimal(u).rest == "" || Exponent(SplitDecimal(u).rest[1..]).Some?
  {
  }

  /** After its first character, an exponent part has no letter. */
  lemma ExponentTailHasNoLetter(rest: string)
    requires rest == "" || Exponent(rest[1..]).Some?
    ensures forall i :: 1 <= i < |rest| ==> !IsLetter(rest[i])
  {
    if rest != "" {
      ExponentHasNoLetter(rest[1..]);
      forall i | 1 <= i < |rest| ensures !IsLetter(rest[i]) {
        assert rest[i] == rest[1..][i - 1];
      }
    }
  }

  lemma OneLetterIsNotMixedCase(u: string)
    requires forall i, j :: 0 <= i < j < |u| ==> !(IsLetter(u[i]) && IsLetter(u[j]))
    ensures !(HasLower(u) && HasUpper(u))
  {
  }

  /** Digits, a point, digits, then one character followed by no letter: one letter at most. */
  lemma PartsHaveOneLetterAtMost(p: DecimalParts, u: string)
    requires AllDigitsIn(p.whole, 10) && AllDigitsIn(p.fraction, 10)
    requires forall i :: 1 <= i < |p.rest| ==> !IsLetter(p.rest[i])
    requires u == p.whole + (if p.hasPoint then "." else "") + p.fraction + p.rest
    ensures forall i, j :: 0 <= i < j < |u| ==> !(IsLetter(u[i]) && IsLetter(u[j]))
  {
    var prefix := p.whole + (if p.hasPoint then "." else "") + p.fraction;
    assert u == prefix + p.rest;
    forall i | 0 <= i < |prefix| ensures !IsLetter(prefix[i]) {
      var w := |p.whole|;
      var f := w + (if p.hasPoint then 1 else 0);
      if i < w {
        assert prefix[i] == p.whole[i] && DigitOf(p.whole[i]) < 10;
      } else if i >= f {
        assert prefix[i] == p.fraction[i - f] && DigitOf(p.fraction[i - f]) < 10;
      }
    }
    forall i | 0 <= i < |u| && i != |prefix| ensures !IsLetter(u[i]) {
      if i < |prefix| {
        assert u[i] == prefix[i];
      } else {
        assert u[i] == p.rest[i - |prefix|];
      }
    }
  }

  /** A string that holds a lower-case letter, an upper-case letter and a digit and still
      converts to a number is, once trimmed, a hexadecimal literal: a decimal literal has at
      most one letter, `Infinity` has no digit, and `0o`, `0b` literals have one letter. */
  lemma MixedCaseNumberIsHex(s: string)
    requires HasLower(s) && HasUpper(s) && HasDigit(s)
    requires StringToNumber(s) != NaN
    ensures IsHexLiteral(Trim(s))
  {
    TrimKeepsClasses(s);
    var t := Trim(s);
    assert t != "";
    assert StrNumericLiteral(t) != NaN;
    if |t| >= 2 && t[0] == '0' && PrefixBase(t[1]) > 0 {
      NonDecimalMixedCaseIsHex(t);
    } else {
      assert StrDecimalLiteral(t) != NaN;
      DecimalIsNotMixedCase(t);
    }
  }

  /** For a string holding a lower-case letter, an upper-case letter and a digit, `n > bound`
      after conversion holds exactly when it is a hexadecimal literal worth more than the bound. */
  lemma MixedCaseAbove(s: string, bound: real)
    requires HasLower(s) && HasUpper(s) && HasDigit(s)
    ensures GreaterThan(StringToNumber(s), bound) <==>
      IsHexLiteral(Trim(s)) && ValueIn(Trim(s)[2..], 16) as real > bound
  {
    if IsHexLiteral(Trim(s)) {
      HexLiteralValue(s);
    } else if StringToNumber(s) != NaN {
      MixedCaseNumberIsHex(s);
      assert false;
    }
  }

  /** A `0x`, `0o` or `0b` literal with letters of both cases is a `0x` literal. */
  lemma NonDecimalMixedCaseIsHex(t: string)
    requires HasLower(t) && HasUpper(t)
    requires |t| > 2 && t[0] == '0' && PrefixBase(t[1]) > 0 && AllDigitsIn(t[2..], PrefixBase(t[1]))
    ensures t[1] == 'x' || t[1] == 'X'
  {
    var lo :| 0 <= lo < |t| && IsLower(t[lo]);
    var up :| 0 <= up < |t| && IsUpper(t[up]);
    if PrefixBase(t[1]) != 16 {
      assert false;
    }
  }

  lemma InfinityHasNoDigit()
    ensures !HasDigit("Infinity")
  {
  }

  /** No decimal literal, signed or not, has a lower-case letter, an upper-case letter and a digit. */
  lemma DecimalIsNotMixedCase(t: string)
    requires HasLower(t) && HasUpper(t) && HasDigit(t)
    ensures StrDecimalLiteral(t) == NaN
  {
    var lo :| 0 <= lo < |t| && IsLower(t[lo]);
    var up :| 0 <= up < |t| && IsUpper(t[up]);
    var dg :| 0 <= dg < |t| && IsDigit(t[dg]);
    var signed := t[0] == '+' || t[0] == '-';
    var u := if signed then t[1..] else t;
    var shift := if signed then 1 else 0;
    assert lo >= shift && up >= shift && dg >= shift;
    assert u[lo - shift] == t[lo] && u[up - shift] == t[up] && u[dg - shift] == t[dg];
    assert HasLower(u) && HasUpper(u) && HasDigit(u);
    InfinityHasNoDigit();
    assert u != "Infinity";
    if UnsignedDecimal(u) != NaN {
      DecimalRestShape(u);
      DecimalHasOneLetterAtMost(u);
      OneLetterIsNotMixedCase(u);
      assert false;
    }
    assert Unsigned(u) == NaN;
  }
}
