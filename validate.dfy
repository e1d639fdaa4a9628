/** The validators of utils/validate.js: `isName`, `isEmail` and `isStrongPassword`.
    Each returns normally or throws an error with status code 400 and status word FAIL;
    the first failing check decides the message. `IsName` and `IsStrongPassword` model the
    code as written; `IsNameFixed` and `IsStrongPasswordFixed` do what its messages say. */
module Validate {
  import opened Wrappers
  import opened Strings
  import opened Errors
  import JsNumber

  /** The error every check of this file throws. */
  function Rejection(message: string): AppError {
    Create(message, 400, FAIL)
  }

  // ---------------------------------------------------------------- isName

  function CapitalMessage(name: string): string { "first letter must be capital in " + name }
  function LettersOnlyMessage(name: string): string { name + " must contain letters only" }
  function NameLengthMessage(name: string): string { name + " length must be between 3 and 20 characters" }

  /** `/[A-Z]/.test(name[0])`. On the empty string `name[0]` is undefined, which the
      regular expression reads as the text "undefined": no capital, so the test fails. */
  predicate StartsWithCapital(name: string) {
    |name| > 0 && IsUpper(name[0])
  }

  predicate NameLengthOk(name: string) {
    3 <= |name| <= 20
  }

  /** `isName` as written: the second check only asks for one letter anywhere. */
  function IsName(name: string): (r: Outcome)
    ensures r.Fail? ==> r.error.statusCode == Some(400) && r.error.statusText == Some(FAIL)
  {
    if !StartsWithCapital(name) then Fail(Rejection(CapitalMessage(name)))
    else if !HasLetter(name) then Fail(Rejection(LettersOnlyMessage(name)))
    else if !NameLengthOk(name) then Fail(Rejection(NameLengthMessage(name)))
    else Pass
  }

  /** The letters check never decides: a capital first character is a letter. So `isName`
      rejects for the capital rule, then for the length rule, and accepts everything else. */
  lemma IsNameVerdict(name: string)
    ensures IsName(name) ==
      if !StartsWithCapital(name) then Fail(Rejection(CapitalMessage(name)))
      else if !NameLengthOk(name) then Fail(Rejection(NameLengthMessage(name)))
      else Pass
  {
    if StartsWithCapital(name) {
      assert IsLetter(name[0]);
    }
  }

  /** The empty name fails on the capital rule. */
  lemma IsNameRejectsEmpty()
    ensures IsName("") == Fail(Rejection(CapitalMessage("")))
  {
  }

  /** A name with a digit in it is accepted as written. */
  lemma IsNameAcceptsDigits()
    ensures IsName("Ab1") == Pass
    ensures !AllLetters("Ab1")
  {
    IsNameVerdict("Ab1");
    assert !IsLetter("Ab1"[2]);
  }

  /** `isName` as its message intends: every character a letter. */
  function IsNameFixed(name: string): (r: Outcome)
    ensures r.Fail? ==> r.error.statusCode == Some(400) && r.error.statusText == Some(FAIL)
  {
    if !StartsWithCapital(name) then Fail(Rejection(CapitalMessage(name)))
    else if !AllLetters(name) then Fail(Rejection(LettersOnlyMessage(name)))
    else if !NameLengthOk(name) then Fail(Rejection(NameLengthMessage(name)))
    else Pass
  }

  /** The corrected check accepts exactly names of 3 to 20 letters starting with a capital. */
  lemma IsNameFixedAccepts(name: string)
    ensures IsNameFixed(name).Pass? <==> StartsWithCapital(name) && AllLetters(name) && NameLengthOk(name)
  {
  }

  /** On names made of letters only, the code as written and the corrected check agree. */
  lemma IsNameFixedAgrees(name: string)
    requires AllLetters(name)
    ensures IsNameFixed(name) == IsName(name)
  {
    IsNameVerdict(name);
  }

  /** The corrected check rejects "Ab1" with the letters-only message. */
  lemma IsNameFixedRejectsDigits()
    ensures IsNameFixed("Ab1") == Fail(Rejection(LettersOnlyMessage("Ab1")))
  {
    assert !IsLetter("Ab1"[2]);
  }

  // ---------------------------------------------------------------- isEmail

  const INVALID_EMAIL := "Invalid Email"

  /** `[a-zA-Z0-9._%+-]`, the characters of the part before `@`. */
  predicate IsLocalChar(c: char) {
    IsLetter(c) || IsDigit(c) || c == '.' || c == '_' || c == '%' || c == '+' || c == '-'
  }

  /** `[A-Za-z0-9-]`, the characters of the first domain label. */
  predicate IsLabelChar(c: char) {
    IsLetter(c) || IsDigit(c) || c == '-'
  }

  predicate AllLocalChars(s: string) { forall i :: 0 <= i < |s| ==> IsLocalChar(s[i]) }
  predicate AllLabelChars(s: string) { forall i :: 0 <= i < |s| ==> IsLabelChar(s[i]) }

  /** Length of the longest prefix of `s` made of ASCII letters. */
  function LetterRun(s: string): (n: nat)
    ensures n <= |s| && AllLetters(s[..n])
    ensures n < |s| ==> !IsLetter(s[n])
  {
    if |s| > 0 && IsLetter(s[0]) then 1 + LetterRun(s[1..]) else 0
  }

  /** `(?:\.[A-Za-z]{2,})+$`, matched from left to right: since a dot is no letter, each
      `[A-Za-z]{2,}` takes the whole run of letters after its dot. */
  predicate DotSegments(t: string)
    decreases |t|
  {
    |t| > 0 && t[0] == '.' &&
    var n := 1 + LetterRun(t[1..]);
    n >= 3 && (n == |t| || DotSegments(t[n..]))
  }

  /** The test of line 35. The local part ends at the first `@` (no local character is
      one), the first label at the first dot after it (no label character is one). */
  predicate EmailAccepted(s: string) {
    var at := IndexOf(s, '@');
    0 < at < |s| && AllLocalChars(s[..at]) &&
    var domain := s[at + 1..];
    var dot := IndexOf(domain, '.');
    0 < dot < |domain| && AllLabelChars(domain[..dot]) && DotSegments(domain[dot..])
  }

  function IsEmail(email: string): (r: Outcome)
    ensures r.Fail? ==> r.error == Rejection(INVALID_EMAIL)
    ensures r.Pass? ==> EmailPattern(email)
    ensures EmailPattern(email) ==> r.Pass?
  {
    EmailAcceptedIsPattern(email);
    if EmailAccepted(email) then Pass else Fail(Rejection(INVALID_EMAIL))
  }

  /** The language of the regular expression of line 35, read off its syntax:
      a non-empty local part, `@`, a non-empty label, and one or more dot segments. */
  ghost predicate EmailPattern(s: string) {
    exists at, dot :: EmailSplitAt(s, at, dot)
  }

  /** `s` matches the regular expression with the `@` at `at` and the first dot segment at `dot`. */
  ghost predicate EmailSplitAt(s: string, at: int, dot: int) {
    0 < at && at + 1 < dot < |s| &&
    s[at] == '@' && AllLocalChars(s[..at]) && AllLabelChars(s[at + 1..dot]) && SegmentsPattern(s[dot..])
  }

  /** One or more `\.[A-Za-z]{2,}`, with every split point allowed. */
  ghost predicate SegmentsPattern(t: string)
    decreases |t|, 1
  {
    exists k :: SegmentEndsAt(t, k)
  }

  /** The first segment of `t` is `t[..k]`, and the rest, if any, matches again. */
  ghost predicate SegmentEndsAt(t: string, k: int)
    decreases |t|, 0
  {
    3 <= k <= |t| && t[0] == '.' && AllLetters(t[1..k]) && (k == |t| || SegmentsPattern(t[k..]))
  }

  /** `LetterRun` is the one length whose prefix is letters and followed by no letter. */
  lemma {:induction false} LetterRunIs(s: string, n: nat)
    requires n <= |s| && AllLetters(s[..n]) && (n < |s| ==> !IsLetter(s[n]))
    ensures LetterRun(s) == n
  {
    if n > 0 {
      assert IsLetter(s[..n][0]);
      assert s[1..][..n - 1] == s[..n][1..];
      LetterRunIs(s[1..], n - 1);
    }
  }

  /** The first segment the left-to-right reading takes: a dot and the letters after it. */
  lemma FirstSegment(t: string) returns (n: nat)
    requires DotSegments(t)
    ensures n == 1 + LetterRun(t[1..])
    ensures 3 <= n <= |t| && t[0] == '.' && AllLetters(t[1..n])
    ensures n < |t| ==> DotSegments(t[n..])
  {
    n := 1 + LetterRun(t[1..]);
    assert t[1..n] == t[1..][..n - 1];
  }

  /** The left-to-right reading of the segments matches the regular expression. */
  lemma DotSegmentsIsPattern(t: string)
    ensures DotSegments(t) <==> SegmentsPattern(t)
  {
    if DotSegments(t) {
      DotSegmentsMatch(t);
    }
    if SegmentsPattern(t) {
      PatternIsDotSegments(t);
    }
  }

  /** Each segment the left-to-right reading takes is a split the pattern allows. */
  lemma {:induction false} DotSegmentsMatch(t: string)
    requires DotSegments(t)
    ensures SegmentsPattern(t)
    decreases |t|
  {
    var n := FirstSegment(t);
    if n < |t| {
      DotSegmentsMatch(t[n..]);
    }
    assert SegmentEndsAt(t, n);
  }

  /** Any split the pattern allows ends each segment where the run of letters ends. */
  lemma {:induction false} PatternIsDotSegments(t: string)
    requires SegmentsPattern(t)
    ensures DotSegments(t)
    decreases |t|
  {
    var k :| SegmentEndsAt(t, k);
    if k < |t| {
      SegmentsStartWithDot(t[k..]);
      assert t[1..][k - 1] == t[k];
      PatternIsDotSegments(t[k..]);
    }
    assert t[1..][..k - 1] == t[1..k];
    LetterRunIs(t[1..], k - 1);
  }

  /** The test of line 35 accepts exactly the language of its regular expression. */
  lemma EmailAcceptedIsPattern(s: string)
    ensures EmailAccepted(s) <==> EmailPattern(s)
  {
    if EmailAccepted(s) {
      EmailAcceptedMatches(s);
    }
    if EmailPattern(s) {
      var at, dot :| EmailSplitAt(s, at, dot);
      MatchIsAccepted(s, at, dot);
    }
  }

  lemma EmailAcceptedMatches(s: string)
    requires EmailAccepted(s)
    ensures EmailPattern(s)
  {
    var at := IndexOf(s, '@');
    var domain := s[at + 1..];
    var dot := IndexOf(domain, '.');
    DotSegmentsIsPattern(domain[dot..]);
    assert domain[..dot] == s[at + 1..at + 1 + dot];
    assert domain[dot..] == s[at + 1 + dot..];
    assert EmailSplitAt(s, at, at + 1 + dot);
  }

  lemma MatchIsAccepted(s: string, at: int, dot: int)
    requires EmailSplitAt(s, at, dot)
    ensures EmailAccepted(s)
  {
    SegmentsStartWithDot(s[dot..]);
    forall j | 0 <= j < at ensures s[j] != '@' {
      assert IsLocalChar(s[..at][j]);
    }
    IndexOfIsFirst(s, '@', at);
    var domain := s[at + 1..];
    var d := dot - at - 1;
    forall j | 0 <= j < d ensures domain[j] != '.' {
      assert IsLabelChar(s[at + 1..dot][j]);
    }
    assert domain[d] == '.';
    IndexOfIsFirst(domain, '.', d);
    assert domain[..d] == s[at + 1..dot];
    assert domain[d..] == s[dot..];
    DotSegmentsIsPattern(s[dot..]);
  }

  lemma SegmentsStartWithDot(t: string)
    requires SegmentsPattern(t)
    ensures |t| >= 3 && t[0] == '.'
  {
  }

  /** Every character of the dot segments is a dot or a letter. */
  lemma {:induction false} DotSegmentsChars(t: string)
    requires DotSegments(t)
    ensures forall i :: 0 <= i < |t| ==> t[i] == '.' || IsLetter(t[i])
    decreases |t|
  {
    var n := FirstSegment(t);
    if n < |t| {
      DotSegmentsChars(t[n..]);
    }
    forall i | 0 <= i < |t| ensures t[i] == '.' || IsLetter(t[i]) {
      if 0 < i < n {
        assert t[i] == t[1..n][i - 1];
      } else if i >= n {
        assert t[i] == t[n..][i - n];
      }
    }
  }

  /** `t[d..]` is a dot followed by two or more letters and nothing else. */
  predicate LastSegmentAt(t: string, d: int) {
    0 <= d && d + 3 <= |t| && t[d] == '.' && AllLetters(t[d + 1..])
  }

  /** A last segment of a suffix is a last segment of the whole string. */
  lemma LastSegmentShift(t: string, n: nat, d: int)
    requires n <= |t| && LastSegmentAt(t[n..], d)
    ensures LastSegmentAt(t, n + d)
  {
    assert t[n..][d + 1..] == t[n + d + 1..];
    assert t[n + d] == t[n..][d];
  }

  /** The dot segments end in a dot followed by at least two letters and nothing else. */
  lemma {:induction false} DotSegmentsLast(t: string) returns (d: nat)
    requires DotSegments(t)
    ensures LastSegmentAt(t, d)
    decreases |t|
  {
    var n := FirstSegment(t);
    if n == |t| {
      d := 0;
      assert t[1..] == t[1..n];
    } else {
      var d' := DotSegmentsLast(t[n..]);
      LastSegmentShift(t, n, d');
      d := n + d';
    }
  }

  /** No `@` after the first one: the domain is made of label characters, dots and letters. */
  lemma DomainHasNoAt(domain: string, dot: int)
    requires 0 < dot < |domain| && AllLabelChars(domain[..dot]) && DotSegments(domain[dot..])
    ensures forall k :: 0 <= k < |domain| ==> domain[k] != '@'
  {
    DotSegmentsChars(domain[dot..]);
    forall k | 0 <= k < |domain| ensures domain[k] != '@' {
      if k < dot {
        assert IsLabelChar(domain[..dot][k]);
      } else {
        assert domain[k] == domain[dot..][k - dot];
      }
    }
  }

  /** An accepted address holds exactly one `@`. */
  lemma AcceptedEmailHasOneAt(s: string)
    requires IsEmail(s).Pass?
    ensures IndexOf(s, '@') < |s|
    ensures forall i :: 0 <= i < |s| && s[i] == '@' ==> i == IndexOf(s, '@')
  {
    assert EmailAccepted(s);
    IndexOfSkips(s, '@');
    var at := IndexOf(s, '@');
    var domain := s[at + 1..];
    DomainHasNoAt(domain, IndexOf(domain, '.'));
    NoAtAfter(s, at, domain);
  }

  lemma NoAtAfter(s: string, at: nat, domain: string)
    requires at < |s| && domain == s[at + 1..]
    requires forall k :: 0 <= k < |domain| ==> domain[k] != '@'
    ensures forall i :: at < i < |s| ==> s[i] != '@'
  {
    forall i | at < i < |s| ensures s[i] != '@' {
      assert s[i] == domain[i - at - 1];
    }
  }

  /** An accepted address ends in a dot followed by two or more letters. */
  lemma AcceptedEmailEnding(s: string)
    requires IsEmail(s).Pass?
    ensures exists d :: LastSegmentAt(s, d)
  {
    var e := AcceptedSegments(s);
    var d := DotSegmentsLast(s[e..]);
    LastSegmentShift(s, e, d);
  }

  /** Where the dot segments of an accepted address begin. */
  lemma AcceptedSegments(s: string) returns (e: nat)
    requires EmailAccepted(s)
    ensures e <= |s| && DotSegments(s[e..])
  {
    var at := IndexOf(s, '@');
    var domain := s[at + 1..];
    var dot := IndexOf(domain, '.');
    e := at + 1 + dot;
    assert domain[dot..] == s[e..];
  }

  // ---------------------------------------------------------------- isStrongPassword

  const SPECIAL_MESSAGE := "Password must be contain at least one special character"
  const LOWER_MESSAGE := "Password must be contain at least one letter from a to z"
  const UPPER_MESSAGE := "Password must be contain at least one letter from A to Z"
  const DIGIT_MESSAGE := "Password must be contain at least one number from 0 to 9"
  const PASSWORD_LENGTH_MESSAGE := "Password length must be between 8 and 20 characters"

  /** `\w`: `[A-Za-z0-9_]`. */
  predicate IsWordChar(c: char) {
    IsLetter(c) || IsDigit(c) || c == '_'
  }

  /** `/\W/.test(s)`: some character is not a word character. */
  predicate HasNonWordChar(s: string) {
    exists i :: 0 <= i < |s| && !IsWordChar(s[i])
  }

  /** The four character-class checks, in the order of lines 45-76. */
  function PasswordClasses(password: string): (r: Outcome)
    ensures r.Fail? ==> r.error.statusCode == Some(400) && r.error.statusText == Some(FAIL)
    ensures r.Pass? <==> HasNonWordChar(password) && HasLower(password) && HasUpper(password) && HasDigit(password)
  {
    if !HasNonWordChar(password) then Fail(Rejection(SPECIAL_MESSAGE))
    else if !HasLower(password) then Fail(Rejection(LOWER_MESSAGE))
    else if !HasUpper(password) then Fail(Rejection(UPPER_MESSAGE))
    else if !HasDigit(password) then Fail(Rejection(DIGIT_MESSAGE))
    else Pass
  }

  /** Line 77 as written: `password.length < 8 || password > 20`, where the second
      comparison converts the string (not its length) to a number. */
  predicate LengthRuleAsWrittenFails(password: string) {
    |password| < 8 || JsNumber.GreaterThan(JsNumber.StringToNumber(password), 20.0)
  }

  /** `isStrongPassword` as written. */
  function IsStrongPassword(password: string): (r: Outcome)
    ensures r.Fail? ==> r.error.statusCode == Some(400) && r.error.statusText == Some(FAIL)
  {
    if PasswordClasses(password).Fail? then PasswordClasses(password)
    else if LengthRuleAsWrittenFails(password) then Fail(Rejection(PASSWORD_LENGTH_MESSAGE))
    else Pass
  }

  /** "abc" fails the special-character check, the first one, though it fails three others too. */
  lemma PasswordSpecialCheckFirst()
    ensures IsStrongPassword("abc") == Fail(Rejection(SPECIAL_MESSAGE))
  {
    var s := "abc";
    forall i | 0 <= i < |s| ensures IsWordChar(s[i]) {
    }
  }

  /** Once the character classes pass, the code as written rejects a password for length
      exactly when it is shorter than 8, or when, trimmed of white space, it is a
      hexadecimal literal `0x...` worth more than 20. No other string converts to a number
      above 20 while holding both letter cases and a digit. */
  lemma IsStrongPasswordLengthVerdict(password: string)
    requires PasswordClasses(password).Pass?
    ensures IsStrongPassword(password).Pass? <==>
      |password| >= 8 &&
      !(JsNumber.IsHexLiteral(JsNumber.Trim(password)) && JsNumber.ValueIn(JsNumber.Trim(password)[2..], 16) > 20)
  {
    JsNumber.MixedCaseAbove(password, 20.0);
  }

  /** A password that passes the character checks, has at least 8 characters, and starts
      with a letter and ends in a non-blank is accepted as written, whatever its length:
      such a string never converts to a number. */
  lemma LetterLedPasswordPasses(password: string)
    requires PasswordClasses(password).Pass? && |password| >= 8
    requires IsLetter(password[0]) && !JsNumber.IsStrWhiteSpaceChar(password[|password| - 1])
    ensures IsStrongPassword(password).Pass?
  {
    JsNumber.TrimOfUnpadded(password);
    assert !JsNumber.IsHexLiteral(JsNumber.Trim(password)) by {
      assert JsNumber.Trim(password)[0] == password[0] != '0';
    }
    IsStrongPasswordLengthVerdict(password);
  }

  /** A 30-character password is accepted as written: "Abcdefgh1!..." converts to NaN,
      and NaN > 20 is false. The corrected check rejects it. */
  lemma IsStrongPasswordAcceptsLong()
    ensures IsStrongPassword("Abcdefgh1!abcdefghijklmnopqrst") == Pass
    ensures IsStrongPasswordFixed("Abcdefgh1!abcdefghijklmnopqrst") == Fail(Rejection(PASSWORD_LENGTH_MESSAGE))
  {
    var p := "Abcdefgh1!abcdefghijklmnopqrst";
    LongSampleClasses();
    assert p[0] == 'A' && p[|p| - 1] == 't';
    LetterLedPasswordPasses(p);
  }

  lemma LongSampleClasses()
    ensures |"Abcdefgh1!abcdefghijklmnopqrst"| == 30
    ensures PasswordClasses("Abcdefgh1!abcdefghijklmnopqrst") == Pass
  {
    var p := "Abcdefgh1!abcdefghijklmnopqrst";
    assert !IsWordChar(p[9]) && IsLower(p[1]) && IsUpper(p[0]) && IsDigit(p[8]);
  }

  /** An 8-character password that passes every character check is rejected for length as
      written, because "    0x1F" converts to 31. The corrected check accepts it. */
  lemma IsStrongPasswordRejectsHex()
    ensures IsStrongPassword("    0x1F") == Fail(Rejection(PASSWORD_LENGTH_MESSAGE))
    ensures IsStrongPasswordFixed("    0x1F") == Pass
  {
    HexSampleClasses();
    HexSampleTrim();
    HexSampleValue();
    HexPasswordFails("    0x1F");
  }

  /** A password that passes the character checks but reads, once trimmed, as a hexadecimal
      literal above 20 is rejected for length as written, however short it is. */
  lemma HexPasswordFails(password: string)
    requires PasswordClasses(password).Pass?
    requires JsNumber.IsHexLiteral(JsNumber.Trim(password))
    requires JsNumber.ValueIn(JsNumber.Trim(password)[2..], 16) > 20
    ensures IsStrongPassword(password) == Fail(Rejection(PASSWORD_LENGTH_MESSAGE))
  {
    JsNumber.HexLiteralValue(password);
  }

  lemma HexSampleClasses()
    ensures |"    0x1F"| == 8
    ensures PasswordClasses("    0x1F") == Pass
  {
    var p := "    0x1F";
    assert !IsWordChar(p[0]) && IsLower(p[5]) && IsUpper(p[7]) && IsDigit(p[4]);
  }

  lemma HexSampleValue()
    ensures JsNumber.IsHexLiteral("0x1F")
    ensures JsNumber.ValueIn("0x1F"[2..], 16) == 31
  {
    assert "0x1F"[2..] == "1F";
    assert "1F"[..1] == "1";
    assert "1"[..0] == "";
    assert JsNumber.ValueIn("1", 16) == 1;
  }

  lemma HexSampleTrim()
    ensures JsNumber.Trim("    0x1F") == "0x1F"
  {
    HexSampleTrimStart();
    assert JsNumber.TrimEnd("0x1F") == "0x1F";
  }

  lemma HexSampleTrimStart()
    ensures JsNumber.TrimStart("    0x1F") == "0x1F"
  {
    var p := "    0x1F";
    forall i | 0 <= i < 4 ensures JsNumber.IsStrWhiteSpaceChar(p[i]) {
      assert p[i] == ' ';
    }
    JsNumber.TrimStartDrops(p, 4);
    assert p[4..] == "0x1F";
  }

  /** `isStrongPassword` as its message intends: the length itself between 8 and 20. */
  function IsStrongPasswordFixed(password: string): (r: Outcome)
    ensures r.Fail? ==> r.error.statusCode == Some(400) && r.error.statusText == Some(FAIL)
  {
    if PasswordClasses(password).Fail? then PasswordClasses(password)
    else if |password| < 8 || |password| > 20 then Fail(Rejection(PASSWORD_LENGTH_MESSAGE))
    else Pass
  }

  /** The corrected check accepts exactly the passwords with all four character classes
      and 8 to 20 characters. */
  lemma IsStrongPasswordFixedAccepts(password: string)
    ensures IsStrongPasswordFixed(password).Pass? <==>
      HasNonWordChar(password) && HasLower(password) && HasUpper(password) && HasDigit(password)
      && 8 <= |password| <= 20
  {
  }

  /** Up to 20 characters, the code as written and the corrected check agree unless the
      password is a hexadecimal literal worth more than 20. */
  lemma IsStrongPasswordFixedAgrees(password: string)
    requires |password| <= 20
    requires !(JsNumber.IsHexLiteral(JsNumber.Trim(password)) && JsNumber.ValueIn(JsNumber.Trim(password)[2..], 16) > 20)
    ensures IsStrongPasswordFixed(password) == IsStrongPassword(password)
  {
    if PasswordClasses(password).Pass? {
      IsStrongPasswordLengthVerdict(password);
    }
  }
}
