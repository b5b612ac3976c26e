/** The three password policies of the controllers, each a JavaScript regular expression of
    the shape `^(?=.*[C1])...(?=.*[Ck]).{8,}$` tested with `RegExp.prototype.test`.
    Such a pattern is a list of character classes (one per lookahead) and a minimum length;
    `Test` gives the regular expression's meaning and `TestIff` says what it amounts to. */
module PasswordPolicy {
  import opened Wrappers
  import opened JsText

  /** The character classes the three patterns use. */
  datatype CharClass =
    | RegisterSpecial    // [!@#$%^&*(),.?":{}|<>]
    | Uppercase          // [A-Z]
    | Digit              // \d (ASCII digits: the patterns carry no `u` flag)
    | NonAlphaNumeric    // [\W_]

  /** The class `[!@#$%^&*(),.?":{}|<>]`. */
  predicate IsRegisterSpecial(c: char) {
    || c == '!' || c == '@' || c == '#' || c == '$' || c == '%' || c == '^' || c == '&' || c == '*'
    || c == '(' || c == ')' || c == ',' || c == '.' || c == '?' || c == '"' || c == ':' || c == '{'
    || c == '}' || c == '|' || c == '<' || c == '>'
  }

  predicate InClass(c: char, cls: CharClass) {
    match cls
    case RegisterSpecial => IsRegisterSpecial(c)
    case Uppercase => IsAsciiUpper(c)
    case Digit => IsAsciiDigit(c)
    case NonAlphaNumeric => !IsAsciiAlphaNumeric(c)
  }

  /** `^(lookaheads).{minLength,}$` */
  datatype Pattern = Pattern(lookaheads: seq<CharClass>, minLength: nat)

  /** controllers/registerHandle.js: at least 8 code units and one of the listed specials. */
  const RegisterPattern := Pattern([RegisterSpecial], 8)

  /** controllers/resetPassword.js and controllers/gotoReset.js (the same regular expression):
      at least 8 code units, an uppercase letter, a digit and a character of `[\W_]`. */
  const ResetPattern := Pattern([Uppercase, Digit, NonAlphaNumeric], 8)

  /** controllers/logoutHandle.js: at least 8 code units and a character of `[\W_]`. */
  const LogoutPattern := Pattern([NonAlphaNumeric], 8)

  /** `(?=.*[C])` tried at the start of `s`: a run of non-terminators, then a character of `cls`. */
  predicate LookaheadAt(s: string, cls: CharClass)
    decreases |s|
  {
    |s| > 0 && (InClass(s[0], cls) || (!IsLineTerminator(s[0]) && LookaheadAt(s[1..], cls)))
  }

  predicate NoLineTerminator(s: string) {
    forall i :: 0 <= i < |s| ==> !IsLineTerminator(s[i])
  }

  /** `.{n,}$` anchored at the start. Without the `u` flag `.` matches one UTF-16 code unit
      (either half of a surrogate pair too) other than a line terminator, and `$` is the end of
      input: at least `n` code units, none of them a line terminator. */
  predicate DotsToEnd(s: string, n: nat) {
    JsLength(s) >= n && NoLineTerminator(s)
  }

  /** `pattern.test(s)`: the pattern is anchored by `^`, so only position 0 is tried. An
      accepted string has no line terminator and at least `minLength` code units. */
  predicate Test(p: Pattern, s: string)
    ensures Test(p, s) ==> NoLineTerminator(s) && JsLength(s) >= p.minLength
  {
    (forall k :: 0 <= k < |p.lookaheads| ==> LookaheadAt(s, p.lookaheads[k]))
    && DotsToEnd(s, p.minLength)
  }

  predicate Contains(s: string, cls: CharClass) {
    exists i :: 0 <= i < |s| && InClass(s[i], cls)
  }

  /** On a string without line terminators, a lookahead holds exactly when the class occurs. */
  lemma {:induction false} LookaheadIff(s: string, cls: CharClass)
    requires NoLineTerminator(s)
    ensures LookaheadAt(s, cls) <==> Contains(s, cls)
    decreases |s|
  {
    if |s| > 0 {
      LookaheadIff(s[1..], cls);
      if Contains(s, cls) && !InClass(s[0], cls) {
        var i :| 0 <= i < |s| && InClass(s[i], cls);
        assert InClass(s[1..][i - 1], cls);
      }
      if LookaheadAt(s[1..], cls) {
        var i :| 0 <= i < |s[1..]| && InClass(s[1..][i], cls);
        assert InClass(s[i + 1], cls);
      }
    }
  }

  /** What a pattern accepts: long enough, no line terminator, and every class occurs somewhere
      (the lookaheads' `.*` cannot cross a line terminator, but `.{8,}$` already refuses them). */
  lemma TestIff(p: Pattern, s: string)
    ensures Test(p, s) <==>
      (JsLength(s) >= p.minLength && NoLineTerminator(s)
       && forall k :: 0 <= k < |p.lookaheads| ==> Contains(s, p.lookaheads[k]))
  {
    if NoLineTerminator(s) {
      forall k | 0 <= k < |p.lookaheads| {
        LookaheadIff(s, p.lookaheads[k]);
      }
    }
  }

  /** `isValidPassword` of controllers/registerHandle.js, applied to the raw request field
      (`undefined` is tested as the string "undefined"). */
  predicate RegisterIsValidPassword(password: Field) {
    Test(RegisterPattern, ToJsString(password))
  }

  /** What the register policy accepts: at least eight code units, no line terminator and one
      of the listed specials. */
  lemma RegisterPolicyIff(password: Field)
    ensures RegisterIsValidPassword(password) <==>
      (var s := ToJsString(password);
       JsLength(s) >= 8 && NoLineTerminator(s) && exists i :: 0 <= i < |s| && IsRegisterSpecial(s[i]))
  {
    var s := ToJsString(password);
    TestIff(RegisterPattern, s);
    assert Contains(s, RegisterPattern.lookaheads[0]) <==> exists i :: 0 <= i < |s| && IsRegisterSpecial(s[i]);
  }

  /** An absent field is tested as "undefined", which holds no register special. */
  lemma UndefinedRejected()
    ensures !RegisterIsValidPassword(None)
  {
    var s := ToJsString(None);
    assert forall i :: 0 <= i < |s| ==> IsAsciiLower(s[i]);
    RegisterPolicyIff(None);
  }

  /** `isValidPassword` of controllers/resetPassword.js and controllers/gotoReset.js. */
  function ResetIsValidPassword(password: string): (ok: bool)
    ensures ok <==>
      (JsLength(password) >= 8 && NoLineTerminator(password)
       && (exists i :: 0 <= i < |password| && IsAsciiUpper(password[i]))
       && (exists i :: 0 <= i < |password| && IsAsciiDigit(password[i]))
       && (exists i :: 0 <= i < |password| && !IsAsciiAlphaNumeric(password[i])))
  {
    TestIff(ResetPattern, password);
    assert Contains(password, ResetPattern.lookaheads[0]) <==> exists i :: 0 <= i < |password| && IsAsciiUpper(password[i]);
    assert Contains(password, ResetPattern.lookaheads[1]) <==> exists i :: 0 <= i < |password| && IsAsciiDigit(password[i]);
    assert Contains(password, ResetPattern.lookaheads[2]) <==> exists i :: 0 <= i < |password| && !IsAsciiAlphaNumeric(password[i]);
    Test(ResetPattern, password)
  }

  /** `isValidPassword` of controllers/logoutHandle.js. */
  function LogoutIsValidPassword(password: string): (ok: bool)
    ensures ok <==>
      (JsLength(password) >= 8 && NoLineTerminator(password)
       && exists i :: 0 <= i < |password| && !IsAsciiAlphaNumeric(password[i]))
  {
    TestIff(LogoutPattern, password);
    assert Contains(password, LogoutPattern.lookaheads[0]) <==> exists i :: 0 <= i < |password| && !IsAsciiAlphaNumeric(password[i]);
    Test(LogoutPattern, password)
  }

  /** No policy accepts a password shorter than eight UTF-16 code units. */
  lemma ShortPasswordsRejected(s: string)
    requires JsLength(s) < 8
    ensures !RegisterIsValidPassword(Some(s)) && !ResetIsValidPassword(s) && !LogoutIsValidPassword(s)
  {
  }

  /** No policy accepts a password holding a line terminator, however strong the rest. */
  lemma LineTerminatorRejected(s: string, i: nat)
    requires i < |s| && IsLineTerminator(s[i])
    ensures !RegisterIsValidPassword(Some(s)) && !ResetIsValidPassword(s) && !LogoutIsValidPassword(s)
  {
  }

  /** Every password the reset policy accepts, the logout-file policy accepts too. */
  lemma ResetImpliesLogout(s: string)
    requires ResetIsValidPassword(s)
    ensures LogoutIsValidPassword(s)
  {
  }

  /** The register specials are all outside `[A-Za-z0-9]`, so the register policy implies the
      logout-file policy. */
  lemma RegisterImpliesLogout(s: string)
    requires RegisterIsValidPassword(Some(s))
    ensures LogoutIsValidPassword(s)
  {
    RegisterPolicyIff(Some(s));
    var i :| 0 <= i < |s| && IsRegisterSpecial(s[i]);
    assert !IsAsciiAlphaNumeric(s[i]);
  }

  /** `\w`: the characters of `[A-Za-z0-9_]`. */
  predicate IsWordChar(c: char) {
    IsAsciiAlphaNumeric(c) || c == '_'
  }

  /** A string of word characters holds no line terminator and no register special. */
  lemma WordCharsOnly(s: string)
    requires forall i :: 0 <= i < |s| ==> IsWordChar(s[i])
    ensures NoLineTerminator(s)
    ensures forall i :: 0 <= i < |s| ==> !IsRegisterSpecial(s[i])
  {
  }

  /** The converse fails: `_` is in `[\W_]` but the reset policy also wants an uppercase letter
      and a digit, and the register policy does not list `_`. */
  lemma LogoutDoesNotImplyOthers(s: string)
    requires s == "abcdefg_"
    ensures LogoutIsValidPassword(s)
    ensures !ResetIsValidPassword(s)
    ensures !RegisterIsValidPassword(Some(s))
  {
    assert s[7] == '_';
    assert forall i :: 0 <= i < |s| ==> IsAsciiLower(s[i]) || s[i] == '_';
    JsLengthBmp(s);
    WordCharsOnly(s);
    RegisterPolicyIff(Some(s));
  }

  /** Registration demands no uppercase letter and no digit: "abcdefg!" passes there and fails
      the reset policy. */
  lemma RegisterDoesNotImplyReset(s: string)
    requires s == "abcdefg!"
    ensures RegisterIsValidPassword(Some(s))
    ensures !ResetIsValidPassword(s)
  {
    assert IsRegisterSpecial(s[7]);
    assert forall i :: 0 <= i < |s| ==> IsAsciiLower(s[i]) || s[i] == '!';
    JsLengthBmp(s);
    RegisterPolicyIff(Some(s));
  }

  /** Nor does the reset policy imply the register one: `_` is not a register special. */
  lemma ResetDoesNotImplyRegister(s: string)
    requires s == "Abcdef1_"
    ensures ResetIsValidPassword(s)
    ensures !RegisterIsValidPassword(Some(s))
  {
    assert IsAsciiUpper(s[0]) && IsAsciiDigit(s[6]) && s[7] == '_';
    assert forall i :: 0 <= i < |s| ==> IsWordChar(s[i]);
    JsLengthBmp(s);
    WordCharsOnly(s);
    RegisterPolicyIff(Some(s));
  }

  /** Lengths are UTF-16 code units: "!" and four U+1F600 (five characters, nine code units)
      passes the register and logout-file policies. */
  lemma AstralCharsCountTwice()
    ensures var s := "!\U{1F600}\U{1F600}\U{1F600}\U{1F600}";
      && |s| == 5 && JsLength(s) == 9
      && RegisterIsValidPassword(Some(s)) && LogoutIsValidPassword(s)
  {
    var s := "!\U{1F600}\U{1F600}\U{1F600}\U{1F600}";
    assert IsRegisterSpecial(s[0]) && !IsBmp(s[1]);
    assert JsLength(s[1..]) == 8 by {
      assert forall i :: 0 <= i < |s[1..]| ==> !IsBmp(s[1..][i]);
      JsLengthAstral(s[1..]);
    }
    assert NoLineTerminator(s);
    RegisterPolicyIff(Some(s));
  }
}
