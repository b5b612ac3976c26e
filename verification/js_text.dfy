/** The few pieces of JavaScript string semantics the controllers rely on: truthiness of
    request fields, `String(undefined)`, the characters `.` refuses in a regular expression,
    `String.prototype.trim` and an ASCII `toLowerCase`. */
module JsText {
  import opened Wrappers

  /** A request field: `None` is `undefined` (the field was not sent). */
  type Field = Option<string>

  /** `!!v` for a field: `undefined` and `""` are falsy, every other string is truthy. */
  predicate Truthy(v: Field) {
    v.Some? && v.value != ""
  }

  /** What `RegExp.prototype.test` sees when given a field: `undefined` becomes "undefined". */
  function ToJsString(v: Field): (s: string)
    ensures v.Some? ==> s == v.value
    ensures v.None? ==> |s| == 9
  {
    match v
    case Some(x) => x
    case None => "undefined"
  }

  /** The line terminators of ECMAScript: `.` without the `s` flag matches every other code point. */
  predicate IsLineTerminator(c: char) {
    c == '\n' || c == '\r' || c == '\U{2028}' || c == '\U{2029}'
  }

  /** The ECMAScript WhiteSpace production (tab, vertical tab, form feed, space, no-break space,
      the byte-order mark and the space separators of Unicode category Zs). */
  predicate IsWhiteSpace(c: char) {
    c == '\t' || c == '\U{000B}' || c == '\U{000C}' || c == ' ' || c == '\U{00A0}' || c == '\U{FEFF}'
    || c == '\U{1680}' || ('\U{2000}' <= c <= '\U{200A}') || c == '\U{202F}' || c == '\U{205F}'
    || c == '\U{3000}'
  }

  /** The characters `String.prototype.trim` strips from both ends. */
  predicate IsTrimmable(c: char) {
    IsWhiteSpace(c) || IsLineTerminator(c)
  }

  predicate IsAsciiUpper(c: char) { 'A' <= c <= 'Z' }

  predicate IsAsciiLower(c: char) { 'a' <= c <= 'z' }

  predicate IsAsciiDigit(c: char) { '0' <= c <= '9' }

  /** `[A-Za-z0-9]`: the complement of the regular-expression class `[\W_]`. */
  predicate IsAsciiAlphaNumeric(c: char) {
    IsAsciiUpper(c) || IsAsciiLower(c) || IsAsciiDigit(c)
  }

  /** A character of the Basic Multilingual Plane: one UTF-16 code unit. */
  predicate IsBmp(c: char) {
    c as int <= 0xFFFF
  }

  /** `s.length`: JavaScript counts UTF-16 code units, so a character above U+FFFF (a surrogate
      pair) counts twice. */
  function JsLength(s: string): (n: nat)
    ensures |s| <= n <= 2 * |s|
  {
    if s == [] then 0 else (if IsBmp(s[0]) then 1 else 2) + JsLength(s[1..])
  }

  /** A string of the Basic Multilingual Plane has one code unit per character, and only such a
      string does. */
  lemma {:induction false} JsLengthBmp(s: string)
    ensures JsLength(s) == |s| <==> forall i :: 0 <= i < |s| ==> IsBmp(s[i])
    decreases |s|
  {
    if s != [] {
      JsLengthBmp(s[1..]);
      assert forall i :: 1 <= i < |s| ==> s[1..][i - 1] == s[i];
    }
  }

  /** A string of characters above U+FFFF has two code units per character, and only such a
      string does. */
  lemma {:induction false} JsLengthAstral(s: string)
    ensures JsLength(s) == 2 * |s| <==> forall i :: 0 <= i < |s| ==> !IsBmp(s[i])
    decreases |s|
  {
    if s != [] {
      JsLengthAstral(s[1..]);
      assert forall i :: 1 <= i < |s| ==> s[1..][i - 1] == s[i];
    }
  }

  function TrimStart(s: string): string
  {
    if |s| > 0 && IsTrimmable(s[0]) then TrimStart(s[1..]) else s
  }

  function TrimEnd(s: string): string
  {
    if |s| > 0 && IsTrimmable(s[|s| - 1]) then TrimEnd(s[..|s| - 1]) else s
  }

  /** `String.prototype.trim`: never longer than its input. */
  function Trim(s: string): (r: string)
    ensures |r| <= |s|
  {
    TrimStartFacts(s);
    TrimEndFacts(TrimStart(s));
    TrimEnd(TrimStart(s))
  }

  /** `TrimStart` drops a prefix of trimmable characters and stops at the first other one. */
  lemma {:induction false} TrimStartFacts(s: string)
    ensures |TrimStart(s)| <= |s| && TrimStart(s) == s[|s| - |TrimStart(s)|..]
    ensures TrimStart(s) == [] || !IsTrimmable(TrimStart(s)[0])
    decreases |s|
  {
    if |s| > 0 && IsTrimmable(s[0]) {
      TrimStartFacts(s[1..]);
    }
  }

  /** `TrimEnd` drops a suffix of trimmable characters and stops at the last other one. */
  lemma {:induction false} TrimEndFacts(s: string)
    ensures |TrimEnd(s)| <= |s| && TrimEnd(s) == s[..|TrimEnd(s)|]
    ensures TrimEnd(s) == [] || !IsTrimmable(TrimEnd(s)[|TrimEnd(s)| - 1])
    decreases |s|
  {
    if |s| > 0 && IsTrimmable(s[|s| - 1]) {
      TrimEndFacts(s[..|s| - 1]);
    }
  }

  /** A prefix of a suffix is a slice. */
  lemma PrefixOfSuffix(s: string, i: nat, n: nat)
    requires i + n <= |s|
    ensures s[i..][..n] == s[i..i + n]
  {
  }

  /** Every character `TrimStart` drops is trimmable. */
  lemma {:induction false} TrimStartDrops(s: string)
    ensures forall k :: 0 <= k < |s| - |TrimStart(s)| ==> IsTrimmable(s[k])
    decreases |s|
  {
    if |s| > 0 && IsTrimmable(s[0]) {
      TrimStartDrops(s[1..]);
      assert forall k :: 1 <= k < |s| ==> s[k] == s[1..][k - 1];
    }
  }

  /** Every character `TrimEnd` drops is trimmable. */
  lemma {:induction false} TrimEndDrops(s: string)
    ensures forall k :: |TrimEnd(s)| <= k < |s| ==> IsTrimmable(s[k])
    decreases |s|
  {
    if |s| > 0 && IsTrimmable(s[|s| - 1]) {
      TrimEndDrops(s[..|s| - 1]);
      assert forall k :: 0 <= k < |s| - 1 ==> s[k] == s[..|s| - 1][k];
    }
  }

  /** Trimming drops only leading and trailing trimmable characters and leaves none at either end. */
  lemma TrimIsSlice(s: string)
    ensures exists i, j :: && 0 <= i <= j <= |s| && Trim(s) == s[i..j]
                           && (forall k :: 0 <= k < i ==> IsTrimmable(s[k]))
                           && (forall k :: j <= k < |s| ==> IsTrimmable(s[k]))
    ensures Trim(s) == [] || (!IsTrimmable(Trim(s)[0]) && !IsTrimmable(Trim(s)[|Trim(s)| - 1]))
  {
    var a := TrimStart(s);
    TrimStartFacts(s);
    TrimStartDrops(s);
    var i := |s| - |a|;
    var b := TrimEnd(a);
    TrimEndFacts(a);
    TrimEndDrops(a);
    PrefixOfSuffix(s, i, |b|);
    var j := i + |b|;
    assert 0 <= i <= j <= |s| && b == s[i..j];
    assert forall k :: j <= k < |s| ==> s[k] == a[k - i];
    if b != [] {
      assert b[0] == a[0];
    }
  }

  /** Trimming twice is trimming once: a stored, trimmed value is unchanged by the setter. */
  lemma {:induction false} TrimIdempotent(s: string)
    ensures Trim(Trim(s)) == Trim(s)
  {
    var t := Trim(s);
    TrimIsSlice(s);
    if t != [] {
      assert TrimStart(t) == t;
      assert TrimEnd(t) == t;
    } else {
      assert Trim(t) == [];
    }
  }

  function LowerChar(c: char): (d: char)
    ensures IsAsciiUpper(c) ==> IsAsciiLower(d)
    ensures !IsAsciiUpper(c) ==> d == c
  {
    if IsAsciiUpper(c) then (c as int + 32) as char else c
  }

  /** `toLowerCase` restricted to ASCII letters. */
  function LowerAscii(s: string): (r: string)
    ensures |r| == |s|
    ensures forall i :: 0 <= i < |s| ==> r[i] == LowerChar(s[i])
  {
    if s == [] then [] else [LowerChar(s[0])] + LowerAscii(s[1..])
  }

  predicate HasNoAsciiUpper(s: string) {
    forall i :: 0 <= i < |s| ==> !IsAsciiUpper(s[i])
  }

  lemma LowerAsciiFixesLowered(s: string)
    requires HasNoAsciiUpper(s)
    ensures LowerAscii(s) == s
  {
  }

  /** Mongoose's `lowercase` then `trim` setters, as they are declared on the email field. */
  function NormalizeEmail(s: string): (r: string)
    ensures HasNoAsciiUpper(r)
  {
    var l := LowerAscii(s);
    TrimIsSlice(l);
    Trim(l)
  }

  /** Normalising a stored email again leaves it as it is. */
  lemma NormalizeEmailIdempotent(s: string)
    ensures NormalizeEmail(NormalizeEmail(s)) == NormalizeEmail(s)
  {
    var n := NormalizeEmail(s);
    LowerAsciiFixesLowered(n);
    TrimIdempotent(LowerAscii(s));
  }
}
