/** The `User` schema of models/User.js: the stored record, what Mongoose's setters make of a
    new document (trimmed name, lowercased and trimmed email, default `verified` and
    `resetLink`) and the validators a `save` runs. `validator.isEmail` is a parameter. */
module UserModel {
  import opened Wrappers
  import opened JsText
  import opened Tokens

  /** The hexadecimal text of an ObjectId `_id`. */
  type Id = string

  const NameMinLength: nat := 2
  const NameMaxLength: nat := 50
  const PasswordMinLength: nat := 8

  /** Length of a bcrypt digest (`$2a$10$` + 22 salt characters + 31 hash characters). */
  const DigestLength: nat := 60

  /** A stored user. `resetLink` is `None` for the schema default `''`. The `timestamps` pair is
      not modelled. */
  datatype Account = Account(name: string, email: string, password: string, verified: bool, resetLink: Option<Token>)

  predicate IsLowerHexDigit(c: char) {
    IsAsciiDigit(c) || 'a' <= c <= 'f'
  }

  predicate IsHexDigit(c: char) {
    IsAsciiDigit(c) || 'a' <= c <= 'f' || 'A' <= c <= 'F'
  }

  /** The canonical text of an ObjectId: 24 lowercase hexadecimal digits. */
  predicate IsObjectId(s: string) {
    |s| == 24 && forall i :: 0 <= i < |s| ==> IsLowerHexDigit(s[i])
  }

  /** Casting a path or claim string to an ObjectId for `findById`: 24 hexadecimal digits of
      either case name the id; anything else throws a CastError (`None`). */
  function CastObjectId(s: string): (r: Option<Id>)
    ensures r.Some? ==> IsObjectId(r.value)
    ensures IsObjectId(s) ==> r == Some(s)
    ensures r.Some? <==> |s| == 24 && forall i :: 0 <= i < |s| ==> IsHexDigit(s[i])
    ensures r.Some? ==> r.value == LowerAscii(s)
  {
    if |s| == 24 && forall i :: 0 <= i < |s| ==> IsHexDigit(s[i]) then
      var l := LowerAscii(s);
      assert forall i :: 0 <= i < |l| ==> IsLowerHexDigit(l[i]) by {
        forall i | 0 <= i < |l| ensures IsLowerHexDigit(l[i]) {
          assert l[i] == LowerChar(s[i]);
        }
      }
      assert IsObjectId(s) ==> l == s by {
        if IsObjectId(s) { LowerAsciiFixesLowered(s); }
      }
      Some(l)
    else None
  }

  /** The validators `save` runs on the document: `required`, `minlength`/`maxlength` on the
      (already trimmed) name, `required` and `validator.isEmail` on the email, `required` and
      `minlength` on the stored password string. Lengths are JavaScript `.length`, in UTF-16
      code units; the length bounds already imply `required` (a non-empty string). */
  predicate Conforms(a: Account, isEmail: string -> bool)
    ensures Conforms(a, isEmail) ==> a.name != "" && a.email != "" && a.password != ""
  {
    && NameMinLength <= JsLength(a.name) <= NameMaxLength
    && a.email != "" && isEmail(a.email)
    && JsLength(a.password) >= PasswordMinLength
  }

  /** What the setters guarantee of every stored document. */
  predicate Normalized(a: Account) {
    Trim(a.name) == a.name && NormalizeEmail(a.email) == a.email
  }

  predicate ValidAccount(a: Account, isEmail: string -> bool) {
    Conforms(a, isEmail) && Normalized(a)
  }

  /** `new User({ name, email, password })`: the `trim` setter on the name, the `lowercase` and
      `trim` setters on the email, and the defaults `verified: false` and `resetLink: ''`. */
  function NewAccount(name: string, email: string, password: string): (a: Account)
    ensures Normalized(a)
    ensures a.name == Trim(name) && a.email == NormalizeEmail(email) && a.password == password
    ensures !a.verified && a.resetLink.None?
  {
    TrimIdempotent(name);
    NormalizeEmailIdempotent(email);
    Account(Trim(name), NormalizeEmail(email), password, false, None)
  }

  /** A valid account's name, trimmed again, still has between 2 and 50 UTF-16 code units, its email is
      non-empty, lowercase and passes `isEmail`, and its password string has at least 8. */
  lemma ValidAccountFields(a: Account, isEmail: string -> bool)
    requires ValidAccount(a, isEmail)
    ensures NameMinLength <= JsLength(Trim(a.name)) <= NameMaxLength
    ensures a.email != "" && HasNoAsciiUpper(a.email) && isEmail(a.email)
    ensures JsLength(a.password) >= PasswordMinLength
  {
  }

  /** Every bcrypt digest has the same length, long enough for the password validator. */
  ghost predicate DigestShaped(hash: string -> string) {
    forall p :: |hash(p)| == DigestLength
  }
}
