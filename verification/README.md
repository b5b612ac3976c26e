# Account lifecycle of the Node.js authentication module, in Dafny

This project models the credential lifecycle of an Express/Mongoose authentication module
(registration with an emailed activation link, activation, forgotten password, reset link,
password reset) and proves properties of it.

- **Password policies.** The three `isValidPassword` regular expressions are modelled as a
  tiny regular-expression semantics: anchored lookaheads over character classes, then
  `.{8,}$`. Each policy is proved equal to a plain statement: at least eight UTF-16 code
  units, no line terminator, and one character of each class. The patterns carry no `u`
  flag, so `.` and `{8,}` count code units and a character outside the Basic Multilingual
  Plane counts twice (`JsText.JsLength`).
- **`escapeHtml`.** It is modelled as the five chained `replace` calls. They are proved equal
  to a per-character map, and the output is proved to hold no markup character. An unescaping
  function is proved to invert it.
- **`User` schema.** It becomes the `Account` datatype. The model covers the setters (`trim`
  on the name; `lowercase` then `trim` on the email), the defaults, and the validators
  `save` runs.
- **The `users` collection.** It is the `Store` class: a map from `_id` to account. Its
  methods are `save` (which runs the validators and both unique indexes), `updateOne` and
  `findByIdAndUpdate` (which run no validator). A collection invariant holds throughout: ids
  are ObjectIds, records are valid and normalised, and emails are unique.
- **The five controllers.** Each becomes an imperative method over the store.
  - `registerHandle`: the three validations all run and accumulate their messages. The store
    is only read.
  - `activateHandle`: verifies the `JWT_KEY` token, checks the email, and saves a new
    account.
  - `forgotPassword`: signs a `JWT_RESET_KEY` token over the `_id` and writes it into
    `resetLink`.
  - `gotoReset`: verifies the reset token and redirects.
  - `resetPassword`: a guard chain, then the digest overwrites the password.

  Each writing controller is proved equal to a pure step function on the collection. The
  properties are proved about those step functions.
- **Lifecycle.** Lemmas about runs of several requests:
  - every run keeps the collection invariant;
  - replaying an activation link creates nothing;
  - an expired or wrong-purpose token changes nothing;
  - the latest reset request wins;
  - a superseded reset link still opens the reset page;
  - knowing an `_id` suffices to reset its password.

Parameters stand for:

- the digest function (bcrypt);
- `validator.isEmail`;
- the `_id` Mongoose generates;
- the clock;
- whether the Google OAuth2 access token was obtained;
- whether the mail went out.

Four facts about the code shape the model:

- Activation never sets `verified`. It stays at the schema default `false` (proved by
  `Lifecycle.RunNeverVerifies`).
- `gotoReset` and `resetPassword` never compare a token with the stored `resetLink`.
- `resetPassword` checks no token at all: the `_id` in the path is enough.
- A token is accepted while the clock is strictly before `iat + 1800`. `jsonwebtoken` treats
  the token as expired once the clock reaches `exp`.

## Model

| member | source | states |
|---|---|---|
| PasswordPolicy.Test | controllers/registerHandle.js:58 | a string the pattern accepts has no line terminator and at least `minLength` UTF-16 code units |
| PasswordPolicy.TestIff | controllers/resetPassword.js:21-22 | an anchored pattern `^(?=.*[C1])…(?=.*[Ck]).{n,}$` accepts a string iff it has at least n UTF-16 code units, no line terminator, and a character of every class |
| PasswordPolicy.LookaheadIff | controllers/logoutHandle.js:24 | on a string without line terminators, `(?=.*[C])` at the start holds iff some character is in C |
| PasswordPolicy.RegisterPolicyIff | controllers/registerHandle.js:57-59 | the register policy accepts the field, as the string `test` sees (`undefined` becomes "undefined"), iff it has ≥ 8 UTF-16 code units, no line terminator and a character of `[!@#$%^&*(),.?":{}\|<>]` |
| PasswordPolicy.UndefinedRejected | controllers/registerHandle.js:57-59 | an absent password field, tested as "undefined", is rejected |
| PasswordPolicy.ResetIsValidPassword | controllers/resetPassword.js:19-23 | accepts iff ≥ 8 UTF-16 code units, no line terminator, and an uppercase ASCII letter, an ASCII digit and a character outside `[A-Za-z0-9]` all occur |
| PasswordPolicy.LogoutIsValidPassword | controllers/logoutHandle.js:23-26 | accepts iff ≥ 8 UTF-16 code units, no line terminator and a character outside `[A-Za-z0-9]` |
| PasswordPolicy.ShortPasswordsRejected | controllers/registerHandle.js:58 | no policy accepts fewer than 8 UTF-16 code units |
| PasswordPolicy.LineTerminatorRejected | controllers/gotoReset.js:32 | no policy accepts a password containing a line terminator |
| PasswordPolicy.ResetImpliesLogout | controllers/resetPassword.js:21 | every password the reset policy accepts, the logout-file policy accepts |
| PasswordPolicy.RegisterImpliesLogout | controllers/registerHandle.js:58 | every password the register policy accepts, the logout-file policy accepts |
| PasswordPolicy.LogoutDoesNotImplyOthers | controllers/logoutHandle.js:24 | "abcdefg_" passes the logout-file policy and fails both others |
| PasswordPolicy.RegisterDoesNotImplyReset | controllers/registerHandle.js:58 | "abcdefg!" passes registration and fails the reset policy |
| PasswordPolicy.ResetDoesNotImplyRegister | controllers/resetPassword.js:21 | "Abcdef1_" passes the reset policy and fails registration (`_` is not a register special) |
| PasswordPolicy.AstralCharsCountTwice | controllers/registerHandle.js:58 | "!" followed by four U+1F600 is five characters but nine code units, and passes the register and logout-file policies |
| JsText.JsLength | models/User.js:24 | the UTF-16 length lies between the number of characters and twice that number |
| JsText.JsLengthBmp | models/User.js:10-11 | the UTF-16 length equals the number of characters iff every character is in the Basic Multilingual Plane |
| JsText.JsLengthAstral | models/User.js:10-11 | the UTF-16 length is twice the number of characters iff no character is in the Basic Multilingual Plane |
| JsText.Trim | models/User.js:9 | trimming never lengthens a string |
| JsText.TrimIsSlice | models/User.js:9 | trimming yields a slice `s[i..j]` of the input where every dropped character before `i` and from `j` on is trimmable, and the result has no trimmable character at either end |
| JsText.TrimIdempotent | models/User.js:9 | trimming a trimmed string changes nothing |
| JsText.LowerAscii | models/User.js:17 | lowercasing keeps the length and maps each character on its own: uppercase ASCII letters to lowercase, all else unchanged |
| JsText.NormalizeEmail | models/User.js:17-18 | the lowercase-then-trim setters leave no ASCII uppercase letter |
| JsText.NormalizeEmailIdempotent | models/User.js:17-18 | applying the email setters to a stored email changes nothing |
| EscapeHtml.ReplaceAll | routes/index.js:24-28 | a global `replace` removes every occurrence of the searched character when the replacement lacks it, and introduces no character absent from both input and replacement |
| EscapeHtml.EscapeHtml | routes/index.js:22-29 | the output contains none of `<`, `>`, `"`, `'` |
| EscapeHtml.EscapeHtmlIsPerChar | routes/index.js:22-29 | the five chained global replacements equal replacing each character by its entity, independently |
| EscapeHtml.EscapeHtmlAppend | routes/index.js:22-29 | escaping distributes over concatenation |
| EscapeHtml.PlainTextUnchanged | routes/index.js:22-29 | text without `&<>"'` is returned unchanged |
| EscapeHtml.OutputNotShorter | routes/index.js:22-29 | the output is never shorter, and has the same length iff the input has none of `&<>"'` |
| EscapeHtml.UnescapeEscapeHtml | routes/index.js:22-29 | decoding the five entities recovers the input: no information is lost |
| EscapeHtml.NotIdempotent | routes/index.js:24 | "&" escapes to "&amp;", which escapes again to "&amp;amp;" |
| EscapeHtml.AmpersandMustGoFirst | routes/index.js:24-25 | "<" escapes to "&lt;", whereas replacing `<` before `&` would give "&amp;lt;" |
| UserModel.CastObjectId | controllers/resetPassword.js:64 | a cast succeeds iff the text is 24 hex digits of either case; its result is the lowercased text, a canonical ObjectId, and a canonical id casts to itself |
| UserModel.Conforms | models/User.js:6-25 | a record that passes the validators has a non-empty name, email and password, as `required` demands |
| UserModel.NewAccount | models/User.js:5-34 | a new document has the trimmed name, the lowercased and trimmed email, the given password, `verified` false and an empty `resetLink`, and is normalised |
| UserModel.ValidAccountFields | models/User.js:6-25 | a valid record's trimmed name has 2 to 50 UTF-16 code units, its email is non-empty, lowercase and passes `isEmail`, and its password string has at least 8 UTF-16 code units |
| UserStore.FindByEmail | controllers/forgotPassword.js:77 | `findOne({ email })` finds a record iff one holds exactly that email, and then it is the only one |
| UserStore.FindByIdStoredKey | controllers/gotoReset.js:64 | `findById` with a stored `_id` finds that record, and so does any spelling of it whose lowercase form is that id (uppercase hex digits included) |
| UserStore.InsertKeepsInvariant | models/User.js:16 | an insert that passes the validators and both unique indexes keeps the collection invariant |
| UserStore.UpdateKeepsInvariant | controllers/forgotPassword.js:88 | replacing a record by one with the same name and email and a long-enough password keeps the invariant |
| UserStore.Store.Save | controllers/activateHandle.js:56 | `save` succeeds iff validators, `_id` index and email index accept; then exactly that record is added, else nothing changes; the invariant is kept |
| UserStore.Store.UpdateResetLink | controllers/forgotPassword.js:88 | `updateOne` sets only that record's `resetLink`; no match changes nothing; the invariant is kept |
| UserStore.Store.FindByIdAndUpdatePassword | controllers/resetPassword.js:64 | returns what `findById` finds and overwrites only that record's password; the invariant is kept |
| Tokens.Sign | controllers/registerHandle.js:105 | a signed token verifies exactly under its own secret and strictly before 1800 seconds after issue, and then yields the signed claims |
| Tokens.Verify | controllers/activateHandle.js:27 | verification succeeds only under the token's secret, yields the token's claims, and fails once 1800 seconds have passed since issue |
| Tokens.VerifySign | controllers/registerHandle.js:105 | a signed token verifies under its secret, with the signed claims, until 1800 seconds after issue, and fails from then on |
| Tokens.SecretsNotInterchangeable | controllers/gotoReset.js:55 | an activation token never verifies under the reset secret, nor a reset token under the activation secret |
| Outcomes.ResetPath | controllers/resetPassword.js:42 | `/auth/reset/${id}` differs from the login, register and forgot paths |
| Register.ValidationErrorsFacts | controllers/registerHandle.js:65-80 | each of the three messages is present iff its check fails; no other message and none twice; the missing-field message first and the policy message last; no error means the name and email are filled and the passwords agree |
| Register.Validate | controllers/registerHandle.js:65-80 | the three checks all run, each pushing its message when it fails, and leave exactly the `ValidationErrors` list whose facts `ValidationErrorsFacts` states |
| Register.RegisterHandle | controllers/registerHandle.js:62-146 | validation errors re-render with those errors; a taken email re-renders with its message; a missing access token re-renders with the Google message; otherwise it signs `{name, email, password}` with `JWT_KEY` and redirects to login (mail sent) or register (mail failed); a token is issued iff it redirects |
| Register.EmptyPasswordsNoMismatch | controllers/registerHandle.js:68-80 | two empty passwords draw the missing-field and policy messages but no mismatch message |
| Register.LowercaseSpecialAccepted | controllers/registerHandle.js:78 | a filled form with "abcdefg!" twice draws no error |
| Register.AllThreeInOrder | controllers/registerHandle.js:65-80 | a form failing all three checks gets the three messages in source order |
| Activate.Activated | controllers/activateHandle.js:44-52 | the new document holds the trimmed name, the normalised email and the digest of the claimed password, and is not verified |
| Activate.ActivateStep | controllers/activateHandle.js:14-70 | missing token, failed verification and taken email each give their message and write nothing; a verified token with complete claims, a free email and a save the validators accept adds exactly that record and redirects to login; a verified token whose claims are incomplete or whose record `save` rejects lands in the catch branch and writes nothing; the collection changes iff activation succeeds; the invariant is kept |
| Activate.ActivateHandle | controllers/activateHandle.js:14-70 | the method's answer and new collection are those of `ActivateStep`; the invariant is kept |
| Activate.ReplayCreatesNothing | controllers/activateHandle.js:35-56 | a link whose first redemption adds its account, redeemed again at any later time and with any new `_id`, leaves the collection as the first redemption left it |
| Activate.ExpiredLinkCreatesNothing | controllers/activateHandle.js:64-69 | once 1800 seconds have passed, the link writes nothing and asks to register again |
| Activate.ResetTokenCannotActivate | controllers/activateHandle.js:27 | a token signed with the reset secret writes nothing |
| ForgotPassword.ResetToken | controllers/forgotPassword.js:85 | the reset token verifies under `JWT_RESET_KEY` exactly until 1800 seconds after `now`, and then carries the account's `_id`; it never verifies under `JWT_KEY` |
| ForgotPassword.ForgotStep | controllers/forgotPassword.js:66-101 | a falsy email and an unknown email re-render with their message and write nothing; a known email sets only that account's `resetLink`, whether or not the mail goes out, and the mail result picks success or error; no id, name, email, password or `verified` changes |
| ForgotPassword.ForgotPasswordHandle | controllers/forgotPassword.js:66-101 | the method's answer and new collection are those of `ForgotStep`; the invariant is kept |
| ForgotPassword.ForgotKeepsInvariant | controllers/forgotPassword.js:85-88 | a forgotten-password request keeps the collection invariant |
| ForgotPassword.LatestRequestWins | controllers/forgotPassword.js:85-88 | after two requests for one email the account holds only the second token, and nothing else differs from the original |
| ForgotPassword.MixedCaseEmailNotFound | controllers/forgotPassword.js:77-82 | in this model, where `findOne` matches the stored email exactly, an email with an ASCII uppercase letter finds no account (every stored email is lowercase) and is answered "User not found" |
| GotoReset.GotoReset | controllers/gotoReset.js:44-81 | always a redirect; it reaches a reset page iff the token verifies under `JWT_RESET_KEY`, carries an `_id` and that id names an account, and then it is that account's page; otherwise login with the message of the failing step |
| GotoReset.PathTellsOutcome | controllers/gotoReset.js:67-79 | the redirect path alone tells success from failure: it differs from the login path exactly when no error is flashed |
| GotoReset.ActivationTokenRejected | controllers/gotoReset.js:55 | an activation token never opens a reset page |
| GotoReset.DependsOnlyOnIds | controllers/gotoReset.js:64-73 | the answer depends only on the set of ids, never on the stored `resetLink` |
| GotoReset.SupersededLinkStillAdmits | controllers/gotoReset.js:55-73 | a link replaced by a newer request still opens the reset page until it expires |
| ResetPassword.FirstError | controllers/resetPassword.js:40-55 | no message iff both fields are filled, equal and pass the reset policy; otherwise the first failing check's message |
| ResetPassword.ResetPasswordStep | controllers/resetPassword.js:31-88 | a rejected password, an id that does not cast and an unknown id each give their message and write nothing; otherwise that account's password becomes the digest; no other account or field changes, and a password changes only on success for the account the path names |
| ResetPassword.ResetPasswordHandle | controllers/resetPassword.js:31-88 | the method's answer and new collection are those of `ResetPasswordStep`; the invariant is kept |
| ResetPassword.ResetKeepsInvariant | controllers/resetPassword.js:61-64 | with 60-character digests the reset keeps the collection invariant |
| ResetPassword.EmptyPasswordsOneMessage | controllers/resetPassword.js:40-43 | two empty passwords draw only the missing-field message |
| ResetPassword.IdAloneSuffices | controllers/resetPassword.js:31-76 | any accepted password posted for an existing `_id` replaces that account's password: no token is needed |
| Lifecycle.Apply | models/User.js:5-34 | serving any activation, forgotten-password or reset request keeps the collection invariant |
| Lifecycle.Run | models/User.js:5-34 | any sequence of requests keeps the invariant (emails stay unique) and removes no account |
| Lifecycle.ApplyKeepsIds | controllers/activateHandle.js:56 | no request removes an account |
| Lifecycle.ApplyNeverVerifies | models/User.js:26-29 | no request sets `verified` |
| Lifecycle.RunNeverVerifies | controllers/activateHandle.js:44-56 | starting with no verified account, none is ever verified: nothing sets the flag |
| Lifecycle.ForgotThenGotoReset | controllers/gotoReset.js:55-73 | the link a forgotten-password request stores opens that account's reset page for 30 minutes |
| Lifecycle.RegisterThenActivate | controllers/activateHandle.js:27-62 | a registration token redeemed in time for a free email adds exactly the described account, holding the digest and not verified |

## Left out

- Mail delivery and Google OAuth2 are not modelled. Whether the access token was obtained
  and whether `sendMail` succeeded are boolean parameters.
- Cryptography is not modelled. A token records its secret, claims and issue time, so the
  model assumes `JWT_KEY` and `JWT_RESET_KEY` differ. bcrypt is a parameter `hash`.
- `ResetPassword.ResetPasswordHandle` demands that every digest is 60 characters long, as
  bcrypt's are. `findByIdAndUpdate` runs no validator, so the invariant depends on it.
- Clocks and salts are not modelled. The clock is a parameter; `genSalt` is folded into
  `hash`.
- The schema's `timestamps` fields are left out.
- Database failures other than a CastError are left out: connection loss, and a timeout or
  throw from `findOne`, `updateOne` or `save`. So is the race between the `findOne` and
  `save` of two concurrent activations, because the model serves one request at a time.
- `UserStore.FindByEmail`: `findOne({ email })` is modelled as an exact match on the stored
  email. Whether Mongoose lowercases or trims the filter is not modelled. In this model a
  mixed-case email posted to the forgotten-password form gets "User not found"
  (`ForgotPassword.MixedCaseEmailNotFound`).
- `JsText.Field`: a request field is either absent or a string. With
  `express.urlencoded({ extended: true })` a field can also be an array or an object, which
  is not modelled. An empty array is truthy, two arrays are never `===`, and
  `forgotPassword` would pass the array to `findOne` and to the mailer.
- `Activate.ActivateStep` treats any non-string claim as absent. A JWT payload can carry
  other JSON types.
- `toLowerCase` is ASCII-only (`JsText.LowerAscii`). Unicode case mapping is not modelled.
- `UserModel.CastObjectId` accepts only the 24-hex-digit text form. The 12-byte string form
  of an ObjectId is not modelled.
- View rendering is not modelled. Form values echoed back to the view and `console` logging
  are dropped.
- The welcome and dashboard routes are not modelled. `escapeHtml` is modelled on its own.
- `loginHandle`, `logoutHandle` (`req.logout`) and passport sessions are not modelled.
  Only the logout file's `isValidPassword` is modelled. It and the `isValidPassword` of
  `gotoReset.js` are declared but never called.
- The startup checks that exit when an environment variable is missing are left out.
