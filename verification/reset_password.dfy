/** `resetPassword` of controllers/resetPassword.js: three checks on the posted passwords that
    stop at the first failure, then the digest of the new password overwrites the password of
    the account whose `_id` is in the path. No token is consulted. The digest function is a
    parameter. */
module ResetPassword {
  import opened Wrappers
  import opened JsText
  import opened PasswordPolicy
  import opened UserModel
  import opened Outcomes
  import opened UserStore

  const MsgFillAll := "Veuillez remplir tous les champs."
  const MsgMismatch := "Les mots de passe ne correspondent pas."
  const MsgPolicy := "Le mot de passe doit contenir au moins 8 caractères, une majuscule, un chiffre et un caractère spécial."
  const MsgResetFailed := "Erreur lors de la réinitialisation du mot de passe."
  const MsgResetDone := "Mot de passe réinitialisé avec succès !"
  const MsgGeneric := "Une erreur est survenue. Veuillez réessayer."

  /** The guard chain: the message of the first check that fails, in the order empty fields,
      mismatch, policy; `None` when the new password is accepted. */
  function FirstError(pw: Field, pw2: Field): (e: Option<string>)
    ensures e.None? <==> Truthy(pw) && pw == pw2 && ResetIsValidPassword(pw.value)
    ensures !Truthy(pw) || !Truthy(pw2) ==> e == Some(MsgFillAll)
    ensures Truthy(pw) && Truthy(pw2) && pw != pw2 ==> e == Some(MsgMismatch)
    ensures Truthy(pw) && pw == pw2 && !ResetIsValidPassword(pw.value) ==> e == Some(MsgPolicy)
  {
    if !Truthy(pw) || !Truthy(pw2) then Some(MsgFillAll)
    else if pw != pw2 then Some(MsgMismatch)
    else if !ResetIsValidPassword(pw.value) then Some(MsgPolicy)
    else None
  }

  /** One reset request for path parameter `id` against the collection `accounts`. */
  function ResetPasswordStep(accounts: map<Id, Account>, hash: string -> string, id: string,
                             pw: Field, pw2: Field): (s: Step)
    // A rejected password flashes exactly one message and writes nothing.
    ensures FirstError(pw, pw2).Some? ==>
      s == Step(Fail(ResetPath(id), FirstError(pw, pw2).value), accounts)
    // An id that is not an ObjectId throws; an unknown one is reported; both write nothing.
    ensures FirstError(pw, pw2).None? && FindById(accounts, id).CastError? ==>
      s == Step(Fail(LoginPath, MsgGeneric), accounts)
    ensures FirstError(pw, pw2).None? && FindById(accounts, id).NotFound? ==>
      s == Step(Fail(ResetPath(id), MsgResetFailed), accounts)
    // Otherwise that account's password becomes the digest of the new password.
    ensures FirstError(pw, pw2).None? && FindById(accounts, id).Found? ==>
      var k := FindById(accounts, id).id;
      s.outcome == Done(LoginPath, MsgResetDone) && k in s.accounts && s.accounts[k].password == hash(pw.value)
    // Nothing else changes: no other account, and no other field of that one.
    ensures s.accounts.Keys == accounts.Keys
    ensures forall k | k in accounts ::
      && s.accounts[k].name == accounts[k].name && s.accounts[k].email == accounts[k].email
      && s.accounts[k].verified == accounts[k].verified && s.accounts[k].resetLink == accounts[k].resetLink
    ensures forall k | k in accounts && s.accounts[k].password != accounts[k].password ::
      s.outcome == Done(LoginPath, MsgResetDone) && FindById(accounts, id) == Found(k)
  {
    match FirstError(pw, pw2)
    case Some(msg) => Step(Fail(ResetPath(id), msg), accounts)
    case None =>
      match FindById(accounts, id)
      case CastError => Step(Fail(LoginPath, MsgGeneric), accounts)
      case NotFound => Step(Fail(ResetPath(id), MsgResetFailed), accounts)
      case Found(k) =>
        Step(Done(LoginPath, MsgResetDone), accounts[k := accounts[k].(password := hash(pw.value))])
  }

  /** `resetPassword(req, res)` against the collection `store`. */
  method ResetPasswordHandle(store: Store, hash: string -> string, id: string, pw: Field, pw2: Field)
    returns (r: Outcome)
    requires store.Valid() && DigestShaped(hash)
    modifies store
    ensures store.Valid()
    ensures Step(r, store.accounts) == ResetPasswordStep(old(store.accounts), hash, id, pw, pw2)
  {
    if !Truthy(pw) || !Truthy(pw2) {
      return Fail(ResetPath(id), MsgFillAll);
    }
    if pw != pw2 {
      return Fail(ResetPath(id), MsgMismatch);
    }
    if !ResetIsValidPassword(pw.value) {
      return Fail(ResetPath(id), MsgPolicy);
    }
    var digest := hash(pw.value);
    var result := store.FindByIdAndUpdatePassword(id, digest);
    match result
    case CastError => r := Fail(LoginPath, MsgGeneric);
    case NotFound => r := Fail(ResetPath(id), MsgResetFailed);
    case Found(_) => r := Done(LoginPath, MsgResetDone);
  }

  /** With bcrypt-shaped digests the request keeps the collection invariant. */
  lemma ResetKeepsInvariant(accounts: map<Id, Account>, isEmail: string -> bool, hash: string -> string,
                            id: string, pw: Field, pw2: Field)
    requires StoreInvariant(accounts, isEmail) && DigestShaped(hash)
    ensures StoreInvariant(ResetPasswordStep(accounts, hash, id, pw, pw2).accounts, isEmail)
  {
    var s := ResetPasswordStep(accounts, hash, id, pw, pw2);
    if s.accounts != accounts {
      var k := FindById(accounts, id).id;
      var a := accounts[k].(password := hash(pw.value));
      assert s.accounts == accounts[k := a];
      assert |a.password| == DigestLength;
      UpdateKeepsInvariant(accounts, isEmail, k, a);
    }
  }

  /** Unlike registration, two empty passwords draw a single message: the chain stops at the
      first failing check. */
  lemma EmptyPasswordsOneMessage(id: string, accounts: map<Id, Account>, hash: string -> string)
    ensures ResetPasswordStep(accounts, hash, id, Some(""), Some("")).outcome == Fail(ResetPath(id), MsgFillAll)
  {
  }

  /** Whoever knows an account's `_id` can set its password: the request carries no token and
      the handler checks none. */
  lemma IdAloneSuffices(accounts: map<Id, Account>, hash: string -> string, k: Id, p: string)
    requires k in accounts && IsObjectId(k) && ResetIsValidPassword(p)
    ensures var s := ResetPasswordStep(accounts, hash, k, Some(p), Some(p));
      s.outcome == Done(LoginPath, MsgResetDone) && s.accounts == accounts[k := accounts[k].(password := hash(p))]
  {
    FindByIdStoredKey(accounts, k);
  }
}
