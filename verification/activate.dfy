/** `activateHandle` of controllers/activateHandle.js: the activation link's token is verified
    with `JWT_KEY`, an already registered email sends the visitor to the login page, and
    otherwise one new account is saved with the token's name and email and the digest of its
    password. The digest function and the `_id` Mongoose generates are parameters. */
module Activate {
  import opened Wrappers
  import opened JsText
  import opened Tokens
  import opened UserModel
  import opened Outcomes
  import opened UserStore

  const MsgTokenMissing := "Activation token missing!"
  const MsgAlreadyActive := "Cet email est déjà enregistré! Veuillez vous connecter."
  const MsgActivated := "Compte activé. Vous pouvez maintenant vous connecter."
  const MsgLinkInvalid := "Le lien est incorrect ou a expiré. Veuillez vous inscrire à nouveau."

  /** The claims carry all three fields `new User` and `bcryptjs.hash` need. */
  predicate Complete(c: Claims) {
    c.name.Some? && c.email.Some? && c.password.Some?
  }

  /** The document `new User({ name, email, password })` becomes once `newUser.password` is
      overwritten by the digest. */
  function Activated(c: Claims, hash: string -> string): (a: Account)
    requires Complete(c)
    ensures a.name == Trim(c.name.value) && a.email == NormalizeEmail(c.email.value)
    ensures a.password == hash(c.password.value) && !a.verified && a.resetLink.None?
    ensures Normalized(a)
  {
    NewAccount(c.name.value, c.email.value, c.password.value).(password := hash(c.password.value))
  }

  /** One activation request against the collection `accounts`. `newId` is the `_id` the new
      document receives. */
  function ActivateStep(accounts: map<Id, Account>, isEmail: string -> bool, hash: string -> string,
                        token: Option<Token>, now: Time, newId: Id): (s: Step)
    requires StoreInvariant(accounts, isEmail) && IsObjectId(newId)
    // A missing token, a token that does not verify under JWT_KEY, and a registered email
    // leave the collection as it is.
    ensures token.None? ==> s == Step(Fail(RegisterPath, MsgTokenMissing), accounts)
    ensures token.Some? && Verify(token.value, JwtKey, now).None? ==>
      s == Step(Fail(RegisterPath, MsgLinkInvalid), accounts)
    ensures (&& token.Some? && Verify(token.value, JwtKey, now).Some? && token.value.claims.email.Some?
             && EmailTaken(accounts, token.value.claims.email.value)) ==>
      s == Step(Fail(LoginPath, MsgAlreadyActive), accounts)
    // A verified token with all three claims, for an email nobody holds, succeeds exactly when
    // `save` accepts the new document; a failed `save` or missing claims land in the catch branch.
    ensures (&& token.Some? && Verify(token.value, JwtKey, now).Some? && Complete(token.value.claims)
             && !EmailTaken(accounts, token.value.claims.email.value)
             && SaveAccepted(accounts, isEmail, newId, Activated(token.value.claims, hash))) ==>
      s == Step(Done(LoginPath, MsgActivated), accounts[newId := Activated(token.value.claims, hash)])
    ensures (&& token.Some? && Verify(token.value, JwtKey, now).Some?
             && !(token.value.claims.email.Some? && EmailTaken(accounts, token.value.claims.email.value))
             && (!Complete(token.value.claims)
                 || !SaveAccepted(accounts, isEmail, newId, Activated(token.value.claims, hash)))) ==>
      s == Step(Fail(RegisterPath, MsgLinkInvalid), accounts)
    // The collection changes exactly when the activation succeeds, and then by one new record
    // built from the token's claims, holding the digest and not verified.
    ensures s.accounts != accounts <==> s.outcome == Done(LoginPath, MsgActivated)
    ensures s.outcome == Done(LoginPath, MsgActivated) ==>
      && token.Some? && Verify(token.value, JwtKey, now).Some? && Complete(token.value.claims)
      && newId !in accounts
      && s.accounts == accounts[newId := Activated(token.value.claims, hash)]
    ensures s.outcome != Done(LoginPath, MsgActivated) ==>
      s.outcome.Redirect? && s.outcome.flash.Some? && s.outcome.flash.value.kind == ErrorMsg
    ensures StoreInvariant(s.accounts, isEmail)
  {
    match token
    case None => Step(Fail(RegisterPath, MsgTokenMissing), accounts)
    case Some(t) =>
      match Verify(t, JwtKey, now)
      case None => Step(Fail(RegisterPath, MsgLinkInvalid), accounts)
      case Some(c) =>
        if c.email.Some? && EmailTaken(accounts, c.email.value) then
          Step(Fail(LoginPath, MsgAlreadyActive), accounts)
        else if !Complete(c) then
          Step(Fail(RegisterPath, MsgLinkInvalid), accounts)
        else
          var a := Activated(c, hash);
          if SaveAccepted(accounts, isEmail, newId, a) then
            InsertKeepsInvariant(accounts, isEmail, newId, a);
            assert newId !in accounts;
            Step(Done(LoginPath, MsgActivated), accounts[newId := a])
          else
            Step(Fail(RegisterPath, MsgLinkInvalid), accounts)
  }

  /** `activateHandle(req, res)` against the collection `store`. */
  method ActivateHandle(store: Store, hash: string -> string, token: Option<Token>, now: Time, newId: Id)
    returns (r: Outcome)
    requires store.Valid() && IsObjectId(newId)
    modifies store
    ensures store.Valid()
    ensures Step(r, store.accounts) == ActivateStep(old(store.accounts), store.isEmail, hash, token, now, newId)
  {
    if token.None? {
      return Fail(RegisterPath, MsgTokenMissing);
    }
    var decoded := Verify(token.value, JwtKey, now);
    if decoded.None? {
      return Fail(RegisterPath, MsgLinkInvalid);
    }
    var c := decoded.value;
    if c.email.Some? {
      var existing := FindByEmail(store.accounts, c.email.value);
      if existing.Some? {
        return Fail(LoginPath, MsgAlreadyActive);
      }
    }
    if c.name.None? || c.email.None? || c.password.None? {
      return Fail(RegisterPath, MsgLinkInvalid);
    }
    var newUser := NewAccount(c.name.value, c.email.value, c.password.value);
    newUser := newUser.(password := hash(c.password.value));
    var ok := store.Save(newId, newUser);
    if !ok {
      return Fail(RegisterPath, MsgLinkInvalid);
    }
    r := Done(LoginPath, MsgActivated);
  }

  /** Redeeming the same link a second time creates no second account: the first redemption
      stored the token's email, so either the lookup finds it or the unique index refuses it. */
  lemma ReplayCreatesNothing(accounts: map<Id, Account>, isEmail: string -> bool, hash: string -> string,
                             t: Token, now: Time, newId: Id, later: Time, laterId: Id)
    requires StoreInvariant(accounts, isEmail) && IsObjectId(newId) && IsObjectId(laterId)
    requires Verify(t, JwtKey, now).Some? && Complete(t.claims) && !EmailTaken(accounts, t.claims.email.value)
    requires SaveAccepted(accounts, isEmail, newId, Activated(t.claims, hash))
    ensures var after := ActivateStep(accounts, isEmail, hash, Some(t), now, newId).accounts;
      && after == accounts[newId := Activated(t.claims, hash)]
      && ActivateStep(after, isEmail, hash, Some(t), later, laterId).accounts == after
  {
    var after := ActivateStep(accounts, isEmail, hash, Some(t), now, newId).accounts;
    var a := Activated(t.claims, hash);
    assert after == accounts[newId := a];
    assert after[newId] == a;
    assert EmailTaken(after, a.email);
    assert !SaveAccepted(after, isEmail, laterId, a);
  }

  /** Once thirty minutes have passed, the link creates nothing and asks to register again. */
  lemma ExpiredLinkCreatesNothing(accounts: map<Id, Account>, isEmail: string -> bool, hash: string -> string,
                                  c: Claims, issued: Time, now: Time, newId: Id)
    requires StoreInvariant(accounts, isEmail) && IsObjectId(newId)
    requires now >= issued + ExpiresIn
    ensures ActivateStep(accounts, isEmail, hash, Some(Sign(c, JwtKey, issued)), now, newId)
      == Step(Fail(RegisterPath, MsgLinkInvalid), accounts)
  {
    VerifySign(c, JwtKey, issued, now);
  }

  /** A reset token, signed with `JWT_RESET_KEY`, never activates anything. */
  lemma ResetTokenCannotActivate(accounts: map<Id, Account>, isEmail: string -> bool, hash: string -> string,
                                 c: Claims, issued: Time, now: Time, newId: Id)
    requires StoreInvariant(accounts, isEmail) && IsObjectId(newId)
    ensures ActivateStep(accounts, isEmail, hash, Some(Sign(c, JwtResetKey, issued)), now, newId).accounts == accounts
  {
    SecretsNotInterchangeable(c, issued, now);
  }
}
