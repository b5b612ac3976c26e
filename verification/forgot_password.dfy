/** `forgotPassword` of controllers/forgotPassword.js: the account holding the posted email gets
    a reset token, signed with `JWT_RESET_KEY` over its `_id`, written into its `resetLink`, and
    the link is mailed. The write comes before the mail, so a failed mail leaves the new
    `resetLink` in place. Whether the mail (and the OAuth2 token it needs) went out is a
    parameter. */
module ForgotPassword {
  import opened Wrappers
  import opened JsText
  import opened Tokens
  import opened UserModel
  import opened Outcomes
  import opened UserStore

  const ForgotView := "forgot"

  const MsgEnterEmail := "Please enter an email"
  const MsgUserNotFound := "User not found"
  const MsgLinkSent := "Password reset link sent. Check your email."
  const MsgError := "An error occurred. Please try again."

  /** `jwt.sign({ _id: user._id }, JWT_RESET_KEY, { expiresIn: '30m' })`: it verifies under
      `JWT_RESET_KEY`, giving back `id`, exactly for the thirty minutes from `now`, and never
      under `JWT_KEY`. */
  function ResetToken(id: Id, now: Time): (t: Token)
    ensures forall at :: Verify(t, JwtResetKey, at).Some? <==> at < now + ExpiresIn
    ensures forall at :: Verify(t, JwtResetKey, at).Some? ==> Verify(t, JwtResetKey, at).value.id == Some(id)
    ensures forall at :: Verify(t, JwtKey, at).None?
  {
    Sign(Claims(None, None, None, Some(id)), JwtResetKey, now)
  }

  /** One forgotten-password request against the collection `accounts`. */
  function ForgotStep(accounts: map<Id, Account>, email: Field, now: Time, mailSent: bool): (s: Step)
    requires EmailsUnique(accounts)
    // A falsy or unknown email re-renders the form and writes nothing.
    ensures !Truthy(email) ==> s == Step(Render(ForgotView, [MsgEnterEmail]), accounts)
    ensures Truthy(email) && !EmailTaken(accounts, email.value) ==>
      s == Step(Render(ForgotView, [MsgUserNotFound]), accounts)
    // A known email: only that account's resetLink changes, whatever the mail does.
    ensures Truthy(email) && EmailTaken(accounts, email.value) ==>
      var id := FindByEmail(accounts, email.value).value;
      && s.accounts == accounts[id := accounts[id].(resetLink := Some(ResetToken(id, now)))]
      && s.outcome == (if mailSent then Done(LoginPath, MsgLinkSent) else Fail(ForgotPath, MsgError))
    ensures s.accounts.Keys == accounts.Keys
    ensures forall id | id in accounts ::
      && s.accounts[id].name == accounts[id].name && s.accounts[id].email == accounts[id].email
      && s.accounts[id].password == accounts[id].password && s.accounts[id].verified == accounts[id].verified
  {
    if !Truthy(email) then
      Step(Render(ForgotView, [MsgEnterEmail]), accounts)
    else
      match FindByEmail(accounts, email.value)
      case None => Step(Render(ForgotView, [MsgUserNotFound]), accounts)
      case Some(id) =>
        var updated := accounts[id := accounts[id].(resetLink := Some(ResetToken(id, now)))];
        Step(if mailSent then Done(LoginPath, MsgLinkSent) else Fail(ForgotPath, MsgError), updated)
  }

  /** `forgotPassword(req, res)` against the collection `store`. */
  method ForgotPasswordHandle(store: Store, email: Field, now: Time, mailSent: bool) returns (r: Outcome)
    requires store.Valid()
    modifies store
    ensures store.Valid()
    ensures Step(r, store.accounts) == ForgotStep(old(store.accounts), email, now, mailSent)
  {
    if !Truthy(email) {
      return Render(ForgotView, [MsgEnterEmail]);
    }
    var user := FindByEmail(store.accounts, email.value);
    if user.None? {
      return Render(ForgotView, [MsgUserNotFound]);
    }
    var token := ResetToken(user.value, now);
    store.UpdateResetLink(user.value, token);
    if mailSent {
      r := Done(LoginPath, MsgLinkSent);
    } else {
      r := Fail(ForgotPath, MsgError);
    }
  }

  /** The request keeps the collection invariant. */
  lemma ForgotKeepsInvariant(accounts: map<Id, Account>, isEmail: string -> bool, email: Field, now: Time, mailSent: bool)
    requires StoreInvariant(accounts, isEmail)
    ensures StoreInvariant(ForgotStep(accounts, email, now, mailSent).accounts, isEmail)
  {
    var s := ForgotStep(accounts, email, now, mailSent);
    if Truthy(email) && EmailTaken(accounts, email.value) {
      var id := FindByEmail(accounts, email.value).value;
      UpdateKeepsInvariant(accounts, isEmail, id, accounts[id].(resetLink := Some(ResetToken(id, now))));
    }
  }

  /** A second request overwrites the first one's link: the account holds only the latest
      token, and every other account is as the first request left it. */
  lemma LatestRequestWins(accounts: map<Id, Account>, email: string, first: Time, second: Time, sent1: bool, sent2: bool)
    requires EmailsUnique(accounts) && email != "" && EmailTaken(accounts, email)
    ensures var once := ForgotStep(accounts, Some(email), first, sent1).accounts;
      && EmailsUnique(once)
      && var twice := ForgotStep(once, Some(email), second, sent2).accounts;
      && var id := FindByEmail(accounts, email).value;
      && twice == accounts[id := accounts[id].(resetLink := Some(ResetToken(id, second)))]
  {
    var id := FindByEmail(accounts, email).value;
    var once := ForgotStep(accounts, Some(email), first, sent1).accounts;
    assert forall k | k in once :: once[k].email == accounts[k].email;
    assert EmailsUnique(once);
    assert once[id].email == email;
    assert FindByEmail(once, email).value == id;
    var twice := ForgotStep(once, Some(email), second, sent2).accounts;
    assert twice == accounts[id := accounts[id].(resetLink := Some(ResetToken(id, second)))];
  }

  /** In this model, where `findOne` matches the stored email exactly, an email posted with an
      ASCII uppercase letter finds no account, since every stored email went through the
      `lowercase` setter. */
  lemma MixedCaseEmailNotFound(accounts: map<Id, Account>, isEmail: string -> bool, email: string,
                               i: nat, now: Time, mailSent: bool)
    requires StoreInvariant(accounts, isEmail) && i < |email| && IsAsciiUpper(email[i])
    ensures ForgotStep(accounts, Some(email), now, mailSent) == Step(Render(ForgotView, [MsgUserNotFound]), accounts)
  {
    forall id | id in accounts ensures accounts[id].email != email {
      assert ValidAccount(accounts[id], isEmail);
      assert HasNoAsciiUpper(NormalizeEmail(accounts[id].email));
    }
  }
}
