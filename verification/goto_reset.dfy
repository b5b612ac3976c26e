/** `gotoReset` of controllers/gotoReset.js: the link mailed by `forgotPassword` is checked with
    `JWT_RESET_KEY`, the `_id` it carries is looked up, and the visitor is sent to the reset
    page of that account. It writes nothing and does not compare the token with the account's
    stored `resetLink`. */
module GotoReset {
  import opened Wrappers
  import opened JsText
  import opened Tokens
  import opened UserModel
  import opened Outcomes
  import opened UserStore

  const MsgLinkMissing := "Lien invalide ou expiré."
  const MsgLinkWrong := "Lien incorrect ou expiré."
  const MsgGeneric := "Une erreur est survenue. Veuillez réessayer."

  /** The claims of `token` when it verifies under `JWT_RESET_KEY` at `now` and carries a truthy
      `_id`. */
  predicate CarriesId(token: Option<Token>, now: Time) {
    token.Some? && Verify(token.value, JwtResetKey, now).Some? && Truthy(token.value.claims.id)
  }

  /** `gotoReset(req, res)`: a redirect to the reset page of the account the token names, or
      back to the login page with an error. */
  function GotoReset(accounts: map<Id, Account>, token: Option<Token>, now: Time): (r: Outcome)
    ensures r.Redirect?
    // The reset page is reached exactly for a verified token whose `_id` names an account,
    // and it is that account's page.
    ensures r.flash.None? <==> CarriesId(token, now) && FindById(accounts, token.value.claims.id.value).Found?
    ensures r.flash.None? ==>
      var id := FindById(accounts, token.value.claims.id.value).id;
      id in accounts && r.path == ResetPath(id)
    ensures r.flash.Some? ==> r.path == LoginPath && r.flash.value.kind == ErrorMsg
    // Which message each failure flashes.
    ensures token.None? ==> r == Fail(LoginPath, MsgLinkMissing)
    ensures token.Some? && Verify(token.value, JwtResetKey, now).None? ==> r == Fail(LoginPath, MsgGeneric)
    ensures token.Some? && Verify(token.value, JwtResetKey, now).Some? && !Truthy(token.value.claims.id) ==>
      r == Fail(LoginPath, MsgLinkWrong)
    ensures CarriesId(token, now) && FindById(accounts, token.value.claims.id.value).CastError? ==>
      r == Fail(LoginPath, MsgGeneric)
    ensures CarriesId(token, now) && FindById(accounts, token.value.claims.id.value).NotFound? ==>
      r == Fail(LoginPath, MsgLinkWrong)
  {
    match token
    case None => Fail(LoginPath, MsgLinkMissing)
    case Some(t) =>
      match Verify(t, JwtResetKey, now)
      case None => Fail(LoginPath, MsgGeneric)
      case Some(c) =>
        if !Truthy(c.id) then Fail(LoginPath, MsgLinkWrong)
        else
          match FindById(accounts, c.id.value)
          case CastError => Fail(LoginPath, MsgGeneric)
          case NotFound => Fail(LoginPath, MsgLinkWrong)
          case Found(id) => Redirect(ResetPath(id), None)
  }

  /** An activation link, signed with `JWT_KEY`, never opens a reset page. */
  lemma ActivationTokenRejected(accounts: map<Id, Account>, c: Claims, issued: Time, now: Time)
    ensures GotoReset(accounts, Some(Sign(c, JwtKey, issued)), now) == Fail(LoginPath, MsgGeneric)
  {
    SecretsNotInterchangeable(c, issued, now);
  }

  /** Only the set of ids matters: two collections with the same ids give the same answer, so
      the stored `resetLink` (or any other field) is never consulted. */
  lemma DependsOnlyOnIds(a1: map<Id, Account>, a2: map<Id, Account>, token: Option<Token>, now: Time)
    requires a1.Keys == a2.Keys
    ensures GotoReset(a1, token, now) == GotoReset(a2, token, now)
  {
    if CarriesId(token, now) {
      var text := token.value.claims.id.value;
      assert FindById(a1, text) == FindById(a2, text);
    }
  }

  /** In particular a link that is no longer the account's stored `resetLink` (a newer request
      replaced it) still opens the reset page while it has not expired. */
  lemma SupersededLinkStillAdmits(accounts: map<Id, Account>, id: Id, issued: Time, newer: Token, now: Time)
    requires id in accounts && IsObjectId(id) && now < issued + ExpiresIn
    ensures var stale := Sign(Claims(None, None, None, Some(id)), JwtResetKey, issued);
      var replaced := accounts[id := accounts[id].(resetLink := Some(newer))];
      GotoReset(replaced, Some(stale), now) == Redirect(ResetPath(id), None)
  {
    var t := Sign(Claims(None, None, None, Some(id)), JwtResetKey, issued);
    var replaced := accounts[id := accounts[id].(resetLink := Some(newer))];
    VerifySign(t.claims, JwtResetKey, issued, now);
    FindByIdStoredKey(replaced, id);
  }

  /** The path alone tells success from failure: only a reset page is not the login page. */
  lemma PathTellsOutcome(accounts: map<Id, Account>, token: Option<Token>, now: Time)
    ensures GotoReset(accounts, token, now).path != LoginPath <==> GotoReset(accounts, token, now).flash.None?
  {
  }
}
