/** The account lifecycle across the controllers that write: any sequence of activation,
    forgotten-password and reset requests keeps the collection invariant (emails stay unique)
    and never marks an account as verified; a reset link leads to the reset page of the account
    it was issued for. Registration and `gotoReset` never write, so they do not appear in a
    run. */
module Lifecycle {
  import opened Wrappers
  import opened JsText
  import opened Tokens
  import opened UserModel
  import opened Outcomes
  import opened UserStore
  import Activate
  import ForgotPassword
  import GotoReset
  import ResetPassword

  /** A request to one of the controllers that write, with the inputs the model takes as
      parameters. */
  datatype Request =
    | ActivateReq(token: Option<Token>, now: Time, newId: Id)
    | ForgotReq(email: Field, now: Time, mailSent: bool)
    | ResetReq(id: string, pw: Field, pw2: Field)

  /** Mongoose only ever hands out ObjectIds as new `_id`s. */
  predicate Admissible(req: Request) {
    req.ActivateReq? ==> IsObjectId(req.newId)
  }

  function Apply(accounts: map<Id, Account>, isEmail: string -> bool, hash: string -> string, req: Request): (s: Step)
    requires StoreInvariant(accounts, isEmail) && DigestShaped(hash) && Admissible(req)
    ensures StoreInvariant(s.accounts, isEmail)
  {
    match req
    case ActivateReq(token, now, newId) => Activate.ActivateStep(accounts, isEmail, hash, token, now, newId)
    case ForgotReq(email, now, mailSent) =>
      ForgotPassword.ForgotKeepsInvariant(accounts, isEmail, email, now, mailSent);
      ForgotPassword.ForgotStep(accounts, email, now, mailSent)
    case ResetReq(id, pw, pw2) =>
      ResetPassword.ResetKeepsInvariant(accounts, isEmail, hash, id, pw, pw2);
      ResetPassword.ResetPasswordStep(accounts, hash, id, pw, pw2)
  }

  /** The collection after the requests `reqs`, served one after the other. */
  function Run(accounts: map<Id, Account>, isEmail: string -> bool, hash: string -> string, reqs: seq<Request>): (final: map<Id, Account>)
    requires StoreInvariant(accounts, isEmail) && DigestShaped(hash)
    requires forall i :: 0 <= i < |reqs| ==> Admissible(reqs[i])
    ensures StoreInvariant(final, isEmail)
    ensures EmailsUnique(final)
    ensures accounts.Keys <= final.Keys
    decreases |reqs|
  {
    if reqs == [] then accounts
    else
      var s := Apply(accounts, isEmail, hash, reqs[0]);
      ApplyKeepsIds(accounts, isEmail, hash, reqs[0]);
      Run(s.accounts, isEmail, hash, reqs[1..])
  }

  /** No request removes an account. */
  lemma ApplyKeepsIds(accounts: map<Id, Account>, isEmail: string -> bool, hash: string -> string, req: Request)
    requires StoreInvariant(accounts, isEmail) && DigestShaped(hash) && Admissible(req)
    ensures accounts.Keys <= Apply(accounts, isEmail, hash, req).accounts.Keys
  {
  }

  predicate NoneVerified(accounts: map<Id, Account>) {
    forall k | k in accounts :: !accounts[k].verified
  }

  /** No request sets `verified`: an account verified afterwards was verified before. */
  lemma ApplyNeverVerifies(accounts: map<Id, Account>, isEmail: string -> bool, hash: string -> string, req: Request)
    requires StoreInvariant(accounts, isEmail) && DigestShaped(hash) && Admissible(req)
    ensures var after := Apply(accounts, isEmail, hash, req).accounts;
      forall k | k in after && after[k].verified :: k in accounts && accounts[k].verified
  {
    match req
    case ActivateReq(token, now, newId) =>
      var s := Activate.ActivateStep(accounts, isEmail, hash, token, now, newId);
      if s.outcome == Done(LoginPath, Activate.MsgActivated) {
        assert !s.accounts[newId].verified;
      } else {
        assert s.accounts == accounts;
      }
    case ForgotReq(email, now, mailSent) =>
      var s := ForgotPassword.ForgotStep(accounts, email, now, mailSent);
      assert s.accounts.Keys == accounts.Keys;
    case ResetReq(id, pw, pw2) =>
      var s := ResetPassword.ResetPasswordStep(accounts, hash, id, pw, pw2);
      assert s.accounts.Keys == accounts.Keys;
  }

  /** The requests after the first are admissible when all of them are. */
  lemma TailAdmissible(reqs: seq<Request>)
    requires reqs != [] && forall i :: 0 <= i < |reqs| ==> Admissible(reqs[i])
    ensures forall i :: 0 <= i < |reqs[1..]| ==> Admissible(reqs[1..][i])
  {
    assert forall i :: 0 <= i < |reqs[1..]| ==> reqs[1..][i] == reqs[i + 1];
  }

  /** Serving the first request, then the rest. */
  lemma RunUnfold(accounts: map<Id, Account>, isEmail: string -> bool, hash: string -> string, reqs: seq<Request>)
    requires StoreInvariant(accounts, isEmail) && DigestShaped(hash) && reqs != []
    requires forall i :: 0 <= i < |reqs| ==> Admissible(reqs[i])
    requires forall i :: 0 <= i < |reqs[1..]| ==> Admissible(reqs[1..][i])
    ensures var s := Apply(accounts, isEmail, hash, reqs[0]);
      Run(accounts, isEmail, hash, reqs) == Run(s.accounts, isEmail, hash, reqs[1..])
  {
  }

  /** Starting from a collection where no account is verified, none ever is: the controllers
      modelled here never set the flag the schema declares. */
  lemma {:induction false} RunNeverVerifies(accounts: map<Id, Account>, isEmail: string -> bool, hash: string -> string, reqs: seq<Request>)
    requires StoreInvariant(accounts, isEmail) && DigestShaped(hash)
    requires forall i :: 0 <= i < |reqs| ==> Admissible(reqs[i])
    requires NoneVerified(accounts)
    ensures NoneVerified(Run(accounts, isEmail, hash, reqs))
    decreases |reqs|
  {
    if reqs != [] {
      var s := Apply(accounts, isEmail, hash, reqs[0]);
      ApplyNeverVerifies(accounts, isEmail, hash, reqs[0]);
      TailAdmissible(reqs);
      RunUnfold(accounts, isEmail, hash, reqs);
      RunNeverVerifies(s.accounts, isEmail, hash, reqs[1..]);
    }
  }

  /** The reset link `forgotPassword` stores and mails opens the reset page of that account for
      thirty minutes. */
  lemma ForgotThenGotoReset(accounts: map<Id, Account>, isEmail: string -> bool, email: string,
                            issued: Time, mailSent: bool, now: Time)
    requires StoreInvariant(accounts, isEmail) && email != "" && EmailTaken(accounts, email)
    requires now < issued + ExpiresIn
    ensures var id := FindByEmail(accounts, email).value;
      var after := ForgotPassword.ForgotStep(accounts, Some(email), issued, mailSent).accounts;
      && id in after && after[id].resetLink == Some(ForgotPassword.ResetToken(id, issued))
      && GotoReset.GotoReset(after, after[id].resetLink, now) == Redirect(ResetPath(id), None)
  {
    var id := FindByEmail(accounts, email).value;
    var after := ForgotPassword.ForgotStep(accounts, Some(email), issued, mailSent).accounts;
    var t := ForgotPassword.ResetToken(id, issued);
    VerifySign(t.claims, JwtResetKey, issued, now);
    assert IsObjectId(id);
    FindByIdStoredKey(after, id);
  }

  /** A registration's activation link, redeemed in time for an email nobody holds, adds the
      account the form described, with the digest of its password and not verified, provided the
      validators and the `_id` index accept it. */
  lemma RegisterThenActivate(accounts: map<Id, Account>, isEmail: string -> bool, hash: string -> string,
                             name: string, email: string, pw: string, issued: Time, now: Time, newId: Id)
    requires StoreInvariant(accounts, isEmail) && IsObjectId(newId)
    requires now < issued + ExpiresIn && !EmailTaken(accounts, email)
    requires var c := Claims(Some(name), Some(email), Some(pw), None);
      SaveAccepted(accounts, isEmail, newId, Activate.Activated(c, hash))
    ensures var c := Claims(Some(name), Some(email), Some(pw), None);
      var s := Activate.ActivateStep(accounts, isEmail, hash, Some(Sign(c, JwtKey, issued)), now, newId);
      && s.outcome == Done(LoginPath, Activate.MsgActivated)
      && s.accounts == accounts[newId := Account(Trim(name), NormalizeEmail(email), hash(pw), false, None)]
  {
    var c := Claims(Some(name), Some(email), Some(pw), None);
    VerifySign(c, JwtKey, issued, now);
  }
}
