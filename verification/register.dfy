/** `registerHandle` of controllers/registerHandle.js: the registration form is checked by three
    validations that all run and accumulate their messages, the store is only read, and on
    success an activation token is signed with `JWT_KEY` and mailed. Whether the OAuth2 access
    token could be obtained and whether the mail went out are parameters. */
module Register {
  import opened Wrappers
  import opened JsText
  import opened PasswordPolicy
  import opened Tokens
  import opened UserModel
  import opened Outcomes
  import opened UserStore

  const RegisterView := "register"

  const MsgFillAll := "Veuillez remplir tous les champs"
  const MsgMismatch := "Les mots de passe ne correspondent pas"
  const MsgPolicy := "Le mot de passe doit contenir au moins 8 caractères et un caractère spécial"
  const MsgAlreadyRegistered := "Cet email est déjà enregistré"
  const MsgGoogle := "Erreur de connexion avec Google"
  const MsgLinkSent := "Lien d’activation envoyé. Vérifiez votre boîte mail."
  const MsgGeneric := "Une erreur est survenue. Veuillez réessayer."

  /** `req.body` of the registration form. */
  datatype Form = Form(name: Field, email: Field, password: Field, password2: Field)

  /** `!name || !email || !password || !password2`. */
  predicate MissingField(f: Form) {
    !Truthy(f.name) || !Truthy(f.email) || !Truthy(f.password) || !Truthy(f.password2)
  }

  /** The `errors` array after the three validations, in push order. */
  function ValidationErrors(f: Form): seq<string>
  {
    Pushed(MsgFillAll, MissingField(f), MsgMismatch, f.password != f.password2,
           MsgPolicy, !RegisterIsValidPassword(f.password))
  }

  /** The messages pushed by checks that failed, in check order. */
  function Pushed<T>(x: T, p: bool, y: T, q: bool, z: T, r: bool): seq<T> {
    (if p then [x] else []) + (if q then [y] else []) + (if r then [z] else [])
  }

  lemma PushedFacts<T>(x: T, p: bool, y: T, q: bool, z: T, r: bool)
    requires x != y && y != z && x != z
    ensures var errs := Pushed(x, p, y, q, z, r);
      && (x in errs <==> p) && (y in errs <==> q) && (z in errs <==> r)
      && (forall m :: m in errs ==> m == x || m == y || m == z)
      && (forall i, j :: 0 <= i < j < |errs| ==> errs[i] != errs[j])
      && (p ==> errs[0] == x)
      && (r ==> errs[|errs| - 1] == z)
      && (errs == [] <==> !p && !q && !r)
  {
  }

  /** Each message is present exactly when its check fails, none twice, the missing-field
      message first and the policy message last; no error means the name and email are filled
      and the passwords agree. */
  lemma ValidationErrorsFacts(f: Form)
    ensures var errs := ValidationErrors(f);
      && (MsgFillAll in errs <==> MissingField(f))
      && (MsgMismatch in errs <==> f.password != f.password2)
      && (MsgPolicy in errs <==> !RegisterIsValidPassword(f.password))
      && (forall m :: m in errs ==> m == MsgFillAll || m == MsgMismatch || m == MsgPolicy)
      && (forall i, j :: 0 <= i < j < |errs| ==> errs[i] != errs[j])
      && (MsgFillAll in errs ==> errs[0] == MsgFillAll)
      && (MsgPolicy in errs ==> errs[|errs| - 1] == MsgPolicy)
      && (errs == [] ==> Truthy(f.name) && Truthy(f.email) && f.password == f.password2)
  {
    assert |MsgFillAll| != |MsgMismatch| && |MsgMismatch| != |MsgPolicy| && |MsgFillAll| != |MsgPolicy|;
    PushedFacts(MsgFillAll, MissingField(f), MsgMismatch, f.password != f.password2,
                MsgPolicy, !RegisterIsValidPassword(f.password));
  }

  /** The three validations of `registerHandle`, each pushing its message onto `errors`. */
  method Validate(form: Form) returns (errors: seq<string>)
    ensures errors == ValidationErrors(form)
  {
    errors := [];
    if MissingField(form) {
      errors := errors + [MsgFillAll];
    }
    if form.password != form.password2 {
      errors := errors + [MsgMismatch];
    }
    if !RegisterIsValidPassword(form.password) {
      errors := errors + [MsgPolicy];
    }
  }

  /** `registerHandle(req, res)`. `issued` is the activation token signed on the way (it is
      signed before the mail is attempted). The store is read, never written. */
  method RegisterHandle(store: Store, form: Form, gotAccessToken: bool, mailSent: bool, now: Time)
    returns (r: Outcome, issued: Option<Token>)
    requires store.Valid()
    ensures ValidationErrors(form) != [] ==> r == Render(RegisterView, ValidationErrors(form)) && issued.None?
    ensures ValidationErrors(form) == [] && EmailTaken(store.accounts, form.email.value) ==>
      r == Render(RegisterView, [MsgAlreadyRegistered]) && issued.None?
    ensures ValidationErrors(form) == [] && !EmailTaken(store.accounts, form.email.value) && !gotAccessToken ==>
      r == Render(RegisterView, [MsgGoogle]) && issued.None?
    ensures ValidationErrors(form) == [] && !EmailTaken(store.accounts, form.email.value) && gotAccessToken ==>
      && issued == Some(Sign(Claims(form.name, form.email, form.password, None), JwtKey, now))
      && r == (if mailSent then Done(LoginPath, MsgLinkSent) else Fail(RegisterPath, MsgGeneric))
    ensures issued.Some? <==> r.Redirect?
  {
    var errors := Validate(form);
    if |errors| > 0 {
      return Render(RegisterView, errors), None;
    }
    var existing := FindByEmail(store.accounts, form.email.value);
    if existing.Some? {
      // `errors` is empty at this point: the push leaves this one message.
      errors := [MsgAlreadyRegistered];
      return Render(RegisterView, errors), None;
    }
    if !gotAccessToken {
      errors := [MsgGoogle];
      return Render(RegisterView, errors), None;
    }
    var token := Sign(Claims(form.name, form.email, form.password, None), JwtKey, now);
    issued := Some(token);
    if mailSent {
      r := Done(LoginPath, MsgLinkSent);
    } else {
      r := Fail(RegisterPath, MsgGeneric);
    }
  }

  /** Two empty passwords compare equal, so they draw the missing-field and the policy messages
      but no mismatch message. */
  lemma EmptyPasswordsNoMismatch(name: Field, email: Field)
    ensures ValidationErrors(Form(name, email, Some(""), Some(""))) == [MsgFillAll, MsgPolicy]
  {
  }

  /** With every field filled, matching passwords and the register policy met, there is no
      error: in particular "abcdefg!", with neither uppercase letter nor digit, is accepted. */
  lemma LowercaseSpecialAccepted(name: string, email: string, pw: string)
    requires name != "" && email != "" && pw == "abcdefg!"
    ensures ValidationErrors(Form(Some(name), Some(email), Some(pw), Some(pw))) == []
  {
    RegisterDoesNotImplyReset(pw);
  }

  /** A form failing all three checks gets the three messages, in source order. */
  lemma AllThreeInOrder(f: Form)
    requires MissingField(f) && f.password != f.password2 && !RegisterIsValidPassword(f.password)
    ensures ValidationErrors(f) == [MsgFillAll, MsgMismatch, MsgPolicy]
  {
  }
}
