/** The `users` collection as the controllers see it through Mongoose: a map from `_id` to
    account, with the unique indexes on `_id` and `email`. A `save` runs the schema validators
    and the unique indexes; `updateOne` and `findByIdAndUpdate` run neither (Mongoose's update
    validators are off by default). */
module UserStore {
  import opened Wrappers
  import opened JsText
  import opened Tokens
  import opened UserModel
  import opened Outcomes

  /** What one controller call does: its answer and the collection afterwards. */
  datatype Step = Step(outcome: Outcome, accounts: map<Id, Account>)

  predicate EmailsUnique(accounts: map<Id, Account>) {
    forall i, j :: i in accounts && j in accounts && accounts[i].email == accounts[j].email ==> i == j
  }

  /** `User.findOne({ email })` finds a record: an exact match on the stored email. */
  predicate EmailTaken(accounts: map<Id, Account>, email: string) {
    exists id :: id in accounts && accounts[id].email == email
  }

  /** The collection invariant: ids are ObjectIds, every record passed validation and went
      through the setters, and the unique index on `email` holds. */
  predicate StoreInvariant(accounts: map<Id, Account>, isEmail: string -> bool) {
    && (forall id :: id in accounts ==> IsObjectId(id) && ValidAccount(accounts[id], isEmail))
    && EmailsUnique(accounts)
  }

  /** `User.findOne({ email })`: the `_id` of the one record holding that email, if any. */
  function FindByEmail(accounts: map<Id, Account>, email: string): (r: Option<Id>)
    requires EmailsUnique(accounts)
    ensures r.Some? <==> EmailTaken(accounts, email)
    ensures r.Some? ==> r.value in accounts && accounts[r.value].email == email
    ensures r.Some? ==> forall id :: id in accounts && accounts[id].email == email ==> id == r.value
  {
    if EmailTaken(accounts, email) then
      var id :| id in accounts && accounts[id].email == email; Some(id)
    else None
  }

  /** The result of `User.findById(text)`. */
  datatype ByIdResult = CastError | NotFound | Found(id: Id)

  function FindById(accounts: map<Id, Account>, text: string): (r: ByIdResult)
    ensures r.CastError? <==> CastObjectId(text).None?
    ensures r.Found? <==> CastObjectId(text).Some? && CastObjectId(text).value in accounts
    ensures r.Found? ==> r.id == CastObjectId(text).value
  {
    match CastObjectId(text)
    case None => CastError
    case Some(id) => if id in accounts then Found(id) else NotFound
  }

  /** `findById` finds every stored record by its `_id`, and also by the same text with any of
      its hexadecimal letters in uppercase. */
  lemma FindByIdStoredKey(accounts: map<Id, Account>, k: Id)
    requires k in accounts && IsObjectId(k)
    ensures FindById(accounts, k) == Found(k)
    ensures forall text :: LowerAscii(text) == k ==> FindById(accounts, text) == Found(k)
  {
    forall text | LowerAscii(text) == k
      ensures FindById(accounts, text) == Found(k)
    {
      forall i | 0 <= i < |text|
        ensures IsHexDigit(text[i])
      {
        assert LowerChar(text[i]) == k[i];
      }
    }
  }

  /** Whether `save` of a new document with `_id` `id` succeeds: the validators pass and neither
      unique index is violated. */
  predicate SaveAccepted(accounts: map<Id, Account>, isEmail: string -> bool, id: Id, a: Account) {
    Conforms(a, isEmail) && id !in accounts && !EmailTaken(accounts, a.email)
  }

  lemma InsertKeepsUnique(accounts: map<Id, Account>, id: Id, a: Account)
    requires EmailsUnique(accounts) && !EmailTaken(accounts, a.email)
    ensures EmailsUnique(accounts[id := a])
  {
    var m := accounts[id := a];
    assert forall k | k in accounts :: accounts[k].email != a.email;
    forall i, j | i in m && j in m && m[i].email == m[j].email ensures i == j {
    }
  }

  lemma PutKeepsValid(accounts: map<Id, Account>, isEmail: string -> bool, id: Id, a: Account)
    requires forall i :: i in accounts ==> IsObjectId(i) && ValidAccount(accounts[i], isEmail)
    requires IsObjectId(id) && ValidAccount(a, isEmail)
    ensures forall i :: i in accounts[id := a] ==> IsObjectId(i) && ValidAccount(accounts[id := a][i], isEmail)
  {
    var m := accounts[id := a];
    forall i | i in m ensures IsObjectId(i) && ValidAccount(m[i], isEmail) {
      if i != id { assert m[i] == accounts[i]; }
    }
  }

  /** A successful insert keeps the collection invariant (in particular, emails stay unique). */
  lemma InsertKeepsInvariant(accounts: map<Id, Account>, isEmail: string -> bool, id: Id, a: Account)
    requires StoreInvariant(accounts, isEmail)
    requires IsObjectId(id) && Normalized(a) && SaveAccepted(accounts, isEmail, id, a)
    ensures StoreInvariant(accounts[id := a], isEmail)
  {
    InsertKeepsUnique(accounts, id, a);
    PutKeepsValid(accounts, isEmail, id, a);
  }

  lemma UpdateKeepsUnique(accounts: map<Id, Account>, id: Id, a: Account)
    requires EmailsUnique(accounts) && id in accounts && a.email == accounts[id].email
    ensures EmailsUnique(accounts[id := a])
  {
    var m := accounts[id := a];
    assert forall k | k in m :: m[k].email == accounts[k].email;
  }

  /** Replacing one record by one with the same name and email whose password string is long
      enough keeps the collection invariant. */
  lemma UpdateKeepsInvariant(accounts: map<Id, Account>, isEmail: string -> bool, id: Id, a: Account)
    requires StoreInvariant(accounts, isEmail) && id in accounts
    requires a.name == accounts[id].name && a.email == accounts[id].email
    requires JsLength(a.password) >= PasswordMinLength
    ensures StoreInvariant(accounts[id := a], isEmail)
  {
    UpdateKeepsUnique(accounts, id, a);
    assert ValidAccount(accounts[id], isEmail);
    assert ValidAccount(a, isEmail);
    PutKeepsValid(accounts, isEmail, id, a);
  }

  class Store {
    var accounts: map<Id, Account>
    /** `validator.isEmail`, the email field's validator. */
    const isEmail: string -> bool

    ghost predicate Valid()
      reads this
    {
      StoreInvariant(accounts, isEmail)
    }

    constructor (isEmail: string -> bool)
      ensures Valid() && accounts == map[] && this.isEmail == isEmail
    {
      this.accounts := map[];
      this.isEmail := isEmail;
    }

    /** `newUser.save()` for a new document whose `_id` is `id`. */
    method Save(id: Id, a: Account) returns (ok: bool)
      requires Valid() && IsObjectId(id) && Normalized(a)
      modifies this
      ensures Valid()
      ensures ok == SaveAccepted(old(accounts), isEmail, id, a)
      ensures accounts == if ok then old(accounts)[id := a] else old(accounts)
    {
      ok := Conforms(a, isEmail) && id !in accounts && !EmailTaken(accounts, a.email);
      if ok {
        InsertKeepsInvariant(accounts, isEmail, id, a);
        accounts := accounts[id := a];
      }
    }

    /** `User.updateOne({ _id: id }, { resetLink: link })`: no record matched is no change. */
    method UpdateResetLink(id: Id, link: Token)
      requires Valid()
      modifies this
      ensures Valid()
      ensures accounts == if id in old(accounts) then old(accounts)[id := old(accounts)[id].(resetLink := Some(link))] else old(accounts)
    {
      if id in accounts {
        UpdateKeepsInvariant(accounts, isEmail, id, accounts[id].(resetLink := Some(link)));
        accounts := accounts[id := accounts[id].(resetLink := Some(link))];
      }
    }

    /** `User.findByIdAndUpdate(text, { password: digest })`: a CastError for text that is not an
        ObjectId, `null` when no record has that id, the record otherwise. */
    method FindByIdAndUpdatePassword(text: string, digest: string) returns (r: ByIdResult)
      requires Valid() && |digest| == DigestLength
      modifies this
      ensures Valid()
      ensures r == FindById(old(accounts), text)
      ensures accounts == if r.Found? then old(accounts)[r.id := old(accounts)[r.id].(password := digest)] else old(accounts)
    {
      r := FindById(accounts, text);
      if r.Found? {
        UpdateKeepsInvariant(accounts, isEmail, r.id, accounts[r.id].(password := digest));
        accounts := accounts[r.id := accounts[r.id].(password := digest)];
      }
    }
  }
}
