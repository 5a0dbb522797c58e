/** The `user` table as the core sees it through the ORM: rows in insertion
    order, a unique `email` column, lookups by email and by id, insertion and
    update by id. Only the behaviour the core depends on is modelled. */
module Database {
  import opened Wrappers

  /** A stored user. `name` is nullable; `password` holds the bcrypt hash. */
  datatype User = User(id: string, name: Option<string>, email: string, password: string)

  /** A user with the password omitted (`omit: { password: true }`), and
      the `{id, name, email}` shape the authentication services return. */
  datatype PublicUser = PublicUser(id: string, name: Option<string>, email: string)

  function Public(u: User): PublicUser {
    PublicUser(u.id, u.name, u.email)
  }

  type Table = seq<User>

  /** Errors the ORM raises for the operations modelled here. */
  datatype DbError =
    | UniqueViolation(field: string)
    | RecordNotFound

  /** The fields an update may set; `None` leaves the column unchanged,
      as `undefined` does in an ORM update. */
  datatype UserPatch = UserPatch(name: Option<string>, email: Option<string>, password: Option<string>)

  function Emails(t: Table): set<string> {
    set i | 0 <= i < |t| :: t[i].email
  }

  function Ids(t: Table): set<string> {
    set i | 0 <= i < |t| :: t[i].id
  }

  /** The unique constraint on `email`. */
  ghost predicate UniqueEmails(t: Table) {
    forall i, j :: 0 <= i < j < |t| ==> t[i].email != t[j].email
  }

  /** `findUserByEmail`: the stored user with that email, if any. */
  function FindByEmail(t: Table, email: string): (r: Option<User>)
    ensures r.None? <==> email !in Emails(t)
    ensures r.Some? ==> r.value in t && r.value.email == email
    ensures r.Some? && UniqueEmails(t) ==>
      forall i :: 0 <= i < |t| && t[i].email == email ==> t[i] == r.value
  {
    if |t| == 0 then None
    else if t[0].email == email then Some(t[0])
    else
      assert Emails(t) == {t[0].email} + Emails(t[1..]);
      FindByEmail(t[1..], email)
  }

  /** The position of the first row with the given id, if any. */
  function IndexOfId(t: Table, id: string): (r: Option<nat>)
    ensures r.None? <==> id !in Ids(t)
    ensures r.Some? ==> r.value < |t| && t[r.value].id == id
    ensures r.Some? ==> forall j :: 0 <= j < r.value ==> t[j].id != id
  {
    if |t| == 0 then None
    else if t[0].id == id then Some(0)
    else
      assert Ids(t) == {t[0].id} + Ids(t[1..]);
      match IndexOfId(t[1..], id)
      case None => None
      case Some(k) => Some(k + 1)
  }

  /** `create`: appends the row, refusing an email that is already taken. */
  function Insert(t: Table, u: User): (r: Result<Table, DbError>)
    ensures r.Success? <==> u.email !in Emails(t)
    ensures r.Success? ==> r.value == t + [u]
    ensures r.Failure? ==> r.error == UniqueViolation("email")
  {
    if u.email in Emails(t) then Failure(UniqueViolation("email"))
    else Success(t + [u])
  }

  function ApplyPatch(u: User, p: UserPatch): User {
    User(u.id, if p.name.Some? then p.name else u.name, p.email.GetOr(u.email), p.password.GetOr(u.password))
  }

  /** `update({ where: { id }, data })`: rewrites the row with that id,
      failing when there is none or when the new email belongs to another row. */
  function UpdateById(t: Table, id: string, patch: UserPatch): (r: Result<(Table, User), DbError>)
    ensures r.Failure? && r.error == RecordNotFound <==> id !in Ids(t)
    ensures r.Failure? && r.error != RecordNotFound ==> r.error == UniqueViolation("email")
    ensures id in Ids(t) ==>
      var i := IndexOfId(t, id).value;
      r.Success? <==> !exists j :: 0 <= j < |t| && j != i && t[j].email == patch.email.GetOr(t[i].email)
    ensures r.Success? ==>
      var i := IndexOfId(t, id).value;
      && r.value.0 == t[i := r.value.1]
      && r.value.1 == ApplyPatch(t[i], patch)
  {
    match IndexOfId(t, id)
    case None => Failure(RecordNotFound)
    case Some(i) =>
      var updated := ApplyPatch(t[i], patch);
      if exists j :: 0 <= j < |t| && j != i && t[j].email == updated.email then
        Failure(UniqueViolation("email"))
      else
        Success((t[i := updated], updated))
  }

  /** Insertion keeps the email column unique. */
  lemma InsertKeepsEmailsUnique(t: Table, u: User)
    requires UniqueEmails(t)
    requires Insert(t, u).Success?
    ensures UniqueEmails(Insert(t, u).value)
  {
  }

  /** After appending a row with a fresh email, the lookup by that email
      finds exactly the appended row. */
  lemma FindAppended(t: Table, u: User)
    requires u.email !in Emails(t)
    ensures FindByEmail(t + [u], u.email) == Some(u)
  {
    assert (t + [u])[|t|] == u;
  }

  /** An update by id keeps the email column unique. */
  lemma UpdateKeepsEmailsUnique(t: Table, id: string, patch: UserPatch)
    requires UniqueEmails(t)
    requires UpdateById(t, id, patch).Success?
    ensures UniqueEmails(UpdateById(t, id, patch).value.0)
  {
  }
}
