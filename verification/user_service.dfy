/** `UserService` (src/api/user/user.service.ts): account creation and
    update with password hashing, and the password-free read views. */
module UserService {
  import opened Wrappers
  import opened Js
  import opened Crypto
  import opened Database

  /** `CreateUserDto` (also the shape `register` receives). */
  datatype CreateUserDto = CreateUserDto(name: Option<string>, email: string, password: string)

  /** `UpdateUserDto`: every field optional. */
  datatype UpdateUserDto = UpdateUserDto(name: Option<string>, email: Option<string>, password: Option<string>)

  /** `{ ...dto, password: await generateSecurePassword(dto.password) }`
      stored under the id the database generates. */
  function HashedRecord(dto: CreateUserDto, id: string, hash: Hasher): (u: User)
    ensures u.id == id && u.name == dto.name && u.email == dto.email
    ensures forall matches: Matcher :: Sound(hash, matches) ==> matches(dto.password, u.password)
    ensures hash(dto.password) != dto.password ==> u.password != dto.password
  {
    User(id, dto.name, dto.email, hash(dto.password))
  }

  /** `create`: stores the user with the hash in place of the raw password
      and returns the created row. */
  function Create(t: Table, dto: CreateUserDto, id: string, hash: Hasher): (r: Result<(Table, User), DbError>)
    ensures r.Success? <==> dto.email !in Emails(t)
    ensures r.Failure? ==> r.error == UniqueViolation("email")
    ensures r.Success? ==>
      var (t', u) := r.value;
      && t' == t + [u]
      && u.id == id && u.name == dto.name && u.email == dto.email
      && u.password == hash(dto.password)
  {
    var u := HashedRecord(dto, id, hash);
    match Insert(t, u)
    case Success(t') => Success((t', u))
    case Failure(e) => Failure(e)
  }

  /** The data `update` sends: the dto's fields, with `password` replaced by
      its hash when a truthy password is supplied and by `undefined`
      otherwise. */
  function UpdateData(dto: UpdateUserDto, hash: Hasher): (p: UserPatch)
    ensures p.password.Some? <==> TruthyString(dto.password)
    ensures p.password.Some? ==> p.password.value == hash(dto.password.value)
    ensures p.name == dto.name && p.email == dto.email
  {
    var securePassword := if TruthyString(dto.password) then Some(hash(dto.password.value)) else None;
    UserPatch(dto.name, dto.email, securePassword)
  }

  /** `update`: rewrites the user with that id and returns it without its
      password. The password changes exactly when a non-empty one is
      supplied, and then to its hash. */
  function Update(t: Table, id: string, dto: UpdateUserDto, hash: Hasher): (r: Result<(Table, PublicUser), DbError>)
    ensures r.Failure? && r.error == RecordNotFound <==> id !in Ids(t)
    ensures r.Failure? && r.error != RecordNotFound ==> r.error == UniqueViolation("email")
    ensures id in Ids(t) ==>
      var i := IndexOfId(t, id).value;
      r.Success? <==> !exists j :: 0 <= j < |t| && j != i && t[j].email == dto.email.GetOr(t[i].email)
    ensures r.Success? ==>
      var i := IndexOfId(t, id).value;
      var (t', view) := r.value;
      && |t'| == |t|
      && (forall j :: 0 <= j < |t| && j != i ==> t'[j] == t[j])
      && t'[i].id == id
      && t'[i].password == (if TruthyString(dto.password) then hash(dto.password.value) else t[i].password)
      && t'[i].email == dto.email.GetOr(t[i].email)
      && t'[i].name == (if dto.name.Some? then dto.name else t[i].name)
      && view == PublicUser(id, t'[i].name, t'[i].email)
  {
    match UpdateById(t, id, UpdateData(dto, hash))
    case Success((t', u)) => Success((t', Public(u)))
    case Failure(e) => Failure(e)
  }

  /** `findAll`: every user, password omitted. The ORM's ordering by name
      is not modelled: the views follow the table order. */
  function FindAll(t: Table): (r: seq<PublicUser>)
    ensures |r| == |t|
    ensures forall i :: 0 <= i < |t| ==>
      r[i].id == t[i].id && r[i].name == t[i].name && r[i].email == t[i].email
  {
    if |t| == 0 then [] else [Public(t[0])] + FindAll(t[1..])
  }

  /** `findOne`: the user with that id, password omitted, or nothing. */
  function FindOne(t: Table, id: string): (r: Option<PublicUser>)
    ensures r.None? <==> id !in Ids(t)
    ensures r.Some? ==>
      exists i :: 0 <= i < |t| && t[i].id == id && r.value == PublicUser(id, t[i].name, t[i].email)
  {
    match IndexOfId(t, id)
    case None => None
    case Some(i) => Some(Public(t[i]))
  }

  /** The raw password is never what `create` stores, provided the hasher
      never maps a password to itself. */
  lemma CreateNeverStoresRawPassword(t: Table, dto: CreateUserDto, id: string, hash: Hasher)
    requires hash(dto.password) != dto.password
    requires Create(t, dto, id, hash).Success?
    ensures Create(t, dto, id, hash).value.1.password != dto.password
    ensures dto.password !in (set i | 0 <= i < |t| :: t[i].password) ==>
      dto.password !in (set i | 0 <= i < |Create(t, dto, id, hash).value.0| :: Create(t, dto, id, hash).value.0[i].password)
  {
  }

  /** Updating without a password, or with an empty one, leaves every
      stored password as it was. */
  lemma UpdateWithoutPasswordKeepsPasswords(t: Table, id: string, dto: UpdateUserDto, hash: Hasher)
    requires !TruthyString(dto.password)
    requires Update(t, id, dto, hash).Success?
    ensures
      var t' := Update(t, id, dto, hash).value.0;
      |t'| == |t| && forall j :: 0 <= j < |t| ==> t'[j].password == t[j].password
  {
  }
}
