/** Rows of the `users` table and the uniqueness constraints the schema
    puts on them (`cpf_id TEXT UNIQUE NOT NULL`, `email TEXT UNIQUE`). */
module Users {
  import opened Common
  import opened Passwords

  /** One row of `users`. `name` and `email` are nullable columns. */
  datatype User = User(
    id: string,
    cpfId: string,
    name: Option<string>,
    email: Option<string>,
    passwordHash: Digest,
    role: string,
    createdAt: string,
    createdBy: string)

  /** The identity summary a successful login answers with. */
  datatype Identity = Identity(
    cpfId: string,
    uid: string,
    name: Option<string>,
    email: Option<string>,
    role: string)

  /** The body of a registration request; `None` is a field that was not
      sent or was null, and `createdBy` is `None` only when it was not sent. */
  datatype Registration = Registration(
    name: Option<string>,
    cpfId: Option<string>,
    email: Option<string>,
    password: Option<string>,
    role: Option<string>,
    createdBy: Option<string>)

  const MinPasswordLength: nat := 6

  const AdminCpfId := "admin123"
  const AdminName := "Admin User"
  const AdminEmail := "admin@example.com"
  const AdminPassword := "password123"

  /** Every row is stored under its own primary key. */
  ghost predicate KeyedById(users: map<string, User>) {
    forall k :: k in users ==> users[k].id == k
  }

  /** `cpf_id` is UNIQUE. */
  ghost predicate UniqueCpf(users: map<string, User>) {
    forall a, b :: a in users && b in users && users[a].cpfId == users[b].cpfId ==> a == b
  }

  /** `email` is UNIQUE; as in SQL, NULLs never collide but equal strings
      (the empty string included) do. */
  ghost predicate UniqueEmail(users: map<string, User>) {
    forall a, b :: a in users && b in users && users[a].email.Some? && users[a].email == users[b].email ==> a == b
  }

  predicate CpfTaken(users: map<string, User>, cpfId: string) {
    exists k | k in users :: users[k].cpfId == cpfId
  }

  predicate EmailTaken(users: map<string, User>, email: string) {
    exists k | k in users :: users[k].email == Some(email)
  }

  function IdentityOf(u: User): Identity {
    Identity(u.cpfId, u.id, u.name, u.email, u.role)
  }

  /** The row `init_db` inserts for the default administrator. */
  function DefaultAdmin(id: string, salt: nat, now: string): (admin: User)
    ensures forall p :: Verify(admin.passwordHash, p) <==> p == AdminPassword
  {
    User(id, AdminCpfId, Some(AdminName), Some(AdminEmail), Hash(AdminPassword, salt), "admin", now, "system")
  }

  /** The row `register_user` inserts once every check has passed. */
  function NewUser(req: Registration, id: string, salt: nat, now: string): (u: User)
    requires req.cpfId.Some? && req.password.Some? && req.role.Some?
    ensures forall p :: Verify(u.passwordHash, p) <==> p == req.password.value
  {
    User(id, req.cpfId.value, req.name, req.email, Hash(req.password.value, salt), req.role.value, now,
         match req.createdBy case Some(c) => c case None => "unknown")
  }

  /** Inserting a row whose id, CPF id and (non-null) email are all new keeps
      every constraint of the table. */
  lemma InsertKeepsConstraints(users: map<string, User>, u: User)
    requires KeyedById(users) && UniqueCpf(users) && UniqueEmail(users)
    requires u.id !in users && !CpfTaken(users, u.cpfId)
    requires u.email.Some? ==> !EmailTaken(users, u.email.value)
    ensures KeyedById(users[u.id := u]) && UniqueCpf(users[u.id := u]) && UniqueEmail(users[u.id := u])
  {
  }
}
