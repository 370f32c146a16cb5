/** The two tables and the route handlers that read and write them. Each
    handler takes the fresh id, the salt and the current time as parameters
    instead of drawing them from `uuid4`, the hasher and the clock. */
module Store {
  import opened Common
  import opened Passwords
  import opened Users
  import opened Requisitions
  import opened Query
  import opened Projection

  const CredentialsRequired := "CPF ID and password are required"
  const InvalidCredentials := "Invalid CPF ID or password"
  const RegistrationFieldsRequired := "Name, CPF ID, password, and role are required"
  const PasswordTooShort := "Password must be at least 6 characters long"
  const CpfExists := "User with this CPF ID already exists"
  const EmailExists := "User with this email already exists"
  const PasswordsRequired := "Current and new passwords are required"
  const NewPasswordTooShort := "New password must be at least 6 characters long"
  const UserNotFound := "User not found"
  const IncorrectPassword := "Incorrect current password"
  const PasswordUnchanged := "New password cannot be the same as current password"
  const PasswordChanged := "Password changed successfully"
  const StatusRequired := "New status is required"
  const RequisitionNotFound := "Requisition not found"

  /** The success message of a status update. */
  function StatusUpdated(id: string, status: string): string {
    "Requisition " + id + " status updated to " + status
  }

  /** The database: `users` and `requisitions`, each keyed by primary key. */
  class Database {
    var users: map<string, User>
    var requisitions: map<string, Requisition>

    /** The schema's primary keys and the UNIQUE columns of `users`, and a
        non-empty status on every requisition: an invariant of the two
        writers of `status`, stronger than the schema's `NOT NULL`. */
    ghost predicate Valid()
      reads this
    {
      && Users.KeyedById(users) && UniqueCpf(users) && UniqueEmail(users)
      && Requisitions.KeyedById(requisitions)
      && forall k :: k in requisitions ==> requisitions[k].status != ""
    }

    /** A freshly created database with both tables empty. */
    constructor ()
      ensures Valid()
      ensures users == map[] && requisitions == map[]
    {
      users := map[];
      requisitions := map[];
    }

    /** The seeding step of `init_db`: insert the default administrator
        unless a user with CPF id "admin123" exists. The insert fails like
        any INSERT when the fresh id or the admin e-mail is already taken. */
    method InitDb(adminId: string, salt: nat, now: string) returns (r: Outcome<bool>)
      requires Valid()
      modifies this
      ensures Valid()
      ensures requisitions == old(requisitions)
      ensures old(CpfTaken(users, AdminCpfId)) ==> r == Ok(false) && users == old(users)
      ensures !old(CpfTaken(users, AdminCpfId)) && (adminId in old(users) || old(EmailTaken(users, AdminEmail))) ==>
        r == StorageError && users == old(users)
      ensures !old(CpfTaken(users, AdminCpfId)) && adminId !in old(users) && !old(EmailTaken(users, AdminEmail)) ==>
        r == Ok(true) && users == old(users)[adminId := DefaultAdmin(adminId, salt, now)]
      ensures r != StorageError ==> CpfTaken(users, AdminCpfId)
    {
      if CpfTaken(users, AdminCpfId) {
        return Ok(false);
      }
      if adminId in users || EmailTaken(users, AdminEmail) {
        return StorageError;
      }
      var admin := DefaultAdmin(adminId, salt, now);
      InsertKeepsConstraints(users, admin);
      users := users[adminId := admin];
      assert users[adminId].cpfId == AdminCpfId;
      return Ok(true);
    }

    /** `login`: both fields must be non-empty; then the user with that CPF
        id must exist and the password must verify against its stored hash. */
    method Login(cpfId: Option<string>, password: Option<string>) returns (r: Outcome<Identity>)
      requires Valid()
      ensures !Present(cpfId) || !Present(password) ==> r == BadRequest(CredentialsRequired)
      ensures Present(cpfId) && Present(password) ==>
        (r.Ok? <==> exists k :: k in users && users[k].cpfId == cpfId.value && Verify(users[k].passwordHash, password.value))
      ensures Present(cpfId) && Present(password) && !r.Ok? ==> r == Unauthorized(InvalidCredentials)
      ensures r.Ok? ==> exists k :: k in users && users[k].cpfId == cpfId.value && r.value == IdentityOf(users[k])
    {
      if !Present(cpfId) || !Present(password) {
        return BadRequest(CredentialsRequired);
      }
      if CpfTaken(users, cpfId.value) {
        var k :| k in users && users[k].cpfId == cpfId.value;
        if Verify(users[k].passwordHash, password.value) {
          return Ok(IdentityOf(users[k]));
        }
      }
      return Unauthorized(InvalidCredentials);
    }

    /** `register_user`: the checks run in order (required fields, password
        length, CPF id taken, non-empty e-mail taken) and only the success
        path writes, adding exactly one user. An empty e-mail skips the
        e-mail check, and then the UNIQUE column can still reject the insert. */
    method RegisterUser(req: Registration, newId: string, salt: nat, now: string) returns (r: Outcome<string>)
      requires Valid()
      modifies this
      ensures Valid()
      ensures requisitions == old(requisitions)
      ensures !r.Ok? ==> users == old(users)
      ensures !(Present(req.name) && Present(req.cpfId) && Present(req.password) && Present(req.role)) ==>
        r == BadRequest(RegistrationFieldsRequired)
      ensures Present(req.name) && Present(req.cpfId) && Present(req.password) && Present(req.role) ==>
        if |req.password.value| < MinPasswordLength then r == BadRequest(PasswordTooShort)
        else if old(CpfTaken(users, req.cpfId.value)) then r == Conflict(CpfExists)
        else if Present(req.email) && old(EmailTaken(users, req.email.value)) then r == Conflict(EmailExists)
        else if newId in old(users) || (req.email.Some? && old(EmailTaken(users, req.email.value))) then r == StorageError
        else (r == Ok(newId) && users == old(users)[newId := NewUser(req, newId, salt, now)])
    {
      if !(Present(req.name) && Present(req.cpfId) && Present(req.password) && Present(req.role)) {
        return BadRequest(RegistrationFieldsRequired);
      }
      if |req.password.value| < MinPasswordLength {
        return BadRequest(PasswordTooShort);
      }
      if CpfTaken(users, req.cpfId.value) {
        return Conflict(CpfExists);
      }
      if Present(req.email) && EmailTaken(users, req.email.value) {
        return Conflict(EmailExists);
      }
      if newId in users || (req.email.Some? && EmailTaken(users, req.email.value)) {
        return StorageError;
      }
      var u := NewUser(req, newId, salt, now);
      InsertKeepsConstraints(users, u);
      users := users[newId := u];
      return Ok(newId);
    }

    /** `change_password`: five checks in order (fields given, new password
        long enough, user exists, current password verifies, new password
        differs from the stored one); only that user's hash then changes. */
    method ChangePassword(userId: string, current: Option<string>, replacement: Option<string>, salt: nat)
      returns (r: Outcome<string>)
      requires Valid()
      modifies this
      ensures Valid()
      ensures requisitions == old(requisitions)
      ensures !r.Ok? ==> users == old(users)
      ensures !Present(current) || !Present(replacement) ==> r == BadRequest(PasswordsRequired)
      ensures Present(current) && Present(replacement) ==>
        if |replacement.value| < MinPasswordLength then r == BadRequest(NewPasswordTooShort)
        else if userId !in old(users) then r == NotFound(UserNotFound)
        else if !Verify(old(users)[userId].passwordHash, current.value) then r == Unauthorized(IncorrectPassword)
        else if Verify(old(users)[userId].passwordHash, replacement.value) then r == BadRequest(PasswordUnchanged)
        else (r == Ok(PasswordChanged) &&
              users == old(users)[userId := old(users)[userId].(passwordHash := Hash(replacement.value, salt))])
    {
      if !Present(current) || !Present(replacement) {
        return BadRequest(PasswordsRequired);
      }
      if |replacement.value| < MinPasswordLength {
        return BadRequest(NewPasswordTooShort);
      }
      if userId !in users {
        return NotFound(UserNotFound);
      }
      var u := users[userId];
      if !Verify(u.passwordHash, current.value) {
        return Unauthorized(IncorrectPassword);
      }
      if Verify(u.passwordHash, replacement.value) {
        return BadRequest(PasswordUnchanged);
      }
      users := users[userId := u.(passwordHash := Hash(replacement.value, salt))];
      return Ok(PasswordChanged);
    }

    /** `create_requisition`: the first missing mandatory field, in the
        order basin, CPF no., mobile no., group, is reported and nothing is
        written; otherwise exactly one pending row is added under the fresh
        id (an id already in use fails the INSERT). */
    method CreateRequisition(s: Submission, newId: string, now: string) returns (r: Outcome<string>)
      requires Valid()
      modifies this
      ensures Valid()
      ensures users == old(users)
      ensures !r.Ok? ==> requisitions == old(requisitions)
      ensures r.BadRequest? <==> !MandatoryPresent(s)
      ensures forall k: nat :: FirstMissingAt(s, k) ==> r == BadRequest(MissingMessage(MandatoryFields[k]))
      ensures MandatoryPresent(s) && newId in old(requisitions) ==> r == StorageError
      ensures MandatoryPresent(s) && newId !in old(requisitions) ==>
        && r == Ok(newId)
        && requisitions == old(requisitions)[newId := NewRequisition(newId, s, now)]
        && requisitions.Keys == old(requisitions).Keys + {newId}
    {
      var missing := FindMissingField(s);
      if missing.Some? {
        return BadRequest(MissingMessage(MandatoryFields[missing.value]));
      }
      if newId in requisitions {
        return StorageError;
      }
      requisitions := requisitions[newId := NewRequisition(newId, s, now)];
      return Ok(newId);
    }

    /** `update_requisition_status`: an empty status is rejected; an unknown
        id updates no row and is reported as not found; otherwise the five
        decision columns take the supplied values, whatever the prior
        status, and every other column and row stays as it was. */
    method UpdateRequisitionStatus(id: string, status: Option<string>, approverUserId: Option<string>,
                                   approverCpfId: Option<string>, approverName: Option<string>, now: string)
      returns (r: Outcome<string>)
      requires Valid()
      modifies this
      ensures Valid()
      ensures users == old(users)
      ensures !Present(status) ==> r == BadRequest(StatusRequired) && requisitions == old(requisitions)
      ensures Present(status) && id !in old(requisitions) ==>
        r == NotFound(RequisitionNotFound) && requisitions == old(requisitions)
      ensures Present(status) && id in old(requisitions) ==>
        && r == Ok(StatusUpdated(id, status.value))
        && requisitions == old(requisitions)[id := ApplyDecision(old(requisitions)[id],
             Decision(status.value, approverUserId, approverCpfId, approverName, now))]
    {
      if !Present(status) {
        return BadRequest(StatusRequired);
      }
      if id !in requisitions {
        return NotFound(RequisitionNotFound);
      }
      var d := Decision(status.value, approverUserId, approverCpfId, approverName, now);
      requisitions := requisitions[id := ApplyDecision(requisitions[id], d)];
      return Ok(StatusUpdated(id, status.value));
    }

    /** `get_requisitions`: exactly the rows the filter admits, each once,
        newest first. */
    method GetRequisitions(f: Filter) returns (rows: seq<Requisition>)
      requires Valid()
      ensures multiset(rows) == multiset(set k | k in requisitions && Admits(f, requisitions[k]) :: requisitions[k])
      ensures forall r :: r in rows <==> r in requisitions.Values && Admits(f, r)
      ensures NewestFirst(rows)
    {
      var cs := BuildConditions(f);
      rows := SelectNewestFirst(requisitions, cs);
      assert Matching(requisitions, cs) == set k | k in requisitions && Admits(f, requisitions[k]) :: requisitions[k];
    }

    /** `download_requisition_pdf` up to rendering: not found, or the
        printed label/value lines of the stored row. */
    method RequisitionDocument(id: string) returns (r: Outcome<seq<(string, string)>>)
      ensures id !in requisitions ==> r == NotFound(RequisitionNotFound)
      ensures id in requisitions ==> r == Ok(Project(requisitions[id]))
    {
      if id !in requisitions {
        return NotFound(RequisitionNotFound);
      }
      return Ok(Project(requisitions[id]));
    }
  }

  /** Running the seeding step again adds nothing: once it has succeeded,
      the administrator exists and a second run leaves the users as they are. */
  method InitDbTwice(db: Database, firstId: string, secondId: string, salt1: nat, salt2: nat, now1: string, now2: string)
    returns (first: Outcome<bool>, second: Outcome<bool>)
    requires db.Valid()
    modifies db
    ensures db.Valid()
    ensures first != StorageError ==> second == Ok(false)
    ensures first != StorageError ==>
      db.users == if first == Ok(true) then old(db.users)[firstId := DefaultAdmin(firstId, salt1, now1)] else old(db.users)
  {
    first := db.InitDb(firstId, salt1, now1);
    second := db.InitDb(secondId, salt2, now2);
  }

  /** A decision followed by a listing filtered on the new status returns
      the decided row, carrying the decision. */
  method DecideThenList(db: Database, id: string, status: string, approverUserId: Option<string>,
                        approverCpfId: Option<string>, approverName: Option<string>, now: string)
    returns (r: Outcome<string>, rows: seq<Requisition>)
    requires db.Valid()
    modifies db
    ensures db.Valid()
    ensures status != "" && id in old(db.requisitions) ==>
      && r.Ok?
      && id in db.requisitions
      && db.requisitions[id] in rows
      && db.requisitions[id] ==
           ApplyDecision(old(db.requisitions)[id], Decision(status, approverUserId, approverCpfId, approverName, now))
  {
    r := db.UpdateRequisitionStatus(id, Some(status), approverUserId, approverCpfId, approverName, now);
    rows := db.GetRequisitions(Filter(Some(status), None, None, None));
    if status != "" && id in old(db.requisitions) {
      assert db.requisitions[id] in db.requisitions.Values;
    }
  }
}
