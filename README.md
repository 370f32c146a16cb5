# Data-access requisitions: a Dafny model of the backend core

The backend (`backend/app.py`) is a Flask service over a SQLite database with two
tables. `users` holds the people who may log in. `requisitions` holds requests for
access to survey data. A requester submits a requisition. It starts in status
`pending_level2`. A level-2 approver then records a decision on it, and anyone can
list requisitions through filters or export one as a PDF.

This project models that core in Dafny:

- **Store** (`store.dfy`): a class `Database` with one map per table, keyed by primary
  key, and one method per route handler (`init_db` seeding, `login`,
  `register_user`, `change_password`, `create_requisition`,
  `update_requisition_status`, `get_requisitions`, and the lookup part of
  `download_requisition_pdf`).
  - Every handler except `GetRequisitions`, which always answers 200 with the list,
    returns an `Outcome`, with one variant per HTTP status the source
    answers: `Ok`, `BadRequest`, `NotFound`, `Conflict`, `Unauthorized` and
    `StorageError`. The error variants carry the source's exact messages, except
    the opaque `StorageError`, which stands for `Database error: {e}`.
  - The invariant `Valid()` holds the schema's primary keys and its `UNIQUE`
    `cpf_id` and `email` constraints. It also requires a non-empty status on every
    requisition. That is stronger than the schema's `status NOT NULL`, and holds
    because both writers of `status` store only a non-empty value. Every writing
    method preserves it.
- **Requisitions** (`requisitions.dfy`): the row type; the loop over the mandatory
  fields with its early return; the derived title and description; and the effect
  of a decision on a row.
- **Query** (`query.dfy`): the `WHERE` terms `get_requisitions` builds from the
  non-empty query parameters; an independent statement of what the filter admits;
  and the selection loop that returns the matching rows newest first.
- **Projection** (`projection.dfy`): the ordered label/value lines the PDF prints,
  the humanised status, and the approver fallback chain.
- **Users** (`users.dfy`), **Passwords** (`passwords.dfy`), **Text** (`text.dfy`),
  **Common** (`common.dfy`):
  - the user row and its `UNIQUE` constraints;
  - the password hasher, modelled as an ideal salted digest;
  - ASCII versions of Python's `replace`, `capitalize` and `title`;
  - SQLite's case-insensitive `LIKE '%p%'` and its text ordering;
  - optional values and Python truthiness.

Environment values are parameters of the handlers:

- the fresh id (`uuid.uuid4()`);
- the hasher's salt;
- the current time (`datetime.now().isoformat()`, kept as the ISO text the source stores).

Timestamps are compared the way SQLite's `ORDER BY created_at` compares `TEXT`: by
lexicographic order.

### Behaviour of the code the model keeps

- **Messages.** A missing mandatory field is answered
  `Mandatory field 'Basin' is missing` (`backend/app.py:251`). The caption is
  `field.replace('_', ' ').capitalize()`, so the others are `User cpf no`,
  `User mobile no` and `User group`.
- **Partial decisions.** The approver columns are written as sent, possibly NULL,
  while `decision_at` is always set (`backend/app.py:336-347`). So a decided row can
  have a NULL approver. The model allows this (`Requisitions.ApplyDecision`).
- **Tie order.** The listing orders only by `created_at DESC`
  (`backend/app.py:313`), so the order among equal timestamps is unspecified. The
  model promises only non-increasing `created_at`.
- **Prior status is not checked.** A decision ignores the prior status, and a
  second decision overwrites the first (`Requisitions.DecisionOverwrites`).
- **Empty e-mail.** `register_user` checks e-mail uniqueness only for a non-empty
  e-mail (`backend/app.py:147-151`). An empty-string e-mail is still stored, and the
  `UNIQUE` column then rejects a second one with a storage error. The model has
  this path.

The places where the model departs from the code are listed under "## Left out".

## Model

| member | source | states |
|---|---|---|
| `Store.Database.constructor` | backend/app.py:30-69 | an empty database satisfies every table constraint |
| `Store.Database.InitDb` | backend/app.py:72-83 | the default admin is inserted only when no user has CPF id `admin123`; an id or e-mail collision fails the insert and changes nothing; afterwards the admin exists unless the insert failed |
| `Store.InitDbTwice` | backend/app.py:72-86 | after a seeding that did not fail, a second seeding answers "already there" and adds nothing |
| `Store.Database.Login` | backend/app.py:97-119 | 400 when CPF id or password is empty; otherwise success exactly when a user with that CPF id exists and the password verifies, answering that user's identity; 401 otherwise |
| `Store.Database.RegisterUser` | backend/app.py:124-166 | checks in order: required fields (400), password shorter than 6 (400), CPF id taken (409), non-empty e-mail taken (409), constraint failure of the insert (500); only success writes, adding exactly the new user with the given CPF id and role; constraints preserved |
| `Store.Database.ChangePassword` | backend/app.py:181-216 | checks in order: both passwords given (400), new one at least 6 long (400), user exists (404), current password verifies (401), new password does not verify against the stored hash (400); only then does that one user's hash change and nothing else |
| `Store.Database.CreateRequisition` | backend/app.py:221-284 | a missing mandatory field gives 400 naming the first missing one in order and writes nothing; otherwise exactly one row is added under the fresh id, built by `NewRequisition`, and existing rows are unchanged; a used id fails the insert |
| `Store.Database.UpdateRequisitionStatus` | backend/app.py:323-357 | empty status: 400, no write; unknown id: not found, no write; otherwise only that row changes, by `ApplyDecision` with the supplied values, and its success message names id and status |
| `Store.Database.GetRequisitions` | backend/app.py:290-318 | the result holds every row the filter admits exactly once and nothing else, ordered newest first |
| `Store.StatusUpdated` | backend/app.py:352 | the success message `Requisition <id> status updated to <status>` |
| `Store.Database.RequisitionDocument` | backend/app.py:362-417 | not found for an unknown id, otherwise the projection of the stored row |
| `Store.DecideThenList` | backend/app.py:336-351 | after a successful decision, listing by the new status returns the decided row, which is the old row with exactly the decision applied (status, both approver ids, approver name, decision time) |
| `Passwords.Hash` | backend/app.py:154 | `generate_password_hash`, as an ideal digest of the password under the given salt; its meaning is fixed by `VerifyHash` |
| `Passwords.Verify` | backend/app.py:108 | `check_password_hash`: a digest accepts exactly its preimage; the salt plays no part |
| `Passwords.VerifyHash` | backend/app.py:198-203 | a digest verifies exactly the password it was made from, whatever the salt |
| `Users.IdentityOf` | backend/app.py:110-117 | the user part of the login reply: CPF id, user id, name, e-mail and role of the row |
| `Users.DefaultAdmin` | backend/app.py:75-79 | the seeded administrator: CPF id `admin123`, name `Admin User`, e-mail `admin@example.com`, role `admin`, created by `system`, with a hash that verifies exactly `password123` |
| `Users.NewUser` | backend/app.py:153-160 | the registered row: the fresh id, the request's CPF id, name, e-mail and role, the current time, `created_by` or `unknown`, and a hash that verifies exactly the submitted password |
| `Users.InsertKeepsConstraints` | backend/app.py:142-161 | inserting a user whose id, CPF id and (non-null) e-mail are new keeps primary key and `UNIQUE` constraints |
| `Requisitions.Caption` | backend/app.py:251 | `field.replace('_', ' ').capitalize()`: same length as the column name and no underscore left |
| `Requisitions.MissingMessage` | backend/app.py:251 | the 400 message `Mandatory field '<caption>' is missing` for a column |
| `Requisitions.FindMissingField` | backend/app.py:248-251 | the loop returns none exactly when all four mandatory fields are non-empty, otherwise the index of the first missing one in the order basin, CPF no., mobile no., group |
| `Requisitions.MandatoryCaptions` | backend/app.py:251 | the missing-field messages name `Basin`, `User cpf no`, `User mobile no` and `User group` |
| `Requisitions.RequisitionTitle` | backend/app.py:243 | the generated title `Requisition for <basin> - <area or N/A>`, a NULL basin shown as `None` |
| `Requisitions.NewRequisition` | backend/app.py:224-245 | the row a successful create inserts; its shape is stated by `NewRequisitionShape` |
| `Requisitions.NewRequisitionShape` | backend/app.py:224-245 | a new row is `pending_level2` with all four decision fields NULL, keeps the submitted fields, has title `Requisition for <basin> - <area or N/A>` and the objective as description |
| `Requisitions.ApplyDecision` | backend/app.py:336-347 | the row after the `UPDATE`: the five decision columns take the decision's values (decision time always set) and every other column is kept |
| `Requisitions.DecisionOverwrites` | backend/app.py:336-348 | a second decision replaces the first completely |
| `Requisitions.DecisionIgnoresPriorState` | backend/app.py:336-348 | the result of a decision does not depend on the row's prior status or decision columns |
| `Query.Admits` | backend/app.py:299-310 | reference statement of the filter: each non-empty parameter constrains its column, status and requester exactly, basin and group by case-insensitive substring, a NULL column never matching |
| `Query.BuildConditions` | backend/app.py:296-311 | the WHERE terms select a row exactly when the filter admits it, with one term per non-empty parameter, in the order status, user id, basin, group |
| `Query.ConditionsMeaning` | backend/app.py:296-311 | the conjunction of the optional terms is the filter: status and requester exact, basin and group case-insensitive substrings, a NULL column never matching |
| `Query.InsertNewestFirst` | backend/app.py:313 | inserting into the ordered result adds exactly that row |
| `Query.InsertKeepsOrder` | backend/app.py:313 | inserting keeps the result ordered by `created_at` descending |
| `Query.SelectNewestFirst` | backend/app.py:313-315 | the selection returns each matching row exactly once, nothing else, newest first |
| `Text.LexLeTotal` | backend/app.py:313 | any two `created_at` texts are ordered one way or the other |
| `Text.LexLeTransitive` | backend/app.py:313 | the text order is transitive |
| `Text.LexLeReflexive` | backend/app.py:313 | the text order is reflexive |
| `Text.LexLe` | backend/app.py:313 | SQLite's BINARY text order on `created_at`, as lexicographic order on characters; total, transitive and reflexive by `LexLeTotal`, `LexLeTransitive` and `LexLeReflexive` |
| `Text.ContainsIgnoringCase` | backend/app.py:305-310 | `LIKE '%p%'`: some position of the lower-cased row value starts the lower-cased pattern |
| `Text.Capitalize` | backend/app.py:251 | `str.capitalize` over ASCII: same length, first character upper-cased, every later one lower-cased |
| `Text.Title` | backend/app.py:414 | `str.title` over ASCII; characterised position by position by `TitleAt` |
| `Text.ContainsIgnoringCaseOfContains` | backend/app.py:305-310 | an exact substring also matches `LIKE` |
| `Text.ContainsIgnoringCaseFolds` | backend/app.py:305-310 | `LIKE` matching ignores the ASCII case of either side |
| `Text.TitleAt` | backend/app.py:414 | `str.title` upper-cases a letter that starts a run of letters, lower-cases the other letters, and keeps every other character |
| `Text.TitleIdempotent` | backend/app.py:414 | title-casing twice is title-casing once |
| `Projection.HumanStatus` | backend/app.py:414 | `status.replace('_', ' ').title()`; properties in `HumanStatusHasNoUnderscore`, `HumanStatusStable` and `PendingShown` |
| `Projection.ApprovedBy` | backend/app.py:416 | `name or cpf_id or 'N/A'`: never empty; the fallback order is `ApproverLineFallback` |
| `Projection.Project` | backend/app.py:387-417 | eighteen lines with the labels in print order |
| `Projection.ApproverLineFallback` | backend/app.py:416 | the approver line is the approver name if non-empty, else the approver CPF id if non-empty, else `N/A` |
| `Projection.HumanStatusHasNoUnderscore` | backend/app.py:414 | the humanised status has the stored status's length and no underscore |
| `Projection.HumanStatusStable` | backend/app.py:414 | humanising a humanised status changes nothing |
| `Projection.PendingShown` | backend/app.py:414 | `pending_level2` is shown as `Pending Level2` |
| `Projection.ProjectNewRequisition` | backend/app.py:387-417 | a new requisition prints as `Pending Level2`, approver `N/A`, decision date `None` |
| `Projection.ProjectAfterDecision` | backend/app.py:387-417 | a decision changes only the three "Approval Details" lines: humanised new status, approver by the fallback chain, the decision time |

## Left out

- Transport is not modelled: Flask routing, JSON request and response bodies, HTTP
  status codes as numbers, CORS, the `home` route, `app.run` and the `PORT`
  variable. Request bodies are datatypes of optional strings; a JSON value that is
  not a string is not modelled.
- `get_users` (`backend/app.py:170-176`) is a plain read of every user and is not
  part of this model.
- SQLite mechanics are not modelled: connections, commit and rollback. A storage
  failure appears as `StorageError` only where a table constraint would reject the
  statement. Failures of the database itself (disk, locking) are not modelled.
- The schema creation in `init_db` (`CREATE TABLE IF NOT EXISTS`) is not modelled
  as a step. The tables are the two maps, and the constraints are `Valid()`.
- Query.BuildConditions: `%` and `_` inside a basin or group filter act as `LIKE`
  wildcards in the source. The model treats the filter as a plain substring.
- Projection.HumanStatus, Requisitions.Caption, Text.ContainsIgnoringCase, Text.Title,
  Text.Capitalize: only ASCII letters count
  as letters. Python also changes the case of non-ASCII letters, and in Python a
  non-ASCII letter continues a word (Python `Résumé`, model `RéSumé`). SQLite's
  `LIKE` folds only ASCII, so `ContainsIgnoringCase` matches it exactly.
- Password hashing (Werkzeug) is an ideal salted digest. `Verify` accepts exactly
  the password the digest was made from. Collisions and the hash format are not
  modelled.
- The PDF layout is not modelled: fonts, cells, section headings and the byte
  stream. Only the printed label/value lines are.
- Users.NewUser: a `createdBy` explicitly sent as JSON null is stored as NULL in the
  source. The model's `None` stands only for an absent key, which gives `unknown`.
- Timestamps are the ISO texts, passed in. Nothing forces `decision_at` to be later
  than `created_at`; the source does not check it either.
- The `print` in `init_db` and the uncaught exception when its insert fails are not
  modelled; the failure is the `StorageError` result.
- Store.Database.CreateRequisition: the `CREATE TABLE requisitions` statement
  (`backend/app.py:43-69`) has no `title` or `description` column, but the `INSERT`
  (`backend/app.py:259-263`) writes both. On a database built by that schema every
  create answers a database error (`backend/app.py:280-282`). The model assumes the
  table has the two columns, so it does not reproduce that error.
- Concurrency is not modelled: each handler is one atomic step and requests run one
  after another. In the source, the check-then-insert of `register_user`
  (`backend/app.py:142-161`) can race, and a concurrent duplicate CPF id then gets
  a database error from the `UNIQUE` constraint instead of 409.
