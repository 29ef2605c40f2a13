# Workspace membership store, modelled in Dafny

This project models `DBContext` in `libs/jwst-storage/src/database/mod.rs`.
It is the membership and authorisation store of a multi-tenant workspace
service, built on three tables:

- `users`: name, unique email, avatar, password, `token_nonce`.
- `workspaces`: `public` flag, type `Private` or `Normal`.
- `permissions`: grants. Each binds an identity to a workspace with a role
  (`Owner`, `Admin`, `Write`, `Read`) and an `accepted` flag. The identity is
  either a registered user id or the bare email of someone not yet registered.

Each table is a map from its auto-increment id to its row. The class
`Database.DBContext` holds the three maps and the next value of each id
sequence. Statements and transactions that change the tables are methods on
that class. Read-only queries are functions of the tables as a value
(`Schema.Db`).

Modules:

- `Sql` (sql.dfy): what a statement does to a table.
  - `First` is what `fetch_optional` returns: the matching row with the lowest id.
  - `UpdateWhere` and `DeleteWhere` are `UPDATE … WHERE` and `DELETE … WHERE`.
- `Schema` (schema.dfy): the rows, plus the constraints the DDL declares, as
  the predicate `Consistent`:
  - ids below their sequence;
  - `UNIQUE (email)`;
  - `UNIQUE (workspace_id, user_id)` and `UNIQUE (workspace_id, user_email)`;
  - the foreign keys.

  `Consistent` also holds two facts the mutators maintain:
  - email-keyed grants sit only on Normal workspaces;
  - no grant is still keyed by the email of a registered user.
- `Queries` (queries.dfy): the read-only lookups.
- `Ledger` (ledger.dfy): `update_cred`'s reconciliation of email-keyed
  invitations, and the lemmas that it and the grant insert keep the
  database consistent.
- `Database` (database.dfy): `DBContext` and its mutating methods. Each
  public operation is one transaction, and it requires and ensures
  `Valid()`, i.e. `Consistent` of its tables. `CreateWorkspace` and
  `UpdateCred` are steps inside a caller's transaction. They only keep ids
  fresh (`CreateWorkspace`) or promise nothing about consistency
  (`UpdateCred`). The transactions that call them (`CreateUser`,
  `CreateNormalWorkspace`) restore `Valid()`.
- `Scenarios` (scenarios.dfy): clients that chain several calls. They cover
  a repeated invitation, a repeated accept, and an invitation claimed by a
  later registration.

Modelling decisions where the code is unclear or evidently means something
other than what it says:

- `create_user` writes `ON CONFLICT email DO NOTHING` without parentheses
  (mod.rs:184). Neither PostgreSQL nor SQLite parses that form, so as written
  every call fails. `Database.InsertUser` models the INSERT with either
  clause. `Database.DBContext.CreateUser` follows the evident intent: skip
  the insert when the email is taken. Both are listed under Findings.
- `DELETE FROM workspaces CASCADE WHERE …` (mod.rs:310): PostgreSQL parses
  `CASCADE` here as an alias for the table `workspaces`, not as a cascade
  option. The grants go because of `ON DELETE CASCADE` on
  `permissions.workspace_id` (mod.rs:81), and the model removes them.
- Nothing keeps a workspace's Owner grant unique or in place.
  `delete_permission_by_query` spares Owner grants (mod.rs:481), but two
  other paths do not:
  - `create_permission` accepts `Owner` as the invited role;
  - `delete_permission` (mod.rs:465) deletes any grant by id.

  The model follows the code. So `get_workspace_owner` can find no row, which
  is its `fetch_one` error, `Queries.Fetch.RowNotFound`. It can also find
  several rows, in which case the model takes the lowest id.
- The OR-ed subquery in `can_read_workspace` (mod.rs:396) evidently means to
  let anyone read a public workspace. The function is modelled as written,
  and the gap is listed under Findings.

## Model

| member | source | states |
|---|---|---|
| `Database.DBContext.constructor` | libs/jwst-storage/src/database/mod.rs:41-94 | the three tables start empty with every id sequence at 1, and satisfy every declared constraint |
| `Database.DBContext.CreateUser` | libs/jwst-storage/src/database/mod.rs:179-204 | an email already in `users` gives None and changes nothing; otherwise it adds exactly one user with a fresh id, one fresh Private workspace with public=false, and an accepted Owner grant for that user, the only grant on that workspace. Grants keyed by the email are reconciled, and all constraints still hold. The outcome is that of the user INSERT with the conflict target `(email)` |
| `Database.InsertUser` | libs/jwst-storage/src/database/mod.rs:181-195 | the user INSERT is a syntax error iff its `ON CONFLICT` clause does not parse; otherwise it inserts nothing iff the email is taken, and otherwise gives the next, fresh user id |
| `Database.CreateUserAsWrittenIsRejected` | libs/jwst-storage/src/database/mod.rs:184 | with the clause as written the INSERT is rejected on every database, so `create_user` always returns an error; with `(email)` it is not |
| `Database.DBContext.CreateWorkspace` | libs/jwst-storage/src/database/mod.rs:248-277 | inside a transaction: when the user exists, a fresh workspace with public=false and the given type, plus an accepted Owner grant for the user on it; when the user does not exist, a foreign-key failure that changes nothing |
| `Database.DBContext.CreateNormalWorkspace` | libs/jwst-storage/src/database/mod.rs:279-286 | the same with type Normal, in its own transaction, keeping every constraint |
| `Database.DBContext.UpdateCred` | libs/jwst-storage/src/database/mod.rs:160-177 | the permissions table becomes `Reconcile` of the old one exactly when the UPDATE breaks no constraint (foreign key, `(workspace_id, user_id)` uniqueness); otherwise it is unchanged |
| `Ledger.Reconcile` | libs/jwst-storage/src/database/mod.rs:165-168 | every grant keyed by the email becomes keyed by the user id, with the same workspace, role and accepted flag; every other grant is unchanged; no grant is keyed by the email afterwards |
| `Ledger.ReconcileKeepsUserGrantsUnique` | libs/jwst-storage/src/database/mod.rs:197-199 | rebound grants lie on Normal workspaces and the user's earlier grants on Private ones, so reconciliation never produces two grants for one (workspace, user) |
| `Ledger.ReconcileKeepsEmailGrants` | libs/jwst-storage/src/database/mod.rs:165-168 | reconciliation keeps `(workspace_id, user_email)` unique and keeps every email-keyed grant on a Normal workspace |
| `Ledger.ReconcileRestoresConsistency` | libs/jwst-storage/src/database/mod.rs:179-204 | in the state `create_user` reaches before `update_cred`, that UPDATE succeeds and leaves the whole database consistent, including that no grant is keyed by a registered email |
| `Ledger.InsertGrantKeepsConsistent` | libs/jwst-storage/src/database/mod.rs:414-420 | an insert that passes the Normal-workspace filter and hits no unique conflict keeps every constraint |
| `Database.DBContext.UpdateWorkspace` | libs/jwst-storage/src/database/mod.rs:288-306 | it succeeds exactly on an existing Normal workspace, and then sets only `public` and returns the updated row; a missing or Private id gives None and changes nothing |
| `Database.DBContext.DeleteWorkspace` | libs/jwst-storage/src/database/mod.rs:308-320 | it returns true exactly when a Normal workspace with that id existed, and then removes it and every grant on it; otherwise it changes nothing |
| `Database.DBContext.CreatePermission` | libs/jwst-storage/src/database/mod.rs:406-450 | the grant is keyed by user id when the email is registered, otherwise by the bare email. It is inserted unaccepted, with a fresh id, exactly when the workspace exists, is Normal, and has no grant for that identity; otherwise None and no change |
| `Database.DBContext.AcceptPermission` | libs/jwst-storage/src/database/mod.rs:452-462 | an unknown id gives None and no change; otherwise only that grant's `accepted` becomes true, and the updated row is returned |
| `Database.DBContext.DeletePermission` | libs/jwst-storage/src/database/mod.rs:464-472 | it removes the grant with that id, of any role, and returns whether it existed |
| `Database.DBContext.DeletePermissionByQuery` | libs/jwst-storage/src/database/mod.rs:474-491 | it removes exactly the non-Owner grant of that user on that workspace, returns true iff one existed, and leaves every Owner grant in place |
| `Queries.GetUserByEmail` | libs/jwst-storage/src/database/mod.rs:96-103 | None iff no user has the email; otherwise a user whose stored email is that email, with its id, name and avatar |
| `Queries.GetUserByEmailFindsRegistered` | libs/jwst-storage/src/database/mod.rs:96-103 | because emails are unique, the lookup returns exactly the registered user |
| `Queries.InviteeOf` | libs/jwst-storage/src/database/mod.rs:426-437 | the invitee is `Registered(user)` iff some user has the email, with that user's record; otherwise it is `UnRegistered { email }` |
| `Queries.GetWorkspaceOwner` | libs/jwst-storage/src/database/mod.rs:105-119 | RowNotFound iff no Owner grant on the workspace joins to a user; otherwise a user who holds an Owner grant there |
| `Queries.GetWorkspaceById` | libs/jwst-storage/src/database/mod.rs:206-246 | a missing id gives None. A Private workspace gives owner None and member count 0. A Normal workspace gives its owner, which is a user's own record from `users` and holds an Owner grant there, and the number of accepted grants. It gives RowNotFound when no Owner grant joins to a user |
| `Queries.GetUserWorkspaces` | libs/jwst-storage/src/database/mod.rs:322-338 | one row for each grant the user holds, accepted or not, with the workspace and the grant's role, and no other rows |
| `Queries.UserWorkspacesOnePerWorkspace` | libs/jwst-storage/src/database/mod.rs:322-338 | since `(workspace_id, user_id)` is unique, no workspace appears twice in a user's list |
| `Queries.MemberOf` | libs/jwst-storage/src/database/mod.rs:340-355 | the LEFT JOIN: user columns are present iff the grant is keyed by an existing user id; `user_email` is present iff it is keyed by an email |
| `Queries.GetWorkspaceMembers` | libs/jwst-storage/src/database/mod.rs:340-355 | exactly one member row for each grant on the workspace |
| `Queries.GetPermission` | libs/jwst-storage/src/database/mod.rs:357-370 | None iff the user holds no grant on the workspace; otherwise the role of a grant they hold there |
| `Queries.GetPermissionIsRoleOfGrant` | libs/jwst-storage/src/database/mod.rs:357-370 | in a consistent database, the result is the role of the user's single grant on that workspace |
| `Queries.GetPermissionByPermissionId` | libs/jwst-storage/src/database/mod.rs:372-390 | Some iff the grant id exists and the caller holds a grant on that grant's workspace; the role is that of the caller's own grant there |
| `Queries.CanReadWorkspace` | libs/jwst-storage/src/database/mod.rs:392-404 | true iff the user holds a grant on the workspace (accepted or not), or the workspace is public and the permissions table is not empty |
| `Queries.CanReadIntended` | libs/jwst-storage/src/database/mod.rs:392-404 | corrected check: a grant holder can read; a public workspace is always readable; a private one is unreadable without a grant |
| `Queries.CanReadDiffersOnEmptyLedger` | libs/jwst-storage/src/database/mod.rs:393-396 | a consistent database with a public workspace and no grants, where the written check denies what the intended check allows |
| `Queries.CanReadAgreesOnNonEmptyLedger` | libs/jwst-storage/src/database/mod.rs:393-396 | when the permissions table has a row, the written and intended checks agree |
| `Queries.UserLogin` | libs/jwst-storage/src/database/mod.rs:121-132 | Some iff a user's email and password both match; it returns that user and their current nonce |
| `Queries.RefreshToken` | libs/jwst-storage/src/database/mod.rs:134-145 | Some iff the id exists and the presented nonce equals its stored `token_nonce` |
| `Queries.VerifyRefreshToken` | libs/jwst-storage/src/database/mod.rs:147-158 | true iff `refresh_token` would succeed, i.e. iff the nonce equals the stored one |
| `Scenarios.RepeatedInviteIsAbsorbed` | libs/jwst-storage/src/database/mod.rs:414-420 | a second identical invitation returns None; on a Normal workspace exactly one grant for that invitee remains |
| `Scenarios.AcceptTwice` | libs/jwst-storage/src/database/mod.rs:452-462 | accepting twice returns the same row and leaves the same table as accepting once |
| `Scenarios.AliceInvitesBob` | libs/jwst-storage/src/database/mod.rs:426-437 | after a registration and a Normal workspace, an invitation to an unregistered email is keyed by that email |
| `Scenarios.BobClaimsInvitation` | libs/jwst-storage/src/database/mod.rs:197-199 | registering the invited email rebinds that grant to the new user id, with role Write and accepted still false. Only the Normal workspace can then be made public |

## Left out

- Database.DBContext.CreateUser: models the conflict target at mod.rs:184 as
  `(email)`, not as written, because the written form makes every call fail
  (see Findings and `Database.CreateUserAsWrittenIsRejected`).
- `DBContext::new` and `init_db`: they only connect and run the DDL. The
  constructor models the empty tables, and the declared constraints are
  `Schema.Consistent`.
- The `google_users` table: nothing in this file reads or writes it.
- `get_user_in_workspace_by_email`: as written, its behaviour cannot be
  stated.
  - Its first statement has no placeholder for the value it binds, and
    returns an arbitrary user.
  - It decodes `SELECT True` as a user.
- Connection and storage failures, async execution, the pool, and the
  `mysql`/`sqlite` switches are not modelled. So are concurrent transactions
  and their isolation. Each transaction is one atomic method.
- Data-dependent failures are modelled:
  - the foreign key in `create_workspace`;
  - the unique check in `update_cred`;
  - `fetch_one`'s missing row in `get_workspace_owner`.
- `create_permission`'s user lookup and its insert run as one atomic step.
  The source does not wrap them in a transaction.
- `created_at` columns: they are set by the database clock.
- Passwords are opaque strings compared by equality. Hashing is not in this
  file. The nullable `password` column is always written by `create_user`.
- Nonce rotation: nothing in this file changes `token_nonce`, so only the
  comparison is modelled.
- Integer widths: ids, `SERIAL` (32-bit) and `BIGSERIAL` (64-bit), and the
  `SMALLINT` nonce are unbounded integers. Overflow is not modelled.
- Sequence gaps: an insert skipped on conflict or rolled back may still
  consume a sequence value in the database. The model advances a counter only
  when a row is inserted. Ids stay fresh either way.
- Row order:
  - Queries with no `ORDER BY` that read one row return the matching row with
    the lowest id.
  - Queries that return lists return sets of rows. `get_user_workspaces` and
    `get_workspace_members` produce at most one row per grant, so nothing is
    lost.
- `create_workspace` inserts the workspace and then fails on the grant's
  foreign key. The model checks the key first. The net effect is the same,
  because the caller then drops its transaction.

## Findings

| source | as written | input that shows it | evidently intended | confidence | as-written member | corrected member |
|---|---|---|---|---|---|---|
| libs/jwst-storage/src/database/mod.rs:393-396 | the public-workspace test is OR-ed into a WHERE clause evaluated per row of `permissions`, so it can only pass when that table has a row | a public Normal workspace while the permissions table is empty, e.g. after `delete_permission` removed every grant: `can_read_workspace(1, 2)` returns false | anyone may read a public workspace | medium, not executed | `Queries.CanReadWorkspace` (shown by `Queries.CanReadDiffersOnEmptyLedger`) | `Queries.CanReadIntended` |
| libs/jwst-storage/src/database/mod.rs:181-186 | the user INSERT ends in `ON CONFLICT email DO NOTHING`, without parentheses around the conflict target, which neither PostgreSQL nor SQLite accepts | any call, e.g. `create_user` for a new email on empty tables: the statement is rejected, so `create_user` returns Err and changes nothing, and nobody can register | `ON CONFLICT (email) DO NOTHING`: the insert is skipped when the email is taken and `create_user` returns `Ok(None)` | high, not executed | `Database.InsertUser` with `Database.WrittenConflictClause` (shown by `Database.CreateUserAsWrittenIsRejected`) | `Database.DBContext.CreateUser` |
