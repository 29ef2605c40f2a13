/** `DBContext`: the three tables and their id sequences, changed in place
    by the store's statements and transactions. A transaction is one method
    that applies all of its effects or none. */
module Database {
  import opened Sql
  import opened Schema
  import opened Queries
  import opened Ledger

  class DBContext {
    var users: map<UserId, UserRow>
    var workspaces: map<WorkspaceId, WorkspaceRow>
    var permissions: map<PermissionId, PermissionRow>
    var nextUserId: nat
    var nextWorkspaceId: nat
    var nextPermissionId: nat

    /** The tables as a value, for the read-only queries. */
    function State(): Db
      reads this
    {
      Db(users, workspaces, permissions, nextUserId, nextWorkspaceId, nextPermissionId)
    }

    predicate Valid()
      reads this
    {
      Consistent(State())
    }

    /** Freshly created tables: empty, every sequence starting at 1. */
    constructor ()
      ensures Valid()
      ensures users == map[] && workspaces == map[] && permissions == map[]
      ensures nextUserId == 1 && nextWorkspaceId == 1 && nextPermissionId == 1
    {
      users, workspaces, permissions := map[], map[], map[];
      nextUserId, nextWorkspaceId, nextPermissionId := 1, 1, 1;
    }

    /** `create_workspace`, inside the caller's transaction: a workspace with
        public = false and the given type, then an accepted Owner grant for
        `userId`. The grant's user_id must reference a user; when it does not,
        the insert fails and the caller abandons its transaction, so nothing
        changes. */
    method CreateWorkspace(userId: UserId, kind: WorkspaceType) returns (r: Option<Workspace>)
      requires IdsFresh(State())
      modifies this
      ensures IdsFresh(State())
      ensures r.Some? <==> userId in old(users)
      ensures users == old(users) && nextUserId == old(nextUserId)
      ensures r.None? ==> State() == old(State())
      ensures r.Some? ==>
        && r.value == Workspace(old(nextWorkspaceId), false, kind)
        && workspaces == old(workspaces)[old(nextWorkspaceId) := WorkspaceRow(false, kind)]
        && permissions == old(permissions)[old(nextPermissionId) := PermissionRow(old(nextWorkspaceId), Registered(userId), Owner, true)]
        && nextWorkspaceId == old(nextWorkspaceId) + 1
        && nextPermissionId == old(nextPermissionId) + 1
    {
      if userId !in users {
        return None;
      }
      var wsId := nextWorkspaceId;
      workspaces := workspaces[wsId := WorkspaceRow(false, kind)];
      nextWorkspaceId := nextWorkspaceId + 1;
      permissions := permissions[nextPermissionId := PermissionRow(wsId, Registered(userId), Owner, true)];
      nextPermissionId := nextPermissionId + 1;
      r := Some(Workspace(wsId, false, kind));
    }

    /** `create_normal_workspace`: `create_workspace` with type Normal in a
        transaction of its own. */
    method CreateNormalWorkspace(userId: UserId) returns (r: Option<Workspace>)
      requires Valid()
      modifies this
      ensures Valid()
      ensures r.Some? <==> userId in old(users)
      ensures r.None? ==> State() == old(State())
      ensures r.Some? ==>
        && r.value == Workspace(old(nextWorkspaceId), false, Normal)
        && old(nextWorkspaceId) !in old(workspaces)
        && users == old(users)
        && workspaces == old(workspaces)[old(nextWorkspaceId) := WorkspaceRow(false, Normal)]
        && permissions == old(permissions)[old(nextPermissionId) := PermissionRow(old(nextWorkspaceId), Registered(userId), Owner, true)]
        && nextUserId == old(nextUserId)
        && nextWorkspaceId == old(nextWorkspaceId) + 1
        && nextPermissionId == old(nextPermissionId) + 1
    {
      r := CreateWorkspace(userId, Normal);
    }

    /** `update_cred`, inside the caller's transaction: every grant keyed by
        `email` is rebound to `userId`. The UPDATE fails, changing nothing,
        when its result would break a constraint on permissions. */
    method UpdateCred(userId: UserId, email: string) returns (ok: bool)
      modifies this`permissions
      ensures ok == UpdateCredSucceeds(old(State()), userId, email)
      ensures permissions == if ok then Reconcile(old(permissions), userId, email) else old(permissions)
    {
      ok := UpdateCredSucceeds(State(), userId, email);
      if ok {
        permissions := Reconcile(permissions, userId, email);
      }
    }

    /** `create_user`, one transaction: insert the user (nothing at all when
        the email is taken), provision their Private workspace with its Owner
        grant, then claim the invitations sent to their email. */
    method CreateUser(name: string, password: string, email: string, avatarUrl: Option<string>) returns (r: Option<User>)
      requires Valid()
      modifies this
      ensures Valid()
      ensures r.None? <==> exists id :: id in old(users) && old(users)[id].email == email
      ensures r.None? <==> InsertUser(old(State()), IntendedConflictClause, email).Skipped?
      ensures r.Some? ==> InsertUser(old(State()), IntendedConflictClause, email) == Inserted(r.value.id)
      ensures r.None? ==> State() == old(State())
      ensures r.Some? ==>
        var uid, wsId, pid := old(nextUserId), old(nextWorkspaceId), old(nextPermissionId);
        && r.value == User(uid, name, email, avatarUrl)
        && uid !in old(users) && wsId !in old(workspaces) && pid !in old(permissions)
        && users == old(users)[uid := UserRow(name, email, avatarUrl, password, 0)]
        && workspaces == old(workspaces)[wsId := WorkspaceRow(false, Private)]
        && permissions == Reconcile(old(permissions)[pid := PermissionRow(wsId, Registered(uid), Owner, true)], uid, email)
        && nextUserId == uid + 1 && nextWorkspaceId == wsId + 1 && nextPermissionId == pid + 1
        && permissions[pid] == PermissionRow(wsId, Registered(uid), Owner, true)
        && (forall id :: id in permissions && permissions[id].workspaceId == wsId ==> id == pid)
    {
      if exists id :: id in users && users[id].email == email {
        return None;
      }
      // The user row.
      var uid := nextUserId;
      users := users[uid := UserRow(name, email, avatarUrl, password, 0)];
      nextUserId := nextUserId + 1;
      // The Private workspace and its Owner grant.
      var ws := CreateWorkspace(uid, Private);
      assert ws.Some?;
      // The invitations to `email`, now keyed by the new id.
      ReconcileRestoresConsistency(State(), uid, email);
      var ok := UpdateCred(uid, email);
      assert ok;
      r := Some(User(uid, name, email, avatarUrl));
    }

    /** `update_workspace`: sets `public` on a Normal workspace; a missing or
        Private workspace yields None. */
    method UpdateWorkspace(wsId: WorkspaceId, public: bool) returns (r: Option<Workspace>)
      requires Valid()
      modifies this`workspaces
      ensures Valid()
      ensures r.Some? <==> wsId in old(workspaces) && old(workspaces)[wsId].kind == Normal
      ensures r.Some? ==>
        && r.value == Workspace(wsId, public, Normal)
        && workspaces == old(workspaces)[wsId := WorkspaceRow(public, Normal)]
      ensures r.None? ==> workspaces == old(workspaces)
    {
      if wsId in workspaces && workspaces[wsId].kind == Normal {
        workspaces := workspaces[wsId := workspaces[wsId].(public := public)];
        r := Some(Workspace(wsId, public, Normal));
      } else {
        r := None;
      }
    }

    /** `delete_workspace`: removes a Normal workspace and, through the
        cascading foreign key, every grant on it. */
    method DeleteWorkspace(wsId: WorkspaceId) returns (removed: bool)
      requires Valid()
      modifies this`workspaces, this`permissions
      ensures Valid()
      ensures removed <==> wsId in old(workspaces) && old(workspaces)[wsId].kind == Normal
      ensures removed ==>
        && workspaces == old(workspaces) - {wsId}
        && permissions == DeleteWhere(old(permissions), (p: PermissionRow) => p.workspaceId == wsId)
        && (forall id :: id in permissions ==> permissions[id].workspaceId != wsId)
      ensures !removed ==> workspaces == old(workspaces) && permissions == old(permissions)
    {
      removed := wsId in workspaces && workspaces[wsId].kind == Normal;
      if removed {
        workspaces := workspaces - {wsId};
        permissions := DeleteWhere(permissions, (p: PermissionRow) => p.workspaceId == wsId);
      }
    }

    /** `create_permission`: an unaccepted grant for `email` on a Normal
        workspace, keyed by user id when the email is registered and by the
        bare email otherwise; nothing when that identity already holds a grant
        there. */
    method CreatePermission(email: string, wsId: WorkspaceId, role: PermissionType) returns (r: Option<(PermissionId, UserCred)>)
      requires Valid()
      modifies this`permissions, this`nextPermissionId
      ensures Valid()
      ensures
        var cred := InviteeOf(old(State()), email);
        && (r.Some? <==> wsId in old(workspaces) && old(workspaces)[wsId].kind == Normal && !HasGrant(old(permissions), wsId, IdentityOf(cred)))
        && (r.Some? ==>
              && r.value == (old(nextPermissionId), cred)
              && permissions == old(permissions)[old(nextPermissionId) := PermissionRow(wsId, IdentityOf(cred), role, false)]
              && nextPermissionId == old(nextPermissionId) + 1)
        && (r.None? ==> permissions == old(permissions) && nextPermissionId == old(nextPermissionId))
    {
      var cred := InviteeOf(State(), email);
      var ident := IdentityOf(cred);
      if wsId in workspaces && workspaces[wsId].kind == Normal && !HasGrant(permissions, wsId, ident) {
        InsertGrantKeepsConsistent(State(), PermissionRow(wsId, ident, role, false));
        var pid := nextPermissionId;
        permissions := permissions[pid := PermissionRow(wsId, ident, role, false)];
        nextPermissionId := nextPermissionId + 1;
        r := Some((pid, cred));
      } else {
        r := None;
      }
    }

    /** `accept_permission`: marks the grant accepted and returns it. */
    method AcceptPermission(pid: PermissionId) returns (r: Option<Permission>)
      requires Valid()
      modifies this`permissions
      ensures Valid()
      ensures r.None? <==> pid !in old(permissions)
      ensures r.None? ==> permissions == old(permissions)
      ensures r.Some? ==>
        && permissions == old(permissions)[pid := old(permissions)[pid].(accepted := true)]
        && r.value == PermissionOf(pid, permissions[pid]) && r.value.accepted
    {
      if pid in permissions {
        permissions := permissions[pid := permissions[pid].(accepted := true)];
        r := Some(PermissionOf(pid, permissions[pid]));
      } else {
        r := None;
      }
    }

    /** `delete_permission`: removes the grant by id, whatever its role. */
    method DeletePermission(pid: PermissionId) returns (removed: bool)
      requires Valid()
      modifies this`permissions
      ensures Valid()
      ensures removed <==> pid in old(permissions)
      ensures permissions == old(permissions) - {pid}
    {
      removed := pid in permissions;
      permissions := permissions - {pid};
    }

    /** `delete_permission_by_query`: removes the user's grant on the
        workspace unless it is an Owner grant. */
    method DeletePermissionByQuery(userId: UserId, wsId: WorkspaceId) returns (removed: bool)
      requires Valid()
      modifies this`permissions
      ensures Valid()
      ensures removed <==> exists id :: id in old(permissions) && Revocable(userId, wsId, old(permissions)[id])
      ensures permissions == DeleteWhere(old(permissions), (p: PermissionRow) => Revocable(userId, wsId, p))
      ensures forall id :: id in old(permissions) && old(permissions)[id].role == Owner ==>
        id in permissions && permissions[id] == old(permissions)[id]
    {
      var doomed := Where(permissions, (p: PermissionRow) => Revocable(userId, wsId, p));
      removed := doomed != {};
      permissions := DeleteWhere(permissions, (p: PermissionRow) => Revocable(userId, wsId, p));
    }
  }

  /** The words after `ON CONFLICT` in an INSERT. PostgreSQL and SQLite both
      accept only `DO …` with no conflict target, a parenthesised column
      list, or (PostgreSQL) `ON CONSTRAINT name`; anything else is a syntax
      error, raised before any row is read or written. */
  predicate ConflictClauseParses(words: seq<string>)
  {
    && |words| > 0
    && (|| words[0] == "DO"
        || words[0] == "("
        || (words[0] == "ON" && |words| > 1 && words[1] == "CONSTRAINT"))
  }

  /** The conflict clause of the user INSERT in `create_user`, as written
      (mod.rs:184) and as evidently meant. */
  const WrittenConflictClause: seq<string> := ["email", "DO", "NOTHING"]
  const IntendedConflictClause: seq<string> := ["(", "email", ")", "DO", "NOTHING"]

  /** What the user INSERT yields: a new id, no row because the email is
      taken (`create_user` then returns `Ok(None)`), or an error that
      `create_user` propagates, abandoning its transaction. */
  datatype InsertOutcome = Inserted(id: UserId) | Skipped | SyntaxError

  /** The user INSERT of `create_user` with a given conflict clause. */
  function InsertUser(db: Db, clause: seq<string>, email: string): (r: InsertOutcome)
    ensures r.SyntaxError? <==> !ConflictClauseParses(clause)
    ensures r.Skipped? <==> ConflictClauseParses(clause) && exists id :: id in db.users && db.users[id].email == email
    ensures r.Inserted? && IdsFresh(db) ==> r.id !in db.users && r.id == db.nextUserId
  {
    if !ConflictClauseParses(clause) then SyntaxError
    else if exists id :: id in db.users && db.users[id].email == email then Skipped
    else Inserted(db.nextUserId)
  }

  /** As written, the INSERT never runs: every call of `create_user` fails,
      whatever the tables hold and whether or not the email is taken. */
  lemma CreateUserAsWrittenIsRejected(db: Db, email: string)
    ensures InsertUser(db, WrittenConflictClause, email) == SyntaxError
    ensures InsertUser(db, IntendedConflictClause, email) != SyntaxError
  {
  }

  /** The rows `delete_permission_by_query` deletes. */
  predicate Revocable(userId: UserId, wsId: WorkspaceId, p: PermissionRow)
  {
    p.identity == Registered(userId) && p.workspaceId == wsId && p.role != Owner
  }
}
