/** The three tables of the membership store and the constraints their
    DDL declares (users, workspaces, permissions). */
module Schema {
  import opened Sql

  type UserId = nat
  type WorkspaceId = nat
  type PermissionId = nat

  datatype WorkspaceType = Private | Normal

  /** Roles, from least to most privileged. */
  datatype PermissionType = Read | Write | Admin | Owner

  /** Who a grant is for: exactly one of the `user_id` and `user_email`
      columns is set. */
  datatype Identity = Registered(userId: UserId) | Unregistered(email: string)

  datatype UserRow = UserRow(name: string, email: string, avatarUrl: Option<string>, password: string, tokenNonce: int)

  datatype WorkspaceRow = WorkspaceRow(public: bool, kind: WorkspaceType)

  datatype PermissionRow = PermissionRow(workspaceId: WorkspaceId, identity: Identity, role: PermissionType, accepted: bool)

  /** The database: the three tables and the next value of each table's id
      sequence. */
  datatype Db = Db(
    users: map<UserId, UserRow>,
    workspaces: map<WorkspaceId, WorkspaceRow>,
    permissions: map<PermissionId, PermissionRow>,
    nextUserId: nat,
    nextWorkspaceId: nat,
    nextPermissionId: nat)

  /** SERIAL / BIGSERIAL: every key in use is below the next id. */
  predicate IdsFresh(db: Db)
  {
    && (forall k :: k in db.users ==> k < db.nextUserId)
    && (forall k :: k in db.workspaces ==> k < db.nextWorkspaceId)
    && (forall k :: k in db.permissions ==> k < db.nextPermissionId)
  }

  /** UNIQUE (email) on users. */
  predicate UniqueUserEmail(users: map<UserId, UserRow>)
  {
    forall a, b :: a in users && b in users && users[a].email == users[b].email ==> a == b
  }

  /** UNIQUE (workspace_id, user_id) on permissions; rows whose user_id is
      NULL never collide. */
  predicate UniqueUserGrant(perms: map<PermissionId, PermissionRow>)
  {
    forall a, b ::
      a in perms && b in perms && perms[a].identity.Registered? &&
      perms[a].identity == perms[b].identity && perms[a].workspaceId == perms[b].workspaceId
      ==> a == b
  }

  /** UNIQUE (workspace_id, user_email) on permissions. */
  predicate UniqueEmailGrant(perms: map<PermissionId, PermissionRow>)
  {
    forall a, b ::
      a in perms && b in perms && perms[a].identity.Unregistered? &&
      perms[a].identity == perms[b].identity && perms[a].workspaceId == perms[b].workspaceId
      ==> a == b
  }

  /** The foreign keys of permissions: workspace_id references workspaces
      (rows go with their workspace, ON DELETE CASCADE) and user_id
      references users. */
  predicate GrantsReferenceRows(db: Db)
  {
    forall id :: id in db.permissions ==>
      && db.permissions[id].workspaceId in db.workspaces
      && (db.permissions[id].identity.Registered? ==> db.permissions[id].identity.userId in db.users)
  }

  /** Invitations by bare email are only ever issued on Normal workspaces. */
  predicate EmailGrantsOnNormal(db: Db)
  {
    forall id :: id in db.permissions && db.permissions[id].identity.Unregistered? ==>
      && db.permissions[id].workspaceId in db.workspaces
      && db.workspaces[db.permissions[id].workspaceId].kind == Normal
  }

  /** No grant is still keyed by the email of a registered user. */
  predicate InvitesReconciled(db: Db)
  {
    forall id, u :: id in db.permissions && u in db.users ==>
      db.permissions[id].identity != Unregistered(db.users[u].email)
  }

  /** Everything the database guarantees between transactions. */
  predicate Consistent(db: Db)
  {
    && IdsFresh(db)
    && UniqueUserEmail(db.users)
    && UniqueUserGrant(db.permissions)
    && UniqueEmailGrant(db.permissions)
    && GrantsReferenceRows(db)
    && EmailGrantsOnNormal(db)
    && InvitesReconciled(db)
  }

  /** Whether `ident` already holds a grant on `wsId`: the conflict that
      makes an insert into permissions a no-op. */
  predicate HasGrant(perms: map<PermissionId, PermissionRow>, wsId: WorkspaceId, ident: Identity)
  {
    exists id :: id in perms && perms[id].workspaceId == wsId && perms[id].identity == ident
  }
}
