/** The read-only queries of the store, as functions of the current
    tables, and the records they return. */
module Queries {
  import opened Sql
  import opened Schema

  datatype User = User(id: UserId, name: string, email: string, avatarUrl: Option<string>)
  datatype UserWithNonce = UserWithNonce(user: User, tokenNonce: int)
  datatype Workspace = Workspace(id: WorkspaceId, public: bool, kind: WorkspaceType)
  datatype WorkspaceDetail = WorkspaceDetail(workspace: Workspace, owner: Option<User>, memberCount: nat)
  datatype WorkspaceWithPermission = WorkspaceWithPermission(workspace: Workspace, permission: PermissionType)
  datatype Member = Member(id: PermissionId, role: PermissionType, userEmail: Option<string>, accepted: bool, user: Option<User>)
  datatype Permission = Permission(id: PermissionId, workspaceId: WorkspaceId, identity: Identity, role: PermissionType, accepted: bool)

  /** How an invitee was classified when the invitation was written. */
  datatype UserCred = RegisteredUser(user: User) | UnregisteredEmail(email: string)

  /** The outcome of `fetch_one`: the row, or the error it raises when the
      query returns nothing. */
  datatype Fetch<T> = Fetched(value: T) | RowNotFound

  function UserOf(db: Db, id: UserId): User
    requires id in db.users
  {
    var u := db.users[id];
    User(id, u.name, u.email, u.avatarUrl)
  }

  function WorkspaceOf(db: Db, id: WorkspaceId): Workspace
    requires id in db.workspaces
  {
    Workspace(id, db.workspaces[id].public, db.workspaces[id].kind)
  }

  function PermissionOf(id: PermissionId, p: PermissionRow): Permission
  {
    Permission(id, p.workspaceId, p.identity, p.role, p.accepted)
  }

  /** The user registered under `email`, if any. */
  function GetUserByEmail(db: Db, email: string): (r: Option<User>)
    requires IdsFresh(db)
    ensures r.None? <==> forall id :: id in db.users ==> db.users[id].email != email
    ensures r.Some? ==> r.value.id in db.users && r.value == UserOf(db, r.value.id) && r.value.email == email
  {
    match First(db.users, (u: UserRow) => u.email == email, db.nextUserId)
    case None => None
    case Some(id) => Some(UserOf(db, id))
  }

  /** Under the UNIQUE (email) constraint the lookup finds exactly the
      registered user. */
  lemma GetUserByEmailFindsRegistered(db: Db, id: UserId)
    requires Consistent(db)
    requires id in db.users
    ensures GetUserByEmail(db, db.users[id].email) == Some(UserOf(db, id))
  {
    var email := db.users[id].email;
    FirstOfSingleMatch(db.users, (u: UserRow) => u.email == email, db.nextUserId, id);
  }

  /** The classification `create_permission` makes of an invitee. */
  function InviteeOf(db: Db, email: string): (r: UserCred)
    requires IdsFresh(db)
    ensures r.RegisteredUser? <==> exists id :: id in db.users && db.users[id].email == email
    ensures r.RegisteredUser? ==> r.user.id in db.users && r.user == UserOf(db, r.user.id) && r.user.email == email
    ensures r.UnregisteredEmail? ==> r.email == email
  {
    match GetUserByEmail(db, email)
    case Some(u) => RegisteredUser(u)
    case None => UnregisteredEmail(email)
  }

  /** The identity a grant for this invitee is keyed by. */
  function IdentityOf(cred: UserCred): Identity
  {
    match cred
    case RegisteredUser(u) => Registered(u.id)
    case UnregisteredEmail(e) => Unregistered(e)
  }

  /** A permission row that joins to its user as an Owner of `wsId`. */
  predicate JoinsAsOwner(db: Db, wsId: WorkspaceId, p: PermissionRow)
  {
    p.workspaceId == wsId && p.role == Owner && p.identity.Registered? && p.identity.userId in db.users
  }

  /** The user holding an Owner grant on the workspace (`fetch_one`). */
  function GetWorkspaceOwner(db: Db, wsId: WorkspaceId): (r: Fetch<User>)
    requires IdsFresh(db)
    ensures r.RowNotFound? <==> forall id :: id in db.permissions ==> !JoinsAsOwner(db, wsId, db.permissions[id])
    ensures r.Fetched? ==>
      && r.value.id in db.users && r.value == UserOf(db, r.value.id)
      && HasOwnerGrant(db.permissions, wsId, r.value.id)
  {
    match First(db.permissions, (p: PermissionRow) => JoinsAsOwner(db, wsId, p), db.nextPermissionId)
    case None => RowNotFound
    case Some(id) =>
      assert db.permissions[id].identity == Registered(db.permissions[id].identity.userId);
      Fetched(UserOf(db, db.permissions[id].identity.userId))
  }

  predicate HasOwnerGrant(perms: map<PermissionId, PermissionRow>, wsId: WorkspaceId, uid: UserId)
  {
    exists id :: id in perms && perms[id].workspaceId == wsId && perms[id].identity == Registered(uid) && perms[id].role == Owner
  }

  /** The accepted grants on a workspace: its member count. */
  function AcceptedGrants(perms: map<PermissionId, PermissionRow>, wsId: WorkspaceId): set<PermissionId>
  {
    Where(perms, (p: PermissionRow) => p.workspaceId == wsId && p.accepted)
  }

  /** A workspace with its owner and member count; a Private workspace
      discloses neither. */
  function GetWorkspaceById(db: Db, wsId: WorkspaceId): (r: Fetch<Option<WorkspaceDetail>>)
    requires IdsFresh(db)
    ensures wsId !in db.workspaces ==> r == Fetched(None)
    ensures wsId in db.workspaces && db.workspaces[wsId].kind == Private ==>
      r == Fetched(Some(WorkspaceDetail(WorkspaceOf(db, wsId), None, 0)))
    ensures wsId in db.workspaces && db.workspaces[wsId].kind == Normal ==>
      && (r.RowNotFound? <==> forall id :: id in db.permissions ==> !JoinsAsOwner(db, wsId, db.permissions[id]))
      && (r.Fetched? ==>
            && r.value.Some? && r.value.value.workspace == WorkspaceOf(db, wsId)
            && r.value.value.owner.Some?
            && r.value.value.owner.value.id in db.users
            && r.value.value.owner.value == UserOf(db, r.value.value.owner.value.id)
            && HasOwnerGrant(db.permissions, wsId, r.value.value.owner.value.id)
            && r.value.value.memberCount == |AcceptedGrants(db.permissions, wsId)|)
  {
    if wsId !in db.workspaces then Fetched(None)
    else if db.workspaces[wsId].kind == Private then
      Fetched(Some(WorkspaceDetail(WorkspaceOf(db, wsId), None, 0)))
    else
      match GetWorkspaceOwner(db, wsId)
      case RowNotFound => RowNotFound
      case Fetched(owner) =>
        Fetched(Some(WorkspaceDetail(WorkspaceOf(db, wsId), Some(owner), |AcceptedGrants(db.permissions, wsId)|)))
  }

  /** One row per grant the user holds, accepted or not, with the role. */
  function GetUserWorkspaces(db: Db, uid: UserId): (r: set<WorkspaceWithPermission>)
    ensures forall row :: row in r ==>
      && row.workspace.id in db.workspaces && row.workspace == WorkspaceOf(db, row.workspace.id)
      && exists id :: id in db.permissions && db.permissions[id].identity == Registered(uid)
           && db.permissions[id].workspaceId == row.workspace.id && db.permissions[id].role == row.permission
    ensures forall id ::
      (id in db.permissions && db.permissions[id].identity == Registered(uid) && db.permissions[id].workspaceId in db.workspaces) ==>
      WorkspaceWithPermission(WorkspaceOf(db, db.permissions[id].workspaceId), db.permissions[id].role) in r
  {
    set id | id in db.permissions && db.permissions[id].identity == Registered(uid) && db.permissions[id].workspaceId in db.workspaces
      :: WorkspaceWithPermission(WorkspaceOf(db, db.permissions[id].workspaceId), db.permissions[id].role)
  }

  /** Because (workspace_id, user_id) is unique, no workspace is listed
      twice for one user. */
  lemma {:induction false} UserWorkspacesOnePerWorkspace(db: Db, uid: UserId, a: WorkspaceWithPermission, b: WorkspaceWithPermission)
    requires Consistent(db)
    requires a in GetUserWorkspaces(db, uid) && b in GetUserWorkspaces(db, uid)
    requires a.workspace.id == b.workspace.id
    ensures a == b
  {
    var ia :| ia in db.permissions && db.permissions[ia].identity == Registered(uid)
      && db.permissions[ia].workspaceId == a.workspace.id && db.permissions[ia].role == a.permission;
    var ib :| ib in db.permissions && db.permissions[ib].identity == Registered(uid)
      && db.permissions[ib].workspaceId == b.workspace.id && db.permissions[ib].role == b.permission;
    assert ia == ib;
  }

  /** A grant LEFT JOINed with users: the user's columns are present exactly
      when the grant is keyed by a user id that has a row. */
  function MemberOf(db: Db, id: PermissionId, p: PermissionRow): (m: Member)
    ensures m.id == id && m.role == p.role && m.accepted == p.accepted
    ensures m.userEmail.Some? <==> p.identity.Unregistered?
    ensures m.userEmail.Some? ==> p.identity == Unregistered(m.userEmail.value)
    ensures m.user.Some? <==> p.identity.Registered? && p.identity.userId in db.users
    ensures m.user.Some? ==> m.user.value == UserOf(db, p.identity.userId)
  {
    match p.identity
    case Registered(u) => Member(id, p.role, None, p.accepted, if u in db.users then Some(UserOf(db, u)) else None)
    case Unregistered(e) => Member(id, p.role, Some(e), p.accepted, None)
  }

  /** Every grant on the workspace, accepted or not, as a member row. */
  function GetWorkspaceMembers(db: Db, wsId: WorkspaceId): (r: set<Member>)
    ensures forall m :: m in r ==>
      m.id in db.permissions && db.permissions[m.id].workspaceId == wsId && m == MemberOf(db, m.id, db.permissions[m.id])
    ensures forall id :: id in db.permissions && db.permissions[id].workspaceId == wsId ==>
      MemberOf(db, id, db.permissions[id]) in r
  {
    set id | id in db.permissions && db.permissions[id].workspaceId == wsId :: MemberOf(db, id, db.permissions[id])
  }

  /** The caller's role on a workspace, if they hold a grant there. */
  function GetPermission(db: Db, uid: UserId, wsId: WorkspaceId): (r: Option<PermissionType>)
    requires IdsFresh(db)
    ensures r.None? <==> !HasGrant(db.permissions, wsId, Registered(uid))
    ensures r.Some? ==> exists id :: (id in db.permissions && db.permissions[id].workspaceId == wsId
      && db.permissions[id].identity == Registered(uid) && db.permissions[id].role == r.value)
  {
    match First(db.permissions, (p: PermissionRow) => p.identity == Registered(uid) && p.workspaceId == wsId, db.nextPermissionId)
    case None => None
    case Some(id) => Some(db.permissions[id].role)
  }

  /** In a consistent database the role returned is the role of the one
      grant the user holds on the workspace. */
  lemma GetPermissionIsRoleOfGrant(db: Db, uid: UserId, id: PermissionId)
    requires Consistent(db)
    requires id in db.permissions && db.permissions[id].identity == Registered(uid)
    ensures GetPermission(db, uid, db.permissions[id].workspaceId) == Some(db.permissions[id].role)
  {
    var wsId := db.permissions[id].workspaceId;
    FirstOfSingleMatch(db.permissions, (p: PermissionRow) => p.identity == Registered(uid) && p.workspaceId == wsId, db.nextPermissionId, id);
  }

  /** The caller's role on the workspace that grant `pid` belongs to. */
  function GetPermissionByPermissionId(db: Db, uid: UserId, pid: PermissionId): (r: Option<PermissionType>)
    requires IdsFresh(db)
    ensures r.Some? <==> pid in db.permissions && HasGrant(db.permissions, db.permissions[pid].workspaceId, Registered(uid))
    ensures r.Some? ==> exists id :: (id in db.permissions && db.permissions[id].workspaceId == db.permissions[pid].workspaceId
      && db.permissions[id].identity == Registered(uid) && db.permissions[id].role == r.value)
  {
    if pid in db.permissions then GetPermission(db, uid, db.permissions[pid].workspaceId) else None
  }

  predicate IsPublic(db: Db, wsId: WorkspaceId)
  {
    wsId in db.workspaces && db.workspaces[wsId].public
  }

  predicate ReadPasses(db: Db, uid: UserId, wsId: WorkspaceId, p: PermissionRow)
  {
    (p.identity == Registered(uid) && p.workspaceId == wsId) || IsPublic(db, wsId)
  }

  /** The read check as its WHERE clause is written: each row of the
      permissions table passes when it is the caller's grant on the
      workspace OR the workspace is public. */
  function CanReadWorkspace(db: Db, uid: UserId, wsId: WorkspaceId): (r: bool)
    ensures r <==> HasGrant(db.permissions, wsId, Registered(uid)) || (IsPublic(db, wsId) && |db.permissions| > 0)
  {
    var pass := Where(db.permissions, (p: PermissionRow) => ReadPasses(db, uid, wsId, p));
    assert HasGrant(db.permissions, wsId, Registered(uid)) ==> pass != {} by {
      if HasGrant(db.permissions, wsId, Registered(uid)) {
        var k :| k in db.permissions && db.permissions[k].workspaceId == wsId && db.permissions[k].identity == Registered(uid);
        assert k in pass;
      }
    }
    assert IsPublic(db, wsId) && |db.permissions| > 0 ==> pass != {} by {
      if IsPublic(db, wsId) && |db.permissions| > 0 {
        var k :| k in db.permissions;
        assert k in pass;
      }
    }
    assert pass != {} ==> HasGrant(db.permissions, wsId, Registered(uid)) || (IsPublic(db, wsId) && |db.permissions| > 0) by {
      if pass != {} {
        var k :| k in pass;
        assert k in db.permissions && ReadPasses(db, uid, wsId, db.permissions[k]);
        assert |db.permissions| > 0 by { assert k in db.permissions.Keys; }
      }
    }
    pass != {}
  }

  /** The read check the OR-ed subquery at mod.rs:396 evidently means: a
      grant of any kind, or a public workspace, whatever else the
      permissions table holds. */
  function CanReadIntended(db: Db, uid: UserId, wsId: WorkspaceId): (r: bool)
    ensures IsPublic(db, wsId) ==> r
    ensures HasGrant(db.permissions, wsId, Registered(uid)) ==> r
    ensures !IsPublic(db, wsId) && !HasGrant(db.permissions, wsId, Registered(uid)) ==> !r
  {
    HasGrant(db.permissions, wsId, Registered(uid)) || IsPublic(db, wsId)
  }

  /** The two checks differ only when the permissions table is empty: a
      public workspace is then unreadable through `can_read_workspace`. */
  lemma CanReadDiffersOnEmptyLedger()
    ensures var db := Db(map[1 := UserRow("alice", "alice@x.com", None, "pw", 0)],
                         map[2 := WorkspaceRow(true, Normal)], map[], 2, 3, 3);
      && Consistent(db)
      && !CanReadWorkspace(db, 1, 2)
      && CanReadIntended(db, 1, 2)
  {
    var db := Db(map[1 := UserRow("alice", "alice@x.com", None, "pw", 0)],
                 map[2 := WorkspaceRow(true, Normal)], map[], 2, 3, 3);
    assert !HasGrant(db.permissions, 2, Registered(1));
  }

  /** Everywhere else the written check is the intended one. */
  lemma CanReadAgreesOnNonEmptyLedger(db: Db, uid: UserId, wsId: WorkspaceId)
    requires |db.permissions| > 0
    ensures CanReadWorkspace(db, uid, wsId) == CanReadIntended(db, uid, wsId)
  {
  }

  /** `user_login`: the user whose email and password both match. */
  function UserLogin(db: Db, email: string, password: string): (r: Option<UserWithNonce>)
    requires IdsFresh(db)
    ensures r.None? <==> forall id :: id in db.users ==> !(db.users[id].email == email && db.users[id].password == password)
    ensures r.Some? ==>
      && r.value.user.id in db.users
      && db.users[r.value.user.id].email == email && db.users[r.value.user.id].password == password
      && r.value == UserWithNonce(UserOf(db, r.value.user.id), db.users[r.value.user.id].tokenNonce)
  {
    match First(db.users, (u: UserRow) => u.email == email && u.password == password, db.nextUserId)
    case None => None
    case Some(id) => Some(UserWithNonce(UserOf(db, id), db.users[id].tokenNonce))
  }

  /** `refresh_token`: the user, provided the presented nonce is the one
      stored for that id. */
  function RefreshToken(db: Db, uid: UserId, nonce: int): (r: Option<UserWithNonce>)
    ensures r.Some? <==> uid in db.users && db.users[uid].tokenNonce == nonce
    ensures r.Some? ==> r.value.user == UserOf(db, uid) && r.value.tokenNonce == nonce
  {
    if uid in db.users && db.users[uid].tokenNonce == nonce then Some(UserWithNonce(UserOf(db, uid), nonce)) else None
  }

  /** `verify_refresh_token`: the same condition, as a boolean. */
  function VerifyRefreshToken(db: Db, uid: UserId, nonce: int): (r: bool)
    ensures r <==> RefreshToken(db, uid, nonce).Some?
    ensures r <==> uid in db.users && db.users[uid].tokenNonce == nonce
  {
    uid in db.users && db.users[uid].tokenNonce == nonce
  }
}
