/** Clients of `DBContext` that check, from the method contracts alone, the
    behaviour callers rely on across several calls. */
module Scenarios {
  import opened Sql
  import opened Schema
  import opened Queries
  import opened Ledger
  import opened Database

  /** Inviting the same email to the same workspace twice: the second call
      is absorbed, and the workspace holds one grant for that invitee. */
  method RepeatedInviteIsAbsorbed(db: DBContext, email: string, wsId: WorkspaceId, role: PermissionType)
    returns (first: Option<(PermissionId, UserCred)>, second: Option<(PermissionId, UserCred)>)
    requires db.Valid()
    modifies db
    ensures db.Valid()
    ensures second.None?
    ensures var ident := IdentityOf(InviteeOf(old(db.State()), email));
      wsId in db.workspaces && db.workspaces[wsId].kind == Normal ==>
        && HasGrant(db.permissions, wsId, ident)
        && forall a, b ::
             (&& a in db.permissions && db.permissions[a].workspaceId == wsId && db.permissions[a].identity == ident
              && b in db.permissions && db.permissions[b].workspaceId == wsId && db.permissions[b].identity == ident)
             ==> a == b
  {
    ghost var before := db.State();
    first := db.CreatePermission(email, wsId, role);
    ghost var middle := db.State();
    // The invitee is classified the same way both times: users did not change.
    assert middle.users == before.users && middle.nextUserId == before.nextUserId;
    assert InviteeOf(middle, email) == InviteeOf(before, email);
    ghost var ident := IdentityOf(InviteeOf(before, email));
    if first.Some? {
      assert middle.permissions[first.value.0] == PermissionRow(wsId, ident, role, false);
    }
    assert wsId in middle.workspaces && middle.workspaces[wsId].kind == Normal ==> HasGrant(middle.permissions, wsId, ident);
    second := db.CreatePermission(email, wsId, role);
  }

  /** Accepting a grant twice gives the same row and the same table as
      accepting it once. */
  method AcceptTwice(db: DBContext, pid: PermissionId) returns (first: Option<Permission>, second: Option<Permission>)
    requires db.Valid()
    modifies db
    ensures db.Valid()
    ensures first == second
    ensures first.None? <==> pid !in old(db.permissions)
    ensures db.permissions == if pid in old(db.permissions)
      then old(db.permissions)[pid := old(db.permissions)[pid].(accepted := true)]
      else old(db.permissions)
  {
    first := db.AcceptPermission(pid);
    second := db.AcceptPermission(pid);
  }

  /** Alice registers and shares a Normal workspace with bob@x.com, who has
      no account yet: the invitation is keyed by the bare email. */
  method AliceInvitesBob() returns (db: DBContext)
    ensures fresh(db) && db.Valid()
    ensures db.users.Keys == {1} && db.users[1].email == "alice@x.com"
    ensures db.workspaces == map[1 := WorkspaceRow(false, Private), 2 := WorkspaceRow(false, Normal)]
    ensures 3 in db.permissions && db.permissions[3] == PermissionRow(2, Unregistered("bob@x.com"), Write, false)
    ensures db.nextUserId == 2 && db.nextWorkspaceId == 3 && db.nextPermissionId == 4
  {
    db := new DBContext();
    var alice := db.CreateUser("alice", "secret", "alice@x.com", None);
    assert alice == Some(User(1, "alice", "alice@x.com", None));
    var shared := db.CreateNormalWorkspace(1);
    assert shared == Some(Workspace(2, false, Normal));
    assert db.users[1].email != "bob@x.com";
    var sent := db.CreatePermission("bob@x.com", 2, Write);
    assert sent == Some((3, UnregisteredEmail("bob@x.com")));
  }

  /** Bob's registration claims the invitation, which keeps its role and
      stays unaccepted. Only the Normal workspace can then be made public. */
  method BobClaimsInvitation() returns (db: DBContext, bob: User)
    ensures db.Valid()
    ensures bob == User(2, "bob", "bob@x.com", None)
    ensures 3 in db.permissions && db.permissions[3] == PermissionRow(2, Registered(2), Write, false)
    ensures 2 in db.workspaces && db.workspaces[2] == WorkspaceRow(true, Normal)
    ensures 1 in db.workspaces && db.workspaces[1] == WorkspaceRow(false, Private)
  {
    db := AliceInvitesBob();
    var registered := db.CreateUser("bob", "hunter2", "bob@x.com", None);
    assert registered.Some?;
    bob := registered.value;
    var madePublic := db.UpdateWorkspace(2, true);
    assert madePublic == Some(Workspace(2, true, Normal));
    var privateUntouched := db.UpdateWorkspace(1, true);
    assert privateUntouched == None;
  }
}
