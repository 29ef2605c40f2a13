/** Reconciliation of email-keyed invitations (`update_cred`) and why it
    cannot break the ledger's constraints when a user registers. */
module Ledger {
  import opened Sql
  import opened Schema

  /** UPDATE permissions SET user_id = uid, user_email = NULL
      WHERE user_email = email. */
  function Reconcile(perms: map<PermissionId, PermissionRow>, uid: UserId, email: string): (r: map<PermissionId, PermissionRow>)
    ensures r.Keys == perms.Keys
    ensures forall id :: id in perms && perms[id].identity == Unregistered(email) ==>
      && r[id].identity == Registered(uid)
      && r[id].workspaceId == perms[id].workspaceId
      && r[id].role == perms[id].role
      && r[id].accepted == perms[id].accepted
    ensures forall id :: id in perms && perms[id].identity != Unregistered(email) ==> r[id] == perms[id]
    ensures forall id :: id in r ==> r[id].identity != Unregistered(email)
  {
    UpdateWhere(perms, (p: PermissionRow) => p.identity == Unregistered(email),
                       (p: PermissionRow) => p.(identity := Registered(uid)))
  }

  /** The UPDATE issued by `update_cred` violates no constraint: the new
      user_id exists when some row takes it, and no workspace ends up with
      two grants for that user. */
  predicate UpdateCredSucceeds(db: Db, uid: UserId, email: string)
  {
    && (uid in db.users || Where(db.permissions, (p: PermissionRow) => p.identity == Unregistered(email)) == {})
    && UniqueUserGrant(Reconcile(db.permissions, uid, email))
  }

  /** The rows reconciliation rebinds sit on Normal workspaces, while the user's
      only earlier grants are on Private ones, so no (workspace_id, user_id)
      pair is produced twice. */
  lemma ReconcileKeepsUserGrantsUnique(db: Db, uid: UserId, email: string)
    requires UniqueUserGrant(db.permissions) && UniqueEmailGrant(db.permissions)
    requires EmailGrantsOnNormal(db)
    requires forall id :: id in db.permissions && db.permissions[id].identity == Registered(uid) ==>
      db.permissions[id].workspaceId in db.workspaces && db.workspaces[db.permissions[id].workspaceId].kind == Private
    ensures UniqueUserGrant(Reconcile(db.permissions, uid, email))
  {
    var perms := db.permissions;
    var r := Reconcile(perms, uid, email);
    forall a, b | a in r && b in r && r[a].identity.Registered? &&
      r[a].identity == r[b].identity && r[a].workspaceId == r[b].workspaceId
      ensures a == b
    {
      var rebindA := perms[a].identity == Unregistered(email);
      var rebindB := perms[b].identity == Unregistered(email);
      if rebindA || rebindB {
        assert r[a].identity == Registered(uid);
        var ws := perms[a].workspaceId;
        assert ws == perms[b].workspaceId && ws in db.workspaces;
        // A rebound row's workspace is Normal, a row already keyed by uid is
        // on a Private one: both rows are of the same kind.
        assert rebindA <==> db.workspaces[ws].kind == Normal;
        assert rebindB <==> db.workspaces[ws].kind == Normal;
      }
    }
  }

  /** Reconciliation never creates an email-keyed grant, so the
      (workspace_id, user_email) constraint and the Normal-only rule for
      invitations survive it. */
  lemma ReconcileKeepsEmailGrants(db: Db, uid: UserId, email: string)
    requires UniqueEmailGrant(db.permissions) && EmailGrantsOnNormal(db)
    ensures UniqueEmailGrant(Reconcile(db.permissions, uid, email))
    ensures EmailGrantsOnNormal(db.(permissions := Reconcile(db.permissions, uid, email)))
  {
    var r := Reconcile(db.permissions, uid, email);
    forall id | id in r && r[id].identity.Unregistered?
      ensures db.permissions[id] == r[id]
    {
    }
  }

  /** Registration, just before `update_cred`: the new user `uid` has a row,
      every other user's invitations are already reconciled, and `uid` holds
      grants only on Private workspaces. Reconciling then yields a consistent
      database. */
  lemma {:induction false} ReconcileRestoresConsistency(db: Db, uid: UserId, email: string)
    requires IdsFresh(db) && UniqueUserEmail(db.users)
    requires UniqueUserGrant(db.permissions) && UniqueEmailGrant(db.permissions)
    requires GrantsReferenceRows(db) && EmailGrantsOnNormal(db)
    requires uid in db.users && db.users[uid].email == email
    requires forall id, u :: id in db.permissions && u in db.users && u != uid ==>
      db.permissions[id].identity != Unregistered(db.users[u].email)
    requires forall id :: id in db.permissions && db.permissions[id].identity == Registered(uid) ==>
      db.permissions[id].workspaceId in db.workspaces && db.workspaces[db.permissions[id].workspaceId].kind == Private
    ensures UpdateCredSucceeds(db, uid, email)
    ensures Consistent(db.(permissions := Reconcile(db.permissions, uid, email)))
  {
    ReconcileKeepsUserGrantsUnique(db, uid, email);
    ReconcileKeepsEmailGrants(db, uid, email);
    var db' := db.(permissions := Reconcile(db.permissions, uid, email));
    forall id, u | id in db'.permissions && u in db'.users
      ensures db'.permissions[id].identity != Unregistered(db'.users[u].email)
    {
      if u != uid {
        assert db.permissions[id].identity != Unregistered(db.users[u].email);
      }
    }
  }

  /** Inserting one grant on an existing workspace keeps the database
      consistent when its identity references a user or is an email no user
      has, an email grant sits on a Normal workspace, and the identity holds
      no grant there yet (the conflict `ON CONFLICT DO NOTHING` skips). */
  lemma {:induction false} InsertGrantKeepsConsistent(db: Db, row: PermissionRow)
    requires Consistent(db)
    requires row.workspaceId in db.workspaces
    requires row.identity.Registered? ==> row.identity.userId in db.users
    requires row.identity.Unregistered? ==>
      && db.workspaces[row.workspaceId].kind == Normal
      && forall u :: u in db.users ==> db.users[u].email != row.identity.email
    requires !HasGrant(db.permissions, row.workspaceId, row.identity)
    ensures Consistent(db.(permissions := db.permissions[db.nextPermissionId := row], nextPermissionId := db.nextPermissionId + 1))
  {
    var pid := db.nextPermissionId;
    var perms := db.permissions[pid := row];
    var db' := db.(permissions := perms, nextPermissionId := pid + 1);
    assert pid !in db.permissions;
    assert forall k :: k in db.permissions ==>
      !(db.permissions[k].workspaceId == row.workspaceId && db.permissions[k].identity == row.identity);
    assert UniqueUserGrant(perms) && UniqueEmailGrant(perms);
    assert InvitesReconciled(db');
  }
}
