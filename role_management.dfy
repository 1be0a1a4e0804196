/** Role and module management: the user list with each user's role, the
    per-role module lists, the batched update written on save, and the list
    of distinct roles the module checkboxes are grouped by. */
module RoleManagement {
  import opened Records
  import opened Seqs

  /** The modules a role can be granted. */
  const AllModules: seq<string> := ["Dashboard", "Reports", "User Management", "Applications", "Settings"]

  /** A user row: the profile key, its role (`undefined` when the profile has
      none) and the other profile fields, which this screen only displays. */
  datatype User = User(uid: string, role: Option<string>, profile: Record)

  /** Role name to granted modules, as stored under `permissions`. */
  type Permissions = map<string, seq<string>>

  /** One value of the batched update: a user's role, or the whole permission table. */
  datatype Update = RoleOf(role: Option<string>) | PermissionTable(table: Permissions)

  /** `handleRoleChange(uid, newRole)`: every user with that uid gets the new
      role; the list keeps its length and order, and every other user, and
      every other field of a changed user, is untouched. */
  function RoleChanged(users: seq<User>, uid: string, newRole: string): (r: seq<User>)
    ensures |r| == |users|
    ensures forall i :: 0 <= i < |users| && users[i].uid != uid ==> r[i] == users[i]
    ensures forall i :: 0 <= i < |users| && users[i].uid == uid ==>
      r[i].uid == uid && r[i].role == Some(newRole) && r[i].profile == users[i].profile
  {
    seq(|users|, i requires 0 <= i < |users| =>
      if users[i].uid == uid then users[i].(role := Some(newRole)) else users[i])
  }

  /** The role of each user, in list order. */
  function Roles(users: seq<User>): (r: seq<Option<string>>)
    ensures |r| == |users|
    ensures forall i :: 0 <= i < |users| ==> r[i] == users[i].role
  {
    seq(|users|, i requires 0 <= i < |users| => users[i].role)
  }

  /** After a role change the roles in use are the old ones plus the new one. */
  lemma RoleChangeRoles(users: seq<User>, uid: string, newRole: string, x: Option<string>)
    ensures x in Roles(RoleChanged(users, uid, newRole)) ==> x in Roles(users) || x == Some(newRole)
  {
    var rs := Roles(RoleChanged(users, uid, newRole));
    if x in rs {
      var i :| 0 <= i < |rs| && rs[i] == x;
      assert Roles(users)[i] == users[i].role;
    }
  }

  /** `uniqueRoles`: each role in use exactly once, in order of first use. */
  function UniqueRoles(users: seq<User>): (r: seq<Option<string>>)
    ensures NoDup(r)
    ensures forall i :: 0 <= i < |users| ==> users[i].role in r
    ensures forall x :: x in r ==> exists i :: 0 <= i < |users| && users[i].role == x
  {
    var roles := Roles(users);
    var r := Distinct(roles);
    assert forall x :: x in r ==> x in roles;
    r
  }

  /** The roles come out in the order in which they are first used. */
  lemma UniqueRolesFirstUseOrder(users: seq<User>)
    ensures forall i, j :: 0 <= i < j < |UniqueRoles(users)| ==>
      FirstIndex(Roles(users), UniqueRoles(users)[i]) < FirstIndex(Roles(users), UniqueRoles(users)[j])
  {
    DistinctFirstOccurrenceOrder(Roles(users));
  }

  /** The property key a role is stored under: JavaScript turns an
      `undefined` role into the key `"undefined"`. */
  function RoleKey(role: Option<string>): string {
    if role.Some? then role.value else "undefined"
  }

  /** The toggle of one module in one list: removed (every copy) when it is
      there, appended when it is not. */
  function Toggled(current: seq<string>, m: string): (r: seq<string>)
    ensures m in r <==> m !in current
    ensures forall x :: x != m ==> (x in r <==> x in current)
  {
    WithoutContents(current, m);
    if m in current then Without(current, m) else current + [m]
  }

  /** Toggling twice brings membership of the module back. */
  lemma ToggleTwiceMembership(current: seq<string>, m: string)
    ensures forall x :: x in Toggled(Toggled(current, m), m) <==> x in current
  {
  }

  /** Toggling a module on and off again restores the exact list. */
  lemma {:induction false} ToggleOnOffRestores(current: seq<string>, m: string)
    requires m !in current
    ensures Toggled(Toggled(current, m), m) == current
  {
    WithoutConcat(current, [m], m);
    WithoutAbsent(current, m);
    assert Without([m], m) == [];
  }

  /** `handleModuleToggle(role, m)`: that role's list is toggled, a role with
      no list starting from `[]`; every other role keeps its list. */
  function ModuleToggled(perms: Permissions, role: string, m: string): (r: Permissions)
    ensures r.Keys == perms.Keys + {role}
    ensures r[role] == Toggled(if role in perms then perms[role] else [], m)
    ensures forall k :: k in perms && k != role ==> r[k] == perms[k]
  {
    perms[role := Toggled(if role in perms then perms[role] else [], m)]
  }

  /** The update path of a user's role. */
  function RolePath(uid: string): string {
    "profiles/" + uid + "/role"
  }

  /** Distinct users write to distinct paths, and none of them is `permissions`. */
  lemma RolePathInjective(a: string, b: string)
    ensures RolePath(a) == RolePath(b) ==> a == b
    ensures RolePath(a) != "permissions"
  {
    assert RolePath(a)[1] == 'r';
    if RolePath(a) == RolePath(b) {
      assert |a| == |b|;
      assert a == RolePath(a)[9..9 + |a|];
      assert b == RolePath(b)[9..9 + |b|];
    }
  }

  /** The role part of the batched update once `users` have been visited in
      order: each path holds the role of the last user with that uid. */
  function RoleUpdates(users: seq<User>): (u: map<string, Update>)
  {
    if users == [] then map[]
    else
      var last := users[|users| - 1];
      RoleUpdates(users[..|users| - 1])[RolePath(last.uid) := RoleOf(last.role)]
  }

  /** The role part holds one path per user and nothing else. */
  lemma {:induction false} RoleUpdatesKeys(users: seq<User>)
    ensures forall p :: p in RoleUpdates(users) <==> exists i :: 0 <= i < |users| && p == RolePath(users[i].uid)
  {
    if users != [] {
      var init := users[..|users| - 1];
      RoleUpdatesKeys(init);
      forall p | exists i :: 0 <= i < |users| && p == RolePath(users[i].uid)
        ensures p in RoleUpdates(users)
      {
        var i :| 0 <= i < |users| && p == RolePath(users[i].uid);
        if i < |users| - 1 {
          assert init[i] == users[i];
        }
      }
      forall p | p in RoleUpdates(users)
        ensures exists i :: 0 <= i < |users| && p == RolePath(users[i].uid)
      {
        if p != RolePath(users[|users| - 1].uid) {
          assert p in RoleUpdates(init);
          var i :| 0 <= i < |init| && p == RolePath(init[i].uid);
          assert init[i] == users[i];
        }
      }
    }
  }

  /** Last writer wins: a user's path holds that user's role unless a later
      user shares the uid. */
  lemma {:induction false} RoleUpdatesValue(users: seq<User>, i: nat)
    requires i < |users|
    requires forall j :: i < j < |users| ==> users[j].uid != users[i].uid
    ensures RolePath(users[i].uid) in RoleUpdates(users)
    ensures RoleUpdates(users)[RolePath(users[i].uid)] == RoleOf(users[i].role)
  {
    var init := users[..|users| - 1];
    var last := users[|users| - 1];
    if i < |users| - 1 {
      assert init[i] == users[i];
      forall j | i < j < |init| ensures init[j].uid != init[i].uid {
        assert init[j] == users[j];
      }
      RoleUpdatesValue(init, i);
      RolePathInjective(users[i].uid, last.uid);
    }
  }

  /** The whole batched update of `handleSave`. */
  function SaveUpdates(users: seq<User>, perms: Permissions): (u: map<string, Update>)
    ensures "permissions" in u && u["permissions"] == PermissionTable(perms)
    ensures forall p :: p in u && p != "permissions" ==> p in RoleUpdates(users) && u[p] == RoleUpdates(users)[p]
  {
    RoleUpdates(users)["permissions" := PermissionTable(perms)]
  }

  /** With distinct uids every user's path holds exactly that user's role,
      and the permission table is written whole next to them. */
  lemma SaveUpdatesDistinctUsers(users: seq<User>, perms: Permissions)
    requires forall i, j :: 0 <= i < j < |users| ==> users[i].uid != users[j].uid
    ensures forall i :: 0 <= i < |users| ==>
      RolePath(users[i].uid) in SaveUpdates(users, perms)
      && SaveUpdates(users, perms)[RolePath(users[i].uid)] == RoleOf(users[i].role)
    ensures |SaveUpdates(users, perms).Keys| == |users| + 1
  {
    var u := SaveUpdates(users, perms);
    forall i | 0 <= i < |users|
      ensures RolePath(users[i].uid) in u && u[RolePath(users[i].uid)] == RoleOf(users[i].role)
    {
      RoleUpdatesValue(users, i);
      RolePathInjective(users[i].uid, users[i].uid);
    }
    PathCount(users);
    RoleUpdatesKeys(users);
    forall p | p in RoleUpdates(users) ensures p != "permissions" {
      var i :| 0 <= i < |users| && p == RolePath(users[i].uid);
      RolePathInjective(users[i].uid, users[i].uid);
    }
    assert u.Keys == RoleUpdates(users).Keys + {"permissions"};
  }

  /** With distinct uids the role part has exactly one key per user. */
  lemma {:induction false} PathCount(users: seq<User>)
    requires forall i, j :: 0 <= i < j < |users| ==> users[i].uid != users[j].uid
    ensures |RoleUpdates(users).Keys| == |users|
  {
    if users != [] {
      var init := users[..|users| - 1];
      var last := users[|users| - 1];
      PathCount(init);
      RoleUpdatesKeys(init);
      if RolePath(last.uid) in RoleUpdates(init) {
        var i :| 0 <= i < |init| && RolePath(last.uid) == RolePath(init[i].uid);
        RolePathInjective(last.uid, init[i].uid);
        assert false;
      }
      assert RoleUpdates(users).Keys == RoleUpdates(init).Keys + {RolePath(last.uid)};
    }
  }

  class RoleManager {
    var users: seq<User>
    var permissions: Permissions
    var error: string
    var success: string
    var saving: bool

    /** The state after loading: the fetched users and permission table. */
    constructor (users: seq<User>, permissions: Permissions)
      ensures this.users == users && this.permissions == permissions
      ensures error == "" && success == "" && !saving
    {
      this.users := users;
      this.permissions := permissions;
      error := "";
      success := "";
      saving := false;
    }

    method HandleRoleChange(uid: string, newRole: string)
      modifies this`users
      ensures users == RoleChanged(old(users), uid, newRole)
    {
      users := RoleChanged(users, uid, newRole);
    }

    method HandleModuleToggle(role: Option<string>, m: string)
      modifies this`permissions
      ensures permissions == ModuleToggled(old(permissions), RoleKey(role), m)
    {
      permissions := ModuleToggled(permissions, RoleKey(role), m);
    }

    /** `handleSave`: builds the update one user at a time, then adds the
        permission table; the messages report the write's outcome and the
        saving flag ends cleared. */
    method Save(writeOk: bool) returns (updates: map<string, Update>)
      modifies this`error, this`success, this`saving
      ensures updates == SaveUpdates(users, permissions)
      ensures writeOk ==> success == "Roles and permissions updated!" && error == ""
      ensures !writeOk ==> success == "" && error == "Failed to update roles or permissions"
      ensures !saving
    {
      saving := true;
      error := "";
      success := "";
      updates := map[];
      var i := 0;
      while i < |users|
        invariant 0 <= i <= |users|
        invariant updates == RoleUpdates(users[..i])
      {
        assert users[..i + 1][..i] == users[..i];
        updates := updates[RolePath(users[i].uid) := RoleOf(users[i].role)];
        i := i + 1;
      }
      assert users[..i] == users;
      updates := updates["permissions" := PermissionTable(permissions)];
      if writeOk {
        success := "Roles and permissions updated!";
      } else {
        error := "Failed to update roles or permissions";
      }
      saving := false;
    }
  }
}
