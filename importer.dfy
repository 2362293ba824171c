/** BatchUserRoleImporter of src/pentahotools/batch/importer.go: an object
    holding a client, the two lazily listed name indexes, the map of the
    user names that rows have mentioned, and three public switches. Each
    method works in place and is proved to agree with the state-passing
    function of ImporterSpec that describes it; ImporterLaws proves what
    those functions promise. */
module Importer {
  import opened Strings
  import opened Directory
  import opened Errors
  import opened BatchClient
  import opened ImporterSpec
  import opened ImporterLaws

  class BatchUserRoleImporter {
    const client: Client
    var allUserNames: Option<map<string, string>>
    var allRoleNames: Option<map<string, string>>
    var appearedUserNames: map<string, string>
    var strictCaseSensitive: bool
    var createRoles: bool
    var updatePassword: bool

    function Caches(): Caches
      reads this
    {
      ImporterSpec.Caches(allUserNames, allRoleNames, appearedUserNames)
    }

    function Options(): Options
      reads this
    {
      ImporterSpec.Options(strictCaseSensitive, createRoles, updatePassword)
    }

    /** The directory as the client's target sees it. */
    function World(): World
      reads client.Target()
    {
      client.Target().Snapshot()
    }

    /** The indexes, once listed, are well formed. */
    ghost predicate Valid()
      reads this
    {
      CachesWF(Caches())
    }

    /** NewImporter. */
    constructor (client: Client)
      ensures this.client == client
      ensures Caches() == FreshCaches() && Options() == DefaultOptions()
      ensures Valid()
    {
      this.client := client;
      allUserNames := None;
      allRoleNames := None;
      appearedUserNames := map[];
      strictCaseSensitive := true;
      createRoles := false;
      updatePassword := false;
    }

    /** The "lower-cased name -> spelling" map of a listing, built by a loop. */
    static method IndexNames(names: seq<string>) returns (m: map<string, string>)
      ensures m == LowerIndex(names)
    {
      m := map[];
      var i := 0;
      while i < |names|
        invariant 0 <= i <= |names|
        invariant m == LowerIndex(names[..i])
      {
        assert names[..i + 1][..i] == names[..i];
        m := m[Lower(names[i]) := names[i]];
        i := i + 1;
      }
      assert names[..|names|] == names;
    }

    /** getAllUserNames. */
    method GetAllUserNames() returns (r: Result<map<string, string>>)
      modifies this`allUserNames, client.Target()
      ensures Run(r, Caches(), World()) == AllUserNames(client, old(Caches()), old(World()))
    {
      if allUserNames.None? {
        var reply := Send(client, ListUsers);
        if reply.Refused? {
          return Err(CallFailed(ListUsers));
        }
        var m := IndexNames(reply.names);
        allUserNames := Some(m);
      }
      return Ok(allUserNames.value);
    }

    /** getAllRoleNames. */
    method GetAllRoleNames() returns (r: Result<map<string, string>>)
      modifies this`allRoleNames, client.Target()
      ensures Run(r, Caches(), World()) == AllRoleNames(client, old(Caches()), old(World()))
    {
      if allRoleNames.None? {
        var reply := Send(client, ListAllRoles);
        if reply.Refused? {
          return Err(CallFailed(ListAllRoles));
        }
        var m := IndexNames(reply.names);
        allRoleNames := Some(m);
      }
      return Ok(allRoleNames.value);
    }

    /** getFixedUserNameOrCreate. */
    method GetFixedUserNameOrCreate(user: string, password: string) returns (r: Result<string>)
      modifies this`allUserNames, client.Target()
      ensures Run(r, Caches(), World()) == ResolveUser(Options(), client, old(Caches()), old(World()), user, password)
    {
      var all := GetAllUserNames();
      if all.Err? {
        return Err(all.error);
      }
      var m := all.value;
      var userNameLower := Lower(user);
      var fixedUserName := GoGet(m, userNameLower);
      if user != fixedUserName {
        if fixedUserName == "" {
          var reply := Send(client, CreateUser(user, password));
          if reply.Refused? {
            return Err(CallFailed(CreateUser(user, password)));
          }
          fixedUserName := user;
          allUserNames := Some(m[userNameLower := user]);
        } else if strictCaseSensitive {
          return Err(UserCaseMismatch(user, fixedUserName));
        }
      }
      return Ok(fixedUserName);
    }

    /** getFixedRoleNameOrCreate. */
    method GetFixedRoleNameOrCreate(roleName: string) returns (r: Result<string>)
      modifies this`allRoleNames, client.Target()
      ensures Run(r, Caches(), World()) == ResolveRole(Options(), client, old(Caches()), old(World()), roleName)
    {
      var all := GetAllRoleNames();
      if all.Err? {
        return Err(all.error);
      }
      var m := all.value;
      var roleNameLower := Lower(roleName);
      var fixedRoleName := GoGet(m, roleNameLower);
      if roleName != fixedRoleName {
        if fixedRoleName == "" {
          if !createRoles {
            return Err(NoSuchRole(roleName));
          }
          var reply := Send(client, CreateRole(roleName));
          if reply.Refused? {
            return Err(CallFailed(CreateRole(roleName)));
          }
          fixedRoleName := roleName;
          allRoleNames := Some(m[roleNameLower := roleName]);
        } else if strictCaseSensitive {
          return Err(RoleCaseMismatch(roleName, fixedRoleName));
        }
      }
      return Ok(fixedRoleName);
    }

    /** The assignLoop of Import: the stored spellings of the desired roles the
        user does not hold yet. */
    method CollectAssigning(roles: seq<string>, rolesForUser: seq<string>) returns (r: Result<seq<string>>)
      modifies this`allRoleNames, client.Target()
      ensures Run(r, Caches(), World()) == AssignLoop(Options(), client, old(Caches()), old(World()), roles, rolesForUser, [])
    {
      var assigningRoles: seq<string> := [];
      var i := 0;
      while i < |roles|
        invariant 0 <= i <= |roles|
        invariant AssignLoop(Options(), client, old(Caches()), old(World()), roles, rolesForUser, [])
               == AssignLoop(Options(), client, Caches(), World(), roles[i..], rolesForUser, assigningRoles)
      {
        assert roles[i..] == [roles[i]] + roles[i + 1..];
        if |roles[i]| == 0 {
          i := i + 1;
          continue;
        }
        var step := AssignOne(roles[i], rolesForUser, assigningRoles, roles[i + 1..]);
        if step.Err? {
          return Err(step.error);
        }
        assigningRoles := step.value;
        i := i + 1;
      }
      return Ok(assigningRoles);
    }

    /** One turn of the assignLoop on a non-empty role: resolve it, and add its
        stored spelling to acc unless the user already holds it. */
    method AssignOne(role: string, rolesForUser: seq<string>, acc: seq<string>, ghost rest: seq<string>)
      returns (r: Result<seq<string>>)
      requires role != ""
      modifies this`allRoleNames, client.Target()
      ensures r.Err? ==> (Run(Err(r.error), Caches(), World())
                          == AssignLoop(Options(), client, old(Caches()), old(World()), [role] + rest, rolesForUser, acc))
      ensures r.Ok? ==> (AssignLoop(Options(), client, Caches(), World(), rest, rolesForUser, r.value)
                         == AssignLoop(Options(), client, old(Caches()), old(World()), [role] + rest, rolesForUser, acc))
    {
      AssignLoopCons(Options(), client, Caches(), World(), role, rest, rolesForUser, acc);
      var fixed := GetFixedRoleNameOrCreate(role);
      if fixed.Err? {
        return Err(fixed.error);
      }
      var held := Holds(rolesForUser, fixed.value);
      if held {
        return Ok(acc);
      }
      return Ok(acc + [fixed.value]);
    }

    /** The scan of the user's current roles for one stored spelling. */
    static method Holds(rolesForUser: seq<string>, fixedRoleName: string) returns (held: bool)
      ensures held <==> fixedRoleName in rolesForUser
    {
      held := false;
      var j := 0;
      while j < |rolesForUser| && !held
        invariant 0 <= j <= |rolesForUser|
        invariant held <==> fixedRoleName in rolesForUser[..j]
      {
        if fixedRoleName == rolesForUser[j] {
          held := true;
        }
        assert rolesForUser[..j + 1] == rolesForUser[..j] + [rolesForUser[j]];
        j := j + 1;
      }
      assert !held ==> rolesForUser[..j] == rolesForUser;
    }

    /** The inner loop of removeLoop: whether some desired role resolves to
        exactly role. */
    method AnyResolvesTo(roles: seq<string>, role: string) returns (r: Result<bool>)
      modifies this`allRoleNames, client.Target()
      ensures Run(r, Caches(), World()) == MatchesAny(Options(), client, old(Caches()), old(World()), roles, role)
    {
      var j := 0;
      while j < |roles|
        invariant 0 <= j <= |roles|
        invariant MatchesAny(Options(), client, old(Caches()), old(World()), roles, role)
               == MatchesAny(Options(), client, Caches(), World(), roles[j..], role)
      {
        assert roles[j..][1..] == roles[j + 1..];
        var fixed := GetFixedRoleNameOrCreate(roles[j]);
        if fixed.Err? {
          return Err(fixed.error);
        }
        if fixed.value == role {
          return Ok(true);
        }
        j := j + 1;
      }
      return Ok(false);
    }

    /** The removeLoop of Import: the current roles no desired role resolves
        to, except Authenticated; Administrator is never taken from admin. */
    method CollectRemoving(fixedUserName: string, roles: seq<string>, rolesForUser: seq<string>)
      returns (r: Result<seq<string>>)
      modifies this`allRoleNames, client.Target()
      ensures Run(r, Caches(), World())
           == RemoveLoop(Options(), client, old(Caches()), old(World()), fixedUserName, roles, rolesForUser, [])
    {
      var removingRoles: seq<string> := [];
      var n := 0;
      while n < |rolesForUser|
        invariant 0 <= n <= |rolesForUser|
        invariant RemoveLoop(Options(), client, old(Caches()), old(World()), fixedUserName, roles, rolesForUser, [])
               == RemoveLoop(Options(), client, Caches(), World(), fixedUserName, roles, rolesForUser[n..], removingRoles)
      {
        assert rolesForUser[n..][1..] == rolesForUser[n + 1..];
        var role := rolesForUser[n];
        if role == "Authenticated" {
          n := n + 1;
          continue;
        }
        var matched := AnyResolvesTo(roles, role);
        if matched.Err? {
          return Err(matched.error);
        }
        if !matched.value {
          if fixedUserName == "admin" && role == "Administrator" {
            return Err(AdministratorProtected);
          }
          removingRoles := removingRoles + [role];
        }
        n := n + 1;
      }
      return Ok(removingRoles);
    }

    /** Import of one row: records the row, resolves (or creates) the user,
        optionally updates the password, then brings the user's roles in line
        with the row. */
    method Import(user: string, password: string, roles: seq<string>) returns (r: Result<()>)
      requires Valid()
      modifies this`allUserNames, this`allRoleNames, this`appearedUserNames, client.Target()
      ensures Valid()
      ensures Run(r, Caches(), World()) == ImporterSpec.Import(Options(), client, old(Caches()), old(World()), user, password, roles)
    {
      ImportSound(Options(), client, Caches(), World(), user, password, roles);
      appearedUserNames := appearedUserNames[Lower(user) := user];
      var fixed := GetFixedUserNameOrCreate(user, password);
      if fixed.Err? {
        return Err(fixed.error);
      }
      r := ImportResolvedUser(user, fixed.value, password, roles);
    }

    /** Import once the user is resolved: the optional password update, the
        user's current roles, then their reconciliation with the row. */
    method ImportResolvedUser(user: string, fixedUserName: string, password: string, roles: seq<string>)
      returns (r: Result<()>)
      modifies this`allRoleNames, client.Target()
      ensures Run(r, Caches(), World())
           == ImportResolved(Options(), client, old(Caches()), old(World()), user, fixedUserName, password, roles)
    {
      if updatePassword {
        var reply := Send(client, UpdatePassword(user, password));
        if reply.Refused? {
          return Err(CallFailed(UpdatePassword(user, password)));
        }
      }
      var listed := Send(client, ListRolesForUser(fixedUserName));
      if listed.Refused? {
        return Err(CallFailed(ListRolesForUser(fixedUserName)));
      }
      r := ReconcileRoles(fixedUserName, roles, listed.names);
    }

    /** The second half of Import: assigns the row's roles the user lacks,
        then removes the roles the row no longer lists. */
    method ReconcileRoles(fixedUserName: string, roles: seq<string>, rolesForUser: seq<string>) returns (r: Result<()>)
      modifies this`allRoleNames, client.Target()
      ensures Run(r, Caches(), World()) == Reconcile(Options(), client, old(Caches()), old(World()), fixedUserName, roles, rolesForUser)
    {
      ghost var spec := Reconcile(Options(), client, Caches(), World(), fixedUserName, roles, rolesForUser);
      var assigning := CollectAssigning(roles, rolesForUser);
      if assigning.Err? {
        return Err(assigning.error);
      }
      var assigningRoles := assigning.value;
      if |assigningRoles| > 0 {
        var reply := Send(client, AssignRolesToUser(fixedUserName, assigningRoles));
        if reply.Refused? {
          return Err(CallFailed(AssignRolesToUser(fixedUserName, assigningRoles)));
        }
      }
      assert spec == RemovePhase(Options(), client, Caches(), World(), fixedUserName, roles, rolesForUser);

      var removing := CollectRemoving(fixedUserName, roles, rolesForUser);
      if removing.Err? {
        return Err(removing.error);
      }
      var removingRoles := removing.value;
      if |removingRoles| > 0 {
        var reply := Send(client, RemoveRolesFromUser(fixedUserName, removingRoles));
        if reply.Refused? {
          return Err(CallFailed(RemoveRolesFromUser(fixedUserName, removingRoles)));
        }
      }
      return Ok(());
    }

    /** The walk over the user index in DeleteRemainingUsers: the spellings of
        the keys no row recorded, except admin, each once, in the walk's order. */
    static method UsersToDelete(m: map<string, string>, appeared: map<string, string>) returns (deletingUsers: seq<string>)
      requires IndexWF(m)
      ensures Enumerates(deletingUsers, Remaining(m, appeared))
    {
      deletingUsers := [];
      var keys := m.Keys;
      while keys != {}
        invariant keys <= m.Keys
        invariant Distinct(deletingUsers)
        invariant forall d :: d in deletingUsers ==> Lower(d) in m.Keys - keys
        invariant ToSet(deletingUsers) == RemainingAmong(m, appeared, m.Keys - keys)
        decreases keys
      {
        var k :| k in keys;
        RemainingAmongAdd(m, appeared, m.Keys - keys, k);
        assert m.Keys - (keys - {k}) == (m.Keys - keys) + {k};
        if GoGet(appeared, k) == "" {
          if k != "admin" {
            assert m[k] !in deletingUsers;
            deletingUsers := deletingUsers + [m[k]];
          }
        }
        keys := keys - {k};
      }
      assert m.Keys - keys == m.Keys;
      RemainingAmongAll(m, appeared);
    }

    /** DeleteRemainingUsers: deletes every listed user no row mentioned
        (never admin), then, if asked, each deleted user's home directory.
        The map walk's order is returned as deleting. */
    method DeleteRemainingUsers(deleteHomeDirectory: bool) returns (r: Result<()>, ghost deleting: seq<string>)
      requires Valid()
      modifies this`allUserNames, client.Target()
      ensures Valid()
      ensures ValidSweepOrder(client, old(Caches()), old(World()), deleting)
      ensures Run(r, Caches(), World()) == Sweep(client, old(Caches()), old(World()), deleteHomeDirectory, deleting)
    {
      AllUserNamesSound(client, Caches(), World());
      var all := GetAllUserNames();
      if all.Err? {
        return Err(Wrapped("failed to list all user names.", all.error)), [];
      }
      var deletingUsers := UsersToDelete(all.value, appearedUserNames);
      deleting := deletingUsers;
      if |deletingUsers| == 0 {
        return Ok(()), deleting;
      }
      var reply := Send(client, DeleteUsers(deletingUsers));
      if reply.Refused? {
        return Err(CallFailed(DeleteUsers(deletingUsers))), deleting;
      }
      if deleteHomeDirectory {
        var errorCount := DeleteHomeDirectories(client, deletingUsers);
        if errorCount > 0 {
          return Err(HomeDirectoryFailures), deleting;
        }
      }
      return Ok(()), deleting;
    }
  }

  /** The home-directory loop: one DeleteFiles call per user, in order,
      counting the refused ones and never stopping early. */
  method DeleteHomeDirectories(c: Client, users: seq<string>) returns (failures: nat)
    modifies c.Target()
    ensures Tally(failures, c.Target().Snapshot()) == DeleteHomes(c, old(c.Target().Snapshot()), users, 0)
  {
    ghost var w0 := c.Target().Snapshot();
    failures := 0;
    var i := 0;
    while i < |users|
      invariant 0 <= i <= |users|
      invariant DeleteHomes(c, w0, users, 0) == DeleteHomes(c, c.Target().Snapshot(), users[i..], failures)
    {
      assert users[i..][0] == users[i] && users[i..][1..] == users[i + 1..];
      var x := Send(c, DeleteFiles([HomeOf(users[i])]));
      if x.Refused? {
        failures := failures + 1;
      }
      i := i + 1;
    }
  }
}
