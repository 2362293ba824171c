/** The older user-file commands of cmd/batchuserrole.go, which talk to the
    directory directly: CreateUsersInFile reconciles each row of a user file
    against two listings taken once before the loop and only warns about
    every failure after them; DeleteUsersInFile deletes the users a file
    names. The package-level login password and Client.Password both come
    from the same --password flag and are one parameter here. */
module BatchUserRoleCommands {
  import opened Strings
  import opened Directory
  import opened Errors
  import opened BatchClient
  import opened ImporterSpec
  import opened ImporterLaws
  import opened Rows
  import Batch

  // ---------------------------------------------------------------------------
  // CreateUsersInFile, one row

  /** The role creations the role loop attempts: each row role, in order,
      whose exact spelling is not in the lower-cased standard-role set. */
  function CreateRoles(w: World, roles: seq<string>, standardRoles: set<string>): World
    decreases |roles|
  {
    if roles == [] then w
    else
      var w1 := if roles[0] in standardRoles then w else Serve(w, CreateRole(roles[0])).world;
      CreateRoles(w1, roles[1..], standardRoles)
  }

  /** The calls of CreateRoles. */
  function RoleCreations(roles: seq<string>, standardRoles: set<string>): (calls: seq<Call>)
    ensures forall call :: call in calls ==> call.CreateRole?
    ensures forall role :: CreateRole(role) in calls <==> role in roles && role !in standardRoles
    decreases |roles|
  {
    if roles == [] then []
    else (if roles[0] in standardRoles then [] else [CreateRole(roles[0])]) + RoleCreations(roles[1..], standardRoles)
  }

  /** The assign list: the row roles, in row order and original spelling,
      whose lower-cased form is not among the current roles. */
  function Assigning(roles: seq<string>, current: set<string>): (r: seq<string>)
    ensures |r| <= |roles|
    ensures forall x :: x in r <==> x in roles && Lower(x) !in current
    decreases |roles|
  {
    if roles == [] then []
    else (if Lower(roles[0]) in current then [] else [roles[0]]) + Assigning(roles[1..], current)
  }

  lemma {:induction false} CreateRolesAppend(w: World, xs: seq<string>, ys: seq<string>, standardRoles: set<string>)
    ensures CreateRoles(w, xs + ys, standardRoles) == CreateRoles(CreateRoles(w, xs, standardRoles), ys, standardRoles)
    decreases |xs|
  {
    if xs != [] {
      assert (xs + ys)[0] == xs[0] && (xs + ys)[1..] == xs[1..] + ys;
      var w1 := if xs[0] in standardRoles then w else Serve(w, CreateRole(xs[0])).world;
      CreateRolesAppend(w1, xs[1..], ys, standardRoles);
    } else {
      assert xs + ys == ys;
    }
  }

  lemma {:induction false} AssigningAppend(xs: seq<string>, ys: seq<string>, current: set<string>)
    ensures Assigning(xs + ys, current) == Assigning(xs, current) + Assigning(ys, current)
    decreases |xs|
  {
    if xs != [] {
      assert (xs + ys)[0] == xs[0] && (xs + ys)[1..] == xs[1..] + ys;
      AssigningAppend(xs[1..], ys, current);
    } else {
      assert xs + ys == ys;
    }
  }

  /** The roles the remove loop collects: the lower-cased current roles the
      row does not list (in any case), except authenticated. */
  function Removable(current: set<string>, row: UserRow): set<string> {
    set role | role in current && Unlisted(row, role)
  }

  /** The row does not list the role, in any case, and it is not
      authenticated. */
  predicate Unlisted(row: UserRow, role: string) {
    role !in row.RoleSet() && Lower(role) != "authenticated"
  }

  /** The password call for the row's user: an existing user's password is
      set to the row's password whenever the login password is non-empty; a
      new user is created with the row's password or, when that is empty,
      the login password. */
  function PasswordCalls(existingUsers: set<string>, loginPassword: string, row: UserRow): seq<Call> {
    if Lower(row.name) in existingUsers then
      if |loginPassword| > 0 then [UpdatePassword(row.name, row.password)] else []
    else [CreateUser(row.name, if |row.password| == 0 then loginPassword else row.password)]
  }

  function SendAll(w: World, calls: seq<Call>): World
    decreases |calls|
  {
    if calls == [] then w else SendAll(Serve(w, calls[0]).world, calls[1..])
  }

  /** The listing a row starts with. */
  function CurrentRoles(w: World, row: UserRow): Exchange {
    Serve(w, ListRolesForUser(row.name))
  }

  /** One row: its role listing (a refused listing skips the row), the
      password call, the role creations, the assignment when the assign list
      is not empty, and the removal of the roles in removing (the walk of
      the set of removable roles) when that is not empty. Every failure
      after the listing is only warned about. */
  function CreateRow(w: World, existingUsers: set<string>, standardRoles: set<string>, loginPassword: string,
                     row: UserRow, removing: seq<string>): World {
    var l := CurrentRoles(w, row);
    if l.reply.Refused? then l.world
    else
      var current := LowerSet(l.reply.names);
      var w1 := SendAll(l.world, PasswordCalls(existingUsers, loginPassword, row));
      var w2 := CreateRoles(w1, row.roles, standardRoles);
      var assigning := Assigning(row.roles, current);
      var w3 := if |assigning| > 0 then Serve(w2, AssignRolesToUser(row.name, assigning)).world else w2;
      if |removing| > 0 then Serve(w3, RemoveRolesFromUser(row.name, removing)).world else w3
  }

  /** removing is a walk of the roles the row's removal collects. */
  ghost predicate ValidRemoval(w: World, row: UserRow, removing: seq<string>) {
    var l := CurrentRoles(w, row);
    if l.reply.Refused? then removing == []
    else Enumerates(removing, Removable(LowerSet(l.reply.names), row))
  }

  /** The calls a row sends: exactly the listing, then, if it was served,
      the password call, the role creations, the assignment if any and the
      removal if any. */
  function RowTrace(w: World, existingUsers: set<string>, standardRoles: set<string>, loginPassword: string,
                    row: UserRow, removing: seq<string>): seq<Call> {
    var l := CurrentRoles(w, row);
    if l.reply.Refused? then [ListRolesForUser(row.name)]
    else
      var assigning := Assigning(row.roles, LowerSet(l.reply.names));
      [ListRolesForUser(row.name)]
      + PasswordCalls(existingUsers, loginPassword, row)
      + RoleCreations(row.roles, standardRoles)
      + (if |assigning| > 0 then [AssignRolesToUser(row.name, assigning)] else [])
      + (if |removing| > 0 then [RemoveRolesFromUser(row.name, removing)] else [])
  }

  lemma ServeFollows(w: World, call: Call)
    ensures Follows(w, Serve(w, call).world) && Since(w, Serve(w, call).world) == [call]
  {
  }

  lemma {:induction false} SendAllFollows(w: World, calls: seq<Call>)
    ensures Follows(w, SendAll(w, calls)) && Since(w, SendAll(w, calls)) == calls
    decreases |calls|
  {
    if calls == [] {
      assert w.trace[|w.trace|..] == [];
    } else {
      ServeFollows(w, calls[0]);
      SendAllFollows(Serve(w, calls[0]).world, calls[1..]);
      FollowsTrans(w, Serve(w, calls[0]).world, SendAll(w, calls));
    }
  }

  lemma {:induction false} CreateRolesFollows(w: World, roles: seq<string>, standardRoles: set<string>)
    ensures Follows(w, CreateRoles(w, roles, standardRoles))
    ensures Since(w, CreateRoles(w, roles, standardRoles)) == RoleCreations(roles, standardRoles)
    decreases |roles|
  {
    if roles == [] {
      assert w.trace[|w.trace|..] == [];
    } else {
      var w1 := if roles[0] in standardRoles then w else Serve(w, CreateRole(roles[0])).world;
      if roles[0] in standardRoles {
        assert w.trace[|w.trace|..] == [];
      } else {
        ServeFollows(w, CreateRole(roles[0]));
      }
      CreateRolesFollows(w1, roles[1..], standardRoles);
      FollowsTrans(w, w1, CreateRoles(w1, roles[1..], standardRoles));
    }
  }

  /** A row sends exactly the calls of RowTrace. */
  lemma CreateRowTrace(w: World, existingUsers: set<string>, standardRoles: set<string>, loginPassword: string,
                       row: UserRow, removing: seq<string>)
    ensures var w' := CreateRow(w, existingUsers, standardRoles, loginPassword, row, removing);
      Follows(w, w') && Since(w, w') == RowTrace(w, existingUsers, standardRoles, loginPassword, row, removing)
  {
    var l := CurrentRoles(w, row);
    ServeFollows(w, ListRolesForUser(row.name));
    if !l.reply.Refused? {
      var assigning := Assigning(row.roles, LowerSet(l.reply.names));
      var w1 := SendAll(l.world, PasswordCalls(existingUsers, loginPassword, row));
      SendAllFollows(l.world, PasswordCalls(existingUsers, loginPassword, row));
      FollowsTrans(w, l.world, w1);
      var w2 := CreateRoles(w1, row.roles, standardRoles);
      CreateRolesFollows(w1, row.roles, standardRoles);
      FollowsTrans(w, w1, w2);
      var w3 := if |assigning| > 0 then Serve(w2, AssignRolesToUser(row.name, assigning)).world else w2;
      if |assigning| > 0 {
        ServeFollows(w2, AssignRolesToUser(row.name, assigning));
      } else {
        assert w2.trace[|w2.trace|..] == [];
      }
      FollowsTrans(w, w2, w3);
      var w4 := CreateRow(w, existingUsers, standardRoles, loginPassword, row, removing);
      if |removing| > 0 {
        ServeFollows(w3, RemoveRolesFromUser(row.name, removing));
      } else {
        assert w3.trace[|w3.trace|..] == [];
      }
      FollowsTrans(w, w3, w4);
    }
  }

  /** A row whose role listing is refused is skipped: nothing else is sent
      for it. */
  lemma RefusedListingSkipsRow(w: World, existingUsers: set<string>, standardRoles: set<string>,
                               loginPassword: string, row: UserRow, removing: seq<string>)
    requires ListRolesForUser(row.name) in w.failing
    ensures var w' := CreateRow(w, existingUsers, standardRoles, loginPassword, row, removing);
      Follows(w, w') && Since(w, w') == [ListRolesForUser(row.name)] && w'.state == w.state
  {
    CreateRowTrace(w, existingUsers, standardRoles, loginPassword, row, removing);
  }

  /** For a user the first listing knew (in any case), the password is set
      exactly when the login password is non-empty, and then to the row's
      own password even when that is empty; no user is created. */
  lemma ExistingUserPassword(w: World, existingUsers: set<string>, standardRoles: set<string>,
                             loginPassword: string, row: UserRow, removing: seq<string>)
    requires ListRolesForUser(row.name) !in w.failing && Lower(row.name) in existingUsers
    ensures var calls := RowTrace(w, existingUsers, standardRoles, loginPassword, row, removing);
      && (UpdatePassword(row.name, row.password) in calls <==> loginPassword != "")
      && forall call :: call in calls ==> !call.CreateUser?
  {
    var tail := RowTraceTail(w, existingUsers, standardRoles, loginPassword, row, removing);
    var password := PasswordCalls(existingUsers, loginPassword, row);
    assert password == if loginPassword != "" then [UpdatePassword(row.name, row.password)] else [];
    assert UpdatePassword(row.name, row.password) !in tail;
  }

  /** A user the first listing did not know is created with the row's
      password, or the login password when the row's is empty; its password
      is not otherwise set. */
  lemma NewUserIsCreated(w: World, existingUsers: set<string>, standardRoles: set<string>,
                         loginPassword: string, row: UserRow, removing: seq<string>)
    requires ListRolesForUser(row.name) !in w.failing && Lower(row.name) !in existingUsers
    ensures var calls := RowTrace(w, existingUsers, standardRoles, loginPassword, row, removing);
      && CreateUser(row.name, if row.password == "" then loginPassword else row.password) in calls
      && forall call :: call in calls ==> !call.UpdatePassword?
  {
    var tail := RowTraceTail(w, existingUsers, standardRoles, loginPassword, row, removing);
    var created := CreateUser(row.name, if row.password == "" then loginPassword else row.password);
    assert PasswordCalls(existingUsers, loginPassword, row) == [created];
  }

  /** The calls of a served row after its listing and its password step are
      role creations and the assign and remove calls. */
  lemma RowTraceTail(w: World, existingUsers: set<string>, standardRoles: set<string>,
                     loginPassword: string, row: UserRow, removing: seq<string>) returns (tail: seq<Call>)
    requires ListRolesForUser(row.name) !in w.failing
    ensures RowTrace(w, existingUsers, standardRoles, loginPassword, row, removing)
         == [ListRolesForUser(row.name)] + PasswordCalls(existingUsers, loginPassword, row) + tail
    ensures forall call :: call in tail ==> call.CreateRole? || call.AssignRolesToUser? || call.RemoveRolesFromUser?
  {
    var l := CurrentRoles(w, row);
    assert !l.reply.Refused?;
    var assigning := Assigning(row.roles, LowerSet(l.reply.names));
    var creations := RoleCreations(row.roles, standardRoles);
    var post := (if |assigning| > 0 then [AssignRolesToUser(row.name, assigning)] else [])
              + (if |removing| > 0 then [RemoveRolesFromUser(row.name, removing)] else []);
    tail := creations + post;
    forall call | call in tail
      ensures call.CreateRole? || call.AssignRolesToUser? || call.RemoveRolesFromUser?
    {
      if call in creations {
        assert call.CreateRole?;
      }
    }
  }

  /** Role creation compares the row's exact spelling with the lower-cased
      standard roles: it is attempted for a role exactly when that spelling
      is missing, so a standard role written with a capital letter is
      created again. */
  lemma RoleCreationIsCaseSensitive(w: World, existingUsers: set<string>, standardRoles: set<string>,
                                    loginPassword: string, row: UserRow, removing: seq<string>, role: string)
    requires ListRolesForUser(row.name) !in w.failing
    ensures var calls := RowTrace(w, existingUsers, standardRoles, loginPassword, row, removing);
      CreateRole(role) in calls <==> role in row.roles && role !in standardRoles
  {
    var calls := RowTrace(w, existingUsers, standardRoles, loginPassword, row, removing);
    var l := CurrentRoles(w, row);
    var assigning := Assigning(row.roles, LowerSet(l.reply.names));
    var pre := [ListRolesForUser(row.name)] + PasswordCalls(existingUsers, loginPassword, row);
    var post := (if |assigning| > 0 then [AssignRolesToUser(row.name, assigning)] else [])
              + (if |removing| > 0 then [RemoveRolesFromUser(row.name, removing)] else []);
    assert calls == pre + RoleCreations(row.roles, standardRoles) + post;
    assert CreateRole(role) !in pre;
    assert CreateRole(role) !in post;
  }

  /** A row whose listing is served assigns, in one call, exactly the row
      roles (original spelling, row order) whose lower-cased form the user
      does not have yet, and only if there is one; and removes, in one call,
      exactly the lower-cased current roles the row does not list and that
      are not authenticated, each once, and only if there is one. */
  lemma AssignAndRemoveLists(w: World, existingUsers: set<string>, standardRoles: set<string>,
                             loginPassword: string, row: UserRow, removing: seq<string>)
    requires ListRolesForUser(row.name) !in w.failing
    requires ValidRemoval(w, row, removing)
    ensures var current := LowerSet(RolesOf(w.state, row.name));
      && (forall x :: x in Assigning(row.roles, current) <==> x in row.roles && Lower(x) !in current)
      && Distinct(removing) && ToSet(removing) == Removable(current, row)
      && RowTrace(w, existingUsers, standardRoles, loginPassword, row, removing)
         == [ListRolesForUser(row.name)]
            + PasswordCalls(existingUsers, loginPassword, row)
            + RoleCreations(row.roles, standardRoles)
            + (if exists x :: x in row.roles && Lower(x) !in current
               then [AssignRolesToUser(row.name, Assigning(row.roles, current))] else [])
            + (if Removable(current, row) != {} then [RemoveRolesFromUser(row.name, removing)] else [])
  {
    var current := LowerSet(RolesOf(w.state, row.name));
    var assigning := Assigning(row.roles, current);
    assert CurrentRoles(w, row).reply == Served(RolesOf(w.state, row.name));
    assert Enumerates(removing, Removable(current, row));
    var pre := [ListRolesForUser(row.name)] + PasswordCalls(existingUsers, loginPassword, row)
               + RoleCreations(row.roles, standardRoles);
    assert RowTrace(w, existingUsers, standardRoles, loginPassword, row, removing)
        == pre + (if |assigning| > 0 then [AssignRolesToUser(row.name, assigning)] else [])
               + (if |removing| > 0 then [RemoveRolesFromUser(row.name, removing)] else []);
    assert (|assigning| > 0) == (exists x :: x in row.roles && Lower(x) !in current) by {
      if |assigning| > 0 {
        assert assigning[0] in assigning;
      }
      if exists x :: x in row.roles && Lower(x) !in current {
        var x :| x in row.roles && Lower(x) !in current;
        assert x in assigning;
      }
    }
    assert (|removing| > 0) == (Removable(current, row) != {}) by {
      if |removing| > 0 {
        assert removing[0] in ToSet(removing);
      }
      if Removable(current, row) != {} {
        var x :| x in Removable(current, row);
        assert x in ToSet(removing);
      }
    }
  }

  // ---------------------------------------------------------------------------
  // CreateUsersInFile, all rows

  /** The row loop: every row in order, each against the directory as the
      rows before it left it, but against the two listings taken before the
      loop. */
  function CreateAll(w: World, existingUsers: set<string>, standardRoles: set<string>, loginPassword: string,
                     rows: seq<UserRow>, removals: seq<seq<string>>): World
    requires |removals| == |rows|
    decreases |rows|
  {
    if rows == [] then w
    else
      var w1 := CreateRow(w, existingUsers, standardRoles, loginPassword, rows[0], removals[0]);
      CreateAll(w1, existingUsers, standardRoles, loginPassword, rows[1..], removals[1..])
  }

  /** Every row's removal walk is valid against the directory as the rows
      before it left it. */
  ghost predicate ValidRemovals(w: World, existingUsers: set<string>, standardRoles: set<string>,
                                loginPassword: string, rows: seq<UserRow>, removals: seq<seq<string>>) {
    && |removals| == |rows|
    && forall k :: 0 <= k < |rows| ==>
         ValidRemoval(CreateAll(w, existingUsers, standardRoles, loginPassword, rows[..k], removals[..k]),
                      rows[k], removals[k])
  }

  /** CreateUsersInFile: the user listing and the standard-role listing,
      either failure wrapped and returned before any row; then every row,
      and success whatever happened to the rows. */
  function CreateUsers(w: World, loginPassword: string, rows: seq<UserRow>, removals: seq<seq<string>>): Batch.Outcome<()>
    requires |removals| == |rows|
  {
    var lu := Serve(w, ListUsers);
    if lu.reply.Refused? then Batch.Outcome(Err(Wrapped("failed to get the list of users", CallFailed(ListUsers))), lu.world)
    else
      var lr := Serve(lu.world, ListRoles);
      if lr.reply.Refused? then Batch.Outcome(Err(Wrapped("failed to get the list of roles", CallFailed(ListRoles))), lr.world)
      else Batch.Outcome(Ok(()), CreateAll(lr.world, LowerSet(lu.reply.names), LowerSet(lr.reply.names), loginPassword, rows, removals))
  }

  /** CreateUsersInFile fails exactly when one of the two listings is
      refused, and then no row is looked at; failures of the row calls never
      make it fail. */
  lemma CreateUsersFailsOnlyOnListings(w: World, loginPassword: string, rows: seq<UserRow>, removals: seq<seq<string>>)
    requires |removals| == |rows|
    ensures var out := CreateUsers(w, loginPassword, rows, removals);
      && (out.result.Err? <==> ListUsers in w.failing || ListRoles in w.failing)
      && (out.result.Err? ==> out.world.state == w.state && |out.world.trace| <= |w.trace| + 2)
  {
  }

  /** The existing-user set is the one listing taken before the loop: a
      user that an earlier row of the same run created counts as new again,
      so a later row naming it (in any case) creates it again. */
  lemma ListingIsTakenOnce(w: World, existingUsers: set<string>, standardRoles: set<string>,
                           loginPassword: string, first: UserRow, second: UserRow, removals: seq<seq<string>>)
    requires Lower(first.name) == Lower(second.name) && Lower(first.name) !in existingUsers
    requires |removals| == 2
    requires ListRolesForUser(first.name) !in w.failing && ListRolesForUser(second.name) !in w.failing
    ensures var w1 := CreateRow(w, existingUsers, standardRoles, loginPassword, first, removals[0]);
      && CreateAll(w, existingUsers, standardRoles, loginPassword, [first, second], removals)
         == CreateRow(w1, existingUsers, standardRoles, loginPassword, second, removals[1])
      && CreateUser(first.name, if first.password == "" then loginPassword else first.password)
         in RowTrace(w, existingUsers, standardRoles, loginPassword, first, removals[0])
      && CreateUser(second.name, if second.password == "" then loginPassword else second.password)
         in RowTrace(w1, existingUsers, standardRoles, loginPassword, second, removals[1])
  {
    var w1 := CreateRow(w, existingUsers, standardRoles, loginPassword, first, removals[0]);
    CreateRowTrace(w, existingUsers, standardRoles, loginPassword, first, removals[0]);
    NewUserIsCreated(w, existingUsers, standardRoles, loginPassword, first, removals[0]);
    NewUserIsCreated(w1, existingUsers, standardRoles, loginPassword, second, removals[1]);
    var w2 := CreateRow(w1, existingUsers, standardRoles, loginPassword, second, removals[1]);
    assert [first, second][1..] == [second] && [second][1..] == [];
    assert removals[1..][0] == removals[1] && removals[1..][1..] == [];
    assert CreateAll(w2, existingUsers, standardRoles, loginPassword, [], []) == w2;
    assert CreateAll(w1, existingUsers, standardRoles, loginPassword, [second], removals[1..]) == w2;
  }

  /** The password step of a row: update an existing user's password, or
      create a new user. */
  method SendPassword(d: Directory, existingUsers: set<string>, loginPassword: string, row: UserRow)
    modifies d
    ensures d.Snapshot() == SendAll(old(d.Snapshot()), PasswordCalls(existingUsers, loginPassword, row))
  {
    ghost var w := d.Snapshot();
    if Lower(row.name) in existingUsers {
      if |loginPassword| > 0 {
        var _ := d.Receive(UpdatePassword(row.name, row.password));
        assert d.Snapshot() == SendAll(w, [UpdatePassword(row.name, row.password)]);
      }
    } else {
      var p := row.password;
      if |p| == 0 {
        p := loginPassword;
      }
      var _ := d.Receive(CreateUser(row.name, p));
      assert d.Snapshot() == SendAll(w, [CreateUser(row.name, p)]);
    }
  }

  /** One step of the role loop: create the role unless its exact spelling
      is a standard role. */
  method CreateRoleUnlessStandard(d: Directory, role: string, standardRoles: set<string>)
    modifies d
    ensures d.Snapshot() == CreateRoles(old(d.Snapshot()), [role], standardRoles)
  {
    ghost var w := d.Snapshot();
    if role !in standardRoles {
      var _ := d.Receive(CreateRole(role));
    }
    assert [role][1..] == [];
  }

  /** One more role of the role loop: its creation follows the earlier
      ones, and it joins the assign list when the user lacks it. */
  lemma RoleLoopStep(w: World, roles: seq<string>, i: nat, standardRoles: set<string>, currentRoles: set<string>)
    requires i < |roles|
    ensures CreateRoles(w, roles[..i + 1], standardRoles)
            == CreateRoles(CreateRoles(w, roles[..i], standardRoles), [roles[i]], standardRoles)
    ensures Assigning(roles[..i + 1], currentRoles)
            == Assigning(roles[..i], currentRoles) + (if Lower(roles[i]) in currentRoles then [] else [roles[i]])
  {
    var role := roles[i];
    assert roles[..i] + [role] == roles[..i + 1];
    CreateRolesAppend(w, roles[..i], [role], standardRoles);
    AssigningAppend(roles[..i], [role], currentRoles);
    assert [role][1..] == [];
    assert Assigning([role], currentRoles) == if Lower(role) in currentRoles then [] else [role];
  }

  /** The role loop of a row: create every row role missing from the
      standard roles, and collect the assign list. */
  method CreateRowRoles(d: Directory, row: UserRow, standardRoles: set<string>, currentRoles: set<string>)
    returns (assigningRoles: seq<string>)
    modifies d
    ensures d.Snapshot() == CreateRoles(old(d.Snapshot()), row.roles, standardRoles)
    ensures assigningRoles == Assigning(row.roles, currentRoles)
  {
    ghost var w := d.Snapshot();
    assigningRoles := [];
    var i := 0;
    assert row.roles[..i] == [];
    while i < |row.roles|
      invariant 0 <= i <= |row.roles|
      invariant d.Snapshot() == CreateRoles(w, row.roles[..i], standardRoles)
      invariant assigningRoles == Assigning(row.roles[..i], currentRoles)
    {
      var role := row.roles[i];
      RoleLoopStep(w, row.roles, i, standardRoles, currentRoles);
      CreateRoleUnlessStandard(d, role, standardRoles);
      if Lower(role) !in currentRoles {
        assigningRoles := assigningRoles + [role];
      }
      i := i + 1;
    }
    assert row.roles[..i] == row.roles;
  }

  lemma RemovableAdd(walked: set<string>, row: UserRow, role: string)
    ensures Removable(walked + {role}, row) == Removable(walked, row) + (if Unlisted(row, role) then {role} else {})
  {
  }

  /** The removal walk of a row: every current role the row does not list
      and that is not authenticated, each once, in the set's order. */
  method CollectRemovable(currentRoles: set<string>, row: UserRow) returns (removingRoles: seq<string>)
    ensures Enumerates(removingRoles, Removable(currentRoles, row))
  {
    removingRoles := [];
    var unwalked := currentRoles;
    while unwalked != {}
      invariant unwalked <= currentRoles
      invariant Distinct(removingRoles)
      invariant ToSet(removingRoles) == Removable(currentRoles - unwalked, row)
      decreases unwalked
    {
      var role :| role in unwalked;
      RemovableAdd(currentRoles - unwalked, row, role);
      assert currentRoles - (unwalked - {role}) == (currentRoles - unwalked) + {role};
      if Unlisted(row, role) {
        assert role !in ToSet(removingRoles);
        assert ToSet(removingRoles + [role]) == ToSet(removingRoles) + {role};
        removingRoles := removingRoles + [role];
      }
      unwalked := unwalked - {role};
    }
    assert currentRoles - unwalked == currentRoles;
  }

  /** One row of CreateUsersInFile against the directory. */
  method CreateUserOfRow(d: Directory, existingUsers: set<string>, standardRoles: set<string>,
                         loginPassword: string, row: UserRow) returns (ghost removing: seq<string>)
    modifies d
    ensures ValidRemoval(old(d.Snapshot()), row, removing)
    ensures d.Snapshot() == CreateRow(old(d.Snapshot()), existingUsers, standardRoles, loginPassword, row, removing)
  {
    var listed := d.Receive(ListRolesForUser(row.name));
    if listed.Refused? {
      return [];
    }
    var currentRoles, _ := StringArrayToSetIgnoreCase(listed.names, None);
    SendPassword(d, existingUsers, loginPassword, row);
    var assigningRoles := CreateRowRoles(d, row, standardRoles, currentRoles);
    if |assigningRoles| > 0 {
      var _ := d.Receive(AssignRolesToUser(row.name, assigningRoles));
    }
    var removingRoles := CollectRemovable(currentRoles, row);
    if |removingRoles| > 0 {
      var _ := d.Receive(RemoveRolesFromUser(row.name, removingRoles));
    }
    removing := removingRoles;
  }

  lemma {:induction false} CreateAllSnoc(w: World, existingUsers: set<string>, standardRoles: set<string>,
                                         loginPassword: string, rows: seq<UserRow>, removals: seq<seq<string>>,
                                         row: UserRow, removing: seq<string>)
    requires |removals| == |rows|
    ensures CreateAll(w, existingUsers, standardRoles, loginPassword, rows + [row], removals + [removing])
         == CreateRow(CreateAll(w, existingUsers, standardRoles, loginPassword, rows, removals),
                      existingUsers, standardRoles, loginPassword, row, removing)
    decreases |rows|
  {
    if rows != [] {
      var w1 := CreateRow(w, existingUsers, standardRoles, loginPassword, rows[0], removals[0]);
      assert (rows + [row])[0] == rows[0] && (rows + [row])[1..] == rows[1..] + [row];
      assert (removals + [removing])[0] == removals[0] && (removals + [removing])[1..] == removals[1..] + [removing];
      CreateAllSnoc(w1, existingUsers, standardRoles, loginPassword, rows[1..], removals[1..], row, removing);
    } else {
      assert rows + [row] == [row] && removals + [removing] == [removing];
      assert [row][1..] == [] && [removing][1..] == [];
    }
  }

  lemma ValidRemovalsSnoc(w: World, existingUsers: set<string>, standardRoles: set<string>,
                          loginPassword: string, rows: seq<UserRow>, removals: seq<seq<string>>,
                          row: UserRow, removing: seq<string>)
    requires ValidRemovals(w, existingUsers, standardRoles, loginPassword, rows, removals)
    requires ValidRemoval(CreateAll(w, existingUsers, standardRoles, loginPassword, rows, removals), row, removing)
    ensures ValidRemovals(w, existingUsers, standardRoles, loginPassword, rows + [row], removals + [removing])
  {
    var rows', removals' := rows + [row], removals + [removing];
    forall k | 0 <= k < |rows'|
      ensures ValidRemoval(CreateAll(w, existingUsers, standardRoles, loginPassword, rows'[..k], removals'[..k]),
                           rows'[k], removals'[k])
    {
      if k < |rows| {
        assert rows'[..k] == rows[..k] && removals'[..k] == removals[..k];
        assert rows'[k] == rows[k] && removals'[k] == removals[k];
      } else {
        assert rows'[..k] == rows && removals'[..k] == removals;
      }
    }
  }

  /** The walks of a whole run are valid for the rows it reached. */
  ghost predicate ValidRunRemovals(w: World, loginPassword: string, rows: seq<UserRow>, removals: seq<seq<string>>) {
    var lu := Serve(w, ListUsers);
    var lr := Serve(lu.world, ListRoles);
    && |removals| == |rows|
    && (lu.reply.Served? && lr.reply.Served? ==>
          ValidRemovals(lr.world, LowerSet(lu.reply.names), LowerSet(lr.reply.names), loginPassword, rows, removals))
  }

  /** One iteration of the row loop: the next row, after the rows done. */
  method CreateNextRow(d: Directory, existingUsers: set<string>, standardRoles: set<string>, loginPassword: string,
                       ghost w0: World, ghost done: seq<UserRow>, ghost removals: seq<seq<string>>, row: UserRow)
    returns (ghost removing: seq<string>)
    requires |removals| == |done|
    requires d.Snapshot() == CreateAll(w0, existingUsers, standardRoles, loginPassword, done, removals)
    requires ValidRemovals(w0, existingUsers, standardRoles, loginPassword, done, removals)
    modifies d
    ensures d.Snapshot() == CreateAll(w0, existingUsers, standardRoles, loginPassword, done + [row], removals + [removing])
    ensures ValidRemovals(w0, existingUsers, standardRoles, loginPassword, done + [row], removals + [removing])
  {
    removing := CreateUserOfRow(d, existingUsers, standardRoles, loginPassword, row);
    CreateAllSnoc(w0, existingUsers, standardRoles, loginPassword, done, removals, row, removing);
    ValidRemovalsSnoc(w0, existingUsers, standardRoles, loginPassword, done, removals, row, removing);
  }

  lemma MoveHead<T>(done: seq<T>, pending: seq<T>)
    requires pending != []
    ensures done + [pending[0]] + pending[1..] == done + pending
  {
    assert [pending[0]] + pending[1..] == pending;
  }

  /** One turn of the row loop: read the next row, if any, and create it. */
  method CreateFromTable(d: Directory, userTable: UserTable, existingUsers: set<string>, standardRoles: set<string>,
                         loginPassword: string, ghost w0: World, ghost done: seq<UserRow>,
                         ghost removals: seq<seq<string>>)
    returns (finished: bool, ghost removing: seq<string>)
    requires userTable.Valid() && |removals| == |done|
    requires d.Snapshot() == CreateAll(w0, existingUsers, standardRoles, loginPassword, done, removals)
    requires ValidRemovals(w0, existingUsers, standardRoles, loginPassword, done, removals)
    modifies d, userTable
    ensures userTable.Valid()
    ensures finished <==> old(userTable.Unread()) == []
    ensures finished ==> d.Snapshot() == old(d.Snapshot())
    ensures !finished ==>
      && userTable.Unread() == old(userTable.Unread())[1..]
      && d.Snapshot() == CreateAll(w0, existingUsers, standardRoles, loginPassword,
                                   done + [old(userTable.Unread())[0]], removals + [removing])
      && ValidRemovals(w0, existingUsers, standardRoles, loginPassword,
                       done + [old(userTable.Unread())[0]], removals + [removing])
  {
    var userRow := userTable.Read();
    if userRow.None? {
      return true, [];
    }
    removing := CreateNextRow(d, existingUsers, standardRoles, loginPassword, w0, done, removals, userRow.value);
    finished := false;
  }

  /** The row loop of CreateUsersInFile: every row the table has left, in
      order. The removal walks of the rows are returned as removals. */
  method CreateRows(d: Directory, userTable: UserTable, existingUsers: set<string>, standardRoles: set<string>,
                    loginPassword: string) returns (ghost removals: seq<seq<string>>)
    requires userTable.Valid()
    modifies d, userTable
    ensures |removals| == |old(userTable.Unread())|
    ensures ValidRemovals(old(d.Snapshot()), existingUsers, standardRoles, loginPassword, old(userTable.Unread()), removals)
    ensures d.Snapshot() == CreateAll(old(d.Snapshot()), existingUsers, standardRoles, loginPassword,
                                      old(userTable.Unread()), removals)
  {
    removals := [];
    ghost var w0 := d.Snapshot();
    ghost var rows := userTable.Unread();
    ghost var pending := rows;
    ghost var done: seq<UserRow> := [];
    while true
      invariant userTable.Valid() && pending == userTable.Unread()
      invariant done + pending == rows && |removals| == |done|
      invariant d.Snapshot() == CreateAll(w0, existingUsers, standardRoles, loginPassword, done, removals)
      invariant ValidRemovals(w0, existingUsers, standardRoles, loginPassword, done, removals)
      decreases |pending|
    {
      var finished, removing := CreateFromTable(d, userTable, existingUsers, standardRoles, loginPassword,
                                                w0, done, removals);
      if finished {
        break;
      }
      MoveHead(done, pending);
      done := done + [pending[0]];
      removals := removals + [removing];
      pending := pending[1..];
    }
    assert done == rows;
  }

  /** CreateUsersInFile over a user file. */
  method CreateUsersInFile(d: Directory, loginPassword: string, raws: seq<RawRow>)
    returns (r: Result<()>, ghost removals: seq<seq<string>>)
    modifies d
    ensures ValidRunRemovals(old(d.Snapshot()), loginPassword, ReadAll(raws), removals)
    ensures Batch.Outcome(r, d.Snapshot()) == CreateUsers(old(d.Snapshot()), loginPassword, ReadAll(raws), removals)
  {
    removals := seq(|ReadAll(raws)|, _ => []);
    var users := d.Receive(ListUsers);
    if users.Refused? {
      return Err(Wrapped("failed to get the list of users", CallFailed(ListUsers))), removals;
    }
    var allUsersSet, _ := StringArrayToSetIgnoreCase(users.names, None);
    var roles := d.Receive(ListRoles);
    if roles.Refused? {
      return Err(Wrapped("failed to get the list of roles", CallFailed(ListRoles))), removals;
    }
    var allRolesSet, _ := StringArrayToSetIgnoreCase(roles.names, None);
    var userTable := UserTable.NewUserTable(raws);
    removals := CreateRows(d, userTable, allUsersSet, allRolesSet, loginPassword);
    r := Ok(());
  }

  // ---------------------------------------------------------------------------
  // DeleteUsersInFile, DeleteUsers

  /** The user names of the rows, in order. */
  function Names(rows: seq<UserRow>): (names: seq<string>)
    ensures |names| == |rows|
    ensures forall i :: 0 <= i < |rows| ==> names[i] == rows[i].name
  {
    if rows == [] then [] else [rows[0].name] + Names(rows[1..])
  }

  /** The names DeleteUsersInFile deletes are exactly the trimmed non-blank
      name cells of the file, and none is empty. */
  lemma FileNames(raws: seq<RawRow>, name: string)
    ensures name in Names(ReadAll(raws)) <==>
      name != "" && exists j :: 0 <= j < |raws| && TrimSpace(raws[j].name) == name
  {
    var rows := ReadAll(raws);
    if name in Names(rows) {
      var i :| 0 <= i < |rows| && Names(rows)[i] == name;
      ReadAllNormalized(raws, rows[i]);
    }
    if name != "" && exists j :: 0 <= j < |raws| && TrimSpace(raws[j].name) == name {
      var j :| 0 <= j < |raws| && TrimSpace(raws[j].name) == name;
      var r := Normalize(raws[j]).value;
      ReadAllNormalized(raws, r);
      var i :| 0 <= i < |rows| && rows[i] == r;
      assert Names(rows)[i] == name;
    }
  }

  /** The read loop of DeleteUsersInFile: the names of the rows the table
      has left. */
  method ReadNames(userTable: UserTable) returns (users: seq<string>)
    requires userTable.Valid()
    modifies userTable
    ensures users == Names(old(userTable.Unread()))
  {
    users := [];
    ghost var rows := userTable.Unread();
    ghost var pending := rows;
    ghost var done: seq<UserRow> := [];
    while true
      invariant userTable.Valid() && pending == userTable.Unread()
      invariant done + pending == rows && users == Names(done)
      decreases |pending|
    {
      var userRow := userTable.Read();
      if userRow.None? {
        break;
      }
      MoveHead(done, pending);
      NamesSnoc(done, userRow.value);
      users := users + [userRow.value.name];
      done := done + [userRow.value];
      pending := pending[1..];
    }
    assert done == rows;
  }

  lemma {:induction false} NamesSnoc(rows: seq<UserRow>, row: UserRow)
    ensures Names(rows + [row]) == Names(rows) + [row.name]
    decreases |rows|
  {
    if rows != [] {
      assert (rows + [row])[1..] == rows[1..] + [row];
      NamesSnoc(rows[1..], row);
    } else {
      assert rows + [row] == [row] && [row][1..] == [];
    }
  }

  /** DeleteUsersInFile: the names of every row of the file, deleted as in
      DeleteUsers. */
  method DeleteUsersInFile(d: Directory, raws: seq<RawRow>, deleteHomeDirectory: bool) returns (r: Result<()>)
    modifies d
    ensures Batch.Outcome(r, d.Snapshot())
         == Batch.Deletion(Remote(d), old(d.Snapshot()), Names(ReadAll(raws)), deleteHomeDirectory)
  {
    var userTable := UserTable.NewUserTable(raws);
    var users := ReadNames(userTable);
    r := DeleteUsers(d, users, deleteHomeDirectory);
  }

  /** DeleteUsers of the older commands: the same calls and results as the
      batch DeleteUsers against the directory itself. */
  method DeleteUsers(d: Directory, users: seq<string>, deleteHomeDirectory: bool) returns (r: Result<()>)
    modifies d
    ensures Batch.Outcome(r, d.Snapshot()) == Batch.Deletion(Remote(d), old(d.Snapshot()), users, deleteHomeDirectory)
  {
    r := Batch.DeleteUsers(Remote(d), users, deleteHomeDirectory);
  }
}
