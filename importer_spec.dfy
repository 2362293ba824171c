/** src/pentahotools/batch/importer.go as state-passing functions: each
    function takes the importer's caches and the directory world as they are
    before a step and gives the step's result together with the caches and
    the world after it. The Importer class runs the same steps in place and
    is proved to agree with these functions; the ImporterLaws module proves
    what the engine promises about them. */
module ImporterSpec {
  import opened Strings
  import opened Directory
  import opened Errors
  import opened BatchClient

  /** The importer's public switches. */
  datatype Options = Options(strictCaseSensitive: bool, createRoles: bool, updatePassword: bool)

  /** The importer's caches. A None cache is the nil map before the first
      listing; appeared maps the lower-cased name of every imported row to
      the row's own spelling. */
  datatype Caches = Caches(
    userNames: Option<map<string, string>>,
    roleNames: Option<map<string, string>>,
    appeared: map<string, string>)

  /** A step's result, and the caches and world after it. */
  datatype Run<T> = Run(result: Result<T>, caches: Caches, world: World)

  /** NewImporter: strict case matching, no role creation, no password update. */
  function DefaultOptions(): Options {
    Options(true, false, false)
  }

  /** The caches of a new importer. */
  function FreshCaches(): Caches {
    Caches(None, None, map[])
  }

  /** The role index, or the empty index before the roles were listed. */
  function RoleIndex(k: Caches): map<string, string> {
    if k.roleNames.Some? then k.roleNames.value else map[]
  }

  /** getAllUserNames: the cached index, or one ListUsers call that fills it. */
  function AllUserNames(c: Client, k: Caches, w: World): Run<map<string, string>> {
    match k.userNames
    case Some(m) => Run(Ok(m), k, w)
    case None =>
      var x := Transmit(c, w, ListUsers);
      if x.reply.Refused? then Run(Err(CallFailed(ListUsers)), k, x.world)
      else
        var m := LowerIndex(x.reply.names);
        Run(Ok(m), k.(userNames := Some(m)), x.world)
  }

  /** getAllRoleNames: the cached index, or one ListAllRoles call that fills it. */
  function AllRoleNames(c: Client, k: Caches, w: World): Run<map<string, string>> {
    match k.roleNames
    case Some(m) => Run(Ok(m), k, w)
    case None =>
      var x := Transmit(c, w, ListAllRoles);
      if x.reply.Refused? then Run(Err(CallFailed(ListAllRoles)), k, x.world)
      else
        var m := LowerIndex(x.reply.names);
        Run(Ok(m), k.(roleNames := Some(m)), x.world)
  }

  /** getFixedUserNameOrCreate: the stored spelling of user, creating the
      user when no stored name lower-cases like it. */
  function ResolveUser(o: Options, c: Client, k: Caches, w: World, user: string, password: string): Run<string> {
    var l := AllUserNames(c, k, w);
    if l.result.Err? then Run(Err(l.result.error), l.caches, l.world)
    else
      var m := l.result.value;
      var key := Lower(user);
      var fixed := GoGet(m, key);
      if user == fixed then Run(Ok(fixed), l.caches, l.world)
      else if fixed == "" then
        var x := Transmit(c, l.world, CreateUser(user, password));
        if x.reply.Refused? then Run(Err(CallFailed(CreateUser(user, password))), l.caches, x.world)
        else Run(Ok(user), l.caches.(userNames := Some(m[key := user])), x.world)
      else if o.strictCaseSensitive then Run(Err(UserCaseMismatch(user, fixed)), l.caches, l.world)
      else Run(Ok(fixed), l.caches, l.world)
  }

  /** getFixedRoleNameOrCreate: the stored spelling of role, creating the role
      only when CreateRoles is set. */
  function ResolveRole(o: Options, c: Client, k: Caches, w: World, role: string): Run<string> {
    var l := AllRoleNames(c, k, w);
    if l.result.Err? then Run(Err(l.result.error), l.caches, l.world)
    else
      var m := l.result.value;
      var key := Lower(role);
      var fixed := GoGet(m, key);
      if role == fixed then Run(Ok(fixed), l.caches, l.world)
      else if fixed == "" then
        if !o.createRoles then Run(Err(NoSuchRole(role)), l.caches, l.world)
        else
          var x := Transmit(c, l.world, CreateRole(role));
          if x.reply.Refused? then Run(Err(CallFailed(CreateRole(role))), l.caches, x.world)
          else Run(Ok(role), l.caches.(roleNames := Some(m[key := role])), x.world)
      else if o.strictCaseSensitive then Run(Err(RoleCaseMismatch(role, fixed)), l.caches, l.world)
      else Run(Ok(fixed), l.caches, l.world)
  }

  /** The assignLoop of Import over the roles still to visit: empty names are
      skipped, each other name is resolved, and its stored spelling is added
      unless the user already holds exactly that role. */
  function AssignLoop(o: Options, c: Client, k: Caches, w: World, roles: seq<string>,
                      current: seq<string>, acc: seq<string>): Run<seq<string>>
    decreases |roles|
  {
    if roles == [] then Run(Ok(acc), k, w)
    else if roles[0] == "" then AssignLoop(o, c, k, w, roles[1..], current, acc)
    else
      var r := ResolveRole(o, c, k, w, roles[0]);
      if r.result.Err? then Run(Err(r.result.error), r.caches, r.world)
      else
        var fixed := r.result.value;
        AssignLoop(o, c, r.caches, r.world, roles[1..], current,
                   if fixed in current then acc else acc + [fixed])
  }

  /** The inner loop of removeLoop: whether some desired role (empty names
      included) resolves to exactly role. */
  function MatchesAny(o: Options, c: Client, k: Caches, w: World, desired: seq<string>, role: string): Run<bool>
    decreases |desired|
  {
    if desired == [] then Run(Ok(false), k, w)
    else
      var r := ResolveRole(o, c, k, w, desired[0]);
      if r.result.Err? then Run(Err(r.result.error), r.caches, r.world)
      else if r.result.value == role then Run(Ok(true), r.caches, r.world)
      else MatchesAny(o, c, r.caches, r.world, desired[1..], role)
  }

  /** The removeLoop of Import over the current roles still to visit:
      "Authenticated" is kept, a role some desired role resolves to is kept,
      removing "Administrator" from "admin" is an error, any other role is
      collected for removal. */
  function RemoveLoop(o: Options, c: Client, k: Caches, w: World, fixedUser: string,
                      desired: seq<string>, current: seq<string>, acc: seq<string>): Run<seq<string>>
    decreases |current|
  {
    if current == [] then Run(Ok(acc), k, w)
    else
      var role := current[0];
      if role == "Authenticated" then RemoveLoop(o, c, k, w, fixedUser, desired, current[1..], acc)
      else
        var m := MatchesAny(o, c, k, w, desired, role);
        if m.result.Err? then Run(Err(m.result.error), m.caches, m.world)
        else if m.result.value then RemoveLoop(o, c, m.caches, m.world, fixedUser, desired, current[1..], acc)
        else if fixedUser == "admin" && role == "Administrator" then Run(Err(AdministratorProtected), m.caches, m.world)
        else RemoveLoop(o, c, m.caches, m.world, fixedUser, desired, current[1..], acc + [role])
  }

  /** Sends call only when its list argument is non-empty. */
  function SendIfAny(c: Client, w: World, call: Call, nonEmpty: bool): Exchange {
    if nonEmpty then Transmit(c, w, call) else Exchange(Served([]), w)
  }

  /** The remove half of Import, once the roles to assign have been sent. */
  function RemovePhase(o: Options, c: Client, k: Caches, w: World, fixedUser: string,
                       roles: seq<string>, current: seq<string>): Run<()> {
    var r := RemoveLoop(o, c, k, w, fixedUser, roles, current, []);
    if r.result.Err? then Run(Err(r.result.error), r.caches, r.world)
    else
      var removing := r.result.value;
      var y := SendIfAny(c, r.world, RemoveRolesFromUser(fixedUser, removing), |removing| > 0);
      if y.reply.Refused? then Run(Err(CallFailed(RemoveRolesFromUser(fixedUser, removing))), r.caches, y.world)
      else Run(Ok(()), r.caches, y.world)
  }

  /** The role half of Import, once the current roles are known. */
  function Reconcile(o: Options, c: Client, k: Caches, w: World, fixedUser: string,
                     roles: seq<string>, current: seq<string>): Run<()> {
    var a := AssignLoop(o, c, k, w, roles, current, []);
    if a.result.Err? then Run(Err(a.result.error), a.caches, a.world)
    else
      var assigning := a.result.value;
      var x := SendIfAny(c, a.world, AssignRolesToUser(fixedUser, assigning), |assigning| > 0);
      if x.reply.Refused? then Run(Err(CallFailed(AssignRolesToUser(fixedUser, assigning))), a.caches, x.world)
      else RemovePhase(o, c, a.caches, x.world, fixedUser, roles, current)
  }

  /** Import after the user was resolved: the optional password update (with
      the row's spelling of the user), then the current roles of the
      resolved user, then the reconciliation. */
  function ImportResolved(o: Options, c: Client, k: Caches, w: World, user: string, fixedUser: string,
                          password: string, roles: seq<string>): Run<()> {
    var p := SendIfAny(c, w, UpdatePassword(user, password), o.updatePassword);
    if p.reply.Refused? then Run(Err(CallFailed(UpdatePassword(user, password))), k, p.world)
    else
      var l := Transmit(c, p.world, ListRolesForUser(fixedUser));
      if l.reply.Refused? then Run(Err(CallFailed(ListRolesForUser(fixedUser))), k, l.world)
      else Reconcile(o, c, k, l.world, fixedUser, roles, l.reply.names)
  }

  /** BatchUserRoleImporter.Import of one row. */
  function Import(o: Options, c: Client, k: Caches, w: World, user: string, password: string,
                  roles: seq<string>): Run<()> {
    var k1 := k.(appeared := k.appeared[Lower(user) := user]);
    var u := ResolveUser(o, c, k1, w, user, password);
    if u.result.Err? then Run(Err(u.result.error), u.caches, u.world)
    else ImportResolved(o, c, u.caches, u.world, user, u.result.value, password, roles)
  }

  /** The stored spellings DeleteRemainingUsers deletes: those whose key was
      not recorded by any row (a Go map read of a missing key gives ""),
      except the key "admin". */
  function Remaining(m: map<string, string>, appeared: map<string, string>): set<string> {
    set k | k in m && GoGet(appeared, k) == "" && k != "admin" :: m[k]
  }

  /** The home directory of a user. */
  function HomeOf(user: string): string {
    "/home/" + user
  }

  /** A home-directory loop's failure count and the world after it. */
  datatype Tally = Tally(failures: nat, world: World)

  /** The home-directory loop: one DeleteFiles per user, in order, counting
      the failures and never stopping early. */
  function DeleteHomes(c: Client, w: World, users: seq<string>, failures: nat): Tally
    decreases |users|
  {
    if users == [] then Tally(failures, w)
    else
      var x := Transmit(c, w, DeleteFiles([HomeOf(users[0])]));
      DeleteHomes(c, x.world, users[1..], if x.reply.Refused? then failures + 1 else failures)
  }

  /** DeleteRemainingUsers, given the order in which the map walk listed the
      users to delete (Go leaves that order unspecified). */
  function Sweep(c: Client, k: Caches, w: World, deleteHomeDirectory: bool, deleting: seq<string>): Run<()> {
    var l := AllUserNames(c, k, w);
    if l.result.Err? then Run(Err(Wrapped("failed to list all user names.", l.result.error)), l.caches, l.world)
    else if |deleting| == 0 then Run(Ok(()), l.caches, l.world)
    else
      var x := Transmit(c, l.world, DeleteUsers(deleting));
      if x.reply.Refused? then Run(Err(CallFailed(DeleteUsers(deleting))), l.caches, x.world)
      else if !deleteHomeDirectory then Run(Ok(()), l.caches, x.world)
      else
        var t := DeleteHomes(c, x.world, deleting, 0);
        Run(if t.failures > 0 then Err(HomeDirectoryFailures) else Ok(()), l.caches, t.world)
  }

  /** The order a sweep deletes in is a valid walk of the users to delete. */
  ghost predicate ValidSweepOrder(c: Client, k: Caches, w: World, deleting: seq<string>) {
    var l := AllUserNames(c, k, w);
    l.result.Ok? ==> Enumerates(deleting, Remaining(l.result.value, k.appeared))
  }
}
