/** What the reconciliation engine of importer.go promises, proved about the
    state-passing functions of ImporterSpec. */
module ImporterLaws {
  import opened Strings
  import opened Directory
  import opened Errors
  import opened BatchClient
  import opened ImporterSpec

  // ---------------------------------------------------------------------------
  // Cache invariants

  /** Both indexes, once listed, map each key to a spelling that lower-cases
      to that key. */
  ghost predicate CachesWF(k: Caches) {
    && (k.userNames.Some? ==> IndexWF(k.userNames.value))
    && (k.roleNames.Some? ==> IndexWF(k.roleNames.value))
  }

  /** An index only gains keys; a key never changes its spelling. */
  ghost predicate IndexGrows(a: Option<map<string, string>>, b: Option<map<string, string>>) {
    a.Some? ==> b.Some? && forall key :: key in a.value ==> key in b.value && b.value[key] == a.value[key]
  }

  /** k2 is k1 after some resolutions: both indexes grow, the appeared map
      is untouched. */
  ghost predicate Grows(k1: Caches, k2: Caches) {
    && IndexGrows(k1.userNames, k2.userNames)
    && IndexGrows(k1.roleNames, k2.roleNames)
    && k2.appeared == k1.appeared
  }

  /** What every step of the engine guarantees about the caches and the
      world it leaves behind, starting from well-formed caches. */
  ghost predicate Sound(c: Client, k1: Caches, w1: World, k2: Caches, w2: World) {
    && CachesWF(k2)
    && Grows(k1, k2)
    && Follows(w1, w2)
    && (c.ForValidation? ==> ReadOnlyStep(w1, w2))
  }

  lemma SoundTrans(c: Client, k1: Caches, w1: World, k2: Caches, w2: World, k3: Caches, w3: World)
    requires Sound(c, k1, w1, k2, w2) && Sound(c, k2, w2, k3, w3)
    ensures Sound(c, k1, w1, k3, w3)
    ensures Since(w1, w3) == Since(w1, w2) + Since(w2, w3)
  {
    FollowsTrans(w1, w2, w3);
    if c.ForValidation? {
      ReadOnlyStepTrans(w1, w2, w3);
    }
  }

  lemma TransmitSound(c: Client, k: Caches, w: World, call: Call)
    requires CachesWF(k)
    ensures Sound(c, k, w, k, Transmit(c, w, call).world)
    ensures Since(w, Transmit(c, w, call).world) == if c.Forwards(call) then [call] else []
  {
    TransmitFollows(c, w, call);
    if c.ForValidation? {
      ValidationIsReadOnly(c, w, call);
    }
  }

  /** Adding a key that was missing, with a spelling that lower-cases to it,
      keeps the index well formed and only grows it. */
  lemma InsertSound(c: Client, k: Caches, w: World, k2: Caches, key: string, name: string)
    requires CachesWF(k) && Lower(name) == key
    requires
      || (k.userNames.Some? && key !in k.userNames.value
          && k2 == k.(userNames := Some(k.userNames.value[key := name])))
      || (k.roleNames.Some? && key !in k.roleNames.value
          && k2 == k.(roleNames := Some(k.roleNames.value[key := name])))
    ensures Sound(c, k, w, k2, w)
  {
    assert w.trace[..|w.trace|] == w.trace;
    assert w.trace[|w.trace|..] == [];
  }

  /** A self-step: nothing changes. */
  lemma StaySound(c: Client, k: Caches, w: World)
    requires CachesWF(k)
    ensures Sound(c, k, w, k, w) && Since(w, w) == []
  {
    assert w.trace[..|w.trace|] == w.trace;
    assert w.trace[|w.trace|..] == [];
  }

  // ---------------------------------------------------------------------------
  // Which calls a step may make

  /** The calls that resolving role names may make: the all-roles listing, and
      role creation only when CreateRoles is set. */
  predicate RoleCall(o: Options, call: Call) {
    call.ListAllRoles? || (o.createRoles && call.CreateRole?)
  }

  predicate RoleCalls(o: Options, calls: seq<Call>) {
    forall i :: 0 <= i < |calls| ==> RoleCall(o, calls[i])
  }

  /** A run of role resolutions from w1 to w2: it makes only role calls, and
      no user's roles or password change. */
  ghost predicate RoleStep(o: Options, w1: World, w2: World) {
    && Follows(w1, w2)
    && RoleCalls(o, Since(w1, w2))
    && w2.state.memberships == w1.state.memberships
    && w2.state.passwords == w1.state.passwords
  }

  lemma RoleStepTrans(o: Options, w1: World, w2: World, w3: World)
    requires RoleStep(o, w1, w2) && RoleStep(o, w2, w3)
    ensures RoleStep(o, w1, w3)
  {
    FollowsTrans(w1, w2, w3);
  }

  lemma RoleStepStay(o: Options, w: World)
    ensures RoleStep(o, w, w)
  {
    assert w.trace[..|w.trace|] == w.trace;
    assert w.trace[|w.trace|..] == [];
  }

  /** The calls that resolving the user of the row (user, password) may make. */
  predicate UserCall(user: string, password: string, call: Call) {
    call.ListUsers? || call == CreateUser(user, password)
  }

  /** The calls one import of the row (user, password) may make under options
      o: the user's resolution, role resolutions, the password update only
      when UpdatePassword is set and only with the row's own spelling, and
      role listings, assignments and removals addressed to the row's user
      (in any case), never with an empty role list, and never removing
      Administrator from admin. No user is deleted and no file is touched. */
  predicate ImportCall(o: Options, user: string, password: string, call: Call) {
    || UserCall(user, password, call)
    || RoleCall(o, call)
    || (o.updatePassword && call == UpdatePassword(user, password))
    || (call.ListRolesForUser? && Lower(call.user) == Lower(user))
    || (call.AssignRolesToUser? && Lower(call.user) == Lower(user) && call.roles != [])
    || (call.RemoveRolesFromUser? && Lower(call.user) == Lower(user) && call.roles != []
        && !(call.user == "admin" && "Administrator" in call.roles))
  }

  predicate ImportCalls(o: Options, user: string, password: string, calls: seq<Call>) {
    forall i :: 0 <= i < |calls| ==> ImportCall(o, user, password, calls[i])
  }

  lemma ImportCallsConcat(o: Options, user: string, password: string, a: seq<Call>, b: seq<Call>)
    requires ImportCalls(o, user, password, a) && ImportCalls(o, user, password, b)
    ensures ImportCalls(o, user, password, a + b)
  {
  }

  lemma RoleCallsAreImportCalls(o: Options, user: string, password: string, calls: seq<Call>)
    requires RoleCalls(o, calls)
    ensures ImportCalls(o, user, password, calls)
  {
  }

  // ---------------------------------------------------------------------------
  // The listings and the resolutions

  lemma AllUserNamesSound(c: Client, k: Caches, w: World)
    requires CachesWF(k)
    ensures var r := AllUserNames(c, k, w);
      && Sound(c, k, w, r.caches, r.world)
      && (Since(w, r.world) == [] || Since(w, r.world) == [ListUsers])
      && w.state == r.world.state
      && r.caches.roleNames == k.roleNames
      && (r.result.Ok? ==> r.caches.userNames == Some(r.result.value))
  {
    if k.userNames.None? {
      TransmitSound(c, k, w, ListUsers);
    } else {
      StaySound(c, k, w);
    }
  }

  lemma AllRoleNamesSound(o: Options, c: Client, k: Caches, w: World)
    requires CachesWF(k)
    ensures var r := AllRoleNames(c, k, w);
      && Sound(c, k, w, r.caches, r.world)
      && RoleStep(o, w, r.world)
      && r.caches.userNames == k.userNames
      && (r.result.Ok? ==> r.caches.roleNames == Some(r.result.value))
  {
    if k.roleNames.None? {
      TransmitSound(c, k, w, ListAllRoles);
    } else {
      StaySound(c, k, w);
    }
  }

  /** In a well-formed index, a key whose stored spelling is empty is the
      empty key. */
  lemma EmptySpelling(m: map<string, string>, key: string)
    requires IndexWF(m) && key in m && m[key] == ""
    ensures key == ""
  {
  }

  /** The spelling the user index of k holds for a name ("" when missing). */
  function UserIndex(k: Caches): map<string, string> {
    if k.userNames.Some? then k.userNames.value else map[]
  }

  /** A user name that resolves without any call under k: the users have been
      listed and the name has a stored spelling, the row's own one when the
      case must match. */
  ghost predicate UserSettled(o: Options, k: Caches, user: string) {
    && k.userNames.Some?
    && (user == "" || (Lower(user) in k.userNames.value
                       && (o.strictCaseSensitive ==> k.userNames.value[Lower(user)] == user)))
  }

  /** Resolving a user name keeps the caches well formed and growing, and
      only lists users and creates this one. */
  lemma ResolveUserSound(o: Options, c: Client, k: Caches, w: World, user: string, password: string)
    requires CachesWF(k)
    ensures var r := ResolveUser(o, c, k, w, user, password);
      && Sound(c, k, w, r.caches, r.world)
      && (forall i :: 0 <= i < |Since(w, r.world)| ==> UserCall(user, password, Since(w, r.world)[i]))
      && r.caches.roleNames == k.roleNames
  {
    var l := AllUserNames(c, k, w);
    AllUserNamesSound(c, k, w);
    if l.result.Ok? {
      var m := l.result.value;
      var key := Lower(user);
      var fixed := GoGet(m, key);
      if user != fixed && fixed == "" {
        if key in m {
          EmptySpelling(m, key);
          LowerEmpty(user);
        }
        CreateUserSound(c, k, w, l.caches, l.world, user, password);
      }
    }
    ResolveUserShape(o, c, k, w, user, password);
  }

  /** ResolveUser leaves the listing's caches and world, except that a
      missing user is sent for creation and, once created, joins the index. */
  lemma ResolveUserShape(o: Options, c: Client, k: Caches, w: World, user: string, password: string)
    ensures var l := AllUserNames(c, k, w);
      var r := ResolveUser(o, c, k, w, user, password);
      if l.result.Ok? && user != GoGet(l.result.value, Lower(user)) && GoGet(l.result.value, Lower(user)) == "" then
        var x := Transmit(c, l.world, CreateUser(user, password));
        && r.world == x.world
        && r.caches == if x.reply.Refused? then l.caches
                       else l.caches.(userNames := Some(l.result.value[Lower(user) := user]))
      else r.caches == l.caches && r.world == l.world
  {
  }

  /** The creation step of ResolveUser, after a listing that made at most
      the listing call: it adds the creation call, and on success the new
      spelling joins the index. */
  lemma CreateUserSound(c: Client, k: Caches, w: World, kl: Caches, wl: World, user: string, password: string)
    requires Sound(c, k, w, kl, wl) && (Since(w, wl) == [] || Since(w, wl) == [ListUsers])
    requires kl.userNames.Some? && Lower(user) !in kl.userNames.value
    ensures var x := Transmit(c, wl, CreateUser(user, password));
      && Sound(c, k, w, kl, x.world)
      && (forall i :: 0 <= i < |Since(w, x.world)| ==> UserCall(user, password, Since(w, x.world)[i]))
      && (!x.reply.Refused? ==>
            Sound(c, k, w, kl.(userNames := Some(kl.userNames.value[Lower(user) := user])), x.world))
  {
    var x := Transmit(c, wl, CreateUser(user, password));
    TransmitSound(c, kl, wl, CreateUser(user, password));
    SoundTrans(c, k, w, kl, wl, kl, x.world);
    var before := Since(w, wl);
    var calls := Since(w, x.world);
    forall i | 0 <= i < |calls|
      ensures UserCall(user, password, calls[i])
    {
      if i < |before| {
        assert calls[i] == before[i] == ListUsers;
      } else {
        assert calls[i] == CreateUser(user, password);
      }
    }
    var k2 := kl.(userNames := Some(kl.userNames.value[Lower(user) := user]));
    InsertSound(c, kl, x.world, k2, Lower(user), user);
    SoundTrans(c, k, w, kl, x.world, k2, x.world);
  }

  /** A resolved user name is the spelling the user index holds for the
      lower-cased name afterwards: it lower-cases like the row's name, equals
      the row's name when the case must match, and resolves again without a
      call. */
  lemma ResolveUserValue(o: Options, c: Client, k: Caches, w: World, user: string, password: string)
    requires CachesWF(k)
    ensures var r := ResolveUser(o, c, k, w, user, password);
      r.result.Ok? ==>
        && r.result.value == GoGet(UserIndex(r.caches), Lower(user))
        && Lower(r.result.value) == Lower(user)
        && (o.strictCaseSensitive ==> r.result.value == user)
        && UserSettled(o, r.caches, user)
  {
    ResolveUserSound(o, c, k, w, user, password);
    AllUserNamesSound(c, k, w);
    ResolveUserShape(o, c, k, w, user, password);
    LowerEmpty(user);
  }

  /** A settled user name resolves to its stored spelling with no call. */
  lemma UserSettledIsQuiet(o: Options, c: Client, k: Caches, w: World, user: string, password: string)
    requires CachesWF(k) && UserSettled(o, k, user)
    ensures ResolveUser(o, c, k, w, user, password) == Run(Ok(GoGet(UserIndex(k), Lower(user))), k, w)
  {
    LowerEmpty(user);
  }

  lemma UserSettledGrows(o: Options, k1: Caches, k2: Caches, user: string)
    requires CachesWF(k1) && CachesWF(k2) && Grows(k1, k2) && UserSettled(o, k1, user)
    ensures UserSettled(o, k2, user)
    ensures GoGet(UserIndex(k2), Lower(user)) == GoGet(UserIndex(k1), Lower(user))
  {
    LowerEmpty(user);
    if user == "" {
      if "" in UserIndex(k1) {
        EmptySpelling(UserIndex(k1), "");
      }
    }
  }

  /** The spelling the role index of k gives a role name ("" when missing). */
  function Fixed(k: Caches, role: string): string {
    GoGet(RoleIndex(k), Lower(role))
  }

  /** A role name that resolves without any call under k: the roles have been
      listed and the name is empty or has a stored spelling, the name's own
      one when the case must match. */
  ghost predicate Settled(o: Options, k: Caches, role: string) {
    && k.roleNames.Some?
    && (role == "" || (Lower(role) in k.roleNames.value
                       && (o.strictCaseSensitive ==> k.roleNames.value[Lower(role)] == role)))
  }

  /** The empty role name is never stored under another spelling. */
  lemma FixedEmpty(k: Caches)
    requires CachesWF(k)
    ensures Fixed(k, "") == ""
  {
    LowerEmpty("");
    if k.roleNames.Some? && "" in k.roleNames.value {
      assert Lower(k.roleNames.value[""]) == "";
      LowerEmpty(k.roleNames.value[""]);
    }
  }

  /** Settled names stay settled, with the same spelling, as the caches grow. */
  lemma SettledGrows(o: Options, k1: Caches, k2: Caches, role: string)
    requires CachesWF(k1) && CachesWF(k2) && Grows(k1, k2) && Settled(o, k1, role)
    ensures Settled(o, k2, role) && Fixed(k2, role) == Fixed(k1, role)
  {
    if role == "" {
      FixedEmpty(k1);
      FixedEmpty(k2);
    }
  }

  /** A settled role name resolves to its stored spelling with no call. */
  lemma SettledIsQuiet(o: Options, c: Client, k: Caches, w: World, role: string)
    requires CachesWF(k) && Settled(o, k, role)
    ensures ResolveRole(o, c, k, w, role) == Run(Ok(Fixed(k, role)), k, w)
  {
    LowerEmpty(role);
    if role == "" {
      FixedEmpty(k);
    }
  }

  /** Resolving a role name keeps the caches well formed and growing, and
      only lists roles and, when allowed, creates this one. */
  lemma ResolveRoleSound(o: Options, c: Client, k: Caches, w: World, role: string)
    requires CachesWF(k)
    ensures var r := ResolveRole(o, c, k, w, role);
      && Sound(c, k, w, r.caches, r.world)
      && RoleStep(o, w, r.world)
      && r.caches.userNames == k.userNames
  {
    var l := AllRoleNames(c, k, w);
    AllRoleNamesSound(o, c, k, w);
    if l.result.Ok? {
      var m := l.result.value;
      var key := Lower(role);
      var fixed := GoGet(m, key);
      if role != fixed && fixed == "" && o.createRoles {
        if key in m {
          EmptySpelling(m, key);
          LowerEmpty(role);
        }
        CreateRoleSound(o, c, k, w, l.caches, l.world, role);
      }
    }
    ResolveRoleShape(o, c, k, w, role);
  }

  /** The creation step of ResolveRole, after a listing that was a role
      step: it adds the creation call, and on success the new spelling joins
      the index. */
  lemma CreateRoleSound(o: Options, c: Client, k: Caches, w: World, kl: Caches, wl: World, role: string)
    requires Sound(c, k, w, kl, wl) && RoleStep(o, w, wl) && o.createRoles
    requires kl.roleNames.Some? && Lower(role) !in kl.roleNames.value
    ensures var x := Transmit(c, wl, CreateRole(role));
      && Sound(c, k, w, kl, x.world)
      && RoleStep(o, w, x.world)
      && (!x.reply.Refused? ==>
            Sound(c, k, w, kl.(roleNames := Some(kl.roleNames.value[Lower(role) := role])), x.world))
  {
    var x := Transmit(c, wl, CreateRole(role));
    TransmitSound(c, kl, wl, CreateRole(role));
    SoundTrans(c, k, w, kl, wl, kl, x.world);
    RoleStepTrans(o, w, wl, x.world);
    var k2 := kl.(roleNames := Some(kl.roleNames.value[Lower(role) := role]));
    InsertSound(c, kl, x.world, k2, Lower(role), role);
    SoundTrans(c, k, w, kl, x.world, k2, x.world);
  }

  /** ResolveRole leaves the listing's caches and world, except that a
      missing role is sent for creation when CreateRoles is set and, once
      created, joins the index. */
  lemma ResolveRoleShape(o: Options, c: Client, k: Caches, w: World, role: string)
    ensures var l := AllRoleNames(c, k, w);
      var r := ResolveRole(o, c, k, w, role);
      if l.result.Ok? && role != GoGet(l.result.value, Lower(role)) && GoGet(l.result.value, Lower(role)) == ""
         && o.createRoles then
        var x := Transmit(c, l.world, CreateRole(role));
        && r.world == x.world
        && r.caches == if x.reply.Refused? then l.caches
                       else l.caches.(roleNames := Some(l.result.value[Lower(role) := role]))
      else r.caches == l.caches && r.world == l.world
  {
  }

  /** A resolved role name is the spelling the role index gives it afterwards
      (the zero value "" for the empty name), and it is settled from then on. */
  lemma ResolveRoleValue(o: Options, c: Client, k: Caches, w: World, role: string)
    requires CachesWF(k)
    ensures var r := ResolveRole(o, c, k, w, role);
      r.result.Ok? ==> r.result.value == Fixed(r.caches, role) && Settled(o, r.caches, role)
  {
    ResolveRoleSound(o, c, k, w, role);
    AllRoleNamesSound(o, c, k, w);
    ResolveRoleShape(o, c, k, w, role);
    LowerEmpty(role);
  }

  /** Without CreateRoles, a role name no stored role lower-cases like is an
      error, and no role is created. */
  lemma UnknownRoleIsRefused(o: Options, c: Client, k: Caches, w: World, role: string)
    requires !o.createRoles && k.roleNames.Some? && role != "" && Lower(role) !in k.roleNames.value
    ensures ResolveRole(o, c, k, w, role) == Run(Err(NoSuchRole(role)), k, w)
  {
  }

  /** A user name no stored user lower-cases like is created, with the row's
      password, by exactly one call; the new spelling is then cached. */
  lemma UnknownUserIsCreated(o: Options, c: Client, k: Caches, w: World, user: string, password: string)
    requires c.Remote? && k.userNames.Some? && user != "" && Lower(user) !in k.userNames.value
    requires CreateUser(user, password) !in w.failing
    ensures var r := ResolveUser(o, c, k, w, user, password);
      && r.result == Ok(user)
      && r.world == Serve(w, CreateUser(user, password)).world
      && r.caches == k.(userNames := Some(k.userNames.value[Lower(user) := user]))
  {
  }

  /** A user name stored under another case is an error when the case must
      match, and otherwise resolves to the stored spelling; either way
      without a call. */
  lemma CaseMismatchedUser(o: Options, c: Client, k: Caches, w: World, user: string, password: string)
    requires k.userNames.Some? && Lower(user) in k.userNames.value
    requires k.userNames.value[Lower(user)] != user && k.userNames.value[Lower(user)] != ""
    ensures ResolveUser(o, c, k, w, user, password)
         == Run(if o.strictCaseSensitive then Err(UserCaseMismatch(user, k.userNames.value[Lower(user)]))
                else Ok(k.userNames.value[Lower(user)]), k, w)
  {
  }

  // ---------------------------------------------------------------------------
  // The loops

  /** One turn of the assignLoop on a non-empty role, for the imperative
      loop that takes the roles one at a time. */
  lemma AssignLoopCons(o: Options, c: Client, k: Caches, w: World, role: string, rest: seq<string>,
                       current: seq<string>, acc: seq<string>)
    requires role != ""
    ensures var r := ResolveRole(o, c, k, w, role);
            AssignLoop(o, c, k, w, [role] + rest, current, acc)
            == (if r.result.Err? then Run(Err(r.result.error), r.caches, r.world)
                else AssignLoop(o, c, r.caches, r.world, rest, current,
                                if r.result.value in current then acc else acc + [r.result.value]))
  {
    assert ([role] + rest)[0] == role && ([role] + rest)[1..] == rest;
  }

  lemma {:induction false} AssignLoopSound(o: Options, c: Client, k: Caches, w: World, roles: seq<string>,
                                           current: seq<string>, acc: seq<string>)
    requires CachesWF(k)
    ensures var r := AssignLoop(o, c, k, w, roles, current, acc);
      && Sound(c, k, w, r.caches, r.world)
      && RoleStep(o, w, r.world)
      && r.caches.userNames == k.userNames
    decreases |roles|
  {
    if roles == [] {
      StaySound(c, k, w);
      RoleStepStay(o, w);
    } else if roles[0] == "" {
      AssignLoopSound(o, c, k, w, roles[1..], current, acc);
    } else {
      var r := ResolveRole(o, c, k, w, roles[0]);
      ResolveRoleSound(o, c, k, w, roles[0]);
      if r.result.Ok? {
        var fixed := r.result.value;
        var acc' := if fixed in current then acc else acc + [fixed];
        var a := AssignLoop(o, c, r.caches, r.world, roles[1..], current, acc');
        AssignLoopSound(o, c, r.caches, r.world, roles[1..], current, acc');
        SoundTrans(c, k, w, r.caches, r.world, a.caches, a.world);
        RoleStepTrans(o, w, r.world, a.world);
      }
    }
  }

  lemma {:induction false} MatchesAnySound(o: Options, c: Client, k: Caches, w: World, desired: seq<string>, role: string)
    requires CachesWF(k)
    ensures var r := MatchesAny(o, c, k, w, desired, role);
      && Sound(c, k, w, r.caches, r.world)
      && RoleStep(o, w, r.world)
      && r.caches.userNames == k.userNames
    decreases |desired|
  {
    if desired == [] {
      StaySound(c, k, w);
      RoleStepStay(o, w);
    } else {
      var r := ResolveRole(o, c, k, w, desired[0]);
      ResolveRoleSound(o, c, k, w, desired[0]);
      if r.result.Ok? && r.result.value != role {
        var m := MatchesAny(o, c, r.caches, r.world, desired[1..], role);
        MatchesAnySound(o, c, r.caches, r.world, desired[1..], role);
        SoundTrans(c, k, w, r.caches, r.world, m.caches, m.world);
        RoleStepTrans(o, w, r.world, m.world);
      }
    }
  }

  lemma {:induction false} RemoveLoopSound(o: Options, c: Client, k: Caches, w: World, fixedUser: string,
                                           desired: seq<string>, current: seq<string>, acc: seq<string>)
    requires CachesWF(k)
    ensures var r := RemoveLoop(o, c, k, w, fixedUser, desired, current, acc);
      && Sound(c, k, w, r.caches, r.world)
      && RoleStep(o, w, r.world)
      && r.caches.userNames == k.userNames
    decreases |current|
  {
    if current == [] {
      StaySound(c, k, w);
      RoleStepStay(o, w);
    } else if current[0] == "Authenticated" {
      RemoveLoopSound(o, c, k, w, fixedUser, desired, current[1..], acc);
    } else {
      var role := current[0];
      var m := MatchesAny(o, c, k, w, desired, role);
      MatchesAnySound(o, c, k, w, desired, role);
      if m.result.Ok? && !(!m.result.value && fixedUser == "admin" && role == "Administrator") {
        var acc' := if m.result.value then acc else acc + [role];
        var r := RemoveLoop(o, c, m.caches, m.world, fixedUser, desired, current[1..], acc');
        RemoveLoopSound(o, c, m.caches, m.world, fixedUser, desired, current[1..], acc');
        SoundTrans(c, k, w, m.caches, m.world, r.caches, r.world);
        RoleStepTrans(o, w, m.world, r.world);
      }
    }
  }

  /** A role list that a successful remove loop collects for admin never
      holds Administrator. */
  lemma {:induction false} RemoveLoopProtectsAdministrator(o: Options, c: Client, k: Caches, w: World,
                                                           desired: seq<string>, current: seq<string>, acc: seq<string>)
    requires "Administrator" !in acc
    ensures var r := RemoveLoop(o, c, k, w, "admin", desired, current, acc);
      r.result.Ok? ==> "Administrator" !in r.result.value
    decreases |current|
  {
    if current != [] {
      var role := current[0];
      if role == "Authenticated" {
        RemoveLoopProtectsAdministrator(o, c, k, w, desired, current[1..], acc);
      } else {
        var m := MatchesAny(o, c, k, w, desired, role);
        if m.result.Ok? {
          if m.result.value {
            RemoveLoopProtectsAdministrator(o, c, m.caches, m.world, desired, current[1..], acc);
          } else if role != "Administrator" {
            RemoveLoopProtectsAdministrator(o, c, m.caches, m.world, desired, current[1..], acc + [role]);
          }
        }
      }
    }
  }

  /** The roles to assign: the stored spellings of the non-empty desired
      roles that the user does not already hold. */
  ghost function Wanted(roles: seq<string>, k: Caches, current: seq<string>): set<string> {
    set d | d in roles && d != "" && Fixed(k, d) !in current :: Fixed(k, d)
  }

  lemma WantedCons(roles: seq<string>, k: Caches, current: seq<string>)
    requires roles != []
    ensures Wanted(roles, k, current)
         == (if roles[0] != "" && Fixed(k, roles[0]) !in current then {Fixed(k, roles[0])} else {})
            + Wanted(roles[1..], k, current)
  {
    assert forall d :: d in roles <==> d == roles[0] || d in roles[1..];
  }

  lemma ToSetSnoc(xs: seq<string>, x: string)
    ensures ToSet(xs + [x]) == ToSet(xs) + {x}
  {
  }

  /** What the assign loop collects: exactly the roles to assign (as a set);
      and every non-empty desired role is settled afterwards. */
  lemma {:induction false} AssignLoopValue(o: Options, c: Client, k: Caches, w: World, roles: seq<string>,
                                           current: seq<string>, acc: seq<string>)
    requires CachesWF(k)
    ensures var r := AssignLoop(o, c, k, w, roles, current, acc);
      r.result.Ok? ==>
        && ToSet(r.result.value) == ToSet(acc) + Wanted(roles, r.caches, current)
        && (forall d :: d in roles && d != "" ==> Settled(o, r.caches, d))
    decreases |roles|
  {
    if roles != [] {
      var a := AssignLoop(o, c, k, w, roles, current, acc);
      WantedCons(roles, a.caches, current);
      if roles[0] == "" {
        AssignLoopValue(o, c, k, w, roles[1..], current, acc);
      } else {
        var r := ResolveRole(o, c, k, w, roles[0]);
        ResolveRoleSound(o, c, k, w, roles[0]);
        ResolveRoleValue(o, c, k, w, roles[0]);
        if r.result.Ok? {
          var fixed := r.result.value;
          var acc' := if fixed in current then acc else acc + [fixed];
          AssignLoopValue(o, c, r.caches, r.world, roles[1..], current, acc');
          AssignLoopSound(o, c, r.caches, r.world, roles[1..], current, acc');
          var rest := AssignLoop(o, c, r.caches, r.world, roles[1..], current, acc');
          if rest.result.Ok? {
            AssignValueStep(o, roles, current, acc, rest.result.value, r.caches, rest.caches);
          }
        }
      }
    }
  }

  /** One resolved role of the assign loop: its spelling joins the roles to
      assign unless the user holds it, and it stays settled. */
  lemma AssignValueStep(o: Options, roles: seq<string>, current: seq<string>, acc: seq<string>,
                        value: seq<string>, kr: Caches, ka: Caches)
    requires roles != [] && roles[0] != ""
    requires CachesWF(kr) && CachesWF(ka) && Grows(kr, ka) && Settled(o, kr, roles[0])
    requires var fixed := Fixed(kr, roles[0]);
      ToSet(value) == ToSet(if fixed in current then acc else acc + [fixed]) + Wanted(roles[1..], ka, current)
    requires forall d :: d in roles[1..] && d != "" ==> Settled(o, ka, d)
    ensures ToSet(value) == ToSet(acc) + Wanted(roles, ka, current)
    ensures forall d :: d in roles && d != "" ==> Settled(o, ka, d)
  {
    WantedCons(roles, ka, current);
    SettledGrows(o, kr, ka, roles[0]);
    ToSetSnoc(acc, Fixed(kr, roles[0]));
  }

  /** The roles to assign as a list: the stored spellings of the non-empty
      desired roles, in the order of the row, leaving out those the user
      already holds; a role named twice is listed twice. */
  function WantedList(roles: seq<string>, k: Caches, current: seq<string>): seq<string>
    decreases |roles|
  {
    if roles == [] then []
    else (if roles[0] != "" && Fixed(k, roles[0]) !in current then [Fixed(k, roles[0])] else [])
         + WantedList(roles[1..], k, current)
  }

  /** What the assign loop collects, in order: the row's roles in the
      spelling the role index holds once they are all resolved. */
  lemma {:induction false} AssignLoopList(o: Options, c: Client, k: Caches, w: World, roles: seq<string>,
                                          current: seq<string>, acc: seq<string>)
    requires CachesWF(k)
    ensures var r := AssignLoop(o, c, k, w, roles, current, acc);
      r.result.Ok? ==> r.result.value == acc + WantedList(roles, r.caches, current)
    decreases |roles|
  {
    if roles == [] {
      assert acc + [] == acc;
    } else {
      if roles[0] == "" {
        AssignLoopList(o, c, k, w, roles[1..], current, acc);
        var a := AssignLoop(o, c, k, w, roles[1..], current, acc);
        assert AssignLoop(o, c, k, w, roles, current, acc) == a;
        assert WantedList(roles, a.caches, current) == WantedList(roles[1..], a.caches, current);
      } else {
        var r := ResolveRole(o, c, k, w, roles[0]);
        ResolveRoleSound(o, c, k, w, roles[0]);
        ResolveRoleValue(o, c, k, w, roles[0]);
        if r.result.Ok? {
          var fixed := r.result.value;
          var acc' := if fixed in current then acc else acc + [fixed];
          AssignLoopList(o, c, r.caches, r.world, roles[1..], current, acc');
          AssignLoopSound(o, c, r.caches, r.world, roles[1..], current, acc');
          var rest := AssignLoop(o, c, r.caches, r.world, roles[1..], current, acc');
          assert AssignLoop(o, c, k, w, roles, current, acc) == rest;
          if rest.result.Ok? {
            SettledGrows(o, r.caches, rest.caches, roles[0]);
            AssignListStep(roles, current, acc, rest.result.value, fixed, rest.caches);
          }
        }
      }
    }
  }

  /** One resolved role of the assign loop: its spelling, when not held,
      comes before the rest of the list. */
  lemma AssignListStep(roles: seq<string>, current: seq<string>, acc: seq<string>,
                       value: seq<string>, fixed: string, ka: Caches)
    requires roles != [] && roles[0] != "" && Fixed(ka, roles[0]) == fixed
    requires value == (if fixed in current then acc else acc + [fixed]) + WantedList(roles[1..], ka, current)
    ensures value == acc + WantedList(roles, ka, current)
  {
    var tail := WantedList(roles[1..], ka, current);
    assert WantedList(roles, ka, current) == (if fixed !in current then [fixed] else []) + tail;
    AppendStep(acc, fixed, fixed !in current, tail);
  }

  lemma AppendStep<T>(acc: seq<T>, x: T, keep: bool, tail: seq<T>)
    ensures (if keep then acc + [x] else acc) + tail == acc + ((if keep then [x] else []) + tail)
  {
    if !keep {
      assert [] + tail == tail;
    }
  }

  /** What the inner loop answers: true exactly when some desired role
      settles on role, false when every desired role settles elsewhere. */
  lemma {:induction false} MatchesAnyValue(o: Options, c: Client, k: Caches, w: World, desired: seq<string>, role: string)
    requires CachesWF(k)
    ensures var r := MatchesAny(o, c, k, w, desired, role);
      r.result.Ok? ==>
        && (r.result.value ==> exists d :: d in desired && Settled(o, r.caches, d) && Fixed(r.caches, d) == role)
        && (!r.result.value ==> forall d :: d in desired ==> Settled(o, r.caches, d) && Fixed(r.caches, d) != role)
    decreases |desired|
  {
    if desired != [] {
      var r := ResolveRole(o, c, k, w, desired[0]);
      ResolveRoleSound(o, c, k, w, desired[0]);
      ResolveRoleValue(o, c, k, w, desired[0]);
      if r.result.Ok? && r.result.value != role {
        var m := MatchesAny(o, c, r.caches, r.world, desired[1..], role);
        MatchesAnyValue(o, c, r.caches, r.world, desired[1..], role);
        MatchesAnySound(o, c, r.caches, r.world, desired[1..], role);
        SettledGrows(o, r.caches, m.caches, desired[0]);
        assert forall d :: d in desired <==> d == desired[0] || d in desired[1..];
      }
    }
  }

  /** The roles to remove: the held roles other than Authenticated that no
      desired role settles on. */
  ghost function Unwanted(current: seq<string>, desired: seq<string>, k: Caches): set<string> {
    set x | x in current && x != "Authenticated" && (forall d :: d in desired ==> Fixed(k, d) != x)
  }

  lemma UnwantedCons(current: seq<string>, desired: seq<string>, k: Caches)
    requires current != []
    ensures Unwanted(current, desired, k)
         == (if current[0] != "Authenticated" && (forall d :: d in desired ==> Fixed(k, d) != current[0])
             then {current[0]} else {})
            + Unwanted(current[1..], desired, k)
  {
    assert forall x :: x in current <==> x == current[0] || x in current[1..];
  }

  /** What the remove loop collects: exactly the roles to remove (as a set);
      and the roles have been listed whenever some held role is kept. */
  lemma {:induction false} RemoveLoopValue(o: Options, c: Client, k: Caches, w: World, fixedUser: string,
                                           desired: seq<string>, current: seq<string>, acc: seq<string>)
    requires CachesWF(k)
    ensures var r := RemoveLoop(o, c, k, w, fixedUser, desired, current, acc);
      r.result.Ok? ==>
        && ToSet(r.result.value) == ToSet(acc) + Unwanted(current, desired, r.caches)
        && (forall x :: x in current && x != "Authenticated" && x !in Unwanted(current, desired, r.caches) ==>
              r.caches.roleNames.Some?)
    decreases |current|
  {
    if current != [] {
      var r := RemoveLoop(o, c, k, w, fixedUser, desired, current, acc);
      UnwantedCons(current, desired, r.caches);
      var role := current[0];
      if role == "Authenticated" {
        RemoveLoopValue(o, c, k, w, fixedUser, desired, current[1..], acc);
      } else {
        var m := MatchesAny(o, c, k, w, desired, role);
        MatchesAnySound(o, c, k, w, desired, role);
        MatchesAnyValue(o, c, k, w, desired, role);
        if m.result.Ok? && !(!m.result.value && fixedUser == "admin" && role == "Administrator") {
          var acc' := if m.result.value then acc else acc + [role];
          RemoveLoopValue(o, c, m.caches, m.world, fixedUser, desired, current[1..], acc');
          RemoveLoopSound(o, c, m.caches, m.world, fixedUser, desired, current[1..], acc');
          var rest := RemoveLoop(o, c, m.caches, m.world, fixedUser, desired, current[1..], acc');
          if rest.result.Ok? {
            RemoveValueStep(o, desired, current, acc, rest.result.value, m.caches, rest.caches, m.result.value);
          }
        }
      }
    }
  }

  /** One held role of the remove loop: it joins the roles to remove exactly
      when no desired role settles on it. */
  lemma RemoveValueStep(o: Options, desired: seq<string>, current: seq<string>, acc: seq<string>,
                        value: seq<string>, km: Caches, kr: Caches, matched: bool)
    requires current != [] && current[0] != "Authenticated"
    requires CachesWF(km) && CachesWF(kr) && Grows(km, kr)
    requires matched ==> exists d :: d in desired && Settled(o, km, d) && Fixed(km, d) == current[0]
    requires !matched ==> forall d :: d in desired ==> Settled(o, km, d) && Fixed(km, d) != current[0]
    requires ToSet(value) == ToSet(if matched then acc else acc + [current[0]]) + Unwanted(current[1..], desired, kr)
    requires forall x :: x in current[1..] && x != "Authenticated" && x !in Unwanted(current[1..], desired, kr) ==>
      kr.roleNames.Some?
    ensures ToSet(value) == ToSet(acc) + Unwanted(current, desired, kr)
    ensures forall x :: x in current && x != "Authenticated" && x !in Unwanted(current, desired, kr) ==>
      kr.roleNames.Some?
  {
    var role := current[0];
    UnwantedCons(current, desired, kr);
    ToSetSnoc(acc, role);
    assert forall x :: x in current <==> x == role || x in current[1..];
    if matched {
      var d :| d in desired && Settled(o, km, d) && Fixed(km, d) == role;
      SettledGrows(o, km, kr, d);
    } else {
      forall d | d in desired
        ensures Fixed(kr, d) != role
      {
        SettledGrows(o, km, kr, d);
      }
    }
  }

  /** A removal from admin that would take Administrator away fails instead:
      if admin holds Administrator and no desired role settles on it, the
      remove loop is an error. */
  lemma AdministratorStaysWithAdmin(o: Options, c: Client, k: Caches, w: World,
                                    desired: seq<string>, current: seq<string>)
    requires CachesWF(k) && "Administrator" in current
    ensures var r := RemoveLoop(o, c, k, w, "admin", desired, current, []);
      r.result.Ok? ==> exists d :: d in desired && Fixed(r.caches, d) == "Administrator"
  {
    var r := RemoveLoop(o, c, k, w, "admin", desired, current, []);
    RemoveLoopValue(o, c, k, w, "admin", desired, current, []);
    RemoveLoopProtectsAdministrator(o, c, k, w, desired, current, []);
    if r.result.Ok? {
      assert "Administrator" !in ToSet(r.result.value);
      assert "Administrator" !in Unwanted(current, desired, r.caches);
    }
  }

  // ---------------------------------------------------------------------------
  // The reconciliation and the whole import

  lemma SendIfAnySound(c: Client, k: Caches, w: World, call: Call, nonEmpty: bool)
    requires CachesWF(k)
    ensures Sound(c, k, w, k, SendIfAny(c, w, call, nonEmpty).world)
    ensures Since(w, SendIfAny(c, w, call, nonEmpty).world) == if nonEmpty && c.Forwards(call) then [call] else []
  {
    if nonEmpty {
      TransmitSound(c, k, w, call);
    } else {
      StaySound(c, k, w);
    }
  }

  lemma RemovePhaseSound(o: Options, c: Client, k: Caches, w: World, user: string, password: string,
                         fixedUser: string, roles: seq<string>, current: seq<string>)
    requires CachesWF(k) && Lower(fixedUser) == Lower(user)
    ensures var r := RemovePhase(o, c, k, w, fixedUser, roles, current);
      && Sound(c, k, w, r.caches, r.world)
      && ImportCalls(o, user, password, Since(w, r.world))
      && r.caches.userNames == k.userNames
      && r.world.state.passwords == w.state.passwords
  {
    var r := RemoveLoop(o, c, k, w, fixedUser, roles, current, []);
    RemoveLoopSound(o, c, k, w, fixedUser, roles, current, []);
    RoleCallsAreImportCalls(o, user, password, Since(w, r.world));
    if r.result.Ok? {
      var call := RemoveRolesFromUser(fixedUser, r.result.value);
      if fixedUser == "admin" {
        RemoveLoopProtectsAdministrator(o, c, k, w, roles, current, []);
      }
      assert |r.result.value| > 0 ==> ImportCall(o, user, password, call);
      SendImportCallSound(o, c, k, w, r.caches, r.world, user, password, call, |r.result.value| > 0);
    }
    RemovePhaseShape(o, c, k, w, fixedUser, roles, current);
  }

  /** RemovePhase keeps the caches the remove loop leaves, and its world is
      the loop's, followed by the removal when the loop succeeds; the
      removal leaves every password as it was. */
  lemma RemovePhaseShape(o: Options, c: Client, k: Caches, w: World, fixedUser: string,
                         roles: seq<string>, current: seq<string>)
    ensures var r := RemoveLoop(o, c, k, w, fixedUser, roles, current, []);
      var p := RemovePhase(o, c, k, w, fixedUser, roles, current);
      && p.caches == r.caches
      && (r.result.Err? ==> p.world == r.world)
      && (r.result.Ok? ==>
            var y := SendIfAny(c, r.world, RemoveRolesFromUser(fixedUser, r.result.value), |r.result.value| > 0);
            p.world == y.world && y.world.state.passwords == r.world.state.passwords)
  {
  }

  /** Sending one more import call, when there is something to send,
      after a sound run of import calls. */
  lemma SendImportCallSound(o: Options, c: Client, k: Caches, w: World, kr: Caches, wr: World,
                            user: string, password: string, call: Call, nonEmpty: bool)
    requires Sound(c, k, w, kr, wr) && ImportCalls(o, user, password, Since(w, wr))
    requires nonEmpty ==> ImportCall(o, user, password, call)
    ensures var y := SendIfAny(c, wr, call, nonEmpty);
      && Sound(c, k, w, kr, y.world)
      && ImportCalls(o, user, password, Since(w, y.world))
  {
    var y := SendIfAny(c, wr, call, nonEmpty);
    SendIfAnySound(c, kr, wr, call, nonEmpty);
    SoundTrans(c, k, w, kr, wr, kr, y.world);
    ImportCallsConcat(o, user, password, Since(w, wr), Since(wr, y.world));
  }

  lemma ReconcileSound(o: Options, c: Client, k: Caches, w: World, user: string, password: string,
                       fixedUser: string, roles: seq<string>, current: seq<string>)
    requires CachesWF(k) && Lower(fixedUser) == Lower(user)
    ensures var r := Reconcile(o, c, k, w, fixedUser, roles, current);
      && Sound(c, k, w, r.caches, r.world)
      && ImportCalls(o, user, password, Since(w, r.world))
      && r.caches.userNames == k.userNames
      && r.world.state.passwords == w.state.passwords
  {
    var a := AssignLoop(o, c, k, w, roles, current, []);
    AssignLoopSound(o, c, k, w, roles, current, []);
    RoleCallsAreImportCalls(o, user, password, Since(w, a.world));
    if a.result.Ok? {
      var call := AssignRolesToUser(fixedUser, a.result.value);
      assert |a.result.value| > 0 ==> ImportCall(o, user, password, call);
      var x := SendIfAny(c, a.world, call, |a.result.value| > 0);
      SendIfAnySound(c, a.caches, a.world, call, |a.result.value| > 0);
      SoundTrans(c, k, w, a.caches, a.world, a.caches, x.world);
      ImportCallsConcat(o, user, password, Since(w, a.world), Since(a.world, x.world));
      if !x.reply.Refused? {
        var r := RemovePhase(o, c, a.caches, x.world, fixedUser, roles, current);
        RemovePhaseSound(o, c, a.caches, x.world, user, password, fixedUser, roles, current);
        SoundTrans(c, k, w, a.caches, x.world, r.caches, r.world);
        ImportCallsConcat(o, user, password, Since(w, x.world), Since(x.world, r.world));
      }
    }
    ReconcileShape(o, c, k, w, fixedUser, roles, current);
  }

  /** Reconcile keeps the assign loop's caches, or the remove phase's after
      a sent assignment; the assignment leaves every password as it was. */
  lemma ReconcileShape(o: Options, c: Client, k: Caches, w: World, fixedUser: string,
                       roles: seq<string>, current: seq<string>)
    ensures var a := AssignLoop(o, c, k, w, roles, current, []);
      var r := Reconcile(o, c, k, w, fixedUser, roles, current);
      if a.result.Err? then r.caches == a.caches && r.world == a.world
      else
        var x := SendIfAny(c, a.world, AssignRolesToUser(fixedUser, a.result.value), |a.result.value| > 0);
        && x.world.state.passwords == a.world.state.passwords
        && if x.reply.Refused? then r.caches == a.caches && r.world == x.world
           else r == RemovePhase(o, c, a.caches, x.world, fixedUser, roles, current)
  {
  }

  lemma ImportResolvedSound(o: Options, c: Client, k: Caches, w: World, user: string, fixedUser: string,
                            password: string, roles: seq<string>)
    requires CachesWF(k) && Lower(fixedUser) == Lower(user)
    ensures var r := ImportResolved(o, c, k, w, user, fixedUser, password, roles);
      && Sound(c, k, w, r.caches, r.world)
      && ImportCalls(o, user, password, Since(w, r.world))
  {
    var p := SendIfAny(c, w, UpdatePassword(user, password), o.updatePassword);
    SendIfAnySound(c, k, w, UpdatePassword(user, password), o.updatePassword);
    if !p.reply.Refused? {
      assert ImportCalls(o, user, password, Since(w, p.world));
      ListedSound(o, c, k, w, p.world, user, fixedUser, password, roles);
    }
    ImportResolvedShape(o, c, k, w, user, fixedUser, password, roles);
  }

  /** The listing of the user's roles and the reconciliation after it keep
      an import sound. */
  lemma ListedSound(o: Options, c: Client, k: Caches, w: World, pw: World, user: string, fixedUser: string,
                    password: string, roles: seq<string>)
    requires CachesWF(k) && Lower(fixedUser) == Lower(user)
    requires Sound(c, k, w, k, pw) && ImportCalls(o, user, password, Since(w, pw))
    ensures var l := Transmit(c, pw, ListRolesForUser(fixedUser));
      var r := if l.reply.Refused? then Run(Err(CallFailed(ListRolesForUser(fixedUser))), k, l.world)
               else Reconcile(o, c, k, l.world, fixedUser, roles, l.reply.names);
      && Sound(c, k, w, r.caches, r.world)
      && ImportCalls(o, user, password, Since(w, r.world))
  {
    var l := Transmit(c, pw, ListRolesForUser(fixedUser));
    TransmitSound(c, k, pw, ListRolesForUser(fixedUser));
    SoundTrans(c, k, w, k, pw, k, l.world);
    ImportCallsConcat(o, user, password, Since(w, pw), Since(pw, l.world));
    if !l.reply.Refused? {
      var r := Reconcile(o, c, k, l.world, fixedUser, roles, l.reply.names);
      ReconcileSound(o, c, k, l.world, user, password, fixedUser, roles, l.reply.names);
      SoundTrans(c, k, w, k, l.world, r.caches, r.world);
      ImportCallsConcat(o, user, password, Since(w, l.world), Since(l.world, r.world));
    }
  }

  /** What ImportResolved returns on each of its paths. */
  lemma ImportResolvedShape(o: Options, c: Client, k: Caches, w: World, user: string, fixedUser: string,
                            password: string, roles: seq<string>)
    ensures var p := SendIfAny(c, w, UpdatePassword(user, password), o.updatePassword);
      var r := ImportResolved(o, c, k, w, user, fixedUser, password, roles);
      if p.reply.Refused? then r.caches == k && r.world == p.world
      else
        var l := Transmit(c, p.world, ListRolesForUser(fixedUser));
        if l.reply.Refused? then r.caches == k && r.world == l.world
        else r == Reconcile(o, c, k, l.world, fixedUser, roles, l.reply.names)
  {
  }

  /** One import keeps the caches well formed, records the row in the
      appeared map whatever the outcome, only grows the two indexes, and makes
      only the calls ImportCall allows; through the validation decorator the
      directory only receives listings. */
  lemma ImportSound(o: Options, c: Client, k: Caches, w: World, user: string, password: string, roles: seq<string>)
    requires CachesWF(k)
    ensures var r := Import(o, c, k, w, user, password, roles);
      && Sound(c, k.(appeared := k.appeared[Lower(user) := user]), w, r.caches, r.world)
      && ImportCalls(o, user, password, Since(w, r.world))
  {
    var k1 := k.(appeared := k.appeared[Lower(user) := user]);
    var u := ResolveUser(o, c, k1, w, user, password);
    ResolveUserSound(o, c, k1, w, user, password);
    ResolveUserValue(o, c, k1, w, user, password);
    if u.result.Ok? {
      var r := ImportResolved(o, c, u.caches, u.world, user, u.result.value, password, roles);
      ImportResolvedSound(o, c, u.caches, u.world, user, u.result.value, password, roles);
      SoundTrans(c, k1, w, u.caches, u.world, r.caches, r.world);
      ImportCallsConcat(o, user, password, Since(w, u.world), Since(u.world, r.world));
    }
  }

  // ---------------------------------------------------------------------------
  // Importing the same row again

  /** The reconciliation has converged for the held roles current: every
      non-empty desired role settles on a held role, and every held role
      other than Authenticated is one some desired role settles on. */
  ghost predicate Converged(o: Options, k: Caches, roles: seq<string>, current: seq<string>) {
    && (forall d :: d in roles && d != "" ==> Settled(o, k, d) && Fixed(k, d) in current)
    && (forall x :: x in current && x != "Authenticated" ==>
          k.roleNames.Some? && exists d :: d in roles && Fixed(k, d) == x)
  }

  lemma {:induction false} QuietAssign(o: Options, c: Client, k: Caches, w: World, roles: seq<string>,
                                       current: seq<string>, acc: seq<string>)
    requires CachesWF(k)
    requires forall d :: d in roles && d != "" ==> Settled(o, k, d) && Fixed(k, d) in current
    ensures AssignLoop(o, c, k, w, roles, current, acc) == Run(Ok(acc), k, w)
    decreases |roles|
  {
    if roles != [] {
      if roles[0] != "" {
        SettledIsQuiet(o, c, k, w, roles[0]);
      }
      QuietAssign(o, c, k, w, roles[1..], current, acc);
    }
  }

  lemma {:induction false} QuietMatches(o: Options, c: Client, k: Caches, w: World, desired: seq<string>, role: string)
    requires CachesWF(k) && k.roleNames.Some?
    requires forall d :: d in desired && d != "" ==> Settled(o, k, d)
    ensures MatchesAny(o, c, k, w, desired, role) == Run(Ok(exists d :: d in desired && Fixed(k, d) == role), k, w)
    decreases |desired|
  {
    if desired != [] {
      SettledIsQuiet(o, c, k, w, desired[0]);
      QuietMatches(o, c, k, w, desired[1..], role);
      assert forall d :: d in desired <==> d == desired[0] || d in desired[1..];
    }
  }

  lemma {:induction false} QuietRemove(o: Options, c: Client, k: Caches, w: World, fixedUser: string,
                                       desired: seq<string>, current: seq<string>, acc: seq<string>)
    requires CachesWF(k)
    requires forall d :: d in desired && d != "" ==> Settled(o, k, d)
    requires forall x :: x in current && x != "Authenticated" ==>
               k.roleNames.Some? && exists d :: d in desired && Fixed(k, d) == x
    ensures RemoveLoop(o, c, k, w, fixedUser, desired, current, acc) == Run(Ok(acc), k, w)
    decreases |current|
  {
    if current != [] {
      assert current[0] in current;
      assert forall x :: x in current[1..] ==> x in current;
      if current[0] != "Authenticated" {
        QuietMatches(o, c, k, w, desired, current[0]);
      }
      QuietRemove(o, c, k, w, fixedUser, desired, current[1..], acc);
    }
  }

  /** Once converged, the reconciliation makes no call and changes nothing. */
  lemma ConvergedIsQuiet(o: Options, c: Client, k: Caches, w: World, fixedUser: string,
                         roles: seq<string>, current: seq<string>)
    requires CachesWF(k) && Converged(o, k, roles, current)
    ensures Reconcile(o, c, k, w, fixedUser, roles, current) == Run(Ok(()), k, w)
  {
    QuietAssign(o, c, k, w, roles, current, []);
    QuietRemove(o, c, k, w, fixedUser, roles, current, []);
  }

  /** What the two sends of a reconciliation do to the user's roles. */
  lemma AssignEffect(c: Client, w: World, user: string, roles: seq<string>)
    requires c.Remote?
    ensures var x := SendIfAny(c, w, AssignRolesToUser(user, roles), |roles| > 0);
      x.reply.Served? ==>
        && ToSet(RolesOf(x.world.state, user)) == ToSet(RolesOf(w.state, user)) + ToSet(roles)
        && x.world.state.passwords == w.state.passwords
  {
  }

  lemma RemoveEffect(c: Client, w: World, user: string, roles: seq<string>)
    requires c.Remote?
    ensures var y := SendIfAny(c, w, RemoveRolesFromUser(user, roles), |roles| > 0);
      y.reply.Served? ==>
        && ToSet(RolesOf(y.world.state, user)) == ToSet(RolesOf(w.state, user)) - ToSet(roles)
        && y.world.state.passwords == w.state.passwords
  {
  }

  /** The set-level argument: assigning the wanted roles and removing the
      unwanted ones leaves the roles converged. */
  lemma ConvergedAfter(o: Options, ka: Caches, kf: Caches, roles: seq<string>, cur: seq<string>,
                       assigning: seq<string>, removing: seq<string>, final: seq<string>)
    requires CachesWF(ka) && CachesWF(kf) && Grows(ka, kf)
    requires ToSet(assigning) == Wanted(roles, ka, cur)
    requires forall d :: d in roles && d != "" ==> Settled(o, ka, d)
    requires ToSet(removing) == Unwanted(cur, roles, kf)
    requires forall x :: x in cur && x != "Authenticated" && x !in Unwanted(cur, roles, kf) ==> kf.roleNames.Some?
    requires ToSet(final) == (ToSet(cur) + ToSet(assigning)) - ToSet(removing)
    ensures Converged(o, kf, roles, final)
  {
    forall d | d in roles && d != ""
      ensures Settled(o, kf, d) && Fixed(kf, d) == Fixed(ka, d)
    {
      SettledGrows(o, ka, kf, d);
    }
    forall d | d in roles && d != ""
      ensures Fixed(kf, d) in final
    {
      var v := Fixed(kf, d);
      assert v !in Unwanted(cur, roles, kf);
      assert v in ToSet(cur) + ToSet(assigning);
      assert v in ToSet(final);
    }
    forall x | x in final && x != "Authenticated"
      ensures kf.roleNames.Some? && exists d :: d in roles && Fixed(kf, d) == x
    {
      assert x in ToSet(final);
      if x in ToSet(assigning) {
        var d :| d in roles && d != "" && Fixed(ka, d) !in cur && Fixed(ka, d) == x;
        assert Settled(o, kf, d);
      } else {
        assert x in cur && x !in Unwanted(cur, roles, kf);
      }
    }
  }

  /** A successful reconciliation against the directory leaves the user's
      roles converged, and passwords untouched. */
  lemma ReconcileConverges(o: Options, c: Client, k: Caches, w: World, fixedUser: string, roles: seq<string>)
    requires c.Remote? && CachesWF(k)
    ensures var r := Reconcile(o, c, k, w, fixedUser, roles, RolesOf(w.state, fixedUser));
      r.result.Ok? ==>
        && Converged(o, r.caches, roles, RolesOf(r.world.state, fixedUser))
        && r.world.state.passwords == w.state.passwords
  {
    var cur := RolesOf(w.state, fixedUser);
    var r := Reconcile(o, c, k, w, fixedUser, roles, cur);
    var a := AssignLoop(o, c, k, w, roles, cur, []);
    AssignLoopSound(o, c, k, w, roles, cur, []);
    AssignLoopValue(o, c, k, w, roles, cur, []);
    if r.result.Ok? {
      var assigning := a.result.value;
      var x := SendIfAny(c, a.world, AssignRolesToUser(fixedUser, assigning), |assigning| > 0);
      AssignEffect(c, a.world, fixedUser, assigning);
      assert RolesOf(a.world.state, fixedUser) == cur;
      var rl := RemoveLoop(o, c, a.caches, x.world, fixedUser, roles, cur, []);
      RemoveLoopSound(o, c, a.caches, x.world, fixedUser, roles, cur, []);
      RemoveLoopValue(o, c, a.caches, x.world, fixedUser, roles, cur, []);
      var removing := rl.result.value;
      var y := SendIfAny(c, rl.world, RemoveRolesFromUser(fixedUser, removing), |removing| > 0);
      RemoveEffect(c, rl.world, fixedUser, removing);
      assert r == Run(Ok(()), rl.caches, y.world);
      assert RolesOf(rl.world.state, fixedUser) == RolesOf(x.world.state, fixedUser);
      ConvergedAfter(o, a.caches, rl.caches, roles, cur, assigning, removing, RolesOf(y.world.state, fixedUser));
    }
  }

  /** The second import of a converged row: the user resolves without a
      call, the password update (if any) rewrites the same password, and the
      reconciliation makes no call. */
  lemma SecondImportIsQuiet(o: Options, c: Client, k: Caches, w: World, user: string, password: string,
                            roles: seq<string>, fixed: string)
    requires c.Remote? && CachesWF(k) && UserSettled(o, k, user) && GoGet(UserIndex(k), Lower(user)) == fixed
    requires Lower(user) in k.appeared && k.appeared[Lower(user)] == user
    requires o.updatePassword ==>
               UpdatePassword(user, password) !in w.failing
               && user in w.state.passwords && w.state.passwords[user] == password
    requires ListRolesForUser(fixed) !in w.failing
    requires Converged(o, k, roles, RolesOf(w.state, fixed))
    ensures var r := Import(o, c, k, w, user, password, roles);
      && r.result.Ok?
      && r.caches == k
      && r.world.state == w.state
      && Follows(w, r.world)
      && Since(w, r.world)
         == (if o.updatePassword then [UpdatePassword(user, password)] else []) + [ListRolesForUser(fixed)]
  {
    assert k.appeared[Lower(user) := user] == k.appeared;
    assert k.(appeared := k.appeared[Lower(user) := user]) == k;
    UserSettledIsQuiet(o, c, k, w, user, password);
    ResolvedImportIsQuiet(o, c, k, w, user, password, roles, fixed);
  }

  /** The quiet second import once the user is resolved: the password is
      rewritten unchanged, the roles are listed, and nothing else is sent. */
  lemma ResolvedImportIsQuiet(o: Options, c: Client, k: Caches, w: World, user: string, password: string,
                              roles: seq<string>, fixed: string)
    requires c.Remote? && CachesWF(k)
    requires o.updatePassword ==>
               UpdatePassword(user, password) !in w.failing
               && user in w.state.passwords && w.state.passwords[user] == password
    requires ListRolesForUser(fixed) !in w.failing
    requires Converged(o, k, roles, RolesOf(w.state, fixed))
    ensures var r := ImportResolved(o, c, k, w, user, fixed, password, roles);
      && r.result.Ok?
      && r.caches == k
      && r.world.state == w.state
      && Follows(w, r.world)
      && Since(w, r.world)
         == (if o.updatePassword then [UpdatePassword(user, password)] else []) + [ListRolesForUser(fixed)]
  {
    var p := SendIfAny(c, w, UpdatePassword(user, password), o.updatePassword);
    if o.updatePassword {
      assert w.state.passwords[user := password] == w.state.passwords;
    }
    assert p.world.state == w.state;
    var l := Transmit(c, p.world, ListRolesForUser(fixed));
    ConvergedIsQuiet(o, c, k, l.world, fixed, roles, l.reply.names);
    assert ImportResolved(o, c, k, w, user, fixed, password, roles) == Run(Ok(()), k, l.world);
  }

  /** After a successful import of a row whose user is already resolved,
      the user still resolves quietly to the same spelling, the password is
      the row's (when UpdatePassword is set), the user's roles can be
      listed, and the user's roles are converged on the row's. */
  lemma ImportResolvedSettles(o: Options, c: Client, k: Caches, w: World, user: string, fixed: string,
                              password: string, roles: seq<string>)
    requires c.Remote? && CachesWF(k) && Lower(fixed) == Lower(user)
    requires UserSettled(o, k, user) && GoGet(UserIndex(k), Lower(user)) == fixed
    requires ImportResolved(o, c, k, w, user, fixed, password, roles).result.Ok?
    ensures var r := ImportResolved(o, c, k, w, user, fixed, password, roles);
      && CachesWF(r.caches) && UserSettled(o, r.caches, user)
      && GoGet(UserIndex(r.caches), Lower(user)) == fixed
      && r.caches.appeared == k.appeared
      && (o.updatePassword ==>
            UpdatePassword(user, password) !in r.world.failing
            && user in r.world.state.passwords && r.world.state.passwords[user] == password)
      && ListRolesForUser(fixed) !in r.world.failing
      && Converged(o, r.caches, roles, RolesOf(r.world.state, fixed))
  {
    var p := SendIfAny(c, w, UpdatePassword(user, password), o.updatePassword);
    var l := Transmit(c, p.world, ListRolesForUser(fixed));
    assert l.reply.names == RolesOf(l.world.state, fixed);
    var r := Reconcile(o, c, k, l.world, fixed, roles, l.reply.names);
    assert ImportResolved(o, c, k, w, user, fixed, password, roles) == r;
    TransmitFollows(c, p.world, ListRolesForUser(fixed));
    SendIfAnySound(c, k, w, UpdatePassword(user, password), o.updatePassword);
    ReconcileConverges(o, c, k, l.world, fixed, roles);
    ReconcileSound(o, c, k, l.world, user, password, fixed, roles, l.reply.names);
    UserSettledGrows(o, k, r.caches, user);
  }

  /** After a successful import of a row, the user resolves quietly to the
      spelling the import used, the row is recorded as seen, the password
      is the row's (when UpdatePassword is set), the user's roles can be
      listed, and the user's roles are converged on the row's. */
  lemma FirstImportSettles(o: Options, c: Client, k: Caches, w: World, user: string, password: string,
                           roles: seq<string>)
    requires c.Remote? && CachesWF(k)
    requires Import(o, c, k, w, user, password, roles).result.Ok?
    ensures var r1 := Import(o, c, k, w, user, password, roles);
            var fixed := GoGet(UserIndex(r1.caches), Lower(user));
      && CachesWF(r1.caches) && UserSettled(o, r1.caches, user)
      && Lower(user) in r1.caches.appeared && r1.caches.appeared[Lower(user)] == user
      && (o.updatePassword ==>
            UpdatePassword(user, password) !in r1.world.failing
            && user in r1.world.state.passwords && r1.world.state.passwords[user] == password)
      && ListRolesForUser(fixed) !in r1.world.failing
      && Converged(o, r1.caches, roles, RolesOf(r1.world.state, fixed))
  {
    var k1 := k.(appeared := k.appeared[Lower(user) := user]);
    var u := ResolveUser(o, c, k1, w, user, password);
    assert u.result.Ok?;
    ResolveUserSound(o, c, k1, w, user, password);
    ResolveUserValue(o, c, k1, w, user, password);
    var fixed := u.result.value;
    assert Import(o, c, k, w, user, password, roles) == ImportResolved(o, c, u.caches, u.world, user, fixed, password, roles);
    ImportResolvedSettles(o, c, u.caches, u.world, user, fixed, password, roles);
  }

  /** Importing a row that has just been imported successfully changes
      nothing: the caches and the directory stay as they are, and the only
      calls are the password update (when UpdatePassword is set) and the
      listing of the user's roles. */
  lemma ReimportChangesNothing(o: Options, c: Client, k: Caches, w: World, user: string, password: string,
                               roles: seq<string>)
    requires c.Remote? && CachesWF(k)
    requires Import(o, c, k, w, user, password, roles).result.Ok?
    ensures var r1 := Import(o, c, k, w, user, password, roles);
            var r2 := Import(o, c, r1.caches, r1.world, user, password, roles);
      && r2.result.Ok?
      && r2.caches == r1.caches
      && r2.world.state == r1.world.state
      && Follows(r1.world, r2.world)
      && Since(r1.world, r2.world)
         == (if o.updatePassword then [UpdatePassword(user, password)] else [])
            + [ListRolesForUser(GoGet(UserIndex(r1.caches), Lower(user)))]
  {
    var r1 := Import(o, c, k, w, user, password, roles);
    FirstImportSettles(o, c, k, w, user, password, roles);
    SecondImportIsQuiet(o, c, r1.caches, r1.world, user, password, roles, GoGet(UserIndex(r1.caches), Lower(user)));
  }

  // ---------------------------------------------------------------------------
  // The sweep

  /** The users to delete among the keys ks walked so far. */
  ghost function RemainingAmong(m: map<string, string>, appeared: map<string, string>, ks: set<string>): set<string> {
    set k | k in ks && k in m && GoGet(appeared, k) == "" && k != "admin" :: m[k]
  }

  /** Walking one more key adds its spelling exactly when it is to be deleted. */
  lemma RemainingAmongAdd(m: map<string, string>, appeared: map<string, string>, ks: set<string>, k: string)
    requires k in m
    ensures RemainingAmong(m, appeared, ks + {k})
         == RemainingAmong(m, appeared, ks) + if GoGet(appeared, k) == "" && k != "admin" then {m[k]} else {}
  {
  }

  lemma RemainingAmongAll(m: map<string, string>, appeared: map<string, string>)
    ensures RemainingAmong(m, appeared, m.Keys) == Remaining(m, appeared)
  {
  }

  /** The users a sweep deletes, by name: a stored spelling is deleted exactly
      when no row mentioned its name in any case and its name is not admin in
      any case. */
  lemma RemainingByName(m: map<string, string>, appeared: map<string, string>, u: string)
    requires IndexWF(m)
    ensures u in Remaining(m, appeared)
        <==> Lower(u) in m && m[Lower(u)] == u && GoGet(appeared, Lower(u)) == "" && Lower(u) != "admin"
  {
    if u in Remaining(m, appeared) {
      var k :| k in m && GoGet(appeared, k) == "" && k != "admin" && m[k] == u;
      assert Lower(m[k]) == k;
    }
  }

  /** A row's name is never among the users a later sweep deletes. */
  lemma ImportedUserIsKept(m: map<string, string>, appeared: map<string, string>, user: string)
    requires IndexWF(m) && user != ""
    ensures forall u :: u in Remaining(m, appeared[Lower(user) := user]) ==> Lower(u) != Lower(user)
  {
    forall u | u in Remaining(m, appeared[Lower(user) := user])
      ensures Lower(u) != Lower(user)
    {
      RemainingByName(m, appeared[Lower(user) := user], u);
      LowerEmpty(user);
    }
  }

  /** One DeleteFiles call per user, in order. */
  function HomeCalls(users: seq<string>): (calls: seq<Call>)
    ensures |calls| == |users|
    ensures forall i :: 0 <= i < |users| ==> calls[i] == DeleteFiles([HomeOf(users[i])])
    decreases |users|
  {
    if users == [] then [] else [DeleteFiles([HomeOf(users[0])])] + HomeCalls(users[1..])
  }

  /** How many of the users' home deletions the directory refuses. */
  function Refusals(users: seq<string>, failing: set<Call>): nat
    decreases |users|
  {
    if users == [] then 0
    else (if DeleteFiles([HomeOf(users[0])]) in failing then 1 else 0) + Refusals(users[1..], failing)
  }

  /** The home loop sends one DeleteFiles per user, in order, whatever fails,
      counts exactly the refused ones, and leaves the directory's users and
      roles alone. */
  lemma {:induction false} DeleteHomesCounts(c: Client, w: World, users: seq<string>, failures: nat)
    requires c.Remote?
    ensures var t := DeleteHomes(c, w, users, failures);
      && Follows(w, t.world)
      && Since(w, t.world) == HomeCalls(users)
      && t.failures == failures + Refusals(users, w.failing)
      && t.world.state == w.state
    decreases |users|
  {
    if users == [] {
      assert w.trace[..|w.trace|] == w.trace;
      assert w.trace[|w.trace|..] == [];
    } else {
      var x := Transmit(c, w, DeleteFiles([HomeOf(users[0])]));
      var f := if x.reply.Refused? then failures + 1 else failures;
      TransmitFollows(c, w, DeleteFiles([HomeOf(users[0])]));
      DeleteHomesCounts(c, x.world, users[1..], f);
      FollowsTrans(w, x.world, DeleteHomes(c, x.world, users[1..], f).world);
    }
  }

  lemma SweepSound(c: Client, k: Caches, w: World, deleteHomeDirectory: bool, deleting: seq<string>)
    requires CachesWF(k)
    ensures var r := Sweep(c, k, w, deleteHomeDirectory, deleting);
      CachesWF(r.caches) && Grows(k, r.caches)
  {
    AllUserNamesSound(c, k, w);
  }

  /** DeleteRemainingUsers against the directory, given a valid walk order:
      the user listing is made only when not cached; nothing is deleted when
      no user remains; otherwise one DeleteUsers call removes exactly the
      remaining users, and only if it succeeds and home directories are
      wanted, each of their homes is deleted in turn; the sweep then fails
      exactly when some home deletion was refused. Admin is never deleted. */
  lemma SweepOutcome(c: Client, k: Caches, w: World, deleteHomeDirectory: bool, deleting: seq<string>)
    requires c.Remote? && CachesWF(k) && ValidSweepOrder(c, k, w, deleting)
    ensures var l := AllUserNames(c, k, w);
            var r := Sweep(c, k, w, deleteHomeDirectory, deleting);
      && Follows(w, r.world)
      && (l.result.Err? ==> r.result == Err(Wrapped("failed to list all user names.", l.result.error))
                            && Since(w, r.world) == [ListUsers])
      && (l.result.Ok? ==>
            && (forall u :: u in deleting ==> Lower(u) != "admin" && GoGet(k.appeared, Lower(u)) == "")
            && ToSet(deleting) == Remaining(l.result.value, k.appeared)
            && var listing := if k.userNames.None? then [ListUsers] else [];
            if deleting == [] then r.result.Ok? && Since(w, r.world) == listing
            else if DeleteUsers(deleting) in w.failing then
              r.result == Err(CallFailed(DeleteUsers(deleting)))
              && Since(w, r.world) == listing + [DeleteUsers(deleting)]
            else
              && r.world.state.users == RemoveAll(w.state.users, deleting)
              && Since(w, r.world) == listing + [DeleteUsers(deleting)]
                                     + (if deleteHomeDirectory then HomeCalls(deleting) else [])
              && (r.result.Ok? <==> !deleteHomeDirectory || Refusals(deleting, w.failing) == 0))
  {
    var l := AllUserNames(c, k, w);
    AllUserNamesSound(c, k, w);
    if l.result.Ok? {
      var m := l.result.value;
      forall u | u in deleting
        ensures Lower(u) != "admin" && GoGet(k.appeared, Lower(u)) == ""
      {
        assert u in ToSet(deleting);
        RemainingByName(m, k.appeared, u);
      }
      if deleting != [] {
        SweepDeletes(c, w, l.world, deleteHomeDirectory, deleting);
      }
    }
  }

  /** The deletion half of a sweep, after the listing: one DeleteUsers
      call, refused exactly when it fails, then one home-folder deletion
      per user when asked for. */
  lemma SweepDeletes(c: Client, w: World, wl: World, deleteHomeDirectory: bool, deleting: seq<string>)
    requires c.Remote? && deleting != [] && Follows(w, wl) && wl.state == w.state
    ensures var x := Transmit(c, wl, DeleteUsers(deleting));
      var final := if x.reply.Refused? || !deleteHomeDirectory then x.world
                   else DeleteHomes(c, x.world, deleting, 0).world;
      && Follows(w, final)
      && (x.reply.Refused? <==> DeleteUsers(deleting) in w.failing)
      && (x.reply.Refused? ==> Since(w, final) == Since(w, wl) + [DeleteUsers(deleting)])
      && (!x.reply.Refused? ==>
            && final.state.users == RemoveAll(w.state.users, deleting)
            && Since(w, final) == Since(w, wl) + [DeleteUsers(deleting)]
                                  + (if deleteHomeDirectory then HomeCalls(deleting) else [])
            && (deleteHomeDirectory ==>
                  DeleteHomes(c, x.world, deleting, 0).failures == Refusals(deleting, w.failing)))
  {
    DirectoryClientRejectsEmptyDeletion(c.directory, wl, DeleteUsers(deleting));
    var x := Transmit(c, wl, DeleteUsers(deleting));
    TransmitFollows(c, wl, DeleteUsers(deleting));
    FollowsTrans(w, wl, x.world);
    if !x.reply.Refused? && deleteHomeDirectory {
      DeleteHomesCounts(c, x.world, deleting, 0);
      FollowsTrans(w, x.world, DeleteHomes(c, x.world, deleting, 0).world);
    }
  }

  // ---------------------------------------------------------------------------
  // Through the dry-run client no error is a refused write

  lemma ResolveUserNoWriteFailure(o: Options, c: Client, k: Caches, w: World, user: string, password: string)
    requires c.ForValidation?
    ensures var r := ResolveUser(o, c, k, w, user, password);
      r.result.Err? ==> !WriteFailure(r.result.error)
  {
    var l := AllUserNames(c, k, w);
    if l.result.Ok? {
      ValidationRefusesOnlyReads(c, l.world, CreateUser(user, password));
    }
  }

  lemma ResolveRoleNoWriteFailure(o: Options, c: Client, k: Caches, w: World, role: string)
    requires c.ForValidation?
    ensures var r := ResolveRole(o, c, k, w, role);
      r.result.Err? ==> !WriteFailure(r.result.error)
  {
    var l := AllRoleNames(c, k, w);
    if l.result.Ok? {
      ValidationRefusesOnlyReads(c, l.world, CreateRole(role));
    }
  }

  lemma {:induction false} AssignLoopNoWriteFailure(o: Options, c: Client, k: Caches, w: World, roles: seq<string>,
                                                    current: seq<string>, acc: seq<string>)
    requires c.ForValidation?
    ensures var r := AssignLoop(o, c, k, w, roles, current, acc);
      r.result.Err? ==> !WriteFailure(r.result.error)
    decreases |roles|
  {
    if roles == [] {
    } else if roles[0] == "" {
      AssignLoopNoWriteFailure(o, c, k, w, roles[1..], current, acc);
    } else {
      var r := ResolveRole(o, c, k, w, roles[0]);
      ResolveRoleNoWriteFailure(o, c, k, w, roles[0]);
      if r.result.Ok? {
        var fixed := r.result.value;
        AssignLoopNoWriteFailure(o, c, r.caches, r.world, roles[1..], current,
                                 if fixed in current then acc else acc + [fixed]);
      }
    }
  }

  lemma {:induction false} MatchesAnyNoWriteFailure(o: Options, c: Client, k: Caches, w: World,
                                                    desired: seq<string>, role: string)
    requires c.ForValidation?
    ensures var r := MatchesAny(o, c, k, w, desired, role);
      r.result.Err? ==> !WriteFailure(r.result.error)
    decreases |desired|
  {
    if desired != [] {
      var r := ResolveRole(o, c, k, w, desired[0]);
      ResolveRoleNoWriteFailure(o, c, k, w, desired[0]);
      if r.result.Ok? && r.result.value != role {
        MatchesAnyNoWriteFailure(o, c, r.caches, r.world, desired[1..], role);
      }
    }
  }

  lemma {:induction false} RemoveLoopNoWriteFailure(o: Options, c: Client, k: Caches, w: World, fixedUser: string,
                                                    desired: seq<string>, current: seq<string>, acc: seq<string>)
    requires c.ForValidation?
    ensures var r := RemoveLoop(o, c, k, w, fixedUser, desired, current, acc);
      r.result.Err? ==> !WriteFailure(r.result.error)
    decreases |current|
  {
    if current == [] {
    } else if current[0] == "Authenticated" {
      RemoveLoopNoWriteFailure(o, c, k, w, fixedUser, desired, current[1..], acc);
    } else {
      var role := current[0];
      var m := MatchesAny(o, c, k, w, desired, role);
      MatchesAnyNoWriteFailure(o, c, k, w, desired, role);
      if m.result.Ok? {
        if m.result.value {
          RemoveLoopNoWriteFailure(o, c, m.caches, m.world, fixedUser, desired, current[1..], acc);
        } else if !(fixedUser == "admin" && role == "Administrator") {
          RemoveLoopNoWriteFailure(o, c, m.caches, m.world, fixedUser, desired, current[1..], acc + [role]);
        }
      }
    }
  }

  /** Import of one row through the dry-run client fails only on a refused
      listing or on a check of the importer itself (a case mismatch, a
      missing role, the protected Administrator role), never because a
      write was refused: the decorator answers every write with success. */
  lemma ValidationImportNeverFailsAWrite(o: Options, c: Client, k: Caches, w: World, user: string, password: string,
                                          roles: seq<string>)
    requires c.ForValidation?
    ensures var r := Import(o, c, k, w, user, password, roles);
      r.result.Err? ==> !WriteFailure(r.result.error)
  {
    var k1 := k.(appeared := k.appeared[Lower(user) := user]);
    var u := ResolveUser(o, c, k1, w, user, password);
    ResolveUserNoWriteFailure(o, c, k1, w, user, password);
    if u.result.Ok? {
      var fixedUser := u.result.value;
      var p := SendIfAny(c, u.world, UpdatePassword(user, password), o.updatePassword);
      ValidationRefusesOnlyReads(c, u.world, UpdatePassword(user, password));
      var l := Transmit(c, p.world, ListRolesForUser(fixedUser));
      if !p.reply.Refused? && !l.reply.Refused? {
        var a := AssignLoop(o, c, u.caches, l.world, roles, l.reply.names, []);
        AssignLoopNoWriteFailure(o, c, u.caches, l.world, roles, l.reply.names, []);
        if a.result.Ok? {
          var assigning := a.result.value;
          var x := SendIfAny(c, a.world, AssignRolesToUser(fixedUser, assigning), |assigning| > 0);
          ValidationRefusesOnlyReads(c, a.world, AssignRolesToUser(fixedUser, assigning));
          if !x.reply.Refused? {
            var r := RemoveLoop(o, c, a.caches, x.world, fixedUser, roles, l.reply.names, []);
            RemoveLoopNoWriteFailure(o, c, a.caches, x.world, fixedUser, roles, l.reply.names, []);
            if r.result.Ok? {
              ValidationRefusesOnlyReads(c, r.world, RemoveRolesFromUser(fixedUser, r.result.value));
            }
          }
        }
      }
    }
  }
}
