/** The role-permission editor of cmd/roles.go: a fixed table of seven
    permissions, each with a short name and a logical name, lookups in both
    directions, and the commands that read the server's logical role map and
    send a role's new permission list back. */
module Roles {
  import opened Strings
  import opened Errors

  // ---------------------------------------------------------------------------
  // The permission table

  /** The seven permissions of the table. */
  datatype Permission =
    | Execute | DataSourceManagement | ContentRead | ContentCreate
    | ContentSchedule | SecurityAdministration | ContentPublish
  {
    /** The short name the commands accept. */
    function Name(): string {
      match this
      case Execute => "execute"
      case DataSourceManagement => "datasource"
      case ContentRead => "content-read"
      case ContentCreate => "content-create"
      case ContentSchedule => "schedule"
      case SecurityAdministration => "security"
      case ContentPublish => "publish"
    }

    /** The logical role name the server stores. */
    function LogicalName(): string {
      match this
      case Execute => "org.pentaho.repository.execute"
      case DataSourceManagement => "org.pentaho.platform.dataaccess.datasource.security.manage"
      case ContentRead => "org.pentaho.repository.read"
      case ContentCreate => "org.pentaho.repository.create"
      case ContentSchedule => "org.pentaho.scheduler.manage"
      case SecurityAdministration => "org.pentaho.security.administerSecurity"
      case ContentPublish => "org.pentaho.security.publish"
    }
  }

  /** The table, in declaration order. */
  const AllPermissions: seq<Permission> := [
    Execute, DataSourceManagement, ContentRead, ContentCreate,
    ContentSchedule, SecurityAdministration, ContentPublish
  ]

  /** The first entry from index i on whose short name is name, if any. */
  function NameFrom(name: string, i: nat): Option<Permission>
    decreases |AllPermissions| - i
  {
    if i >= |AllPermissions| then None
    else if AllPermissions[i].Name() == name then Some(AllPermissions[i])
    else NameFrom(name, i + 1)
  }

  /** The first entry from index i on whose logical name is logicalName, if
      any. */
  function LogicalNameFrom(logicalName: string, i: nat): Option<Permission>
    decreases |AllPermissions| - i
  {
    if i >= |AllPermissions| then None
    else if AllPermissions[i].LogicalName() == logicalName then Some(AllPermissions[i])
    else LogicalNameFrom(logicalName, i + 1)
  }

  /** getPermissionFromName: the first entry of the table with that short
      name, if any. */
  function PermissionFromName(name: string): Option<Permission> {
    NameFrom(name, 0)
  }

  /** getPermissionFromLogicalName: the first entry of the table with that
      logical name, if any. */
  function PermissionFromLogicalName(logicalName: string): Option<Permission> {
    LogicalNameFrom(logicalName, 0)
  }

  /** The name search from i finds an entry exactly when one from i on has
      that short name, and the entry it finds has that name. */
  lemma {:induction false} NameFromFinds(name: string, i: nat)
    ensures NameFrom(name, i).Some? <==> exists j :: i <= j < |AllPermissions| && AllPermissions[j].Name() == name
    ensures NameFrom(name, i).Some? ==> NameFrom(name, i).value.Name() == name
    decreases |AllPermissions| - i
  {
    if i < |AllPermissions| {
      var p := AllPermissions[i];
      if p.Name() != name {
        NameFromFinds(name, i + 1);
        assert forall j :: i <= j < |AllPermissions| && AllPermissions[j].Name() == name ==> i + 1 <= j;
      }
    }
  }

  /** The logical-name search from i finds an entry exactly when one from i
      on has that logical name, and the entry it finds has that logical
      name. */
  lemma {:induction false} LogicalNameFromFinds(logicalName: string, i: nat)
    ensures LogicalNameFrom(logicalName, i).Some? <==>
      exists j :: i <= j < |AllPermissions| && AllPermissions[j].LogicalName() == logicalName
    ensures LogicalNameFrom(logicalName, i).Some? ==> LogicalNameFrom(logicalName, i).value.LogicalName() == logicalName
    decreases |AllPermissions| - i
  {
    if i < |AllPermissions| {
      var p := AllPermissions[i];
      if p.LogicalName() != logicalName {
        LogicalNameFromFinds(logicalName, i + 1);
        assert forall j :: i <= j < |AllPermissions| && AllPermissions[j].LogicalName() == logicalName ==> i + 1 <= j;
      }
    }
  }

  /** Every permission is in the table, once. */
  lemma PermissionTableComplete()
    ensures forall p: Permission :: p in AllPermissions
    ensures Distinct(AllPermissions)
  {
    forall p: Permission
      ensures p in AllPermissions
    {
      match p
      case Execute => assert AllPermissions[0] == p;
      case DataSourceManagement => assert AllPermissions[1] == p;
      case ContentRead => assert AllPermissions[2] == p;
      case ContentCreate => assert AllPermissions[3] == p;
      case ContentSchedule => assert AllPermissions[4] == p;
      case SecurityAdministration => assert AllPermissions[5] == p;
      case ContentPublish => assert AllPermissions[6] == p;
    }
  }

  /** No two permissions share a short name or a logical name. */
  lemma NamesIdentify(p: Permission, q: Permission)
    ensures p.Name() == q.Name() ==> p == q
    ensures p.LogicalName() == q.LogicalName() ==> p == q
  {
    ShortNamesIdentify(p, q);
    LogicalNamesIdentify(p, q);
  }

  lemma ShortNamesIdentify(p: Permission, q: Permission)
    ensures p.Name() == q.Name() ==> p == q
  {
  }

  lemma LogicalNamesIdentify(p: Permission, q: Permission)
    ensures p.LogicalName() == q.LogicalName() ==> p == q
  {
  }

  /** Where a permission sits in the table. */
  function Position(p: Permission): (i: nat)
    ensures i < |AllPermissions| && AllPermissions[i] == p
  {
    match p
    case Execute => 0
    case DataSourceManagement => 1
    case ContentRead => 2
    case ContentCreate => 3
    case ContentSchedule => 4
    case SecurityAdministration => 5
    case ContentPublish => 6
  }

  /** A lookup that succeeds returns a permission with the field looked up. */
  lemma LookupsSound()
    ensures forall name :: PermissionFromName(name).Some? ==> PermissionFromName(name).value.Name() == name
    ensures forall logicalName :: PermissionFromLogicalName(logicalName).Some? ==>
      PermissionFromLogicalName(logicalName).value.LogicalName() == logicalName
  {
    forall name | PermissionFromName(name).Some?
      ensures PermissionFromName(name).value.Name() == name
    {
      NameFromFinds(name, 0);
    }
    forall logicalName | PermissionFromLogicalName(logicalName).Some?
      ensures PermissionFromLogicalName(logicalName).value.LogicalName() == logicalName
    {
      LogicalNameFromFinds(logicalName, 0);
    }
  }

  /** Each lookup finds exactly the permission with that field, so the short
      name and the logical name of every permission lead back to it. */
  lemma PermissionLookupsRoundTrip(p: Permission)
    ensures PermissionFromName(p.Name()) == Some(p)
    ensures PermissionFromLogicalName(p.LogicalName()) == Some(p)
  {
    NameLookupFinds(p);
    LogicalNameLookupFinds(p);
  }

  lemma NameLookupFinds(p: Permission)
    ensures PermissionFromName(p.Name()) == Some(p)
  {
    NameFromFinds(p.Name(), 0);
    assert AllPermissions[Position(p)].Name() == p.Name();
    ShortNamesIdentify(p, PermissionFromName(p.Name()).value);
  }

  lemma LogicalNameLookupFinds(p: Permission)
    ensures PermissionFromLogicalName(p.LogicalName()) == Some(p)
  {
    LogicalNameFromFinds(p.LogicalName(), 0);
    assert AllPermissions[Position(p)].LogicalName() == p.LogicalName();
    LogicalNamesIdentify(p, PermissionFromLogicalName(p.LogicalName()).value);
  }

  /** A known short name, turned into its logical name and looked up again,
      gives the same permission; a name is unknown exactly when no
      permission has it. */
  lemma NameToLogicalNameRoundTrip(name: string)
    ensures PermissionFromName(name).Some? ==>
      PermissionFromLogicalName(PermissionFromName(name).value.LogicalName()) == PermissionFromName(name)
    ensures PermissionFromName(name).None? <==> forall p: Permission :: p.Name() != name
  {
    PermissionTableComplete();
    NameFromFinds(name, 0);
    if PermissionFromName(name).Some? {
      PermissionLookupsRoundTrip(PermissionFromName(name).value);
    }
    forall p: Permission | p.Name() == name
      ensures PermissionFromName(name).Some?
    {
      PermissionLookupsRoundTrip(p);
    }
  }

  /** getAvailablePermissionNames: the short names of the table, in order. */
  method AvailablePermissionNames() returns (names: seq<string>)
    ensures |names| == |AllPermissions|
    ensures forall i :: 0 <= i < |names| ==> names[i] == AllPermissions[i].Name()
  {
    names := [];
    for i := 0 to |AllPermissions|
      invariant |names| == i
      invariant forall k :: 0 <= k < i ==> names[k] == AllPermissions[k].Name()
    {
      names := names + [AllPermissions[i].Name()];
    }
  }

  /** Every available name is known to the lookup, and every name the lookup
      knows is available. */
  lemma AvailableNamesAreKnown(names: seq<string>, name: string)
    requires |names| == |AllPermissions|
    requires forall i :: 0 <= i < |names| ==> names[i] == AllPermissions[i].Name()
    ensures name in names <==> PermissionFromName(name).Some?
  {
    NameFromFinds(name, 0);
    if name in names {
      var i :| 0 <= i < |names| && names[i] == name;
      assert AllPermissions[i].Name() == name;
    }
    if PermissionFromName(name).Some? {
      var i :| 0 <= i < |AllPermissions| && AllPermissions[i].Name() == name;
      assert names[i] == name;
    }
  }

  // ---------------------------------------------------------------------------
  // Roles

  /** One entry of the server's logical role map. */
  datatype Assignment = Assignment(immutable: string, logicalRoles: seq<string>, roleName: string)

  datatype Role = Role(name: string, permissions: seq<Permission>, immutable: bool)

  /** Every logical name is in the table (newRole dereferences the lookup
      without a check, so an unknown one would crash it). */
  predicate Known(logicalRoles: seq<string>) {
    forall i :: 0 <= i < |logicalRoles| ==> PermissionFromLogicalName(logicalRoles[i]).Some?
  }

  /** newRole: the assignment's name, its logical names turned into
      permissions in order, and immutable exactly when the field is "true". */
  function NewRole(a: Assignment): (r: Role)
    requires Known(a.logicalRoles)
    ensures r.name == a.roleName
    ensures r.immutable <==> a.immutable == "true"
    ensures |r.permissions| == |a.logicalRoles|
    ensures forall i :: 0 <= i < |r.permissions| ==>
      r.permissions[i] in AllPermissions && r.permissions[i].LogicalName() == a.logicalRoles[i]
  {
    LookupsSound();
    PermissionTableComplete();
    var permissions := seq(|a.logicalRoles|, i requires 0 <= i < |a.logicalRoles| =>
                            PermissionFromLogicalName(a.logicalRoles[i]).value);
    Role(a.roleName, permissions, a.immutable == "true")
  }

  /** The logical names a role holds, as a set. */
  function Held(r: Role): set<string> {
    set p | p in r.permissions :: p.LogicalName()
  }

  /** A role built from an assignment holds exactly its logical names. */
  lemma NewRoleHolds(a: Assignment)
    requires Known(a.logicalRoles)
    ensures Held(NewRole(a)) == ToSet(a.logicalRoles)
  {
    var r := NewRole(a);
    forall l | l in ToSet(a.logicalRoles)
      ensures l in Held(r)
    {
      var i :| 0 <= i < |a.logicalRoles| && a.logicalRoles[i] == l;
      assert r.permissions[i] in r.permissions;
    }
  }

  /** The roles of the entries, in order. */
  function NewRoles(assignments: seq<Assignment>): (roles: seq<Role>)
    requires forall a :: a in assignments ==> Known(a.logicalRoles)
    ensures |roles| == |assignments|
    ensures forall i :: 0 <= i < |roles| ==> roles[i] == NewRole(assignments[i])
    decreases |assignments|
  {
    if assignments == [] then []
    else
      assert forall i :: 1 <= i < |assignments| ==> assignments[i] == assignments[1..][i - 1];
      [NewRole(assignments[0])] + NewRoles(assignments[1..])
  }

  /** FindAllRoles: the listing's failure, or every entry of the map as a
      role, in order. */
  function AllRoles(listing: Option<seq<Assignment>>): (r: Result<seq<Role>>)
    requires listing.Some? ==> forall a :: a in listing.value ==> Known(a.logicalRoles)
    ensures r.Err? <==> listing.None?
    ensures r.Ok? ==> (|r.value| == |listing.value|
      && forall i :: 0 <= i < |r.value| ==> r.value[i] == NewRole(listing.value[i]))
  {
    match listing
    case None => Err(PermissionListingFailed)
    case Some(assignments) => Ok(NewRoles(assignments))
  }

  /** The role names are compared lower-cased. */
  predicate Matches(a: Assignment, role: string) {
    Lower(a.roleName) == Lower(role)
  }

  /** The index of the first entry from from on whose name matches role, or
      |assignments| when none does. */
  function FirstMatch(assignments: seq<Assignment>, role: string, from: nat): (i: nat)
    requires from <= |assignments|
    ensures from <= i <= |assignments|
    ensures i < |assignments| ==> Matches(assignments[i], role)
    ensures forall j :: from <= j < i ==> !Matches(assignments[j], role)
    decreases |assignments| - from
  {
    if from == |assignments| then from
    else if Matches(assignments[from], role) then from
    else FirstMatch(assignments, role, from + 1)
  }

  /** The assignment FindRole builds its role from must be known. */
  predicate FoundKnown(listing: Option<seq<Assignment>>, role: string) {
    listing.Some? ==>
      var i := FirstMatch(listing.value, role, 0);
      i < |listing.value| ==> Known(listing.value[i].logicalRoles)
  }

  /** FindRole: the listing's failure; otherwise the role of the first entry
      whose name matches case-insensitively, or none. */
  function FindRole(listing: Option<seq<Assignment>>, role: string): Result<Option<Role>>
    requires FoundKnown(listing, role)
  {
    match listing
    case None => Err(PermissionListingFailed)
    case Some(assignments) =>
      var i := FirstMatch(assignments, role, 0);
      if i == |assignments| then Ok(None) else Ok(Some(NewRole(assignments[i])))
  }

  /** FindRole fails only when the listing does; it finds nothing exactly when
      no name matches in any case; otherwise it returns the first entry that
      matches, and an entry whose name differs from role only in case is
      found. */
  lemma FindRoleFirstMatch(listing: Option<seq<Assignment>>, role: string)
    requires FoundKnown(listing, role)
    ensures FindRole(listing, role).Err? <==> listing.None?
    ensures listing.Some? ==>
      && (FindRole(listing, role) == Ok(None) <==> forall a :: a in listing.value ==> !Matches(a, role))
      && (FindRole(listing, role).Ok? && FindRole(listing, role).value.Some? ==>
            exists i :: 0 <= i < |listing.value|
              && Lower(listing.value[i].roleName) == Lower(role)
              && Known(listing.value[i].logicalRoles)
              && FindRole(listing, role).value.value == NewRole(listing.value[i])
              && forall j :: 0 <= j < i ==> Lower(listing.value[j].roleName) != Lower(role))
  {
    if listing.Some? {
      var assignments := listing.value;
      var i := FirstMatch(assignments, role, 0);
      if i == |assignments| {
        forall a | a in assignments
          ensures !Matches(a, role)
        {
          var k :| 0 <= k < |assignments| && assignments[k] == a;
        }
      } else {
        assert assignments[i] in assignments;
      }
    }
  }

  // ---------------------------------------------------------------------------
  // The permission server

  /** A permission list sent for a role (AssignPermissionsToRole). */
  datatype Grant = Grant(role: string, permissions: seq<string>)

  /** The server as the editor sees it: its logical role map, whether it
      refuses the listing or the assignment, and the grants sent to it. */
  datatype RoleServer = RoleServer(assignments: seq<Assignment>, listingRefused: bool,
                                   assignmentRefused: bool, grants: seq<Grant>)

  /** What a command returns and leaves behind. */
  datatype Applied = Applied(result: Result<()>, server: RoleServer)

  function Listing(s: RoleServer): Option<seq<Assignment>> {
    if s.listingRefused then None else Some(s.assignments)
  }

  /** AssignPermissionsToRole: the grant is recorded; a refusal is an error. */
  function Assign(s: RoleServer, role: string, permissions: seq<string>): Applied {
    Applied(if s.assignmentRefused then Err(PermissionAssignmentFailed) else Ok(()),
            s.(grants := s.grants + [Grant(role, permissions)]))
  }

  class RoleService {
    var assignments: seq<Assignment>
    var listingRefused: bool
    var assignmentRefused: bool
    var grants: seq<Grant>

    function Snapshot(): RoleServer
      reads this
    {
      RoleServer(assignments, listingRefused, assignmentRefused, grants)
    }

    /** ListPermissionsForRoles. */
    method ListPermissionsForRoles() returns (listing: Option<seq<Assignment>>)
      ensures listing == Listing(Snapshot())
    {
      if listingRefused {
        listing := None;
      } else {
        listing := Some(assignments);
      }
    }

    /** AssignPermissionsToRole. */
    method AssignPermissionsToRole(role: string, permissions: seq<string>) returns (r: Result<()>)
      modifies this
      ensures Applied(r, Snapshot()) == Assign(old(Snapshot()), role, permissions)
    {
      grants := grants + [Grant(role, permissions)];
      if assignmentRefused {
        r := Err(PermissionAssignmentFailed);
      } else {
        r := Ok(());
      }
    }
  }

  // ---------------------------------------------------------------------------
  // SetPermissionsOfRole

  /** The logical names of the short names, in order, or the first unknown
      short name. */
  function LogicalNames(names: seq<string>): (r: Result<seq<string>>)
    ensures r.Ok? <==> forall i :: 0 <= i < |names| ==> PermissionFromName(names[i]).Some?
    ensures r.Ok? ==> (|r.value| == |names|
      && forall i :: 0 <= i < |names| ==> r.value[i] == PermissionFromName(names[i]).value.LogicalName())
    decreases |names|
  {
    if names == [] then Ok([])
    else match PermissionFromName(names[0])
      case None => Err(UnknownPermission(names[0]))
      case Some(p) =>
        var rest := LogicalNames(names[1..]);
        assert forall i :: 1 <= i < |names| ==> names[i] == names[1..][i - 1];
        if rest.Err? then Err(rest.error) else Ok([p.LogicalName()] + rest.value)
  }

  /** SetPermissionsOfRole: every short name translated, in order, then one
      grant of the logical names; an unknown name is an error. */
  function SetPermissions(s: RoleServer, role: string, names: seq<string>): Applied {
    match LogicalNames(names)
    case Err(e) => Applied(Err(e), s)
    case Ok(logicalNames) => Assign(s, role, logicalNames)
  }

  /** An unknown short name sends nothing; otherwise exactly one grant is
      sent, naming the role and the logical names in argument order. */
  lemma SetPermissionsSendsOnce(s: RoleServer, role: string, names: seq<string>)
    ensures var a := SetPermissions(s, role, names);
      && (a.server == s <==> exists i :: 0 <= i < |names| && PermissionFromName(names[i]).None?)
      && (a.result.Err? && a.result.error.UnknownPermission? ==> a.server == s)
      && (a.server != s ==>
            && a.server == s.(grants := s.grants + [Grant(role, LogicalNames(names).value)])
            && |LogicalNames(names).value| == |names|)
  {
    var a := SetPermissions(s, role, names);
    if LogicalNames(names).Ok? {
      assert |a.server.grants| == |s.grants| + 1;
    }
  }

  /** The first unknown name is the one LogicalNames reports. */
  lemma {:induction false} LogicalNamesFirstUnknown(names: seq<string>, i: nat)
    requires i < |names| && PermissionFromName(names[i]).None?
    requires forall k :: 0 <= k < i ==> PermissionFromName(names[k]).Some?
    ensures LogicalNames(names) == Err(UnknownPermission(names[i]))
    decreases i
  {
    if i > 0 {
      assert forall k :: 0 <= k < i - 1 ==> names[1..][k] == names[k + 1];
      LogicalNamesFirstUnknown(names[1..], i - 1);
    }
  }

  /** With every name known, LogicalNames is the list of their logical names. */
  lemma {:induction false} LogicalNamesAllKnown(names: seq<string>, logicalNames: seq<string>)
    requires forall k :: 0 <= k < |names| ==> PermissionFromName(names[k]).Some?
    requires |logicalNames| == |names|
    requires forall k :: 0 <= k < |names| ==> logicalNames[k] == PermissionFromName(names[k]).value.LogicalName()
    ensures LogicalNames(names) == Ok(logicalNames)
    decreases |names|
  {
    if names != [] {
      assert forall k :: 1 <= k < |names| ==> names[k] == names[1..][k - 1] && logicalNames[k] == logicalNames[1..][k - 1];
      LogicalNamesAllKnown(names[1..], logicalNames[1..]);
      assert logicalNames == [logicalNames[0]] + logicalNames[1..];
    }
  }

  /** Translating one more known name extends the translated prefix. */
  lemma LogicalNamesSnoc(names: seq<string>, i: nat)
    requires i < |names| && LogicalNames(names[..i]).Ok? && PermissionFromName(names[i]).Some?
    ensures LogicalNames(names[..i + 1])
         == Ok(LogicalNames(names[..i]).value + [PermissionFromName(names[i]).value.LogicalName()])
  {
    var prefix := names[..i + 1];
    var ps := LogicalNames(names[..i]).value + [PermissionFromName(names[i]).value.LogicalName()];
    forall k | 0 <= k < i + 1
      ensures PermissionFromName(prefix[k]).Some?
      ensures ps[k] == PermissionFromName(prefix[k]).value.LogicalName()
    {
      if k < i {
        assert prefix[k] == names[..i][k];
      }
    }
    LogicalNamesAllKnown(prefix, ps);
  }

  /** An unknown name after a translated prefix is the error reported. */
  lemma LogicalNamesStop(names: seq<string>, i: nat)
    requires i < |names| && LogicalNames(names[..i]).Ok? && PermissionFromName(names[i]).None?
    ensures LogicalNames(names) == Err(UnknownPermission(names[i]))
  {
    forall k | 0 <= k < i
      ensures PermissionFromName(names[k]).Some?
    {
      assert names[k] == names[..i][k];
    }
    LogicalNamesFirstUnknown(names, i);
  }

  method SetPermissionsOfRole(service: RoleService, role: string, names: seq<string>) returns (r: Result<()>)
    modifies service
    ensures Applied(r, service.Snapshot()) == SetPermissions(old(service.Snapshot()), role, names)
  {
    var permissionNames := [];
    for i := 0 to |names|
      invariant LogicalNames(names[..i]) == Ok(permissionNames)
      modifies {}
    {
      var p := PermissionFromName(names[i]);
      if p.None? {
        LogicalNamesStop(names, i);
        return Err(UnknownPermission(names[i]));
      }
      LogicalNamesSnoc(names, i);
      permissionNames := permissionNames + [p.value.LogicalName()];
    }
    assert names[..|names|] == names;
    r := service.AssignPermissionsToRole(role, permissionNames);
  }

  // ---------------------------------------------------------------------------
  // addOrRemovePermissionsFromRole

  /** The permission loop: each short name in turn must be known, and, when
      adding, not held yet (not even by an earlier name of the same call);
      when removing, held. The first failure is returned. */
  function Edit(add: bool, role: string, held: set<string>, names: seq<string>): (r: Result<set<string>>)
    ensures r.Err? ==> match r.error
      case UnknownPermission(n) => n in names
      case AlreadyHasPermission(ro, n) => add && ro == role && n in names
      case LacksPermission(ro, n) => !add && ro == role && n in names
      case _ => false
    decreases |names|
  {
    if names == [] then Ok(held)
    else match PermissionFromName(names[0])
      case None => Err(UnknownPermission(names[0]))
      case Some(p) =>
        if add then
          if p.LogicalName() in held then Err(AlreadyHasPermission(role, p.Name()))
          else Edit(add, role, held + {p.LogicalName()}, names[1..])
        else
          if p.LogicalName() !in held then Err(LacksPermission(role, p.Name()))
          else Edit(add, role, held - {p.LogicalName()}, names[1..])
  }

  /** The logical names of known short names. */
  function LogicalSet(names: seq<string>): set<string> {
    set n | n in names && PermissionFromName(n).Some? :: PermissionFromName(n).value.LogicalName()
  }

  /** The condition under which the permission loop succeeds. */
  predicate EditAllowed(add: bool, held: set<string>, names: seq<string>) {
    && (forall n :: n in names ==> PermissionFromName(n).Some?)
    && Distinct(names)
    && (add ==> forall n :: n in names ==> PermissionFromName(n).value.LogicalName() !in held)
    && (!add ==> forall n :: n in names ==> PermissionFromName(n).value.LogicalName() in held)
  }

  /** Two known short names with the same logical name are the same name. */
  lemma LogicalNameInjective(m: string, n: string)
    requires PermissionFromName(m).Some? && PermissionFromName(n).Some?
    requires PermissionFromName(m).value.LogicalName() == PermissionFromName(n).value.LogicalName()
    ensures m == n
  {
    LookupsSound();
    LogicalNamesIdentify(PermissionFromName(m).value, PermissionFromName(n).value);
  }

  /** EditAllowed, one name at a time: the first name must be known, held or
      not as the operation asks, and the rest must be allowed against the
      set with it added or removed. */
  lemma EditAllowedCons(add: bool, held: set<string>, names: seq<string>)
    requires names != [] && PermissionFromName(names[0]).Some?
    ensures var l := PermissionFromName(names[0]).value.LogicalName();
      EditAllowed(add, held, names) <==>
        && (if add then l !in held else l in held)
        && EditAllowed(add, if add then held + {l} else held - {l}, names[1..])
  {
    var l := PermissionFromName(names[0]).value.LogicalName();
    if EditAllowed(add, held, names) {
      EditAllowedTail(add, held, names);
    }
    if (if add then l !in held else l in held) && EditAllowed(add, if add then held + {l} else held - {l}, names[1..]) {
      EditAllowedOfTail(add, held, names);
    }
  }

  lemma EditAllowedTail(add: bool, held: set<string>, names: seq<string>)
    requires names != [] && EditAllowed(add, held, names)
    ensures var l := PermissionFromName(names[0]).value.LogicalName();
      && (if add then l !in held else l in held)
      && EditAllowed(add, if add then held + {l} else held - {l}, names[1..])
  {
    var rest := names[1..];
    var l := PermissionFromName(names[0]).value.LogicalName();
    assert names == [names[0]] + rest;
    assert forall n :: n in rest ==> n in names;
    forall k | 0 <= k < |rest|
      ensures rest[k] != names[0]
    {
      assert rest[k] == names[k + 1];
    }
    forall n | n in rest
      ensures PermissionFromName(n).value.LogicalName() != l
    {
      if PermissionFromName(n).value.LogicalName() == l {
        LogicalNameInjective(n, names[0]);
      }
    }
    assert Distinct(rest) by {
      forall i, j | 0 <= i < j < |rest|
        ensures rest[i] != rest[j]
      {
        assert rest[i] == names[i + 1] && rest[j] == names[j + 1];
      }
    }
  }

  lemma EditAllowedOfTail(add: bool, held: set<string>, names: seq<string>)
    requires names != [] && PermissionFromName(names[0]).Some?
    requires var l := PermissionFromName(names[0]).value.LogicalName();
      && (if add then l !in held else l in held)
      && EditAllowed(add, if add then held + {l} else held - {l}, names[1..])
    ensures EditAllowed(add, held, names)
  {
    var rest := names[1..];
    var l := PermissionFromName(names[0]).value.LogicalName();
    assert names == [names[0]] + rest;
    assert forall n :: n in names <==> n == names[0] || n in rest;
    forall n | n in rest
      ensures n != names[0]
    {
      assert PermissionFromName(n).value.LogicalName() != l;
    }
    forall i, j | 0 <= i < j < |names|
      ensures names[i] != names[j]
    {
      if i > 0 {
        assert names[i] == rest[i - 1] && names[j] == rest[j - 1];
      } else {
        assert names[j] in rest;
      }
    }
  }

  /** The permission loop succeeds exactly when every name is known, no name
      is given twice, and, when adding, none is held yet, when removing, all
      are held; the set it leaves is then the held set with the new logical
      names added, or with them removed. */
  lemma {:induction false} EditOutcome(add: bool, role: string, held: set<string>, names: seq<string>)
    ensures Edit(add, role, held, names).Ok? <==> EditAllowed(add, held, names)
    ensures Edit(add, role, held, names).Ok? ==>
      Edit(add, role, held, names).value == if add then held + LogicalSet(names) else held - LogicalSet(names)
    decreases |names|
  {
    if names == [] {
      assert LogicalSet(names) == {};
    } else {
      var rest := names[1..];
      assert forall n :: n in names <==> n == names[0] || n in rest;
      if PermissionFromName(names[0]).Some? {
        var l := PermissionFromName(names[0]).value.LogicalName();
        var held' := if add then held + {l} else held - {l};
        EditAllowedCons(add, held, names);
        EditOutcome(add, role, held', rest);
        assert LogicalSet(names) == {l} + LogicalSet(rest);
        if Edit(add, role, held, names).Ok? && !add {
          forall n | n in rest && PermissionFromName(n).Some?
            ensures PermissionFromName(n).value.LogicalName() != l
          {
          }
          assert l !in LogicalSet(rest);
        }
      }
    }
  }

  /** order is a walk of the set the permission loop leaves, when the
      command gets that far (the grant lists it in mapset's ToSlice order,
      which the set does not fix). */
  ghost predicate ValidOrder(s: RoleServer, add: bool, role: string, names: seq<string>, order: seq<string>)
    requires FoundKnown(Listing(s), role)
  {
    var found := FindRole(Listing(s), role);
    found.Ok? && found.value.Some? && !found.value.value.immutable
    && Edit(add, role, Held(found.value.value), names).Ok?
    ==> Enumerates(order, Edit(add, role, Held(found.value.value), names).value)
  }

  /** addOrRemovePermissionsFromRole: find the role (its listing failure, a
      missing role and an immutable role are errors), run the permission loop
      over its logical names, and send the resulting set as one grant, in
      the order of the walk. */
  function AddOrRemove(s: RoleServer, add: bool, role: string, names: seq<string>, order: seq<string>): Applied
    requires FoundKnown(Listing(s), role)
  {
    match FindRole(Listing(s), role)
    case Err(e) => Applied(Err(e), s)
    case Ok(None) => Applied(Err(RoleNotFound(role)), s)
    case Ok(Some(r)) =>
      if r.immutable then Applied(Err(ImmutableRole(role)), s)
      else match Edit(add, role, Held(r), names)
        case Err(e) => Applied(Err(e), s)
        case Ok(_) => Assign(s, role, order)
  }

  /** Before any grant is sent the role must be found and mutable, and the
      permission loop must succeed: every failure sends nothing. On success
      exactly one grant for the role is sent, and it lists, each once, the
      role's logical names with the new ones added or the given ones
      removed. */
  lemma AddOrRemoveOutcome(s: RoleServer, add: bool, role: string, names: seq<string>, order: seq<string>)
    requires FoundKnown(Listing(s), role)
    requires ValidOrder(s, add, role, names, order)
    ensures var a := AddOrRemove(s, add, role, names, order);
      && (s.listingRefused ==> a.result == Err(PermissionListingFailed))
      && (a.server == s <==>
            (s.listingRefused
             || FindRole(Listing(s), role) == Ok(None)
             || FindRole(Listing(s), role).value.value.immutable
             || !EditAllowed(add, Held(FindRole(Listing(s), role).value.value), names)))
      && (a.server != s ==>
            var before := Held(FindRole(Listing(s), role).value.value);
            && a.server == s.(grants := s.grants + [Grant(role, order)])
            && Distinct(order)
            && ToSet(order) == if add then before + LogicalSet(names) else before - LogicalSet(names))
  {
    var found := FindRole(Listing(s), role);
    if found.Ok? && found.value.Some? {
      EditOutcome(add, role, Held(found.value.value), names);
    }
    var a := AddOrRemove(s, add, role, names, order);
    if a.server != s {
      assert |a.server.grants| == |s.grants| + 1;
    }
  }

  /** The held set of a role, as the loop over its permissions builds it. */
  method HeldSet(r: Role) returns (held: set<string>)
    ensures held == Held(r)
  {
    held := {};
    for i := 0 to |r.permissions|
      invariant held == set p | p in r.permissions[..i] :: p.LogicalName()
    {
      assert r.permissions[..i + 1] == r.permissions[..i] + [r.permissions[i]];
      held := held + {r.permissions[i].LogicalName()};
    }
    assert r.permissions[..|r.permissions|] == r.permissions;
  }

  /** The permission loop over the held set. */
  method ApplyEdits(add: bool, role: string, held: set<string>, names: seq<string>)
    returns (r: Result<set<string>>)
    ensures r == Edit(add, role, held, names)
  {
    var s := held;
    var i := 0;
    while i < |names|
      invariant 0 <= i <= |names|
      invariant Edit(add, role, s, names[i..]) == Edit(add, role, held, names)
    {
      assert names[i..][0] == names[i] && names[i..][1..] == names[i + 1..];
      var p := PermissionFromName(names[i]);
      if p.None? {
        return Err(UnknownPermission(names[i]));
      }
      var l := p.value.LogicalName();
      if add {
        if l in s {
          return Err(AlreadyHasPermission(role, p.value.Name()));
        }
        s := s + {l};
      } else {
        if l !in s {
          return Err(LacksPermission(role, p.value.Name()));
        }
        s := s - {l};
      }
      i := i + 1;
    }
    assert names[i..] == [];
    r := Ok(s);
  }

  /** The walk of a set into a list (mapset's ToSlice): each element once,
      in an order the set does not fix. */
  method ToSlice(s: set<string>) returns (xs: seq<string>)
    ensures Enumerates(xs, s)
  {
    xs := [];
    var rest := s;
    while rest != {}
      invariant rest <= s
      invariant Distinct(xs)
      invariant ToSet(xs) == s - rest
      decreases rest
    {
      var x :| x in rest;
      assert x !in ToSet(xs);
      assert ToSet(xs + [x]) == ToSet(xs) + {x};
      xs := xs + [x];
      rest := rest - {x};
    }
  }

  method AddOrRemovePermissions(service: RoleService, add: bool, role: string, names: seq<string>)
    returns (r: Result<()>, ghost order: seq<string>)
    requires FoundKnown(Listing(service.Snapshot()), role)
    modifies service
    ensures ValidOrder(old(service.Snapshot()), add, role, names, order)
    ensures Applied(r, service.Snapshot()) == AddOrRemove(old(service.Snapshot()), add, role, names, order)
  {
    order := [];
    var listing := service.ListPermissionsForRoles();
    var found := FindRole(listing, role);
    if found.Err? {
      return Err(found.error), order;
    }
    if found.value.None? {
      return Err(RoleNotFound(role)), order;
    }
    var found_role := found.value.value;
    if found_role.immutable {
      return Err(ImmutableRole(role)), order;
    }
    var held := HeldSet(found_role);
    var edited := ApplyEdits(add, role, held, names);
    if edited.Err? {
      return Err(edited.error), order;
    }
    var logicalPermissions := ToSlice(edited.value);
    order := logicalPermissions;
    r := service.AssignPermissionsToRole(role, logicalPermissions);
  }

  /** AddPermissionsToRole. */
  method AddPermissionsToRole(service: RoleService, role: string, names: seq<string>)
    returns (r: Result<()>, ghost order: seq<string>)
    requires FoundKnown(Listing(service.Snapshot()), role)
    modifies service
    ensures ValidOrder(old(service.Snapshot()), true, role, names, order)
    ensures Applied(r, service.Snapshot()) == AddOrRemove(old(service.Snapshot()), true, role, names, order)
  {
    r, order := AddOrRemovePermissions(service, true, role, names);
  }

  /** RemovePermissionsFromRole. */
  method RemovePermissionsFromRole(service: RoleService, role: string, names: seq<string>)
    returns (r: Result<()>, ghost order: seq<string>)
    requires FoundKnown(Listing(service.Snapshot()), role)
    modifies service
    ensures ValidOrder(old(service.Snapshot()), false, role, names, order)
    ensures Applied(r, service.Snapshot()) == AddOrRemove(old(service.Snapshot()), false, role, names, order)
  {
    r, order := AddOrRemovePermissions(service, false, role, names);
  }
}
