/** The drivers of batch/batch.go: exporting the users with their roles,
    deleting a list of users, and importing a user file in two passes (a
    validation pass through the dry-run client, then the real pass). The
    file itself is not read here: a user file is the sequence of its raw
    rows, as the table reader hands them over after the header. */
module Batch {
  import opened Strings
  import opened Directory
  import opened Errors
  import opened BatchClient
  import opened ImporterSpec
  import opened ImporterLaws
  import opened Importer
  import opened Rows

  /** A driver's result together with the directory world after it. */
  datatype Outcome<T> = Outcome(result: Result<T>, world: World)

  // ---------------------------------------------------------------------------
  // ExportUsers

  /** The roles an exported row lists: every role except exactly "Authenticated". */
  function FilterAuthenticated(roles: seq<string>): (r: seq<string>)
    ensures |r| <= |roles|
    ensures forall x :: x in r <==> x in roles && x != "Authenticated"
    decreases |roles|
  {
    if roles == [] then []
    else (if roles[0] == "Authenticated" then [] else [roles[0]]) + FilterAuthenticated(roles[1..])
  }

  /** The row the export writes for user u: the user and the filtered roles
      joined with ':', or nothing when the directory refuses u's listing. */
  function ExportedRow(s: State, failing: set<Call>, u: string): Option<seq<string>> {
    if ListRolesForUser(u) in failing then None
    else Some([u, Join(FilterAuthenticated(RolesOf(s, u)), ':')])
  }

  /** The header row of an export. */
  function ExportHeader(withHeader: bool): seq<seq<string>> {
    if withHeader then [["User", "Roles"]] else []
  }

  datatype Written = Written(rows: seq<seq<string>>, world: World)

  /** The user loop of ExportUsers: one role listing per user, in order; a
      refused listing skips the user. */
  function ExportRows(c: Client, w: World, users: seq<string>): Written
    decreases |users|
  {
    if users == [] then Written([], w)
    else
      var x := Transmit(c, w, ListRolesForUser(users[0]));
      var rest := ExportRows(c, x.world, users[1..]);
      if x.reply.Refused? then rest
      else Written([[users[0], Join(FilterAuthenticated(x.reply.names), ':')]] + rest.rows, rest.world)
  }

  /** ExportUsers: the user listing, then the optional header and one row
      per user whose roles could be listed. */
  function Export(c: Client, w: World, withHeader: bool): Outcome<seq<seq<string>>> {
    var l := Transmit(c, w, ListUsers);
    if l.reply.Refused? then Outcome(Err(Wrapped("failed to get the list of users.", CallFailed(ListUsers))), l.world)
    else
      var e := ExportRows(c, l.world, l.reply.names);
      Outcome(Ok(ExportHeader(withHeader) + e.rows), e.world)
  }

  /** The user loop only lists, and what it writes depends on the directory
      as it was before the loop and on nothing else. */
  lemma {:induction false} ExportRowsAreListed(c: Client, w: World, users: seq<string>,
                                               s: State, failing: set<Call>)
    requires w.state == s && w.failing == failing
    ensures var e := ExportRows(c, w, users);
      && ReadOnlyStep(w, e.world)
      && e.rows == Present(users, u => ExportedRow(s, failing, u))
    decreases |users|
  {
    if users == [] {
      assert w.trace[..|w.trace|] == w.trace;
      assert w.trace[|w.trace|..] == [];
    } else {
      var x := Transmit(c, w, ListRolesForUser(users[0]));
      ReadsAlwaysForwarded(c, ListRolesForUser(users[0]));
      ExportRowsAreListed(c, x.world, users[1..], s, failing);
      ReadOnlyStepTrans(w, x.world, ExportRows(c, x.world, users[1..]).world);
    }
  }

  /** The export never changes the directory; it fails exactly when the user
      listing is refused, and otherwise writes the header (if asked for) and,
      for each listed user in listing order whose roles can be listed, the
      user and its roles other than Authenticated. */
  lemma ExportIsReadOnly(c: Client, w: World, withHeader: bool)
    ensures var e := Export(c, w, withHeader);
      && ReadOnlyStep(w, e.world)
      && (e.result.Err? <==> ListUsers in w.failing)
      && (e.result.Ok? ==>
            e.result.value == ExportHeader(withHeader) + Present(w.state.users, u => ExportedRow(w.state, w.failing, u)))
  {
    var l := Transmit(c, w, ListUsers);
    ReadsAlwaysForwarded(c, ListUsers);
    assert l.world.trace[|w.trace|..] == [ListUsers];
    if !l.reply.Refused? {
      ExportRowsAreListed(c, l.world, l.reply.names, w.state, w.failing);
      ReadOnlyStepTrans(w, l.world, ExportRows(c, l.world, l.reply.names).world);
    }
  }

  /** Reading an exported row back as a user-file row (with an empty
      password cell) gives the same user and roles, provided the user name
      and the joined roles cell carry no surrounding space and no role holds
      ':'; a user with no listed role comes back with the single role "". */
  lemma ExportReadBack(s: State, failing: set<Call>, u: string)
    requires ExportedRow(s, failing, u).Some?
    requires u != "" && TrimSpace(u) == u
    requires var roles := FilterAuthenticated(RolesOf(s, u));
      && (forall i :: 0 <= i < |roles| ==> ':' !in roles[i])
      && TrimSpace(Join(roles, ':')) == Join(roles, ':')
    ensures var roles := FilterAuthenticated(RolesOf(s, u));
            var row := ExportedRow(s, failing, u).value;
      Normalize(RawRow(row[0], row[1], "")) == Some(UserRow(u, if roles == [] then [""] else roles, ""))
  {
    var roles := FilterAuthenticated(RolesOf(s, u));
    if roles != [] {
      SplitJoin(roles, ':');
    }
  }

  /** The row the export writes for one user, given the reply to the
      listing of its roles: none when the listing is refused. */
  function RowsFor(user: string, reply: Reply): seq<seq<string>> {
    if reply.Refused? then [] else [[user, Join(FilterAuthenticated(reply.names), ':')]]
  }

  /** The export of the first user followed by the export of the rest. */
  lemma ExportRowsCons(c: Client, w: World, users: seq<string>)
    requires users != []
    ensures var x := Transmit(c, w, ListRolesForUser(users[0]));
      var rest := ExportRows(c, x.world, users[1..]);
      ExportRows(c, w, users) == Written(RowsFor(users[0], x.reply) + rest.rows, rest.world)
  {
  }

  /** One turn of the user loop: list the user's roles and write its row
      when the listing is served. */
  method ExportUser(c: Client, user: string) returns (row: seq<seq<string>>)
    modifies c.Target()
    ensures var x := Transmit(c, old(c.Target().Snapshot()), ListRolesForUser(user));
      row == RowsFor(user, x.reply) && c.Target().Snapshot() == x.world
  {
    var roles := Send(c, ListRolesForUser(user));
    if roles.Served? {
      row := [[user, Join(FilterAuthenticated(roles.names), ':')]];
    } else {
      row := [];
    }
  }

  lemma WrittenAssoc(written: seq<seq<string>>, row: seq<seq<string>>, rest: seq<seq<string>>)
    ensures written + (row + rest) == (written + row) + rest
  {
  }

  /** ExportUsers writing to a table: the rows are returned instead. */
  method ExportUsers(c: Client, withHeader: bool) returns (r: Result<seq<seq<string>>>)
    modifies c.Target()
    ensures Outcome(r, c.Target().Snapshot()) == Export(c, old(c.Target().Snapshot()), withHeader)
  {
    var listed := Send(c, ListUsers);
    if listed.Refused? {
      return Err(Wrapped("failed to get the list of users.", CallFailed(ListUsers)));
    }
    var users := listed.names;
    var written := ExportHeader(withHeader);
    ghost var whole := ExportRows(c, c.Target().Snapshot(), users);
    var i := 0;
    assert users[i..] == users;
    while i < |users|
      invariant 0 <= i <= |users|
      invariant var e := ExportRows(c, c.Target().Snapshot(), users[i..]);
        ExportHeader(withHeader) + whole.rows == written + e.rows && whole.world == e.world
    {
      ExportRowsCons(c, c.Target().Snapshot(), users[i..]);
      assert users[i..][0] == users[i] && users[i..][1..] == users[i + 1..];
      ghost var rest := ExportRows(c, Transmit(c, c.Target().Snapshot(), ListRolesForUser(users[i])).world, users[i + 1..]);
      var row := ExportUser(c, users[i]);
      WrittenAssoc(written, row, rest.rows);
      written := written + row;
      i := i + 1;
    }
    assert users[i..] == [];
    assert written + [] == written;
    r := Ok(written);
  }

  // ---------------------------------------------------------------------------
  // DeleteUsers

  /** DeleteUsers: one DeleteUsers call for the whole list; when it is
      refused, its error wrapped; otherwise, if asked, every user's home
      directory in order, whose failures are only warned about. */
  function Deletion(c: Client, w: World, users: seq<string>, deleteHomeDirectory: bool): Outcome<()> {
    var x := Transmit(c, w, Call.DeleteUsers(users));
    if x.reply.Refused? then Outcome(Err(Wrapped("failed to delete users", CallFailed(Call.DeleteUsers(users)))), x.world)
    else if !deleteHomeDirectory then Outcome(Ok(()), x.world)
    else Outcome(Ok(()), DeleteHomes(c, x.world, users, 0).world)
  }

  /** Against the directory: the deletion fails exactly when the list is
      empty, which the client turns down without sending anything, or when
      the DeleteUsers call is refused; a failure changes nothing; otherwise
      exactly the listed users are gone and every home directory deletion
      was sent, whether or not the directory accepted it. */
  lemma DeletionOutcome(c: Client, w: World, users: seq<string>, deleteHomeDirectory: bool)
    requires c.Remote?
    ensures var d := Deletion(c, w, users, deleteHomeDirectory);
      && Follows(w, d.world)
      && (d.result.Err? <==> users == [] || Call.DeleteUsers(users) in w.failing)
      && (d.result.Err? ==> d.world.state == w.state)
      && (d.result.Err? ==> Since(w, d.world) == if users == [] then [] else [Call.DeleteUsers(users)])
      && (d.result.Ok? ==>
            && d.world.state.users == RemoveAll(w.state.users, users)
            && Since(w, d.world) == [Call.DeleteUsers(users)] + (if deleteHomeDirectory then HomeCalls(users) else []))
  {
    DirectoryClientRejectsEmptyDeletion(c.directory, w, Call.DeleteUsers(users));
    var x := Transmit(c, w, Call.DeleteUsers(users));
    TransmitFollows(c, w, Call.DeleteUsers(users));
    if !x.reply.Refused? && deleteHomeDirectory {
      DeleteHomesCounts(c, x.world, users, 0);
      FollowsTrans(w, x.world, DeleteHomes(c, x.world, users, 0).world);
    }
  }

  method DeleteUsers(c: Client, users: seq<string>, deleteHomeDirectory: bool) returns (r: Result<()>)
    modifies c.Target()
    ensures Outcome(r, c.Target().Snapshot()) == Deletion(c, old(c.Target().Snapshot()), users, deleteHomeDirectory)
  {
    var reply := Send(c, Call.DeleteUsers(users));
    if reply.Refused? {
      return Err(Wrapped("failed to delete users", CallFailed(Call.DeleteUsers(users))));
    }
    if deleteHomeDirectory {
      // The failures are only warned about.
      var _ := DeleteHomeDirectories(c, users);
    }
    r := Ok(());
  }

  // ---------------------------------------------------------------------------
  // ImportUsers

  /** ImportUsersOptions. HeaderSize and Separator only configure the table
      reader and are not part of this model. */
  datatype ImportUsersOptions = ImportUsersOptions(
    deleteUsers: bool,
    deleteHomeDirectory: bool,
    updatePassword: bool,
    defaultPassword: string,
    createRoles: bool)

  /** The importer a pass sets up: NewImporter with CreateRoles and
      UpdatePassword taken from the options. */
  function PassOptions(po: ImportUsersOptions): Options {
    Options(DefaultOptions().strictCaseSensitive, po.createRoles, po.updatePassword)
  }

  /** The password a row is imported with: its own, or the default when empty. */
  function PasswordFor(row: UserRow, defaultPassword: string): string {
    if |row.password| == 0 then defaultPassword else row.password
  }

  predicate AnyFailed(outcomes: seq<Result<()>>) {
    exists i :: 0 <= i < |outcomes| && outcomes[i].Err?
  }

  datatype Progress = Progress(caches: Caches, world: World, outcomes: seq<Result<()>>)

  /** The row loop of importUsers: every row is imported in turn, whatever
      happened to the rows before it, and each row's result is kept. */
  function ImportRows(o: Options, c: Client, k: Caches, w: World, rows: seq<UserRow>,
                      defaultPassword: string): (p: Progress)
    ensures |p.outcomes| == |rows|
    decreases |rows|
  {
    if rows == [] then Progress(k, w, [])
    else
      var r := Import(o, c, k, w, rows[0].name, PasswordFor(rows[0], defaultPassword), rows[0].roles);
      var p := ImportRows(o, c, r.caches, r.world, rows[1..], defaultPassword);
      Progress(p.caches, p.world, [r.result] + p.outcomes)
  }

  /** importUsers: a fresh importer imports every row; any failed row fails
      the pass before anything is deleted; otherwise, if asked, the users no
      row mentioned are swept (in the walk order deleting). */
  function Pass(po: ImportUsersOptions, c: Client, w: World, rows: seq<UserRow>, deleting: seq<string>): Run<()> {
    var p := ImportRows(PassOptions(po), c, FreshCaches(), w, rows, po.defaultPassword);
    if AnyFailed(p.outcomes) then Run(Err(ImportErrors), p.caches, p.world)
    else if !po.deleteUsers then Run(Ok(()), p.caches, p.world)
    else Sweep(c, p.caches, p.world, po.deleteHomeDirectory, deleting)
  }

  /** The sweep of a pass, if it happens, walks a valid order. */
  ghost predicate PassOrder(po: ImportUsersOptions, c: Client, w: World, rows: seq<UserRow>, deleting: seq<string>) {
    var p := ImportRows(PassOptions(po), c, FreshCaches(), w, rows, po.defaultPassword);
    !AnyFailed(p.outcomes) && po.deleteUsers ==> ValidSweepOrder(c, p.caches, p.world, deleting)
  }

  /** ImportUsers: the validation pass through the dry-run client; its
      failure is wrapped and stops everything; otherwise the real pass. */
  function ImportAll(po: ImportUsersOptions, c: Client, w: World, rows: seq<UserRow>,
                     validationOrder: seq<string>, order: seq<string>): Outcome<()> {
    var v := Pass(po, ForValidationOf(c), w, rows, validationOrder);
    if v.result.Err? then Outcome(Err(Wrapped("Validation failure", v.result.error)), v.world)
    else
      var p := Pass(po, c, v.world, rows, order);
      Outcome(p.result, p.world)
  }

  ghost predicate ImportOrders(po: ImportUsersOptions, c: Client, w: World, rows: seq<UserRow>,
                               validationOrder: seq<string>, order: seq<string>) {
    && PassOrder(po, ForValidationOf(c), w, rows, validationOrder)
    && var v := Pass(po, ForValidationOf(c), w, rows, validationOrder);
       v.result.Ok? ==> PassOrder(po, c, v.world, rows, order)
  }

  /** A call some row of the file may make (see ImportCall). */
  ghost predicate RowCall(o: Options, rows: seq<UserRow>, defaultPassword: string, call: Call) {
    exists i :: 0 <= i < |rows| && ImportCall(o, rows[i].name, PasswordFor(rows[i], defaultPassword), call)
  }

  ghost predicate RowCalls(o: Options, rows: seq<UserRow>, defaultPassword: string, calls: seq<Call>) {
    forall j :: 0 <= j < |calls| ==> RowCall(o, rows, defaultPassword, calls[j])
  }

  /** Appeared holds a non-empty spelling under every key it had one for
      and under the key of every row with a non-empty name. */
  ghost predicate Recorded(appeared: map<string, string>, k: Caches, rows: seq<UserRow>) {
    && (forall key :: key in k.appeared && k.appeared[key] != "" ==> key in appeared && appeared[key] != "")
    && (forall i :: 0 <= i < |rows| ==> Lower(rows[i].name) in appeared && appeared[Lower(rows[i].name)] != "")
  }

  /** The row loop keeps the caches well formed, only adds to the trace,
      only lists through the dry-run client, and makes only calls that some
      row may make. */
  lemma {:induction false} ImportRowsSound(o: Options, c: Client, k: Caches, w: World, rows: seq<UserRow>,
                                           defaultPassword: string)
    requires CachesWF(k)
    ensures var p := ImportRows(o, c, k, w, rows, defaultPassword);
      && CachesWF(p.caches)
      && Follows(w, p.world)
      && (c.ForValidation? ==> ReadOnlyStep(w, p.world))
      && RowCalls(o, rows, defaultPassword, Since(w, p.world))
    decreases |rows|
  {
    var p := ImportRows(o, c, k, w, rows, defaultPassword);
    if rows == [] {
      assert w.trace[..|w.trace|] == w.trace;
      assert w.trace[|w.trace|..] == [];
    } else {
      var password := PasswordFor(rows[0], defaultPassword);
      var r := Import(o, c, k, w, rows[0].name, password, rows[0].roles);
      ImportSound(o, c, k, w, rows[0].name, password, rows[0].roles);
      ImportRowsSound(o, c, r.caches, r.world, rows[1..], defaultPassword);
      FollowsTrans(w, r.world, p.world);
      if c.ForValidation? {
        ReadOnlyStepTrans(w, r.world, p.world);
      }
      RowCallsCons(o, rows, defaultPassword, Since(w, r.world), Since(r.world, p.world));
    }
  }

  /** The calls of the first row followed by calls some later row may make
      are calls some row may make. */
  lemma RowCallsCons(o: Options, rows: seq<UserRow>, defaultPassword: string, first: seq<Call>, rest: seq<Call>)
    requires rows != []
    requires ImportCalls(o, rows[0].name, PasswordFor(rows[0], defaultPassword), first)
    requires RowCalls(o, rows[1..], defaultPassword, rest)
    ensures RowCalls(o, rows, defaultPassword, first + rest)
  {
    var calls := first + rest;
    forall j | 0 <= j < |calls|
      ensures RowCall(o, rows, defaultPassword, calls[j])
    {
      if j < |first| {
        assert ImportCall(o, rows[0].name, PasswordFor(rows[0], defaultPassword), first[j]);
      } else {
        assert RowCall(o, rows[1..], defaultPassword, rest[j - |first|]);
        var i :| 0 <= i < |rows[1..]|
                 && ImportCall(o, rows[1..][i].name, PasswordFor(rows[1..][i], defaultPassword), rest[j - |first|]);
        assert rows[1..][i] == rows[i + 1];
      }
    }
  }

  /** The row loop records every row's user, under its lower-cased name and
      with a non-empty spelling, as appeared, and loses no spelling it had. */
  lemma {:induction false} ImportRowsRecorded(o: Options, c: Client, k: Caches, w: World, rows: seq<UserRow>,
                                              defaultPassword: string)
    requires CachesWF(k)
    requires forall row :: row in rows ==> row.name != ""
    ensures Recorded(ImportRows(o, c, k, w, rows, defaultPassword).caches.appeared, k, rows)
    decreases |rows|
  {
    if rows != [] {
      var p := ImportRows(o, c, k, w, rows, defaultPassword);
      var password := PasswordFor(rows[0], defaultPassword);
      var r := Import(o, c, k, w, rows[0].name, password, rows[0].roles);
      ImportSound(o, c, k, w, rows[0].name, password, rows[0].roles);
      ImportRowsRecorded(o, c, r.caches, r.world, rows[1..], defaultPassword);
      assert p.caches == ImportRows(o, c, r.caches, r.world, rows[1..], defaultPassword).caches;
      assert rows[0] in rows;
      LowerEmpty(rows[0].name);
      assert r.caches.appeared == k.appeared[Lower(rows[0].name) := rows[0].name];
      forall key | key in k.appeared && k.appeared[key] != ""
        ensures key in p.caches.appeared && p.caches.appeared[key] != ""
      {
        assert key in r.caches.appeared && r.caches.appeared[key] != "";
      }
      forall i | 0 <= i < |rows|
        ensures Lower(rows[i].name) in p.caches.appeared && p.caches.appeared[Lower(rows[i].name)] != ""
      {
        if i > 0 {
          assert rows[1..][i - 1] == rows[i];
        }
      }
    }
  }

  /** No call a row may make deletes a user or a file. */
  lemma RowCallsDeleteNothing(o: Options, rows: seq<UserRow>, d: string, calls: seq<Call>)
    requires RowCalls(o, rows, d, calls)
    ensures forall j :: 0 <= j < |calls| ==> !calls[j].DeleteUsers? && !calls[j].DeleteFiles?
  {
    forall j | 0 <= j < |calls|
      ensures !calls[j].DeleteUsers? && !calls[j].DeleteFiles?
    {
      assert RowCall(o, rows, d, calls[j]);
    }
  }

  /** A pass in which some row failed fails with ImportErrors, and neither
      deletes a user nor a home directory. */
  lemma FailedRowsBlockTheSweep(po: ImportUsersOptions, c: Client, w: World, rows: seq<UserRow>,
                                deleting: seq<string>)
    requires AnyFailed(ImportRows(PassOptions(po), c, FreshCaches(), w, rows, po.defaultPassword).outcomes)
    ensures var r := Pass(po, c, w, rows, deleting);
      && r.result == Err(ImportErrors)
      && Follows(w, r.world)
      && forall j :: 0 <= j < |Since(w, r.world)| ==> !Since(w, r.world)[j].DeleteUsers? && !Since(w, r.world)[j].DeleteFiles?
  {
    ImportRowsSound(PassOptions(po), c, FreshCaches(), w, rows, po.defaultPassword);
    var p := ImportRows(PassOptions(po), c, FreshCaches(), w, rows, po.defaultPassword);
    RowCallsDeleteNothing(PassOptions(po), rows, po.defaultPassword, Since(w, p.world));
  }

  /** With a non-empty default password, no row creates a user or sets a
      password with an empty password. */
  lemma PasswordsNeverEmpty(po: ImportUsersOptions, c: Client, w: World, rows: seq<UserRow>)
    requires po.defaultPassword != ""
    ensures var p := ImportRows(PassOptions(po), c, FreshCaches(), w, rows, po.defaultPassword);
      && Follows(w, p.world)
      && forall j :: 0 <= j < |Since(w, p.world)| ==>
           (Since(w, p.world)[j].CreateUser? ==> Since(w, p.world)[j].password != "")
           && (Since(w, p.world)[j].UpdatePassword? ==> Since(w, p.world)[j].password != "")
  {
    var o := PassOptions(po);
    ImportRowsSound(o, c, FreshCaches(), w, rows, po.defaultPassword);
    var p := ImportRows(o, c, FreshCaches(), w, rows, po.defaultPassword);
    var calls := Since(w, p.world);
    forall j | 0 <= j < |calls|
      ensures (calls[j].CreateUser? ==> calls[j].password != "")
           && (calls[j].UpdatePassword? ==> calls[j].password != "")
    {
      assert RowCall(o, rows, po.defaultPassword, calls[j]);
      var i :| 0 <= i < |rows| && ImportCall(o, rows[i].name, PasswordFor(rows[i], po.defaultPassword), calls[j]);
    }
  }

  /** A pass through the dry-run client never changes the directory: it
      only sends listings, its writes answered by the decorator. */
  lemma {:induction false} ValidationHomesReadOnly(c: Client, w: World, users: seq<string>, failures: nat)
    requires c.ForValidation?
    ensures DeleteHomes(c, w, users, failures).world == w
    decreases |users|
  {
    if users != [] {
      ValidationWritesSucceed(c.inner, w, DeleteFiles([HomeOf(users[0])]));
      ValidationHomesReadOnly(c, w, users[1..], failures);
    }
  }

  lemma ValidationSweepReadOnly(c: Client, k: Caches, w: World, deleteHomeDirectory: bool, deleting: seq<string>)
    requires c.ForValidation? && CachesWF(k)
    ensures ReadOnlyStep(w, Sweep(c, k, w, deleteHomeDirectory, deleting).world)
  {
    var l := AllUserNames(c, k, w);
    AllUserNamesSound(c, k, w);
    if l.result.Ok? && |deleting| > 0 {
      ValidationWritesSucceed(c.inner, l.world, Call.DeleteUsers(deleting));
      ValidationHomesReadOnly(c, l.world, deleting, 0);
    }
  }

  lemma ValidationPassReadOnly(po: ImportUsersOptions, c: Client, w: World, rows: seq<UserRow>, deleting: seq<string>)
    ensures ReadOnlyStep(w, Pass(po, ForValidationOf(c), w, rows, deleting).world)
  {
    var v := ForValidationOf(c);
    ImportRowsSound(PassOptions(po), v, FreshCaches(), w, rows, po.defaultPassword);
    var p := ImportRows(PassOptions(po), v, FreshCaches(), w, rows, po.defaultPassword);
    if !AnyFailed(p.outcomes) && po.deleteUsers {
      ValidationSweepReadOnly(v, p.caches, p.world, po.deleteHomeDirectory, deleting);
      ReadOnlyStepTrans(w, p.world, Sweep(v, p.caches, p.world, po.deleteHomeDirectory, deleting).world);
    }
  }

  /** No outcome in the list is a refused write. */
  predicate NoWriteFailures(outcomes: seq<Result<()>>) {
    forall i :: 0 <= i < |outcomes| && outcomes[i].Err? ==> !WriteFailure(outcomes[i].error)
  }

  /** Through the dry-run client no row fails because a write was refused. */
  lemma {:induction false} ValidationRowsNeverFailAWrite(o: Options, c: Client, k: Caches, w: World,
                                                         rows: seq<UserRow>, defaultPassword: string)
    requires c.ForValidation?
    ensures NoWriteFailures(ImportRows(o, c, k, w, rows, defaultPassword).outcomes)
    decreases |rows|
  {
    if rows != [] {
      var r := Import(o, c, k, w, rows[0].name, PasswordFor(rows[0], defaultPassword), rows[0].roles);
      ValidationImportNeverFailsAWrite(o, c, k, w, rows[0].name, PasswordFor(rows[0], defaultPassword), rows[0].roles);
      ValidationRowsNeverFailAWrite(o, c, r.caches, r.world, rows[1..], defaultPassword);
      var q := ImportRows(o, c, r.caches, r.world, rows[1..], defaultPassword).outcomes;
      assert ImportRows(o, c, k, w, rows, defaultPassword).outcomes == [r.result] + q;
      assert NoWriteFailures(q);
    }
  }

  /** The validation pass fails only on a refused listing, on a failed row
      or on the checks of the importer, never because a write was refused:
      its errors are what the dry run can report, not what the server would
      have done with the writes. */
  lemma ValidationPassNeverFailsAWrite(po: ImportUsersOptions, c: Client, w: World, rows: seq<UserRow>,
                                       deleting: seq<string>)
    ensures var r := Pass(po, ForValidationOf(c), w, rows, deleting);
      r.result.Err? ==> !WriteFailure(r.result.error)
  {
    var v := ForValidationOf(c);
    var p := ImportRows(PassOptions(po), v, FreshCaches(), w, rows, po.defaultPassword);
    if !AnyFailed(p.outcomes) && po.deleteUsers {
      var l := AllUserNames(v, p.caches, p.world);
      if l.result.Ok? && |deleting| > 0 {
        ValidationRefusesOnlyReads(v, l.world, Call.DeleteUsers(deleting));
      }
    }
  }

  /** ImportUsers: when validation fails, the wrapped error is returned and
      the directory is as it was (only listings were sent); otherwise the
      real pass runs against the directory exactly as it was. */
  lemma ValidationGuardsImport(po: ImportUsersOptions, c: Client, w: World, rows: seq<UserRow>,
                               validationOrder: seq<string>, order: seq<string>)
    ensures var v := Pass(po, ForValidationOf(c), w, rows, validationOrder);
            var out := ImportAll(po, c, w, rows, validationOrder, order);
      && ReadOnlyStep(w, v.world)
      && (v.result.Err? ==> out.result == Err(Wrapped("Validation failure", v.result.error))
                            && out.world.state == w.state)
      && (v.result.Ok? ==> out.result == Pass(po, c, v.world, rows, order).result
                           && v.world.state == w.state)
  {
    ValidationPassReadOnly(po, c, w, rows, validationOrder);
  }

  /** Against the directory, the only users a sweep deletes are those of
      its walk, none of them admin and none recorded as appeared. */
  lemma SweepDeletesOnlyRemaining(c: Client, k: Caches, w: World, deleteHomeDirectory: bool, deleting: seq<string>)
    requires c.Remote? && CachesWF(k) && ValidSweepOrder(c, k, w, deleting)
    ensures var r := Sweep(c, k, w, deleteHomeDirectory, deleting);
      && Follows(w, r.world)
      && forall j, u :: 0 <= j < |Since(w, r.world)| && Since(w, r.world)[j].DeleteUsers? && u in Since(w, r.world)[j].users ==>
           Lower(u) != "admin" && GoGet(k.appeared, Lower(u)) == ""
  {
    var r := Sweep(c, k, w, deleteHomeDirectory, deleting);
    SweepOutcome(c, k, w, deleteHomeDirectory, deleting);
    var calls := Since(w, r.world);
    forall j, u | 0 <= j < |calls| && calls[j].DeleteUsers? && u in calls[j].users
      ensures Lower(u) != "admin" && GoGet(k.appeared, Lower(u)) == ""
    {
      assert calls[j] == Call.DeleteUsers(deleting);
    }
  }

  /** No call deletes admin or a user that some row names, in any case. */
  ghost predicate SparesRows(calls: seq<Call>, rows: seq<UserRow>) {
    forall j, u :: 0 <= j < |calls| && calls[j].DeleteUsers? && u in calls[j].users ==>
      Lower(u) != "admin" && forall i :: 0 <= i < |rows| ==> Lower(u) != Lower(rows[i].name)
  }

  /** A sweep that follows the row loop spares every row's user. */
  lemma SweepSparesRows(c: Client, k: Caches, w0: World, w: World, rows: seq<UserRow>,
                        deleteHomeDirectory: bool, deleting: seq<string>)
    requires c.Remote? && CachesWF(k) && ValidSweepOrder(c, k, w, deleting)
    requires Follows(w0, w) && SparesRows(Since(w0, w), rows)
    requires forall i :: 0 <= i < |rows| ==> Lower(rows[i].name) in k.appeared && k.appeared[Lower(rows[i].name)] != ""
    ensures var r := Sweep(c, k, w, deleteHomeDirectory, deleting);
      Follows(w0, r.world) && SparesRows(Since(w0, r.world), rows)
  {
    var r := Sweep(c, k, w, deleteHomeDirectory, deleting);
    SweepDeletesOnlyRemaining(c, k, w, deleteHomeDirectory, deleting);
    UnrecordedSparesRows(Since(w, r.world), k.appeared, rows);
    FollowsTrans(w0, w, r.world);
    SparesRowsAppend(Since(w0, w), Since(w, r.world), rows);
  }

  /** Deleting only users no row recorded spares every recorded row. */
  lemma UnrecordedSparesRows(calls: seq<Call>, appeared: map<string, string>, rows: seq<UserRow>)
    requires forall i :: 0 <= i < |rows| ==> Lower(rows[i].name) in appeared && appeared[Lower(rows[i].name)] != ""
    requires forall j, u :: 0 <= j < |calls| && calls[j].DeleteUsers? && u in calls[j].users ==>
               Lower(u) != "admin" && GoGet(appeared, Lower(u)) == ""
    ensures SparesRows(calls, rows)
  {
    forall j, u, i | 0 <= j < |calls| && calls[j].DeleteUsers? && u in calls[j].users && 0 <= i < |rows|
      ensures Lower(u) != Lower(rows[i].name)
    {
      assert GoGet(appeared, Lower(rows[i].name)) != "";
    }
  }

  /** Two stretches of calls that each spare the rows spare them together. */
  lemma SparesRowsAppend(a: seq<Call>, b: seq<Call>, rows: seq<UserRow>)
    requires SparesRows(a, rows) && SparesRows(b, rows)
    ensures SparesRows(a + b, rows)
  {
    forall j, u | 0 <= j < |a + b| && (a + b)[j].DeleteUsers? && u in (a + b)[j].users
      ensures Lower(u) != "admin" && forall i :: 0 <= i < |rows| ==> Lower(u) != Lower(rows[i].name)
    {
      if j < |a| {
        assert (a + b)[j] == a[j];
      } else {
        assert (a + b)[j] == b[j - |a|];
      }
    }
  }

  /** A pass against the directory never deletes a user some row of the
      file names (in any case), nor admin. */
  lemma RowsAreNeverDeleted(po: ImportUsersOptions, c: Client, w: World, rows: seq<UserRow>, deleting: seq<string>)
    requires c.Remote?
    requires forall row :: row in rows ==> row.name != ""
    requires PassOrder(po, c, w, rows, deleting)
    ensures var r := Pass(po, c, w, rows, deleting);
      Follows(w, r.world) && SparesRows(Since(w, r.world), rows)
  {
    var o := PassOptions(po);
    ImportRowsSound(o, c, FreshCaches(), w, rows, po.defaultPassword);
    var p := ImportRows(o, c, FreshCaches(), w, rows, po.defaultPassword);
    RowCallsDeleteNothing(o, rows, po.defaultPassword, Since(w, p.world));
    if !AnyFailed(p.outcomes) && po.deleteUsers {
      ImportRowsRecorded(o, c, FreshCaches(), w, rows, po.defaultPassword);
      SweepSparesRows(c, p.caches, w, p.world, rows, po.deleteHomeDirectory, deleting);
    }
  }

  lemma AnyFailedSnoc(outcomes: seq<Result<()>>, err: Result<()>)
    ensures AnyFailed(outcomes + [err]) <==> AnyFailed(outcomes) || err.Err?
  {
    if err.Err? {
      assert (outcomes + [err])[|outcomes|] == err;
    }
    if AnyFailed(outcomes) {
      var i :| 0 <= i < |outcomes| && outcomes[i].Err?;
      assert (outcomes + [err])[i] == outcomes[i];
    }
  }

  /** The rows still to import, after the outcomes so far, complete the
      whole row loop. */
  ghost predicate RowsAhead(importer: BatchUserRoleImporter, userTable: UserTable, defaultPassword: string,
                            o: Options, whole: Progress, outcomes: seq<Result<()>>)
    reads importer, importer.client.Target(), userTable
    requires userTable.Valid()
  {
    var rest := ImportRows(o, importer.client, importer.Caches(), importer.World(), userTable.Unread(), defaultPassword);
    whole == Progress(rest.caches, rest.world, outcomes + rest.outcomes)
  }

  lemma OutcomesAssoc(outcomes: seq<Result<()>>, err: Result<()>, rest: seq<Result<()>>)
    ensures outcomes + ([err] + rest) == (outcomes + [err]) + rest
  {
  }

  /** One turn of the row loop: read the next row and, if there is one,
      import it with its password or the default one. */
  method ImportFromTable(importer: BatchUserRoleImporter, userTable: UserTable, defaultPassword: string,
                         ghost o: Options, ghost whole: Progress, ghost outcomes: seq<Result<()>>)
    returns (finished: bool, err: Result<()>)
    requires importer.Valid() && userTable.Valid() && importer.Options() == o
    requires RowsAhead(importer, userTable, defaultPassword, o, whole, outcomes)
    modifies importer`allUserNames, importer`allRoleNames, importer`appearedUserNames, importer.client.Target(), userTable
    ensures importer.Valid() && userTable.Valid() && importer.Options() == o
    ensures finished <==> old(userTable.Unread()) == []
    ensures !finished ==> userTable.Unread() == old(userTable.Unread())[1..]
    ensures RowsAhead(importer, userTable, defaultPassword, o, whole, if finished then outcomes else outcomes + [err])
  {
    ghost var c := importer.client;
    ghost var pending := userTable.Unread();
    var userRow := userTable.Read();
    if userRow.None? {
      return true, Ok(());
    }
    var row := userRow.value;
    var password := row.password;
    if |password| == 0 {
      password := defaultPassword;
    }
    assert password == PasswordFor(pending[0], defaultPassword);
    err := importer.Import(row.name, password, row.roles);
    ghost var after := ImportRows(o, c, importer.Caches(), importer.World(), pending[1..], defaultPassword);
    OutcomesAssoc(outcomes, err, after.outcomes);
    finished := false;
  }

  /** The row loop of importUsers: the pass's importer imports every row the
      table still holds, each with its password or the default one, and
      remembers whether any row failed. */
  method ImportEachRow(importer: BatchUserRoleImporter, userTable: UserTable, defaultPassword: string)
    returns (hasErrorInImport: bool, ghost outcomes: seq<Result<()>>)
    requires importer.Valid() && userTable.Valid()
    modifies importer`allUserNames, importer`allRoleNames, importer`appearedUserNames, importer.client.Target(), userTable
    ensures importer.Valid()
    ensures hasErrorInImport <==> AnyFailed(outcomes)
    ensures ImportRows(importer.Options(), importer.client, old(importer.Caches()), old(importer.World()),
                       old(userTable.Unread()), defaultPassword)
         == Progress(importer.Caches(), importer.World(), outcomes)
  {
    ghost var o := importer.Options();
    ghost var whole := ImportRows(o, importer.client, importer.Caches(), importer.World(), userTable.Unread(), defaultPassword);
    outcomes := [];
    hasErrorInImport := false;
    assert [] + whole.outcomes == whole.outcomes;
    while true
      invariant importer.Valid() && userTable.Valid() && importer.Options() == o
      invariant hasErrorInImport <==> AnyFailed(outcomes)
      invariant RowsAhead(importer, userTable, defaultPassword, o, whole, outcomes)
      decreases |userTable.Unread()|
    {
      var finished, err := ImportFromTable(importer, userTable, defaultPassword, o, whole, outcomes);
      if finished {
        break;
      }
      if err.Err? {
        hasErrorInImport := true;
      }
      AnyFailedSnoc(outcomes, err);
      outcomes := outcomes + [err];
    }
    assert outcomes + [] == outcomes;
  }

  /** importUsers over a user file. */
  method ImportPass(po: ImportUsersOptions, c: Client, raws: seq<RawRow>) returns (r: Result<()>, ghost deleting: seq<string>)
    modifies c.Target()
    ensures PassOrder(po, c, old(c.Target().Snapshot()), ReadAll(raws), deleting)
    ensures var p := Pass(po, c, old(c.Target().Snapshot()), ReadAll(raws), deleting);
      r == p.result && c.Target().Snapshot() == p.world
  {
    ghost var w := c.Target().Snapshot();
    ghost var p := ImportRows(PassOptions(po), c, FreshCaches(), w, ReadAll(raws), po.defaultPassword);
    var importer := new BatchUserRoleImporter(c);
    importer.createRoles := po.createRoles;
    importer.updatePassword := po.updatePassword;
    assert importer.Options() == PassOptions(po) && importer.Caches() == FreshCaches();
    var userTable := UserTable.NewUserTable(raws);
    var hasErrorInImport, outcomes := ImportEachRow(importer, userTable, po.defaultPassword);
    assert p == Progress(importer.Caches(), importer.World(), outcomes);
    if hasErrorInImport {
      return Err(ImportErrors), [];
    }
    if !po.deleteUsers {
      return Ok(()), [];
    }
    r, deleting := importer.DeleteRemainingUsers(po.deleteHomeDirectory);
  }

  /** ImportUsers over a user file. */
  method ImportUsers(po: ImportUsersOptions, c: Client, raws: seq<RawRow>)
    returns (r: Result<()>, ghost validationOrder: seq<string>, ghost order: seq<string>)
    modifies c.Target()
    ensures ImportOrders(po, c, old(c.Target().Snapshot()), ReadAll(raws), validationOrder, order)
    ensures Outcome(r, c.Target().Snapshot())
         == ImportAll(po, c, old(c.Target().Snapshot()), ReadAll(raws), validationOrder, order)
  {
    var clientForValidation := ForValidationOf(c);
    var err;
    err, validationOrder := ImportPass(po, clientForValidation, raws);
    if err.Err? {
      return Err(Wrapped("Validation failure", err.error)), validationOrder, [];
    }
    r, order := ImportPass(po, c, raws);
  }
}
