/** The remote user/role directory (the server behind the userroledao and
    userrolelist REST endpoints), as far as the batch code can observe it:
    the calls it accepts, the listings it answers, the state its writes
    change, and which calls it refuses. The HTTP transport itself is not
    modelled; a refused call stands for any non-success answer. */
module Directory {
  import opened Strings

  /** One request to the directory, with the arguments the Go client passes. */
  datatype Call =
    | ListUsers
    | ListRoles
    | ListAllRoles
    | ListRolesForUser(user: string)
    | UpdatePassword(user: string, password: string)
    | CreateUser(user: string, password: string)
    | CreateRole(role: string)
    | AssignRolesToUser(user: string, roles: seq<string>)
    | RemoveRolesFromUser(user: string, roles: seq<string>)
    | DeleteUsers(users: seq<string>)
    | DeleteFiles(files: seq<string>)
  {
    /** The listings; every other call is a write. */
    predicate IsRead() {
      ListUsers? || ListRoles? || ListAllRoles? || ListRolesForUser?
    }
  }

  /** A served call answers a (possibly empty) list of names; a refused call
      stands for the error the Go client returns. */
  datatype Reply = Served(names: seq<string>) | Refused

  /** What the directory stores: the users in listing order, the standard
      roles (api/userrolelist/roles), the extra roles that only the
      all-roles listing adds (such as Authenticated), role memberships and
      passwords. Home directories live in the content repository and are not
      part of this state. */
  datatype State = State(
    users: seq<string>,
    roles: seq<string>,
    extraRoles: seq<string>,
    memberships: map<string, seq<string>>,
    passwords: map<string, string>)

  function RolesOf(s: State, user: string): seq<string> {
    if user in s.memberships then s.memberships[user] else []
  }

  /** xs followed by the elements of ys that are not yet present. */
  function AppendNew(xs: seq<string>, ys: seq<string>): (r: seq<string>)
    ensures ToSet(r) == ToSet(xs) + ToSet(ys)
    ensures |r| >= |xs| && r[..|xs|] == xs
    decreases |ys|
  {
    if ys == [] then xs
    else
      var r := AppendNew(if ys[0] in xs then xs else xs + [ys[0]], ys[1..]);
      assert ToSet(ys) == {ys[0]} + ToSet(ys[1..]);
      r
  }

  /** xs without the elements of ys, order kept. */
  function RemoveAll(xs: seq<string>, ys: seq<string>): (r: seq<string>)
    ensures ToSet(r) == ToSet(xs) - ToSet(ys)
    decreases |xs|
  {
    if xs == [] then []
    else
      var head := if xs[0] in ys then [] else [xs[0]];
      var r := head + RemoveAll(xs[1..], ys);
      assert ToSet(xs) == {xs[0]} + ToSet(xs[1..]);
      assert ToSet(r) == ToSet(head) + ToSet(RemoveAll(xs[1..], ys));
      r
  }

  /** The names a served listing answers; writes answer nothing. */
  function Answer(s: State, call: Call): seq<string> {
    match call
    case ListUsers => s.users
    case ListRoles => s.roles
    case ListAllRoles => s.roles + s.extraRoles
    case ListRolesForUser(u) => RolesOf(s, u)
    case _ => []
  }

  /** How a served call changes the directory. */
  function Effect(s: State, call: Call): State {
    match call
    case CreateUser(u, p) =>
      s.(users := AppendNew(s.users, [u]),
         memberships := if u in s.memberships then s.memberships else s.memberships[u := []],
         passwords := s.passwords[u := p])
    case UpdatePassword(u, p) => s.(passwords := s.passwords[u := p])
    case CreateRole(r) => s.(roles := AppendNew(s.roles, [r]))
    case AssignRolesToUser(u, rs) => s.(memberships := s.memberships[u := AppendNew(RolesOf(s, u), rs)])
    case RemoveRolesFromUser(u, rs) => s.(memberships := s.memberships[u := RemoveAll(RolesOf(s, u), rs)])
    case DeleteUsers(us) =>
      s.(users := RemoveAll(s.users, us),
         memberships := s.memberships - ToSet(us),
         passwords := s.passwords - ToSet(us))
    case _ => s
  }

  /** The directory together with the record of every call it has received
      and the calls it refuses (the environment's failures). */
  datatype World = World(state: State, trace: seq<Call>, failing: set<Call>)

  datatype Exchange = Exchange(reply: Reply, world: World)

  /** The directory receives a call: it is recorded; a failing call is
      refused and changes nothing, any other is answered and takes effect. */
  function Serve(w: World, call: Call): Exchange {
    var recorded := w.(trace := w.trace + [call]);
    if call in w.failing then Exchange(Refused, recorded)
    else Exchange(Served(Answer(w.state, call)), recorded.(state := Effect(w.state, call)))
  }

  /** No call in the sequence is a write. */
  predicate OnlyReads(calls: seq<Call>) {
    forall i :: 0 <= i < |calls| ==> calls[i].IsRead()
  }

  /** w2 follows w1 by receiving only listings: the stored state is the same
      and every call recorded since is a read. */
  predicate ReadOnlyStep(w1: World, w2: World) {
    && w2.state == w1.state
    && w2.failing == w1.failing
    && |w1.trace| <= |w2.trace|
    && w2.trace[..|w1.trace|] == w1.trace
    && OnlyReads(w2.trace[|w1.trace|..])
  }

  /** w2 follows w1: the recorded calls only grow and the failures are the same. */
  predicate Follows(w1: World, w2: World) {
    && w2.failing == w1.failing
    && |w1.trace| <= |w2.trace|
    && w2.trace[..|w1.trace|] == w1.trace
  }

  /** The calls w2 has received since w1. */
  function Since(w1: World, w2: World): seq<Call>
    requires Follows(w1, w2)
  {
    w2.trace[|w1.trace|..]
  }

  lemma ReadOnlyStepTrans(w1: World, w2: World, w3: World)
    requires ReadOnlyStep(w1, w2) && ReadOnlyStep(w2, w3)
    ensures ReadOnlyStep(w1, w3)
  {
    assert w3.trace[|w1.trace|..] == w2.trace[|w1.trace|..] + w3.trace[|w2.trace|..];
  }

  lemma FollowsTrans(w1: World, w2: World, w3: World)
    requires Follows(w1, w2) && Follows(w2, w3)
    ensures Follows(w1, w3)
    ensures Since(w1, w3) == Since(w1, w2) + Since(w2, w3)
  {
  }

  /** The directory as a stateful object: what the Go client talks to. */
  class Directory {
    var state: State
    var trace: seq<Call>
    const failing: set<Call>

    constructor (initial: State, failing: set<Call>)
      ensures Snapshot() == World(initial, [], failing)
    {
      this.state := initial;
      this.trace := [];
      this.failing := failing;
    }

    function Snapshot(): World
      reads this
    {
      World(state, trace, failing)
    }

    /** Receives one call; see Serve. */
    method Receive(call: Call) returns (reply: Reply)
      modifies this
      ensures Exchange(reply, Snapshot()) == Serve(old(Snapshot()), call)
    {
      trace := trace + [call];
      if call in failing {
        reply := Refused;
      } else {
        reply := Served(Answer(state, call));
        state := Effect(state, call);
      }
    }
  }
}
