/** src/pentahotools/batch/client.go: the client interface the importer
    talks through, and the dry-run decorator used for the validation pass.
    A client is either the directory itself or the decorator wrapped around
    another client; the decorator hands the three listings on and answers
    every write with success without passing it on. The directory client
    (client/userroledao.go:90-95) refuses a DeleteUsers call with no user
    names itself, before anything is sent. */
module BatchClient {
  import opened Strings
  import opened Directory

  datatype Client = Remote(directory: Directory) | ForValidation(inner: Client)
  {
    /** The directory that ends up serving the forwarded calls. */
    function Target(): Directory
      decreases this
    {
      match this
      case Remote(d) => d
      case ForValidation(inner) => inner.Target()
    }

    /** Whether a call reaches the directory through this client. */
    predicate Forwards(call: Call)
      decreases this
    {
      match this
      case Remote(_) => !Rejected(call)
      case ForValidation(inner) => call.IsRead() && inner.Forwards(call)
    }
  }

  /** The calls the directory client turns down without sending them: the
      deletion of an empty list of users ("Specify atleast one user"). */
  predicate Rejected(call: Call) {
    call == Call.DeleteUsers([])
  }

  /** NewBatchUserRoleClientForValidation. */
  function ForValidationOf(c: Client): (v: Client)
    ensures v.Target() == c.Target()
    ensures forall call :: v.Forwards(call) <==> call.IsRead() && c.Forwards(call)
  {
    ForValidation(c)
  }

  /** A call made through client c: forwarded calls are served by the
      directory; a call the directory client rejects fails without being
      sent; a call the decorator keeps back succeeds with nothing. */
  function Transmit(c: Client, w: World, call: Call): Exchange {
    if c.Forwards(call) then Serve(w, call)
    else if c.Remote? then Exchange(Refused, w)
    else Exchange(Served([]), w)
  }

  /** Every client forwards the listings. */
  lemma {:induction false} ReadsAlwaysForwarded(c: Client, call: Call)
    requires call.IsRead()
    ensures c.Forwards(call)
    decreases c
  {
    match c
    case Remote(_) =>
    case ForValidation(inner) => ReadsAlwaysForwarded(inner, call);
  }

  /** The decorator's listings return exactly what the wrapped client
      returns, and what the directory itself would return. */
  lemma ValidationReadsPassThrough(c: Client, w: World, call: Call)
    requires call.IsRead()
    ensures Transmit(ForValidation(c), w, call) == Transmit(c, w, call) == Serve(w, call)
  {
    ReadsAlwaysForwarded(c, call);
  }

  /** The decorator's writes succeed for every argument and never reach the
      wrapped client: the world is left as it was. */
  lemma ValidationWritesSucceed(c: Client, w: World, call: Call)
    requires !call.IsRead()
    ensures Transmit(ForValidation(c), w, call) == Exchange(Served([]), w)
  {
  }

  /** Through the decorator the directory only ever receives listings. */
  lemma ValidationIsReadOnly(c: Client, w: World, call: Call)
    requires c.ForValidation?
    ensures ReadOnlyStep(w, Transmit(c, w, call).world)
    ensures Transmit(c, w, call).reply.Served?
         || (call.IsRead() && call in w.failing)
  {
    var w' := Transmit(c, w, call).world;
    if c.Forwards(call) {
      assert w'.trace[|w.trace|..] == [call];
    } else {
      assert w'.trace[|w.trace|..] == [];
    }
  }

  /** Through the decorator only a listing can be refused. */
  lemma ValidationRefusesOnlyReads(c: Client, w: World, call: Call)
    requires c.ForValidation?
    ensures Transmit(c, w, call).reply.Refused? ==> call.IsRead()
  {
  }

  /** Wrapping a decorated client again behaves exactly like wrapping once. */
  lemma RewrapIsIdentity(c: Client, w: World, call: Call)
    ensures ForValidation(ForValidation(c)).Target() == ForValidation(c).Target()
    ensures Transmit(ForValidation(ForValidation(c)), w, call) == Transmit(ForValidation(c), w, call)
  {
  }

  /** Any transmission keeps the failures and only adds to the trace, by at
      most the call itself. */
  lemma TransmitFollows(c: Client, w: World, call: Call)
    ensures Follows(w, Transmit(c, w, call).world)
    ensures Since(w, Transmit(c, w, call).world) == if c.Forwards(call) then [call] else []
  {
  }

  /** The directory client sends every call except the deletion of no
      users, which fails without reaching the server. */
  lemma DirectoryClientRejectsEmptyDeletion(d: Directory, w: World, call: Call)
    ensures Transmit(Remote(d), w, call) ==
      if call == Call.DeleteUsers([]) then Exchange(Refused, w) else Serve(w, call)
  {
  }

  /** One call through a client: the decorator methods of client.go and the
      plain delegation to the directory. */
  method Send(c: Client, call: Call) returns (reply: Reply)
    modifies c.Target()
    ensures Exchange(reply, c.Target().Snapshot()) == Transmit(c, old(c.Target().Snapshot()), call)
    decreases c
  {
    match c
    case Remote(d) =>
      if Rejected(call) {
        reply := Refused;
      } else {
        reply := d.Receive(call);
      }
    case ForValidation(inner) =>
      if call.IsRead() {
        reply := Send(inner, call);
      } else {
        reply := Served([]);
      }
  }
}
