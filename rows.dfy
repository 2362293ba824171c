/** The row source of batch/batch.go: a UserTable reads the rows of a user
    table (name, roles cell, password), normalises each one and skips the
    rows whose name is blank. The file formats behind it (CSV, Excel, the
    character-set transform) are not modelled: a table is given as the
    sequence of its raw rows. */
module Rows {
  import opened Strings
  import opened Errors

  /** The three cells of one table row, as the table reader gives them. */
  datatype RawRow = RawRow(name: string, rolesCell: string, password: string)

  /** UserRow: the trimmed name, the roles in the row's own order and
      spelling, and the trimmed password; RoleSet is the lower-cased role
      set the Go struct carries alongside them. */
  datatype UserRow = UserRow(name: string, roles: seq<string>, password: string)
  {
    function RoleSet(): set<string> {
      LowerSet(roles)
    }
  }

  /** The lower-cased forms of the names. */
  function LowerSet(xs: seq<string>): set<string> {
    set x | x in xs :: Lower(x)
  }

  /** The lower-cased set is exactly the key set of the case index. */
  lemma LowerSetIsIndexKeys(xs: seq<string>)
    ensures LowerSet(xs) == LowerIndex(xs).Keys
  {
  }

  /** The lower-cased set does not depend on the case of the names. */
  lemma {:induction false} LowerSetIgnoresCase(xs: seq<string>, ys: seq<string>)
    requires |xs| == |ys|
    requires forall i :: 0 <= i < |xs| ==> Lower(xs[i]) == Lower(ys[i])
    ensures LowerSet(xs) == LowerSet(ys)
  {
    forall x | x in LowerSet(xs)
      ensures x in LowerSet(ys)
    {
      var i :| 0 <= i < |xs| && Lower(xs[i]) == x;
      assert ys[i] in ys;
    }
    forall y | y in LowerSet(ys)
      ensures y in LowerSet(xs)
    {
      var i :| 0 <= i < |ys| && Lower(ys[i]) == y;
      assert xs[i] in xs;
    }
  }

  /** One more name: the set gains its lower-cased form and the index maps
      that form to it. */
  lemma LowerStep(xs: seq<string>, i: nat)
    requires i < |xs|
    ensures LowerSet(xs[..i + 1]) == LowerSet(xs[..i]) + {Lower(xs[i])}
    ensures LowerIndex(xs[..i + 1]) == LowerIndex(xs[..i])[Lower(xs[i]) := xs[i]]
  {
    assert xs[..i + 1] == xs[..i] + [xs[i]];
    assert xs[..i + 1][..i] == xs[..i];
  }

  /** Updating a merged map updates its right-hand side. */
  lemma MergeUpdate(a: map<string, string>, b: map<string, string>, k: string, v: string)
    ensures (a + b)[k := v] == a + b[k := v]
  {
  }

  /** stringArrayToSetIgnoreCase (batch.go): the set of lower-cased names and,
      when a map is passed in, that map with each lower-cased name set to
      the last spelling of it among the elements. A Go map is a reference;
      here the updated map is handed back. */
  method StringArrayToSetIgnoreCase(elements: seq<string>, lowerToOriginal: Option<map<string, string>>)
    returns (s: set<string>, m: Option<map<string, string>>)
    ensures s == LowerSet(elements)
    ensures m.Some? <==> lowerToOriginal.Some?
    ensures m.Some? ==> m.value == lowerToOriginal.value + LowerIndex(elements)
  {
    s := {};
    m := lowerToOriginal;
    var i := 0;
    while i < |elements|
      invariant 0 <= i <= |elements|
      invariant s == LowerSet(elements[..i])
      invariant m.Some? <==> lowerToOriginal.Some?
      invariant m.Some? ==> m.value == lowerToOriginal.value + LowerIndex(elements[..i])
    {
      var elm := elements[i];
      var lower := Lower(elm);
      LowerStep(elements, i);
      s := s + {lower};
      if m.Some? {
        MergeUpdate(lowerToOriginal.value, LowerIndex(elements[..i]), lower, elm);
        m := Some(m.value[lower := elm]);
      }
      i := i + 1;
    }
    assert elements[..|elements|] == elements;
  }

  /** The normalisation in UserTable.Read: None for a row whose trimmed name
      is empty; otherwise the trimmed name and password, the trimmed roles
      cell split at ':' and the lower-cased set of those roles. */
  function Normalize(raw: RawRow): (r: Option<UserRow>)
    ensures r.None? <==> TrimSpace(raw.name) == ""
    ensures r.Some? ==>
      && r.value.name == TrimSpace(raw.name)
      && r.value.password == TrimSpace(raw.password)
  {
    var userName := TrimSpace(raw.name);
    var roles := Split(TrimSpace(raw.rolesCell), ':');
    if |userName| == 0 then None
    else Some(UserRow(userName, roles, TrimSpace(raw.password)))
  }

  /** The roles of a normalised row are at least one, none holds ':', and
      joining them with ':' gives the trimmed cell back. */
  lemma NormalizeRoles(raw: RawRow)
    requires Normalize(raw).Some?
    ensures var roles := Normalize(raw).value.roles;
      && |roles| >= 1
      && (forall i :: 0 <= i < |roles| ==> ':' !in roles[i])
      && Join(roles, ':') == TrimSpace(raw.rolesCell)
  {
    JoinSplit(TrimSpace(raw.rolesCell), ':');
  }

  /** An empty (or blank) roles cell gives the single role "". */
  lemma EmptyRolesCell(raw: RawRow)
    requires TrimSpace(raw.name) != "" && TrimSpace(raw.rolesCell) == ""
    ensures Normalize(raw).value.roles == [""]
  {
  }

  /** Writing a normalised row back as cells (roles joined with ':') and
      normalising it again gives the same row. */
  lemma NormalizeIdempotent(raw: RawRow)
    requires Normalize(raw).Some?
    ensures var r := Normalize(raw).value;
      Normalize(RawRow(r.name, Join(r.roles, ':'), r.password)) == Some(r)
  {
    var r := Normalize(raw).value;
    NormalizeRoles(raw);
    TrimSpaceIdempotent(raw.name);
    TrimSpaceIdempotent(raw.rolesCell);
    TrimSpaceIdempotent(raw.password);
    SplitJoin(r.roles, ':');
  }

  /** The values f gives for the elements it does not reject, in order. */
  function Present<A, B>(xs: seq<A>, f: A -> Option<B>): (ys: seq<B>)
    ensures |ys| <= |xs|
    decreases |xs|
  {
    if xs == [] then []
    else (match f(xs[0]) case None => [] case Some(y) => [y]) + Present(xs[1..], f)
  }

  /** Present from position i on: the i-th element's value (if any) and the rest. */
  lemma PresentFrom<A, B>(xs: seq<A>, f: A -> Option<B>, i: nat)
    requires i < |xs|
    ensures Present(xs[i..], f)
         == (match f(xs[i]) case None => [] case Some(y) => [y]) + Present(xs[i + 1..], f)
  {
    assert xs[i..][1..] == xs[i + 1..];
  }

  /** A value is present exactly when f gives it for some element. */
  lemma {:induction false} PresentContains<A, B>(xs: seq<A>, f: A -> Option<B>, y: B)
    ensures y in Present(xs, f) <==> exists j :: 0 <= j < |xs| && f(xs[j]) == Some(y)
    decreases |xs|
  {
    if xs != [] {
      PresentContains(xs[1..], f, y);
      if exists j :: 0 <= j < |xs| && f(xs[j]) == Some(y) {
        var j :| 0 <= j < |xs| && f(xs[j]) == Some(y);
        if j > 0 {
          assert xs[1..][j - 1] == xs[j];
        }
      }
      if exists j :: 0 <= j < |xs| - 1 && f(xs[1..][j]) == Some(y) {
        var j :| 0 <= j < |xs| - 1 && f(xs[1..][j]) == Some(y);
        assert xs[j + 1] == xs[1..][j];
      }
    }
  }

  /** The rows a complete read of the table gives, in table order: the
      normalised rows, without the ones whose name is blank. */
  function ReadAll(raws: seq<RawRow>): (rows: seq<UserRow>)
    ensures |rows| <= |raws|
    ensures forall r :: r in rows ==> |r.name| > 0
  {
    var rows := Present(raws, Normalize);
    forall r | r in rows
      ensures |r.name| > 0
    {
      PresentContains(raws, Normalize, r);
    }
    rows
  }

  /** A row is read exactly when some raw row of the table normalises to it;
      in particular no row with a non-blank name is lost. */
  lemma ReadAllNormalized(raws: seq<RawRow>, r: UserRow)
    ensures r in ReadAll(raws) <==> exists j :: 0 <= j < |raws| && Normalize(raws[j]) == Some(r)
  {
    PresentContains(raws, Normalize, r);
  }

  /** Every row read survives being written back as cells and read again. */
  lemma ReadAllRoundTrip(raws: seq<RawRow>, r: UserRow)
    requires r in ReadAll(raws)
    ensures Normalize(RawRow(r.name, Join(r.roles, ':'), r.password)) == Some(r)
  {
    PresentContains(raws, Normalize, r);
    var j :| 0 <= j < |raws| && Normalize(raws[j]) == Some(r);
    NormalizeIdempotent(raws[j]);
  }

  /** Reading past a raw row whose name is blank gives nothing. */
  lemma ReadSkips(raws: seq<RawRow>, i: nat)
    requires i < |raws| && Normalize(raws[i]).None?
    ensures ReadAll(raws[i..]) == ReadAll(raws[i + 1..])
  {
    PresentFrom(raws, Normalize, i);
  }

  /** Reading a raw row whose name is not blank gives its normalised row. */
  lemma ReadTakes(raws: seq<RawRow>, i: nat)
    requires i < |raws| && Normalize(raws[i]).Some?
    ensures ReadAll(raws[i..]) != []
    ensures ReadAll(raws[i..])[0] == Normalize(raws[i]).value
    ensures ReadAll(raws[i..])[1..] == ReadAll(raws[i + 1..])
  {
    PresentFrom(raws, Normalize, i);
  }

  /** A UserTable: the reader's raw rows and its position, and the row count
      taken when the table was opened. */
  class UserTable {
    const raws: seq<RawRow>
    var next: nat
    const count: nat

    ghost predicate Valid()
      reads this
    {
      next <= |raws|
    }

    /** The rows still to be read. */
    ghost function Unread(): seq<UserRow>
      reads this
      requires Valid()
    {
      ReadAll(raws[next..])
    }

    /** A reader positioned before the first row. */
    constructor Open(raws: seq<RawRow>, count: nat)
      ensures Valid() && this.raws == raws && next == 0 && this.count == count
      ensures Unread() == ReadAll(raws)
    {
      this.raws := raws;
      this.next := 0;
      this.count := count;
      new;
      assert raws[0..] == raws;
    }

    /** NewUserTable: a first reader counts the rows by reading them all; the
        table returned reads from the first row again. */
    static method NewUserTable(raws: seq<RawRow>) returns (t: UserTable)
      ensures fresh(t) && t.Valid() && t.raws == raws && t.next == 0
      ensures t.Unread() == ReadAll(raws)
      ensures t.GetCount() == |ReadAll(raws)|
    {
      var tmp := new UserTable.Open(raws, 0);
      var count := 0;
      while true
        invariant fresh(tmp) && tmp.Valid() && tmp.raws == raws
        invariant count + |tmp.Unread()| == |ReadAll(raws)|
        decreases |tmp.raws| - tmp.next
      {
        var row := tmp.Read();
        if row.None? {
          break;
        }
        count := count + 1;
      }
      t := new UserTable.Open(raws, count);
    }

    /** GetCount. */
    function GetCount(): (n: nat)
      reads this
    {
      count
    }

    /** Read: the next row whose trimmed name is not blank, normalised, or
        None at the end of the table. */
    method Read() returns (row: Option<UserRow>)
      requires Valid()
      modifies this
      ensures Valid()
      ensures row.None? <==> old(Unread()) == []
      ensures row.None? ==> Unread() == []
      ensures row.Some? ==> row.value == old(Unread())[0] && Unread() == old(Unread())[1..] && next > old(next)
    {
      ghost var pending := ReadAll(raws[next..]);
      var i := next;
      // skip the rows whose name is blank
      while i < |raws| && Normalize(raws[i]).None?
        invariant next <= i <= |raws|
        invariant ReadAll(raws[i..]) == pending
      {
        ReadSkips(raws, i);
        i := i + 1;
      }
      if i == |raws| {
        assert raws[i..] == [];
        next := i;
        return None;
      }
      ReadTakes(raws, i);
      next := i + 1;
      return Normalize(raws[i]);
    }
  }
}
