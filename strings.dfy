/** The pieces of Go's standard library that the batch code leans on, written
    out: strings.ToLower (on ASCII letters), strings.TrimSpace,
    strings.Split and strings.Join with a one-character separator, the
    zero-value read of a map, and the "lower-cased name -> spelling" index
    that the importer and the batch helpers build with a loop. */
module Strings {

  /** The elements of a sequence, as a set. */
  function ToSet<T>(xs: seq<T>): set<T> {
    set x | x in xs
  }

  /** No element occurs twice. */
  predicate Distinct<T(==)>(xs: seq<T>) {
    forall i, j :: 0 <= i < j < |xs| ==> xs[i] != xs[j]
  }

  /** xs lists every element of s exactly once, in some order (how a Go map or
      mapset is walked: the order is unspecified). */
  predicate Enumerates<T(==)>(xs: seq<T>, s: set<T>) {
    Distinct(xs) && ToSet(xs) == s
  }

  // ---------------------------------------------------------------------------
  // strings.ToLower

  /** Lower-cases one ASCII letter; every other character is kept. */
  function LowerChar(c: char): char {
    if 'A' <= c <= 'Z' then (c as int - 'A' as int + 'a' as int) as char else c
  }

  /** strings.ToLower, character by character, on ASCII letters only. */
  function Lower(s: string): (r: string)
    ensures |r| == |s|
    ensures forall i :: 0 <= i < |s| ==> r[i] == LowerChar(s[i])
  {
    if s == [] then [] else [LowerChar(s[0])] + Lower(s[1..])
  }

  /** Lower-casing twice is lower-casing once. */
  lemma LowerIdempotent(s: string)
    ensures Lower(Lower(s)) == Lower(s)
  {
    assert forall i :: 0 <= i < |s| ==> Lower(Lower(s))[i] == Lower(s)[i];
  }

  /** Only the empty name lower-cases to the empty key. */
  lemma LowerEmpty(s: string)
    ensures Lower(s) == "" <==> s == ""
  {
  }

  // ---------------------------------------------------------------------------
  // Go maps read with m[k]

  /** m[k] in Go: the stored value, or the zero value "" for a missing key. */
  function GoGet(m: map<string, string>, k: string): string {
    if k in m then m[k] else ""
  }

  /** Every key of a case index is the lower-cased form of its value. */
  ghost predicate IndexWF(m: map<string, string>) {
    forall k :: k in m ==> Lower(m[k]) == k
  }

  /** The "lower-cased name -> spelling" map that a loop
        for _, n := range names { m[strings.ToLower(n)] = n }
      leaves behind (importer.go getAllUserNames/getAllRoleNames and batch.go
      stringArrayToSetIgnoreCase). */
  function LowerIndex(names: seq<string>): (m: map<string, string>)
    ensures m.Keys == set n | n in names :: Lower(n)
    ensures forall k :: k in m ==> Lower(m[k]) == k && m[k] in names
    decreases |names|
  {
    if names == [] then map[]
    else
      var init, last := names[..|names| - 1], names[|names| - 1];
      assert names == init + [last];
      assert (set n | n in names :: Lower(n)) == (set n | n in init :: Lower(n)) + {Lower(last)};
      LowerIndex(init)[Lower(last) := last]
  }

  /** In the index, a key maps to the LAST spelling that lower-cases to it. */
  lemma {:induction false} LowerIndexLastWins(names: seq<string>, i: nat)
    requires i < |names|
    requires forall j :: i < j < |names| ==> Lower(names[j]) != Lower(names[i])
    ensures Lower(names[i]) in LowerIndex(names)
    ensures LowerIndex(names)[Lower(names[i])] == names[i]
    decreases |names|
  {
    if i < |names| - 1 {
      var init := names[..|names| - 1];
      assert init[i] == names[i];
      LowerIndexLastWins(init, i);
    }
  }

  // ---------------------------------------------------------------------------
  // strings.TrimSpace

  /** unicode.IsSpace: the Latin-1 spaces and the other White_Space characters. */
  predicate IsSpace(c: char) {
    || c == '\t' || c == '\n' || c == '\U{B}' || c == '\U{C}' || c == '\r' || c == ' '
    || c == '\U{85}' || c == '\U{A0}' || c == '\U{1680}'
    || ('\U{2000}' <= c <= '\U{200A}')
    || c == '\U{2028}' || c == '\U{2029}' || c == '\U{202F}' || c == '\U{205F}' || c == '\U{3000}'
  }

  /** strings.TrimSpace: the text between the leading and trailing white
      space, found by dropping one white-space character at a time from
      the front, then from the back. */
  function TrimSpace(s: string): (r: string)
    ensures |r| <= |s|
    ensures r == [] || (!IsSpace(r[0]) && !IsSpace(r[|r| - 1]))
    decreases |s|
  {
    if s != [] && IsSpace(s[0]) then TrimSpace(s[1..])
    else if s != [] && IsSpace(s[|s| - 1]) then TrimSpace(s[..|s| - 1])
    else s
  }

  /** The trimmed text is the slice s[a..a + |TrimSpace(s)|], and everything
      around it in s is white space. */
  lemma {:induction false} TrimSpaceIsSlice(s: string) returns (a: nat)
    ensures a + |TrimSpace(s)| <= |s|
    ensures TrimSpace(s) == s[a..a + |TrimSpace(s)|]
    ensures forall i :: 0 <= i < a ==> IsSpace(s[i])
    ensures forall i :: a + |TrimSpace(s)| <= i < |s| ==> IsSpace(s[i])
    decreases |s|
  {
    if s != [] && IsSpace(s[0]) {
      assert TrimSpace(s) == TrimSpace(s[1..]);
      var b := TrimSpaceIsSlice(s[1..]);
      SliceAfterSpace(s, s[1..], TrimSpace(s), b);
      a := b + 1;
    } else if s != [] && IsSpace(s[|s| - 1]) {
      assert TrimSpace(s) == TrimSpace(s[..|s| - 1]);
      a := TrimSpaceIsSlice(s[..|s| - 1]);
      SliceBeforeSpace(s, s[..|s| - 1], TrimSpace(s), a);
    } else {
      assert TrimSpace(s) == s[0..|s|];
      a := 0;
    }
  }

  /** A slice of s[1..] surrounded by white space, when s starts with white
      space, is a slice of s surrounded by white space one position on. */
  lemma SliceAfterSpace(s: string, rest: string, t: string, b: nat)
    requires s != [] && IsSpace(s[0]) && rest == s[1..]
    requires b + |t| <= |rest| && t == rest[b..b + |t|]
    requires forall i :: 0 <= i < b ==> IsSpace(rest[i])
    requires forall i :: b + |t| <= i < |rest| ==> IsSpace(rest[i])
    ensures t == s[b + 1..b + 1 + |t|]
    ensures forall i :: 0 <= i < b + 1 ==> IsSpace(s[i])
    ensures forall i :: b + 1 + |t| <= i < |s| ==> IsSpace(s[i])
  {
    forall i | 0 < i < |s|
      ensures s[i] == rest[i - 1]
    {
    }
  }

  /** A slice of the front of s surrounded by white space, when s ends with
      white space, is a slice of s surrounded by white space. */
  lemma SliceBeforeSpace(s: string, front: string, t: string, a: nat)
    requires s != [] && IsSpace(s[|s| - 1]) && front == s[..|s| - 1]
    requires a + |t| <= |front| && t == front[a..a + |t|]
    requires forall i :: 0 <= i < a ==> IsSpace(front[i])
    requires forall i :: a + |t| <= i < |front| ==> IsSpace(front[i])
    ensures t == s[a..a + |t|]
    ensures forall i :: 0 <= i < a ==> IsSpace(s[i])
    ensures forall i :: a + |t| <= i < |s| ==> IsSpace(s[i])
  {
    forall i | 0 <= i < |s| - 1
      ensures s[i] == front[i]
    {
    }
  }

  /** Trimming a string with no white space at its ends changes nothing. */
  lemma TrimSpaceKeepsTrimmed(s: string)
    requires s == [] || (!IsSpace(s[0]) && !IsSpace(s[|s| - 1]))
    ensures TrimSpace(s) == s
  {
  }

  lemma TrimSpaceIdempotent(s: string)
    ensures TrimSpace(TrimSpace(s)) == TrimSpace(s)
  {
    TrimSpaceKeepsTrimmed(TrimSpace(s));
  }

  // ---------------------------------------------------------------------------
  // strings.Split and strings.Join with a one-character separator

  /** Number of occurrences of c in s. */
  function Count(s: string, c: char): nat
    decreases |s|
  {
    if s == [] then 0 else (if s[0] == c then 1 else 0) + Count(s[1..], c)
  }

  /** strings.Split(s, sep): the pieces between separators; the empty string
      gives one empty piece. */
  function Split(s: string, sep: char): (parts: seq<string>)
    ensures |parts| == Count(s, sep) + 1
    ensures forall i :: 0 <= i < |parts| ==> sep !in parts[i]
    decreases |s|
  {
    if s == [] then [""]
    else
      var rest := Split(s[1..], sep);
      if s[0] == sep then [""] + rest else [[s[0]] + rest[0]] + rest[1..]
  }

  /** strings.Join(parts, sep). */
  function Join(parts: seq<string>, sep: char): string
    decreases |parts|
  {
    if parts == [] then ""
    else if |parts| == 1 then parts[0]
    else parts[0] + [sep] + Join(parts[1..], sep)
  }

  /** Joining the pieces of a split gives the string back. */
  lemma {:induction false} JoinSplit(s: string, sep: char)
    ensures Join(Split(s, sep), sep) == s
    decreases |s|
  {
    if s != [] {
      var rest := Split(s[1..], sep);
      JoinSplit(s[1..], sep);
      if s[0] == sep {
        assert Split(s, sep) == [""] + rest;
        assert Join([""] + rest, sep) == "" + [sep] + Join(rest, sep);
      } else {
        var parts := [[s[0]] + rest[0]] + rest[1..];
        assert Split(s, sep) == parts;
        if |rest| == 1 {
          assert Join(parts, sep) == [s[0]] + rest[0];
        } else {
          assert Join(rest, sep) == rest[0] + [sep] + Join(rest[1..], sep);
          assert parts[1..] == rest[1..];
          assert Join(parts, sep) == [s[0]] + rest[0] + [sep] + Join(rest[1..], sep);
        }
      }
    }
  }

  /** Splitting a join gives the pieces back, when no piece holds the separator. */
  lemma {:induction false} SplitJoin(parts: seq<string>, sep: char)
    requires |parts| >= 1
    requires forall i :: 0 <= i < |parts| ==> sep !in parts[i]
    ensures Split(Join(parts, sep), sep) == parts
    decreases |parts|
  {
    if |parts| == 1 {
      SplitNoSeparator(parts[0], sep);
    } else {
      var tail := Join(parts[1..], sep);
      SplitJoin(parts[1..], sep);
      SplitPrefix(parts[0], sep, tail);
      assert Join(parts, sep) == parts[0] + ([sep] + tail);
      assert [parts[0]] + parts[1..] == parts;
    }
  }

  lemma {:induction false} SplitNoSeparator(p: string, sep: char)
    requires sep !in p
    ensures Split(p, sep) == [p]
    decreases |p|
  {
    if p != [] {
      SplitNoSeparator(p[1..], sep);
      assert [p[0]] + p[1..] == p;
    }
  }

  /** A separator-free prefix glues onto the first piece of what follows it. */
  lemma {:induction false} SplitPrefix(p: string, sep: char, tail: string)
    requires sep !in p
    ensures Split(p + ([sep] + tail), sep) == [p] + Split(tail, sep)
    decreases |p|
  {
    if p == [] {
      assert p + ([sep] + tail) == [sep] + tail;
      assert ([sep] + tail)[1..] == tail;
    } else {
      var s := p + ([sep] + tail);
      assert s[0] == p[0] && s[1..] == p[1..] + ([sep] + tail);
      SplitPrefix(p[1..], sep, tail);
      assert [p[0]] + p[1..] == p;
    }
  }
}
