// Telling a Carte job or transformation ID from its name
// (src/pentahotools/client/carte_util.go). The regular-expression search is modelled by a
// scan over the start positions of a candidate UUID.

module CarteUtil {
  /** A character of the class [a-f0-9]. */
  predicate LowerHex(c: char) {
    ('0' <= c <= '9') || ('a' <= c <= 'f')
  }

  /** s[i..i + n] is made of lower-case hexadecimal digits. */
  predicate HexRun(s: string, i: nat, n: nat)
    requires i + n <= |s|
  {
    forall k :: i <= k < i + n ==> LowerHex(s[k])
  }

  /** The pattern [a-f0-9]{8}-[a-f0-9]{4}-[a-f0-9]{4}-[a-f0-9]{4}-[a-f0-9]{12}
      matches s starting at position i. */
  predicate UuidAt(s: string, i: nat) {
    && i + 36 <= |s|
    && HexRun(s, i, 8) && s[i + 8] == '-'
    && HexRun(s, i + 9, 4) && s[i + 13] == '-'
    && HexRun(s, i + 14, 4) && s[i + 18] == '-'
    && HexRun(s, i + 19, 4) && s[i + 23] == '-'
    && HexRun(s, i + 24, 12)
  }

  /** The unanchored match: the pattern occurs somewhere in s. */
  ghost predicate ContainsUuid(s: string) {
    exists i: nat :: UuidAt(s, i)
  }

  /** Whether the pattern starts at some position from i on. */
  function MatchesFrom(s: string, i: nat): bool
    decreases |s| - i
  {
    if i + 36 > |s| then false else UuidAt(s, i) || MatchesFrom(s, i + 1)
  }

  lemma {:induction false} MatchesFromFinds(s: string, i: nat)
    ensures MatchesFrom(s, i) <==> exists j: nat :: i <= j && UuidAt(s, j)
    decreases |s| - i
  {
    if i + 36 <= |s| {
      MatchesFromFinds(s, i + 1);
      if exists j: nat :: i <= j && UuidAt(s, j) {
        var j: nat :| i <= j && UuidAt(s, j);
        if j > i {
          assert i + 1 <= j;
        }
      }
    }
  }

  /** ParseIDAndName: the whole argument is the ID when it contains a UUID,
      and the name otherwise; the other part is empty. */
  function ParseIDAndName(s: string): (r: (string, string))
    ensures ContainsUuid(s) ==> r == (s, "")
    ensures !ContainsUuid(s) ==> r == ("", s)
  {
    MatchesFromFinds(s, 0);
    if MatchesFrom(s, 0) then (s, "") else ("", s)
  }

  /** The two parts put together give the argument back, and at most one
      of them is non-empty. */
  lemma ParsePartition(s: string)
    ensures ParseIDAndName(s).0 + ParseIDAndName(s).1 == s
    ensures ParseIDAndName(s).0 == "" || ParseIDAndName(s).1 == ""
    ensures ParseIDAndName(s).0 != "" <==> ContainsUuid(s)
  {
    if ContainsUuid(s) {
      var i: nat :| UuidAt(s, i);
      assert |s| >= 36;
    }
  }

  /** A UUID surrounded by other text still makes the whole text an ID. */
  lemma EmbeddedUuidIsId(before: string, uuid: string, after: string)
    requires UuidAt(uuid, 0)
    ensures ParseIDAndName(before + uuid + after) == (before + uuid + after, "")
  {
    var s := before + uuid + after;
    forall k | 0 <= k < 36
      ensures s[|before| + k] == uuid[k]
    {
    }
    assert UuidAt(s, |before|);
  }

  /** Text shorter than a UUID, the empty string included, is a name. */
  lemma ShortTextIsName(s: string)
    requires |s| < 36
    ensures ParseIDAndName(s) == ("", s)
  {
  }

  /** The positions of a 36-character UUID that hold hexadecimal digits
      (all but the four dashes). */
  predicate HexPosition(k: int) {
    0 <= k < 36 && k != 8 && k != 13 && k != 18 && k != 23
  }

  /** The class is lower-case only: text of a UUID's length with an
      upper-case hexadecimal digit at any digit position is a name. */
  lemma UpperCaseUuidIsName(s: string, k: nat)
    requires |s| == 36 && HexPosition(k) && 'A' <= s[k] <= 'F'
    ensures ParseIDAndName(s) == ("", s)
  {
    assert !LowerHex(s[k]);
    if k < 8 {
      assert !HexRun(s, 0, 8);
    } else if k < 13 {
      assert !HexRun(s, 9, 4);
    } else if k < 18 {
      assert !HexRun(s, 14, 4);
    } else if k < 23 {
      assert !HexRun(s, 19, 4);
    } else {
      assert !HexRun(s, 24, 12);
    }
  }

  /** Letters are not needed: text shaped like a UUID whose digit
      positions hold decimal digits only is an ID. */
  lemma DigitOnlyUuidIsId(s: string)
    requires |s| == 36 && s[8] == '-' && s[13] == '-' && s[18] == '-' && s[23] == '-'
    requires forall k :: HexPosition(k) ==> '0' <= s[k] <= '9'
    ensures ParseIDAndName(s) == (s, "")
  {
    assert UuidAt(s, 0);
  }
}
