// The indenting printer used to lay out Carte status reports
// (src/pentahotools/client/indent_writer.go). The io.Writer it prints to is modelled by
// the text written to it so far.

module IndentWriters {
  import opened Strings

  /** n spaces. */
  function Spaces(n: nat): (r: string)
    ensures |r| == n
    ensures forall i :: 0 <= i < |r| ==> r[i] == ' '
    decreases n
  {
    if n == 0 then "" else " " + Spaces(n - 1)
  }

  /** The indentation of nesting level k: two spaces per level. */
  function Indent(k: nat): string {
    Spaces(2 * k)
  }

  /** The indentation after DecrementLevel: empty when shorter than two
      characters, otherwise the last two characters dropped. */
  function Decremented(indent: string): string {
    if |indent| < 2 then "" else indent[..|indent| - 2]
  }

  lemma {:induction false} SpacesSnoc(n: nat)
    ensures Spaces(n) + " " == " " + Spaces(n)
    decreases n
  {
    if n > 0 {
      SpacesSnoc(n - 1);
      calc {
        Spaces(n) + " ";
        " " + (Spaces(n - 1) + " ");
        " " + (" " + Spaces(n - 1));
      }
    }
  }

  /** Prepending two spaces enters the next level. */
  lemma IncrementLevelOf(k: nat)
    ensures "  " + Indent(k) == Indent(k + 1)
  {
    assert Spaces(2 * k + 2) == " " + (" " + Spaces(2 * k));
  }

  /** Dropping two characters leaves the previous level; at level 0 the
      indentation stays empty. */
  lemma DecrementLevelOf(k: nat)
    ensures Decremented(Indent(k)) == (if k == 0 then "" else Indent(k - 1))
  {
    if k > 0 {
      SpacesSnoc(2 * k - 2);
      SpacesSnoc(2 * k - 1);
      assert Indent(k) == Indent(k - 1) + "  ";
    }
  }

  /** DecrementLevel undoes IncrementLevel at every level. */
  lemma DecrementUndoesIncrement(k: nat)
    ensures Decremented("  " + Indent(k)) == Indent(k)
  {
    IncrementLevelOf(k);
    DecrementLevelOf(k + 1);
  }

  /** What Println(s) sends to the writer: the indentation, s and a newline. */
  function Line(indent: string, s: string): string {
    indent + s + "\n"
  }

  /** What printing each of lines with Println sends to the writer. */
  function Lines(indent: string, lines: seq<string>): string
    decreases |lines|
  {
    if lines == [] then "" else Line(indent, lines[0]) + Lines(indent, lines[1..])
  }

  lemma {:induction false} CountAppend(a: string, b: string, c: char)
    ensures Count(a + b, c) == Count(a, c) + Count(b, c)
    decreases |a|
  {
    if a != [] {
      assert (a + b)[0] == a[0] && (a + b)[1..] == a[1..] + b;
      CountAppend(a[1..], b, c);
    } else {
      assert a + b == b;
    }
  }

  lemma {:induction false} CountAbsent(s: string, c: char)
    requires c !in s
    ensures Count(s, c) == 0
    decreases |s|
  {
    if s != [] {
      CountAbsent(s[1..], c);
    }
  }

  /** Printing lines that hold no newline, under an indentation that holds
      none, writes exactly one newline per line. */
  lemma {:induction false} LinesNewlines(indent: string, lines: seq<string>)
    requires '\n' !in indent
    requires forall i :: 0 <= i < |lines| ==> '\n' !in lines[i]
    ensures Count(Lines(indent, lines), '\n') == |lines|
    decreases |lines|
  {
    if lines != [] {
      LinesNewlines(indent, lines[1..]);
      CountAppend(indent + lines[0], "\n", '\n');
      CountAppend(indent, lines[0], '\n');
      CountAbsent(indent, '\n');
      CountAbsent(lines[0], '\n');
      CountAppend(Line(indent, lines[0]), Lines(indent, lines[1..]), '\n');
    }
  }

  /** PrintMultiline(s) at any level writes Count(s, '\n') + 1 lines. */
  lemma MultilineLineCount(k: nat, s: string)
    ensures Count(Lines(Indent(k), Split(s, '\n')), '\n') == Count(s, '\n') + 1
  {
    LinesNewlines(Indent(k), Split(s, '\n'));
  }

  lemma {:induction false} LinesUnindented(lines: seq<string>)
    requires |lines| >= 1
    ensures Lines("", lines) == Join(lines, '\n') + "\n"
    decreases |lines|
  {
    if |lines| > 1 {
      LinesUnindented(lines[1..]);
      assert Lines("", lines) == lines[0] + "\n" + (Join(lines[1..], '\n') + "\n");
    } else {
      assert Lines("", lines) == lines[0] + "\n" + "";
    }
  }

  /** At level 0, PrintMultiline(s) writes s itself followed by a newline. */
  lemma MultilineAtTopLevel(s: string)
    ensures Lines(Indent(0), Split(s, '\n')) == s + "\n"
  {
    LinesUnindented(Split(s, '\n'));
    JoinSplit(s, '\n');
  }

  class IndentWriter {
    /** The current indentation. */
    var indent: string
    /** Everything sent to the underlying writer so far. */
    var written: string
    /** The nesting level the indentation stands for. */
    ghost var level: nat

    ghost predicate Valid()
      reads this
    {
      indent == Indent(level)
    }

    /** NewIndentWriter: level 0, nothing written. */
    constructor ()
      ensures Valid() && level == 0
      ensures indent == "" && written == ""
    {
      indent := "";
      written := "";
      level := 0;
    }

    method IncrementLevel()
      requires Valid()
      modifies this
      ensures Valid() && level == old(level) + 1
      ensures indent == "  " + old(indent)
      ensures written == old(written)
    {
      IncrementLevelOf(level);
      indent := "  " + indent;
      level := level + 1;
    }

    method DecrementLevel()
      requires Valid()
      modifies this
      ensures Valid() && level == (if old(level) == 0 then 0 else old(level) - 1)
      ensures indent == Decremented(old(indent))
      ensures written == old(written)
    {
      DecrementLevelOf(level);
      if |indent| < 2 {
        indent := "";
      } else {
        indent := indent[..|indent| - 2];
      }
      if level > 0 {
        level := level - 1;
      }
    }

    /** Println of a string value: the indentation, then s and a newline. */
    method Println(s: string)
      modifies this
      ensures written == old(written) + Line(indent, s)
      ensures indent == old(indent) && level == old(level)
    {
      written := written + indent;
      written := written + s + "\n";
    }

    /** Every newline-separated piece of s printed as its own line. */
    method PrintMultiline(s: string)
      modifies this
      ensures written == old(written) + Lines(indent, Split(s, '\n'))
      ensures indent == old(indent) && level == old(level)
    {
      var lines := Split(s, '\n');
      var i := 0;
      while i < |lines|
        invariant 0 <= i <= |lines|
        invariant indent == old(indent) && level == old(level)
        invariant written + Lines(indent, lines[i..]) == old(written) + Lines(indent, lines)
        decreases |lines| - i
      {
        assert Lines(indent, lines[i..]) == Line(indent, lines[i]) + Lines(indent, lines[i + 1..]);
        Println(lines[i]);
        i := i + 1;
      }
      assert lines[i..] == [];
    }

    /** Printf with its already formatted text: the indentation once, before it. */
    method Printf(text: string)
      modifies this
      ensures written == old(written) + indent + text
      ensures indent == old(indent) && level == old(level)
    {
      written := written + indent;
      written := written + text;
    }
  }
}
