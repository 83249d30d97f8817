/**
 * `SimpleLineWriter`: a log sink that appends each line, followed by a
 * line break, to a `StringBuilder` and hands the whole text back.
 */
module SimpleLineWriters {
  import opened Text

  /** `Environment.NewLine` on a Unix host. */
  const NewLine: char := '\n'

  /** The text of the lines written in order, each followed by a line break. */
  function Written(lines: seq<string>): string {
    if lines == [] then "" else lines[0] + [NewLine] + Written(lines[1..])
  }

  /** Writing one more line appends it and a line break to the text. */
  lemma {:induction false} WrittenSnoc(lines: seq<string>, line: string)
    ensures Written(lines + [line]) == Written(lines) + line + [NewLine]
    decreases |lines|
  {
    if lines == [] {
      assert [line][1..] == [];
    } else {
      assert (lines + [line])[1..] == lines[1..] + [line];
      WrittenSnoc(lines[1..], line);
    }
  }

  /**
   * The lines can be read back: splitting the text at line breaks gives
   * the lines written, then the empty piece after the last break.
   */
  lemma {:induction false} SplitWritten(lines: seq<string>)
    requires forall i :: 0 <= i < |lines| ==> NewLine !in lines[i]
    ensures Split(Written(lines), NewLine) == lines + [""]
    decreases |lines|
  {
    if lines != [] {
      var rest := Written(lines[1..]);
      SplitWritten(lines[1..]);
      assert Written(lines) == lines[0] + ([NewLine] + rest);
      SplitPrepend(lines[0], [NewLine] + rest, NewLine);
      assert ([NewLine] + rest)[1..] == rest;
      assert Split([NewLine] + rest, NewLine) == [""] + Split(rest, NewLine);
      assert lines[0] + "" == lines[0];
      assert lines == [lines[0]] + lines[1..];
    }
  }

  class SimpleLineWriter {
    var sb: string
    ghost var lines: seq<string>

    /** The buffer holds exactly the lines written so far. */
    ghost predicate Valid()
      reads this
    {
      sb == Written(lines)
    }

    /** A writer with an empty buffer. */
    constructor ()
      ensures Valid() && lines == [] && sb == ""
    {
      sb := "";
      lines := [];
    }

    /** `GetString()`: the buffer's text, the written lines in call order. */
    function GetString(): (s: string)
      reads this
      requires Valid()
      ensures s == Written(lines)
    {
      sb
    }

    /** `WriteLine(line)`: `AppendLine`, the line then a line break. */
    method WriteLine(line: string)
      requires Valid()
      modifies this
      ensures Valid()
      ensures lines == old(lines) + [line]
      ensures sb == old(sb) + line + [NewLine]
    {
      WrittenSnoc(lines, line);
      sb := sb + line + [NewLine];
      lines := lines + [line];
    }
  }
}
