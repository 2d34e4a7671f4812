/** Searching a list of lines. */
module Lines {
  import opened Text

  /** The end of the run of non-blank lines starting at `j`. */
  function BlockEnd(lines: seq<string>, j: nat): (r: nat)
    requires j <= |lines|
    ensures j <= r <= |lines|
    decreases |lines| - j
  {
    if j == |lines| || Blank(lines[j]) then j else BlockEnd(lines, j + 1)
  }

  ghost predicate StartsBlank(lines: seq<string>) {
    lines == [] || Blank(lines[0])
  }

  /** The run is as long as it can be and no longer. */
  lemma {:induction false} BlockEndStops(lines: seq<string>, j: nat)
    requires j <= |lines|
    ensures AllNonBlank(lines[j..BlockEnd(lines, j)])
    ensures StartsBlank(lines[BlockEnd(lines, j)..])
    decreases |lines| - j
  {
    if j < |lines| && !Blank(lines[j]) {
      BlockEndStops(lines, j + 1);
      assert lines[j..BlockEnd(lines, j)] == [lines[j]] + lines[j + 1..BlockEnd(lines, j)];
    }
  }

  lemma {:induction false} BlockEndAt(pre: seq<string>, run: seq<string>, rest: seq<string>)
    requires AllNonBlank(run) && StartsBlank(rest)
    ensures BlockEnd(pre + run + rest, |pre|) == |pre| + |run|
    decreases |run|
  {
    if run == [] {
      assert rest != [] ==> (pre + run + rest)[|pre|] == rest[0];
    } else {
      assert pre + run + rest == (pre + [run[0]]) + run[1..] + rest;
      assert (pre + run + rest)[|pre|] == run[0];
      BlockEndAt(pre + [run[0]], run[1..], rest);
    }
  }

  predicate AllNonBlank(lines: seq<string>) {
    forall i :: 0 <= i < |lines| ==> !Blank(lines[i])
  }

  // ---------- text files as lists of lines ----------

  /** `f.readlines()` on the decoded text of a file: every line keeps its newline. */
  function ReadLines(text: string): seq<string> {
    if text == "" then []
    else
      var r := ReadLines(text[1..]);
      if text[0] == '\n' || r == [] then [[text[0]]] + r
      else [[text[0]] + r[0]] + r[1..]
  }

  /** `f.writelines(lines)`. */
  function WriteLines(lines: seq<string>): string {
    if lines == [] then "" else lines[0] + WriteLines(lines[1..])
  }

  predicate Terminated(line: string) {
    line != "" && line[|line| - 1] == '\n'
  }

  /** A non-empty line with no newline before its last character. */
  predicate OneLine(line: string) {
    line != "" && forall i :: 0 <= i < |line| - 1 ==> line[i] != '\n'
  }

  /** The lists `readlines` can return: only the last line may lack its newline. */
  predicate LineList(lines: seq<string>) {
    && (forall i :: 0 <= i < |lines| ==> OneLine(lines[i]))
    && forall i :: 0 <= i < |lines| - 1 ==> Terminated(lines[i])
  }

  lemma LineFirst(line: string, rest: seq<string>)
    requires OneLine(line) && LineList(rest) && (rest != [] ==> Terminated(line))
    ensures WriteLines([line] + rest) == line + WriteLines(rest) && LineList([line] + rest)
  {
    hide OneLine, Terminated;
    assert ([line] + rest)[1..] == rest;
  }

  lemma LineLengthens(c: char, line: string, rest: seq<string>)
    requires c != '\n' && LineList([line] + rest)
    ensures WriteLines([[c] + line] + rest) == [c] + WriteLines([line] + rest) && LineList([[c] + line] + rest)
  {
    var lines := [line] + rest;
    assert lines[0] == line && lines[1..] == rest;
    assert ([[c] + line] + rest)[1..] == rest;
    assert OneLine([c] + line) && (Terminated(line) ==> Terminated([c] + line));
    hide OneLine, Terminated;
    forall i | 0 <= i < |rest| ensures OneLine(rest[i]) && (i < |rest| - 1 ==> Terminated(rest[i])) {
      assert rest[i] == lines[i + 1];
    }
  }

  /** Reading what was written gives the text back, as one list of lines per text. */
  lemma {:induction false} WriteRead(text: string)
    ensures WriteLines(ReadLines(text)) == text
    ensures LineList(ReadLines(text))
  {
    if text == "" {
    } else {
      var r := ReadLines(text[1..]);
      WriteRead(text[1..]);
      assert text == [text[0]] + text[1..];
      assert ReadLines(text) == if text[0] == '\n' || r == [] then [[text[0]]] + r else [[text[0]] + r[0]] + r[1..];
      hide ReadLines;
      if text[0] == '\n' || r == [] {
        LineFirst([text[0]], r);
      } else {
        assert r == [r[0]] + r[1..];
        LineLengthens(text[0], r[0], r[1..]);
      }
    }
  }

  lemma {:induction false} ReadFirst(line: string, rest: string)
    requires OneLine(line) && (Terminated(line) || rest == "")
    ensures ReadLines(line + rest) == [line] + ReadLines(rest)
  {
    assert (line + rest)[1..] == line[1..] + rest;
    if |line| == 1 {
      assert line == [line[0]] && line[1..] + rest == rest;
    } else {
      assert forall i :: 0 <= i < |line[1..]| - 1 ==> line[1..][i] == line[i + 1];
      ReadFirst(line[1..], rest);
      assert line == [line[0]] + line[1..];
    }
  }

  /** A list of lines survives being written and read back exactly when it is a line list. */
  lemma {:induction false} ReadWrite(lines: seq<string>)
    ensures ReadLines(WriteLines(lines)) == lines <==> LineList(lines)
  {
    WriteRead(WriteLines(lines));
    if LineList(lines) {
      ReadWriteLines(lines);
    }
  }

  lemma {:induction false} ReadWriteLines(lines: seq<string>)
    requires LineList(lines)
    ensures ReadLines(WriteLines(lines)) == lines
  {
    if lines == [] {
    } else {
      ReadWriteLines(lines[1..]);
      assert lines == [lines[0]] + lines[1..];
      if |lines| == 1 {
        assert WriteLines(lines[1..]) == "";
      }
      ReadFirst(lines[0], WriteLines(lines[1..]));
    }
  }
}
