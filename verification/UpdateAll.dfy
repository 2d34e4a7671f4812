/** `fix_file` and `update_all` of scripts/update_test_expected.py, over the test files on disk. */
module UpdateAll {
  import opened Text
  import opened Lines
  import FailureLog
  import opened ExpectedBlocks

  type Files = map<string, string>

  /** What `run_tests` returns. */
  datatype RunResult = RunResult(ok: bool, stderr: string)

  /** The test runner: what it says of the files in a given round. */
  type Runner = (nat, Files) -> RunResult

  datatype Outcome =
    | Passed           // returned True
    | NothingToFix     // returned False: a failing run without a wrong-result failure
    | NotConverged     // returned False: the rounds ran out
    | MissingFile      // raised FileNotFoundError
    | NoLastLine       // raised IndexError: a failure at line 0 of a file without lines

  /** How `fix_file` ends. */
  datatype FixOutcome = Written | NoSuchFile | NoSuchLine

  // ---------- one round ----------

  /** The text `fix_file` writes for a file that reads `text`, or None where it raises. */
  function Fixed(text: string, fixes: seq<Fix>): Option<string> {
    match TryApplyAll(ReadLines(text), SortDescending(fixes))
    case None => None
    case Some(lines) => Some(WriteLines(lines))
  }

  /** From line 1 on, `fix_file` writes the lines of `FixedFile`. */
  lemma FixedNumbered(text: string, fixes: seq<Fix>)
    requires Numbered(fixes)
    ensures Fixed(text, fixes) == Some(WriteLines(FixedFile(ReadLines(text), fixes)))
  {
    hide TryApplyAll, ApplyAll, SortDescending;
    SortedIn(fixes);
    NumberedNeverRaise(ReadLines(text), SortDescending(fixes));
  }

  /** The fixes of one file, in log order. */
  function FixesFor(fs: seq<FailureLog.Failure>, path: string): seq<Fix> {
    if fs == [] then []
    else
      var f := fs[|fs| - 1];
      FixesFor(fs[..|fs| - 1], path) + (if f.path == path then [Fix(f.line, f.actual)] else [])
  }

  /** The failing files, in the order they first appear in the log. */
  function Paths(fs: seq<FailureLog.Failure>): seq<string> {
    if fs == [] then []
    else
      var r, p := Paths(fs[..|fs| - 1]), fs[|fs| - 1].path;
      if p in r then r else r + [p]
  }

  /** How `fix_file` on one path ends, and the files it leaves. */
  ghost function FixOne(files: Files, fs: seq<FailureLog.Failure>, path: string): (FixOutcome, Files) {
    if path !in files then (NoSuchFile, files)
    else
      match Fixed(files[path], FixesFor(fs, path))
      case None => (NoSuchLine, files)
      case Some(text) => (Written, files[path := text])
  }

  /** `fix_file` on each path in turn; an exception stops the round. */
  ghost function FixFiles(files: Files, fs: seq<FailureLog.Failure>, paths: seq<string>): (FixOutcome, Files)
    decreases |paths|
  {
    if paths == [] then (Written, files)
    else
      var (outcome, next) := FixOne(files, fs, paths[0]);
      if outcome == Written then FixFiles(next, fs, paths[1..]) else (outcome, next)
  }

  /** The exception of a round that did not write all its files. */
  function ExceptionOf(outcome: FixOutcome): Outcome
    requires outcome != Written
  {
    if outcome == NoSuchFile then MissingFile else NoLastLine
  }

  /** The rounds from `rnd` to `maxRounds`: how they end, and the files they leave. */
  ghost function Rounds(run: Runner, files: Files, rnd: nat, maxRounds: nat): (Outcome, Files)
    decreases maxRounds + 1 - rnd
  {
    if rnd > maxRounds then (NotConverged, files)
    else
      var r := run(rnd, files);
      if r.ok then (Passed, files)
      else
        var fs := FailureLog.ParseText(r.stderr);
        if fs == [] then (NothingToFix, files)
        else
          var (outcome, next) := FixFiles(files, fs, Paths(fs));
          if outcome == Written then Rounds(run, next, rnd + 1, maxRounds) else (ExceptionOf(outcome), next)
  }

  // ---------- the program ----------

  /** The test files on disk, rewritten in place. */
  class TestTree {
    var files: Files

    constructor (files: Files)
      ensures this.files == files
    {
      this.files := files;
    }

    /** The body of the loop of `fix_file`: search, scan, splice. None stands for the IndexError. */
    static method ReplaceBlock(lines: seq<string>, f: Fix) returns (content: Option<seq<string>>)
      ensures content == TryApply(lines, f)
    {
      hide IsSep, Terminate, Strip;
      var idx := f.line - 1;
      if idx < 0 {
        // Index -1 is the last line.
        if lines == [] {
          return None;
        }
        if IsSep(lines[|lines| - 1]) {
          var end := ScanBlock(lines, 0);
          return Some(Terminate(f.actual) + lines[end..]);
        }
      }
      var lo: nat := if idx < 0 then 0 else idx;
      var hi: nat := if idx + WINDOW <= |lines| then idx + WINDOW else |lines|;
      var sep := Search(lines, lo, hi);
      if sep.None? {
        return Some(lines);
      }
      var end := ScanBlock(lines, sep.value + 1);
      return Some(lines[..sep.value + 1] + Terminate(f.actual) + lines[end..]);
    }

    /** The search for the separator. */
    static method Search(lines: seq<string>, lo: nat, hi: nat) returns (sep: Option<nat>)
      requires hi <= |lines|
      ensures sep == FindFrom(lines, lo, hi)
    {
      hide IsSep;
      var k := lo;
      while k < hi
        invariant lo <= k
        invariant FindFrom(lines, k, hi) == FindFrom(lines, lo, hi)
        decreases hi - k
      {
        if IsSep(lines[k]) {
          return Some(k);
        }
        k := k + 1;
      }
      return None;
    }

    /** The scan for the end of the block. */
    static method ScanBlock(lines: seq<string>, start: nat) returns (end: nat)
      requires start <= |lines|
      ensures end == BlockEnd(lines, start)
    {
      hide Strip, Blank;
      StripBlanks();
      end := start;
      while end < |lines| && Strip(lines[end]) != ""
        invariant start <= end <= |lines|
        invariant BlockEnd(lines, end) == BlockEnd(lines, start)
      {
        end := end + 1;
      }
    }

    static lemma StripBlanks()
      ensures forall s :: Strip(s) == "" <==> Blank(s)
    {
      forall s ensures Strip(s) == "" <==> Blank(s) {
        StripBlank(s);
      }
    }

    /** `fix_file`, which writes the file only when no fix raises. */
    method FixFile(path: string, fixes: seq<Fix>) returns (outcome: FixOutcome)
      modifies this
      ensures outcome == NoSuchFile <==> path !in old(files)
      ensures outcome == Written <==> path in old(files) && Fixed(old(files)[path], fixes).Some?
      ensures files == if outcome == Written then old(files)[path := Fixed(old(files)[path], fixes).value] else old(files)
    {
      if path !in files {
        return NoSuchFile;
      }
      hide TryApply, SortDescending;
      var content := ReadLines(files[path]);
      ghost var original := content;
      var sorted := SortDescending(fixes);
      assert sorted[..|sorted|] == sorted;
      var n := 0;
      while n < |sorted|
        invariant n <= |sorted|
        invariant files == old(files)
        invariant TryApplyAll(original, sorted[..n]) == Some(content)
      {
        var next := ReplaceBlock(content, sorted[n]);
        assert sorted[..n + 1][..n] == sorted[..n];
        if next.None? {
          NoneStays(original, sorted, n + 1);
          return NoSuchLine;
        }
        content := next.value;
        n := n + 1;
      }
      files := files[path := WriteLines(content)];
      return Written;
    }

    static lemma {:induction false} NoneStays(c: seq<string>, fs: seq<Fix>, n: nat)
      requires n <= |fs| && TryApplyAll(c, fs[..n]).None?
      ensures TryApplyAll(c, fs).None?
      decreases |fs| - n
    {
      hide TryApply;
      if n == |fs| {
        assert fs[..n] == fs;
      } else {
        assert fs[..n + 1][..n] == fs[..n];
        NoneStays(c, fs, n + 1);
      }
    }

    /** The grouping of the failures by file: the dictionary's keys in order, and its lists. */
    static method GroupByFile(failures: seq<FailureLog.Failure>) returns (order: seq<string>, byFile: map<string, seq<Fix>>)
      ensures order == Paths(failures)
      ensures forall p :: p in order <==> p in byFile
      ensures forall p :: p in byFile ==> byFile[p] == FixesFor(failures, p)
    {
      hide Paths, FixesFor;
      NoFailures();
      order := [];
      byFile := map[];
      var i := 0;
      while i < |failures|
        invariant i <= |failures|
        invariant order == Paths(failures[..i])
        invariant forall p :: p in order <==> p in byFile
        invariant forall p :: FixesFor(failures[..i], p) == if p in byFile then byFile[p] else []
      {
        var f := failures[i];
        OneMoreFailure(failures, i);
        if f.path !in byFile {
          order := order + [f.path];
          byFile := byFile[f.path := []];
        }
        byFile := byFile[f.path := byFile[f.path] + [Fix(f.line, f.actual)]];
        i := i + 1;
      }
      assert failures[..i] == failures;
    }

    static lemma NoFailures()
      ensures Paths([]) == [] && forall p :: FixesFor([], p) == []
    {
    }

    static lemma OneMoreFailure(fs: seq<FailureLog.Failure>, i: nat)
      requires i < |fs|
      ensures Paths(fs[..i + 1]) == if fs[i].path in Paths(fs[..i]) then Paths(fs[..i]) else Paths(fs[..i]) + [fs[i].path]
      ensures forall p ::
        FixesFor(fs[..i + 1], p) == FixesFor(fs[..i], p) + (if p == fs[i].path then [Fix(fs[i].line, fs[i].actual)] else [])
    {
      assert fs[..i + 1][..i] == fs[..i];
    }

    /** The loop of `update_all` over the files of one round. */
    method FixAllFiles(failures: seq<FailureLog.Failure>) returns (outcome: FixOutcome)
      modifies this
      ensures (outcome, files) == FixFiles(old(files), failures, Paths(failures))
    {
      hide FixesFor, Fixed, Paths;
      var order, byFile := GroupByFile(failures);
      var i := 0;
      while i < |order|
        invariant i <= |order|
        invariant FixFiles(files, failures, order[i..]) == FixFiles(old(files), failures, order)
      {
        var path := order[i];
        assert path in order;
        assert order[i..][0] == path && order[i..][1..] == order[i + 1..];
        outcome := FixFile(path, byFile[path]);
        if outcome != Written {
          return;
        }
        i := i + 1;
      }
      return Written;
    }

    /** `update_all`: the outcome, and the history of the files that leads to it. */
    method UpdateAll(run: Runner, maxRounds: nat := 60) returns (outcome: Outcome)
      modifies this
      ensures (outcome, files) == Rounds(run, old(files), 1, maxRounds)
      ensures exists history :: IsHistory(run, 1, maxRounds, history, outcome, files) && history[0] == old(files)
    {
      hide FixFiles, Paths, GoesOnAt, EndsAt;
      ghost var history := RoundsHaveHistory(run, files, 1, maxRounds);
      hide IsHistory;
      var rnd := 1;
      while rnd <= maxRounds
        invariant 1 <= rnd <= maxRounds + 1
        invariant Rounds(run, files, rnd, maxRounds) == Rounds(run, old(files), 1, maxRounds)
      {
        var r := run(rnd, files);
        if r.ok {
          return Passed;
        }
        var failures := FailureLog.ParseFailures(r.stderr);
        if failures == [] {
          return NothingToFix;
        }
        var fixed := FixAllFiles(failures);
        if fixed != Written {
          return ExceptionOf(fixed);
        }
        rnd := rnd + 1;
      }
      return NotConverged;
    }
  }

  /** `update_all` returns True only if its last run passed, on the very files it leaves. */
  lemma {:induction false} TrueOnlyIfLastRunPassed(run: Runner, files: Files, rnd: nat, maxRounds: nat)
    ensures var (outcome, left) := Rounds(run, files, rnd, maxRounds);
      outcome == Passed ==> exists last :: rnd <= last <= maxRounds && run(last, left).ok
    decreases maxRounds + 1 - rnd
  {
    hide FixFiles, Paths, FailureLog.ParseText;
    if rnd <= maxRounds && !run(rnd, files).ok {
      var fs := FailureLog.ParseText(run(rnd, files).stderr);
      if fs != [] && FixFiles(files, fs, Paths(fs)).0 == Written {
        TrueOnlyIfLastRunPassed(run, FixFiles(files, fs, Paths(fs)).1, rnd + 1, maxRounds);
      }
    }
  }

  // ---------- files of a round ----------

  ghost predicate Distinct(paths: seq<string>) {
    forall i, j :: 0 <= i < j < |paths| ==> paths[i] != paths[j]
  }

  lemma {:induction false} PathsAreDistinct(fs: seq<FailureLog.Failure>)
    ensures Distinct(Paths(fs))
  {
    if fs == [] {
    } else {
      PathsAreDistinct(fs[..|fs| - 1]);
    }
  }

  lemma {:induction false} PathsHaveFixes(fs: seq<FailureLog.Failure>, path: string)
    ensures path in Paths(fs) <==> FixesFor(fs, path) != []
  {
    if fs == [] {
    } else {
      PathsHaveFixes(fs[..|fs| - 1], path);
    }
  }

  lemma {:induction false} FixIsFailure(fs: seq<FailureLog.Failure>, path: string, x: Fix)
    ensures x in FixesFor(fs, path) <==> FailureLog.Failure(path, x.line, x.actual) in fs
  {
    if fs == [] {
    } else {
      var init, f := fs[..|fs| - 1], fs[|fs| - 1];
      FixIsFailure(init, path, x);
      assert fs == init + [f];
    }
  }

  /** When no file is missing and no fix raises, the round fixes each failing file once and leaves the others alone. */
  lemma {:induction false} FixFilesEach(files: Files, fs: seq<FailureLog.Failure>, paths: seq<string>)
    requires Distinct(paths)
    requires forall p :: p in paths ==> p in files && Fixed(files[p], FixesFor(fs, p)).Some?
    ensures var (outcome, next) := FixFiles(files, fs, paths);
      && outcome == Written
      && next.Keys == files.Keys
      && forall p :: p in files ==> next[p] == if p in paths then Fixed(files[p], FixesFor(fs, p)).value else files[p]
    decreases |paths|
  {
    hide Fixed, FixesFor;
    if paths == [] {
    } else {
      var files' := files[paths[0] := Fixed(files[paths[0]], FixesFor(fs, paths[0])).value];
      assert forall p :: p in paths[1..] ==> p in paths;
      FixFilesEach(files', fs, paths[1..]);
    }
  }

  // ---------- the order of files and fixes ----------

  /** The fixes of a file are those of its failures, one each, in the order of the log. */
  lemma {:induction false} FixesInOrder(a: seq<FailureLog.Failure>, b: seq<FailureLog.Failure>, f: FailureLog.Failure, path: string)
    ensures FixesFor(a + b, path) == FixesFor(a, path) + FixesFor(b, path)
    ensures FixesFor([f], path) == if f.path == path then [Fix(f.line, f.actual)] else []
  {
    assert [f][..0] == [];
    if b == [] {
      assert a + b == a;
    } else {
      var init := b[..|b| - 1];
      FixesInOrder(a, init, f, path);
      assert (a + b)[..|a + b| - 1] == a + init;
    }
  }

  /** Some failure is in the file `path`. */
  ghost predicate Fails(fs: seq<FailureLog.Failure>, path: string) {
    exists i :: 0 <= i < |fs| && fs[i].path == path
  }

  /** The files that fail are taken once each, and more failures only add files behind those there are. */
  lemma {:induction false} PathsInOrder(a: seq<FailureLog.Failure>, b: seq<FailureLog.Failure>, path: string)
    ensures Distinct(Paths(a)) && (path in Paths(a) <==> Fails(a, path)) && Paths(a) <= Paths(a + b)
  {
    PathsAreDistinct(a);
    PathsFail(a, path);
    hide Distinct, Fails;
    if b == [] {
      assert a + b == a;
    } else {
      var init := b[..|b| - 1];
      PathsInOrder(a, init, path);
      assert (a + b)[..|a + b| - 1] == a + init;
    }
  }

  lemma {:induction false} PathsFail(fs: seq<FailureLog.Failure>, path: string)
    ensures path in Paths(fs) <==> Fails(fs, path)
  {
    if fs == [] {
    } else {
      var n := |fs| - 1;
      PathsFail(fs[..n], path);
      assert forall i :: 0 <= i < n ==> fs[..n][i] == fs[i];
    }
  }

  // ---------- the history of the rounds ----------

  /** The file is there and its fixes can be made. */
  ghost predicate CanFix(files: Files, fs: seq<FailureLog.Failure>, path: string) {
    path in files && Fixed(files[path], FixesFor(fs, path)).Some?
  }

  /** `after` is `before` with the files of `paths` fixed, each with its own fixes, and no other file touched. */
  ghost predicate AreFixed(before: Files, fs: seq<FailureLog.Failure>, paths: seq<string>, after: Files) {
    && (forall p :: p in paths ==> CanFix(before, fs, p))
    && after.Keys == before.Keys
    && forall p :: p in before ==> after[p] == if p in paths then Fixed(before[p], FixesFor(fs, p)).value else before[p]
  }

  /** The round fixed the files before the `k`-th, which is missing or cannot be fixed. */
  ghost predicate StopsAt(before: Files, fs: seq<FailureLog.Failure>, paths: seq<string>, k: nat, outcome: FixOutcome, after: Files) {
    && k < |paths|
    && AreFixed(before, fs, paths[..k], after)
    && !CanFix(before, fs, paths[k])
    && outcome == if paths[k] in before then NoSuchLine else NoSuchFile
  }

  lemma FixFilesFirst(files: Files, fs: seq<FailureLog.Failure>, paths: seq<string>)
    requires paths != []
    ensures var p := paths[0];
      FixFiles(files, fs, paths) ==
        if CanFix(files, fs, p) then FixFiles(files[p := Fixed(files[p], FixesFor(fs, p)).value], fs, paths[1..])
        else (if p in files then NoSuchLine else NoSuchFile, files)
  {
    hide Fixed, FixesFor;
  }

  /** One more file in front is fixed. */
  lemma FixedFirst(files: Files, fs: seq<FailureLog.Failure>, paths: seq<string>, k: nat, after: Files)
    requires Distinct(paths) && k < |paths| && CanFix(files, fs, paths[0])
    requires AreFixed(files[paths[0] := Fixed(files[paths[0]], FixesFor(fs, paths[0])).value], fs, paths[1..k + 1], after)
    ensures AreFixed(files, fs, paths[..k + 1], after)
  {
    hide Fixed, FixesFor;
    var p := paths[0];
    var first, rest := paths[..k + 1], paths[1..k + 1];
    assert first == [p] + rest;
    forall q | q in rest ensures q != p {
      var i :| 0 <= i < |rest| && rest[i] == q;
      assert paths[i + 1] == q;
    }
    forall q | q in first ensures CanFix(files, fs, q) {
      assert q != p ==> CanFix(files[p := Fixed(files[p], FixesFor(fs, p)).value], fs, q);
    }
  }

  /** A round either fixes all its files, or stops at the first it cannot fix, with those before it fixed. */
  lemma {:induction false} FixFilesMeans(files: Files, fs: seq<FailureLog.Failure>, paths: seq<string>) returns (k: nat)
    requires Distinct(paths)
    ensures var (outcome, next) := FixFiles(files, fs, paths);
      if outcome == Written then k == |paths| && AreFixed(files, fs, paths, next) else StopsAt(files, fs, paths, k, outcome, next)
    decreases |paths|
  {
    hide Fixed, FixesFor, CanFix, AreFixed;
    if paths == [] {
      k := 0;
      NothingFixed(files, fs);
    } else {
      var p := paths[0];
      FixFilesFirst(files, fs, paths);
      if CanFix(files, fs, p) {
        CanFixThere(files, fs, p);
        var files' := files[p := Fixed(files[p], FixesFor(fs, p)).value];
        k := FixFilesMeans(files', fs, paths[1..]);
        var (outcome, next) := FixFiles(files', fs, paths[1..]);
        if outcome == Written {
          assert paths[1..] == paths[1..|paths|] && paths == paths[..|paths|];
          FixedFirst(files, fs, paths, k, next);
          k := k + 1;
        } else {
          assert paths[1..][..k] == paths[1..k + 1];
          FixedFirst(files, fs, paths, k, next);
          k := k + 1;
          CanFixOther(files, fs, paths, k);
        }
      } else {
        k := 0;
        assert paths[..0] == [];
        NothingFixed(files, fs);
      }
    }
  }

  lemma CanFixThere(files: Files, fs: seq<FailureLog.Failure>, p: string)
    requires CanFix(files, fs, p)
    ensures p in files && Fixed(files[p], FixesFor(fs, p)).Some?
  {
  }

  lemma NothingFixed(files: Files, fs: seq<FailureLog.Failure>)
    ensures AreFixed(files, fs, [], files)
  {
  }

  /** Fixing the first file does not make a later one fixable, or missing. */
  lemma CanFixOther(files: Files, fs: seq<FailureLog.Failure>, paths: seq<string>, k: nat)
    requires Distinct(paths) && 0 < k < |paths| && CanFix(files, fs, paths[0])
    ensures var files' := files[paths[0] := Fixed(files[paths[0]], FixesFor(fs, paths[0])).value];
      (CanFix(files', fs, paths[k]) <==> CanFix(files, fs, paths[k])) && (paths[k] in files' <==> paths[k] in files)
  {
    hide Fixed, FixesFor;
  }

  /** No two ends of a round are possible. */
  lemma FixedOneWay(before: Files, fs: seq<FailureLog.Failure>, paths: seq<string>, a: Files, b: Files)
    requires AreFixed(before, fs, paths, a) && AreFixed(before, fs, paths, b)
    ensures a == b
  {
    hide Fixed, FixesFor, CanFix;
    assert forall p :: p in a <==> p in a.Keys;
    assert forall p :: p in b <==> p in b.Keys;
  }

  lemma StopsOneWay(before: Files, fs: seq<FailureLog.Failure>, paths: seq<string>, k: nat, x: FixOutcome, a: Files, l: nat, y: FixOutcome, b: Files)
    requires StopsAt(before, fs, paths, k, x, a) && StopsAt(before, fs, paths, l, y, b)
    ensures k == l && x == y && a == b
  {
    hide CanFix;
    assert forall i, n :: 0 <= i < n <= |paths| ==> paths[i] in paths[..n];
    hide AreFixed;
    FixedOneWay(before, fs, paths[..k], a, b);
  }

  lemma NotBoth(before: Files, fs: seq<FailureLog.Failure>, paths: seq<string>, k: nat, x: FixOutcome, a: Files, b: Files)
    requires StopsAt(before, fs, paths, k, x, a)
    ensures !AreFixed(before, fs, paths, b)
  {
    assert paths[k] in paths;
  }

  /** Run `rnd` failed on `before` with some wrong results, and `after` is what fixing those leaves. */
  ghost predicate GoesOn(run: Runner, rnd: nat, before: Files, after: Files) {
    var r := run(rnd, before);
    var fs := FailureLog.ParseText(r.stderr);
    !r.ok && fs != [] && AreFixed(before, fs, Paths(fs), after)
  }

  /** Round `rnd` is the last, on the files `last`: how it ends, and what it leaves. */
  ghost predicate EndsAt(run: Runner, rnd: nat, maxRounds: nat, last: Files, outcome: Outcome, left: Files) {
    var r := run(rnd, last);
    var fs := FailureLog.ParseText(r.stderr);
    match outcome
    case NotConverged => rnd == maxRounds + 1 && left == last
    case Passed => rnd <= maxRounds && r.ok && left == last
    case NothingToFix => rnd <= maxRounds && !r.ok && fs == [] && left == last
    case MissingFile => rnd <= maxRounds && !r.ok && exists k :: StopsAt(last, fs, Paths(fs), k, NoSuchFile, left)
    case NoLastLine => rnd <= maxRounds && !r.ok && exists k :: StopsAt(last, fs, Paths(fs), k, NoSuchLine, left)
  }

  /** The `i`-th files of a history that starts at round `rnd` go on to the next. */
  ghost predicate GoesOnAt(run: Runner, rnd: nat, maxRounds: nat, history: seq<Files>, i: nat) {
    i + 1 < |history| && rnd + i <= maxRounds && GoesOn(run, rnd + i, history[i], history[i + 1])
  }

  /** The files of the rounds from `rnd` on, one list element a round, each going on to the next, and how the last ends. */
  ghost predicate IsHistory(run: Runner, rnd: nat, maxRounds: nat, history: seq<Files>, outcome: Outcome, left: Files) {
    && history != []
    && (forall i :: 0 <= i < |history| - 1 ==> GoesOnAt(run, rnd, maxRounds, history, i))
    && EndsAt(run, rnd + |history| - 1, maxRounds, history[|history| - 1], outcome, left)
  }

  lemma {:induction false} HistoryCons(run: Runner, rnd: nat, maxRounds: nat, first: Files, history: seq<Files>, outcome: Outcome, left: Files)
    requires rnd <= maxRounds && IsHistory(run, rnd + 1, maxRounds, history, outcome, left) && GoesOn(run, rnd, first, history[0])
    ensures IsHistory(run, rnd, maxRounds, [first] + history, outcome, left)
  {
    hide GoesOn, EndsAt;
    var all := [first] + history;
    forall i | 0 <= i < |all| - 1 ensures GoesOnAt(run, rnd, maxRounds, all, i) {
      if i > 0 {
        assert GoesOnAt(run, rnd + 1, maxRounds, history, i - 1);
        assert rnd + 1 + (i - 1) == rnd + i;
      }
    }
    assert rnd + 1 + |history| - 1 == rnd + |all| - 1;
  }

  lemma {:induction false} HistoryTail(run: Runner, rnd: nat, maxRounds: nat, history: seq<Files>, outcome: Outcome, left: Files)
    requires IsHistory(run, rnd, maxRounds, history, outcome, left) && |history| > 1
    ensures rnd <= maxRounds && GoesOn(run, rnd, history[0], history[1])
    ensures IsHistory(run, rnd + 1, maxRounds, history[1..], outcome, left)
  {
    hide GoesOn, EndsAt;
    var tail, next := history[1..], rnd + 1;
    assert GoesOnAt(run, rnd, maxRounds, history, 0);
    forall i | 0 <= i < |tail| - 1 ensures GoesOnAt(run, next, maxRounds, tail, i) {
      assert GoesOnAt(run, rnd, maxRounds, history, i + 1);
      assert rnd + (i + 1) == rnd + 1 + i;
    }
    assert rnd + 1 + |tail| - 1 == rnd + |history| - 1;
  }

  /** What the files `files` of round `rnd` come to: an end, or the files of the next round. */
  lemma {:induction false} RoundEnds(run: Runner, rnd: nat, maxRounds: nat, files: Files) returns (goesOn: bool, next: Files)
    requires rnd <= maxRounds + 1
    ensures goesOn ==>
      && rnd <= maxRounds && GoesOn(run, rnd, files, next)
      && Rounds(run, files, rnd, maxRounds) == Rounds(run, next, rnd + 1, maxRounds)
    ensures !goesOn ==> EndsAt(run, rnd, maxRounds, files, Rounds(run, files, rnd, maxRounds).0, Rounds(run, files, rnd, maxRounds).1)
  {
    hide FixFiles, Paths, FailureLog.ParseText, StopsAt, AreFixed, Distinct;
    goesOn, next := false, files;
    if rnd <= maxRounds && !run(rnd, files).ok {
      var fs := FailureLog.ParseText(run(rnd, files).stderr);
      if fs != [] {
        PathsAreDistinct(fs);
        var k := FixFilesMeans(files, fs, Paths(fs));
        goesOn, next := FixFiles(files, fs, Paths(fs)).0 == Written, FixFiles(files, fs, Paths(fs)).1;
      }
    }
  }

  lemma HistoryOne(run: Runner, rnd: nat, maxRounds: nat, last: Files, outcome: Outcome, left: Files)
    requires EndsAt(run, rnd, maxRounds, last, outcome, left)
    ensures IsHistory(run, rnd, maxRounds, [last], outcome, left)
  {
    hide EndsAt;
  }

  /** Every run of `update_all` has a history. */
  lemma {:induction false} RoundsHaveHistory(run: Runner, files: Files, rnd: nat, maxRounds: nat) returns (history: seq<Files>)
    requires rnd <= maxRounds + 1
    ensures history != [] && history[0] == files
    ensures IsHistory(run, rnd, maxRounds, history, Rounds(run, files, rnd, maxRounds).0, Rounds(run, files, rnd, maxRounds).1)
    decreases maxRounds + 1 - rnd
  {
    hide *;
    var goesOn, next := RoundEnds(run, rnd, maxRounds, files);
    var end := Rounds(run, files, rnd, maxRounds);
    if goesOn {
      var rest := RoundsHaveHistory(run, next, rnd + 1, maxRounds);
      HistoryCons(run, rnd, maxRounds, files, rest, end.0, end.1);
      history := [files] + rest;
    } else {
      HistoryOne(run, rnd, maxRounds, files, end.0, end.1);
      history := [files];
    }
  }

  /** A round has one end. */
  lemma {:induction false} EndsOneWay(run: Runner, rnd: nat, maxRounds: nat, files: Files, x: Outcome, a: Files, y: Outcome, b: Files)
    requires EndsAt(run, rnd, maxRounds, files, x, a) && EndsAt(run, rnd, maxRounds, files, y, b)
    ensures x == y && a == b
  {
    hide Paths, FailureLog.ParseText, StopsAt;
    var fs := FailureLog.ParseText(run(rnd, files).stderr);
    NoPaths();
    forall k, p, c, l, q, d | StopsAt(files, fs, Paths(fs), k, p, c) && StopsAt(files, fs, Paths(fs), l, q, d)
      ensures p == q && c == d && fs != []
    {
      StopsOneWay(files, fs, Paths(fs), k, p, c, l, q, d);
      StopsSomewhere(files, fs, Paths(fs), k, p, c);
    }
  }

  lemma NoPaths()
    ensures Paths([]) == []
  {
  }

  lemma StopsSomewhere(files: Files, fs: seq<FailureLog.Failure>, paths: seq<string>, k: nat, x: FixOutcome, a: Files)
    requires StopsAt(files, fs, paths, k, x, a)
    ensures paths != []
  {
  }

  /** A round that goes on does not end. */
  lemma GoesOnOrEnds(run: Runner, rnd: nat, maxRounds: nat, files: Files, next: Files, x: Outcome, a: Files)
    requires rnd <= maxRounds && GoesOn(run, rnd, files, next)
    ensures !EndsAt(run, rnd, maxRounds, files, x, a)
  {
    hide Paths, FailureLog.ParseText, StopsAt, AreFixed;
    var fs := FailureLog.ParseText(run(rnd, files).stderr);
    forall k, p, c | StopsAt(files, fs, Paths(fs), k, p, c) ensures false {
      NotBoth(files, fs, Paths(fs), k, p, c, next);
    }
  }

  lemma {:induction false} HistoryIsRounds(run: Runner, rnd: nat, maxRounds: nat, history: seq<Files>, outcome: Outcome, left: Files)
    requires rnd <= maxRounds + 1 && IsHistory(run, rnd, maxRounds, history, outcome, left)
    ensures Rounds(run, history[0], rnd, maxRounds) == (outcome, left)
    decreases |history|
  {
    var goesOn, next := RoundEnds(run, rnd, maxRounds, history[0]);
    var (x, a) := Rounds(run, history[0], rnd, maxRounds);
    hide Rounds, GoesOn, EndsAt;
    if |history| > 1 {
      HistoryTail(run, rnd, maxRounds, history, outcome, left);
      hide IsHistory;
      if goesOn {
        GoOnAlike(run, rnd, history[0], next, history[1]);
      } else {
        GoesOnOrEnds(run, rnd, maxRounds, history[0], history[1], x, a);
      }
      HistoryIsRounds(run, rnd + 1, maxRounds, history[1..], outcome, left);
    } else if goesOn {
      GoesOnOrEnds(run, rnd, maxRounds, history[0], next, outcome, left);
    } else {
      EndsOneWay(run, rnd, maxRounds, history[0], x, a, outcome, left);
    }
  }

  lemma GoOnAlike(run: Runner, rnd: nat, files: Files, a: Files, b: Files)
    requires GoesOn(run, rnd, files, a) && GoesOn(run, rnd, files, b)
    ensures a == b
  {
    hide Paths, FailureLog.ParseText, AreFixed;
    var fs := FailureLog.ParseText(run(rnd, files).stderr);
    FixedOneWay(files, fs, Paths(fs), a, b);
  }

  /** `update_all` has an outcome exactly when a history of its rounds has it. */
  lemma {:induction false} RoundsAreHistory(run: Runner, files: Files, maxRounds: nat, outcome: Outcome, left: Files)
    ensures Rounds(run, files, 1, maxRounds) == (outcome, left) <==>
      exists history :: IsHistory(run, 1, maxRounds, history, outcome, left) && history[0] == files
  {
    hide Rounds, GoesOn, EndsAt;
    var h := RoundsHaveHistory(run, files, 1, maxRounds);
    forall history | IsHistory(run, 1, maxRounds, history, outcome, left) && history[0] == files
      ensures Rounds(run, files, 1, maxRounds) == (outcome, left)
    {
      HistoryIsRounds(run, 1, maxRounds, history, outcome, left);
    }
  }
}
