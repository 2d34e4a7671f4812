/** `fix_file` of scripts/update_test_expected.py, on the lines of one test file. */
module ExpectedBlocks {
  import opened Text
  import opened Lines

  /** What a query returned, and the 1-based line of the query. */
  datatype Fix = Fix(line: nat, actual: seq<string>)

  /** How far forward of its query the `----` of a query is looked for. */
  const WINDOW: nat := 20

  predicate IsSep(line: string) {
    Strip(line) == "----"
  }

  // ---------- one fix ----------

  function FindFrom(c: seq<string>, k: nat, hi: nat): (r: Option<nat>)
    requires hi <= |c|
    ensures r.Some? ==> k <= r.value < hi
    decreases hi - k
  {
    if k >= hi then None
    else if IsSep(c[k]) then Some(k)
    else FindFrom(c, k + 1, hi)
  }

  /** The first separator in the window that opens at index `idx`. */
  function FindSep(c: seq<string>, idx: nat): (r: Option<nat>)
    ensures r.Some? ==> idx <= r.value < |c|
  {
    FindFrom(c, idx, if idx + WINDOW <= |c| then idx + WINDOW else |c|)
  }

  /** `[line + '\n' for line in lines]`. */
  function Terminate(lines: seq<string>): (r: seq<string>)
    ensures |r| == |lines| && forall i :: 0 <= i < |r| ==> r[i] == lines[i] + "\n"
  {
    seq(|lines|, i requires 0 <= i < |lines| => lines[i] + "\n")
  }

  /** The fixes the parser reports: 1-based lines and non-blank results. */
  ghost predicate Valid(f: Fix) {
    f.line >= 1 && AllNonBlank(f.actual)
  }

  ghost predicate AllValid(fs: seq<Fix>) {
    forall i :: 0 <= i < |fs| ==> Valid(fs[i])
  }

  /** The file after one fix: the block behind the query's separator is replaced, if there is one. */
  function Apply(c: seq<string>, f: Fix): seq<string>
    requires f.line >= 1
  {
    match FindSep(c, f.line - 1)
    case None => c
    case Some(s) => c[..s + 1] + Terminate(f.actual) + c[BlockEnd(c, s + 1)..]
  }

  predicate Numbered(fs: seq<Fix>) {
    forall i :: 0 <= i < |fs| ==> fs[i].line >= 1
  }

  /** The file after a list of fixes, each made on the lines the one before left. */
  function ApplyAll(c: seq<string>, fs: seq<Fix>): seq<string>
    requires Numbered(fs)
  {
    if fs == [] then c else Apply(ApplyAll(c, fs[..|fs| - 1]), fs[|fs| - 1])
  }

  // ---------- the order of the fixes ----------

  ghost predicate Descending(fs: seq<Fix>) {
    forall i, j :: 0 <= i < j < |fs| ==> fs[i].line >= fs[j].line
  }

  /** `x` put behind every fix whose line is no smaller. */
  function Insert(fs: seq<Fix>, x: Fix): seq<Fix> {
    if fs == [] then [x]
    else if fs[|fs| - 1].line >= x.line then fs + [x]
    else Insert(fs[..|fs| - 1], x) + [fs[|fs| - 1]]
  }

  /** `sorted(fixes, key=lambda x: x[0], reverse=True)`. */
  function SortDescending(fs: seq<Fix>): seq<Fix> {
    if fs == [] then [] else Insert(SortDescending(fs[..|fs| - 1]), fs[|fs| - 1])
  }

  lemma CountLast(fs: seq<Fix>)
    requires fs != []
    ensures multiset(fs) == multiset(fs[..|fs| - 1]) + multiset{fs[|fs| - 1]}
  {
    assert fs == fs[..|fs| - 1] + [fs[|fs| - 1]];
  }

  lemma {:induction false} InsertKeeps(fs: seq<Fix>, x: Fix)
    ensures multiset(Insert(fs, x)) == multiset(fs) + multiset{x}
  {
    if fs != [] && fs[|fs| - 1].line < x.line {
      var init, last := fs[..|fs| - 1], fs[|fs| - 1];
      InsertKeeps(init, x);
      CountLast(fs);
    }
  }

  lemma {:induction false} InsertOrders(fs: seq<Fix>, x: Fix)
    requires Descending(fs)
    ensures Descending(Insert(fs, x))
  {
    if fs != [] && fs[|fs| - 1].line < x.line {
      var init, last := fs[..|fs| - 1], fs[|fs| - 1];
      InsertOrders(init, x);
      InsertKeeps(init, x);
      hide Insert;
      EndsDescending(Insert(init, x), last);
    }
  }

  lemma EndsDescending(fs: seq<Fix>, last: Fix)
    requires Descending(fs)
    requires forall f :: f in multiset(fs) ==> f.line >= last.line
    ensures Descending(fs + [last])
  {
    forall i | 0 <= i < |fs| ensures fs[i].line >= last.line {
      assert fs[i] in multiset(fs);
    }
  }

  /** The fixes of one line, in order. */
  function OfLine(fs: seq<Fix>, line: nat): seq<Fix> {
    if fs == [] then []
    else OfLine(fs[..|fs| - 1], line) + (if fs[|fs| - 1].line == line then [fs[|fs| - 1]] else [])
  }

  lemma {:induction false} InsertedOfLine(fs: seq<Fix>, x: Fix, line: nat)
    requires Descending(fs)
    ensures OfLine(Insert(fs, x), line) == OfLine(fs + [x], line)
  {
    assert (fs + [x])[..|fs|] == fs;
    if fs != [] && fs[|fs| - 1].line < x.line {
      var init, last := fs[..|fs| - 1], fs[|fs| - 1];
      InsertedOfLine(init, x, line);
      assert (init + [x])[..|init|] == init;
      assert Insert(fs, x)[..|Insert(fs, x)| - 1] == Insert(init, x);
    }
  }

  lemma {:induction false} SortKeeps(fs: seq<Fix>)
    ensures multiset(SortDescending(fs)) == multiset(fs)
  {
    if fs == [] {
    } else {
      var init, last := fs[..|fs| - 1], fs[|fs| - 1];
      hide Insert;
      SortKeeps(init);
      InsertKeeps(SortDescending(init), last);
      CountLast(fs);
    }
  }

  lemma {:induction false} SortOrders(fs: seq<Fix>)
    ensures Descending(SortDescending(fs))
  {
    if fs != [] {
      hide Insert, Descending;
      SortOrders(fs[..|fs| - 1]);
      InsertOrders(SortDescending(fs[..|fs| - 1]), fs[|fs| - 1]);
    } else {
      assert SortDescending([]) == [];
    }
  }

  /** The sort is by line, largest first, and keeps every fix. */
  lemma {:induction false} Sorted(fs: seq<Fix>)
    ensures Descending(SortDescending(fs))
    ensures multiset(SortDescending(fs)) == multiset(fs)
  {
    hide SortDescending, Descending;
    SortKeeps(fs);
    SortOrders(fs);
  }

  /** The sort keeps the order of the fixes of one line. */
  lemma {:induction false} SortedIsStable(fs: seq<Fix>, line: nat)
    ensures OfLine(SortDescending(fs), line) == OfLine(fs, line)
  {
    if fs == [] {
    } else {
      var init, last := fs[..|fs| - 1], fs[|fs| - 1];
      SortedIsStable(init, line);
      Sorted(init);
      InsertedOfLine(SortDescending(init), last, line);
      assert (SortDescending(init) + [last])[..|SortDescending(init)|] == SortDescending(init);
    }
  }

  lemma SortedIn(fs: seq<Fix>)
    ensures forall i :: 0 <= i < |SortDescending(fs)| ==> SortDescending(fs)[i] in fs
  {
    Sorted(fs);
    forall i | 0 <= i < |SortDescending(fs)| ensures SortDescending(fs)[i] in fs {
      assert SortDescending(fs)[i] in multiset(SortDescending(fs));
    }
  }

  /** The file `fix_file` leaves: the fixes made from the largest line to the smallest. */
  function FixedFile(c: seq<string>, fs: seq<Fix>): seq<string>
    requires Numbered(fs)
  {
    SortedIn(fs);
    ApplyAll(c, SortDescending(fs))
  }

  // ---------- fixes at line 0 ----------

  /**
   * The file after a fix reported at line 0: the search starts at index -1, which is the last line,
   * and a separator there has its block at the start of the file. None stands for the IndexError
   * on a file without lines.
   */
  function ApplyAtZero(c: seq<string>, actual: seq<string>): Option<seq<string>> {
    if c == [] then None
    else if IsSep(c[|c| - 1]) then Some(Terminate(actual) + c[BlockEnd(c, 0)..])
    else
      match FindFrom(c, 0, if WINDOW - 1 <= |c| then WINDOW - 1 else |c|)
      case None => Some(c)
      case Some(s) => Some(c[..s + 1] + Terminate(actual) + c[BlockEnd(c, s + 1)..])
  }

  /** The file after a fix at any line, or None where the fix raises. */
  function TryApply(c: seq<string>, f: Fix): Option<seq<string>> {
    if f.line >= 1 then Some(Apply(c, f)) else ApplyAtZero(c, f.actual)
  }

  function TryApplyAll(c: seq<string>, fs: seq<Fix>): Option<seq<string>> {
    if fs == [] then Some(c)
    else
      match TryApplyAll(c, fs[..|fs| - 1])
      case None => None
      case Some(d) => TryApply(d, fs[|fs| - 1])
  }

  /** Fixes from line 1 on never raise, and are made as they are without line 0. */
  lemma {:induction false} NumberedNeverRaise(c: seq<string>, fs: seq<Fix>)
    requires Numbered(fs)
    ensures TryApplyAll(c, fs) == Some(ApplyAll(c, fs))
  {
    hide Apply;
    if fs == [] {
    } else {
      NumberedNeverRaise(c, fs[..|fs| - 1]);
    }
  }

  /** A fix raises exactly when it is at line 0 of a file without lines. */
  lemma RaisesOnlyWithoutLines(c: seq<string>, f: Fix)
    ensures TryApply(c, f).None? <==> f.line == 0 && c == []
  {
    hide Apply, IsSep;
  }

  // ---------- the simultaneous rewrite ----------

  /**
   * The lines from `i` on with the block behind each separator in `e` replaced, in one
   * pass over the original lines: every position, and every block's end, is the original's.
   */
  function Rewrite(c: seq<string>, e: map<nat, seq<string>>, i: nat): seq<string>
    requires i <= |c|
    decreases |c| - i
  {
    if i == |c| then []
    else if i in e then [c[i]] + e[i] + Rewrite(c, e, BlockEnd(c, i + 1))
    else [c[i]] + Rewrite(c, e, i + 1)
  }

  /** The fix that wins each separator: the smallest line, and among equal lines the last of the list. */
  function Winners(c: seq<string>, fs: seq<Fix>): map<nat, Fix>
    requires Numbered(fs)
  {
    if fs == [] then map[]
    else Challenge(Winners(c, fs[..|fs| - 1]), c, fs[|fs| - 1])
  }

  function Challenge(w: map<nat, Fix>, c: seq<string>, x: Fix): map<nat, Fix>
    requires x.line >= 1
  {
    match FindSep(c, x.line - 1)
    case None => w
    case Some(s) => if s !in w || x.line <= w[s].line then w[s := x] else w
  }

  function BlocksOf(w: map<nat, Fix>): (e: map<nat, seq<string>>)
    ensures e.Keys == w.Keys
    ensures forall s :: s in w ==> e[s] == Terminate(w[s].actual)
  {
    map s | s in w :: Terminate(w[s].actual)
  }

  /** The file with every block located in the original and all replaced at once. */
  function SimultaneousRewrite(c: seq<string>, fs: seq<Fix>): seq<string>
    requires Numbered(fs)
  {
    Rewrite(c, BlocksOf(Winners(c, fs)), 0)
  }

  // ---------- searching ----------

  lemma {:induction false} FoundFrom(c: seq<string>, k: nat, hi: nat)
    requires k <= hi <= |c|
    ensures match FindFrom(c, k, hi)
      case None => forall i :: k <= i < hi ==> !IsSep(c[i])
      case Some(s) => k <= s < hi && IsSep(c[s]) && forall i :: k <= i < s ==> !IsSep(c[i])
    decreases hi - k
  {
    hide IsSep;
    if k < hi && !IsSep(c[k]) {
      FoundFrom(c, k + 1, hi);
    }
  }

  /** The search finds the first separator of its window. */
  lemma Found(c: seq<string>, idx: nat)
    ensures match FindSep(c, idx)
      case None => forall i :: idx <= i < |c| && i < idx + WINDOW ==> !IsSep(c[i])
      case Some(s) => idx <= s < |c| && s < idx + WINDOW && IsSep(c[s]) && forall i :: idx <= i < s ==> !IsSep(c[i])
  {
    hide IsSep;
    if idx < |c| {
      FoundFrom(c, idx, if idx + WINDOW <= |c| then idx + WINDOW else |c|);
    }
  }

  /** A separator is four dashes between blanks. */
  lemma SepMeans(line: string)
    ensures IsSep(line) <==> Padded(line, "----")
  {
    StripMeans(line, "----");
  }

  /** The search looks at twenty lines from the query's on, and gives the first that is four dashes between blanks. */
  lemma {:induction false} FirstSeparator(c: seq<string>, line: nat)
    requires line >= 1
    ensures match FindSep(c, line - 1)
      case None => forall i :: line - 1 <= i < |c| && i < line + 19 ==> !Padded(c[i], "----")
      case Some(s) => line - 1 <= s < |c| && s < line + 19 && Padded(c[s], "----") && forall i :: line - 1 <= i < s ==> !Padded(c[i], "----")
  {
    Found(c, line - 1);
    hide FindSep, IsSep, Padded;
    forall i | 0 <= i < |c| ensures IsSep(c[i]) <==> Padded(c[i], "----") {
      SepMeans(c[i]);
    }
  }

  lemma FoundAt(c: seq<string>, idx: nat, s: nat)
    requires idx <= s < |c| && s < idx + WINDOW && IsSep(c[s])
    requires forall i :: idx <= i < s ==> !IsSep(c[i])
    ensures FindSep(c, idx) == Some(s)
  {
    hide IsSep, FindSep;
    Found(c, idx);
  }

  /** A search that stays within a common prefix of two files finds the same in both. */
  lemma SamePrefix(c: seq<string>, d: seq<string>, idx: nat, n: nat)
    requires n <= |c| && n <= |d| && c[..n] == d[..n]
    ensures FindSep(c, idx).Some? && FindSep(c, idx).value < n ==> FindSep(d, idx) == FindSep(c, idx)
    ensures FindSep(c, idx).None? && idx + WINDOW <= n ==> FindSep(d, idx).None?
  {
    hide IsSep, FindSep;
    Found(c, idx);
    assert forall i :: 0 <= i < n ==> c[i] == c[..n][i] == d[..n][i] == d[i];
    if FindSep(c, idx).Some? && FindSep(c, idx).value < n {
      FoundAt(d, idx, FindSep(c, idx).value);
    }
    Found(d, idx);
  }

  lemma {:induction false} FindBefore(c: seq<string>, hi: nat, top: nat)
    requires hi <= top <= |c|
    ensures FindFrom(c, 0, hi) == if FindFrom(c, 0, top).Some? && FindFrom(c, 0, top).value >= hi then None else FindFrom(c, 0, top)
  {
    hide IsSep;
    FoundFrom(c, 0, hi);
    FoundFrom(c, 0, top);
    hide FindFrom;
  }

  lemma {:induction false} ZeroSearches(c: seq<string>, actual: seq<string>)
    requires c != [] && !IsSep(c[|c| - 1])
    ensures ApplyAtZero(c, actual) == Some(if FindSep(c, 0) == Some(19) then c else Apply(c, Fix(1, actual)))
  {
    FindBefore(c, if WINDOW - 1 <= |c| then WINDOW - 1 else |c|, if WINDOW <= |c| then WINDOW else |c|);
    hide IsSep, FindFrom, Terminate, BlockEnd;
  }

  lemma {:induction false} ZeroAtStart(c: seq<string>, actual: seq<string>)
    requires c != [] && IsSep(c[|c| - 1])
    ensures var e := BlockEnd(c, 0);
      AllNonBlank(c[..e]) && StartsBlank(c[e..]) && ApplyAtZero(c, actual) == Some(Terminate(actual) + c[e..])
  {
    BlockEndStops(c, 0);
    assert c[0..BlockEnd(c, 0)] == c[..BlockEnd(c, 0)];
    hide IsSep, FindFrom, Terminate, BlockEnd, AllNonBlank, StartsBlank;
  }

  /**
   * A fix at line 0 is the fix at line 1 where the last line is no separator, except that its window ends a line
   * earlier; where the last line is one, it replaces the run of non-blank lines the file starts with.
   */
  lemma {:induction false} ZeroIsFirstLine(c: seq<string>, actual: seq<string>)
    requires c != []
    ensures !Padded(c[|c| - 1], "----") ==>
      ApplyAtZero(c, actual) == Some(if FindSep(c, 0) == Some(19) then c else Apply(c, Fix(1, actual)))
    ensures Padded(c[|c| - 1], "----") ==> exists e ::
      && 0 <= e <= |c| && AllNonBlank(c[..e]) && StartsBlank(c[e..])
      && ApplyAtZero(c, actual) == Some(Terminate(actual) + c[e..])
  {
    hide *;
    SepMeans(c[|c| - 1]);
    if IsSep(c[|c| - 1]) {
      ZeroAtStart(c, actual);
    } else {
      ZeroSearches(c, actual);
    }
  }

  // ---------- the rewrite, piece by piece ----------

  ghost predicate NoKey(e: map<nat, seq<string>>, i: nat, j: nat) {
    forall k :: i <= k < j ==> k !in e
  }

  lemma SliceFirst(c: seq<string>, i: nat, j: nat)
    requires i < j <= |c|
    ensures c[i..j] == [c[i]] + c[i + 1..j]
  {
  }

  lemma {:induction false} RewritePrefix(c: seq<string>, e: map<nat, seq<string>>, i: nat, j: nat)
    requires i <= j <= |c| && NoKey(e, i, j)
    ensures Rewrite(c, e, i) == c[i..j] + Rewrite(c, e, j)
    decreases j - i
  {
    if i == j {
      assert c[i..j] == [];
    } else {
      RewritePrefix(c, e, i + 1, j);
      assert Rewrite(c, e, i) == [c[i]] + Rewrite(c, e, i + 1);
      hide Rewrite, NoKey;
      SliceFirst(c, i, j);
      Assoc3([c[i]], c[i + 1..j], Rewrite(c, e, j));
    }
  }

  lemma {:induction false} RewriteLocal(c: seq<string>, e: map<nat, seq<string>>, e': map<nat, seq<string>>, i: nat)
    requires i <= |c|
    requires forall k :: i <= k < |c| ==> (k in e <==> k in e') && (k in e ==> e[k] == e'[k])
    ensures Rewrite(c, e, i) == Rewrite(c, e', i)
    decreases |c| - i
  {
    if i == |c| {
    } else {
      RewriteLocal(c, e, e', if i in e then BlockEnd(c, i + 1) else i + 1);
    }
  }

  ghost predicate NonBlankBlocks(e: map<nat, seq<string>>) {
    forall k :: k in e ==> AllNonBlank(e[k])
  }

  /** At the end of an original block the rewrite, too, is at a blank line or at its end. */
  lemma RewriteAtEnd(c: seq<string>, e: map<nat, seq<string>>, i: nat)
    requires i <= |c| && StartsBlank(c[i..])
    ensures StartsBlank(Rewrite(c, e, i))
  {
    hide BlockEnd;
  }

  lemma NonBlankCons(line: string, lines: seq<string>)
    requires !Blank(line) && AllNonBlank(lines)
    ensures AllNonBlank([line] + lines)
  {
    hide Blank;
  }

  /** The rewrite of a run of non-blank lines is a run of non-blank lines. */
  lemma {:induction false} RewriteRun(c: seq<string>, e: map<nat, seq<string>>, i: nat) returns (run: seq<string>)
    requires i <= |c| && NonBlankBlocks(e)
    ensures AllNonBlank(run)
    ensures Rewrite(c, e, i) == run + Rewrite(c, e, BlockEnd(c, i))
    decreases |c| - i
  {
    hide Blank;
    if i == |c| || Blank(c[i]) {
      run := [];
    } else if i in e {
      run := [c[i]] + e[i];
      NonBlankCons(c[i], e[i]);
      assert BlockEnd(c, i) == BlockEnd(c, i + 1);
      assert Rewrite(c, e, i) == run + Rewrite(c, e, BlockEnd(c, i + 1));
      hide Rewrite, BlockEnd, AllNonBlank;
    } else {
      var r := RewriteRun(c, e, i + 1);
      run := [c[i]] + r;
      NonBlankCons(c[i], r);
      assert BlockEnd(c, i) == BlockEnd(c, i + 1);
      assert Rewrite(c, e, i) == [c[i]] + Rewrite(c, e, i + 1);
      hide Rewrite, BlockEnd, AllNonBlank, NonBlankBlocks;
      Assoc3([c[i]], r, Rewrite(c, e, BlockEnd(c, i + 1)));
    }
  }

  // ---------- in place is simultaneous ----------

  lemma ApplyAt(pre: seq<string>, sep: string, run: seq<string>, rest: seq<string>, f: Fix)
    requires f.line >= 1 && AllNonBlank(run) && StartsBlank(rest)
    requires FindSep(pre + [sep] + run + rest, f.line - 1) == Some(|pre|)
    ensures Apply(pre + [sep] + run + rest, f) == pre + [sep] + Terminate(f.actual) + rest
  {
    hide FindSep, Blank;
    var d := pre + [sep] + run + rest;
    BlockEndAt(pre + [sep], run, rest);
    hide BlockEnd;
    assert d[..|pre| + 1] == pre + [sep];
    assert d[|pre| + 1 + |run|..] == rest;
  }

  /** All the separators of `e` lie at or after `idx` in `c`. */
  ghost predicate KeysFrom(c: seq<string>, e: map<nat, seq<string>>, idx: nat) {
    forall k :: k in e ==> idx <= k < |c| && IsSep(c[k])
  }

  lemma ApplyFound(c: seq<string>, e: map<nat, seq<string>>, f: Fix, s: nat)
    requires Valid(f) && NonBlankBlocks(e) && KeysFrom(c, e, f.line - 1)
    requires FindSep(c, f.line - 1) == Some(s)
    ensures Apply(Rewrite(c, e, 0), f) == Rewrite(c, e[s := Terminate(f.actual)], 0)
  {
    hide FindSep, IsSep, Blank, Apply, Terminate, Rewrite, BlockEnd;
    Found(c, f.line - 1);
    assert NoKey(e, 0, s);
    var end := BlockEnd(c, s + 1);
    var rest := Rewrite(c, e, end);
    var run := SepRun(c, e, s);
    ReplacedSep(c, e, s, Terminate(f.actual));
    var d := c[..s] + [c[s]] + run + rest;
    assert d[..s + 1] == c[..s + 1];
    SamePrefix(c, d, f.line - 1, s + 1);
    BlockEndStops(c, s + 1);
    RewriteAtEnd(c, e, end);
    ApplyAt(c[..s], c[s], run, rest, f);
  }

  lemma Assoc3(a: seq<string>, b: seq<string>, r: seq<string>)
    ensures a + (b + r) == a + b + r
  {
  }

  lemma Assoc4(a: seq<string>, b: seq<string>, m: seq<string>, r: seq<string>)
    ensures a + (b + m + r) == a + b + m + r
  {
  }

  lemma SepRunAt(c: seq<string>, e: map<nat, seq<string>>, s: nat) returns (run: seq<string>)
    requires s < |c| && NonBlankBlocks(e)
    ensures AllNonBlank(run)
    ensures Rewrite(c, e, s) == [c[s]] + run + Rewrite(c, e, BlockEnd(c, s + 1))
  {
    hide Blank, BlockEnd;
    if s in e {
      run := e[s];
    } else {
      run := RewriteRun(c, e, s + 1);
      var rest := Rewrite(c, e, BlockEnd(c, s + 1));
      Assoc3([c[s]], run, rest);
    }
  }

  /** The rewrite around its first separator: the lines before it, it, non-blank lines, and the rest. */
  lemma SepRun(c: seq<string>, e: map<nat, seq<string>>, s: nat) returns (run: seq<string>)
    requires s < |c| && NonBlankBlocks(e) && NoKey(e, 0, s)
    ensures AllNonBlank(run)
    ensures Rewrite(c, e, 0) == c[..s] + [c[s]] + run + Rewrite(c, e, BlockEnd(c, s + 1))
  {
    hide Blank, BlockEnd, Rewrite;
    RewritePrefix(c, e, 0, s);
    assert c[0..s] == c[..s];
    run := SepRunAt(c, e, s);
    Assoc4(c[..s], [c[s]], run, Rewrite(c, e, BlockEnd(c, s + 1)));
  }

  lemma {:induction false} ReplacedSep(c: seq<string>, e: map<nat, seq<string>>, s: nat, block: seq<string>)
    requires s < |c| && NoKey(e, 0, s)
    ensures Rewrite(c, e[s := block], 0) == c[..s] + [c[s]] + block + Rewrite(c, e, BlockEnd(c, s + 1))
  {
    hide BlockEnd;
    var end := BlockEnd(c, s + 1);
    RewritePrefix(c, e[s := block], 0, s);
    assert c[0..s] == c[..s];
    RewriteLocal(c, e, e[s := block], end);
    assert Rewrite(c, e[s := block], s) == [c[s]] + block + Rewrite(c, e, end);
    hide Rewrite;
    Assoc4(c[..s], [c[s]], block, Rewrite(c, e, end));
  }

  lemma ApplyNotFound(c: seq<string>, e: map<nat, seq<string>>, f: Fix)
    requires Valid(f) && KeysFrom(c, e, f.line - 1)
    requires FindSep(c, f.line - 1).None?
    ensures Apply(Rewrite(c, e, 0), f) == Rewrite(c, e, 0)
  {
    hide FindSep, IsSep, Blank;
    var idx := f.line - 1;
    Found(c, idx);
    var n := if idx + WINDOW <= |c| then idx + WINDOW else |c|;
    RewritePrefix(c, e, 0, n);
    var d := Rewrite(c, e, 0);
    assert d[..n] == c[..n];
    if idx + WINDOW <= |c| {
      SamePrefix(c, d, idx, n);
    } else {
      assert d == c;
    }
  }

  /** Every winner is a fix of the list that resolves to the separator it wins. */
  lemma {:induction false} WinnerResolves(c: seq<string>, fs: seq<Fix>, s: nat)
    requires Numbered(fs) && s in Winners(c, fs)
    ensures Winners(c, fs)[s] in fs && Winners(c, fs)[s].line >= 1
    ensures FindSep(c, Winners(c, fs)[s].line - 1) == Some(s)
  {
    hide FindSep;
    if s in Winners(c, fs[..|fs| - 1]) {
      WinnerResolves(c, fs[..|fs| - 1], s);
    }
  }

  lemma {:induction false} WinnersAreKeys(c: seq<string>, fs: seq<Fix>, idx: nat)
    requires AllValid(fs)
    requires forall i :: 0 <= i < |fs| ==> fs[i].line - 1 >= idx
    ensures KeysFrom(c, BlocksOf(Winners(c, fs)), idx) && NonBlankBlocks(BlocksOf(Winners(c, fs)))
  {
    hide FindSep, IsSep, Winners, Blank;
    var w := Winners(c, fs);
    forall k | k in w
      ensures idx <= k < |c| && IsSep(c[k]) && AllNonBlank(BlocksOf(w)[k])
    {
      WinnerResolves(c, fs, k);
      Found(c, w[k].line - 1);
      TerminatedNonBlank(w[k].actual);
    }
  }

  lemma TerminatedNonBlank(lines: seq<string>)
    requires AllNonBlank(lines)
    ensures AllNonBlank(Terminate(lines))
  {
    forall i | 0 <= i < |lines| ensures !Blank(Terminate(lines)[i]) {
      var k :| 0 <= k < |lines[i]| && !IsSpace(lines[i][k]);
      assert Terminate(lines)[i][k] == lines[i][k];
    }
  }

  /** Fixes made from the largest line down, each on the lines the last one left, are one simultaneous rewrite. */
  lemma {:induction false} DescendingRefines(c: seq<string>, fs: seq<Fix>)
    requires AllValid(fs) && Descending(fs)
    ensures ApplyAll(c, fs) == SimultaneousRewrite(c, fs)
  {
    if fs == [] {
      RewritePrefix(c, map[], 0, |c|);
    } else {
      var init, f := fs[..|fs| - 1], fs[|fs| - 1];
      DescendingRefines(c, init);
      WinnersAreKeys(c, init, f.line - 1);
      OneMore(c, init, f);
    }
  }

  lemma OneMore(c: seq<string>, init: seq<Fix>, f: Fix)
    requires AllValid(init) && Valid(f)
    requires forall i :: 0 <= i < |init| ==> init[i].line >= f.line
    ensures Apply(SimultaneousRewrite(c, init), f) == Rewrite(c, BlocksOf(Challenge(Winners(c, init), c, f)), 0)
  {
    hide FindSep, IsSep, Apply, Rewrite, Winners;
    WinnersAreKeys(c, init, f.line - 1);
    var w := Winners(c, init);
    match FindSep(c, f.line - 1)
    case None =>
      ApplyNotFound(c, BlocksOf(w), f);
    case Some(s) =>
      ApplyFound(c, BlocksOf(w), f, s);
      if s in w {
        WinnerResolves(c, init, s);
      }
      assert BlocksOf(w[s := f]) == BlocksOf(w)[s := Terminate(f.actual)];
  }

  lemma WinnersSnoc(c: seq<string>, fs: seq<Fix>, x: Fix)
    requires x.line >= 1 && Numbered(fs)
    ensures Numbered(fs + [x]) && Winners(c, fs + [x]) == Challenge(Winners(c, fs), c, x)
  {
    hide FindSep, Challenge;
    assert (fs + [x])[..|fs + [x]| - 1] == fs;
  }

  lemma {:induction false} WinnersInsert(c: seq<string>, fs: seq<Fix>, x: Fix)
    requires x.line >= 1 && Numbered(fs)
    requires Descending(fs)
    ensures Numbered(Insert(fs, x))
    ensures Winners(c, Insert(fs, x)) == Challenge(Winners(c, fs), c, x)
  {
    hide FindSep, Challenge;
    if fs == [] {
      WinnersSnoc(c, [], x);
    } else if fs[|fs| - 1].line >= x.line {
      WinnersSnoc(c, fs, x);
    } else {
      var init, last := fs[..|fs| - 1], fs[|fs| - 1];
      WinnersInsert(c, init, x);
      WinnersSnoc(c, Insert(init, x), last);
      ChallengesCommute(Winners(c, init), c, x, last);
    }
  }

  lemma ChallengesCommute(w: map<nat, Fix>, c: seq<string>, x: Fix, y: Fix)
    requires 1 <= y.line < x.line
    ensures Challenge(Challenge(w, c, x), c, y) == Challenge(Challenge(w, c, y), c, x)
  {
    hide FindSep;
  }

  lemma {:induction false} WinnersOfSorted(c: seq<string>, fs: seq<Fix>)
    requires Numbered(fs)
    ensures Numbered(SortDescending(fs))
    ensures Winners(c, SortDescending(fs)) == Winners(c, fs)
  {
    hide FindSep;
    SortedIn(fs);
    if fs == [] {
    } else {
      var init := fs[..|fs| - 1];
      WinnersOfSorted(c, init);
      Sorted(init);
      WinnersInsert(c, SortDescending(init), fs[|fs| - 1]);
    }
  }

  /**
   * The in-place edits refine the simultaneous rewrite of the original file, for any fixes
   * whatever: however the blocks grow or shrink, collide, or contain one another.
   */
  lemma InPlaceIsSimultaneous(c: seq<string>, fs: seq<Fix>)
    requires AllValid(fs)
    ensures FixedFile(c, fs) == SimultaneousRewrite(c, fs)
  {
    Sorted(fs);
    SortedIn(fs);
    WinnersOfSorted(c, fs);
    DescendingRefines(c, SortDescending(fs));
  }

  /** A separator has a winner exactly when some fix resolves to it. */
  lemma {:induction false} WonIffResolved(c: seq<string>, fs: seq<Fix>, s: nat)
    requires Numbered(fs)
    ensures s in Winners(c, fs) <==> exists k :: 0 <= k < |fs| && FindSep(c, fs[k].line - 1) == Some(s)
  {
    hide FindSep;
    if fs == [] {
    } else {
      var n := |fs| - 1;
      WonIffResolved(c, fs[..n], s);
      assert forall k :: 0 <= k < n ==> fs[..n][k] == fs[k];
    }
  }

  /** Fix `k` resolves to `s` and beats every other fix that does: by line, then by place in the list. */
  ghost predicate Wins(c: seq<string>, fs: seq<Fix>, s: nat, k: nat)
    requires Numbered(fs)
  {
    && k < |fs|
    && FindSep(c, fs[k].line - 1) == Some(s)
    && forall j :: 0 <= j < |fs| && FindSep(c, fs[j].line - 1) == Some(s) ==>
         fs[k].line < fs[j].line || (fs[k].line == fs[j].line && j <= k)
  }

  lemma WinsStill(c: seq<string>, fs: seq<Fix>, s: nat, k: nat)
    requires fs != [] && Numbered(fs)
    requires Wins(c, fs[..|fs| - 1], s, k)
    requires FindSep(c, fs[|fs| - 1].line - 1) == Some(s) ==> fs[k].line < fs[|fs| - 1].line
    ensures Wins(c, fs, s, k)
  {
    hide FindSep;
    var init := fs[..|fs| - 1];
    assert forall j :: 0 <= j < |init| ==> init[j] == fs[j];
  }

  lemma WinsNow(c: seq<string>, fs: seq<Fix>, s: nat)
    requires fs != [] && Numbered(fs)
    requires FindSep(c, fs[|fs| - 1].line - 1) == Some(s)
    requires forall j :: 0 <= j < |fs| - 1 && FindSep(c, fs[j].line - 1) == Some(s) ==> fs[|fs| - 1].line <= fs[j].line
    ensures Wins(c, fs, s, |fs| - 1)
  {
    hide FindSep;
  }

  /**
   * Collisions: the fix that wins a separator has the smallest line of all that resolve to it,
   * and is the last in the list among those.
   */
  lemma {:induction false} WinnerRule(c: seq<string>, fs: seq<Fix>, s: nat) returns (k: nat)
    requires Numbered(fs)
    requires s in Winners(c, fs)
    ensures Wins(c, fs, s, k) && fs[k] == Winners(c, fs)[s]
  {
    hide FindSep, Wins;
    var n := |fs| - 1;
    var init, x := fs[..n], fs[n];
    var w := Winners(c, init);
    if s in w {
      k := WinnerRule(c, init, s);
      WinsMeans(c, init, s, k);
      if FindSep(c, x.line - 1) == Some(s) && x.line <= w[s].line {
        WinsNow(c, fs, s);
        k := n;
      } else {
        WinsStill(c, fs, s, k);
      }
    } else {
      WonIffResolved(c, init, s);
      assert forall j :: 0 <= j < n ==> init[j] == fs[j];
      WinsNow(c, fs, s);
      k := n;
    }
  }

  lemma WinsMeans(c: seq<string>, fs: seq<Fix>, s: nat, k: nat)
    requires Numbered(fs)
    requires Wins(c, fs, s, k)
    ensures k < |fs| && forall j :: 0 <= j < |fs| && FindSep(c, fs[j].line - 1) == Some(s) ==> fs[k].line <= fs[j].line
  {
    hide FindSep;
  }
}
