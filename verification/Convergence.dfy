/**
 * Why the rounds of `update_all` come to an end with every query passing.
 *
 * A test file is taken apart into its queries. A round replaces the blocks of the reported ones, which are
 * among the mismatching, by what they returned, so every round leaves fewer mismatches.
 */
module Convergence {
  import opened Text
  import opened Lines
  import FailureLog
  import opened ExpectedBlocks
  import ReadBack
  import opened UpdateAll

  // ---------- test files as queries ----------

  /**
   * One query of a test file: the lines before it, its own lines from the reported one on,
   * its separator, its expected block, and what running it returns.
   */
  datatype Query = Query(gap: seq<string>, body: seq<string>, sep: string, expected: seq<string>, output: seq<string>)

  datatype TestFile = TestFile(path: string, queries: seq<Query>, tail: seq<string>)

  function Head(q: Query): seq<string> {
    q.gap + q.body
  }

  function QueryLines(q: Query): seq<string> {
    Head(q) + [q.sep] + q.expected
  }

  function Flat(qs: seq<Query>, tail: seq<string>): seq<string> {
    if qs == [] then tail else QueryLines(qs[0]) + Flat(qs[1..], tail)
  }

  function FileText(tf: TestFile): string {
    WriteLines(Flat(tf.queries, tf.tail))
  }

  /** The separator is in the search window of the query, is the first one there, and ends in a newline. */
  ghost predicate QueryOk(q: Query) {
    && 0 < |q.body| < WINDOW
    && (forall i :: 0 <= i < |q.body| ==> !IsSep(q.body[i]))
    && IsSep(q.sep) && Terminated(q.sep)
    && AllNonBlank(q.expected)
    && AllNonBlank(q.output)
    && forall i :: 0 <= i < |q.output| ==> '\n' !in q.output[i]
  }

  /** Every query is as above, and its expected block ends at a blank line or with the file. */
  ghost predicate QueriesOk(qs: seq<Query>, tail: seq<string>) {
    qs != [] ==>
      && QueryOk(qs[0])
      && StartsBlank(Flat(qs[1..], tail))
      && QueriesOk(qs[1..], tail)
  }

  ghost predicate FileOk(tf: TestFile) {
    QueriesOk(tf.queries, tf.tail) && LineList(Flat(tf.queries, tf.tail))
  }

  // ---------- what passes ----------

  function Chomp(line: string): string {
    if Terminated(line) then line[..|line| - 1] else line
  }

  /** The expected block is what the query returns. */
  predicate Matches(q: Query) {
    |q.expected| == |q.output| && forall i :: 0 <= i < |q.output| ==> Chomp(q.expected[i]) == q.output[i]
  }

  function Mismatches(qs: seq<Query>): nat {
    if qs == [] then 0 else (if Matches(qs[0]) then 0 else 1) + Mismatches(qs[1..])
  }

  function Mended(q: Query): Query {
    q.(expected := Terminate(q.output))
  }

  /** The queries with each mismatching block replaced and the rest left alone. */
  function Mend(qs: seq<Query>): seq<Query> {
    if qs == [] then [] else [if Matches(qs[0]) then qs[0] else Mended(qs[0])] + Mend(qs[1..])
  }

  lemma MendedMatches(q: Query)
    ensures Matches(Mended(q))
  {
    forall i | 0 <= i < |q.output| ensures Chomp(Terminate(q.output)[i]) == q.output[i] {
      assert Terminate(q.output)[i] == q.output[i] + "\n";
    }
  }

  lemma {:induction false} MendNothing(qs: seq<Query>)
    requires Mismatches(qs) == 0
    ensures Mend(qs) == qs
  {
    hide Matches;
    if qs == [] {
    } else {
      MendNothing(qs[1..]);
    }
  }

  // ---------- fixes that name mismatching queries ----------

  predicate HasLine(fixes: seq<Fix>, line: nat) {
    exists i :: 0 <= i < |fixes| && fixes[i].line == line
  }

  /** The queries, the first of which starts at index `base`, with the blocks named by the fixes replaced. */
  function Patched(base: nat, qs: seq<Query>, fixes: seq<Fix>): seq<Query>
    decreases |qs|
  {
    if qs == [] then []
    else
      [if HasLine(fixes, base + |qs[0].gap| + 1) then Mended(qs[0]) else qs[0]]
        + Patched(base + |QueryLines(qs[0])|, qs[1..], fixes)
  }

  /** `x` gives the line of a mismatching query and what the query returned. */
  ghost predicate AtMismatch(base: nat, qs: seq<Query>, x: Fix)
    decreases |qs|
  {
    && qs != []
    && var next := base + |QueryLines(qs[0])|;
       if x.line <= next then x == Fix(base + |qs[0].gap| + 1, qs[0].output) && !Matches(qs[0])
       else AtMismatch(next, qs[1..], x)
  }

  /** Every fix past `base` is at a mismatch of the queries from there. */
  ghost predicate FromMismatches(base: nat, qs: seq<Query>, fixes: seq<Fix>) {
    forall x :: x in fixes && x.line > base ==> AtMismatch(base, qs, x)
  }

  lemma FromMismatchesNext(base: nat, qs: seq<Query>, fixes: seq<Fix>)
    requires qs != [] && FromMismatches(base, qs, fixes)
    ensures FromMismatches(base + |QueryLines(qs[0])|, qs[1..], fixes)
    ensures forall x :: x in fixes && base < x.line <= base + |QueryLines(qs[0])| ==>
      x == Fix(base + |qs[0].gap| + 1, qs[0].output) && !Matches(qs[0])
  {
    hide Matches, QueryLines;
  }

  lemma HasLineOf(fixes: seq<Fix>, line: nat)
    ensures HasLine(fixes, line) <==> exists x :: x in fixes && x.line == line
  {
    if HasLine(fixes, line) {
      var i :| 0 <= i < |fixes| && fixes[i].line == line;
      assert fixes[i] in fixes;
    }
  }

  lemma PatchHead(base: nat, qs: seq<Query>, fixes: seq<Fix>)
    requires qs != [] && FromMismatches(base, qs, fixes)
    ensures HasLine(fixes, base + |qs[0].gap| + 1) ==> !Matches(qs[0])
    ensures HasLine(fixes, base + |qs[0].gap| + 1) <==> exists x :: x in fixes && base < x.line <= base + |QueryLines(qs[0])|
  {
    hide Matches;
    HasLineOf(fixes, base + |qs[0].gap| + 1);
    FromMismatchesNext(base, qs, fixes);
  }

  lemma {:induction false} PatchedMends(base: nat, qs: seq<Query>, fixes: seq<Fix>)
    requires FromMismatches(base, qs, fixes)
    ensures Mend(Patched(base, qs, fixes)) == Mend(qs)
    decreases |qs|
  {
    if qs == [] {
    } else {
      PatchHead(base, qs, fixes);
      MendedMatches(qs[0]);
      hide Matches, Mended, HasLine, FromMismatches;
      FromMismatchesNext(base, qs, fixes);
      PatchedMends(base + |QueryLines(qs[0])|, qs[1..], fixes);
    }
  }

  /** A reported query is one mismatch less, and no other query is spoiled. */
  lemma {:induction false} PatchedCounts(base: nat, qs: seq<Query>, fixes: seq<Fix>)
    requires FromMismatches(base, qs, fixes)
    ensures Mismatches(Patched(base, qs, fixes)) <= Mismatches(qs)
    ensures (exists x :: x in fixes && x.line > base) ==> Mismatches(Patched(base, qs, fixes)) < Mismatches(qs)
    decreases |qs|
  {
    if qs != [] {
      PatchHead(base, qs, fixes);
      MendedMatches(qs[0]);
      FromMismatchesNext(base, qs, fixes);
      hide Matches, Mended, HasLine, FromMismatches, QueryLines;
      PatchedCounts(base + |QueryLines(qs[0])|, qs[1..], fixes);
    } else {
      assert forall x :: x in fixes && x.line > base ==> AtMismatch(base, qs, x);
    }
  }

  // ---------- the lines of a patched file ----------

  lemma LineListSplit(a: seq<string>, b: seq<string>)
    requires LineList(a + b) && b != []
    ensures ReadBack.FullLines(a) && LineList(b)
  {
    hide OneLine, Terminated;
    assert forall i :: 0 <= i < |a| ==> (a + b)[i] == a[i];
    assert forall i :: 0 <= i < |b| ==> (a + b)[|a| + i] == b[i];
  }

  /** The last lines of a line list may be dropped behind a line that ends in a newline. */
  lemma LineListTail(a: seq<string>, b: seq<string>)
    requires LineList(a + b)
    ensures LineList(b)
  {
    hide OneLine, Terminated;
    assert forall i :: 0 <= i < |b| ==> (a + b)[|a| + i] == b[i];
  }

  lemma HeadIsFull(q: Query, rest: seq<string>)
    requires QueryOk(q) && LineList(QueryLines(q) + rest)
    ensures ReadBack.FullLines(Head(q) + [q.sep])
    ensures LineList(rest)
  {
    hide OneLine, IsSep, Blank;
    var a, b := Head(q), [q.sep] + (q.expected + rest);
    assert QueryLines(q) + rest == a + b;
    LineListSplit(a, b);
    assert b[0] == q.sep;
    LineListTail(QueryLines(q), rest);
  }

  lemma QueryLinesList(q: Query, block: seq<string>, rest: seq<string>)
    requires ReadBack.FullLines(Head(q) + [q.sep]) && ReadBack.FullLines(block) && LineList(rest)
    ensures LineList(Head(q) + [q.sep] + block + rest)
  {
    hide LineList, ReadBack.FullLines, Head;
    ReadBack.LineListAfter(block, rest);
    ReadBack.LineListAfter(Head(q) + [q.sep], block + rest);
    Assoc3(Head(q) + [q.sep], block, rest);
  }

  lemma ExpectedList(q: Query, rest: seq<string>, rest': seq<string>)
    requires QueryOk(q) && LineList(QueryLines(q) + rest) && LineList(rest')
    requires rest == [] ==> rest' == []
    ensures LineList(QueryLines(q) + rest')
  {
    hide OneLine, Terminated, IsSep, Blank;
    if rest' == [] {
      assert QueryLines(q) + rest' == QueryLines(q);
      assert forall i :: 0 <= i < |QueryLines(q)| ==> (QueryLines(q) + rest)[i] == QueryLines(q)[i];
    } else {
      LineListSplit(QueryLines(q), rest);
      ReadBack.LineListAfter(QueryLines(q), rest');
    }
  }

  lemma {:induction false} PatchedEmpty(base: nat, qs: seq<Query>, fixes: seq<Fix>, tail: seq<string>)
    ensures Flat(qs, tail) == [] <==> Flat(Patched(base, qs, fixes), tail) == []
  {
    if qs != [] {
      assert |QueryLines(qs[0])| > 0;
      assert |QueryLines(Patched(base, qs, fixes)[0])| > 0;
    }
  }

  lemma PatchedQueryLines(q: Query, rest: seq<string>, rest': seq<string>)
    requires QueryOk(q) && LineList(QueryLines(q) + rest) && LineList(rest')
    requires rest == [] ==> rest' == []
    ensures LineList(QueryLines(Mended(q)) + rest') && LineList(QueryLines(q) + rest')
  {
    HeadIsFull(q, rest);
    ReadBack.TerminateFull(q.output);
    assert Head(Mended(q)) == Head(q);
    hide LineList, QueryOk, Head, ReadBack.FullLines, Terminate;
    QueryLinesList(q, Terminate(q.output), rest');
    ExpectedList(q, rest, rest');
  }

  /** A patched file is made of lines again. */
  lemma {:induction false} PatchedLines(base: nat, qs: seq<Query>, fixes: seq<Fix>, tail: seq<string>)
    requires QueriesOk(qs, tail) && LineList(Flat(qs, tail))
    ensures LineList(Flat(Patched(base, qs, fixes), tail))
    decreases |qs|
  {
    hide QueryOk, HasLine, Mended, QueryLines, LineList, StartsBlank;
    if qs == [] {
    } else {
      var q, next, rest := qs[0], base + |QueryLines(qs[0])|, qs[1..];
      LineListTail(QueryLines(q), Flat(rest, tail));
      PatchedLines(next, rest, fixes, tail);
      PatchedEmpty(next, rest, fixes, tail);
      PatchedFirst(base, qs, fixes);
      PatchedQueryLines(q, Flat(rest, tail), Flat(Patched(next, rest, fixes), tail));
    }
  }

  lemma StartsBlankQuery(q: Query, rest: seq<string>, rest': seq<string>)
    requires QueryOk(q)
    ensures StartsBlank(QueryLines(q) + rest) <==> StartsBlank(QueryLines(Mended(q)) + rest')
    ensures StartsBlank(QueryLines(q) + rest) <==> StartsBlank(QueryLines(q) + rest')
  {
    hide Blank, IsSep, AllNonBlank, Terminate;
    var h := Head(q)[0];
    assert (QueryLines(q) + rest)[0] == h && (QueryLines(Mended(q)) + rest')[0] == h && (QueryLines(q) + rest')[0] == h;
  }

  lemma MendedOk(q: Query)
    requires QueryOk(q)
    ensures QueryOk(Mended(q))
  {
    TerminatedNonBlank(q.output);
  }

  lemma {:induction false} PatchedOk(base: nat, qs: seq<Query>, fixes: seq<Fix>, tail: seq<string>)
    requires QueriesOk(qs, tail)
    ensures QueriesOk(Patched(base, qs, fixes), tail)
    ensures StartsBlank(Flat(qs, tail)) <==> StartsBlank(Flat(Patched(base, qs, fixes), tail))
    decreases |qs|
  {
    if qs == [] {
    } else {
      var q, next := qs[0], base + |QueryLines(qs[0])|;
      MendedOk(q);
      StartsBlankQuery(q, Flat(qs[1..], tail), Flat(Patched(next, qs[1..], fixes), tail));
      hide QueryOk, HasLine, StartsBlank, Mended, QueryLines;
      PatchedOk(next, qs[1..], fixes, tail);
      var p := Patched(base, qs, fixes);
      assert p[1..] == Patched(next, qs[1..], fixes);
    }
  }

  // ---------- the fixed file is the patched file ----------

  lemma QueryShape(pre: seq<string>, q: Query, rest: seq<string>)
    ensures pre + (QueryLines(q) + rest) == (pre + q.gap) + q.body + [q.sep] + q.expected + rest
  {
    calc {
      pre + (QueryLines(q) + rest);
      { Assoc3(pre, QueryLines(q), rest); }
      pre + (Head(q) + [q.sep] + q.expected) + rest;
      { Assoc4(pre, Head(q), [q.sep], q.expected); }
      (pre + (q.gap + q.body)) + [q.sep] + q.expected + rest;
      { Assoc3(pre, q.gap, q.body); }
      (pre + q.gap) + q.body + [q.sep] + q.expected + rest;
    }
  }

  /** The search from a query of the file finds its own separator, and the block behind it ends with the query. */
  lemma {:induction false} QueryResolves(c: seq<string>, pre: seq<string>, q: Query, rest: seq<string>, s: nat)
    requires QueryOk(q) && StartsBlank(rest)
    requires c == pre + (QueryLines(q) + rest) && s == |pre| + |Head(q)|
    ensures FindSep(c, |pre| + |q.gap|) == Some(s) && s < |c|
    ensures BlockEnd(c, s + 1) == |pre| + |QueryLines(q)|
  {
    hide IsSep, Blank, FindSep, BlockEnd, StartsBlank, QueryLines, Head, AllNonBlank;
    QueryShape(pre, q, rest);
    QuerySizes(q);
    var p := pre + q.gap;
    assert |p| == |pre| + |q.gap| && s == |p| + |q.body|;
    ReadBack.ReadsAt(p, q.body, q.sep, q.expected, rest);
  }

  lemma QuerySizes(q: Query)
    ensures |Head(q)| == |q.gap| + |q.body| && |QueryLines(q)| == |Head(q)| + 1 + |q.expected|
  {
  }

  /** The query `q` is the lines `base..next` of the file, its separator is line `s` and is what the search finds. */
  ghost predicate QueryAt(c: seq<string>, q: Query, base: nat, s: nat, next: nat) {
    && base <= s < next <= |c|
    && FindSep(c, base + |q.gap|) == Some(s)
    && BlockEnd(c, s + 1) == next
    && c[base..next] == QueryLines(q)
    && c[base..s] == Head(q)
    && c[s] == q.sep
  }

  lemma TakeQuery(pre: seq<string>, q: Query, rest: seq<string>)
    ensures var c := pre + (QueryLines(q) + rest);
      && c == (pre + QueryLines(q)) + rest
      && c[|pre|..|pre| + |QueryLines(q)|] == QueryLines(q)
      && c[|pre|..|pre| + |Head(q)|] == Head(q)
      && c[|pre| + |Head(q)|] == q.sep
  {
    hide Head;
  }

  lemma {:induction false} QueryIsAt(c: seq<string>, pre: seq<string>, q: Query, rest: seq<string>)
    requires QueryOk(q) && StartsBlank(rest) && c == pre + (QueryLines(q) + rest)
    ensures QueryAt(c, q, |pre|, |pre| + |Head(q)|, |pre| + |QueryLines(q)|)
    ensures c == (pre + QueryLines(q)) + rest && |pre| + |QueryLines(q)| <= |c|
  {
    hide QueryLines, Head, StartsBlank, QueryOk, FindSep, BlockEnd;
    TakeQuery(pre, q, rest);
    QuerySizes(q);
    QueryResolves(c, pre, q, rest, |pre| + |Head(q)|);
  }

  /** The fixes up to line `base` have their separators above it. */
  ghost predicate ResolvedAbove(c: seq<string>, fixes: seq<Fix>, base: nat)
    requires Numbered(fixes)
  {
    forall x :: x in fixes && x.line <= base ==> FindSep(c, x.line - 1).Some? && FindSep(c, x.line - 1).value < base
  }

  /** In the lines `base..next` of a query the edits touch only its separator `s`, iff it is reported, with its output. */
  ghost predicate EditedQuery(e: map<nat, seq<string>>, base: nat, next: nat, s: nat, output: seq<string>, reported: bool) {
    && (forall k :: k in e && base <= k < next ==> k == s)
    && (s in e <==> reported)
    && (reported ==> e[s] == Terminate(output))
  }

  /** The fixes between the lines `base` and `next` are all of the query `q` that lies there. */
  ghost predicate OnlyOf(q: Query, base: nat, next: nat, fixes: seq<Fix>) {
    forall x :: x in fixes && base < x.line <= next ==> x == Fix(base + |q.gap| + 1, q.output)
  }

  lemma {:induction false} EditsOfQuery(c: seq<string>, fixes: seq<Fix>, q: Query, base: nat, s: nat, next: nat)
    requires QueryAt(c, q, base, s, next)
    requires Numbered(fixes) && ResolvedAbove(c, fixes, base) && OnlyOf(q, base, next, fixes)
    ensures EditedQuery(ReadBack.Edits(c, fixes), base, next, s, q.output, HasLine(fixes, base + |q.gap| + 1))
    ensures ResolvedAbove(c, fixes, next)
  {
    hide FindSep, Winners, Terminate, QueryLines, Head, BlockEnd;
    var w := Winners(c, fixes);
    forall k | k in w && base <= k < next
      ensures k == s && w[k] == Fix(base + |q.gap| + 1, q.output)
    {
      WinnerResolves(c, fixes, k);
    }
    WonIffResolved(c, fixes, s);
    HasLineOf(fixes, base + |q.gap| + 1);
    if s in w {
      WinnerResolves(c, fixes, s);
    }
    if HasLine(fixes, base + |q.gap| + 1) {
      var i :| 0 <= i < |fixes| && fixes[i].line == base + |q.gap| + 1;
      assert FindSep(c, fixes[i].line - 1) == Some(s);
    }
  }

  /** The rewrite over the lines of one query: its block is replaced iff it is reported. */
  lemma {:induction false} RewriteQuery(c: seq<string>, e: map<nat, seq<string>>, q: Query, base: nat, s: nat, next: nat, reported: bool)
    requires QueryAt(c, q, base, s, next) && EditedQuery(e, base, next, s, q.output, reported)
    ensures Rewrite(c, e, base) == QueryLines(if reported then Mended(q) else q) + Rewrite(c, e, next)
  {
    hide BlockEnd, Head, Terminate, FindSep;
    if reported {
      RewritePrefix(c, e, base, s);
      assert Rewrite(c, e, s) == [q.sep] + Terminate(q.output) + Rewrite(c, e, next);
      hide Rewrite;
      SameHead(q);
      hide QueryAt, EditedQuery;
      Assoc4(Head(q), [q.sep], Terminate(q.output), Rewrite(c, e, next));
    } else {
      RewritePrefix(c, e, base, next);
    }
  }

  lemma SameHead(q: Query)
    ensures Head(Mended(q)) == Head(q)
  {
  }

  lemma PatchedFirst(base: nat, qs: seq<Query>, fixes: seq<Fix>)
    requires qs != []
    ensures var p := Patched(base, qs, fixes);
      && p != []
      && p[0] == (if HasLine(fixes, base + |qs[0].gap| + 1) then Mended(qs[0]) else qs[0])
      && p[1..] == Patched(base + |QueryLines(qs[0])|, qs[1..], fixes)
  {
    hide HasLine, Mended;
  }

  /** One query of `RewriteQueries`, with the rewrite of the queries after it still to do. */
  lemma {:induction false} RewriteFirst(c: seq<string>, q: Query, base: nat, s: nat, next: nat, fixes: seq<Fix>)
    requires QueryAt(c, q, base, s, next)
    requires Numbered(fixes) && ResolvedAbove(c, fixes, base) && OnlyOf(q, base, next, fixes)
    ensures base <= next <= |c| && ResolvedAbove(c, fixes, next)
    ensures Rewrite(c, ReadBack.Edits(c, fixes), base)
         == QueryLines(if HasLine(fixes, base + |q.gap| + 1) then Mended(q) else q) + Rewrite(c, ReadBack.Edits(c, fixes), next)
  {
    assert base <= next <= |c|;
    hide QueryAt, OnlyOf, HasLine, EditedQuery, ResolvedAbove, Rewrite, ReadBack.Edits, QueryLines, Mended;
    EditsOfQuery(c, fixes, q, base, s, next);
    RewriteQuery(c, ReadBack.Edits(c, fixes), q, base, s, next, HasLine(fixes, base + |q.gap| + 1));
  }

  /** The simultaneous rewrite of a test file mends the reported queries and nothing else. */
  lemma {:induction false} RewriteQueries(c: seq<string>, pre: seq<string>, qs: seq<Query>, tail: seq<string>, fixes: seq<Fix>)
    requires c == pre + Flat(qs, tail)
    requires QueriesOk(qs, tail) && Numbered(fixes) && FromMismatches(|pre|, qs, fixes)
    requires ResolvedAbove(c, fixes, |pre|)
    ensures Rewrite(c, ReadBack.Edits(c, fixes), |pre|) == Flat(Patched(|pre|, qs, fixes), tail)
    decreases |qs|
  {
    hide Head, QueryAt, FindSep, QueryOk, HasLine, Winners, FromMismatches, Mended, ResolvedAbove, Rewrite, ReadBack.Edits, StartsBlank, QueryLines, AllValid;
    if qs == [] {
      NoKeysInTail(c, fixes, |pre|);
      RewritePrefix(c, ReadBack.Edits(c, fixes), |pre|, |c|);
      assert c[|pre|..|c|] == tail;
      RewriteEnd(c, ReadBack.Edits(c, fixes));
    } else {
      FromMismatchesNext(|pre|, qs, fixes);
      PatchedFirst(|pre|, qs, fixes);
      hide Patched;
      QueryIsAt(c, pre, qs[0], Flat(qs[1..], tail));
      RewriteFirst(c, qs[0], |pre|, |pre| + |Head(qs[0])|, |pre| + |QueryLines(qs[0])|, fixes);
      RewriteQueries(c, pre + QueryLines(qs[0]), qs[1..], tail, fixes);
    }
  }

  lemma RewriteEnd(c: seq<string>, e: map<nat, seq<string>>)
    ensures Rewrite(c, e, |c|) == []
  {
  }

  lemma NoKeysInTail(c: seq<string>, fixes: seq<Fix>, base: nat)
    requires Numbered(fixes) && ResolvedAbove(c, fixes, base) && base <= |c|
    requires FromMismatches(base, [], fixes)
    ensures NoKey(ReadBack.Edits(c, fixes), base, |c|)
  {
    hide FindSep, Winners;
    forall k | base <= k < |c| ensures k !in ReadBack.Edits(c, fixes) {
      if k in Winners(c, fixes) {
        WinnerResolves(c, fixes, k);
        assert !AtMismatch(base, [], Winners(c, fixes)[k]);
      }
    }
  }

  // ---------- one file of a round ----------

  function PatchFile(tf: TestFile, fixes: seq<Fix>): (r: TestFile)
    ensures r.path == tf.path
  {
    tf.(queries := Patched(0, tf.queries, fixes))
  }

  lemma {:induction false} MismatchIsValid(base: nat, qs: seq<Query>, tail: seq<string>, x: Fix)
    requires QueriesOk(qs, tail) && AtMismatch(base, qs, x)
    ensures Valid(x) && x.line > base
    decreases |qs|
  {
    hide Matches, IsSep, Blank, StartsBlank, QueryLines;
    if x.line > base + |QueryLines(qs[0])| {
      MismatchIsValid(base + |QueryLines(qs[0])|, qs[1..], tail, x);
    } else {
      assert QueryOk(qs[0]);
    }
  }

  lemma MismatchesAreValid(qs: seq<Query>, tail: seq<string>, fixes: seq<Fix>)
    requires QueriesOk(qs, tail) && forall x :: x in fixes ==> AtMismatch(0, qs, x)
    ensures AllValid(fixes) && FromMismatches(0, qs, fixes) && forall x :: x in fixes ==> x.line > 0
  {
    hide QueriesOk, AtMismatch, Valid;
    forall x | x in fixes ensures Valid(x) && x.line > 0 {
      MismatchIsValid(0, qs, tail, x);
    }
  }

  /** `fix_file` on a file whose fixes name mismatching queries mends those queries and nothing else. */
  lemma {:induction false} FixedIsPatched(tf: TestFile, fixes: seq<Fix>)
    requires FileOk(tf) && forall x :: x in fixes ==> AtMismatch(0, tf.queries, x)
    ensures Fixed(FileText(tf), fixes) == Some(FileText(PatchFile(tf, fixes)))
    ensures FileOk(PatchFile(tf, fixes))
  {
    var c := Flat(tf.queries, tf.tail);
    MismatchesAreValid(tf.queries, tf.tail, fixes);
    PatchedLines(0, tf.queries, fixes, tf.tail);
    PatchedOk(0, tf.queries, fixes, tf.tail);
    assert ResolvedAbove(c, fixes, 0);
    hide AtMismatch, Valid, FromMismatches, QueriesOk, LineList, Patched, Flat, ResolvedAbove, FixedFile, Fixed;
    FixedNumbered(FileText(tf), fixes);
    ReadWriteLines(c);
    InPlaceIsSimultaneous(c, fixes);
    assert c == [] + c;
    RewriteQueries(c, [], tf.queries, tf.tail, fixes);
  }

  // ---------- a suite of test files ----------

  type Suite = seq<TestFile>

  ghost predicate SuiteOk(suite: Suite) {
    && (forall i :: 0 <= i < |suite| ==> FileOk(suite[i]))
    && forall i, j :: 0 <= i < j < |suite| ==> suite[i].path != suite[j].path
  }

  /** The suite is what the files on disk hold. */
  ghost predicate Agrees(files: Files, suite: Suite) {
    forall i :: 0 <= i < |suite| ==> suite[i].path in files && files[suite[i].path] == FileText(suite[i])
  }

  ghost predicate FilePasses(tf: TestFile) {
    forall j :: 0 <= j < |tf.queries| ==> Matches(tf.queries[j])
  }

  ghost predicate AllPass(suite: Suite) {
    forall i :: 0 <= i < |suite| ==> FilePasses(suite[i])
  }

  function Total(suite: Suite): nat {
    if suite == [] then 0 else Mismatches(suite[0].queries) + Total(suite[1..])
  }

  function MendFile(tf: TestFile): TestFile {
    tf.(queries := Mend(tf.queries))
  }

  /** The suite with every mismatching block replaced by its query's output, and the rest left alone. */
  function MendSuite(suite: Suite): (r: Suite)
    ensures |r| == |suite| && forall i :: 0 <= i < |suite| ==> r[i] == MendFile(suite[i])
  {
    seq(|suite|, i requires 0 <= i < |suite| => MendFile(suite[i]))
  }

  lemma {:induction false} NoMismatches(qs: seq<Query>)
    ensures Mismatches(qs) == 0 <==> forall j :: 0 <= j < |qs| ==> Matches(qs[j])
  {
    hide Matches;
    if qs == [] {
    } else {
      NoMismatches(qs[1..]);
      assert forall j :: 0 < j < |qs| ==> qs[j] == qs[1..][j - 1];
    }
  }

  lemma {:induction false} NothingTotal(suite: Suite)
    ensures Total(suite) == 0 <==> AllPass(suite)
  {
    hide Matches;
    if suite == [] {
    } else {
      NoMismatches(suite[0].queries);
      NothingTotal(suite[1..]);
      assert forall j :: 0 < j < |suite| ==> suite[j] == suite[1..][j - 1];
    }
  }

  lemma MendPassing(suite: Suite)
    requires AllPass(suite)
    ensures MendSuite(suite) == suite
  {
    hide Matches;
    forall i | 0 <= i < |suite| ensures MendFile(suite[i]) == suite[i] {
      assert FilePasses(suite[i]);
      NoMismatches(suite[i].queries);
      MendNothing(suite[i].queries);
    }
  }

  // ---------- the runner ----------

  /** `f` gives the file and the line of a mismatching query of the suite, and what it returned. */
  ghost predicate IsMismatch(suite: Suite, f: FailureLog.Failure) {
    exists i :: 0 <= i < |suite| && suite[i].path == f.path && AtMismatch(0, suite[i].queries, Fix(f.line, f.actual))
  }

  /** `stderr` is the printed log of the failures `fs`, at least one, each a mismatching query of the suite. */
  ghost predicate LogsMismatches(suite: Suite, stderr: string, log: FailureLog.Log, fs: seq<FailureLog.Failure>) {
    && FailureLog.WellFormed(log)
    && FailureLog.Lexed(FailureLog.Flatten(log))
    && FailureLog.Prints(log, fs)
    && stderr == FailureLog.LogText(log)
    && fs != []
    && forall i :: 0 <= i < |fs| ==> IsMismatch(suite, fs[i])
  }

  /** The run passes iff every block matches; otherwise it reports mismatching queries. */
  ghost predicate HonestRun(suite: Suite, r: RunResult) {
    && (r.ok <==> AllPass(suite))
    && (!r.ok ==> exists log, fs :: LogsMismatches(suite, r.stderr, log, fs))
  }

  function Bare(q: Query): Query {
    q.(expected := [])
  }

  /** The same files and queries, up to the expected blocks. */
  ghost predicate SameFile(a: TestFile, b: TestFile) {
    && a.path == b.path
    && a.tail == b.tail
    && |a.queries| == |b.queries|
    && forall j :: 0 <= j < |a.queries| ==> Bare(a.queries[j]) == Bare(b.queries[j])
  }

  ghost predicate SameSuite(a: Suite, b: Suite) {
    |a| == |b| && forall i :: 0 <= i < |a| ==> SameFile(a[i], b[i])
  }

  /** In every round, whatever the expected blocks have become, the runner answers honestly. */
  ghost predicate Honest(run: Runner, suite: Suite) {
    forall rnd, files, now :: SameSuite(suite, now) && SuiteOk(now) && Agrees(files, now) ==>
      HonestRun(now, run(rnd, files))
  }

  lemma {:induction false} PatchedSame(base: nat, qs: seq<Query>, fixes: seq<Fix>)
    ensures var p := Patched(base, qs, fixes);
      |p| == |qs| && forall j :: 0 <= j < |qs| ==> Bare(p[j]) == Bare(qs[j])
    decreases |qs|
  {
    hide HasLine, QueryLines;
    if qs == [] {
    } else {
      PatchedSame(base + |QueryLines(qs[0])|, qs[1..], fixes);
      assert forall j :: 0 < j < |qs| ==> qs[j] == qs[1..][j - 1];
      var p := Patched(base, qs, fixes);
      assert p[1..] == Patched(base + |QueryLines(qs[0])|, qs[1..], fixes);
      assert forall j :: 0 < j < |qs| ==> p[j] == p[1..][j - 1];
    }
  }

  lemma SameSuiteTrans(a: Suite, b: Suite, c: Suite)
    requires SameSuite(a, b) && SameSuite(b, c)
    ensures SameSuite(a, c)
  {
    forall i | 0 <= i < |a| ensures SameFile(a[i], c[i]) {
      assert SameFile(a[i], b[i]) && SameFile(b[i], c[i]);
    }
  }

  /** A mismatching query has a line by which it can be reported. */
  lemma {:induction false} MismatchHasLine(base: nat, qs: seq<Query>, j: nat) returns (x: Fix)
    requires j < |qs| && !Matches(qs[j])
    ensures AtMismatch(base, qs, x) && x.actual == qs[j].output && x.line > base
    decreases |qs|
  {
    hide Matches;
    if j == 0 {
      x := Fix(base + |qs[0].gap| + 1, qs[0].output);
    } else {
      x := MismatchHasLine(base + |QueryLines(qs[0])|, qs[1..], j - 1);
    }
  }

  /** What the queries return can be told from the separator of a log. */
  ghost predicate AllPrintable(suite: Suite) {
    forall i, j :: 0 <= i < |suite| && 0 <= j < |suite[i].queries| ==>
      FailureLog.Printable(FailureLog.Failure(suite[i].path, 1, suite[i].queries[j].output))
  }

  /** Every suite whose results can be printed has an honest run. */
  lemma HonestRunExists(suite: Suite)
    requires AllPrintable(suite)
    ensures exists r :: HonestRun(suite, r)
  {
    hide FailureLog.Printable, FailureLog.LogText, FailureLog.Flatten, FailureLog.WellFormed, FailureLog.Lexed, FailureLog.Prints;
    if AllPass(suite) {
      assert HonestRun(suite, RunResult(true, ""));
    } else {
      var i, j :| 0 <= i < |suite| && 0 <= j < |suite[i].queries| && !Matches(suite[i].queries[j]);
      var x := MismatchHasLine(0, suite[i].queries, j);
      var f := FailureLog.Failure(suite[i].path, x.line, x.actual);
      FailureLog.PrintableAnyLine(suite[i].path, 1, x.line, x.actual);
      var log := FailureLog.PrintableHasLog(f);
      assert IsMismatch(suite, f);
      assert LogsMismatches(suite, FailureLog.LogText(log), log, [f]);
      assert HonestRun(suite, RunResult(false, FailureLog.LogText(log)));
    }
  }

  lemma SameBlock(x: seq<string>, r: seq<string>, y: seq<string>, s: seq<string>)
    requires AllNonBlank(x) && AllNonBlank(y) && StartsBlank(r) && StartsBlank(s) && x + r == y + s
    ensures x == y && r == s
  {
    hide AllNonBlank, StartsBlank, BlockEnd;
    assert [] + x == x && [] + y == y;
    BlockEndAt([], x, r);
    BlockEndAt([], y, s);
    assert x == (x + r)[..|x|] && y == (y + s)[..|y|];
    assert r == (x + r)[|x|..] && s == (y + s)[|y|..];
  }

  lemma SameQuery(a: Query, r: seq<string>, b: Query, s: seq<string>)
    requires QueryOk(a) && QueryOk(b) && StartsBlank(r) && StartsBlank(s)
    requires Bare(a) == Bare(b) && QueryLines(a) + r == QueryLines(b) + s
    ensures a == b && r == s
  {
    var h := Head(a) + [a.sep];
    hide StartsBlank, Head;
    Assoc3(h, a.expected, r);
    Assoc3(h, b.expected, s);
    assert Head(a) == Head(b) by {
      assert a.gap == b.gap && a.body == b.body;
      HeadOf(a, b);
    }
    assert (h + (a.expected + r))[|h|..] == a.expected + r;
    assert (h + (b.expected + s))[|h|..] == b.expected + s;
    SameBlock(a.expected, r, b.expected, s);
  }

  lemma HeadOf(a: Query, b: Query)
    requires a.gap == b.gap && a.body == b.body
    ensures Head(a) == Head(b)
  {
  }

  /** The text of a test file tells the expected blocks of its queries. */
  lemma {:induction false} SameQueries(a: seq<Query>, b: seq<Query>, tail: seq<string>)
    requires QueriesOk(a, tail) && QueriesOk(b, tail)
    requires |a| == |b| && (forall j :: 0 <= j < |a| ==> Bare(a[j]) == Bare(b[j]))
    requires Flat(a, tail) == Flat(b, tail)
    ensures a == b
  {
    hide QueryOk, QueryLines, StartsBlank, Bare;
    if a == [] {
    } else {
      assert Bare(a[0]) == Bare(b[0]);
      SameQuery(a[0], Flat(a[1..], tail), b[0], Flat(b[1..], tail));
      SameQueries(a[1..], b[1..], tail);
    }
  }

  lemma SameText(a: TestFile, b: TestFile)
    requires FileOk(a) && FileOk(b) && SameFile(a, b) && FileText(a) == FileText(b)
    ensures a == b
  {
    hide QueriesOk, LineList, Bare, Flat;
    ReadWriteLines(Flat(a.queries, a.tail));
    ReadWriteLines(Flat(b.queries, b.tail));
    SameQueries(a.queries, b.queries, a.tail);
  }

  /** What the files hold tells the suite, given its queries. */
  lemma SuiteOfFiles(files: Files, a: Suite, b: Suite)
    requires SuiteOk(a) && SuiteOk(b) && SameSuite(a, b) && Agrees(files, a) && Agrees(files, b)
    ensures a == b
  {
    hide FileText, FileOk, SameFile;
    forall i | 0 <= i < |a| ensures a[i] == b[i] {
      SamePath(a[i], b[i]);
      SameText(a[i], b[i]);
    }
  }

  lemma SamePath(a: TestFile, b: TestFile)
    requires SameFile(a, b)
    ensures a.path == b.path
  {
  }

  lemma SameSuiteBack(a: Suite, b: Suite, c: Suite)
    requires SameSuite(a, b) && SameSuite(a, c)
    ensures SameSuite(b, c)
  {
    hide Bare;
    forall i | 0 <= i < |b| ensures SameFile(b[i], c[i]) {
      assert SameFile(a[i], b[i]) && SameFile(a[i], c[i]);
    }
  }

  lemma StillPrintable(a: Suite, b: Suite)
    requires SameSuite(a, b) && AllPrintable(a)
    ensures AllPrintable(b)
  {
    hide FailureLog.Printable;
    forall i, j | 0 <= i < |b| && 0 <= j < |b[i].queries|
      ensures FailureLog.Printable(FailureLog.Failure(b[i].path, 1, b[i].queries[j].output))
    {
      assert SameFile(a[i], b[i]);
      assert Bare(a[i].queries[j]) == Bare(b[i].queries[j]);
      assert a[i].queries[j].output == b[i].queries[j].output;
    }
  }

  /** `now` is the suite with the expected blocks that the files hold. */
  ghost predicate IsNow(suite: Suite, files: Files, now: Suite) {
    SameSuite(suite, now) && SuiteOk(now) && Agrees(files, now)
  }

  /** There is an honest runner for every suite whose results can be printed. */
  lemma HonestRunnerExists(suite: Suite)
    requires AllPrintable(suite)
    ensures exists run: Runner :: Honest(run, suite)
  {
    hide SameSuite, SuiteOk, Agrees, HonestRun, AllPrintable;
    var run: Runner := (rnd, files) =>
      if exists now, r :: IsNow(suite, files, now) && HonestRun(now, r) then
        var now, r :| IsNow(suite, files, now) && HonestRun(now, r); r
      else RunResult(true, "");
    forall rnd, files, now | SameSuite(suite, now) && SuiteOk(now) && Agrees(files, now)
      ensures HonestRun(now, run(rnd, files))
    {
      StillPrintable(suite, now);
      HonestRunExists(now);
      assert IsNow(suite, files, now);
      forall other | IsNow(suite, files, other) ensures other == now {
        SameSuiteBack(suite, now, other);
        SuiteOfFiles(files, now, other);
      }
    }
    assert Honest(run, suite);
  }

  // ---------- one round ----------

  function PatchSuite(suite: Suite, fs: seq<FailureLog.Failure>): (r: Suite)
    ensures |r| == |suite|
    ensures forall i :: 0 <= i < |suite| ==> r[i] == PatchFile(suite[i], FixesFor(fs, suite[i].path))
  {
    seq(|suite|, i requires 0 <= i < |suite| => PatchFile(suite[i], FixesFor(fs, suite[i].path)))
  }

  ghost predicate AllNamed(suite: Suite, fs: seq<FailureLog.Failure>) {
    forall i :: 0 <= i < |fs| ==> IsMismatch(suite, fs[i])
  }

  lemma FixesAtMismatches(suite: Suite, fs: seq<FailureLog.Failure>, i: nat)
    requires SuiteOk(suite) && AllNamed(suite, fs) && i < |suite|
    ensures forall x :: x in FixesFor(fs, suite[i].path) ==> AtMismatch(0, suite[i].queries, x)
  {
    hide FixesFor, AtMismatch, FileOk;
    forall x | x in FixesFor(fs, suite[i].path) ensures AtMismatch(0, suite[i].queries, x) {
      FixIsFailure(fs, suite[i].path, x);
      var k :| 0 <= k < |fs| && fs[k] == FailureLog.Failure(suite[i].path, x.line, x.actual);
      assert IsMismatch(suite, fs[k]);
      var j :| 0 <= j < |suite| && suite[j].path == fs[k].path && AtMismatch(0, suite[j].queries, Fix(fs[k].line, fs[k].actual));
      assert j == i;
    }
  }

  /** A patched file has the same queries and end in sight, and fewer mismatches. */
  lemma {:induction false} PatchedFileProgress(tf: TestFile, fixes: seq<Fix>)
    requires FileOk(tf) && forall x :: x in fixes ==> AtMismatch(0, tf.queries, x)
    ensures var next := PatchFile(tf, fixes);
      && SameFile(tf, next)
      && MendFile(next) == MendFile(tf)
      && Mismatches(next.queries) <= Mismatches(tf.queries)
      && (fixes != [] ==> Mismatches(next.queries) < Mismatches(tf.queries))
  {
    hide AtMismatch, FromMismatches, Bare, AllValid, QueriesOk, LineList;
    MismatchesAreValid(tf.queries, tf.tail, fixes);
    PatchedSame(0, tf.queries, fixes);
    PatchedMends(0, tf.queries, fixes);
    PatchedCounts(0, tf.queries, fixes);
    if fixes != [] {
      assert fixes[0] in fixes;
    }
  }

  lemma {:induction false} PatchedFile(suite: Suite, fs: seq<FailureLog.Failure>, i: nat)
    requires SuiteOk(suite) && AllNamed(suite, fs) && i < |suite|
    ensures var fixes := FixesFor(fs, suite[i].path);
      && Fixed(FileText(suite[i]), fixes) == Some(FileText(PatchFile(suite[i], fixes)))
      && FileOk(PatchFile(suite[i], fixes))
      && SameFile(suite[i], PatchFile(suite[i], fixes))
      && MendFile(PatchFile(suite[i], fixes)) == MendFile(suite[i])
      && Mismatches(PatchFile(suite[i], fixes).queries) <= Mismatches(suite[i].queries)
      && (fixes != [] ==> Mismatches(PatchFile(suite[i], fixes).queries) < Mismatches(suite[i].queries))
  {
    var tf, fixes := suite[i], FixesFor(fs, suite[i].path);
    FixesAtMismatches(suite, fs, i);
    hide FixesFor, AtMismatch, FileOk, SameFile, MendFile, Fixed, FileText, PatchFile, Mismatches;
    FixedIsPatched(tf, fixes);
    PatchedFileProgress(tf, fixes);
  }

  lemma {:induction false} TotalLess(a: Suite, b: Suite, k: nat)
    requires |a| == |b| && k < |a|
    requires forall i :: 0 <= i < |a| ==> Mismatches(a[i].queries) <= Mismatches(b[i].queries)
    requires Mismatches(a[k].queries) < Mismatches(b[k].queries)
    ensures Total(a) < Total(b)
  {
    hide Mismatches;
    if k == 0 {
      TotalAtMost(a[1..], b[1..]);
    } else {
      TotalLess(a[1..], b[1..], k - 1);
    }
  }

  lemma {:induction false} TotalAtMost(a: Suite, b: Suite)
    requires |a| == |b|
    requires forall i :: 0 <= i < |a| ==> Mismatches(a[i].queries) <= Mismatches(b[i].queries)
    ensures Total(a) <= Total(b)
  {
    hide Mismatches;
    if a == [] {
    } else {
      TotalAtMost(a[1..], b[1..]);
    }
  }

  /** Every round leaves a suite of the same queries with fewer mismatches and the same end in sight. */
  lemma {:induction false} PatchSuiteProgress(suite: Suite, fs: seq<FailureLog.Failure>)
    requires SuiteOk(suite) && AllNamed(suite, fs) && fs != []
    ensures var next := PatchSuite(suite, fs);
      SuiteOk(next) && SameSuite(suite, next) && MendSuite(next) == MendSuite(suite) && Total(next) < Total(suite)
  {
    var next := PatchSuite(suite, fs);
    hide FixesFor, FileOk, SameFile, Mismatches, MendFile;
    forall i | 0 <= i < |suite|
      ensures FileOk(next[i]) && SameFile(suite[i], next[i]) && MendFile(next[i]) == MendFile(suite[i])
      ensures Mismatches(next[i].queries) <= Mismatches(suite[i].queries)
    {
      PatchedFile(suite, fs, i);
    }
    assert IsMismatch(suite, fs[0]);
    var k :| 0 <= k < |suite| && suite[k].path == fs[0].path;
    FixIsFailure(fs, suite[k].path, Fix(fs[0].line, fs[0].actual));
    PatchedFile(suite, fs, k);
    TotalLess(next, suite, k);
  }

  /** The failing files are files of the suite. */
  lemma PathsInSuite(suite: Suite, fs: seq<FailureLog.Failure>, path: string) returns (i: nat)
    requires AllNamed(suite, fs) && path in Paths(fs)
    ensures i < |suite| && suite[i].path == path
  {
    hide AtMismatch, FixesFor, Paths;
    PathsHaveFixes(fs, path);
    FixIsFailure(fs, path, FixesFor(fs, path)[0]);
    var k :| 0 <= k < |fs| && fs[k].path == path;
    assert IsMismatch(suite, fs[k]);
    i :| 0 <= i < |suite| && suite[i].path == path;
  }

  /** Every failing file of a suite is there, and no fix of it raises. */
  lemma {:induction false} SuiteCanBeFixed(suite: Suite, files: Files, fs: seq<FailureLog.Failure>, path: string)
    requires SuiteOk(suite) && AllNamed(suite, fs) && Agrees(files, suite) && path in Paths(fs)
    ensures path in files && Fixed(files[path], FixesFor(fs, path)).Some?
  {
    hide FixesFor, Paths, FileOk, AllNamed, Fixed, PatchFile;
    var i := PathsInSuite(suite, fs, path);
    PatchedFile(suite, fs, i);
  }

  ghost predicate EachFixed(files: Files, fs: seq<FailureLog.Failure>, next: Files) {
    && next.Keys == files.Keys
    && (forall p :: p in files && p !in Paths(fs) ==> next[p] == files[p])
    && forall p :: p in files && p in Paths(fs) ==> Some(next[p]) == Fixed(files[p], FixesFor(fs, p))
  }

  lemma {:induction false} FileAfterRound(suite: Suite, files: Files, fs: seq<FailureLog.Failure>, next: Files, i: nat)
    requires SuiteOk(suite) && AllNamed(suite, fs) && Agrees(files, suite) && i < |suite|
    requires EachFixed(files, fs, next)
    ensures suite[i].path in next
    ensures next[suite[i].path] == FileText(PatchFile(suite[i], FixesFor(fs, suite[i].path)))
  {
    var path := suite[i].path;
    assert path in files && files[path] == FileText(suite[i]);
    PatchedFile(suite, fs, i);
    hide FixesFor, Paths, FileOk, AllNamed, Fixed, PatchFile, FileText, MendFile, SameFile, Mismatches;
    PathsHaveFixes(fs, path);
    if path !in Paths(fs) {
      NoFixesNoPatch(suite[i]);
    }
  }

  /** The files after a round hold the patched suite; files outside the suite are left alone. */
  lemma {:induction false} RoundIsPatch(suite: Suite, files: Files, fs: seq<FailureLog.Failure>)
    requires SuiteOk(suite) && AllNamed(suite, fs) && Agrees(files, suite)
    ensures var (outcome, next) := FixFiles(files, fs, Paths(fs));
      outcome == Written && Agrees(next, PatchSuite(suite, fs)) && SameElsewhere(files, next, suite)
  {
    PathsAreDistinct(fs);
    hide FixesFor, Paths, FixFiles, FileOk, AllNamed, Fixed, PatchFile, FileText, MendFile, SameFile, Mismatches, Distinct;
    forall p | p in Paths(fs) ensures p in files && Fixed(files[p], FixesFor(fs, p)).Some? {
      SuiteCanBeFixed(suite, files, fs, p);
    }
    FixFilesEach(files, fs, Paths(fs));
    var next := FixFiles(files, fs, Paths(fs)).1;
    forall i | 0 <= i < |suite|
      ensures suite[i].path in next && next[suite[i].path] == FileText(PatchSuite(suite, fs)[i])
    {
      FileAfterRound(suite, files, fs, next, i);
    }
    forall p | p in files && forall i :: 0 <= i < |suite| ==> suite[i].path != p ensures next[p] == files[p] {
      if p in Paths(fs) {
        var i := PathsInSuite(suite, fs, p);
      }
    }
  }

  lemma NoFixesNoPatch(tf: TestFile)
    ensures PatchFile(tf, []) == tf
  {
    PatchedByNone(0, tf.queries);
  }

  lemma {:induction false} PatchedByNone(base: nat, qs: seq<Query>)
    ensures Patched(base, qs, []) == qs
    decreases |qs|
  {
    hide QueryLines;
    if qs == [] {
    } else {
      PatchedByNone(base + |QueryLines(qs[0])|, qs[1..]);
    }
  }

  /** The two file trees hold the same files, and differ at most in those of the suite. */
  ghost predicate SameElsewhere(files: Files, next: Files, suite: Suite) {
    && next.Keys == files.Keys
    && forall p :: p in files && (forall i :: 0 <= i < |suite| ==> suite[i].path != p) ==> next[p] == files[p]
  }

  // ---------- all rounds ----------

  lemma HonestNow(run: Runner, suite: Suite, files: Files, rnd: nat)
    requires Honest(run, suite) && SuiteOk(suite) && Agrees(files, suite)
    ensures HonestRun(suite, run(rnd, files))
  {
    hide SuiteOk, Agrees, HonestRun;
    SameSuiteRefl(suite);
  }

  lemma PassingRound(run: Runner, files: Files, rnd: nat, maxRounds: nat)
    requires rnd <= maxRounds && run(rnd, files).ok
    ensures Rounds(run, files, rnd, maxRounds) == (Passed, files)
  {
    hide FixFiles, Paths;
  }

  lemma FailingRound(run: Runner, files: Files, rnd: nat, maxRounds: nat)
    requires rnd <= maxRounds && !run(rnd, files).ok
    requires var fs := FailureLog.ParseText(run(rnd, files).stderr); fs != [] && FixFiles(files, fs, Paths(fs)).0 == Written
    ensures var fs := FailureLog.ParseText(run(rnd, files).stderr);
      Rounds(run, files, rnd, maxRounds) == Rounds(run, FixFiles(files, fs, Paths(fs)).1, rnd + 1, maxRounds)
  {
    hide FixFiles, Paths, FailureLog.ParseText;
  }

  lemma SameElsewhereRefl(files: Files, suite: Suite)
    ensures SameElsewhere(files, files, suite)
  {
  }

  lemma SameElsewhereTrans(a: Files, b: Files, c: Files, suite: Suite, next: Suite)
    requires SameElsewhere(a, b, suite) && SameElsewhere(b, c, next) && SameSuite(suite, next)
    ensures SameElsewhere(a, c, suite)
  {
    hide Bare;
    forall p | p in a && forall i :: 0 <= i < |suite| ==> suite[i].path != p ensures c[p] == a[p] {
      forall i | 0 <= i < |next| ensures next[i].path != p {
        assert SameFile(suite[i], next[i]);
      }
    }
  }

  /**
   * With an honest runner, a suite with k mismatching queries passes within k + 1 rounds,
   * and is left with exactly the mismatching blocks replaced.
   */
  lemma {:induction false} Converges(run: Runner, suite: Suite, files: Files, rnd: nat, maxRounds: nat)
    requires Honest(run, suite)
    requires SuiteOk(suite) && Agrees(files, suite)
    requires rnd + Total(suite) <= maxRounds
    ensures var (outcome, left) := Rounds(run, files, rnd, maxRounds);
      outcome == Passed && Agrees(left, MendSuite(suite)) && SameElsewhere(files, left, suite)
    decreases Total(suite)
  {
    hide FixFiles, Paths, Honest, SuiteOk, Agrees, AllPass, HonestRun, SameSuite, SameElsewhere, Rounds, Total, MendSuite, AllNamed,
      FailureLog.ParseText;
    var r := run(rnd, files);
    HonestNow(run, suite, files, rnd);
    NothingTotal(suite);
    if AllPass(suite) {
      PassingRun(suite, r);
      MendPassing(suite);
      PassingRound(run, files, rnd, maxRounds);
      SameElsewhereRefl(files, suite);
    } else {
      var fs := FailingRun(suite, r);
      var next := PatchSuite(suite, fs);
      var files' := FixFiles(files, fs, Paths(fs)).1;
      PatchSuiteProgress(suite, fs);
      RoundIsPatch(suite, files, fs);
      StillHonest(run, suite, next);
      Converges(run, next, files', rnd + 1, maxRounds);
      FailingRound(run, files, rnd, maxRounds);
      SameElsewhereTrans(files, files', Rounds(run, files', rnd + 1, maxRounds).1, suite, next);
    }
  }

  lemma SameSuiteRefl(a: Suite)
    ensures SameSuite(a, a)
  {
  }

  lemma PassingRun(suite: Suite, r: RunResult)
    requires HonestRun(suite, r) && AllPass(suite)
    ensures r.ok
  {
  }

  /** What `parse_failures` reads from an honest failing run. */
  lemma {:induction false} FailingRun(suite: Suite, r: RunResult) returns (fs: seq<FailureLog.Failure>)
    requires HonestRun(suite, r) && !AllPass(suite)
    ensures !r.ok && fs == FailureLog.ParseText(r.stderr) && fs != [] && AllNamed(suite, fs)
  {
    hide AllPass, IsMismatch;
    var log, gs :| LogsMismatches(suite, r.stderr, log, gs);
    FailureLog.ParserUndoesPrinter(log, gs);
    fs := gs;
  }

  lemma StillHonest(run: Runner, suite: Suite, next: Suite)
    requires Honest(run, suite) && SameSuite(suite, next)
    ensures Honest(run, next)
  {
    hide SuiteOk, Agrees, HonestRun, SameSuite;
    forall rnd, files, now | SameSuite(next, now) && SuiteOk(now) && Agrees(files, now)
      ensures HonestRun(now, run(rnd, files))
    {
      SameSuiteTrans(suite, next, now);
    }
  }

  /** The default of 60 rounds, or any other number, is enough for any smaller number of mismatches. */
  lemma {:induction false} UpdateAllConverges(run: Runner, suite: Suite, files: Files, maxRounds: nat)
    requires Honest(run, suite)
    requires SuiteOk(suite) && Agrees(files, suite)
    requires Total(suite) < maxRounds
    ensures var (outcome, left) := Rounds(run, files, 1, maxRounds);
      && outcome == Passed
      && Agrees(left, MendSuite(suite))
      && AllPass(MendSuite(suite))
      && SameElsewhere(files, left, suite)
  {
    hide Honest, SuiteOk, Agrees, Rounds, SameElsewhere;
    Converges(run, suite, files, 1, maxRounds);
    MendedPasses(suite);
  }

  lemma {:induction false} MendedQueries(qs: seq<Query>)
    ensures Mismatches(Mend(qs)) == 0
  {
    if qs == [] {
    } else {
      MendedMatches(qs[0]);
      hide Matches, Mended;
      MendedQueries(qs[1..]);
      assert Mend(qs)[1..] == Mend(qs[1..]);
    }
  }

  lemma MendedPasses(suite: Suite)
    ensures AllPass(MendSuite(suite))
  {
    hide Matches;
    forall i | 0 <= i < |suite| ensures FilePasses(MendSuite(suite)[i]) {
      MendedQueries(suite[i].queries);
      NoMismatches(Mend(suite[i].queries));
    }
  }
}
