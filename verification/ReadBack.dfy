/** What the file `fix_file` leaves says when it is read again. */
module ReadBack {
  import opened Text
  import opened Lines
  import opened ExpectedBlocks

  // ---------- where the lines go ----------

  ghost predicate KeysIn(c: seq<string>, e: map<nat, seq<string>>) {
    forall k :: k in e ==> k < |c|
  }

  /** Line `j` is not part of a replaced block. */
  ghost predicate Outside(c: seq<string>, e: map<nat, seq<string>>, j: nat)
    requires KeysIn(c, e)
  {
    forall k :: k in e ==> j <= k || BlockEnd(c, k + 1) <= j
  }

  /** No replaced block contains another replaced block's separator. */
  ghost predicate Apart(c: seq<string>, e: map<nat, seq<string>>)
    requires KeysIn(c, e)
  {
    forall k :: k in e ==> Outside(c, e, k)
  }

  /** What the replaced blocks above line `j` add to the file, less what they take away. */
  function Growth(c: seq<string>, e: map<nat, seq<string>>, j: nat): int
    requires j <= |c|
  {
    if j == 0 then 0
    else Growth(c, e, j - 1) + if j - 1 in e then |e[j - 1]| - (BlockEnd(c, j) - j) else 0
  }

  /** Where line `j` is after the rewrite. */
  function NewPos(c: seq<string>, e: map<nat, seq<string>>, j: nat): int
    requires j <= |c|
  {
    j + Growth(c, e, j)
  }

  lemma {:induction false} GrowthFlat(c: seq<string>, e: map<nat, seq<string>>, i: nat, j: nat)
    requires i <= j <= |c| && NoKey(e, i, j)
    ensures Growth(c, e, j) == Growth(c, e, i)
    decreases j - i
  {
    if i == j {
    } else {
      GrowthFlat(c, e, i, j - 1);
    }
  }

  /** After a replaced block the walk goes on outside every block, and positions have moved by its growth. */
  lemma AfterBlock(c: seq<string>, e: map<nat, seq<string>>, i: nat)
    requires KeysIn(c, e) && Apart(c, e) && i in e
    ensures var be := BlockEnd(c, i + 1);
      Outside(c, e, be) && NewPos(c, e, be) == NewPos(c, e, i) + 1 + |e[i]|
  {
    var be := BlockEnd(c, i + 1);
    hide BlockEnd;
    forall k | k in e ensures be <= k || BlockEnd(c, k + 1) <= be {
      assert Outside(c, e, k);
      assert Outside(c, e, i);
    }
    assert NoKey(e, i + 1, be) by {
      assert forall k :: k in e ==> Outside(c, e, k);
    }
    GrowthFlat(c, e, i + 1, be);
  }

  lemma AfterLine(c: seq<string>, e: map<nat, seq<string>>, i: nat)
    requires KeysIn(c, e) && Outside(c, e, i) && i < |c| && i !in e
    ensures Outside(c, e, i + 1) && NewPos(c, e, i + 1) == NewPos(c, e, i) + 1
  {
    hide BlockEnd;
  }

  /** Between two lines outside the blocks the rewrite writes as many lines as their new positions are apart. */
  lemma {:induction false} Walk(c: seq<string>, e: map<nat, seq<string>>, i: nat, j: nat) returns (x: seq<string>)
    requires KeysIn(c, e) && Apart(c, e)
    requires i <= j <= |c| && Outside(c, e, i) && Outside(c, e, j)
    ensures Rewrite(c, e, i) == x + Rewrite(c, e, j)
    ensures |x| == NewPos(c, e, j) - NewPos(c, e, i)
    ensures i < j ==> x != []
    decreases j - i
  {
    hide BlockEnd, NewPos, Growth;
    if i == j {
      x := [];
    } else if i in e {
      AfterBlock(c, e, i);
      var y := Walk(c, e, BlockEnd(c, i + 1), j);
      x := [c[i]] + e[i] + y;
      hide Outside, Apart;
      assert Rewrite(c, e, i) == [c[i]] + e[i] + (y + Rewrite(c, e, j));
      hide Rewrite;
      Assoc3([c[i]] + e[i], y, Rewrite(c, e, j));
    } else {
      AfterLine(c, e, i);
      var y := Walk(c, e, i + 1, j);
      x := [c[i]] + y;
      hide Outside, Apart;
      assert Rewrite(c, e, i) == [c[i]] + (y + Rewrite(c, e, j));
      hide Rewrite;
      Assoc3([c[i]], y, Rewrite(c, e, j));
    }
  }

  /** The rewritten file up to and from the new place of line `j`. */
  lemma WalkTo(c: seq<string>, e: map<nat, seq<string>>, j: nat) returns (x: seq<string>)
    requires KeysIn(c, e) && Apart(c, e) && j <= |c| && Outside(c, e, j)
    ensures Rewrite(c, e, 0) == x + Rewrite(c, e, j)
    ensures |x| == NewPos(c, e, j)
  {
    hide BlockEnd, Rewrite;
    x := Walk(c, e, 0, j);
  }

  /** The file grows by the new blocks less the old ones. */
  lemma RewriteLength(c: seq<string>, e: map<nat, seq<string>>)
    requires KeysIn(c, e) && Apart(c, e)
    ensures |Rewrite(c, e, 0)| == |c| + Growth(c, e, |c|)
  {
    hide BlockEnd;
    var x := WalkTo(c, e, |c|);
  }

  /** Every line outside the replaced blocks survives, at its new place, and the order is kept. */
  lemma LinesSurvive(c: seq<string>, e: map<nat, seq<string>>)
    requires KeysIn(c, e) && Apart(c, e)
    ensures forall j :: 0 <= j < |c| && Outside(c, e, j) ==>
      0 <= NewPos(c, e, j) < |Rewrite(c, e, 0)| && Rewrite(c, e, 0)[NewPos(c, e, j)] == c[j]
    ensures forall i, j :: 0 <= i < j < |c| && Outside(c, e, i) && Outside(c, e, j) ==>
      NewPos(c, e, i) < NewPos(c, e, j)
  {
    hide BlockEnd, NewPos, Outside;
    forall j | 0 <= j < |c| && Outside(c, e, j)
      ensures 0 <= NewPos(c, e, j) < |Rewrite(c, e, 0)| && Rewrite(c, e, 0)[NewPos(c, e, j)] == c[j]
    {
      var x := WalkTo(c, e, j);
      assert Rewrite(c, e, j)[0] == c[j];
    }
    forall i, j | 0 <= i < j < |c| && Outside(c, e, i) && Outside(c, e, j)
      ensures NewPos(c, e, i) < NewPos(c, e, j)
    {
      var x := Walk(c, e, i, j);
    }
  }

  // ---------- reading a fix back ----------

  /** Searching from the fix's query finds a block that is what the query returned. */
  ghost predicate Reads(d: seq<string>, f: Fix)
    requires f.line >= 1
  {
    match FindSep(d, f.line - 1)
    case None => false
    case Some(q) => d[q + 1..BlockEnd(d, q + 1)] == Terminate(f.actual)
  }

  lemma ReadsAt(pre: seq<string>, gap: seq<string>, sep: string, block: seq<string>, rest: seq<string>)
    requires |gap| < WINDOW && IsSep(sep) && forall i :: 0 <= i < |gap| ==> !IsSep(gap[i])
    requires AllNonBlank(block) && StartsBlank(rest)
    ensures var d, q := pre + gap + [sep] + block + rest, |pre| + |gap|;
      FindSep(d, |pre|) == Some(q) && BlockEnd(d, q + 1) == q + 1 + |block| && d[q + 1..q + 1 + |block|] == block
  {
    hide IsSep, Blank, FindSep;
    var d, q := pre + gap + [sep] + block + rest, |pre| + |gap|;
    BlockEndAt(pre + gap + [sep], block, rest);
    hide BlockEnd;
    assert d[q + 1..q + 1 + |block|] == block;
    forall i | |pre| <= i < q ensures !IsSep(d[i]) {
      assert d[i] == gap[i - |pre|];
    }
    FoundAt(d, |pre|, q);
  }

  /** The rewrite around a query: what comes before it, its lines, its separator, the new block, the rest. */
  lemma ReplacedShape(c: seq<string>, e: map<nat, seq<string>>, idx: nat, s: nat) returns (x: seq<string>)
    requires NonBlankBlocks(e) && KeysIn(c, e) && Apart(c, e)
    requires idx <= s && s in e && Outside(c, e, idx) && NoKey(e, idx, s)
    ensures |x| == NewPos(c, e, idx)
    ensures Rewrite(c, e, 0) == x + c[idx..s] + [c[s]] + e[s] + Rewrite(c, e, BlockEnd(c, s + 1))
  {
    hide Blank, NewPos, Outside, Apart, BlockEnd;
    x := WalkTo(c, e, idx);
    RewritePrefix(c, e, idx, s);
    var rest := Rewrite(c, e, BlockEnd(c, s + 1));
    assert Rewrite(c, e, s) == [c[s]] + e[s] + rest;
    hide Rewrite;
    calc {
      Rewrite(c, e, 0);
      x + (c[idx..s] + ([c[s]] + e[s] + rest));
      { Assoc3(x, c[idx..s], [c[s]] + e[s] + rest); }
      x + c[idx..s] + ([c[s]] + e[s] + rest);
      { Assoc4(x + c[idx..s], [c[s]], e[s], rest); }
      x + c[idx..s] + [c[s]] + e[s] + rest;
    }
  }

  lemma {:induction false} ReadsReplaced(c: seq<string>, e: map<nat, seq<string>>, idx: nat, s: nat)
    requires KeysFrom(c, e, 0) && NonBlankBlocks(e) && KeysIn(c, e) && Apart(c, e)
    requires FindSep(c, idx) == Some(s) && s in e && Outside(c, e, idx)
    ensures NewPos(c, e, idx) >= 0
    ensures var d, q := Rewrite(c, e, 0), NewPos(c, e, idx) + (s - idx);
      FindSep(d, NewPos(c, e, idx)) == Some(q) && d[q + 1..BlockEnd(d, q + 1)] == e[s]
  {
    hide IsSep, Blank, FindSep, NewPos, Outside, Apart;
    Found(c, idx);
    BlockEndStops(c, s + 1);
    hide BlockEnd;
    var end := BlockEnd(c, s + 1);
    RewriteAtEnd(c, e, end);
    hide Rewrite;
    var x := ReplacedShape(c, e, idx, s);
    hide KeysFrom, KeysIn, NoKey, StartsBlank;
    assert forall i :: 0 <= i < |c[idx..s]| ==> c[idx..s][i] == c[idx + i];
    ReadsAt(x, c[idx..s], c[s], e[s], Rewrite(c, e, end));
  }

  // ---------- a query inside a replaced block ----------

  /** The block has `n` last lines, and none of them is a separator. */
  ghost predicate TailClear(block: seq<string>, n: nat) {
    n <= |block| && forall i :: |block| - n <= i < |block| ==> !IsSep(block[i])
  }

  /** The replaced block that line `idx` is in, if any, is put back with lines enough to hold the query, and no separator there. */
  ghost predicate QueryClear(c: seq<string>, e: map<nat, seq<string>>, idx: nat)
    requires KeysIn(c, e)
  {
    forall k :: k in e && k < idx < BlockEnd(c, k + 1) ==> TailClear(e[k], BlockEnd(c, k + 1) - idx)
  }

  /** The search from the `n`-th last line of a block finds the next separator exactly when those lines are there and clear. */
  lemma SearchFromTail(pre: seq<string>, sep: string, block: seq<string>, gap: seq<string>, own: string, rest: seq<string>, n: nat)
    requires IsSep(sep) && IsSep(own) && (forall i :: 0 <= i < |gap| ==> !IsSep(gap[i])) && n + |gap| < WINDOW
    ensures var d, b := pre + [sep] + block + gap + ([own] + rest), |pre| + 1 + |block|;
      (b - n >= 0 && FindSep(d, b - n) == Some(b + |gap|)) <==> TailClear(block, n)
  {
    hide IsSep, FindSep;
    var d, b := pre + [sep] + block + gap + ([own] + rest), |pre| + 1 + |block|;
    var p, q := b - n, b + |gap|;
    assert d[|pre|] == sep && d[q] == own;
    assert forall i :: 0 <= i < |block| ==> d[|pre| + 1 + i] == block[i];
    assert forall i :: b <= i < q ==> d[i] == gap[i - b];
    if TailClear(block, n) {
      forall i | p <= i < q ensures !IsSep(d[i]) {
        assert i < b ==> d[i] == block[i - |pre| - 1];
      }
      FoundAt(d, p, q);
    }
    if p >= 0 && FindSep(d, p) == Some(q) {
      Found(d, p);
      assert |pre| < p;
      forall i | |block| - n <= i < |block| ensures !IsSep(block[i]) {
        assert block[i] == d[|pre| + 1 + i];
      }
    }
  }

  /** The rewrite around a replaced block and the separator that comes next. */
  lemma {:induction false} InsideShape(c: seq<string>, e: map<nat, seq<string>>, k: nat, s: nat) returns (pre: seq<string>, rest: seq<string>)
    requires KeysFrom(c, e, 0) && NonBlankBlocks(e) && KeysIn(c, e) && Apart(c, e)
    requires k in e && s in e && BlockEnd(c, k + 1) <= s && NoKey(e, BlockEnd(c, k + 1), s)
    ensures |pre| == NewPos(c, e, k)
    ensures Rewrite(c, e, 0) == pre + [c[k]] + e[k] + c[BlockEnd(c, k + 1)..s] + ([c[s]] + rest)
  {
    hide IsSep, Blank, NewPos, BlockEnd, Outside, Apart, KeysFrom, NonBlankBlocks;
    var be := BlockEnd(c, k + 1);
    KeyOutside(c, e, k);
    pre := ReplacedShape(c, e, k, k);
    RewritePrefix(c, e, be, s);
    rest := e[s] + Rewrite(c, e, BlockEnd(c, s + 1));
    RewriteAtKey(c, e, s);
    hide Rewrite;
    calc {
      Rewrite(c, e, 0);
      pre + c[k..k] + [c[k]] + e[k] + Rewrite(c, e, be);
      { assert pre + c[k..k] == pre; }
      pre + [c[k]] + e[k] + (c[be..s] + ([c[s]] + rest));
      { Assoc3(pre + [c[k]] + e[k], c[be..s], [c[s]] + rest); }
      pre + [c[k]] + e[k] + c[be..s] + ([c[s]] + rest);
    }
  }

  lemma KeyOutside(c: seq<string>, e: map<nat, seq<string>>, k: nat)
    requires KeysIn(c, e) && Apart(c, e) && k in e
    ensures Outside(c, e, k)
  {
    hide Outside;
  }

  lemma RewriteAtKey(c: seq<string>, e: map<nat, seq<string>>, s: nat)
    requires s < |c| && s in e
    ensures Rewrite(c, e, s) == [c[s]] + (e[s] + Rewrite(c, e, BlockEnd(c, s + 1)))
  {
    hide BlockEnd;
    assert [c[s]] + e[s] + Rewrite(c, e, BlockEnd(c, s + 1)) == [c[s]] + (e[s] + Rewrite(c, e, BlockEnd(c, s + 1)));
  }

  /** No two replaced blocks hold one line. */
  lemma OneBlock(c: seq<string>, e: map<nat, seq<string>>, idx: nat, j: nat, k: nat)
    requires KeysIn(c, e) && Apart(c, e) && j in e && k in e
    requires j < idx < BlockEnd(c, j + 1) && k < idx < BlockEnd(c, k + 1)
    ensures j == k
  {
    hide BlockEnd;
    assert Outside(c, e, j) && Outside(c, e, k);
  }

  lemma {:induction false} InsideFinds(c: seq<string>, e: map<nat, seq<string>>, idx: nat, s: nat, k: nat)
    requires KeysFrom(c, e, 0) && NonBlankBlocks(e) && KeysIn(c, e) && Apart(c, e)
    requires FindSep(c, idx) == Some(s) && s in e && k in e && k < idx < BlockEnd(c, k + 1)
    ensures NewPos(c, e, s) >= 0
    ensures var p := NewPos(c, e, idx);
      (p >= 0 && FindSep(Rewrite(c, e, 0), p) == Some(NewPos(c, e, s))) <==> TailClear(e[k], BlockEnd(c, k + 1) - idx)
  {
    hide FindSep, IsSep, Blank, BlockEnd, NonBlankBlocks, TailClear, Rewrite;
    var be := BlockEnd(c, k + 1);
    Found(c, idx);
    InsidePlaces(c, e, idx, s, k);
    hide Apart, Growth, NewPos;
    var pre, rest := InsideShape(c, e, k, s);
    SearchFromTail(pre, c[k], e[k], c[be..s], c[s], rest, be - idx);
  }

  /** The new places of a line in a replaced block, and of the separator that comes next. */
  lemma {:induction false} InsidePlaces(c: seq<string>, e: map<nat, seq<string>>, idx: nat, s: nat, k: nat)
    requires KeysFrom(c, e, 0) && KeysIn(c, e) && Apart(c, e)
    requires FindSep(c, idx) == Some(s) && s in e && k in e && k < idx < BlockEnd(c, k + 1)
    ensures var be, b := BlockEnd(c, k + 1), NewPos(c, e, k) + 1 + |e[k]|;
      && be <= s && NoKey(e, be, s)
      && NewPos(c, e, idx) == b - (be - idx)
      && NewPos(c, e, s) == b + (s - be)
  {
    hide FindSep, IsSep, BlockEnd;
    var be := BlockEnd(c, k + 1);
    Found(c, idx);
    AfterBlock(c, e, k);
    assert Outside(c, e, s);
    assert NoKey(e, idx, s);
    GrowthFlat(c, e, idx, be);
    GrowthFlat(c, e, be, s);
  }

  /** The search from a query's new place finds the query's own separator exactly when the query is clear. */
  lemma {:induction false} FindsItsOwn(c: seq<string>, e: map<nat, seq<string>>, idx: nat, s: nat)
    requires KeysFrom(c, e, 0) && NonBlankBlocks(e) && KeysIn(c, e) && Apart(c, e)
    requires FindSep(c, idx) == Some(s) && s in e
    ensures NewPos(c, e, s) >= 0
    ensures var p := NewPos(c, e, idx);
      (p >= 0 && FindSep(Rewrite(c, e, 0), p) == Some(NewPos(c, e, s))) <==> QueryClear(c, e, idx)
  {
    hide FindSep, IsSep, Blank, BlockEnd, NonBlankBlocks, TailClear, Rewrite, NewPos, Apart, KeysFrom;
    if Outside(c, e, idx) {
      ReadsReplaced(c, e, idx, s);
      SeparatorMoves(c, e, idx, s);
    } else {
      var k :| k in e && k < idx < BlockEnd(c, k + 1);
      InsideFinds(c, e, idx, s, k);
      forall j | j in e && j < idx < BlockEnd(c, j + 1) ensures j == k {
        OneBlock(c, e, idx, j, k);
      }
    }
  }

  lemma SeparatorMoves(c: seq<string>, e: map<nat, seq<string>>, idx: nat, s: nat)
    requires KeysFrom(c, e, 0) && KeysIn(c, e) && FindSep(c, idx) == Some(s)
    ensures NewPos(c, e, s) == NewPos(c, e, idx) + (s - idx)
  {
    hide FindSep, IsSep, BlockEnd;
    Found(c, idx);
    GrowthFlat(c, e, idx, s);
  }

  /** Behind a replaced separator stands the new block. */
  lemma {:induction false} BlockStands(c: seq<string>, e: map<nat, seq<string>>, s: nat)
    requires KeysFrom(c, e, 0) && NonBlankBlocks(e) && KeysIn(c, e) && Apart(c, e) && s in e
    ensures var d, q := Rewrite(c, e, 0), NewPos(c, e, s);
      0 <= q < |d| && d[q + 1..BlockEnd(d, q + 1)] == e[s]
  {
    hide FindSep, IsSep, Blank, BlockEnd, NonBlankBlocks, Rewrite, NewPos, Outside;
    FoundAt(c, s, s);
    ReadsReplaced(c, e, s, s);
  }

  // ---------- reading a list of fixes back ----------

  /** The query of `g` is not inside the block that `f` replaces. */
  ghost predicate QueryOutside(c: seq<string>, f: Fix, g: Fix)
    requires f.line >= 1 && g.line >= 1
  {
    match FindSep(c, f.line - 1)
    case None => true
    case Some(s) => g.line - 1 <= s || BlockEnd(c, s + 1) <= g.line - 1
  }

  /** No fix that has a separator has its query inside the block another fix replaces. */
  ghost predicate QueriesOutside(c: seq<string>, fs: seq<Fix>)
    requires Numbered(fs)
  {
    forall f, g :: f in fs && g in fs && FindSep(c, g.line - 1).Some? ==> QueryOutside(c, f, g)
  }

  function Edits(c: seq<string>, fs: seq<Fix>): map<nat, seq<string>>
    requires Numbered(fs)
  {
    BlocksOf(Winners(c, fs))
  }

  lemma ValidNumbered(fs: seq<Fix>)
    requires AllValid(fs)
    ensures Numbered(fs)
    ensures forall f :: f in fs ==> f.line >= 1
  {
  }

  lemma EditsAreKeys(c: seq<string>, fs: seq<Fix>)
    requires AllValid(fs)
    ensures KeysFrom(c, Edits(c, fs), 0) && KeysIn(c, Edits(c, fs)) && NonBlankBlocks(Edits(c, fs))
  {
    hide FindSep, IsSep, Winners, Blank;
    WinnersAreKeys(c, fs, 0);
  }

  /** A query outside the replaced blocks has its separator outside them as well. */
  lemma {:induction false} SeparatorOutside(c: seq<string>, e: map<nat, seq<string>>, idx: nat, j: nat)
    requires KeysIn(c, e) && KeysFrom(c, e, 0) && Outside(c, e, idx) && FindSep(c, idx) == Some(j)
    ensures Outside(c, e, j)
  {
    hide IsSep, FindSep, BlockEnd;
    Found(c, idx);
  }

  lemma QueryOutsideEdits(c: seq<string>, fs: seq<Fix>, g: Fix)
    requires AllValid(fs) && QueriesOutside(c, fs) && KeysIn(c, Edits(c, fs))
    requires g in fs && FindSep(c, g.line - 1).Some?
    ensures Outside(c, Edits(c, fs), g.line - 1)
  {
    hide FindSep, Winners, BlockEnd, AllValid, QueriesOutside;
    ValidNumbered(fs);
    forall k | k in Winners(c, fs) ensures g.line - 1 <= k || BlockEnd(c, k + 1) <= g.line - 1 {
      QueryOutsideWinner(c, fs, g, k);
    }
  }

  lemma {:induction false} QueryOutsideWinner(c: seq<string>, fs: seq<Fix>, g: Fix, k: nat)
    requires Numbered(fs) && QueriesOutside(c, fs) && k in Winners(c, fs) && k < |c|
    requires g in fs && FindSep(c, g.line - 1).Some?
    ensures g.line - 1 <= k || BlockEnd(c, k + 1) <= g.line - 1
  {
    hide FindSep, Winners, BlockEnd;
    WinnerResolves(c, fs, k);
    assert QueryOutside(c, Winners(c, fs)[k], g);
  }

  lemma {:induction false} EditsApart(c: seq<string>, fs: seq<Fix>)
    requires AllValid(fs) && QueriesOutside(c, fs) && KeysIn(c, Edits(c, fs)) && KeysFrom(c, Edits(c, fs), 0)
    ensures Apart(c, Edits(c, fs))
  {
    hide FindSep, Winners, QueriesOutside, AllValid, Outside, KeysFrom, BlockEnd;
    ValidNumbered(fs);
    forall j | j in Winners(c, fs) ensures Outside(c, Edits(c, fs), j) {
      WinnerOutside(c, fs, j);
    }
  }

  lemma {:induction false} WinnerOutside(c: seq<string>, fs: seq<Fix>, j: nat)
    requires AllValid(fs) && QueriesOutside(c, fs) && KeysIn(c, Edits(c, fs)) && KeysFrom(c, Edits(c, fs), 0)
    requires j in Winners(c, fs)
    ensures Outside(c, Edits(c, fs), j)
  {
    hide FindSep, Winners, QueriesOutside, AllValid, Outside, KeysFrom, KeysIn, BlockEnd, Edits;
    ValidNumbered(fs);
    WinnerResolves(c, fs, j);
    var g := Winners(c, fs)[j];
    QueryOutsideEdits(c, fs, g);
    SeparatorOutside(c, Edits(c, fs), g.line - 1, j);
  }

  /** Where the search of a fix starts after the edits; behind the end of the file it moves with the end. */
  function MovedStart(c: seq<string>, e: map<nat, seq<string>>, idx: nat): int {
    if idx <= |c| then NewPos(c, e, idx) else NewPos(c, e, |c|) + (idx - |c|)
  }

  /** A fix whose query moved with the net growth of the blocks above it. */
  function Shifted(c: seq<string>, fs: seq<Fix>, f: Fix): (r: Fix)
    requires Numbered(fs) && f.line >= 1
    ensures r.line >= 1
  {
    var p := MovedStart(c, Edits(c, fs), f.line - 1);
    Fix(if p >= 0 then p + 1 else 1, f.actual)
  }

  /** No replaced block holds another's separator, and every query in a replaced block is clear. */
  ghost predicate QueriesClear(c: seq<string>, fs: seq<Fix>)
    requires AllValid(fs) && KeysIn(c, Edits(c, fs))
  {
    && Apart(c, Edits(c, fs))
    && forall f :: f in fs && FindSep(c, f.line - 1).Some? ==> QueryClear(c, Edits(c, fs), f.line - 1)
  }

  lemma {:induction false} OutsideIsClear(c: seq<string>, fs: seq<Fix>)
    requires AllValid(fs) && QueriesOutside(c, fs)
    ensures KeysIn(c, Edits(c, fs)) && QueriesClear(c, fs)
  {
    hide FindSep, Winners, BlockEnd, QueriesOutside, AllValid, TailClear, Apart;
    ValidNumbered(fs);
    EditsAreKeys(c, fs);
    EditsApart(c, fs);
    forall f | f in fs && FindSep(c, f.line - 1).Some? ensures QueryClear(c, Edits(c, fs), f.line - 1) {
      QueryOutsideEdits(c, fs, f);
    }
  }

  /** Behind each separator that a fix resolves to, the written file has the lines of the fix that won it. */
  lemma {:induction false} FixedReadsBack(c: seq<string>, fs: seq<Fix>, f: Fix, s: nat)
    requires AllValid(fs) && f in fs && FindSep(c, f.line - 1) == Some(s)
    requires KeysIn(c, Edits(c, fs)) && Apart(c, Edits(c, fs))
    ensures s in Winners(c, fs)
    ensures HoldsBlock(FixedFile(c, fs), NewPos(c, Edits(c, fs), s), Terminate(Winners(c, fs)[s].actual))
  {
    hide FindSep, IsSep, Blank, Apart, FixedFile, Winners, NewPos, Rewrite, BlockEnd, KeysFrom, KeysIn, Terminate;
    EditsAreKeys(c, fs);
    ResolvedWins(c, fs, f, s);
    BlockStands(c, Edits(c, fs), s);
    InPlaceIsSimultaneous(c, fs);
  }

  /** Behind line `q` stands the block, up to the next blank line or the end. */
  ghost predicate HoldsBlock(d: seq<string>, q: int, block: seq<string>) {
    0 <= q < |d| && d[q + 1..BlockEnd(d, q + 1)] == block
  }

  /** The search from line `p` ends at line `q`. */
  ghost predicate SearchEnds(d: seq<string>, p: int, q: int) {
    p >= 0 && q >= 0 && FindSep(d, p) == Some(q)
  }

  /** After `fix_file`, the search from a shifted query finds the query's own separator exactly when the query is clear. */
  lemma {:induction false} FixedFindsItsOwn(c: seq<string>, fs: seq<Fix>, f: Fix, s: nat)
    requires AllValid(fs) && f in fs && FindSep(c, f.line - 1) == Some(s)
    requires KeysIn(c, Edits(c, fs)) && Apart(c, Edits(c, fs))
    ensures SearchEnds(FixedFile(c, fs), NewPos(c, Edits(c, fs), f.line - 1), NewPos(c, Edits(c, fs), s))
      <==> QueryClear(c, Edits(c, fs), f.line - 1)
  {
    hide FindSep, IsSep, Blank, Apart, QueryClear, FixedFile, Winners, NewPos, Rewrite, BlockEnd, KeysFrom, KeysIn;
    EditsAreKeys(c, fs);
    ResolvedWins(c, fs, f, s);
    FindsItsOwn(c, Edits(c, fs), f.line - 1, s);
    InPlaceIsSimultaneous(c, fs);
  }

  lemma ExampleLines()
    ensures IsSep("----\n") && !IsSep("a\n") && !IsSep("\n")
    ensures Blank("\n") && !Blank("a\n") && !Blank("----\n") && !Blank("y\n")
  {
    hide LeftStrip, RightStrip;
    assert "----"[0] == '-' && "a"[0] == 'a';
    StripPad("", "----", "\n");
    StripPad("", "a", "\n");
    assert "" + "----" + "\n" == "----\n" && "" + "a" + "\n" == "a\n";
    assert |"----"| == 4 && |"a"| == 1;
    assert "y\n"[0] == 'y' && "a\n"[0] == 'a' && "----\n"[0] == '-';
    StripBlank("\n");
  }

  lemma ExamplePlaces(c: seq<string>)
    requires c == ["----\n", "a\n", "\n", "----\n"]
    ensures BlockEnd(c, 1) == 2 && BlockEnd(c, 4) == 4
    ensures FindSep(c, 0) == Some(0) && FindSep(c, 1) == Some(3)
  {
    ExampleLines();
    hide IsSep, Blank, FindSep;
    assert BlockEnd(c, 2) == 2;
    FoundAt(c, 0, 0);
    FoundAt(c, 1, 3);
  }

  lemma ExampleEdits(c: seq<string>, fs: seq<Fix>)
    requires Numbered(fs) && FindSep(c, 0) == Some(0) && FindSep(c, 1) == Some(3)
    requires fs == [Fix(1, []), Fix(2, ["y"])]
    ensures Edits(c, fs) == map[0 := [], 3 := ["y\n"]]
  {
    ExampleBlocks();
    hide FindSep;
    assert fs[..1] == [Fix(1, [])] && fs[..1][..0] == [];
    assert Winners(c, fs[..1]) == map[0 := Fix(1, [])];
    assert Winners(c, fs) == map[0 := Fix(1, []), 3 := Fix(2, ["y"])];
  }

  lemma ExampleBlocks()
    ensures Terminate([]) == [] && Terminate(["y"]) == ["y\n"]
  {
    assert "y" + "\n" == "y\n";
    assert Terminate(["y"])[0] == "y\n";
  }

  lemma ExampleNotClear(c: seq<string>, e: map<nat, seq<string>>)
    requires c == ["----\n", "a\n", "\n", "----\n"] && e == map[0 := [], 3 := ["y\n"]]
    ensures KeysIn(c, e) && Apart(c, e) && !QueryClear(c, e, 1)
  {
    ExamplePlaces(c);
    hide BlockEnd, FindSep;
    assert !TailClear(e[0], BlockEnd(c, 1) - 1);
  }

  /** A query can be lost: its line was in a block that is now empty, and the search misses its separator. */
  lemma {:induction false} QueryLost()
    ensures var c, fs := ["----\n", "a\n", "\n", "----\n"], [Fix(1, []), Fix(2, ["y"])];
      && AllValid(fs) && KeysIn(c, Edits(c, fs)) && Apart(c, Edits(c, fs))
      && FindSep(c, 1) == Some(3)
      && !SearchEnds(FixedFile(c, fs), NewPos(c, Edits(c, fs), 1), NewPos(c, Edits(c, fs), 3))
  {
    var c, fs := ["----\n", "a\n", "\n", "----\n"], [Fix(1, []), Fix(2, ["y"])];
    ExampleFixes(fs);
    ExamplePlaces(c);
    ExampleEdits(c, fs);
    ExampleNotClear(c, Edits(c, fs));
    assert fs[1] in fs && fs[1].line == 2;
    hide Apart, AllValid, BlockEnd, Edits, FindSep, FixedFile, KeysIn, NewPos, QueryClear, SearchEnds;
    FixedFindsItsOwn(c, fs, fs[1], 3);
  }

  lemma ExampleFixes(fs: seq<Fix>)
    requires fs == [Fix(1, []), Fix(2, ["y"])]
    ensures AllValid(fs)
  {
    assert "y"[0] == 'y' && !IsSpace('y');
  }

  lemma ResolvedWins(c: seq<string>, fs: seq<Fix>, f: Fix, s: nat)
    requires Numbered(fs) && f in fs && FindSep(c, f.line - 1) == Some(s)
    ensures s in Winners(c, fs)
  {
    hide FindSep, Winners;
    WonIffResolved(c, fs, s);
  }

  /** Fixes that resolve to one separator bring the same lines, and every fix resolves. */
  ghost predicate Agreeing(c: seq<string>, fs: seq<Fix>)
    requires Numbered(fs)
  {
    && (forall f :: f in fs ==> FindSep(c, f.line - 1).Some?)
    && forall f, g :: f in fs && g in fs && FindSep(c, f.line - 1) == FindSep(c, g.line - 1) ==> f.actual == g.actual
  }

  function ShiftedAll(c: seq<string>, fs: seq<Fix>): (r: seq<Fix>)
    requires Numbered(fs)
    ensures |r| == |fs| && forall i :: 0 <= i < |fs| ==> r[i] == Shifted(c, fs, fs[i])
    ensures Numbered(r)
  {
    seq(|fs|, i requires 0 <= i < |fs| => Shifted(c, fs, fs[i]))
  }

  lemma {:induction false} OwnReads(c: seq<string>, fs: seq<Fix>, f: Fix, s: nat)
    requires AllValid(fs) && f in fs && FindSep(c, f.line - 1) == Some(s)
    requires KeysIn(c, Edits(c, fs)) && Apart(c, Edits(c, fs)) && QueryClear(c, Edits(c, fs), f.line - 1)
    requires s in Winners(c, fs) && Winners(c, fs)[s].actual == f.actual
    ensures Reads(FixedFile(c, fs), Shifted(c, fs, f))
  {
    hide FindSep, Apart, QueryClear, Winners, FixedFile, KeysIn, Terminate, NewPos, BlockEnd, Edits, AllValid;
    FixedReadsBack(c, fs, f, s);
    FixedFindsItsOwn(c, fs, f, s);
  }

  lemma ClearOf(c: seq<string>, fs: seq<Fix>, f: Fix)
    requires AllValid(fs) && KeysIn(c, Edits(c, fs)) && QueriesClear(c, fs) && f in fs && FindSep(c, f.line - 1).Some?
    ensures Apart(c, Edits(c, fs)) && QueryClear(c, Edits(c, fs), f.line - 1)
  {
    hide FindSep, Apart, QueryClear, Winners, KeysIn;
  }

  /** All fixes of a separator bring what its winner brings. */
  lemma {:induction false} WinnerAgrees(c: seq<string>, fs: seq<Fix>, f: Fix, s: nat)
    requires Numbered(fs) && Agreeing(c, fs) && f in fs && FindSep(c, f.line - 1) == Some(s)
    ensures s in Winners(c, fs) && Winners(c, fs)[s].actual == f.actual
  {
    hide FindSep, Winners;
    ResolvedWins(c, fs, f, s);
    WinnerResolves(c, fs, s);
  }

  /** When the fixes agree and the queries are clear, each fix reads back. */
  lemma {:induction false} AgreeingReadsBack(c: seq<string>, fs: seq<Fix>, f: Fix)
    requires AllValid(fs) && Agreeing(c, fs) && f in fs
    requires KeysIn(c, Edits(c, fs)) && QueriesClear(c, fs)
    ensures Reads(FixedFile(c, fs), Shifted(c, fs, f))
  {
    assert FindSep(c, f.line - 1).Some?;
    ValidNumbered(fs);
    var s := FindSep(c, f.line - 1).value;
    hide FindSep, Apart, Agreeing, QueriesClear, QueryClear, Winners, FixedFile, KeysIn, Reads, Shifted, Edits, AllValid;
    ClearOf(c, fs, f);
    WinnerAgrees(c, fs, f, s);
    OwnReads(c, fs, f, s);
  }

  // ---------- making the fixes again ----------

  /** A search that finds no separator finds none from its new place. */
  lemma UnfoundStaysUnfound(c: seq<string>, e: map<nat, seq<string>>, idx: nat)
    requires KeysFrom(c, e, 0) && KeysIn(c, e) && Apart(c, e)
    requires FindSep(c, idx).None? && (idx < |c| ==> Outside(c, e, idx))
    ensures MovedStart(c, e, idx) >= 0 && FindSep(Rewrite(c, e, 0), MovedStart(c, e, idx)).None?
  {
    hide FindSep, IsSep, BlockEnd, Rewrite, Outside, Apart;
    var d, p := Rewrite(c, e, 0), MovedStart(c, e, idx);
    Found(c, idx);
    if idx >= |c| {
      EndOutside(c, e);
      RewriteLength(c, e);
      Found(d, p);
    } else {
      var n := if idx + WINDOW <= |c| then idx + WINDOW else |c|;
      var x := WindowSurvives(c, e, idx, n);
      Found(d, p);
      assert forall i :: p <= i < p + (n - idx) ==> d[i] == c[idx..n][i - p];
    }
  }

  lemma EndOutside(c: seq<string>, e: map<nat, seq<string>>)
    requires KeysIn(c, e) && Apart(c, e)
    ensures NewPos(c, e, |c|) >= 0
  {
    hide BlockEnd, Apart;
    RewriteLength(c, e);
  }

  /** Lines without a separator that start outside the blocks are found as they were, at their new place. */
  lemma WindowSurvives(c: seq<string>, e: map<nat, seq<string>>, idx: nat, n: nat) returns (x: seq<string>)
    requires KeysFrom(c, e, 0) && KeysIn(c, e) && Apart(c, e) && Outside(c, e, idx)
    requires idx <= n <= |c| && forall i :: idx <= i < n ==> !IsSep(c[i])
    ensures |x| == NewPos(c, e, idx)
    ensures Rewrite(c, e, 0) == x + (c[idx..n] + Rewrite(c, e, n))
    ensures n == |c| ==> Rewrite(c, e, n) == []
  {
    hide IsSep, BlockEnd, NewPos, Outside, Apart;
    x := WalkTo(c, e, idx);
    assert NoKey(e, idx, n);
    RewritePrefix(c, e, idx, n);
  }

  /** No replaced block holds another's separator or the query of a fix without one, and the others' queries are clear. */
  ghost predicate AllClear(c: seq<string>, fs: seq<Fix>)
    requires AllValid(fs) && KeysIn(c, Edits(c, fs))
  {
    && QueriesClear(c, fs)
    && forall f :: f in fs && FindSep(c, f.line - 1).None? && f.line - 1 < |c| ==> Outside(c, Edits(c, fs), f.line - 1)
  }

  lemma AllClearIsClear(c: seq<string>, fs: seq<Fix>)
    requires AllValid(fs) && KeysIn(c, Edits(c, fs)) && AllClear(c, fs)
    ensures QueriesClear(c, fs)
  {
    hide FindSep, KeysIn, Edits, QueriesClear;
  }

  /** A shifted fix resolves to the new place of its separator, and its line moves with it. */
  lemma {:induction false} ShiftedResolves(c: seq<string>, fs: seq<Fix>, f: Fix, s: nat)
    requires AllValid(fs) && KeysIn(c, Edits(c, fs)) && AllClear(c, fs) && f in fs && FindSep(c, f.line - 1) == Some(s)
    ensures var q := NewPos(c, Edits(c, fs), s);
      && q >= 0
      && FindSep(FixedFile(c, fs), Shifted(c, fs, f).line - 1) == Some(q)
      && Shifted(c, fs, f).line - f.line == q - s
  {
    hide FindSep, Apart, QueryClear, AllClear, QueriesClear, FixedFile, KeysIn, KeysFrom, NewPos, Edits, AllValid, NonBlankBlocks,
      Numbered, Shifted;
    ValidNumbered(fs);
    EditsAreKeys(c, fs);
    AllClearIsClear(c, fs);
    ClearOf(c, fs, f);
    FixedFindsItsOwn(c, fs, f, s);
    SeparatorMoves(c, Edits(c, fs), f.line - 1, s);
    ShiftedLine(c, fs, f);
  }

  lemma ShiftedLine(c: seq<string>, fs: seq<Fix>, f: Fix)
    requires Numbered(fs) && f.line >= 1 && f.line - 1 <= |c| && NewPos(c, Edits(c, fs), f.line - 1) >= 0
    ensures Shifted(c, fs, f).line == NewPos(c, Edits(c, fs), f.line - 1) + 1
  {
    hide NewPos, Edits;
  }

  /** A fix that resolves to nothing still resolves to nothing. */
  lemma {:induction false} ShiftedUnresolved(c: seq<string>, fs: seq<Fix>, f: Fix)
    requires AllValid(fs) && KeysIn(c, Edits(c, fs)) && AllClear(c, fs) && f in fs && FindSep(c, f.line - 1).None?
    ensures FindSep(FixedFile(c, fs), Shifted(c, fs, f).line - 1).None?
  {
    EditsAreKeys(c, fs);
    UnresolvedOutside(c, fs, f);
    hide FindSep, Apart, Outside, AllClear, AllValid, FixedFile, KeysIn, KeysFrom, MovedStart, Edits, NonBlankBlocks, Rewrite, Winners;
    InPlaceIsSimultaneous(c, fs);
    UnfoundStaysUnfound(c, Edits(c, fs), f.line - 1);
  }

  lemma UnresolvedOutside(c: seq<string>, fs: seq<Fix>, f: Fix)
    requires AllValid(fs) && KeysIn(c, Edits(c, fs)) && AllClear(c, fs) && f in fs && FindSep(c, f.line - 1).None?
    ensures Apart(c, Edits(c, fs)) && f.line >= 1 && (f.line - 1 < |c| ==> Outside(c, Edits(c, fs), f.line - 1))
  {
    hide FindSep, Apart, Outside, Winners, KeysIn;
  }

  lemma WinsResolved(c: seq<string>, fs: seq<Fix>, s: nat, k: nat)
    requires Numbered(fs) && Wins(c, fs, s, k)
    ensures k < |fs| && fs[k] in fs && FindSep(c, fs[k].line - 1) == Some(s)
  {
    hide FindSep;
  }

  /** Only one fix wins a separator. */
  lemma OneWinner(c: seq<string>, fs: seq<Fix>, s: nat, j: nat, k: nat)
    requires Numbered(fs) && Wins(c, fs, s, j) && Wins(c, fs, s, k)
    ensures j == k
  {
    hide FindSep;
  }

  /**
   * `m` is the fix `f` moved with its separator: to the place in `d` that `places` gives for the
   * separator, or to no separator where `f` has none.
   */
  ghost predicate Follows(c: seq<string>, f: Fix, d: seq<string>, m: Fix, places: map<nat, int>)
    requires f.line >= 1 && m.line >= 1
  {
    && m.actual == f.actual
    && match FindSep(c, f.line - 1)
       case None => FindSep(d, m.line - 1).None?
       case Some(s) =>
         s in places && places[s] >= 0 && FindSep(d, m.line - 1) == Some(places[s]) && m.line - f.line == places[s] - s
  }

  ghost predicate AllFollow(c: seq<string>, fs: seq<Fix>, d: seq<string>, moved: seq<Fix>, places: map<nat, int>)
    requires Numbered(fs) && Numbered(moved)
  {
    |moved| == |fs| && forall j :: 0 <= j < |fs| ==> Follows(c, fs[j], d, moved[j], places)
  }

  /** The fix that wins a separator again is the one that won it. */
  lemma {:induction false} WinsAgain(c: seq<string>, fs: seq<Fix>, d: seq<string>, moved: seq<Fix>, places: map<nat, int>,
                                     q: nat, k: nat) returns (s: nat)
    requires Numbered(fs) && Numbered(moved) && AllFollow(c, fs, d, moved, places) && Wins(d, moved, q, k)
    ensures Wins(c, fs, s, k) && s in places && places[s] == q
  {
    hide FindSep;
    assert Follows(c, fs[k], d, moved[k], places);
    s := FindSep(c, fs[k].line - 1).value;
    forall j | 0 <= j < |fs| && FindSep(c, fs[j].line - 1) == Some(s)
      ensures fs[k].line < fs[j].line || (fs[k].line == fs[j].line && j <= k)
    {
      assert Follows(c, fs[j], d, moved[j], places);
    }
  }

  /** The fix that wins a separator is its winner. */
  lemma {:induction false} WinnerIs(c: seq<string>, fs: seq<Fix>, s: nat, k: nat)
    requires Numbered(fs) && Wins(c, fs, s, k)
    ensures k < |fs| && FindSep(c, fs[k].line - 1) == Some(s)
    ensures s in Winners(c, fs) && Winners(c, fs)[s] == fs[k]
  {
    hide FindSep, Winners, Wins;
    WinsResolved(c, fs, s, k);
    ResolvedWins(c, fs, fs[k], s);
    var j := WinnerRule(c, fs, s);
    OneWinner(c, fs, s, j, k);
  }

  /** A separator that is won again is won with the same lines. */
  lemma {:induction false} SameWinner(c: seq<string>, fs: seq<Fix>, d: seq<string>, moved: seq<Fix>, places: map<nat, int>, q: nat)
    returns (s: nat, f: Fix)
    requires Numbered(fs) && Numbered(moved) && AllFollow(c, fs, d, moved, places) && q in Winners(d, moved)
    ensures f in fs && FindSep(c, f.line - 1) == Some(s) && s in places && places[s] == q
    ensures s in Winners(c, fs) && Winners(c, fs)[s] == f && Winners(d, moved)[q].actual == f.actual
  {
    hide FindSep, Winners, Wins;
    var k := WinnerRule(d, moved, q);
    s := WinsAgain(c, fs, d, moved, places, q, k);
    WinnerIs(c, fs, s, k);
    f := fs[k];
    assert Follows(c, fs[k], d, moved[k], places);
  }

  /** The new places of the replaced separators. */
  function Places(c: seq<string>, fs: seq<Fix>): map<nat, int>
    requires Numbered(fs) && KeysIn(c, Edits(c, fs))
  {
    map s | s in Edits(c, fs) :: NewPos(c, Edits(c, fs), s)
  }

  lemma {:induction false} ShiftedFollow(c: seq<string>, fs: seq<Fix>)
    requires AllValid(fs) && KeysIn(c, Edits(c, fs)) && AllClear(c, fs)
    ensures AllFollow(c, fs, FixedFile(c, fs), ShiftedAll(c, fs), Places(c, fs))
  {
    hide FindSep, AllClear, FixedFile, KeysIn, AllValid, Follows, Shifted, Edits, Places;
    ValidNumbered(fs);
    forall j | 0 <= j < |fs|
      ensures fs[j].line >= 1 && Follows(c, fs[j], FixedFile(c, fs), Shifted(c, fs, fs[j]), Places(c, fs))
    {
      ShiftedFollows(c, fs, fs[j]);
    }
  }

  lemma {:induction false} ShiftedFollows(c: seq<string>, fs: seq<Fix>, f: Fix)
    requires AllValid(fs) && KeysIn(c, Edits(c, fs)) && AllClear(c, fs) && f in fs && f.line >= 1
    ensures Follows(c, f, FixedFile(c, fs), Shifted(c, fs, f), Places(c, fs))
  {
    hide FindSep, AllClear, FixedFile, KeysIn, NewPos, AllValid, Winners, MovedStart;
    ValidNumbered(fs);
    if FindSep(c, f.line - 1).None? {
      ShiftedUnresolved(c, fs, f);
    } else {
      var s := FindSep(c, f.line - 1).value;
      ShiftedResolves(c, fs, f, s);
      ResolvedWins(c, fs, f, s);
    }
  }

  lemma ApartOf(c: seq<string>, fs: seq<Fix>)
    requires AllValid(fs) && KeysIn(c, Edits(c, fs)) && AllClear(c, fs)
    ensures Apart(c, Edits(c, fs))
  {
    hide FindSep, Apart, Winners, KeysIn;
  }

  /** The fixes made again put behind each separator what stands there. */
  lemma {:induction false} PutsBack(c: seq<string>, fs: seq<Fix>, q: nat)
    requires AllValid(fs) && KeysIn(c, Edits(c, fs)) && AllClear(c, fs)
    requires q in Winners(FixedFile(c, fs), ShiftedAll(c, fs))
    ensures HoldsBlock(FixedFile(c, fs), q, Terminate(Winners(FixedFile(c, fs), ShiftedAll(c, fs))[q].actual))
  {
    hide FindSep, AllClear, Apart, AllFollow, FixedFile, KeysIn, NewPos, Edits, AllValid, Winners, Terminate, HoldsBlock, Numbered,
      ShiftedAll, Shifted;
    ValidNumbered(fs);
    ApartOf(c, fs);
    ShiftedFollow(c, fs);
    var s, f := SameWinner(c, fs, FixedFile(c, fs), ShiftedAll(c, fs), Places(c, fs), q);
    FixedReadsBack(c, fs, f, s);
  }

  /** Replacing blocks by what they are changes nothing. */
  lemma {:induction false} RewriteSame(d: seq<string>, e: map<nat, seq<string>>, i: nat)
    requires i <= |d| && forall q :: q in e ==> HoldsBlock(d, q, e[q])
    ensures Rewrite(d, e, i) == d[i..]
    decreases |d| - i
  {
    hide BlockEnd;
    if i == |d| {
    } else if i in e {
      assert HoldsBlock(d, i, e[i]);
      RewriteSame(d, e, BlockEnd(d, i + 1));
      hide HoldsBlock;
      assert d[i..] == [d[i]] + d[i + 1..BlockEnd(d, i + 1)] + d[BlockEnd(d, i + 1)..];
    } else {
      RewriteSame(d, e, i + 1);
      hide HoldsBlock;
    }
  }

  lemma ShiftedValid(c: seq<string>, fs: seq<Fix>)
    requires AllValid(fs)
    ensures AllValid(ShiftedAll(c, fs))
  {
    hide Edits, MovedStart, AllNonBlank;
  }

  /** Making the shifted fixes again changes nothing, whichever fixes collide. */
  lemma {:induction false} ReapplyingChangesNothing(c: seq<string>, fs: seq<Fix>)
    requires AllValid(fs) && KeysIn(c, Edits(c, fs)) && AllClear(c, fs)
    ensures FixedFile(FixedFile(c, fs), ShiftedAll(c, fs)) == FixedFile(c, fs)
  {
    ShiftedValid(c, fs);
    hide AllClear, KeysIn, AllValid, FixedFile, Winners, HoldsBlock, Rewrite, Terminate, ShiftedAll;
    var d, moved := FixedFile(c, fs), ShiftedAll(c, fs);
    InPlaceIsSimultaneous(d, moved);
    forall q | q in Winners(d, moved) ensures HoldsBlock(d, q, BlocksOf(Winners(d, moved))[q]) {
      PutsBack(c, fs, q);
    }
    RewriteSame(d, BlocksOf(Winners(d, moved)), 0);
  }

  // ---------- writing the lines to a file and reading them again ----------

  /** The file ends in a separator without a newline, and lines are put behind it. */
  ghost predicate Glued(c: seq<string>, e: map<nat, seq<string>>)
    requires KeysIn(c, e)
  {
    && c != []
    && |c| - 1 in e
    && e[|c| - 1] != []
    && !Terminated(c[|c| - 1])
    && Outside(c, e, |c| - 1)
  }

  ghost predicate FullLines(lines: seq<string>) {
    forall i :: 0 <= i < |lines| ==> OneLine(lines[i]) && Terminated(lines[i])
  }

  lemma LineListCons(line: string, rest: seq<string>)
    ensures LineList([line] + rest) <==> OneLine(line) && (rest != [] ==> Terminated(line)) && LineList(rest)
  {
    hide OneLine, Terminated;
    if LineList([line] + rest) {
      assert forall i :: 0 <= i < |rest| ==> rest[i] == ([line] + rest)[i + 1];
      assert ([line] + rest)[0] == line;
    }
  }

  lemma {:induction false} LineListAfter(block: seq<string>, rest: seq<string>)
    requires FullLines(block)
    ensures LineList(block + rest) <==> LineList(rest)
  {
    hide OneLine, Terminated, LineList;
    if block == [] {
      assert block + rest == rest;
    } else {
      LineListAfter(block[1..], rest);
      LineListCons(block[0], block[1..] + rest);
      assert block + rest == [block[0]] + (block[1..] + rest);
    }
  }

  lemma NextOutside(c: seq<string>, e: map<nat, seq<string>>, i: nat)
    requires KeysIn(c, e) && i < |c| && Outside(c, e, i)
    ensures Outside(c, e, if i in e then BlockEnd(c, i + 1) else i + 1)
  {
    if i in e {
      var be := BlockEnd(c, i + 1);
      forall k | k in e ensures be <= k || BlockEnd(c, k + 1) <= be {
        if i < k < be {
          SameRun(c, i + 1, k + 1);
        }
      }
    }
  }

  /** Two blocks that start in one run of non-blank lines end together. */
  lemma {:induction false} SameRun(c: seq<string>, i: nat, k: nat)
    requires i <= |c| && i <= k <= BlockEnd(c, i)
    ensures BlockEnd(c, k) == BlockEnd(c, i)
    decreases k - i
  {
    hide Blank;
    if i == k {
    } else {
      SameRun(c, i + 1, k);
    }
  }

  lemma LineAt(c: seq<string>, i: nat)
    requires LineList(c) && i < |c|
    ensures OneLine(c[i]) && (i + 1 < |c| ==> Terminated(c[i]))
  {
    hide OneLine, Terminated;
  }

  lemma {:induction false} RewriteLineList(c: seq<string>, e: map<nat, seq<string>>, i: nat)
    requires LineList(c) && KeysIn(c, e) && i <= |c| && Outside(c, e, i)
    requires forall k :: k in e ==> FullLines(e[k])
    ensures LineList(Rewrite(c, e, i)) <==> !(Glued(c, e) && i < |c|)
    decreases |c| - i
  {
    hide OneLine, Terminated, FullLines, LineList, BlockEnd, Glued, Outside, Rewrite;
    NoLinesAtEnd(c, e);
    if i == |c| {
    } else if i in e {
      var next := BlockEnd(c, i + 1);
      NextOutside(c, e, i);
      LineAt(c, i);
      RewriteLineList(c, e, next);
      RewriteAtKey(c, e, i);
      LineListAtKey(c[i], e[i], Rewrite(c, e, next));
      if next == |c| {
        GluedAtKey(c, e, i);
        assert e[i] + [] == e[i];
      }
    } else {
      NextOutside(c, e, i);
      LineAt(c, i);
      RewriteLineList(c, e, i + 1);
      RewriteAtLine(c, e, i);
      LineListCons(c[i], Rewrite(c, e, i + 1));
      if i + 1 == |c| {
        LastIsKey(c, e, i);
      }
    }
  }

  /** The last block of a file is glued exactly when it has lines and its separator, the last line, has no newline. */
  lemma GluedAtKey(c: seq<string>, e: map<nat, seq<string>>, i: nat)
    requires KeysIn(c, e) && i < |c| && i in e && Outside(c, e, i) && BlockEnd(c, i + 1) == |c|
    requires i + 1 < |c| ==> Terminated(c[i])
    ensures Glued(c, e) <==> e[i] != [] && !Terminated(c[i])
  {
    hide Terminated, BlockEnd;
  }

  lemma LastIsKey(c: seq<string>, e: map<nat, seq<string>>, i: nat)
    requires KeysIn(c, e) && i < |c| && i !in e && i + 1 == |c|
    ensures !Glued(c, e)
  {
  }

  lemma NoLinesAtEnd(c: seq<string>, e: map<nat, seq<string>>)
    ensures Rewrite(c, e, |c|) == [] && LineList(Rewrite(c, e, |c|))
  {
  }

  lemma RewriteAtLine(c: seq<string>, e: map<nat, seq<string>>, i: nat)
    requires i < |c| && i !in e
    ensures Rewrite(c, e, i) == [c[i]] + Rewrite(c, e, i + 1)
  {
  }

  lemma LineListAtKey(line: string, block: seq<string>, rest: seq<string>)
    requires OneLine(line) && FullLines(block)
    ensures LineList([line] + (block + rest)) <==> (block + rest != [] ==> Terminated(line)) && LineList(rest)
  {
    hide OneLine, Terminated, FullLines, LineList;
    LineListAfter(block, rest);
    LineListCons(line, block + rest);
  }

  lemma TerminateFull(lines: seq<string>)
    requires forall i :: 0 <= i < |lines| ==> '\n' !in lines[i]
    ensures FullLines(Terminate(lines))
  {
    forall i | 0 <= i < |lines| ensures OneLine(Terminate(lines)[i]) && Terminated(Terminate(lines)[i]) {
      assert forall k :: 0 <= k < |lines[i]| ==> Terminate(lines)[i][k] == lines[i][k] && lines[i][k] in lines[i];
    }
  }

  /**
   * The next round reads from the written file the very lines `fix_file` left, exactly when
   * no block was put behind a separator that ends the file without a newline.
   */
  lemma RereadExact(text: string, fs: seq<Fix>)
    requires AllValid(fs) && forall f, l :: f in fs && l in f.actual ==> '\n' !in l
    ensures var c := ReadLines(text);
      && KeysIn(c, Edits(c, fs))
      && (ReadLines(WriteLines(FixedFile(c, fs))) == FixedFile(c, fs) <==> !Glued(c, Edits(c, fs)))
  {
    hide FindSep, Winners, Blank, LineList, FixedFile, FullLines;
    var c := ReadLines(text);
    WriteRead(text);
    InPlaceIsSimultaneous(c, fs);
    EditsAreKeys(c, fs);
    forall k | k in Edits(c, fs) ensures FullLines(Edits(c, fs)[k]) {
      WinnerResolves(c, fs, k);
      TerminateFull(Winners(c, fs)[k].actual);
    }
    ReadWrite(FixedFile(c, fs));
    RewriteLineList(c, Edits(c, fs), 0);
  }
}
