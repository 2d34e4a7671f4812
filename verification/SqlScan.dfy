/** The scanner of scripts/parity-audit.py: comments, declaration heads, parentheses and top-level commas. */
module SqlScan {
  import opened Text

  // ---------- comments ----------

  predicate DashesAt(s: string) {
    |s| >= 2 && s[0] == '-' && s[1] == '-'
  }

  /** `s` from its first newline on. */
  function AfterLine(s: string): (r: string)
    ensures |r| <= |s| && (r == "" || r[0] == '\n')
  {
    if s == "" || s[0] == '\n' then s else AfterLine(s[1..])
  }

  /** `re.sub(r"--[^\n]*", "", text)`: `strip_sql_comments`. */
  function StripComments(s: string): string
    decreases |s|
  {
    if s == "" then ""
    else if DashesAt(s) then StripComments(AfterLine(s[2..]))
    else [s[0]] + StripComments(s[1..])
  }

  /** A line up to its first `--`. */
  function CutLine(line: string): string {
    if line == "" || DashesAt(line) then "" else [line[0]] + CutLine(line[1..])
  }

  function CutLines(lines: seq<string>): seq<string> {
    if lines == [] then [] else [CutLine(lines[0])] + CutLines(lines[1..])
  }

  lemma {:induction false} SplitAfterLine(s: string)
    ensures Split(AfterLine(s), '\n') == [""] + Split(s, '\n')[1..]
  {
    if s != "" && s[0] != '\n' {
      SplitAfterLine(s[1..]);
    }
  }

  lemma FirstPieceStarts(s: string)
    ensures var p := Split(s, '\n')[0];
      p != "" ==> s != "" && p[0] == s[0]
  {
  }

  lemma FirstPieceDashes(s: string)
    ensures DashesAt(Split(s, '\n')[0]) <==> DashesAt(s)
  {
    if |s| >= 2 {
      var r := Split(s[1..], '\n');
      FirstPieceStarts(s[1..]);
      assert s[1..][0] == s[1];
    }
  }

  lemma JoinFirst(c: char, p: string, rest: seq<string>)
    ensures Join([[c] + p] + rest, '\n') == [c] + Join([p] + rest, '\n')
  {
    if rest != [] {
      assert ([[c] + p] + rest)[1..] == ([p] + rest)[1..] == rest;
    }
  }

  /** Stripping comments is cutting every line at its first `--`. */
  lemma {:induction false} StripIsCut(s: string)
    ensures StripComments(s) == Join(CutLines(Split(s, '\n')), '\n')
    decreases |s|
  {
    if s == "" {
    } else {
      var pieces := Split(s, '\n');
      FirstPieceDashes(s);
      if DashesAt(s) {
        var t := AfterLine(s[2..]);
        StripIsCut(t);
        SplitAfterLine(s[2..]);
        TwoMore(s);
        assert CutLines(Split(t, '\n')) == [""] + CutLines(pieces[1..]);
      } else if s[0] == '\n' {
        StripIsCut(s[1..]);
        var r := Split(s[1..], '\n');
        assert pieces[1..] == r;
        assert CutLines(pieces) == [""] + CutLines(r);
        JoinEmpty(CutLines(r));
      } else {
        var r := Split(s[1..], '\n');
        StripIsCut(s[1..]);
        assert pieces[0] == [s[0]] + r[0] && pieces[1..] == r[1..];
        assert CutLine(pieces[0]) == [s[0]] + CutLine(r[0]);
        JoinFirst(s[0], CutLine(r[0]), CutLines(r[1..]));
      }
    }
  }

  lemma TwoMore(s: string)
    requires DashesAt(s)
    ensures Split(s[2..], '\n')[1..] == Split(s, '\n')[1..]
  {
    assert s[1..][1..] == s[2..];
  }

  lemma JoinEmpty(rest: seq<string>)
    requires rest != []
    ensures Join([""] + rest, '\n') == ['\n'] + Join(rest, '\n')
  {
    assert ([""] + rest)[1..] == rest;
  }

  ghost predicate NoDashes(s: string) {
    forall i :: 0 <= i < |s| - 1 ==> !(s[i] == '-' && s[i + 1] == '-')
  }

  function Newlines(s: string): nat {
    if s == "" then 0 else (if s[0] == '\n' then 1 else 0) + Newlines(s[1..])
  }

  lemma {:induction false} NewlinesAfterLine(s: string)
    ensures Newlines(AfterLine(s)) == Newlines(s)
  {
    if s != "" && s[0] != '\n' {
      NewlinesAfterLine(s[1..]);
    }
  }

  /** The stripped text holds no comment and keeps its newlines. */
  lemma {:induction false} StrippedHasNoComment(s: string)
    ensures NoDashes(StripComments(s))
    ensures Newlines(StripComments(s)) == Newlines(s)
    ensures StripComments(s) != "" && !DashesAt(s) ==> StripComments(s)[0] == s[0]
    ensures StripComments(s) != "" && DashesAt(s) ==> StripComments(s)[0] == '\n'
    decreases |s|
  {
    if s == "" {
    } else {
      if DashesAt(s) {
        StrippedHasNoComment(AfterLine(s[2..]));
        NewlinesAfterLine(s[2..]);
        assert s[1..][1..] == s[2..];
      } else {
        StrippedHasNoComment(s[1..]);
      }
    }
  }

  /** A cut line is the line up to where a `--` first stands, or all of it where none does. */
  lemma {:induction false} CutLineMeans(line: string)
    ensures CutLine(line) <= line
    ensures forall i :: 0 <= i < |CutLine(line)| && i + 1 < |line| ==> !(line[i] == '-' && line[i + 1] == '-')
    ensures var n := |CutLine(line)|; n < |line| ==> "--" <= line[n..]
  {
    if line == "" || DashesAt(line) {
    } else {
      CutLineMeans(line[1..]);
      assert line == [line[0]] + line[1..];
    }
  }

  /** Stripping again changes nothing. */
  lemma StripIsIdempotent(s: string)
    ensures StripComments(StripComments(s)) == StripComments(s)
  {
    StrippedHasNoComment(s);
    NothingToStrip(StripComments(s));
  }

  lemma {:induction false} NothingToStrip(s: string)
    requires NoDashes(s)
    ensures StripComments(s) == s
  {
    if s == "" {
    } else {
      NothingToStrip(s[1..]);
    }
  }

  // ---------- parentheses ----------

  function Delta(c: char): int {
    if c == '(' then 1 else if c == ')' then -1 else 0
  }

  /** Opening less closing parentheses. */
  function Depth(s: string): int {
    if s == "" then 0 else Delta(s[0]) + Depth(s[1..])
  }

  /** The depth is the number of opening parentheses less that of closing ones. */
  lemma {:induction false} DepthCounts(s: string)
    ensures Depth(s) + multiset(s)[')'] == multiset(s)['(']
  {
    if s == "" {
    } else {
      DepthCounts(s[1..]);
      assert s == [s[0]] + s[1..];
    }
  }

  /** From depth `d` the text never closes more than is open, and ends at depth 0. */
  predicate NestedFrom(s: string, d: int) {
    if s == "" then d == 0 else d >= 0 && NestedFrom(s[1..], d + Delta(s[0]))
  }

  /** Balanced: every prefix has at least as many opens as closes, and the whole as many (NestedMeans). */
  predicate Nested(s: string) {
    NestedFrom(s, 0)
  }

  lemma {:induction false} NestedMeans(s: string, d: int)
    ensures NestedFrom(s, d) <==> d + Depth(s) == 0 && forall k :: 0 <= k <= |s| ==> d + Depth(s[..k]) >= 0
  {
    if s == "" {
      assert forall k :: 0 <= k <= |s| ==> s[..k] == "";
    } else {
      var d' := d + Delta(s[0]);
      NestedMeans(s[1..], d');
      forall k | 0 < k <= |s| ensures d + Depth(s[..k]) == d' + Depth(s[1..][..k - 1]) {
        assert s[..k][1..] == s[1..][..k - 1];
      }
      assert s[..0] == "";
      assert forall k :: 0 <= k <= |s[1..]| ==> d' + Depth(s[1..][..k]) == d + Depth(s[..k + 1]);
    }
  }

  /** The loop of `iter_create_functions`: the index behind the parenthesis that brings `depth` to 0. */
  function Close(text: string, i: nat, depth: int): (r: Option<nat>)
    requires i <= |text|
    ensures r.Some? ==> i <= r.value <= |text|
    ensures r.Some? && depth != 0 ==> i < r.value
    decreases |text| - i
  {
    if depth == 0 then Some(i)
    else if i == |text| then None
    else Close(text, i + 1, depth + Delta(text[i]))
  }

  /** The parenthesis at `j` closes the one opened just before `start`. */
  ghost predicate Closes(text: string, start: nat, j: nat) {
    start <= j < |text| && text[j] == ')' && Nested(text[start..j])
  }

  lemma {:induction false} CloseFrom(text: string, i: nat, d: int)
    requires i <= |text| && d > 0
    ensures match Close(text, i, d)
      case Some(r) => text[r - 1] == ')' && NestedFrom(text[i..r - 1], d - 1)
      case None => true
    decreases |text| - i
  {
    if i == |text| {
    } else {
      var d' := d + Delta(text[i]);
      if d' == 0 {
        assert text[i..i] == "";
      } else {
        CloseFrom(text, i + 1, d');
        var r := Close(text, i, d);
        if r.Some? {
          assert text[i..r.value - 1][1..] == text[i + 1..r.value - 1];
        }
      }
    }
  }

  lemma {:induction false} CloseIs(text: string, i: nat, d: int, j: nat)
    requires i <= j < |text| && text[j] == ')' && NestedFrom(text[i..j], d - 1)
    ensures Close(text, i, d) == Some(j + 1)
    decreases j - i
  {
    if i == j {
      assert text[i..j] == "";
    } else {
      assert text[i..j][1..] == text[i + 1..j];
      CloseIs(text, i + 1, d + Delta(text[i]), j);
    }
  }

  /**
   * The scan finds the one parenthesis that closes the head's own, with balanced text up to it,
   * and finds nothing exactly when no parenthesis closes it.
   */
  lemma MatchingParenthesis(text: string, start: nat)
    requires start <= |text|
    ensures match Close(text, start, 1)
      case Some(r) => Closes(text, start, r - 1) && forall j :: Closes(text, start, j) ==> j == r - 1
      case None => forall j :: !Closes(text, start, j)
  {
    CloseFrom(text, start, 1);
    forall j | Closes(text, start, j) ensures Close(text, start, 1) == Some(j + 1) {
      CloseIs(text, start, 1, j);
    }
  }

  // ---------- top-level commas ----------

  /** From depth `d` the text has no comma at depth 0. */
  predicate TopFreeFrom(s: string, d: int) {
    s == "" || (!(s[0] == ',' && d == 0) && TopFreeFrom(s[1..], d + Delta(s[0])))
  }

  predicate TopFree(s: string) {
    TopFreeFrom(s, 0)
  }

  lemma {:induction false} TopFreeMeans(s: string, d: int)
    ensures TopFreeFrom(s, d) <==> forall k :: 0 <= k < |s| && s[k] == ',' ==> d + Depth(s[..k]) != 0
  {
    if s == "" {
    } else {
      var d' := d + Delta(s[0]);
      TopFreeMeans(s[1..], d');
      assert s[..0] == "";
      forall k | 0 < k < |s| ensures d + Depth(s[..k]) == d' + Depth(s[1..][..k - 1]) {
        assert s[..k][1..] == s[1..][..k - 1];
      }
      assert forall k :: 0 <= k < |s[1..]| ==> s[1..][k] == s[k + 1] && d' + Depth(s[1..][..k]) == d + Depth(s[..k + 1]);
    }
  }

  /** All the pieces of `s` between commas at depth 0, starting at depth `d`. */
  function Cuts(s: string, d: int): (r: seq<string>)
    ensures r != []
  {
    if s == "" then [""]
    else
      var r := Cuts(s[1..], d + Delta(s[0]));
      if s[0] == ',' && d == 0 then [""] + r else [[s[0]] + r[0]] + r[1..]
  }

  /** `split_top_level`: a blank last piece is dropped. */
  function SplitTopLevel(args: string): seq<string> {
    var r := Cuts(args, 0);
    if Blank(r[|r| - 1]) then r[..|r| - 1] else r
  }

  /** `split_top_level`, with its `out`, `depth` and `cur`. */
  method SplitTopLevelLoop(args: string) returns (out: seq<string>)
    ensures out == SplitTopLevel(args)
  {
    out := [];
    var depth, cur := 0, "";
    var i := 0;
    assert args[0..] == args && "" + Cuts(args, 0)[0] == Cuts(args, 0)[0];
    assert out + [cur + Cuts(args, 0)[0]] + Cuts(args, 0)[1..] == Cuts(args, 0);
    while i < |args|
      invariant i <= |args|
      invariant out + [cur + Cuts(args[i..], depth)[0]] + Cuts(args[i..], depth)[1..] == Cuts(args, 0)
    {
      var ch := args[i];
      assert args[i..][0] == ch && args[i..][1..] == args[i + 1..];
      var d0 := depth;
      if ch == '(' {
        depth := depth + 1;
      } else if ch == ')' {
        depth := depth - 1;
      }
      CutStep(out, cur, args[i..], d0);
      if ch == ',' && depth == 0 {
        out := out + [cur];
        cur := "";
      } else {
        cur := cur + [ch];
      }
      i := i + 1;
    }
    assert args[i..] == "";
    assert cur + "" == cur;
    assert Cuts(args, 0) == out + [cur];
    StripBlank(cur);
    if Strip(cur) != "" {
      out := out + [cur];
    }
  }

  lemma CutStep(out: seq<string>, cur: string, s: string, d: int)
    requires s != ""
    ensures var r := Cuts(s[1..], d + Delta(s[0]));
      out + [cur + Cuts(s, d)[0]] + Cuts(s, d)[1..] ==
        if s[0] == ',' && d == 0 then (out + [cur]) + ["" + r[0]] + r[1..]
        else out + [(cur + [s[0]]) + r[0]] + r[1..]
  {
    var r := Cuts(s[1..], d + Delta(s[0]));
    if s[0] == ',' && d == 0 {
      assert cur + "" == cur && "" + r[0] == r[0];
      assert r == [r[0]] + r[1..];
    } else {
      assert cur + ([s[0]] + r[0]) == (cur + [s[0]]) + r[0];
    }
  }

  lemma CommaFirst(r: seq<string>)
    requires r != []
    ensures Join([""] + r, ',') == "," + Join(r, ',')
  {
    assert ([""] + r)[1..] == r;
  }

  lemma CharFirst(c: char, p: string, rest: seq<string>)
    ensures Join([[c] + p] + rest, ',') == [c] + Join([p] + rest, ',')
  {
    assert ([[c] + p] + rest)[1..] == ([p] + rest)[1..] == rest;
  }

  lemma {:induction false} JoinCuts(s: string, d: int)
    ensures Join(Cuts(s, d), ',') == s
  {
    if s == "" {
    } else {
      var r := Cuts(s[1..], d + Delta(s[0]));
      JoinCuts(s[1..], d + Delta(s[0]));
      assert Cuts(s, d) == if s[0] == ',' && d == 0 then [""] + r else [[s[0]] + r[0]] + r[1..];
      hide Cuts, Join, Delta;
      assert r == [r[0]] + r[1..] && s == [s[0]] + s[1..];
      if s[0] == ',' && d == 0 {
        CommaFirst(r);
      } else {
        CharFirst(s[0], r[0], r[1..]);
      }
    }
  }

  /** The pieces of any text end at exactly its commas at depth 0, counted from `d` in the first and from 0 in the others. */
  lemma {:induction false} CutsAtTopCommas(s: string, d: int)
    ensures var r := Cuts(s, d);
      && Join(r, ',') == s
      && (forall i :: 0 <= i < |r| ==> TopFreeFrom(r[i], if i == 0 then d else 0))
      && forall i :: 0 <= i < |r| - 1 ==> (if i == 0 then d else 0) + Depth(r[i]) == 0
  {
    JoinCuts(s, d);
    if s == "" {
    } else {
      var d' := d + Delta(s[0]);
      var r, r' := Cuts(s, d), Cuts(s[1..], d');
      CutsAtTopCommas(s[1..], d');
      if s[0] == ',' && d == 0 {
        assert r == [""] + r';
      } else {
        assert r == [[s[0]] + r'[0]] + r'[1..];
        assert r[0][1..] == r'[0];
      }
    }
  }

  /** Joining the pieces restores the text: all of it when its last piece is not blank, and otherwise all but that one. */
  lemma {:induction false} JoinRestores(args: string)
    ensures var ps := SplitTopLevel(args);
      || (ps != [] && !Blank(ps[|ps| - 1]) && Join(ps, ',') == args)
      || exists w :: Blank(w) && Join(ps + [w], ',') == args
    ensures forall p :: p in SplitTopLevel(args) ==> TopFree(p)
  {
    CutsAtTopCommas(args, 0);
    var r := Cuts(args, 0);
    hide Cuts, TopFreeFrom, Join, Depth;
    if Blank(r[|r| - 1]) {
      assert r == r[..|r| - 1] + [r[|r| - 1]];
    }
  }

  ghost predicate Argument(p: string) {
    Nested(p) && TopFree(p)
  }

  lemma {:induction false} CutsAreArguments(s: string, d: int)
    requires NestedFrom(s, d)
    ensures NestedFrom(Cuts(s, d)[0], d) && TopFreeFrom(Cuts(s, d)[0], d)
    ensures forall i :: 0 < i < |Cuts(s, d)| ==> Argument(Cuts(s, d)[i])
  {
    if s == "" {
    } else {
      var r := Cuts(s[1..], d + Delta(s[0]));
      CutsAreArguments(s[1..], d + Delta(s[0]));
      if !(s[0] == ',' && d == 0) {
        assert ([s[0]] + r[0])[1..] == r[0];
      }
    }
  }

  /** Of a balanced text each piece is balanced and has no top-level comma. */
  lemma PiecesAreArguments(args: string)
    requires Nested(args)
    ensures forall p :: p in SplitTopLevel(args) ==> Argument(p)
  {
    CutsAreArguments(args, 0);
  }

  lemma {:induction false} CutsOfFirst(p: string, d: int, rest: string)
    requires NestedFrom(p, d) && TopFreeFrom(p, d)
    ensures Cuts(p, d) == [p]
    ensures Cuts(p + "," + rest, d) == [p] + Cuts(rest, 0)
  {
    if p == "" {
      assert p + "," + rest == "," + rest && ("," + rest)[1..] == rest;
    } else {
      assert (p + "," + rest)[1..] == p[1..] + "," + rest;
      CutsOfFirst(p[1..], d + Delta(p[0]), rest);
      assert p == [p[0]] + p[1..];
    }
  }

  lemma {:induction false} CutsOfJoin(ps: seq<string>)
    requires ps != [] && forall i :: 0 <= i < |ps| ==> Argument(ps[i])
    ensures Cuts(Join(ps, ','), 0) == ps
  {
    if |ps| == 1 {
      CutsOfFirst(ps[0], 0, "");
    } else {
      CutsOfFirst(ps[0], 0, Join(ps[1..], ','));
      CutsOfJoin(ps[1..]);
      assert ps == [ps[0]] + ps[1..];
    }
  }

  /** Splitting the join of arguments, the last not blank, gives the arguments back. */
  lemma {:induction false} SplitOfJoin(ps: seq<string>)
    requires forall i :: 0 <= i < |ps| ==> Argument(ps[i])
    requires ps != [] ==> !Blank(ps[|ps| - 1])
    ensures SplitTopLevel(Join(ps, ',')) == ps
  {
    if ps != [] {
      CutsOfJoin(ps);
    }
  }
}
