/**
 * `signature_types` of scripts/parity-audit.py.
 *
 * The patterns for a default and for a type are scanners, each proved to match exactly what it is for: the
 * keyword DEFAULT, in any casing, where it stands as a word of its own, and a word that nothing but a typmod,
 * array markers and blanks follows to the end of the text. The search is proved to give the first match, so
 * that for every argument list, well-formed or not, the types extracted are those its arguments declare.
 *
 * The second half goes the other way, from a printed signature to what is read of it. An argument is printed
 * from its parts: a mode and a name, the type, a typmod, array markers, a default. Its printed text is one
 * argument for the splitter, with no comma outside parentheses; cutting its default leaves its core; and the
 * first match in the core is the type, as every word before it has another word behind it.
 */
module SignatureTypes {
  import opened Text
  import opened SqlScan

  // ---------- dropping the default ----------

  predicate WordBefore(s: string, i: nat)
    requires i <= |s|
  {
    i > 0 && IsWordChar(s[i - 1])
  }

  predicate WordAfter(s: string, i: nat)
    requires i <= |s|
  {
    i < |s| && IsWordChar(s[i])
  }

  /** `\bDEFAULT\b` matches at `i`. */
  predicate DefaultAt(s: string, i: nat) {
    i + 7 <= |s| && Lower(s[i..i + 7]) == "default" && !WordBefore(s, i) && !WordAfter(s, i + 7)
  }

  function FirstDefault(s: string, i: nat): (r: nat)
    requires i <= |s|
    ensures i <= r <= |s|
    decreases |s| - i
  {
    if i == |s| || DefaultAt(s, i) then i else FirstDefault(s, i + 1)
  }

  /** `re.sub(r"\bDEFAULT\b.*", "", s)` over all lines. */
  function CutDefault(s: string): string {
    s[..FirstDefault(s, 0)]
  }

  // ---------- finding the type ----------

  /** The run of word characters `s` starts with. */
  function Word(s: string): string {
    if s != "" && IsWordChar(s[0]) then [s[0]] + Word(s[1..]) else ""
  }

  function AfterWord(s: string): (r: string)
    ensures |r| <= |s|
  {
    if s != "" && IsWordChar(s[0]) then AfterWord(s[1..]) else s
  }

  /** `s` behind its first closing parenthesis. */
  function AfterClose(s: string): (r: Option<string>)
    ensures r.Some? ==> |r.value| < |s|
  {
    if s == "" then None
    else if s[0] == ')' then Some(s[1..])
    else AfterClose(s[1..])
  }

  /** `(?:\([^)]*\))?`: what follows it, or None where a parenthesis is never closed. */
  function AfterTypmod(s: string): Option<string> {
    if s != "" && s[0] == '(' then AfterClose(s[1..]) else Some(s)
  }

  lemma {:induction false} LeftStripShortens(s: string)
    ensures |LeftStrip(s)| <= |s|
  {
    if s != "" && IsSpace(s[0]) {
      LeftStripShortens(s[1..]);
    }
  }

  /** `(?:\[\s*\])*`: what follows it. */
  function AfterArrays(s: string): string
    decreases |s|
  {
    if s == "" || s[0] != '[' then s
    else
      LeftStripShortens(s[1..]);
      var r := LeftStrip(s[1..]);
      if r != "" && r[0] == ']' then AfterArrays(r[1..]) else s
  }

  /** `(\w+)\s*(?:\([^)]*\))?\s*(?:\[\s*\])*\s*$` at the start of `s`: the word. */
  function TypeMatch(s: string): Option<string> {
    if Word(s) == "" then None
    else
      match AfterTypmod(LeftStrip(AfterWord(s)))
      case None => None
      case Some(r) => if LeftStrip(AfterArrays(LeftStrip(r))) == "" then Some(Word(s)) else None
  }

  /** The leftmost match, as `search` finds it. */
  function TypeSearch(s: string): Option<string> {
    if TypeMatch(s).Some? then TypeMatch(s)
    else if s == "" then None
    else TypeSearch(s[1..])
  }

  /** The lower-case type an argument declares. */
  function ArgumentType(arg: string): Option<string> {
    var a := Strip(CutDefault(arg));
    if a == "" then None
    else
      match TypeSearch(a)
      case None => None
      case Some(w) => Some(Lower(w))
  }

  function TypesOf(pieces: seq<string>): set<string> {
    if pieces == [] then {}
    else TypesOf(pieces[..|pieces| - 1]) + (match ArgumentType(pieces[|pieces| - 1]) case None => {} case Some(t) => {t})
  }

  function SignatureTypes(args: string, ret: string): set<string> {
    TypesOf(SplitTopLevel(args)) + if ret != "" then {Lower(ret)} else {}
  }

  /** `signature_types`, with its local set. */
  method SignatureTypesLoop(args: string, ret: string) returns (types: set<string>)
    ensures types == SignatureTypes(args, ret)
  {
    hide ArgumentType, SplitTopLevel;
    types := {};
    var pieces := SplitTopLevelLoop(args);
    var i := 0;
    while i < |pieces|
      invariant i <= |pieces|
      invariant types == TypesOf(pieces[..i])
    {
      assert pieces[..i + 1][..i] == pieces[..i];
      var m := ArgumentType(pieces[i]);
      if m.Some? {
        types := types + {m.value};
      }
      i := i + 1;
    }
    assert pieces[..i] == pieces;
    if ret != "" {
      types := types + {Lower(ret)};
    }
  }

  // ---------- printed arguments ----------

  /** A default: the space before the keyword, the keyword in any case, and the expression behind it. */
  datatype Default = Default(space: string, keyword: string, expr: string)

  /**
   * A printed argument: space, any words before the type with the space behind each (a mode, a name),
   * the type, a typmod, array markers with the space inside each, and a default or trailing space.
   */
  datatype Arg = Arg(before: string, lead: seq<(string, string)>, ty: string,
                     gap1: string, typmod: Option<string>, gap2: string, arrays: seq<string>,
                     default: Option<Default>, after: string)

  function LeadText(lead: seq<(string, string)>): string {
    if lead == [] then "" else lead[0].0 + lead[0].1 + LeadText(lead[1..])
  }

  function ArraysText(arrays: seq<string>): string {
    if arrays == [] then "" else "[" + arrays[0] + "]" + ArraysText(arrays[1..])
  }

  function TypmodText(typmod: Option<string>): string {
    match typmod
    case None => ""
    case Some(m) => "(" + m + ")"
  }

  /** What follows the type name. */
  function Suffix(a: Arg): string {
    a.gap1 + (TypmodText(a.typmod) + (a.gap2 + ArraysText(a.arrays)))
  }

  function Core(a: Arg): string {
    LeadText(a.lead) + (a.ty + Suffix(a))
  }

  function DefaultText(d: Option<Default>): string {
    match d
    case None => ""
    case Some(x) => x.keyword + x.expr
  }

  /** The space between the core of an argument and its default, or behind it. */
  function Trailing(a: Arg): string {
    if a.default.Some? then a.default.value.space else a.after
  }

  function Print(a: Arg): string {
    a.before + Core(a) + Trailing(a) + DefaultText(a.default)
  }

  ghost predicate NoDefault(s: string) {
    forall i :: !DefaultAt(s, i)
  }

  /** A word other than the keyword DEFAULT. */
  predicate Name(w: string) {
    IsWord(w) && Lower(w) != "default"
  }

  ghost predicate ArgOk(a: Arg) {
    && Blank(a.before) && Blank(a.after) && Blank(a.gap1) && Blank(a.gap2)
    && (forall i :: 0 <= i < |a.lead| ==> Name(a.lead[i].0) && Blank(a.lead[i].1) && a.lead[i].1 != "")
    && Name(a.ty)
    && (a.typmod.Some? ==> '(' !in a.typmod.value && ')' !in a.typmod.value && NoDefault(a.typmod.value))
    && (forall i :: 0 <= i < |a.arrays| ==> Blank(a.arrays[i]))
    && (a.arrays == [] ==> a.gap2 == "" && (a.typmod.None? ==> a.gap1 == ""))
    && (a.default.Some? ==>
          && Blank(a.default.value.space) && a.default.value.space != ""
          && Lower(a.default.value.keyword) == "default"
          && Argument(a.default.value.expr)
          && !WordAfter(a.default.value.expr, 0))
  }

  // ---------- matching the printed type ----------

  lemma {:induction false} WordThen(w: string, rest: string)
    requires (forall i :: 0 <= i < |w| ==> IsWordChar(w[i])) && !WordAfter(rest, 0)
    ensures Word(w + rest) == w && AfterWord(w + rest) == rest
  {
    if w == "" {
      assert w + rest == rest;
    } else {
      assert (w + rest)[1..] == w[1..] + rest;
      WordThen(w[1..], rest);
      assert w == [w[0]] + w[1..];
    }
  }

  lemma {:induction false} CloseThen(m: string, rest: string)
    requires ')' !in m
    ensures AfterClose(m + ")" + rest) == Some(rest)
  {
    if m == "" {
      assert m + ")" + rest == ")" + rest && (")" + rest)[1..] == rest;
    } else {
      assert (m + ")" + rest)[1..] == m[1..] + ")" + rest;
      CloseThen(m[1..], rest);
    }
  }

  lemma {:induction false} ArraysThen(arrays: seq<string>, rest: string)
    requires forall i :: 0 <= i < |arrays| ==> Blank(arrays[i])
    requires rest != "" ==> rest[0] != '['
    ensures AfterArrays(ArraysText(arrays) + rest) == rest
  {
    hide Blank;
    if arrays == [] {
      assert "" + rest == rest;
    } else {
      var more := ArraysText(arrays[1..]) + rest;
      assert ArraysText(arrays) + rest == "[" + (arrays[0] + ("]" + more));
      assert ("[" + (arrays[0] + ("]" + more)))[1..] == arrays[0] + ("]" + more);
      LeftStripPad(arrays[0], "]" + more);
      assert ("]" + more)[1..] == more;
      ArraysThen(arrays[1..], rest);
    }
  }

  lemma TypmodThen(typmod: Option<string>, rest: string)
    requires typmod.Some? ==> ')' !in typmod.value
    requires typmod.None? ==> rest == "" || rest[0] != '('
    ensures AfterTypmod(TypmodText(typmod) + rest) == Some(rest)
  {
    match typmod
    case None =>
      assert "" + rest == rest;
    case Some(m) =>
      var t := TypmodText(typmod) + rest;
      assert t[0] == '(' && t[1..] == m + ")" + rest;
      CloseThen(m, rest);
  }

  lemma ArraysStart(arrays: seq<string>)
    ensures ArraysText(arrays) != "" ==> ArraysText(arrays)[0] == '['
    ensures ArraysText(arrays) == "" <==> arrays == []
  {
  }

  lemma BlankConcat(a: string, b: string)
    requires Blank(a) && Blank(b)
    ensures Blank(a + b)
  {
  }

  /** No word goes on into the suffix. */
  lemma SuffixStarts(a: Arg)
    requires ArgOk(a)
    ensures !WordAfter(Suffix(a), 0)
    ensures Suffix(a) != "" ==> Suffix(a)[|Suffix(a)| - 1] in [')', ']']
  {
    ArraysStart(a.arrays);
    ArraysEnd(a.arrays);
    var tail := TypmodText(a.typmod) + (a.gap2 + ArraysText(a.arrays));
    if a.gap1 != "" {
      assert Suffix(a)[0] == a.gap1[0];
    } else {
      assert Suffix(a) == tail;
    }
  }

  lemma {:induction false} ArraysEnd(arrays: seq<string>)
    ensures var t := ArraysText(arrays); t != "" ==> t[|t| - 1] == ']'
  {
    if arrays == [] {
    } else {
      ArraysEnd(arrays[1..]);
    }
  }

  // ---------- what the patterns match ----------

  /** What may follow a type name to the end of the text: blanks, a typmod, and array markers. */
  datatype Ending = Ending(gap1: string, typmod: Option<string>, gap2: string, arrays: seq<string>, after: string)

  function EndingText(e: Ending): string {
    e.gap1 + (TypmodText(e.typmod) + (e.gap2 + (ArraysText(e.arrays) + e.after)))
  }

  ghost predicate EndingOk(e: Ending) {
    && Blank(e.gap1) && Blank(e.gap2) && Blank(e.after)
    && (e.typmod.Some? ==> ')' !in e.typmod.value)
    && forall i :: 0 <= i < |e.arrays| ==> Blank(e.arrays[i])
  }

  lemma {:induction false} WordSplits(s: string)
    ensures s == Word(s) + AfterWord(s) && forall i :: 0 <= i < |Word(s)| ==> IsWordChar(Word(s)[i])
  {
    if s != "" && IsWordChar(s[0]) {
      WordSplits(s[1..]);
      assert s == [s[0]] + s[1..];
    }
  }

  lemma {:induction false} CloseSplits(s: string) returns (m: string)
    requires AfterClose(s).Some?
    ensures s == m + ")" + AfterClose(s).value && ')' !in m
  {
    if s[0] == ')' {
      m := "";
      assert s == ")" + s[1..];
    } else {
      m := CloseSplits(s[1..]);
      m := [s[0]] + m;
      assert s == [s[0]] + s[1..];
    }
  }

  lemma TypmodSplits(s: string) returns (typmod: Option<string>)
    requires AfterTypmod(s).Some?
    ensures s == TypmodText(typmod) + AfterTypmod(s).value && (typmod.Some? ==> ')' !in typmod.value)
  {
    if s != "" && s[0] == '(' {
      var m := CloseSplits(s[1..]);
      typmod := Some(m);
      assert s == "(" + s[1..];
    } else {
      typmod := None;
    }
  }

  lemma {:induction false} ArraysSplit(s: string) returns (arrays: seq<string>)
    ensures s == ArraysText(arrays) + AfterArrays(s)
    ensures forall i :: 0 <= i < |arrays| ==> Blank(arrays[i])
    decreases |s|
  {
    arrays := [];
    if s != "" && s[0] == '[' {
      LeftStripShortens(s[1..]);
      var r := LeftStrip(s[1..]);
      if r != "" && r[0] == ']' {
        var a := LeftStripSplits(s[1..]);
        var more := ArraysSplit(r[1..]);
        arrays := [a] + more;
        assert AfterArrays(s) == AfterArrays(r[1..]);
        MarkerFirst(s, a, r, more, AfterArrays(r[1..]));
      }
    }
  }

  lemma MarkerFirst(s: string, a: string, r: string, more: seq<string>, rest: string)
    requires s != "" && s[0] == '[' && s[1..] == a + r && r != "" && r[0] == ']' && r[1..] == ArraysText(more) + rest
    ensures s == ArraysText([a] + more) + rest
  {
    assert s == "[" + s[1..] && r == "]" + r[1..];
    assert ([a] + more)[1..] == more;
  }

  lemma LeftStripBlank(s: string)
    ensures LeftStrip(s) == "" <==> Blank(s)
  {
    var a := LeftStripSplits(s);
    if Blank(s) {
      LeftStripPad(s, "");
      assert s + "" == s;
    }
  }

  /** What the pattern matches is a word and an ending. */
  lemma {:induction false} MatchShows(s: string) returns (e: Ending)
    requires TypeMatch(s).Some?
    ensures IsWord(TypeMatch(s).value) && EndingOk(e) && s == TypeMatch(s).value + EndingText(e)
  {
    var t := AfterWord(s);
    var r := AfterTypmod(LeftStrip(t)).value;
    var u := LeftStrip(r);
    WordSplits(s);
    LeftStripBlank(AfterArrays(u));
    hide Word, AfterWord, LeftStrip, AfterTypmod, AfterArrays, Blank, TypmodText, ArraysText;
    var gap1 := LeftStripSplits(t);
    var typmod := TypmodSplits(LeftStrip(t));
    var gap2 := LeftStripSplits(r);
    var arrays := ArraysSplit(u);
    e := Ending(gap1, typmod, gap2, arrays, AfterArrays(u));
  }

  /** The array markers and the blanks behind them, past blanks. */
  lemma {:induction false} ArraysEnding(gap: string, arrays: seq<string>, after: string)
    requires Blank(gap) && Blank(after) && forall i :: 0 <= i < |arrays| ==> Blank(arrays[i])
    ensures var t := gap + (ArraysText(arrays) + after);
      && LeftStrip(AfterArrays(LeftStrip(t))) == ""
      && AfterTypmod(LeftStrip(t)) == Some(LeftStrip(t)) && LeftStrip(LeftStrip(t)) == LeftStrip(t)
      && !WordAfter(t, 0)
  {
    var t := gap + (ArraysText(arrays) + after);
    LeftStripBlank(after);
    ArraysStart(arrays);
    if arrays == [] {
      BlankConcat(gap, after);
      assert t == gap + after;
      LeftStripBlank(t);
      assert LeftStrip("") == "";
    } else {
      var u := ArraysText(arrays) + after;
      assert u[0] == '[';
      LeftStripPad(gap, u);
      LeftStripPad("", u);
      assert "" + u == u;
      ArraysThen(arrays, after);
      assert gap != "" ==> t[0] == gap[0];
    }
  }

  /** A word and an ending are matched, and give the word. */
  lemma {:induction false} EndingMatches(w: string, e: Ending)
    requires IsWord(w) && EndingOk(e)
    ensures TypeMatch(w + EndingText(e)) == Some(w)
  {
    var tail := e.gap2 + (ArraysText(e.arrays) + e.after);
    ArraysEnding(e.gap2, e.arrays, e.after);
    if e.typmod.None? {
      var t := e.gap1 + e.gap2 + (ArraysText(e.arrays) + e.after);
      assert EndingText(e) == t;
      BlankConcat(e.gap1, e.gap2);
      ArraysEnding(e.gap1 + e.gap2, e.arrays, e.after);
      WordThen(w, t);
    } else {
      var m := TypmodText(e.typmod);
      assert m[0] == '(' && (m + tail)[0] == '(';
      LeftStripPad(e.gap1, m + tail);
      TypmodThen(e.typmod, tail);
      assert EndingText(e)[0] == if e.gap1 == "" then '(' else e.gap1[0];
      WordThen(w, EndingText(e));
    }
  }

  /** The pattern matches exactly a word with an ending behind it, and gives the word. */
  lemma {:induction false} MatchMeans(s: string, w: string)
    ensures TypeMatch(s) == Some(w) <==> IsWord(w) && exists e :: EndingOk(e) && s == w + EndingText(e)
  {
    hide *;
    if TypeMatch(s) == Some(w) {
      var e := MatchShows(s);
    }
    forall e | IsWord(w) && EndingOk(e) && s == w + EndingText(e) ensures TypeMatch(s) == Some(w) {
      EndingMatches(w, e);
    }
  }

  /** The search gives the match that starts first, and none when nothing matches anywhere. */
  lemma {:induction false} SearchMeans(s: string)
    ensures match TypeSearch(s)
      case None => forall i :: 0 <= i <= |s| ==> TypeMatch(s[i..]).None?
      case Some(w) => exists i :: 0 <= i <= |s| && TypeMatch(s[i..]) == Some(w) && forall j :: 0 <= j < i ==> TypeMatch(s[j..]).None?
  {
    hide TypeMatch;
    assert s[0..] == s;
    if TypeMatch(s).None? && s != "" {
      SearchMeans(s[1..]);
      assert forall i :: 1 <= i <= |s| ==> s[i..] == s[1..][i - 1..];
      if TypeSearch(s).Some? {
        var i :| 0 <= i <= |s[1..]| && TypeMatch(s[1..][i..]) == TypeSearch(s) && forall j :: 0 <= j < i ==> TypeMatch(s[1..][j..]).None?;
        assert s[1..][i..] == s[i + 1..];
        assert forall j :: 0 < j < i + 1 ==> s[j..] == s[1..][j - 1..];
      }
    }
  }

  /** The keyword DEFAULT, in any casing, stands at `i` as a word of its own. */
  ghost predicate DefaultStands(s: string, i: nat) {
    && i + 7 <= |s| && SameLetters(s[i..i + 7], "default")
    && (i > 0 ==> !IsWordChar(s[i - 1]))
    && (i + 7 < |s| ==> !IsWordChar(s[i + 7]))
  }

  /** A text is cut at the first place where the keyword stands, and nowhere if it does not. */
  lemma {:induction false} CutMeans(s: string)
    ensures CutDefault(s) <= s
    ensures forall i :: DefaultStands(s, i) ==> |CutDefault(s)| <= i
    ensures CutDefault(s) == s || DefaultStands(s, |CutDefault(s)|)
  {
    hide *;
    forall i: nat ensures DefaultStands(s, i) <==> DefaultAt(s, i) {
      DefaultMeans(s, i);
    }
    CutIsFirst(s);
  }

  lemma DefaultMeans(s: string, i: nat)
    ensures DefaultStands(s, i) <==> DefaultAt(s, i)
  {
    assert NoCapitals("default");
    if i + 7 <= |s| {
      LowerMeans(s[i..i + 7], "default");
    }
    hide Lower, SameLetters, NoCapitals;
  }

  lemma {:induction false} FirstIsDefault(s: string, i: nat)
    requires i <= |s|
    ensures FirstDefault(s, i) == |s| || DefaultAt(s, FirstDefault(s, i))
    ensures forall k :: i <= k < FirstDefault(s, i) ==> !DefaultAt(s, k)
    decreases |s| - i
  {
    hide DefaultAt;
    if i < |s| && !DefaultAt(s, i) {
      FirstIsDefault(s, i + 1);
    }
  }

  lemma CutIsFirst(s: string)
    ensures CutDefault(s) <= s
    ensures forall i :: DefaultAt(s, i) ==> |CutDefault(s)| <= i
    ensures CutDefault(s) == s || DefaultAt(s, |CutDefault(s)|)
  {
    FirstIsDefault(s, 0);
    hide Lower, FirstDefault;
  }

  // ---------- searching the printed type ----------

  /** At the type's place the pattern matches, and gives the type. */
  lemma {:induction false} TypeMatches(a: Arg)
    requires ArgOk(a)
    ensures TypeMatch(a.ty + Suffix(a)) == Some(a.ty)
  {
    var e := Ending(a.gap1, a.typmod, a.gap2, a.arrays, "");
    assert Blank("") && ArraysText(a.arrays) + "" == ArraysText(a.arrays);
    assert EndingText(e) == Suffix(a);
    EndingMatches(a.ty, e);
  }

  /** Where a word is followed by space and another word, the pattern does not match. */
  lemma NoTypeBefore(w: string, space: string, rest: string)
    requires (forall i :: 0 <= i < |w| ==> IsWordChar(w[i])) && Blank(space) && space != "" && WordAfter(rest, 0)
    ensures TypeMatch(w + (space + rest)).None?
  {
    assert (space + rest)[0] == space[0];
    WordThen(w, space + rest);
    LeftStripPad(space, rest);
    assert AfterTypmod(rest) == Some(rest);
    LeftStripPad("", rest);
    assert "" + rest == rest;
    assert AfterArrays(rest) == rest;
  }

  lemma {:induction false} SearchSkipsSpace(space: string, rest: string)
    requires Blank(space)
    ensures TypeSearch(space + rest) == TypeSearch(rest)
  {
    if space == "" {
      assert space + rest == rest;
    } else {
      hide LeftStrip;
      assert (space + rest)[0] == space[0] && (space + rest)[1..] == space[1..] + rest;
      assert Word(space + rest) == "";
      SearchSkipsSpace(space[1..], rest);
    }
  }

  lemma {:induction false} SearchSkipsWord(w: string, space: string, rest: string)
    requires (forall i :: 0 <= i < |w| ==> IsWordChar(w[i])) && Blank(space) && space != "" && WordAfter(rest, 0)
    ensures TypeSearch(w + (space + rest)) == TypeSearch(rest)
  {
    if w == "" {
      assert w + (space + rest) == space + rest;
      SearchSkipsSpace(space, rest);
    } else {
      NoTypeBefore(w, space, rest);
      assert (w + (space + rest))[1..] == w[1..] + (space + rest);
      hide TypeMatch;
      SearchSkipsWord(w[1..], space, rest);
    }
  }

  lemma Regroup(w: string, space: string, more: string, rest: string)
    ensures (w + space + more) + rest == w + (space + (more + rest))
  {
  }

  lemma WordGoesOn(w: string, rest: string)
    requires IsWord(w)
    ensures WordAfter(w + rest, 0)
  {
  }

  lemma {:induction false} SearchSkipsLead(lead: seq<(string, string)>, rest: string)
    requires forall i :: 0 <= i < |lead| ==> Name(lead[i].0) && Blank(lead[i].1) && lead[i].1 != ""
    requires WordAfter(rest, 0)
    ensures TypeSearch(LeadText(lead) + rest) == TypeSearch(rest)
    ensures WordAfter(LeadText(lead) + rest, 0)
  {
    if lead == [] {
      assert LeadText(lead) + rest == rest;
    } else {
      var w, space, more := lead[0].0, lead[0].1, LeadText(lead[1..]);
      SearchSkipsLead(lead[1..], rest);
      assert LeadText(lead) == w + space + more;
      WordGoesOn(w, space + (more + rest));
      hide TypeSearch, Blank, LeadText, Lower, WordAfter;
      SearchSkipsWord(w, space, more + rest);
      Regroup(w, space, more, rest);
    }
  }

  lemma SolidEnds(lead: string, ty: string, suffix: string)
    requires IsWord(ty) && WordAfter(lead + (ty + suffix), 0)
    requires suffix != "" ==> suffix[|suffix| - 1] in [')', ']']
    ensures var core := lead + (ty + suffix);
      core != "" && !IsSpace(core[0]) && !IsSpace(core[|core| - 1])
  {
    var core := lead + (ty + suffix);
    assert core[|core| - 1] == if suffix == "" then ty[|ty| - 1] else suffix[|suffix| - 1];
  }

  lemma CoreType(a: Arg)
    requires ArgOk(a)
    ensures TypeSearch(Core(a)) == Some(a.ty)
    ensures Core(a) != "" && !IsSpace(Core(a)[0]) && !IsSpace(Core(a)[|Core(a)| - 1])
  {
    var t := a.ty + Suffix(a);
    WordGoesOn(a.ty, Suffix(a));
    TypeMatches(a);
    SuffixStarts(a);
    hide TypeMatch, Suffix, Blank, Lower, NoDefault, Argument;
    SearchSkipsLead(a.lead, t);
    SolidEnds(LeadText(a.lead), a.ty, Suffix(a));
  }

  // ---------- cutting the printed default ----------

  lemma DefaultChars(s: string, i: nat)
    requires DefaultAt(s, i)
    ensures forall k :: i <= k < i + 7 ==> IsWordChar(s[k])
  {
    forall k | i <= k < i + 7 ensures IsWordChar(s[k]) {
      assert LowerChar(s[i..i + 7][k - i]) == "default"[k - i];
    }
  }

  /** Two texts without the keyword make a text without it, unless a word runs across. */
  lemma NoDefaultConcat(a: string, b: string)
    requires NoDefault(a) && NoDefault(b) && !(WordBefore(a, |a|) && WordAfter(b, 0))
    ensures NoDefault(a + b)
  {
    forall i: nat ensures !DefaultAt(a + b, i) {
      DefaultIn(a, b, i);
    }
  }

  lemma DefaultLeft(a: string, b: string, i: nat)
    requires DefaultAt(a + b, i) && i + 7 <= |a|
    ensures DefaultAt(a, i)
  {
    hide Lower;
    assert (a + b)[i..i + 7] == a[i..i + 7];
  }

  lemma DefaultRight(a: string, b: string, i: nat)
    requires DefaultAt(a + b, i) && |a| <= i
    ensures DefaultAt(b, i - |a|)
  {
    hide Lower;
    assert (a + b)[i..i + 7] == b[i - |a|..i - |a| + 7];
  }

  lemma DefaultAcross(a: string, b: string, i: nat)
    requires DefaultAt(a + b, i) && i < |a| < i + 7
    ensures WordBefore(a, |a|) && WordAfter(b, 0)
  {
    DefaultChars(a + b, i);
    hide Lower;
    assert (a + b)[|a| - 1] == a[|a| - 1] && (a + b)[|a|] == b[0];
  }

  lemma DefaultIn(a: string, b: string, i: nat)
    requires !(WordBefore(a, |a|) && WordAfter(b, 0))
    ensures DefaultAt(a + b, i) ==> if i < |a| then DefaultAt(a, i) else DefaultAt(b, i - |a|)
  {
    hide DefaultAt, WordBefore, WordAfter;
    if DefaultAt(a + b, i) {
      if |a| <= i {
        DefaultRight(a, b, i);
      } else if i + 7 <= |a| {
        DefaultLeft(a, b, i);
      } else {
        DefaultAcross(a, b, i);
      }
    }
  }

  lemma {:induction false} FirstDefaultAt(s: string, i: nat, k: nat)
    requires i <= k <= |s| && (k == |s| || DefaultAt(s, k))
    requires forall j :: i <= j < k ==> !DefaultAt(s, j)
    ensures FirstDefault(s, i) == k
    decreases k - i
  {
    if i == k {
    } else {
      FirstDefaultAt(s, i + 1, k);
    }
  }

  /** Behind a text without the keyword, the default is cut where it starts. */
  lemma CutAtDefault(a: string, d: Default)
    requires NoDefault(a) && !WordBefore(a, |a|)
    requires Lower(d.keyword) == "default" && !WordAfter(d.expr, 0)
    ensures CutDefault(a + (d.keyword + d.expr)) == a
  {
    var b := d.keyword + d.expr;
    var s := a + b;
    assert s[|a|..|a| + 7] == d.keyword;
    assert |d.keyword| == 7;
    assert DefaultAt(s, |a|);
    forall j | 0 <= j < |a| ensures !DefaultAt(s, j) {
      DefaultIn(a, b, j);
    }
    FirstDefaultAt(s, 0, |a|);
  }

  lemma CutNothing(a: string)
    requires NoDefault(a)
    ensures CutDefault(a) == a
  {
    FirstDefaultAt(a, 0, |a|);
  }

  lemma WordNoDefault(w: string)
    requires Name(w)
    ensures NoDefault(w)
  {
    forall i: nat ensures !DefaultAt(w, i) {
      if i == 0 && |w| == 7 {
        assert w[0..7] == w;
      }
    }
  }

  lemma OtherNoDefault(s: string)
    requires forall k :: 0 <= k < |s| ==> !IsWordChar(s[k])
    ensures NoDefault(s)
  {
    forall i: nat ensures !DefaultAt(s, i) {
      if i < |s| && i + 7 <= |s| {
        assert "default"[0] == 'd';
        assert Lower(s[i..i + 7])[0] == LowerChar(s[i]);
      }
    }
  }

  lemma BlankNoDefault(s: string)
    requires Blank(s)
    ensures NoDefault(s) && !WordBefore(s, |s|) && !WordAfter(s, 0)
  {
    OtherNoDefault(s);
  }

  lemma {:induction false} LeadNoDefault(lead: seq<(string, string)>)
    requires forall i :: 0 <= i < |lead| ==> Name(lead[i].0) && Blank(lead[i].1) && lead[i].1 != ""
    ensures NoDefault(LeadText(lead)) && !WordBefore(LeadText(lead), |LeadText(lead)|)
  {
    if lead == [] {
      OtherNoDefault("");
    } else {
      var w, sp, rest := lead[0].0, lead[0].1, LeadText(lead[1..]);
      WordNoDefault(w);
      BlankNoDefault(sp);
      LeadNoDefault(lead[1..]);
      assert (sp + rest)[0] == sp[0];
      assert (sp + rest)[|sp + rest| - 1] == if rest == "" then sp[|sp| - 1] else rest[|rest| - 1];
      hide NoDefault, Blank, DefaultAt;
      NoDefaultConcat(sp, rest);
      NoDefaultConcat(w, sp + rest);
      assert LeadText(lead) == w + (sp + rest);
    }
  }

  lemma {:induction false} ArraysNoDefault(arrays: seq<string>)
    requires forall i :: 0 <= i < |arrays| ==> Blank(arrays[i])
    ensures forall k :: 0 <= k < |ArraysText(arrays)| ==> !IsWordChar(ArraysText(arrays)[k])
  {
    if arrays == [] {
    } else {
      ArraysNoDefault(arrays[1..]);
    }
  }

  lemma {:induction false} SuffixNoDefault(a: Arg)
    requires ArgOk(a)
    ensures NoDefault(Suffix(a))
  {
    var tail := a.gap2 + ArraysText(a.arrays);
    ArraysNoDefault(a.arrays);
    OtherNoDefault(tail);
    BlankNoDefault(a.gap1);
    TypmodNoDefault(a.typmod);
    hide NoDefault, Blank, DefaultAt;
    NoDefaultConcat(TypmodText(a.typmod), tail);
    NoDefaultConcat(a.gap1, TypmodText(a.typmod) + tail);
  }

  lemma TypmodNoDefault(typmod: Option<string>)
    requires typmod.Some? ==> NoDefault(typmod.value)
    ensures NoDefault(TypmodText(typmod)) && !WordBefore(TypmodText(typmod), |TypmodText(typmod)|)
  {
    OtherNoDefault("");
    OtherNoDefault("(");
    OtherNoDefault(")");
    hide NoDefault, DefaultAt;
    if typmod.Some? {
      NoDefaultConcat("(", typmod.value);
      NoDefaultConcat("(" + typmod.value, ")");
    }
  }

  lemma CoreNoDefault(a: Arg)
    requires ArgOk(a)
    ensures NoDefault(Core(a))
  {
    LeadNoDefault(a.lead);
    WordNoDefault(a.ty);
    SuffixNoDefault(a);
    SuffixStarts(a);
    hide NoDefault, DefaultAt, Suffix, LeadText;
    NoDefaultConcat(a.ty, Suffix(a));
    NoDefaultConcat(LeadText(a.lead), a.ty + Suffix(a));
  }

  /** Cutting the default and stripping leaves the core of a printed argument. */
  lemma CutAndStrip(a: Arg)
    requires ArgOk(a)
    ensures Strip(CutDefault(Print(a))) == Core(a)
  {
    CoreNoDefault(a);
    CoreType(a);
    BlankNoDefault(a.before);
    BlankNoDefault(Trailing(a));
    var front := a.before + Core(a) + Trailing(a);
    assert a.default.Some? ==> front[|front| - 1] == a.default.value.space[|a.default.value.space| - 1];
    hide NoDefault, DefaultAt, Core, TypeSearch, CutDefault, Strip;
    NoDefaultConcat(a.before, Core(a));
    NoDefaultConcat(a.before + Core(a), Trailing(a));
    StripPad(a.before, Core(a), Trailing(a));
    match a.default
    case None =>
      CutNothing(front);
      assert front + "" == front;
    case Some(d) =>
      CutAtDefault(front, d);
  }

  // ---------- a printed argument is one argument ----------

  lemma {:induction false} NestedConcat(a: string, b: string, d: int)
    requires NestedFrom(a, d) && TopFreeFrom(a, d) && Argument(b)
    ensures NestedFrom(a + b, d) && TopFreeFrom(a + b, d)
  {
    if a == "" {
      assert a + b == b;
    } else {
      assert (a + b)[1..] == a[1..] + b;
      NestedConcat(a[1..], b, d + Delta(a[0]));
    }
  }

  lemma ArgumentConcat(a: string, b: string)
    requires Argument(a) && Argument(b)
    ensures Argument(a + b)
  {
    NestedConcat(a, b, 0);
  }

  lemma {:induction false} PlainIsArgument(s: string)
    requires forall k :: 0 <= k < |s| ==> s[k] !in ['(', ')', ',']
    ensures Argument(s)
  {
    if s == "" {
    } else {
      assert s[0] !in ['(', ')', ','];
      PlainIsArgument(s[1..]);
    }
  }

  lemma {:induction false} InsideTypmod(m: string)
    requires '(' !in m && ')' !in m
    ensures NestedFrom(m + ")", 1) && TopFreeFrom(m + ")", 1)
  {
    if m == "" {
      assert m + ")" == ")";
      assert NestedFrom(")"[1..], 0);
    } else {
      assert m[0] in m;
      assert (m + ")")[1..] == m[1..] + ")";
      InsideTypmod(m[1..]);
    }
  }

  lemma TypmodIsArgument(typmod: Option<string>)
    requires typmod.Some? ==> '(' !in typmod.value && ')' !in typmod.value
    ensures Argument(TypmodText(typmod))
  {
    if typmod.Some? {
      InsideTypmod(typmod.value);
      assert TypmodText(typmod)[1..] == typmod.value + ")";
    }
  }

  lemma {:induction false} LeadIsPlain(lead: seq<(string, string)>)
    requires forall i :: 0 <= i < |lead| ==> Name(lead[i].0) && Blank(lead[i].1) && lead[i].1 != ""
    ensures forall k :: 0 <= k < |LeadText(lead)| ==> LeadText(lead)[k] !in ['(', ')', ',']
  {
    if lead == [] {
    } else {
      LeadIsPlain(lead[1..]);
      assert forall k :: 0 <= k < |lead[0].0| ==> IsWordChar(lead[0].0[k]);
    }
  }

  lemma {:induction false} ArraysArePlain(arrays: seq<string>)
    requires forall i :: 0 <= i < |arrays| ==> Blank(arrays[i])
    ensures forall k :: 0 <= k < |ArraysText(arrays)| ==> ArraysText(arrays)[k] !in ['(', ')', ',']
  {
    if arrays == [] {
    } else {
      ArraysArePlain(arrays[1..]);
    }
  }

  lemma CoreIsArgument(a: Arg)
    requires ArgOk(a)
    ensures Argument(Core(a))
  {
    LeadIsPlain(a.lead);
    PlainIsArgument(LeadText(a.lead));
    PlainIsArgument(a.ty);
    PlainIsArgument(a.gap1);
    ArraysArePlain(a.arrays);
    PlainIsArgument(a.gap2 + ArraysText(a.arrays));
    TypmodIsArgument(a.typmod);
    hide Argument, LeadText, ArgOk;
    var tail := a.gap2 + ArraysText(a.arrays);
    ArgumentConcat(TypmodText(a.typmod), tail);
    ArgumentConcat(a.gap1, TypmodText(a.typmod) + tail);
    ArgumentConcat(a.ty, Suffix(a));
    ArgumentConcat(LeadText(a.lead), a.ty + Suffix(a));
  }

  lemma {:induction false} PrintIsArgument(a: Arg)
    requires ArgOk(a)
    ensures Argument(Print(a)) && !Blank(Print(a))
  {
    CoreIsArgument(a);
    CoreType(a);
    PlainIsArgument(a.before);
    PlainIsArgument(Trailing(a));
    DefaultIsArgument(a);
    assert Print(a)[|a.before|] == Core(a)[0];
    hide Argument, Core, Blank, ArgOk, TypeSearch, DefaultText;
    ArgumentConcat(a.before, Core(a));
    ArgumentConcat(a.before + Core(a), Trailing(a));
    ArgumentConcat(a.before + Core(a) + Trailing(a), DefaultText(a.default));
  }

  lemma DefaultIsArgument(a: Arg)
    requires ArgOk(a)
    ensures Argument(DefaultText(a.default))
  {
    if a.default.Some? {
      var k := a.default.value.keyword;
      forall i | 0 <= i < |k| ensures k[i] !in ['(', ')', ','] {
        assert LowerChar(k[i]) == "default"[i];
      }
      PlainIsArgument(k);
      ArgumentConcat(k, a.default.value.expr);
    }
  }

  // ---------- what is extracted ----------

  /** The first match in the argument, without its default and the blanks around it, is a casing of `t`, which is lower-case. */
  ghost predicate Declares(arg: string, t: string) {
    exists i, w :: FirstMatch(Strip(CutDefault(arg)), i, w) && SameLetters(w, t) && NoCapitals(t)
  }

  /** The pattern matches at `i` with the word `w`, and nowhere before. */
  ghost predicate FirstMatch(s: string, i: nat, w: string) {
    i <= |s| && TypeMatch(s[i..]) == Some(w) && forall j :: 0 <= j < i ==> TypeMatch(s[j..]).None?
  }

  lemma {:induction false} SearchIsFirst(s: string, w: string)
    ensures TypeSearch(s) == Some(w) <==> exists i :: FirstMatch(s, i, w)
  {
    SearchMeans(s);
    hide TypeMatch, TypeSearch;
    if TypeSearch(s) == Some(w) {
      var i :| 0 <= i <= |s| && TypeMatch(s[i..]) == Some(w) && forall j :: 0 <= j < i ==> TypeMatch(s[j..]).None?;
      assert FirstMatch(s, i, w);
    }
  }

  lemma {:induction false} ArgumentMeans(arg: string, t: string)
    ensures ArgumentType(arg) == Some(t) <==> Declares(arg, t)
  {
    var a := Strip(CutDefault(arg));
    assert TypeSearch("").None?;
    forall w ensures TypeSearch(a) == Some(w) <==> exists i :: FirstMatch(a, i, w) {
      SearchIsFirst(a, w);
    }
    forall w ensures Lower(w) == t <==> SameLetters(w, t) && NoCapitals(t) {
      LowerMeans(w, t);
    }
    hide Strip, CutDefault, TypeSearch, Lower, FirstMatch, SameLetters, NoCapitals;
  }

  lemma {:induction false} TypesMean(pieces: seq<string>, t: string)
    ensures t in TypesOf(pieces) <==> exists p :: p in pieces && ArgumentType(p) == Some(t)
  {
    hide ArgumentType;
    if pieces == [] {
    } else {
      var init, last := pieces[..|pieces| - 1], pieces[|pieces| - 1];
      TypesMean(init, t);
      assert pieces == init + [last];
    }
  }

  /** A type is extracted exactly when some argument declares it, or it is the return type, in lower case. */
  lemma {:induction false} SignatureMeans(args: string, ret: string, t: string)
    ensures t in SignatureTypes(args, ret) <==>
      || (exists p :: p in SplitTopLevel(args) && Declares(p, t))
      || (ret != "" && SameLetters(ret, t) && NoCapitals(t))
  {
    var pieces := SplitTopLevel(args);
    TypesMean(pieces, t);
    LowerMeans(ret, t);
    forall p | p in pieces ensures ArgumentType(p) == Some(t) <==> Declares(p, t) {
      ArgumentMeans(p, t);
    }
    hide SplitTopLevel, TypesOf, ArgumentType, Declares, Lower, SameLetters, NoCapitals;
  }

  // ---------- the round trip ----------

  function PrintAll(args: seq<Arg>): (r: seq<string>)
    ensures |r| == |args| && forall i :: 0 <= i < |args| ==> r[i] == Print(args[i])
  {
    seq(|args|, i requires 0 <= i < |args| => Print(args[i]))
  }

  lemma PrintedType(a: Arg)
    requires ArgOk(a)
    ensures ArgumentType(Print(a)) == Some(Lower(a.ty))
  {
    hide Strip, CutDefault, TypeSearch, Core, Print;
    CutAndStrip(a);
    CoreType(a);
  }

  lemma {:induction false} PrintedTypes(args: seq<Arg>, n: nat)
    requires n <= |args| && forall i :: 0 <= i < |args| ==> ArgOk(args[i])
    ensures TypesOf(PrintAll(args)[..n]) == set i | 0 <= i < n :: Lower(args[i].ty)
  {
    hide ArgOk, Print, ArgumentType;
    if n > 0 {
      PrintedTypes(args, n - 1);
      PrintedType(args[n - 1]);
      assert PrintAll(args)[..n][..n - 1] == PrintAll(args)[..n - 1];
    }
  }

  /** Reading a printed signature gives the lower-case declared types and the lower-case return type, and no others. */
  lemma {:induction false} SignatureRoundTrip(args: seq<Arg>, ret: string)
    requires forall i :: 0 <= i < |args| ==> ArgOk(args[i])
    ensures SignatureTypes(Join(PrintAll(args), ','), ret)
         == (set i | 0 <= i < |args| :: Lower(args[i].ty)) + if ret != "" then {Lower(ret)} else {}
  {
    hide ArgOk, Print, SplitTopLevel, TypesOf;
    var ps := PrintAll(args);
    forall i | 0 <= i < |ps| ensures Argument(ps[i]) && !Blank(ps[i]) {
      PrintIsArgument(args[i]);
    }
    SplitOfJoin(ps);
    PrintedTypes(args, |args|);
    assert ps[..|args|] == ps;
  }
}
