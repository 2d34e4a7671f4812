/**
 * `iter_create_functions` of scripts/parity-audit.py.
 *
 * The patterns for the head of a declaration and for its RETURNS clause are scanners over a text at an index.
 * What they accept is said a second time, without them: a head or a clause is a list of its pieces, keywords
 * in some casing with space behind them and words, and stands in a text where its pieces, joined, are the
 * characters from an index on. Each scanner is proved to succeed exactly where such a list stands, and to
 * give the name, the end or the type of that list. On top of that, the generator's loops are proved to yield
 * exactly the declarations that stand in the text: one for each head whose parenthesis closes, at whatever
 * place it is, with the balanced text between its parentheses and the type behind RETURNS, if there is one.
 */
module Declarations {
  import opened Text
  import opened SqlScan

  /** A declaration: its name, the text between its parentheses, and its return type or "". */
  datatype Decl = Decl(name: string, args: string, ret: string)

  function SpaceEnd(s: string, i: nat): (r: nat)
    requires i <= |s|
    ensures i <= r <= |s|
    ensures forall k :: i <= k < r ==> IsSpace(s[k])
    ensures r < |s| ==> !IsSpace(s[r])
    decreases |s| - i
  {
    if i == |s| || !IsSpace(s[i]) then i else SpaceEnd(s, i + 1)
  }

  function WordEnd(s: string, i: nat): (r: nat)
    requires i <= |s|
    ensures i <= r <= |s|
    ensures forall k :: i <= k < r ==> IsWordChar(s[k])
    ensures r < |s| ==> !IsWordChar(s[r])
    decreases |s| - i
  {
    if i == |s| || !IsWordChar(s[i]) then i else WordEnd(s, i + 1)
  }

  /** The lower-case keyword `w` is at `i`, in any case. */
  predicate KeywordAt(s: string, i: nat, w: string) {
    i + |w| <= |s| && forall k :: 0 <= k < |w| ==> LowerChar(s[i + k]) == w[k]
  }

  /** `w\s+` at `i`: the index behind it. */
  function KeywordSpace(s: string, i: nat, w: string): (r: Option<nat>)
    ensures r.Some? ==> i + |w| < r.value <= |s|
  {
    if KeywordAt(s, i, w) && SpaceEnd(s, i + |w|) > i + |w| then Some(SpaceEnd(s, i + |w|)) else None
  }

  /** `(?:OR\s+REPLACE\s+)?` at `i`: the index behind it. */
  function OrReplace(s: string, i: nat): (r: nat)
    requires i <= |s|
    ensures i <= r <= |s|
  {
    match KeywordSpace(s, i, "or")
    case None => i
    case Some(j) =>
      match KeywordSpace(s, j, "replace")
      case None => i
      case Some(k) => k
  }

  /** `CREATE\s+(?:OR\s+REPLACE\s+)?FUNCTION\s+(\w+)\s*\(` at `i`: the name, and the index behind the parenthesis. */
  function HeadAt(s: string, i: nat): (r: Option<(string, nat)>)
    ensures r.Some? ==> i < r.value.1 <= |s|
  {
    match KeywordSpace(s, i, "create")
    case None => None
    case Some(j) =>
      match KeywordSpace(s, OrReplace(s, j), "function")
      case None => None
      case Some(m) =>
        var n := WordEnd(s, m);
        var o := SpaceEnd(s, n);
        if m < n && o < |s| && s[o] == '(' then Some((s[m..n], o + 1)) else None
  }

  /** `\s*RETURNS\s+(?:SETOF\s+)?(\w+)` at `i`: the word, or "" where it does not match. */
  function ReturnAt(s: string, i: nat): string
    requires i <= |s|
  {
    match KeywordSpace(s, SpaceEnd(s, i), "returns")
    case None => ""
    case Some(b) =>
      match KeywordSpace(s, b, "setof")
      case Some(c) => if WordEnd(s, c) > c then s[c..WordEnd(s, c)] else s[b..WordEnd(s, b)]
      case None => s[b..WordEnd(s, b)]
  }

  /** The declaration whose head ends at `e`, if its parenthesis closes. */
  function DeclFrom(s: string, name: string, e: nat): seq<Decl>
    requires e <= |s|
  {
    match Close(s, e, 1)
    case None => []
    case Some(r) => [Decl(name, s[e..r - 1], ReturnAt(s, r))]
  }

  /** The declarations in `s` whose heads start at `i` or later. */
  function Decls(s: string, i: nat): seq<Decl>
    requires i <= |s|
    decreases |s| - i
  {
    if i == |s| then []
    else
      match HeadAt(s, i)
      case None => Decls(s, i + 1)
      case Some((name, e)) => DeclFrom(s, name, e) + Decls(s, e)
  }

  /** The inner loop: `depth` and `i` when it stops. */
  method ScanArguments(text: string, end: nat) returns (depth: int, i: nat)
    requires end <= |text|
    ensures end <= i <= |text|
    ensures Close(text, end, 1) == if depth == 0 then Some(i) else None
  {
    depth, i := 1, end;
    while i < |text| && depth != 0
      invariant end <= i <= |text|
      invariant Close(text, i, depth) == Close(text, end, 1)
    {
      if text[i] == '(' {
        depth := depth + 1;
      } else if text[i] == ')' {
        depth := depth - 1;
      }
      i := i + 1;
    }
  }

  lemma HeadStep(text: string, at: nat)
    requires at < |text|
    ensures match HeadAt(text, at)
      case None => Decls(text, at) == Decls(text, at + 1)
      case Some((name, end)) => Decls(text, at) == DeclFrom(text, name, end) + Decls(text, end)
  {
    hide HeadAt, DeclFrom;
  }

  /** The generator, as the list of what it yields. */
  method IterCreateFunctions(text: string) returns (decls: seq<Decl>)
    ensures decls == Decls(text, 0)
  {
    hide HeadAt, ReturnAt, Close, Decls;
    decls := [];
    var at := 0;
    while at < |text|
      invariant at <= |text|
      invariant decls + Decls(text, at) == Decls(text, 0)
    {
      var head := HeadAt(text, at);
      HeadStep(text, at);
      if head.None? {
        at := at + 1;
      } else {
        var end := head.value.1;
        var depth, i := ScanArguments(text, end);
        ghost var yielded := DeclFrom(text, head.value.0, end);
        ghost var before := decls;
        if depth == 0 {
          decls := decls + [Decl(head.value.0, text[end..i - 1], ReturnAt(text, i))];
        }
        assert decls == before + yielded;
        at := end;
      }
    }
    assert Decls(text, at) == [] by {
      NoMoreDecls(text);
    }
  }

  lemma NoMoreDecls(text: string)
    ensures Decls(text, |text|) == []
  {
  }

  /** Every argument text yielded is balanced, as the splitter needs it. */
  lemma {:induction false} YieldedAreNested(s: string, i: nat)
    requires i <= |s|
    ensures forall d :: d in Decls(s, i) ==> Nested(d.args)
    decreases |s| - i
  {
    hide HeadAt, ReturnAt;
    if i == |s| {
    } else {
      match HeadAt(s, i)
      case None =>
        YieldedAreNested(s, i + 1);
      case Some((_, e)) =>
        MatchingParenthesis(s, e);
        YieldedAreNested(s, e);
    }
  }

  // ---------- no head is skipped ----------

  lemma NotCreate(s: string, q: nat)
    requires q < |s| && LowerChar(s[q]) != 'c'
    ensures HeadAt(s, q).None?
  {
    assert "create"[0] == 'c' && s[q + 0] == s[q];
  }

  lemma {:induction false} NotCreate2(s: string, q: nat)
    requires q + 1 < |s| && LowerChar(s[q + 1]) != 'r'
    ensures HeadAt(s, q).None?
  {
    assert "create"[1] == 'r';
  }

  /** No head starts inside a keyword other than at its first character. */
  lemma NoHeadInKeyword(s: string, i: nat, w: string, q: nat)
    requires KeywordAt(s, i, w) && w in ["create", "or", "replace", "function"]
    requires i <= q < i + |w| && (w == "create" ==> i < q)
    ensures HeadAt(s, q).None?
  {
    var k := q - i;
    assert LowerChar(s[i + k]) == w[k];
    if w == "replace" && k == 5 {
      assert LowerChar(s[i + 6]) == w[6];
      NotCreate2(s, q);
    } else if w == "function" && k == 3 {
      assert LowerChar(s[i + 4]) == w[4];
      NotCreate2(s, q);
    } else {
      NotCreate(s, q);
    }
  }

  lemma NoHeadInSpace(s: string, q: nat)
    requires q < |s| && IsSpace(s[q])
    ensures HeadAt(s, q).None?
  {
    NotCreate(s, q);
  }

  /** `w\s+` at `i` that ends at `j` holds no head past its first character. */
  lemma NoHeadInKeywordSpace(s: string, i: nat, w: string, j: nat, q: nat)
    requires KeywordSpace(s, i, w) == Some(j) && w in ["create", "or", "replace", "function"]
    requires i <= q < j && (w == "create" ==> i < q)
    ensures HeadAt(s, q).None?
  {
    if q < i + |w| {
      NoHeadInKeyword(s, i, w, q);
    } else {
      NoHeadInSpace(s, q);
    }
  }

  lemma NoCreate(s: string, q: nat)
    requires KeywordSpace(s, q, "create").None?
    ensures HeadAt(s, q).None?
  {
    hide KeywordSpace;
  }

  lemma NoFunction(s: string, q: nat, j: nat)
    requires KeywordSpace(s, q, "create") == Some(j) && KeywordSpace(s, j, "or").None? && KeywordSpace(s, j, "function").None?
    ensures HeadAt(s, q).None?
  {
    hide KeywordSpace;
  }

  lemma CreateLetters(k: nat)
    requires k < 6
    ensures IsWordChar("create"[k]) && 'a' <= "create"[k] <= 'z'
  {
  }

  lemma OtherStart(s: string, o: nat)
    requires o < |s| && s[o] == '('
    ensures KeywordSpace(s, o, "or").None? && KeywordSpace(s, o, "function").None?
  {
    assert s[o + 0] == '(' && "or"[0] == 'o' && "function"[0] == 'f';
    hide KeywordSpace;
    NotKeywordAt(s, o, "or", 0);
    NotKeywordAt(s, o, "function", 0);
  }

  lemma SpaceOf(s: string, q: nat, w: string, n: nat, o: nat)
    requires n == q + |w| && n <= |s| && o == SpaceEnd(s, n)
    ensures KeywordSpace(s, q, w).Some? ==> KeywordSpace(s, q, w) == Some(o)
  {
    hide SpaceEnd;
  }

  /** No head starts in a word that is followed, past spaces, by a parenthesis. */
  lemma {:induction false} NoHeadInName(s: string, m: nat, n: nat, o: nat, q: nat)
    requires m <= |s| && n == WordEnd(s, m) && o == SpaceEnd(s, n) && o < |s| && s[o] == '('
    requires m <= q < n
    ensures HeadAt(s, q).None?
  {
    assert q + 6 < n ==> IsWordChar(s[q + 6]);
    assert !IsWordChar(s[n]);
    hide HeadAt, KeywordSpace, WordEnd, SpaceEnd;
    if q + 6 < n {
      WordGoesOn(s, q, "create");
    } else if n < q + 6 {
      CreateLetters(n - q);
      NotKeywordAt(s, q, "create", n - q);
    } else {
      SpaceOf(s, q, "create", n, o);
      OtherStart(s, o);
    }
    if KeywordSpace(s, q, "create").None? {
      NoCreate(s, q);
    } else {
      NoFunction(s, q, o);
    }
  }

  lemma {:induction false} NoHeadInOrReplace(s: string, j: nat, q: nat)
    requires j <= |s| && j <= q < OrReplace(s, j)
    ensures HeadAt(s, q).None?
  {
    hide HeadAt;
    var k := KeywordSpace(s, j, "or").value;
    if q < k {
      NoHeadInKeywordSpace(s, j, "or", k, q);
    } else {
      NoHeadInKeywordSpace(s, k, "replace", OrReplace(s, j), q);
    }
  }

  lemma NoHeadInGap(s: string, n: nat, q: nat)
    requires n <= |s| && n <= q <= SpaceEnd(s, n) < |s| && s[SpaceEnd(s, n)] == '('
    ensures HeadAt(s, q).None?
  {
    hide HeadAt, SpaceEnd;
    NotCreate(s, q);
  }

  /** Heads do not overlap, so going on behind one misses none. */
  lemma {:induction false} HeadsDoNotOverlap(s: string, i: nat, q: nat)
    requires HeadAt(s, i).Some? && i < q < HeadAt(s, i).value.1
    ensures HeadAt(s, q).None?
  {
    var j := KeywordSpace(s, i, "create").value;
    var k := OrReplace(s, j);
    var m := KeywordSpace(s, k, "function").value;
    var n := WordEnd(s, m);
    var o := SpaceEnd(s, n);
    assert HeadAt(s, i).value.1 == o + 1;
    hide HeadAt, OrReplace, KeywordSpace, WordEnd, SpaceEnd;
    if q < j {
      NoHeadInKeywordSpace(s, i, "create", j, q);
    } else if q < k {
      NoHeadInOrReplace(s, j, q);
    } else if q < m {
      NoHeadInKeywordSpace(s, k, "function", m, q);
    } else if q < n {
      NoHeadInName(s, m, n, o, q);
    } else {
      NoHeadInGap(s, n, q);
    }
  }

  /** The declarations of all the heads in `s` from `i` on, position by position. */
  function EveryHead(s: string, i: nat): seq<Decl>
    requires i <= |s|
    decreases |s| - i
  {
    if i == |s| then []
    else
      (match HeadAt(s, i)
       case None => []
       case Some((name, e)) => DeclFrom(s, name, e))
      + EveryHead(s, i + 1)
  }

  lemma {:induction false} SkipHeadless(s: string, i: nat, j: nat)
    requires i <= j <= |s| && forall q :: i <= q < j ==> HeadAt(s, q).None?
    ensures EveryHead(s, i) == EveryHead(s, j)
    decreases j - i
  {
    hide HeadAt, DeclFrom;
    if i == j {
    } else {
      SkipHeadless(s, i + 1, j);
    }
  }

  /** The scan yields the declaration of every head in the text whose parenthesis closes, and nothing else. */
  lemma {:induction false} EveryHeadIsYielded(s: string, i: nat)
    requires i <= |s|
    ensures Decls(s, i) == EveryHead(s, i)
    decreases |s| - i
  {
    hide HeadAt, DeclFrom;
    if i == |s| {
    } else {
      match HeadAt(s, i)
      case None =>
        EveryHeadIsYielded(s, i + 1);
      case Some((name, e)) =>
        forall q | i + 1 <= q < e ensures HeadAt(s, q).None? {
          HeadsDoNotOverlap(s, i, q);
        }
        SkipHeadless(s, i + 1, e);
        EveryHeadIsYielded(s, e);
    }
  }

  // ---------- printed declarations ----------

  /** A keyword as printed, in some casing, and the space behind it. */
  datatype Key = Key(text: string, space: string)

  datatype Head = Head(create: Key, orReplace: Option<(Key, Key)>, func: Key, name: string, gap: string)

  datatype Returns = Returns(before: string, keyword: Key, setof: Option<Key>, ty: string)

  /** A printed declaration: its head, its arguments, and its RETURNS clause, if it has one. */
  datatype Printed = Printed(head: Head, args: string, clause: Option<Returns>)

  function KeyText(k: Key): string {
    k.text + k.space
  }

  function OrReplaceText(o: Option<(Key, Key)>): string {
    match o
    case None => ""
    case Some((a, b)) => KeyText(a) + KeyText(b)
  }

  function HeadText(h: Head): string {
    KeyText(h.create) + (OrReplaceText(h.orReplace) + (KeyText(h.func) + (h.name + (h.gap + "("))))
  }

  function SetofText(o: Option<Key>): string {
    if o.Some? then KeyText(o.value) else ""
  }

  function ReturnsText(r: Returns): string {
    r.before + (KeyText(r.keyword) + (SetofText(r.setof) + r.ty))
  }

  function ClauseText(clause: Option<Returns>): string {
    if clause.Some? then ReturnsText(clause.value) else ""
  }

  function PrintedText(d: Printed): string {
    HeadText(d.head) + (d.args + (")" + ClauseText(d.clause)))
  }

  /** What the declaration is read as. */
  function DeclOf(d: Printed): Decl {
    Decl(d.head.name, d.args, if d.clause.Some? then d.clause.value.ty else "")
  }

  ghost predicate IsKey(k: Key, w: string) {
    SameLetters(k.text, w) && Blank(k.space) && k.space != ""
  }

  ghost predicate OrReplaceOk(o: Option<(Key, Key)>) {
    o.Some? ==> IsKey(o.value.0, "or") && IsKey(o.value.1, "replace")
  }

  ghost predicate HeadOk(h: Head) {
    && IsKey(h.create, "create")
    && OrReplaceOk(h.orReplace)
    && IsKey(h.func, "function")
    && IsWord(h.name)
    && Blank(h.gap)
  }

  ghost predicate ReturnsOk(r: Returns) {
    && Blank(r.before)
    && IsKey(r.keyword, "returns")
    && (r.setof.Some? ==> IsKey(r.setof.value, "setof"))
    && IsWord(r.ty)
  }

  ghost predicate PrintedOk(d: Printed) {
    HeadOk(d.head) && Nested(d.args) && (d.clause.Some? ==> ReturnsOk(d.clause.value))
  }

  /** No word goes on at `end`. */
  ghost predicate WordEnds(s: string, end: nat) {
    end < |s| ==> !IsWordChar(s[end])
  }

  /** A word goes on or starts at `i`. */
  ghost predicate WordStarts(s: string, i: nat) {
    i < |s| && IsWordChar(s[i])
  }

  /** No space with a word behind it stands at `i`. */
  ghost predicate NoWordBehind(s: string, i: nat) {
    forall space :: Blank(space) && space != "" && At(s, i, space) ==> !WordStarts(s, i + |space|)
  }

  /** A type that reads as the keyword SETOF is not followed by space and a word, which would be the type. */
  ghost predicate SetofClear(s: string, r: Returns, end: nat) {
    r.setof.None? && SameLetters(r.ty, "setof") ==> NoWordBehind(s, end)
  }

  /** No RETURNS clause stands at `i`. */
  ghost predicate NoClause(s: string, i: nat) {
    forall r :: ReturnsOk(r) ==> !At(s, i, ReturnsText(r))
  }

  /** The clause ends at `end` with its last word, or none starts there. */
  ghost predicate ClauseEnds(s: string, clause: Option<Returns>, end: nat) {
    if clause.Some? then WordEnds(s, end) && SetofClear(s, clause.value, end) else NoClause(s, end)
  }

  /** The printed declaration stands at `i` in `s`. */
  ghost predicate PrintedAt(s: string, i: nat, d: Printed) {
    PrintedOk(d) && At(s, i, PrintedText(d)) && ClauseEnds(s, d.clause, i + |PrintedText(d)|)
  }

  // ---------- texts in place ----------

  /** `t` stands at `i` in `s`. */
  ghost predicate At(s: string, i: nat, t: string) {
    i + |t| <= |s| && s[i..i + |t|] == t
  }

  /** A character other than space stands at `i`. */
  ghost predicate SolidAt(s: string, i: nat) {
    i < |s| && !IsSpace(s[i])
  }

  /** The letter `l` stands at `i`, in any case. */
  ghost predicate LetterAt(s: string, i: nat, l: char) {
    i < |s| && LowerChar(s[i]) == l
  }

  lemma AtConcat(s: string, i: nat, a: string, b: string)
    requires At(s, i, a + b)
    ensures At(s, i, a) && At(s, i + |a|, b)
  {
    assert s[i..i + |a|] == s[i..i + |a| + |b|][..|a|];
    assert s[i + |a|..i + |a| + |b|] == s[i..i + |a| + |b|][|a|..];
  }

  lemma AtChars(s: string, i: nat, t: string)
    requires At(s, i, t)
    ensures forall k :: 0 <= k < |t| ==> s[i + k] == t[k]
  {
    forall k | 0 <= k < |t| ensures s[i + k] == t[k] {
      assert s[i..i + |t|][k] == s[i + k];
    }
  }

  lemma AtIndices(s: string, i: nat, t: string)
    requires At(s, i, t)
    ensures forall k :: i <= k < i + |t| ==> s[k] == t[k - i]
  {
    forall k | i <= k < i + |t| ensures s[k] == t[k - i] {
      assert s[i..i + |t|][k - i] == s[k];
    }
  }

  lemma {:induction false} SpaceEndIs(s: string, i: nat, j: nat)
    requires i <= j <= |s| && (forall k :: i <= k < j ==> IsSpace(s[k])) && (j < |s| ==> !IsSpace(s[j]))
    ensures SpaceEnd(s, i) == j
    decreases j - i
  {
    if i == j {
    } else {
      SpaceEndIs(s, i + 1, j);
    }
  }

  lemma {:induction false} WordEndIs(s: string, i: nat, j: nat)
    requires i <= j <= |s| && (forall k :: i <= k < j ==> IsWordChar(s[k])) && (j < |s| ==> !IsWordChar(s[j]))
    ensures WordEnd(s, i) == j
    decreases j - i
  {
    if i == j {
    } else {
      WordEndIs(s, i + 1, j);
    }
  }

  lemma SpaceFound(s: string, i: nat, space: string)
    requires At(s, i, space) && Blank(space) && SolidAt(s, i + |space|)
    ensures SpaceEnd(s, i) == i + |space|
  {
    AtIndices(s, i, space);
    SpaceEndIs(s, i, i + |space|);
  }

  lemma WordFound(s: string, i: nat, w: string)
    requires At(s, i, w) && IsWord(w) && WordEnds(s, i + |w|)
    ensures WordEnd(s, i) == i + |w| && s[i..i + |w|] == w
    ensures SolidAt(s, i)
  {
    AtIndices(s, i, w);
    WordEndIs(s, i, i + |w|);
    assert s[i] == w[0];
  }

  lemma NotEmpty(w: string)
    requires IsWord(w)
    ensures w != ""
  {
  }

  lemma InText(s: string, i: nat, t: string)
    requires At(s, i, t)
    ensures i + |t| <= |s|
  {
  }

  lemma LetterIsSolid(s: string, i: nat, l: char)
    requires LetterAt(s, i, l) && 'a' <= l <= 'z'
    ensures SolidAt(s, i)
  {
  }

  /** A printed keyword is found where it stands, with its space. */
  lemma {:induction false} KeyFound(s: string, i: nat, k: Key, w: string)
    requires w != "" && NoCapitals(w) && IsKey(k, w) && At(s, i, KeyText(k)) && SolidAt(s, i + |KeyText(k)|)
    ensures KeywordSpace(s, i, w) == Some(i + |KeyText(k)|)
    ensures LetterAt(s, i, w[0])
  {
    LowerMeans(k.text, w);
    AtConcat(s, i, k.text, k.space);
    AtChars(s, i, k.text);
    hide At, Lower, Blank, SameLetters, NoCapitals;
    SpaceFound(s, i + |w|, k.space);
    assert s[i + 0] == k.text[0];
  }

  /** A keyword is not found where another letter stands. */
  lemma KeyMissing(s: string, i: nat, w: string, l: char)
    requires w != "" && LetterAt(s, i, l) && l != w[0]
    ensures KeywordSpace(s, i, w).None?
  {
    assert s[i + 0] == s[i];
  }

  lemma FirstLetters()
    ensures "create"[0] == 'c' && "or"[0] == 'o' && "replace"[0] == 'r' && "function"[0] == 'f'
    ensures "returns"[0] == 'r' && "setof"[0] == 's'
    ensures NoCapitals("create") && NoCapitals("or") && NoCapitals("replace") && NoCapitals("function")
    ensures NoCapitals("returns") && NoCapitals("setof")
  {
  }

  // ---------- printed heads ----------

  lemma {:induction false} OrReplacePresent(s: string, i: nat, a: Key, b: Key)
    requires IsKey(a, "or") && IsKey(b, "replace")
    requires At(s, i, KeyText(a)) && At(s, i + |KeyText(a)|, KeyText(b)) && SolidAt(s, i + |KeyText(a)| + |KeyText(b)|)
    ensures OrReplace(s, i) == i + |KeyText(a)| + |KeyText(b)| && SolidAt(s, i)
  {
    var j := i + |KeyText(a)|;
    FirstLetters();
    hide At, IsKey, KeyText, KeywordSpace, LetterAt, SolidAt;
    KeyFound(s, j, b, "replace");
    LetterIsSolid(s, j, 'r');
    KeyFound(s, i, a, "or");
    LetterIsSolid(s, i, 'o');
  }

  lemma OrReplaceAbsent(s: string, i: nat)
    requires LetterAt(s, i, 'f')
    ensures OrReplace(s, i) == i
  {
    FirstLetters();
    hide KeywordSpace;
    KeyMissing(s, i, "or", 'f');
  }

  lemma {:induction false} OrReplaceFound(s: string, i: nat, o: Option<(Key, Key)>, k: nat)
    requires OrReplaceOk(o) && At(s, i, OrReplaceText(o)) && k == i + |OrReplaceText(o)| && LetterAt(s, k, 'f')
    ensures OrReplace(s, i) == k && SolidAt(s, i)
  {
    hide At, IsKey, KeyText, OrReplace, LetterAt, SolidAt;
    LetterIsSolid(s, k, 'f');
    match o
    case None =>
      OrReplaceAbsent(s, i);
    case Some((a, b)) =>
      AtConcat(s, i, KeyText(a), KeyText(b));
      OrReplacePresent(s, i, a, b);
  }

  /** The name of a printed declaration ends at its gap, and the gap at the parenthesis. */
  lemma NameFound(s: string, name: string, gap: string, m: nat, n: nat, o: nat)
    requires IsWord(name) && Blank(gap)
    requires At(s, m, name) && n == m + |name|
    requires At(s, n, gap) && o == n + |gap| && o < |s| && s[o] == '('
    ensures m < n <= |s| && WordEnd(s, m) == n && SpaceEnd(s, n) == o && s[m..n] == name && SolidAt(s, m)
  {
    hide At, Blank, IsWord, WordEnd, SpaceEnd;
    GapStarts(s, n, gap);
    InText(s, m, name);
    NotEmpty(name);
    SpaceFound(s, n, gap);
    WordFound(s, m, name);
  }

  /** The keywords of a printed head are found one behind the other. */
  lemma {:induction false} KeysFound(s: string, create: Key, orReplace: Option<(Key, Key)>, func: Key,
                                     i: nat, j: nat, k: nat, m: nat)
    requires IsKey(create, "create") && OrReplaceOk(orReplace) && IsKey(func, "function")
    requires At(s, i, KeyText(create)) && j == i + |KeyText(create)|
    requires At(s, j, OrReplaceText(orReplace)) && k == j + |OrReplaceText(orReplace)|
    requires At(s, k, KeyText(func)) && m == k + |KeyText(func)| && SolidAt(s, m)
    ensures KeywordSpace(s, i, "create") == Some(j) && j <= |s|
    ensures OrReplace(s, j) == k && KeywordSpace(s, k, "function") == Some(m)
  {
    hide At, KeywordSpace, KeyText, OrReplace, OrReplaceText, OrReplaceOk, IsKey, LetterAt, SolidAt;
    FirstLetters();
    InText(s, i, KeyText(create));
    KeyFound(s, k, func, "function");
    OrReplaceFound(s, j, orReplace, k);
    KeyFound(s, i, create, "create");
  }

  lemma HeadFromParts(s: string, i: nat, j: nat, k: nat, m: nat, n: nat, o: nat)
    requires j <= |s| && m < n <= |s| && o < |s| && s[o] == '('
    requires KeywordSpace(s, i, "create") == Some(j) && OrReplace(s, j) == k && KeywordSpace(s, k, "function") == Some(m)
    requires WordEnd(s, m) == n && SpaceEnd(s, n) == o
    ensures HeadAt(s, i) == Some((s[m..n], o + 1))
  {
    hide KeywordSpace, OrReplace;
  }

  /** The parts of a printed head stand one behind the other. */
  lemma HeadPlaces(s: string, i: nat, h: Head, j: nat, k: nat, m: nat, n: nat, o: nat)
    requires At(s, i, HeadText(h))
    requires j == i + |KeyText(h.create)| && k == j + |OrReplaceText(h.orReplace)| && m == k + |KeyText(h.func)|
    requires n == m + |h.name| && o == n + |h.gap|
    ensures At(s, i, KeyText(h.create)) && At(s, j, OrReplaceText(h.orReplace)) && At(s, k, KeyText(h.func))
    ensures At(s, m, h.name) && At(s, n, h.gap) && o < |s| && s[o] == '('
    ensures i + |HeadText(h)| == o + 1
  {
    var h5 := h.gap + "(";
    var h4 := h.name + h5;
    var h3 := KeyText(h.func) + h4;
    var h2 := OrReplaceText(h.orReplace) + h3;
    hide At, KeyText, OrReplaceText;
    AtConcat(s, i, KeyText(h.create), h2);
    AtConcat(s, j, OrReplaceText(h.orReplace), h3);
    AtConcat(s, k, KeyText(h.func), h4);
    AtConcat(s, m, h.name, h5);
    AtConcat(s, n, h.gap, "(");
    AtChar(s, o, '(');
  }

  /** The head of a printed declaration is recognised where it stands. */
  lemma {:induction false} HeadFound(s: string, i: nat, h: Head)
    requires HeadOk(h) && At(s, i, HeadText(h))
    ensures HeadAt(s, i) == Some((h.name, i + |HeadText(h)|))
  {
    var j := i + |KeyText(h.create)|;
    var k := j + |OrReplaceText(h.orReplace)|;
    var m := k + |KeyText(h.func)|;
    var n := m + |h.name|;
    var o := n + |h.gap|;
    hide At, KeyText, OrReplaceText, HeadText, IsKey, OrReplaceOk, IsWord, Blank, HeadAt, KeywordSpace, OrReplace, SolidAt;
    HeadPlaces(s, i, h, j, k, m, n, o);
    NameFound(s, h.name, h.gap, m, n, o);
    KeysFound(s, h.create, h.orReplace, h.func, i, j, k, m);
    HeadFromParts(s, i, j, k, m, n, o);
  }

  lemma AtChar(s: string, i: nat, c: char)
    requires At(s, i, [c])
    ensures i < |s| && s[i] == c
  {
    AtChars(s, i, [c]);
  }

  /** Behind a name, space or a parenthesis ends the word. */
  lemma GapStarts(s: string, n: nat, gap: string)
    requires At(s, n, gap) && Blank(gap) && n + |gap| < |s| && s[n + |gap|] == '('
    ensures !IsWordChar(s[n])
  {
    AtChars(s, n, gap);
    assert gap != "" ==> s[n + 0] == gap[0];
  }

  // ---------- printed RETURNS clauses ----------

  lemma {:induction false} NotSetof(s: string, i: nat, w: string)
    requires At(s, i, w) && IsWord(w) && Lower(w) != "setof" && WordEnds(s, i + |w|)
    ensures KeywordSpace(s, i, "setof").None?
  {
    hide At, KeywordSpace, IsSpace, IsWord, Lower, WordEnds;
    if |w| < 5 {
      ShortWord(s, i, w);
    } else if |w| == 5 {
      OtherWord(s, i, w);
    } else {
      LongWord(s, i, w);
    }
  }

  lemma ShortWord(s: string, i: nat, w: string)
    requires At(s, i, w) && |w| < 5 && WordEnds(s, i + |w|)
    ensures KeywordSpace(s, i, "setof").None?
  {
    SetofLetters();
    hide KeywordSpace;
    if i + |w| < |s| {
      NotKeywordAt(s, i, "setof", |w|);
    } else {
      TooShort(s, i, "setof");
    }
  }

  lemma OtherWord(s: string, i: nat, w: string)
    requires At(s, i, w) && |w| == 5 && Lower(w) != "setof"
    ensures KeywordSpace(s, i, "setof").None?
  {
    AtChars(s, i, w);
    var k :| 0 <= k < 5 && Lower(w)[k] != "setof"[k];
    hide KeywordSpace;
    NotKeywordAt(s, i, "setof", k);
  }

  lemma LongWord(s: string, i: nat, w: string)
    requires At(s, i, w) && |w| > 5 && IsWord(w)
    ensures KeywordSpace(s, i, "setof").None?
  {
    AtChars(s, i, w);
    assert s[i + 5] == w[5];
    hide KeywordSpace;
    WordGoesOn(s, i, "setof");
  }

  lemma SetofLetters()
    ensures forall k :: 0 <= k < 5 ==> IsWordChar("setof"[k])
  {
  }

  lemma NotKeywordAt(s: string, i: nat, w: string, k: nat)
    requires k < |w| && i + k < |s| && LowerChar(s[i + k]) != w[k]
    ensures KeywordSpace(s, i, w).None?
  {
  }

  lemma TooShort(s: string, i: nat, w: string)
    requires |s| < i + |w|
    ensures KeywordSpace(s, i, w).None?
  {
  }

  lemma WordGoesOn(s: string, i: nat, w: string)
    requires i + |w| < |s| && IsWordChar(s[i + |w|])
    ensures KeywordSpace(s, i, w).None?
  {
  }

  lemma SetofPresent(s: string, setof: Key, b: nat, c: nat)
    requires IsKey(setof, "setof") && At(s, b, KeyText(setof)) && c == b + |KeyText(setof)| && SolidAt(s, c)
    ensures SolidAt(s, b) && KeywordSpace(s, b, "setof") == Some(c)
  {
    FirstLetters();
    hide At, KeywordSpace, KeyText, IsKey, LetterAt, SolidAt;
    KeyFound(s, b, setof, "setof");
    LetterIsSolid(s, b, 's');
  }

  lemma ReturnFromParts(s: string, i: nat, a: nat, b: nat, c: nat, e: nat)
    requires i <= |s| && SpaceEnd(s, i) == a && KeywordSpace(s, a, "returns") == Some(b)
    requires KeywordSpace(s, b, "setof") == Some(c) || (KeywordSpace(s, b, "setof").None? && c == b)
    requires c < e <= |s| && WordEnd(s, c) == e
    ensures ReturnAt(s, i) == s[c..e]
  {
    hide KeywordSpace;
  }

  /** The parts of a printed RETURNS clause stand one behind the other. */
  lemma ReturnsPlaces(s: string, i: nat, r: Returns, a: nat, b: nat, c: nat)
    requires At(s, i, ReturnsText(r))
    requires a == i + |r.before| && b == a + |KeyText(r.keyword)| && c == b + |SetofText(r.setof)|
    ensures At(s, i, r.before) && At(s, a, KeyText(r.keyword)) && At(s, b, SetofText(r.setof)) && At(s, c, r.ty)
    ensures i + |ReturnsText(r)| == c + |r.ty| && i <= |s|
  {
    var h3 := SetofText(r.setof) + r.ty;
    var h2 := KeyText(r.keyword) + h3;
    hide At, KeyText, SetofText;
    InText(s, i, ReturnsText(r));
    AtConcat(s, i, r.before, h2);
    AtConcat(s, a, KeyText(r.keyword), h3);
    AtConcat(s, b, SetofText(r.setof), r.ty);
  }

  /** The space and the keyword before a return type are found. */
  lemma {:induction false} ReturnsKeyFound(s: string, before: string, keyword: Key, i: nat, a: nat, b: nat)
    requires Blank(before) && IsKey(keyword, "returns")
    requires At(s, i, before) && a == i + |before|
    requires At(s, a, KeyText(keyword)) && b == a + |KeyText(keyword)| && SolidAt(s, b)
    ensures i <= |s| && SpaceEnd(s, i) == a && KeywordSpace(s, a, "returns") == Some(b)
  {
    hide At, KeywordSpace, KeyText, IsKey, LetterAt, SolidAt, Blank, SpaceEnd;
    FirstLetters();
    InText(s, i, before);
    KeyFound(s, a, keyword, "returns");
    LetterIsSolid(s, a, 'r');
    SpaceFound(s, i, before);
  }

  lemma AtJoin(s: string, i: nat, a: string, b: string)
    requires At(s, i, a) && At(s, i + |a|, b)
    ensures At(s, i, a + b)
  {
    assert s[i..i + |a| + |b|] == s[i..i + |a|] + s[i + |a|..i + |a| + |b|];
  }

  lemma WordGrows(s: string, i: nat)
    requires i <= |s|
    ensures WordStarts(s, i) <==> WordEnd(s, i) > i
    ensures WordStarts(s, i) ==> SolidAt(s, i)
  {
  }

  /** A keyword that is found, with its space, is one that can be printed. */
  lemma {:induction false} KeyIs(s: string, i: nat, w: string, j: nat) returns (k: Key)
    requires KeywordSpace(s, i, w) == Some(j) && NoCapitals(w)
    ensures IsKey(k, w) && At(s, i, KeyText(k)) && i + |KeyText(k)| == j
  {
    k := Key(s[i..i + |w|], s[i + |w|..j]);
    LowerMeans(k.text, w);
    hide Lower, SameLetters, NoCapitals;
    assert forall x :: 0 <= x < |w| ==> LowerChar(k.text[x]) == LowerChar(s[i + x]) == w[x];
    AtJoin(s, i, k.text, k.space);
  }

  /** The keyword SETOF with space and a word behind it. */
  lemma SetofThen(s: string, b: nat, ty: string, space: string)
    requires At(s, b, ty) && SameLetters(ty, "setof") && Blank(space) && space != "" && At(s, b + |ty|, space)
    requires WordStarts(s, b + |ty| + |space|)
    ensures KeywordSpace(s, b, "setof") == Some(b + |ty| + |space|) && WordEnd(s, b + |ty| + |space|) > b + |ty| + |space|
  {
    var k := Key(ty, space);
    FirstLetters();
    WordGrows(s, b + |ty| + |space|);
    hide KeywordSpace, At, SameLetters, Blank, WordStarts;
    AtJoin(s, b, ty, space);
    KeyFound(s, b, k, "setof");
  }

  lemma ReturnPlain(s: string, i: nat, a: nat, b: nat, e: nat)
    requires i <= |s| && SpaceEnd(s, i) == a && KeywordSpace(s, a, "returns") == Some(b)
    requires KeywordSpace(s, b, "setof").Some? ==> !WordStarts(s, KeywordSpace(s, b, "setof").value)
    requires b < e <= |s| && WordEnd(s, b) == e
    ensures ReturnAt(s, i) == s[b..e]
  {
    hide KeywordSpace;
  }

  lemma SetofSpace(s: string, b: nat, ty: string, c: nat)
    requires At(s, b, ty) && |ty| == 5 && KeywordSpace(s, b, "setof") == Some(c) && NoWordBehind(s, b + 5)
    ensures !WordStarts(s, c)
  {
    hide WordStarts;
    var space := s[b + 5..c];
    assert At(s, b + 5, space) && Blank(space) && space != "";
  }

  /** A type that is not followed by what SETOF is followed by is not taken for it. */
  lemma {:induction false} PlainType(s: string, b: nat, ty: string)
    requires At(s, b, ty) && IsWord(ty) && WordEnds(s, b + |ty|)
    requires SameLetters(ty, "setof") ==> NoWordBehind(s, b + |ty|)
    ensures KeywordSpace(s, b, "setof").Some? ==> !WordStarts(s, KeywordSpace(s, b, "setof").value)
  {
    LowerMeans(ty, "setof");
    FirstLetters();
    hide *;
    if Lower(ty) == "setof" {
      if KeywordSpace(s, b, "setof").Some? {
        SetofSpace(s, b, ty, KeywordSpace(s, b, "setof").value);
      }
    } else {
      NotSetof(s, b, ty);
    }
  }

  /** The word behind `returns` stands there, a type or the keyword SETOF. */
  lemma {:induction false} ClauseWord(s: string, r: Returns, b: nat, c: nat)
    requires ReturnsOk(r) && At(s, b, SetofText(r.setof)) && c == b + |SetofText(r.setof)| && At(s, c, r.ty)
    ensures WordStarts(s, b) && WordStarts(s, c)
    ensures r.setof.Some? ==> KeywordSpace(s, b, "setof") == Some(c)
  {
    AtChars(s, c, r.ty);
    assert s[c + 0] == r.ty[0];
    WordGrows(s, c);
    if r.setof.Some? {
      var k := r.setof.value;
      FirstLetters();
      AtConcat(s, b, k.text, k.space);
      AtChars(s, b, k.text);
      assert s[b + 0] == k.text[0] && SameLetter(k.text[0], "setof"[0]);
      hide At, SameLetters, KeywordSpace, Blank, IsWord;
      SetofPresent(s, k, b, c);
    }
  }

  /** The keyword of a RETURNS clause is found where the clause stands, and a word behind it. */
  lemma {:induction false} ClauseStarts(s: string, i: nat, r: Returns, a: nat, b: nat)
    requires ReturnsOk(r) && At(s, i, ReturnsText(r)) && a == i + |r.before| && b == a + |KeyText(r.keyword)|
    ensures i <= |s| && SpaceEnd(s, i) == a && KeywordSpace(s, a, "returns") == Some(b) && WordStarts(s, b)
    ensures r.setof.Some? ==> KeywordSpace(s, b, "setof") == Some(b + |SetofText(r.setof)|)
  {
    var c := b + |SetofText(r.setof)|;
    hide At, KeyText, SetofText, ReturnsText, KeywordSpace, IsKey, IsWord, Blank, WordStarts, SolidAt;
    ReturnsPlaces(s, i, r, a, b, c);
    ClauseWord(s, r, b, c);
    StartsSolid(s, b);
    ReturnsKeyFound(s, r.before, r.keyword, i, a, b);
  }

  lemma StartsSolid(s: string, i: nat)
    requires WordStarts(s, i)
    ensures SolidAt(s, i)
  {
  }

  lemma TypeIsWord(r: Returns)
    requires ReturnsOk(r)
    ensures IsWord(r.ty) && r.ty != "" && (r.setof.None? ==> SetofText(r.setof) == "")
  {
  }

  lemma {:induction false} TypeFound(s: string, c: nat, ty: string)
    requires At(s, c, ty) && IsWord(ty) && ty != "" && WordEnds(s, c + |ty|)
    ensures c + |ty| <= |s| && WordEnd(s, c) == c + |ty| && s[c..c + |ty|] == ty
  {
    hide *;
    InText(s, c, ty);
    WordFound(s, c, ty);
  }

  lemma ClearMeans(s: string, r: Returns, end: nat)
    ensures SetofClear(s, r, end) <==> r.setof.Some? || (SameLetters(r.ty, "setof") ==> NoWordBehind(s, end))
  {
    hide SameLetters, NoWordBehind;
  }

  /** The return type of a printed declaration is read where its RETURNS clause stands. */
  lemma {:induction false} ReturnFound(s: string, i: nat, r: Returns)
    requires ReturnsOk(r) && At(s, i, ReturnsText(r))
    requires WordEnds(s, i + |ReturnsText(r)|) && SetofClear(s, r, i + |ReturnsText(r)|)
    ensures ReturnAt(s, i) == r.ty
  {
    hide *;
    var a := i + |r.before|;
    var b := a + |KeyText(r.keyword)|;
    var c := b + |SetofText(r.setof)|;
    TypeIsWord(r);
    ClearMeans(s, r, i + |ReturnsText(r)|);
    ReturnsPlaces(s, i, r, a, b, c);
    ClauseStarts(s, i, r, a, b);
    TypeFound(s, c, r.ty);
    if r.setof.Some? {
      ReturnFromParts(s, i, a, b, c, c + |r.ty|);
    } else {
      PlainType(s, b, r.ty);
      ReturnPlain(s, i, a, b, c + |r.ty|);
    }
  }

  lemma {:induction false} ShowsSetof(s: string, i: nat, a: nat, keyword: Key, b: nat, c: nat) returns (r: Returns)
    requires i <= |s| && SpaceEnd(s, i) == a && IsKey(keyword, "returns") && At(s, a, KeyText(keyword)) && a + |KeyText(keyword)| == b
    requires KeywordSpace(s, b, "setof") == Some(c) && c < WordEnd(s, c)
    ensures ReturnsOk(r) && At(s, i, ReturnsText(r)) && r.ty == s[c..WordEnd(s, c)] && r.setof.Some?
    ensures i + |ReturnsText(r)| == WordEnd(s, c)
  {
    FirstLetters();
    var setof := KeyIs(s, b, "setof", c);
    r := Returns(s[i..a], keyword, Some(setof), s[c..WordEnd(s, c)]);
    hide KeywordSpace, KeyText, IsKey, WordEnd, SpaceEnd;
    ClauseAt(s, i, r, a, b, c);
  }

  lemma {:induction false} ShowsPlain(s: string, i: nat, a: nat, keyword: Key, b: nat) returns (r: Returns)
    requires i <= |s| && SpaceEnd(s, i) == a && IsKey(keyword, "returns") && At(s, a, KeyText(keyword)) && a + |KeyText(keyword)| == b
    requires b < WordEnd(s, b)
    ensures ReturnsOk(r) && At(s, i, ReturnsText(r)) && r.ty == s[b..WordEnd(s, b)] && r.setof.None?
    ensures i + |ReturnsText(r)| == WordEnd(s, b)
  {
    r := Returns(s[i..a], keyword, None, s[b..WordEnd(s, b)]);
    hide KeywordSpace, KeyText, IsKey, WordEnd, SpaceEnd;
    ClauseAt(s, i, r, a, b, b);
  }

  lemma {:induction false} PlainIsClear(s: string, b: nat, e: nat)
    requires b < e <= |s| && (KeywordSpace(s, b, "setof").Some? ==> WordEnd(s, KeywordSpace(s, b, "setof").value) <= KeywordSpace(s, b, "setof").value)
    ensures SameLetters(s[b..e], "setof") ==> NoWordBehind(s, e)
  {
    hide KeywordSpace, SameLetters, WordEnd, WordStarts, Blank;
    var ty := s[b..e];
    forall space | SameLetters(ty, "setof") && Blank(space) && space != "" && At(s, e, space)
      ensures !WordStarts(s, e + |space|)
    {
      if WordStarts(s, e + |space|) {
        SetofThen(s, b, ty, space);
      }
    }
  }

  /** Where the pattern ends, and how it reads what is behind `returns`. */
  lemma {:induction false} ReturnParts(s: string, i: nat) returns (a: nat, b: nat)
    requires i <= |s| && ReturnAt(s, i) != ""
    ensures SpaceEnd(s, i) == a && KeywordSpace(s, a, "returns") == Some(b) && b <= |s|
    ensures var after := KeywordSpace(s, b, "setof");
      if after.Some? && WordEnd(s, after.value) > after.value then ReturnAt(s, i) == s[after.value..WordEnd(s, after.value)]
      else b < WordEnd(s, b) && ReturnAt(s, i) == s[b..WordEnd(s, b)]
  {
    a := SpaceEnd(s, i);
    b := KeywordSpace(s, a, "returns").value;
    hide KeywordSpace, WordEnd, SpaceEnd;
  }

  lemma WordStops(s: string, i: nat)
    requires i <= |s|
    ensures WordEnds(s, WordEnd(s, i))
  {
  }

  /** What is read as a return type stands there as a RETURNS clause. */
  lemma {:induction false} ReturnShows(s: string, i: nat) returns (r: Returns)
    requires i <= |s| && ReturnAt(s, i) != ""
    ensures ReturnsOk(r) && At(s, i, ReturnsText(r)) && r.ty == ReturnAt(s, i)
    ensures WordEnds(s, i + |ReturnsText(r)|) && SetofClear(s, r, i + |ReturnsText(r)|)
  {
    FirstLetters();
    hide *;
    var a, b := ReturnParts(s, i);
    var keyword := KeyIs(s, a, "returns", b);
    var after := KeywordSpace(s, b, "setof");
    if after.Some? && WordEnd(s, after.value) > after.value {
      r := ShowsSetof(s, i, a, keyword, b, after.value);
      WordStops(s, after.value);
    } else {
      r := ShowsPlain(s, i, a, keyword, b);
      PlainIsClear(s, b, WordEnd(s, b));
      WordStops(s, b);
    }
    ClearMeans(s, r, i + |ReturnsText(r)|);
  }

  lemma ClauseAt(s: string, i: nat, r: Returns, a: nat, b: nat, c: nat)
    requires At(s, i, r.before) && a == i + |r.before| && At(s, a, KeyText(r.keyword)) && b == a + |KeyText(r.keyword)|
    requires At(s, b, SetofText(r.setof)) && c == b + |SetofText(r.setof)| && At(s, c, r.ty)
    ensures At(s, i, ReturnsText(r)) && i + |ReturnsText(r)| == c + |r.ty|
  {
    hide At, KeyText, SetofText;
    AtJoin(s, b, SetofText(r.setof), r.ty);
    AtJoin(s, a, KeyText(r.keyword), SetofText(r.setof) + r.ty);
    AtJoin(s, i, r.before, KeyText(r.keyword) + (SetofText(r.setof) + r.ty));
  }

  /** No return type is read exactly where no RETURNS clause stands. */
  lemma {:induction false} NoClauseMeans(s: string, i: nat)
    requires i <= |s|
    ensures ReturnAt(s, i) == "" <==> NoClause(s, i)
  {
    hide At, ReturnsOk, ReturnsText, ReturnAt;
    if ReturnAt(s, i) != "" {
      var r := ReturnShows(s, i);
    }
    forall r | ReturnsOk(r) && At(s, i, ReturnsText(r)) ensures ReturnAt(s, i) != "" {
      var a := i + |r.before|;
      ClauseStarts(s, i, r, a, a + |KeyText(r.keyword)|);
      SomeReturn(s, i, a, a + |KeyText(r.keyword)|);
    }
  }

  lemma SomeReturn(s: string, i: nat, a: nat, b: nat)
    requires i <= |s| && SpaceEnd(s, i) == a && KeywordSpace(s, a, "returns") == Some(b) && WordStarts(s, b)
    ensures ReturnAt(s, i) != ""
  {
    hide KeywordSpace;
    WordGrows(s, b);
  }

  // ---------- printed declarations are read ----------

  lemma {:induction false} ArgumentsClose(s: string, e: nat, args: string)
    requires At(s, e, args) && e + |args| < |s| && s[e + |args|] == ')' && Nested(args)
    ensures Close(s, e, 1) == Some(e + |args| + 1) && s[e..e + |args|] == args
  {
    CloseIs(s, e, 1, e + |args|);
  }

  lemma {:induction false} DeclFromParts(s: string, name: string, e: nat, args: string, ret: string)
    requires At(s, e, args) && e + |args| < |s| && s[e + |args|] == ')' && Nested(args)
    requires ReturnAt(s, e + |args| + 1) == ret
    ensures e <= |s| && DeclFrom(s, name, e) == [Decl(name, args, ret)]
  {
    ArgumentsClose(s, e, args);
    hide Close, ReturnAt, At, Nested;
  }

  lemma NoClauseText(s: string, i: nat)
    requires i <= |s|
    ensures ClauseText(None) == "" && At(s, i, "") && (ClauseEnds(s, None, i) <==> NoClause(s, i))
  {
    hide NoClause;
  }

  lemma SomeClauseText(s: string, r: Returns, end: nat)
    ensures ClauseText(Some(r)) == ReturnsText(r) && (ClauseEnds(s, Some(r), end) <==> WordEnds(s, end) && SetofClear(s, r, end))
  {
    hide ReturnsText, WordEnds, SetofClear;
  }

  /** The clause of a printed declaration, or its absence, is read behind the arguments. */
  lemma {:induction false} ClauseFound(s: string, i: nat, clause: Option<Returns>)
    requires clause.Some? ==> ReturnsOk(clause.value)
    requires At(s, i, ClauseText(clause)) && ClauseEnds(s, clause, i + |ClauseText(clause)|)
    ensures i <= |s| && ReturnAt(s, i) == if clause.Some? then clause.value.ty else ""
  {
    hide *;
    InText(s, i, ClauseText(clause));
    match clause
    case None =>
      NoClauseText(s, i);
      NoClauseMeans(s, i);
    case Some(r) =>
      SomeClauseText(s, r, i + |ClauseText(clause)|);
      ReturnFound(s, i, r);
  }

  /** The parts of a printed declaration stand one behind the other. */
  lemma {:induction false} PrintedPlaces(s: string, i: nat, d: Printed, e: nat, j: nat)
    requires At(s, i, PrintedText(d)) && e == i + |HeadText(d.head)| && j == e + |d.args|
    ensures At(s, i, HeadText(d.head)) && At(s, e, d.args) && j < |s| && s[j] == ')' && At(s, j + 1, ClauseText(d.clause))
    ensures i + |PrintedText(d)| == j + 1 + |ClauseText(d.clause)|
  {
    hide At, HeadText, ClauseText;
    AtConcat(s, i, HeadText(d.head), d.args + (")" + ClauseText(d.clause)));
    AtConcat(s, e, d.args, ")" + ClauseText(d.clause));
    AtConcat(s, j, ")", ClauseText(d.clause));
    AtChar(s, j, ')');
  }

  /**
   * A printed declaration, wherever it stands in a text, is read back: its name, its arguments
   * and its return type, or "" where it has no RETURNS clause.
   */
  lemma {:induction false} DeclarationRoundTrip(s: string, i: nat, d: Printed)
    requires PrintedAt(s, i, d)
    ensures var e := i + |HeadText(d.head)|;
      HeadAt(s, i) == Some((d.head.name, e)) && e <= |s| && DeclFrom(s, d.head.name, e) == [DeclOf(d)]
  {
    var e := i + |HeadText(d.head)|;
    var j := e + |d.args|;
    hide At, HeadOk, ReturnsOk, HeadText, ClauseText, PrintedText, ClauseEnds, HeadAt, DeclFrom, ReturnAt, Nested;
    PrintedPlaces(s, i, d, e, j);
    HeadFound(s, i, d.head);
    ClauseFound(s, j + 1, d.clause);
    DeclFromParts(s, d.head.name, e, d.args, ReturnAt(s, j + 1));
  }

  lemma {:induction false} HeadIsMember(s: string, i: nat, q: nat)
    requires i <= q < |s| && HeadAt(s, q).Some?
    ensures forall d :: d in DeclFrom(s, HeadAt(s, q).value.0, HeadAt(s, q).value.1) ==> d in EveryHead(s, i)
    decreases q - i
  {
    hide HeadAt, DeclFrom;
    if i == q {
    } else {
      HeadIsMember(s, i + 1, q);
    }
  }

  lemma HeadInside(s: string, i: nat)
    requires HeadAt(s, i).Some?
    ensures i < |s|
  {
  }

  /** The scan of a text yields every declaration printed in it, wherever that stands. */
  lemma {:induction false} ScanFindsPrinted(s: string, i: nat, d: Printed)
    requires PrintedAt(s, i, d)
    ensures DeclOf(d) in Decls(s, 0)
  {
    hide PrintedAt, HeadText, HeadAt, DeclFrom, DeclOf, Decls, EveryHead;
    DeclarationRoundTrip(s, i, d);
    HeadInside(s, i);
    EveryHeadIsYielded(s, 0);
    HeadIsMember(s, 0, i);
  }

  // ---------- what is yielded is a declaration ----------

  lemma {:induction false} OrReplaceShows(s: string, i: nat) returns (o: Option<(Key, Key)>)
    requires i <= |s|
    ensures OrReplaceOk(o) && At(s, i, OrReplaceText(o)) && i + |OrReplaceText(o)| == OrReplace(s, i)
  {
    FirstLetters();
    hide KeywordSpace, IsKey, KeyText, NoCapitals;
    var j := KeywordSpace(s, i, "or");
    if j.Some? && KeywordSpace(s, j.value, "replace").Some? {
      var a := KeyIs(s, i, "or", j.value);
      var b := KeyIs(s, j.value, "replace", KeywordSpace(s, j.value, "replace").value);
      o := Some((a, b));
      hide At;
      AtJoin(s, i, KeyText(a), KeyText(b));
    } else {
      o := None;
    }
  }

  lemma {:induction false} HeadParts(s: string, i: nat) returns (j: nat, k: nat, m: nat, n: nat, o: nat)
    requires HeadAt(s, i).Some?
    ensures KeywordSpace(s, i, "create") == Some(j) && j <= |s| && OrReplace(s, j) == k && KeywordSpace(s, k, "function") == Some(m)
    ensures m <= |s| && WordEnd(s, m) == n && SpaceEnd(s, n) == o && m < n && o < |s| && s[o] == '('
    ensures HeadAt(s, i) == Some((s[m..n], o + 1))
  {
    hide KeywordSpace, OrReplace, WordEnd, SpaceEnd;
    j := KeywordSpace(s, i, "create").value;
    k := OrReplace(s, j);
    m := KeywordSpace(s, k, "function").value;
    n := WordEnd(s, m);
    o := SpaceEnd(s, n);
  }

  lemma NameShows(s: string, m: nat, n: nat, o: nat)
    requires m <= |s| && WordEnd(s, m) == n && SpaceEnd(s, n) == o && m < n && o < |s| && s[o] == '('
    ensures IsWord(s[m..n]) && Blank(s[n..o]) && At(s, m, s[m..n]) && At(s, n, s[n..o] + "(")
  {
    hide WordEnd, SpaceEnd;
    assert s[n..o + 1] == s[n..o] + "(";
  }

  lemma HeadJoin(s: string, i: nat, h: Head, j: nat, k: nat, m: nat, n: nat)
    requires At(s, i, KeyText(h.create)) && j == i + |KeyText(h.create)|
    requires At(s, j, OrReplaceText(h.orReplace)) && k == j + |OrReplaceText(h.orReplace)|
    requires At(s, k, KeyText(h.func)) && m == k + |KeyText(h.func)|
    requires At(s, m, h.name) && n == m + |h.name| && At(s, n, h.gap + "(")
    ensures At(s, i, HeadText(h)) && i + |HeadText(h)| == n + |h.gap| + 1
  {
    hide At, KeyText, OrReplaceText;
    AtJoin(s, m, h.name, h.gap + "(");
    AtJoin(s, k, KeyText(h.func), h.name + (h.gap + "("));
    AtJoin(s, j, OrReplaceText(h.orReplace), KeyText(h.func) + (h.name + (h.gap + "(")));
    AtJoin(s, i, KeyText(h.create), OrReplaceText(h.orReplace) + (KeyText(h.func) + (h.name + (h.gap + "("))));
  }

  lemma HeadFromKeys(h: Head)
    requires IsKey(h.create, "create") && OrReplaceOk(h.orReplace) && IsKey(h.func, "function") && IsWord(h.name) && Blank(h.gap)
    ensures HeadOk(h)
  {
    hide IsKey, OrReplaceOk, IsWord, Blank;
  }

  /** What is taken for a head is one that can be printed. */
  lemma {:induction false} HeadShows(s: string, i: nat) returns (h: Head)
    requires HeadAt(s, i).Some?
    ensures HeadOk(h) && At(s, i, HeadText(h)) && HeadAt(s, i) == Some((h.name, i + |HeadText(h)|))
  {
    FirstLetters();
    hide *;
    var j, k, m, n, o := HeadParts(s, i);
    var create := KeyIs(s, i, "create", j);
    var orReplace := OrReplaceShows(s, j);
    var func := KeyIs(s, k, "function", m);
    NameShows(s, m, n, o);
    h := Head(create, orReplace, func, s[m..n], s[n..o]);
    HeadFromKeys(h);
    HeadJoin(s, i, h, j, k, m, n);
  }

  /** The pattern matches exactly where a head stands, and gives its name and its end. */
  lemma {:induction false} HeadMeans(s: string, i: nat, name: string, e: nat)
    ensures HeadAt(s, i) == Some((name, e)) <==>
      exists h :: HeadOk(h) && At(s, i, HeadText(h)) && name == h.name && e == i + |HeadText(h)|
  {
    hide *;
    if HeadAt(s, i) == Some((name, e)) {
      var h := HeadShows(s, i);
    }
    forall h | HeadOk(h) && At(s, i, HeadText(h)) && name == h.name && e == i + |HeadText(h)|
      ensures HeadAt(s, i) == Some((name, e))
    {
      HeadFound(s, i, h);
    }
  }

  lemma {:induction false} MemberHasHead(s: string, i: nat, d: Decl) returns (q: nat)
    requires i <= |s| && d in EveryHead(s, i)
    ensures i <= q < |s| && HeadAt(s, q).Some? && d in DeclFrom(s, HeadAt(s, q).value.0, HeadAt(s, q).value.1)
    decreases |s| - i
  {
    hide HeadAt, DeclFrom;
    if HeadAt(s, i).Some? && d in DeclFrom(s, HeadAt(s, i).value.0, HeadAt(s, i).value.1) {
      q := i;
    } else {
      q := MemberHasHead(s, i + 1, d);
    }
  }

  lemma {:induction false} ClauseShows(s: string, i: nat) returns (clause: Option<Returns>)
    requires i <= |s|
    ensures clause.Some? ==> ReturnsOk(clause.value)
    ensures At(s, i, ClauseText(clause)) && ClauseEnds(s, clause, i + |ClauseText(clause)|)
    ensures ReturnAt(s, i) == if clause.Some? then clause.value.ty else ""
  {
    hide *;
    if ReturnAt(s, i) == "" {
      NoClauseMeans(s, i);
      NoClauseText(s, i);
      clause := None;
    } else {
      var r := ReturnShows(s, i);
      SomeClauseText(s, r, i + |ReturnsText(r)|);
      clause := Some(r);
    }
  }

  lemma {:induction false} ArgumentsShow(s: string, name: string, e: nat, d: Decl) returns (r: nat)
    requires e <= |s| && d in DeclFrom(s, name, e)
    ensures e < r <= |s| && s[r - 1] == ')' && Nested(s[e..r - 1]) && d == Decl(name, s[e..r - 1], ReturnAt(s, r))
  {
    hide ReturnAt, Nested;
    MatchingParenthesis(s, e);
    r := Close(s, e, 1).value;
  }

  lemma {:induction false} PrintedJoin(s: string, i: nat, d: Printed, e: nat, j: nat)
    requires At(s, i, HeadText(d.head)) && e == i + |HeadText(d.head)| && At(s, e, d.args) && j == e + |d.args|
    requires j < |s| && s[j] == ')' && At(s, j + 1, ClauseText(d.clause))
    ensures At(s, i, PrintedText(d)) && i + |PrintedText(d)| == j + 1 + |ClauseText(d.clause)|
  {
    ParenthesisAt(s, j);
    hide At, HeadText, ClauseText;
    AtJoin(s, j, ")", ClauseText(d.clause));
    AtJoin(s, e, d.args, ")" + ClauseText(d.clause));
    AtJoin(s, i, HeadText(d.head), d.args + (")" + ClauseText(d.clause)));
  }

  lemma ParenthesisAt(s: string, j: nat)
    requires j < |s| && s[j] == ')'
    ensures At(s, j, ")")
  {
  }

  lemma PrintedFromParts(s: string, i: nat, d: Printed)
    requires HeadOk(d.head) && Nested(d.args) && (d.clause.Some? ==> ReturnsOk(d.clause.value))
    requires At(s, i, PrintedText(d)) && ClauseEnds(s, d.clause, i + |PrintedText(d)|)
    ensures PrintedAt(s, i, d)
  {
    hide HeadOk, Nested, ReturnsOk, At, ClauseEnds, PrintedText;
  }

  /** What is yielded stands in the text as a printed declaration. */
  lemma {:induction false} YieldedIsPrinted(s: string, d: Decl) returns (i: nat, p: Printed)
    requires d in Decls(s, 0)
    ensures PrintedAt(s, i, p) && DeclOf(p) == d
  {
    hide HeadAt, DeclFrom, At, HeadOk, ReturnsOk, Nested, ClauseEnds, PrintedAt, ReturnAt, HeadText, ClauseText, PrintedText, Decls, EveryHead;
    EveryHeadIsYielded(s, 0);
    i := MemberHasHead(s, 0, d);
    var h := HeadShows(s, i);
    var e := i + |HeadText(h)|;
    InText(s, i, HeadText(h));
    var r := ArgumentsShow(s, h.name, e, d);
    var clause := ClauseShows(s, r);
    p := Printed(h, s[e..r - 1], clause);
    assert At(s, e, s[e..r - 1]) by {
      SliceAt(s, e, r - 1);
    }
    PrintedJoin(s, i, p, e, r - 1);
    PrintedFromParts(s, i, p);
  }

  lemma SliceAt(s: string, i: nat, j: nat)
    requires i <= j <= |s|
    ensures At(s, i, s[i..j])
  {
  }

  /** The scan yields exactly the declarations that stand in the text. */
  lemma {:induction false} ScanMeans(s: string, d: Decl)
    ensures d in Decls(s, 0) <==> exists i, p :: PrintedAt(s, i, p) && DeclOf(p) == d
  {
    hide *;
    if d in Decls(s, 0) {
      var i, p := YieldedIsPrinted(s, d);
    }
    forall i, p | PrintedAt(s, i, p) && DeclOf(p) == d ensures d in Decls(s, 0) {
      ScanFindsPrinted(s, i, p);
    }
  }
}
