/**
 * `parse_failures` of scripts/update_test_expected.py.
 *
 * A line is first turned into a token with the answers to the tests the parser makes on it. A list of
 * tokens is then cut up, in the one way there is, into a log: items of noise, a header, filler, the
 * marker, bars and the lines of a result, and a tail that holds no whole item. The parser's loops
 * return what the items of that log report, so what is proved about logs is proved about the parser:
 * that it reads back what a log of any failures prints, and where the blocks it returns lie.
 */
module FailureLog {
  import opened Text
  import opened Lines

  /** One reported failure: the test file, the line of its query, and what the query returned. */
  datatype Failure = Failure(path: string, line: nat, actual: seq<string>)

  // ---------- the header line ----------

  const HEADER := "Wrong result in query! ("

  /** The end of the run of digits of `s` starting at `i`. */
  function DigitsEnd(s: string, i: nat): (r: nat)
    requires i <= |s|
    ensures i <= r <= |s|
    ensures forall k :: i <= k < r ==> IsDigit(s[k])
    ensures r < |s| ==> !IsDigit(s[r])
    decreases |s| - i
  {
    if i == |s| || !IsDigit(s[i]) then i else DigitsEnd(s, i + 1)
  }

  /** `:(\d+)\)!` matches at `k`. */
  predicate TailAt(s: string, k: nat) {
    && k < |s|
    && s[k] == ':'
    && var d := DigitsEnd(s, k + 1);
       k + 1 < d && d + 2 <= |s| && s[d..d + 2] == ")!"
  }

  /** The last position in `[lo, hi)` where the tail matches: the one a greedy `.+` stops at. */
  function LastTail(s: string, lo: nat, hi: nat): (r: Option<nat>)
    ensures r.Some? ==> lo <= r.value < hi && TailAt(s, r.value)
    ensures forall k :: (if r.Some? then r.value + 1 else lo) <= k < hi ==> !TailAt(s, k)
    decreases hi
  {
    if hi <= lo then None
    else if TailAt(s, hi - 1) then Some(hi - 1)
    else LastTail(s, lo, hi - 1)
  }

  /** `re.match(r'Wrong result in query! \((.+):(\d+)\)!', line.strip())`. */
  function MatchHeader(line: string): Option<(string, nat)> {
    var s := Strip(line);
    if HEADER <= s then
      match LastTail(s, |HEADER| + 1, |s|)
      case None => None
      case Some(k) => Some((s[|HEADER|..k], DecimalValue(s[k + 1..DigitsEnd(s, k + 1)])))
    else
      None
  }

  /** The header the test runner prints. */
  function HeaderLine(path: string, line: nat): string {
    HEADER + path + ":" + Decimal(line) + ")!"
  }

  lemma {:induction false} DigitsEndAt(s: string, i: nat, d: nat)
    requires i <= d <= |s|
    requires forall k :: i <= k < d ==> IsDigit(s[k])
    requires d < |s| ==> !IsDigit(s[d])
    ensures DigitsEnd(s, i) == d
    decreases d - i
  {
    if i == d {
    } else {
      DigitsEndAt(s, i + 1, d);
    }
  }

  lemma {:induction false} LastTailAt(s: string, lo: nat, k: nat, hi: nat)
    requires lo <= k < hi && TailAt(s, k)
    requires forall i :: k < i < hi ==> !TailAt(s, i)
    ensures LastTail(s, lo, hi) == Some(k)
    decreases hi
  {
    if k < hi - 1 {
      LastTailAt(s, lo, k, hi - 1);
    }
  }

  /** In `head:digits)!` the tail matches at the colon after the head and nowhere later. */
  lemma TailOfHeader(head: string, digits: string)
    requires digits != "" && forall i :: 0 <= i < |digits| ==> IsDigit(digits[i])
    ensures var s, k := head + ":" + digits + ")!", |head|;
      && TailAt(s, k)
      && (forall i :: k < i < |s| ==> !TailAt(s, i))
      && DigitsEnd(s, k + 1) == |s| - 2
      && s[k + 1..|s| - 2] == digits
      && s[..k] == head
  {
    var s, k := head + ":" + digits + ")!", |head|;
    forall i | k < i < |s| - 2 ensures IsDigit(s[i]) {
      assert s[i] == digits[i - (k + 1)];
    }
    DigitsEndAt(s, k + 1, |s| - 2);
    assert s[|s| - 2..|s|] == ")!";
  }

  /** The greedy match recovers any non-empty path, colons and all, and the line number. */
  lemma HeaderRoundTrip(a: string, path: string, line: nat, b: string)
    requires path != "" && Blank(a) && Blank(b)
    ensures MatchHeader(a + HeaderLine(path, line) + b) == Some((path, line))
  {
    hide TailAt, LastTail, DigitsEnd, LeftStrip, RightStrip, DecimalValue, Decimal;
    var s := HeaderLine(path, line);
    var k := |HEADER| + |path|;
    assert s[0] == 'W' && s[|s| - 1] == '!';
    StripPad(a, s, b);
    TailOfHeader(HEADER + path, Decimal(line));
    LastTailAt(s, |HEADER| + 1, k, |s|);
    assert HEADER <= s && s[|HEADER|..k] == path;
    DecimalRoundTrip(line);
  }

  ghost predicate DecimalText(digits: string) {
    digits != "" && forall i :: 0 <= i < |digits| ==> IsDigit(digits[i])
  }

  function Opening(path: string, digits: string): string {
    "Wrong result in query! (" + path + ":" + digits + ")!"
  }

  /** The line opens, past blanks, as the header of a failure in `path` at the line `digits`; what follows is free. */
  ghost predicate OpensAs(line: string, path: string, digits: string) {
    && path != "" && DecimalText(digits)
    && exists a, rest :: Blank(a) && line == a + Opening(path, digits) + rest
  }

  /** Stripping cuts nothing off up to a character that is no space. */
  lemma StripKeeps(a: string, t: string, i: nat)
    requires Blank(a) && i < |t| && !IsSpace(t[0]) && !IsSpace(t[i])
    ensures i < |Strip(a + t)| && Strip(a + t) <= t
  {
    hide LeftStrip, RightStrip;
    var b := RightStripSplits(t);
    var x := RightStrip(t);
    assert forall k :: |x| <= k < |t| ==> t[k] == b[k - |x|];
    StripPad(a, x, b);
    assert a + t == a + x + b;
  }

  lemma OpeningSlices(path: string, digits: string)
    ensures var o, k := Opening(path, digits), |HEADER| + |path|;
      var d := k + 1 + |digits|;
      && |o| == d + 2
      && o[..|HEADER|] == HEADER && o[|HEADER|..k] == path && o[k + 1..d] == digits && o[d..d + 2] == ")!"
      && o[k] == ':' && o[d] == ')'
  {
    var a, k := "Wrong result in query! (", |HEADER| + |path|;
    assert HEADER == a;
    assert Opening(path, digits) == a + (path + (":" + (digits + ")!")));
  }

  lemma {:induction false} TailOfDigits(s: string, k: nat, digits: string)
    requires DecimalText(digits) && k + |digits| + 3 <= |s|
    requires s[k] == ':' && s[k + 1..k + 1 + |digits|] == digits && s[k + 1 + |digits|..k + 3 + |digits|] == ")!"
    ensures TailAt(s, k) && DigitsEnd(s, k + 1) == k + 1 + |digits|
  {
    var d := k + 1 + |digits|;
    DigitsAt(s, k + 1, digits);
    assert s[d] == s[d..d + 2][0] == ')';
    assert !IsDigit(s[d]) && digits != "";
    hide *;
    DigitsEndAt(s, k + 1, d);
    TailFromParts(s, k, d);
  }

  lemma TailFromParts(s: string, k: nat, d: nat)
    requires k + 1 < d && d + 2 <= |s| && s[k] == ':' && DigitsEnd(s, k + 1) == d && s[d..d + 2] == ")!"
    ensures TailAt(s, k)
  {
    hide DigitsEnd;
  }

  lemma OpeningInPlace(s: string, path: string, digits: string, k: nat)
    requires Opening(path, digits) <= s && k == |HEADER| + |path|
    ensures var d := k + 1 + |digits|;
      d + 2 <= |s| && HEADER <= s && s[|HEADER|..k] == path && s[k] == ':' && s[k + 1..d] == digits && s[d..d + 2] == ")!"
  {
    OpeningSlices(path, digits);
    var n := |Opening(path, digits)|;
    assert Opening(path, digits) == s[..n];
    hide *;
    PrefixSlices(s, n, |HEADER|, k, k + 1 + |digits|);
  }

  lemma DigitsAt(s: string, i: nat, digits: string)
    requires DecimalText(digits) && i + |digits| <= |s| && s[i..i + |digits|] == digits
    ensures forall k :: i <= k < i + |digits| ==> IsDigit(s[k])
  {
    forall k | i <= k < i + |digits| ensures IsDigit(s[k]) {
      assert s[k] == s[i..i + |digits|][k - i];
    }
  }

  lemma PrefixSlices(s: string, n: nat, h: nat, k: nat, d: nat)
    requires h <= k < d && d + 2 == n <= |s|
    ensures var o := s[..n];
      && o[..h] == s[..h] && o[h..k] == s[h..k] && o[k + 1..d] == s[k + 1..d] && o[d..d + 2] == s[d..d + 2]
      && o[k] == s[k] && o[d] == s[d]
  {
  }

  lemma PartsOpening(s: string, k: nat)
    requires HEADER <= s && |HEADER| <= k && TailAt(s, k)
    ensures var d := DigitsEnd(s, k + 1);
      && DecimalText(s[k + 1..d])
      && s == Opening(s[|HEADER|..k], s[k + 1..d]) + s[d + 2..]
  {
    var d := DigitsEnd(s, k + 1);
    SixParts(s, |HEADER|, k, d);
    assert s[..|HEADER|] == "Wrong result in query! (";
    hide TailAt, DigitsEnd;
    assert [s[k]] == ":";
  }

  lemma SixParts(s: string, h: nat, k: nat, d: nat)
    requires h <= k < d && d + 2 <= |s|
    ensures s == s[..h] + s[h..k] + [s[k]] + s[k + 1..d] + s[d..d + 2] + s[d + 2..]
  {
  }

  lemma OpeningStripped(line: string, path: string, digits: string)
    requires OpensAs(line, path, digits)
    ensures Opening(path, digits) <= Strip(line)
  {
    var o := Opening(path, digits);
    OpeningEnds(path, digits);
    var a, rest :| Blank(a) && line == a + o + rest;
    hide *;
    assert line == a + (o + rest);
    StripKeeps(a, o + rest, |o| - 1);
    assert Strip(line)[..|o|] == (o + rest)[..|o|];
  }

  /** However a line can be read as a header, a tail of the pattern matches behind that path. */
  lemma OpensAt(line: string, path: string, digits: string, k: nat)
    requires OpensAs(line, path, digits) && k == |HEADER| + |path|
    ensures var s := Strip(line);
      && HEADER <= s && k < |s| && s[|HEADER|..k] == path
      && TailAt(s, k) && DigitsEnd(s, k + 1) == k + 1 + |digits| && s[k + 1..k + 1 + |digits|] == digits
  {
    OpensHow(line, path, digits);
    hide *;
    OpeningStripped(line, path, digits);
    OpeningInPlace(Strip(line), path, digits, k);
    TailOfDigits(Strip(line), k, digits);
  }

  lemma OpeningEnds(path: string, digits: string)
    ensures var o := Opening(path, digits); |o| > 0 && o[0] == 'W' && o[|o| - 1] == '!'
  {
  }

  /**
   * The pattern matches exactly the lines that open as a header. The path it takes is the longest
   * of all the ways a line can be read as one, and the number is the one behind that path.
   */
  lemma {:induction false} HeaderMeans(line: string)
    ensures match MatchHeader(line)
      case None => forall path, digits :: !OpensAs(line, path, digits)
      case Some((path, n)) =>
        && (exists digits :: OpensAs(line, path, digits))
        && forall path', digits' :: OpensAs(line, path', digits') ==>
             |path'| <= |path| && (path' == path ==> DecimalValue(digits') == n)
  {
    var m := MatchHeader(line);
    hide MatchHeader, OpensAs, DecimalValue;
    forall path', digits' | OpensAs(line, path', digits')
      ensures m.Some? && |path'| <= |m.value.0| && DecimalText(digits')
      ensures path' == m.value.0 ==> DecimalValue(digits') == m.value.1
    {
      OpensAt(line, path', digits', |HEADER| + |path'|);
      OpensHow(line, path', digits');
      MatchIsLongest(line, path', digits', |HEADER| + |path'|);
    }
    if m.Some? {
      var digits := MatchOpens(line);
    }
  }

  lemma {:induction false} MatchIsLongest(line: string, path: string, digits: string, k: nat)
    requires path != "" && DecimalText(digits) && k == |HEADER| + |path|
    requires var s := Strip(line);
      && HEADER <= s && k < |s| && s[|HEADER|..k] == path
      && TailAt(s, k) && DigitsEnd(s, k + 1) == k + 1 + |digits| && s[k + 1..k + 1 + |digits|] == digits
    ensures MatchHeader(line).Some? && |path| <= |MatchHeader(line).value.0|
    ensures path == MatchHeader(line).value.0 ==> DecimalValue(digits) == MatchHeader(line).value.1
  {
    assert k >= |HEADER| + 1;
    hide *;
    var r := MatchFound(line, k);
    if path == MatchHeader(line).value.0 {
      assert r == k;
    }
  }

  lemma {:induction false} MatchFound(line: string, k: nat) returns (r: nat)
    requires |HEADER| < k < |Strip(line)| && HEADER <= Strip(line) && TailAt(Strip(line), k)
    ensures MatchHeader(line).Some? && k <= r && |MatchHeader(line).value.0| == r - |HEADER|
    ensures r == k ==>
      && DigitsEnd(Strip(line), k + 1) <= |Strip(line)|
      && MatchHeader(line).value.1 == DecimalValue(Strip(line)[k + 1..DigitsEnd(Strip(line), k + 1)])
  {
    hide Strip, TailAt, DigitsEnd, DecimalValue;
    r := LastTail(Strip(line), |HEADER| + 1, |Strip(line)|).value;
  }

  lemma MatchOpens(line: string) returns (digits: string)
    requires MatchHeader(line).Some?
    ensures OpensAs(line, MatchHeader(line).value.0, digits)
  {
    var s := Strip(line);
    var k := LastTail(s, |HEADER| + 1, |s|).value;
    hide Strip, TailAt, DecimalValue, OpensAs;
    digits := s[k + 1..DigitsEnd(s, k + 1)];
    PartsOpening(s, k);
    var a, b := StripSplits(line);
    PutBack(line, a, MatchHeader(line).value.0, digits, s[DigitsEnd(s, k + 1) + 2..], b);
  }

  lemma OpensHow(line: string, path: string, digits: string)
    requires OpensAs(line, path, digits)
    ensures path != "" && DecimalText(digits)
  {
  }

  lemma PutBack(line: string, a: string, path: string, digits: string, rest: string, b: string)
    requires Blank(a) && path != "" && DecimalText(digits)
    requires line == a + (Opening(path, digits) + rest) + b
    ensures OpensAs(line, path, digits)
  {
    assert line == a + Opening(path, digits) + (rest + b);
  }

  // ---------- lines as the parser sees them ----------

  /** A line of the log with the answers to the tests the parser makes on it. */
  datatype Token = Token(text: string, header: Option<(string, nat)>, marker: bool, equals: bool, blank: bool)

  datatype Kind = IsHeader | IsMarker | IsNotBar | IsBlank

  predicate Is(t: Token, k: Kind) {
    match k
    case IsHeader => t.header.Some?
    case IsMarker => t.marker
    case IsNotBar => !(t.equals && !t.blank)
    case IsBlank => t.blank
  }

  /** `set(s) <= {'='}`. */
  predicate AllEquals(s: string) {
    forall i :: 0 <= i < |s| ==> s[i] == '='
  }

  function Lex(line: string): Token {
    Token(line, MatchHeader(line), Strip(line) == "Actual result:", AllEquals(Strip(line)), Strip(line) == "")
  }

  function LexAll(lines: seq<string>): (ts: seq<Token>)
    ensures |ts| == |lines| && forall i :: 0 <= i < |lines| ==> ts[i] == Lex(lines[i])
  {
    seq(|lines|, i requires 0 <= i < |lines| => Lex(lines[i]))
  }

  function Texts(ts: seq<Token>): (lines: seq<string>)
    ensures |lines| == |ts| && forall i :: 0 <= i < |ts| ==> lines[i] == ts[i].text
  {
    seq(|ts|, i requires 0 <= i < |ts| => ts[i].text)
  }

  /** The line is a run of `=` between blanks. */
  ghost predicate BarText(line: string) {
    exists m :: m != "" && (forall i :: 0 <= i < |m| ==> m[i] == '=') && Padded(line, m)
  }

  /** What the four tests say of the text of a line. */
  lemma {:induction false} LexMeans(line: string)
    ensures Is(Lex(line), IsHeader) <==> exists path, digits :: OpensAs(line, path, digits)
    ensures Is(Lex(line), IsMarker) <==> Padded(line, "Actual result:")
    ensures Is(Lex(line), IsNotBar) <==> !BarText(line)
    ensures Is(Lex(line), IsBlank) <==> Blank(line)
  {
    hide MatchHeader, OpensAs, Strip;
    HeaderMeans(line);
    StripMeans(line, "Actual result:");
    StripBlank(line);
    BarMeans(line);
  }

  lemma BarMeans(line: string)
    ensures BarText(line) <==> Strip(line) != "" && AllEquals(Strip(line))
  {
    hide Strip, Padded;
    if BarText(line) {
      var m :| m != "" && (forall i :: 0 <= i < |m| ==> m[i] == '=') && Padded(line, m);
      StripMeans(line, m);
    }
    var m := Strip(line);
    if m != "" && AllEquals(m) {
      StripMeans(line, m);
    }
  }

  // ---------- the shape of a log ----------

  /** One failure of the log: what comes before its header, and the parts up to its block's end. */
  datatype Item = Item(noise: seq<Token>, header: Token, filler: seq<Token>, marker: Token,
                       bars: seq<Token>, actual: seq<Token>)

  /** What follows the last failure: nothing of interest, or a header whose result never comes. */
  datatype Tail =
    | End(noise: seq<Token>)
    | Cut(noise: seq<Token>, header: Token, filler: seq<Token>)

  /** A log cut up the way the parser reads it. */
  datatype Log = Rest(tail: Tail) | Entry(item: Item, rest: Log)

  function FlattenItem(item: Item): seq<Token> {
    var Item(noise, header, filler, marker, bars, actual) := item;
    noise + ([header] + (filler + ([marker] + (bars + actual))))
  }

  function FlattenTail(tail: Tail): seq<Token> {
    match tail
    case End(noise) => noise
    case Cut(noise, header, filler) => noise + ([header] + filler)
  }

  function Flatten(log: Log): seq<Token> {
    match log
    case Rest(tail) => FlattenTail(tail)
    case Entry(item, rest) => FlattenItem(item) + Flatten(rest)
  }

  ghost predicate NoneIs(ts: seq<Token>, k: Kind) {
    forall i :: 0 <= i < |ts| ==> !Is(ts[i], k)
  }

  ghost predicate StartsWith(ts: seq<Token>, k: Kind) {
    ts == [] || Is(ts[0], k)
  }

  ghost predicate ItemOk(item: Item) {
    && NoneIs(item.noise, IsHeader)
    && Is(item.header, IsHeader)
    && NoneIs(item.filler, IsMarker)
    && Is(item.marker, IsMarker)
    && NoneIs(item.bars, IsNotBar)
    && NoneIs(item.actual, IsBlank)
    && StartsWith(item.actual, IsNotBar)
  }

  ghost predicate TailOk(tail: Tail) {
    && NoneIs(tail.noise, IsHeader)
    && (tail.Cut? ==> Is(tail.header, IsHeader) && NoneIs(tail.filler, IsMarker))
  }

  ghost predicate WellFormed(log: Log) {
    match log
    case Rest(tail) => TailOk(tail)
    case Entry(item, rest) => ItemOk(item) && StartsWith(Flatten(rest), IsBlank) && WellFormed(rest)
  }

  /** The failure an item reports. */
  function Report(item: Item): Failure {
    var (path, line) := if item.header.header.Some? then item.header.header.value else ("", 0);
    Failure(path, line, Texts(item.actual))
  }

  /** The failures a log reports: one for each entry, in order. */
  function Reports(log: Log): seq<Failure> {
    match log
    case Rest(_) => []
    case Entry(item, rest) => [Report(item)] + Reports(rest)
  }

  /** How many lines come before the first of kind `k`. */
  function Until(ts: seq<Token>, k: Kind): (n: nat)
    ensures n <= |ts|
  {
    if ts == [] || Is(ts[0], k) then 0 else 1 + Until(ts[1..], k)
  }

  datatype Step = Last(tail: Tail) | More(item: Item, after: seq<Token>)

  /** The first item of the lines and what comes after it, or their tail if they hold no item. */
  function Next(ts: seq<Token>): (step: Step)
    ensures step.More? ==> |step.after| < |ts|
  {
    var n := Until(ts, IsHeader);
    if n == |ts| then Last(End(ts))
    else
      var r1 := ts[n + 1..];
      var m := Until(r1, IsMarker);
      if m == |r1| then Last(Cut(ts[..n], ts[n], r1))
      else
        var r2 := r1[m + 1..];
        var b := Until(r2, IsNotBar);
        var r3 := r2[b..];
        var e := Until(r3, IsBlank);
        More(Item(ts[..n], ts[n], r1[..m], r1[m], r2[..b], r3[..e]), r3[e..])
  }

  function Decompose(ts: seq<Token>): Log
    decreases |ts|
  {
    match Next(ts)
    case Last(tail) => Rest(tail)
    case More(item, after) => Entry(item, Decompose(after))
  }

  lemma {:induction false} UntilStops(ts: seq<Token>, k: Kind)
    ensures var n := Until(ts, k);
      && NoneIs(ts[..n], k)
      && StartsWith(ts[n..], k)
      && ts == ts[..n] + ts[n..]
      && (if n == |ts| then ts[..n] == ts
          else Is(ts[n], k) && ts[n..] == [ts[n]] + ts[n + 1..])
  {
    UntilFirst(ts, k);
    hide Until, Is;
  }

  lemma {:induction false} UntilFirst(ts: seq<Token>, k: Kind)
    ensures var n := Until(ts, k);
      (forall i :: 0 <= i < n ==> !Is(ts[i], k)) && (n < |ts| ==> Is(ts[n], k))
  {
    hide Is;
    if ts != [] && !Is(ts[0], k) {
      UntilFirst(ts[1..], k);
      var n := Until(ts[1..], k);
      forall i | 0 <= i < n + 1 ensures !Is(ts[i], k) {
        assert i > 0 ==> ts[i] == ts[1..][i - 1];
      }
    }
  }

  lemma {:induction false} UntilAt(a: seq<Token>, b: seq<Token>, k: Kind)
    requires NoneIs(a, k) && StartsWith(b, k)
    ensures Until(a + b, k) == |a| && (a + b)[..|a|] == a && (a + b)[|a|..] == b
  {
    if a == [] {
      assert a + b == b;
    } else {
      assert (a + b)[1..] == a[1..] + b;
      UntilAt(a[1..], b, k);
    }
  }

  lemma UntilNext(a: seq<Token>, t: Token, b: seq<Token>, k: Kind)
    requires NoneIs(a, k) && Is(t, k)
    ensures var ts := a + ([t] + b);
      Until(ts, k) == |a| < |ts| && ts[..|a|] == a && ts[|a|] == t && ts[|a| + 1..] == b
  {
    UntilAt(a, [t] + b, k);
  }

  lemma UntilEnd(a: seq<Token>, k: Kind)
    requires NoneIs(a, k)
    ensures Until(a, k) == |a|
  {
    UntilAt(a, [], k);
    assert a + [] == a;
  }

  lemma {:induction false} NextSplits(ts: seq<Token>)
    ensures match Next(ts)
      case Last(tail) => TailOk(tail) && FlattenTail(tail) == ts
      case More(item, after) => ItemOk(item) && StartsWith(after, IsBlank) && FlattenItem(item) + after == ts
  {
    hide Until, Is, NoneIs, StartsWith, FlattenItem;
    UntilStops(ts, IsHeader);
    var n := Until(ts, IsHeader);
    if n < |ts| {
      var r1 := ts[n + 1..];
      UntilStops(r1, IsMarker);
      var m := Until(r1, IsMarker);
      if m < |r1| {
        var r2 := r1[m + 1..];
        UntilStops(r2, IsNotBar);
        var b := Until(r2, IsNotBar);
        var r3 := r2[b..];
        UntilStops(r3, IsBlank);
        var e := Until(r3, IsBlank);
        StartOfPrefix(r3, e);
        Regroup(ts[..n], ts[n], r1[..m], r1[m], r2[..b], r3[..e], r3[e..]);
      }
    }
  }

  lemma StartOfPrefix(r: seq<Token>, e: nat)
    requires e <= |r| && StartsWith(r, IsNotBar)
    ensures StartsWith(r[..e], IsNotBar)
  {
  }

  lemma Regroup(noise: seq<Token>, header: Token, filler: seq<Token>, marker: Token,
                bars: seq<Token>, actual: seq<Token>, rest: seq<Token>)
    ensures noise + ([header] + (filler + ([marker] + (bars + (actual + rest)))))
         == FlattenItem(Item(noise, header, filler, marker, bars, actual)) + rest
  {
    var t5 := bars + actual;
    var t4 := [marker] + t5;
    var t3 := filler + t4;
    var t2 := [header] + t3;
    assert bars + (actual + rest) == t5 + rest;
    assert [marker] + (t5 + rest) == t4 + rest;
    assert filler + (t4 + rest) == t3 + rest;
    assert [header] + (t3 + rest) == t2 + rest;
    assert noise + (t2 + rest) == (noise + t2) + rest;
  }

  lemma NextOfItem(item: Item, rest: seq<Token>)
    requires ItemOk(item) && StartsWith(rest, IsBlank)
    ensures Next(FlattenItem(item) + rest) == More(item, rest)
  {
    hide Until, Is, NoneIs, StartsWith, FlattenItem;
    var Item(noise, header, filler, marker, bars, actual) := item;
    Regroup(noise, header, filler, marker, bars, actual, rest);
    var r3 := actual + rest;
    var r2 := bars + r3;
    UntilNext(noise, header, filler + ([marker] + r2), IsHeader);
    UntilNext(filler, marker, r2, IsMarker);
    AfterBars(actual, rest);
    UntilAt(bars, r3, IsNotBar);
    UntilAt(actual, rest, IsBlank);
  }

  lemma AfterBars(actual: seq<Token>, rest: seq<Token>)
    requires StartsWith(actual, IsNotBar) && StartsWith(rest, IsBlank)
    ensures StartsWith(actual + rest, IsNotBar)
  {
  }

  lemma NextOfTail(tail: Tail)
    requires TailOk(tail)
    ensures Next(FlattenTail(tail)) == Last(tail)
  {
    match tail
    case End(noise) =>
      UntilEnd(noise, IsHeader);
    case Cut(noise, header, filler) =>
      UntilNext(noise, header, filler, IsHeader);
      UntilEnd(filler, IsMarker);
  }

  /** Every list of lines is some well-formed log. */
  lemma {:induction false} DecomposeFlatten(ts: seq<Token>)
    ensures WellFormed(Decompose(ts)) && Flatten(Decompose(ts)) == ts
    decreases |ts|
  {
    hide Next, FlattenItem, FlattenTail, ItemOk, TailOk, StartsWith;
    NextSplits(ts);
    if Next(ts).More? {
      DecomposeFlatten(Next(ts).after);
    }
  }

  /** No list of lines is two well-formed logs: the shape of a log is unambiguous. */
  lemma {:induction false} FlattenDecompose(log: Log)
    requires WellFormed(log)
    ensures Decompose(Flatten(log)) == log
  {
    hide Next, FlattenItem, FlattenTail, ItemOk, TailOk, StartsWith;
    match log
    case Rest(tail) =>
      NextOfTail(tail);
    case Entry(item, rest) =>
      NextOfItem(item, Flatten(rest));
      FlattenDecompose(rest);
  }

  /** Any lines whatever are exactly one well-formed log, and `Decompose` finds it. */
  lemma {:induction false} EveryLogOneWay(ts: seq<Token>)
    ensures WellFormed(Decompose(ts)) && Flatten(Decompose(ts)) == ts
    ensures forall log :: WellFormed(log) && Flatten(log) == ts ==> log == Decompose(ts)
  {
    DecomposeFlatten(ts);
    forall log | WellFormed(log) && Flatten(log) == ts
      ensures log == Decompose(ts)
    {
      FlattenDecompose(log);
    }
  }

  // ---------- the parser ----------

  /** The failures reported by the one well-formed log that the lines of `stderr` are. */
  function ParseText(stderr: string): seq<Failure> {
    Reports(Decompose(LexAll(Split(stderr, '\n'))))
  }

  lemma {:induction false} NothingToTrim(s: string)
    requires '\n' !in s
    ensures RightStripNewlines(s) == s
  {
    if s != "" {
      assert s[|s| - 1] in s;
    }
  }

  lemma {:induction false} SkipLine(ts: seq<Token>)
    requires ts != [] && !Is(ts[0], IsHeader)
    ensures Reports(Decompose(ts)) == Reports(Decompose(ts[1..]))
  {
    hide Next, Is, StartsWith, Texts, ItemOk, TailOk, FlattenItem, FlattenTail;
    NextSplits(ts[1..]);
    assert ts == [ts[0]] + ts[1..];
    match Next(ts[1..])
    case Last(tail) =>
      PaddedTail(ts[0], tail);
      NextOfTail(PadTail(ts[0], tail));
    case More(item, after) =>
      PaddedItem(ts[0], item, after);
      NextOfItem(PadItem(ts[0], item), after);
  }

  function PadTail(t: Token, tail: Tail): Tail {
    tail.(noise := [t] + tail.noise)
  }

  function PadItem(t: Token, item: Item): Item {
    item.(noise := [t] + item.noise)
  }

  lemma PaddedTail(t: Token, tail: Tail)
    requires TailOk(tail) && !Is(t, IsHeader)
    ensures TailOk(PadTail(t, tail)) && FlattenTail(PadTail(t, tail)) == [t] + FlattenTail(tail)
  {
    hide Is;
  }

  lemma PaddedItem(t: Token, item: Item, after: seq<Token>)
    requires ItemOk(item) && !Is(t, IsHeader)
    ensures ItemOk(PadItem(t, item))
    ensures FlattenItem(PadItem(t, item)) + after == [t] + (FlattenItem(item) + after)
  {
    hide Is, StartsWith;
    assert FlattenItem(PadItem(t, item)) == [t] + FlattenItem(item);
    hide FlattenItem;
  }

  /** `parse_failures`, with `i` and the outer loop as they are. */
  method ParseFailures(stderr: string) returns (failures: seq<Failure>)
    ensures failures == ParseText(stderr)
  {
    hide Next, MatchHeader, LexAll, Split, Report;
    failures := [];
    var lines := Split(stderr, '\n');
    JoinSplit(stderr, '\n');
    ghost var ts := LexAll(lines);
    assert ts[0..] == ts;
    var i := 0;
    while i < |lines|
      invariant i <= |lines|
      invariant failures + Reports(Decompose(ts[i..])) == Reports(Decompose(ts))
    {
      var m := MatchHeader(lines[i]);
      assert ts[i..][0] == Lex(lines[i]) && ts[i..][1..] == ts[i + 1..];
      if m.None? {
        SkipLine(ts[i..]);
        i := i + 1;
      } else {
        var path, line := m.value.0, m.value.1;
        var j, actual, found := ReadEntry(lines, i, path, line);
        if found {
          failures := failures + [Failure(path, line, actual)];
        }
        i := j;
      }
    }
    assert ts[|lines|..] == [];
    assert Decompose([]) == Rest(End([])) by {
      NextOfTail(End([]));
    }
  }

  lemma SplitOff(ts: seq<Token>, i: nat, j: nat)
    requires i <= j <= |ts|
    ensures ts[i..] == ts[i..j] + ts[j..]
  {
  }

  lemma TakeOne(ts: seq<Token>, i: nat)
    requires i < |ts|
    ensures ts[i..] == [ts[i]] + ts[i + 1..]
  {
  }

  /** The item read from the header at `i`, its marker at `m` and its block at `b..e`. */
  lemma NextAt(ts: seq<Token>, i: nat, m: nat, b: nat, e: nat)
    requires i < m < b <= e <= |ts|
    requires ItemOk(Item([], ts[i], ts[i + 1..m], ts[m], ts[m + 1..b], ts[b..e]))
    requires StartsWith(ts[e..], IsBlank)
    ensures Next(ts[i..]) == More(Item([], ts[i], ts[i + 1..m], ts[m], ts[m + 1..b], ts[b..e]), ts[e..])
  {
    var item := Item([], ts[i], ts[i + 1..m], ts[m], ts[m + 1..b], ts[b..e]);
    NextOfItem(item, ts[e..]);
    hide Next, StartsWith, ItemOk;
    FlattenAt(ts, i, m, b, e);
  }

  lemma FlattenAt(ts: seq<Token>, i: nat, m: nat, b: nat, e: nat)
    requires i < m < b <= e <= |ts|
    ensures FlattenItem(Item([], ts[i], ts[i + 1..m], ts[m], ts[m + 1..b], ts[b..e])) + ts[e..] == ts[i..]
  {
    hide FlattenItem;
    calc {
      FlattenItem(Item([], ts[i], ts[i + 1..m], ts[m], ts[m + 1..b], ts[b..e])) + ts[e..];
      { Regroup([], ts[i], ts[i + 1..m], ts[m], ts[m + 1..b], ts[b..e], ts[e..]); }
      [] + ([ts[i]] + (ts[i + 1..m] + ([ts[m]] + (ts[m + 1..b] + (ts[b..e] + ts[e..])))));
      { SplitOff(ts, b, e); }
      [] + ([ts[i]] + (ts[i + 1..m] + ([ts[m]] + (ts[m + 1..b] + ts[b..]))));
      { SplitOff(ts, m + 1, b); }
      [] + ([ts[i]] + (ts[i + 1..m] + ([ts[m]] + ts[m + 1..])));
      { TakeOne(ts, m); }
      [] + ([ts[i]] + (ts[i + 1..m] + ts[m..]));
      { SplitOff(ts, i + 1, m); }
      [] + ([ts[i]] + ts[i + 1..]);
      { TakeOne(ts, i); }
      [] + ts[i..];
      ts[i..];
    }
  }

  lemma RunGrows(ts: seq<Token>, i: nat, j: nat, k: Kind)
    requires i <= j < |ts| && NoneIs(ts[i..j], k) && !Is(ts[j], k)
    ensures NoneIs(ts[i..j + 1], k)
  {
    assert ts[i..j + 1] == ts[i..j] + [ts[j]];
  }

  lemma {:induction false} NextCut(ts: seq<Token>, i: nat)
    requires i < |ts| && Is(ts[i], IsHeader) && NoneIs(ts[i + 1..], IsMarker)
    ensures Next(ts[i..]).Last?
  {
    var tail := Cut([], ts[i], ts[i + 1..]);
    assert FlattenTail(tail) == ts[i..];
    NextOfTail(tail);
  }

  /** The body of the outer loop past a header at `i`: the new `j`, the block, and whether one was found. */
  method ReadEntry(lines: seq<string>, i: nat, ghost path: string, ghost line: nat)
    returns (j: nat, actual: seq<string>, found: bool)
    requires i < |lines| && MatchHeader(lines[i]) == Some((path, line))
    requires forall k :: 0 <= k < |lines| ==> '\n' !in lines[k]
    ensures i < j <= |lines|
    ensures match Next(LexAll(lines)[i..])
      case Last(_) => !found && j == |lines|
      case More(item, after) => found && Report(item) == Failure(path, line, actual) && after == LexAll(lines)[j..]
  {
    hide MatchHeader, LexAll, Strip, Next, Texts;
    ghost var ts := LexAll(lines);
    j := i + 1;
    actual := [];
    found := false;
    while j < |lines|
      invariant i < j <= |lines|
      invariant NoneIs(ts[i + 1..j], IsMarker)
    {
      if Strip(lines[j]) == "Actual result:" {
        ghost var m := j;
        var start := SkipBars(lines, j + 1);
        j, actual := ReadBlock(lines, start);
        found := true;
        NextAt(ts, i, m, start, j);
        return;
      }
      assert ts[j] == Lex(lines[j]);
      RunGrows(ts, i + 1, j, IsMarker);
      j := j + 1;
    }
    assert ts[i] == Lex(lines[i]);
    assert ts[i + 1..j] == ts[i + 1..];
    NextCut(ts, i);
  }

  /** The loop that skips the `===` separator. */
  method SkipBars(lines: seq<string>, start: nat) returns (j: nat)
    requires start <= |lines|
    ensures start <= j <= |lines|
    ensures NoneIs(LexAll(lines)[start..j], IsNotBar)
    ensures j < |lines| ==> Is(LexAll(lines)[j], IsNotBar)
  {
    hide MatchHeader, LexAll, Strip;
    j := start;
    while j < |lines| && AllEquals(Strip(lines[j])) && Strip(lines[j]) != ""
      invariant start <= j <= |lines|
      invariant NoneIs(LexAll(lines)[start..j], IsNotBar)
    {
      assert LexAll(lines)[j] == Lex(lines[j]);
      RunGrows(LexAll(lines), start, j, IsNotBar);
      j := j + 1;
    }
    assert j < |lines| ==> LexAll(lines)[j] == Lex(lines[j]);
  }

  /** The loop that collects lines up to the first blank one. */
  method ReadBlock(lines: seq<string>, start: nat) returns (j: nat, actual: seq<string>)
    requires start <= |lines|
    requires forall k :: 0 <= k < |lines| ==> '\n' !in lines[k]
    ensures start <= j <= |lines|
    ensures NoneIs(LexAll(lines)[start..j], IsBlank) && StartsWith(LexAll(lines)[j..], IsBlank)
    ensures actual == lines[start..j] == Texts(LexAll(lines)[start..j])
  {
    hide MatchHeader, LexAll, Strip;
    j := start;
    actual := [];
    while j < |lines| && Strip(lines[j]) != ""
      invariant start <= j <= |lines|
      invariant NoneIs(LexAll(lines)[start..j], IsBlank)
      invariant actual == lines[start..j]
    {
      assert LexAll(lines)[j] == Lex(lines[j]);
      RunGrows(LexAll(lines), start, j, IsBlank);
      NothingToTrim(lines[j]);
      actual := actual + [RightStripNewlines(lines[j])];
      j := j + 1;
    }
    assert j < |lines| ==> LexAll(lines)[j] == Lex(lines[j]);
    TextsOfLexed(lines, start, j);
  }

  lemma TextsOfLexed(lines: seq<string>, i: nat, j: nat)
    requires i <= j <= |lines|
    ensures Texts(LexAll(lines)[i..j]) == lines[i..j]
  {
    hide MatchHeader, Strip;
    forall k | 0 <= k < j - i ensures Texts(LexAll(lines)[i..j])[k] == lines[i..j][k] {
      assert LexAll(lines)[i..j][k] == Lex(lines[i + k]);
    }
  }

  // ---------- printing ----------

  ghost predicate Lexed(ts: seq<Token>) {
    forall i :: 0 <= i < |ts| ==> ts[i] == Lex(ts[i].text) && '\n' !in ts[i].text
  }

  /** The text of a log: its lines joined by newlines. */
  function LogText(log: Log): string {
    Join(Texts(Flatten(log)), '\n')
  }

  /** Parsing the text of a well-formed log gives its reports. */
  lemma {:induction false} ParseLogText(log: Log)
    requires WellFormed(log) && Lexed(Flatten(log))
    ensures ParseText(LogText(log)) == Reports(log)
  {
    var ts := Flatten(log);
    if ts == [] {
      NextOfTail(End([]));
      FlattenDecompose(log);
      var one := LexAll([""]);
      assert one[0] == Lex("") && Strip("") == "" && MatchHeader("").None?;
      SkipLine(one);
      assert one[1..] == [];
    } else {
      SplitJoin(Texts(ts), '\n');
      assert LexAll(Texts(ts)) == ts;
      FlattenDecompose(log);
    }
  }

  /** `line` is the runner's header for `f`, between blank padding. */
  ghost predicate Announces(line: string, f: Failure) {
    exists a, b :: Blank(a) && Blank(b) && line == a + HeaderLine(f.path, f.line) + b
  }

  /** `log` is what the runner prints for the failures `fs`, whatever its filler and noise. */
  ghost predicate Prints(log: Log, fs: seq<Failure>) {
    if log.Entry? then
      && fs != []
      && fs[0].path != ""
      && Announces(log.item.header.text, fs[0])
      && Texts(log.item.actual) == fs[0].actual
      && Prints(log.rest, fs[1..])
    else
      fs == []
  }

  lemma AnnouncedHeader(line: string, f: Failure)
    requires Announces(line, f) && f.path != ""
    ensures MatchHeader(line) == Some((f.path, f.line))
  {
    var a, b :| Blank(a) && Blank(b) && line == a + HeaderLine(f.path, f.line) + b;
    HeaderRoundTrip(a, f.path, f.line, b);
  }

  lemma {:induction false} ReportsOfPrinted(log: Log, fs: seq<Failure>)
    requires Lexed(Flatten(log)) && Prints(log, fs)
    ensures Reports(log) == fs
  {
    if log.Entry? {
      var ts := Flatten(log);
      var tail := Flatten(log.rest);
      assert ts[|log.item.noise|] == FlattenItem(log.item)[|log.item.noise|] == log.item.header;
      assert ts[|ts| - |tail|..] == tail;
      AnnouncedHeader(log.item.header.text, fs[0]);
      ReportsOfPrinted(log.rest, fs[1..]);
      assert fs == [fs[0]] + fs[1..];
    }
  }

  /** Parsing undoes printing: the failures printed are the failures read, in order. */
  lemma {:induction false} ParserUndoesPrinter(log: Log, fs: seq<Failure>)
    requires WellFormed(log) && Lexed(Flatten(log)) && Prints(log, fs)
    ensures ParseText(LogText(log)) == fs
  {
    ParseLogText(log);
    ReportsOfPrinted(log, fs);
  }

  // ---------- a printer ----------

  ghost predicate OneLineEach(lines: seq<string>) {
    forall i :: 0 <= i < |lines| ==> '\n' !in lines[i]
  }

  /** A failure a log can hold: a path of one line, and result lines that are not blank. */
  ghost predicate Loggable(f: Failure) {
    f.path != "" && '\n' !in f.path && AllNonBlank(f.actual) && OneLineEach(f.actual)
  }

  /** The result does not start with a line that is taken for the separator. */
  ghost predicate StartsSolid(f: Failure) {
    f.actual != [] ==> !BarText(f.actual[0])
  }

  ghost predicate Printable(f: Failure) {
    Loggable(f) && StartsSolid(f)
  }

  lemma PrintableAnyLine(path: string, m: nat, n: nat, actual: seq<string>)
    requires Printable(Failure(path, m, actual))
    ensures Printable(Failure(path, n, actual))
  {
  }

  const BAR := "===="

  /**
   * The report of a failure: the lines before its header, between the header and the expected
   * result, of the expected result, and between that and what the query returned.
   */
  datatype Printed = Printed(failure: Failure, noise: seq<string>, preamble: seq<string>,
                             expected: seq<string>, between: seq<string>)

  /** The lines between the header and the marker, with the section of the expected result. */
  function Filler(p: Printed): seq<string> {
    p.preamble + (["Expected result:", BAR] + p.expected + [""]) + p.between
  }

  /** The lines of a report up to the blank line that ends it. */
  function PrintedFailure(p: Printed): seq<string> {
    p.noise + [HeaderLine(p.failure.path, p.failure.line)] + Filler(p) + ["Actual result:"] + ([BAR] + p.failure.actual)
  }

  function PrintedLines(ps: seq<Printed>): seq<string> {
    if ps == [] then [] else PrintedFailure(ps[0]) + ([""] + PrintedLines(ps[1..]))
  }

  /** The log of the reports, with some lines behind the last one. */
  function PrintLog(ps: seq<Printed>, end: seq<string>): string {
    Join(PrintedLines(ps) + end, '\n')
  }

  /** No line opens as a header. */
  ghost predicate NoHeaderIn(lines: seq<string>) {
    forall i, path, digits :: 0 <= i < |lines| ==> !OpensAs(lines[i], path, digits)
  }

  /** No line is the marker between blanks. */
  ghost predicate NoMarkerIn(lines: seq<string>) {
    forall i :: 0 <= i < |lines| ==> !Padded(lines[i], "Actual result:")
  }

  /** No marker follows a header: what looks like one has no result. */
  ghost predicate EndsQuietly(lines: seq<string>) {
    forall i, j, path, digits :: 0 <= i < j < |lines| && OpensAs(lines[i], path, digits) ==> !Padded(lines[j], "Actual result:")
  }

  /** A loggable failure, with no header before its own and no marker before its own. */
  ghost predicate PrintedOk(p: Printed) {
    && Loggable(p.failure)
    && NoHeaderIn(p.noise) && OneLineEach(p.noise)
    && NoMarkerIn(p.preamble) && OneLineEach(p.preamble)
    && NoMarkerIn(p.expected) && OneLineEach(p.expected)
    && NoMarkerIn(p.between) && OneLineEach(p.between)
  }

  /** How many of the first lines are taken for the separator. */
  ghost function LeadingBars(lines: seq<string>): (n: nat)
    ensures n <= |lines|
  {
    if lines == [] || !BarText(lines[0]) then 0 else 1 + LeadingBars(lines[1..])
  }

  /** The failure without the result lines that are taken for the separator. */
  ghost function Trim(f: Failure): Failure {
    f.(actual := f.actual[LeadingBars(f.actual)..])
  }

  function FailuresOf(ps: seq<Printed>): (fs: seq<Failure>)
    ensures |fs| == |ps| && forall i :: 0 <= i < |ps| ==> fs[i] == ps[i].failure
  {
    seq(|ps|, i requires 0 <= i < |ps| => ps[i].failure)
  }

  ghost function TrimAll(fs: seq<Failure>): (r: seq<Failure>)
    ensures |r| == |fs| && forall i :: 0 <= i < |fs| ==> r[i] == Trim(fs[i])
  {
    seq(|fs|, i requires 0 <= i < |fs| => Trim(fs[i]))
  }

  /** The item a report is read as, behind the lines `carry`. */
  ghost function ItemOf(p: Printed, carry: seq<string>): Item {
    var f := p.failure;
    var b := LeadingBars(f.actual);
    Item(LexAll(carry + p.noise), Lex(HeaderLine(f.path, f.line)), LexAll(Filler(p)), Lex("Actual result:"),
         LexAll([BAR] + f.actual[..b]), LexAll(f.actual[b..]))
  }

  /** The tail that lines without a whole item are: a header among them has no result. */
  function TailFor(ts: seq<Token>): Tail {
    var n := Until(ts, IsHeader);
    if n == |ts| then End(ts) else Cut(ts[..n], ts[n], ts[n + 1..])
  }

  /** The log the reports are read as. */
  ghost function LogOf(ps: seq<Printed>, carry: seq<string>, end: seq<string>): Log {
    if ps == [] then Rest(TailFor(LexAll(carry + end))) else Entry(ItemOf(ps[0], carry), LogOf(ps[1..], [""], end))
  }

  // ---------- the lines of the printer ----------

  lemma LexAllConcat(a: seq<string>, b: seq<string>)
    ensures LexAll(a + b) == LexAll(a) + LexAll(b)
  {
    hide Lex;
  }

  lemma LexAllOne(line: string)
    ensures LexAll([line]) == [Lex(line)]
  {
    hide Lex;
  }

  lemma LexedLines(lines: seq<string>)
    requires OneLineEach(lines)
    ensures Lexed(LexAll(lines)) && Texts(LexAll(lines)) == lines
  {
    hide MatchHeader, Strip, AllEquals;
  }

  lemma LexAllItem(noise: seq<string>, header: string, filler: seq<string>, marker: string, bars: seq<string>, actual: seq<string>)
    ensures FlattenItem(Item(LexAll(noise), Lex(header), LexAll(filler), Lex(marker), LexAll(bars), LexAll(actual)))
         == LexAll(noise + ([header] + (filler + ([marker] + (bars + actual)))))
  {
    hide LexAll, Lex;
    LexAllConcat(bars, actual);
    LexAllConcat([marker], bars + actual);
    LexAllConcat(filler, [marker] + (bars + actual));
    LexAllConcat([header], filler + ([marker] + (bars + actual)));
    LexAllConcat(noise, [header] + (filler + ([marker] + (bars + actual))));
    LexAllOne(header);
    LexAllOne(marker);
  }

  /** The tokens of a report's item are its lines, each lexed. */
  lemma {:induction false} FlatItem(p: Printed, carry: seq<string>)
    ensures FlattenItem(ItemOf(p, carry)) == LexAll(carry + PrintedFailure(p))
  {
    var f := p.failure;
    var b := LeadingBars(f.actual);
    hide LexAll, Lex, LeadingBars, Filler, HeaderLine, FlattenItem;
    var bars, actual := [BAR] + f.actual[..b], f.actual[b..];
    assert bars + actual == [BAR] + f.actual;
    LexAllItem(carry + p.noise, HeaderLine(f.path, f.line), Filler(p), "Actual result:", bars, actual);
    RegroupLines(carry, p.noise, [HeaderLine(f.path, f.line)], Filler(p), ["Actual result:"], bars + actual);
  }

  lemma RegroupLines(a: seq<string>, b: seq<string>, c: seq<string>, d: seq<string>, e: seq<string>, f: seq<string>)
    ensures a + (b + c + d + e + f) == (a + b) + (c + (d + (e + f)))
  {
  }

  lemma {:induction false} FlatLog(ps: seq<Printed>, carry: seq<string>, end: seq<string>)
    ensures Flatten(LogOf(ps, carry, end)) == LexAll(carry + (PrintedLines(ps) + end))
  {
    hide LexAll, PrintedFailure, ItemOf, FlattenItem, TailFor, FlattenTail;
    if ps == [] {
      assert [] + end == end;
      TailForFlat(LexAll(carry + end));
    } else {
      var p, rest := PrintedFailure(ps[0]), PrintedLines(ps[1..]);
      FlatItem(ps[0], carry);
      FlatLog(ps[1..], [""], end);
      assert PrintedLines(ps) == p + ([""] + rest);
      assert Flatten(LogOf(ps, carry, end)) == LexAll(carry + p) + LexAll([""] + (rest + end));
      hide *;
      LexAllConcat(carry + p, [""] + (rest + end));
      FirstReport(carry, p, [""], rest, end);
    }
  }

  lemma TailForFlat(ts: seq<Token>)
    ensures FlattenTail(TailFor(ts)) == ts
  {
    UntilStops(ts, IsHeader);
    hide Until, Is;
  }

  lemma FirstReport(carry: seq<string>, p: seq<string>, blank: seq<string>, rest: seq<string>, end: seq<string>)
    ensures (carry + p) + (blank + (rest + end)) == carry + ((p + (blank + rest)) + end)
  {
  }

  lemma NoneOfHeader(lines: seq<string>)
    ensures NoneIs(LexAll(lines), IsHeader) <==> NoHeaderIn(lines)
  {
    hide Lex, OpensAs, Is;
    forall i | 0 <= i < |lines| ensures Is(LexAll(lines)[i], IsHeader) <==> exists path, digits :: OpensAs(lines[i], path, digits) {
      LexMeans(lines[i]);
    }
  }

  lemma NoneOfMarker(lines: seq<string>)
    ensures NoneIs(LexAll(lines), IsMarker) <==> NoMarkerIn(lines)
  {
    hide Lex, OpensAs, Is, Padded;
    forall i | 0 <= i < |lines| ensures Is(LexAll(lines)[i], IsMarker) <==> Padded(lines[i], "Actual result:") {
      LexMeans(lines[i]);
    }
  }

  lemma StripSolid(s: string)
    requires s != "" && !IsSpace(s[0]) && !IsSpace(s[|s| - 1])
    ensures Strip(s) == s
  {
    StripPad("", s, "");
    assert "" + s + "" == s;
  }

  /** A text without space at its ends stands in itself only. */
  lemma PaddedSolid(s: string, m: string)
    requires s != "" && !IsSpace(s[0]) && !IsSpace(s[|s| - 1])
    requires m != "" && !IsSpace(m[0]) && !IsSpace(m[|m| - 1])
    ensures Padded(s, m) <==> s == m
  {
    hide Strip;
    StripMeans(s, m);
    StripSolid(s);
  }

  lemma MarkerAlone()
    ensures Padded("Actual result:", "Actual result:")
    ensures !Padded("Expected result:", "Actual result:") && !Padded(BAR, "Actual result:") && !Padded("", "Actual result:")
  {
    var e, m := "Expected result:", "Actual result:";
    assert e[0] == 'E' && m[0] == 'A' && e[|e| - 1] == ':' && m[|m| - 1] == ':';
    hide Padded;
    PaddedSolid(e, m);
    PaddedSolid(BAR, m);
    PaddedSolid(m, m);
    StripMeans("", m);
    assert Strip("") == "";
  }

  lemma BarIsBar()
    ensures BarText(BAR)
  {
    hide Padded;
    PaddedSolid(BAR, BAR);
  }

  lemma BlankIsNoHeader()
    ensures NoHeaderIn([""])
  {
    forall path, digits ensures !OpensAs("", path, digits) {
      forall a, rest: string ensures a + Opening(path, digits) + rest != "" {
        OpeningEnds(path, digits);
      }
    }
  }

  lemma FixedLines()
    ensures NoMarkerIn(["Expected result:", BAR]) && NoMarkerIn([""])
  {
    hide Padded;
    MarkerAlone();
  }

  lemma NoMarkerConcat(a: seq<string>, b: seq<string>)
    requires NoMarkerIn(a) && NoMarkerIn(b)
    ensures NoMarkerIn(a + b)
  {
    hide Padded;
  }

  lemma NoHeaderConcat(a: seq<string>, b: seq<string>)
    requires NoHeaderIn(a) && NoHeaderIn(b)
    ensures NoHeaderIn(a + b)
  {
    hide OpensAs;
  }

  /** No line of the filler is a marker. */
  lemma FillerOk(p: Printed)
    requires NoMarkerIn(p.preamble) && NoMarkerIn(p.expected) && NoMarkerIn(p.between)
    ensures NoMarkerIn(Filler(p))
  {
    FixedLines();
    hide NoMarkerIn, BarText;
    NoMarkerConcat(["Expected result:", BAR], p.expected);
    NoMarkerConcat(["Expected result:", BAR] + p.expected, [""]);
    NoMarkerConcat(p.preamble, ["Expected result:", BAR] + p.expected + [""]);
    NoMarkerConcat(p.preamble + (["Expected result:", BAR] + p.expected + [""]), p.between);
  }

  lemma {:induction false} BarsLead(lines: seq<string>)
    ensures var n := LeadingBars(lines);
      (forall i :: 0 <= i < n ==> BarText(lines[i])) && (n < |lines| ==> !BarText(lines[n]))
  {
    hide BarText;
    if lines != [] && BarText(lines[0]) {
      BarsLead(lines[1..]);
      forall i | 0 <= i < LeadingBars(lines) ensures BarText(lines[i]) {
        assert i > 0 ==> lines[i] == lines[1..][i - 1];
      }
    }
  }

  lemma {:induction false} BarTokens(lines: seq<string>)
    requires forall i :: 0 <= i < |lines| ==> BarText(lines[i])
    ensures NoneIs(LexAll(lines), IsNotBar)
  {
    hide Lex, Is, BarText;
    forall i | 0 <= i < |lines| ensures !Is(LexAll(lines)[i], IsNotBar) {
      LexMeans(lines[i]);
    }
  }

  lemma {:induction false} ResultTokens(lines: seq<string>)
    requires AllNonBlank(lines) && (lines != [] ==> !BarText(lines[0]))
    ensures NoneIs(LexAll(lines), IsBlank) && StartsWith(LexAll(lines), IsNotBar)
  {
    hide Lex, Is, BarText, Blank;
    forall i | 0 <= i < |lines| ensures !Is(LexAll(lines)[i], IsBlank) && (i == 0 ==> Is(LexAll(lines)[i], IsNotBar)) {
      LexMeans(lines[i]);
    }
  }

  lemma {:induction false} ResultLines(actual: seq<string>)
    requires AllNonBlank(actual)
    ensures var b := LeadingBars(actual);
      && NoneIs(LexAll([BAR] + actual[..b]), IsNotBar)
      && NoneIs(LexAll(actual[b..]), IsBlank)
      && StartsWith(LexAll(actual[b..]), IsNotBar)
  {
    var b := LeadingBars(actual);
    BarIsBar();
    BarsLead(actual);
    hide BarText, Lex, LexAll, Blank, LeadingBars;
    BarTokens([BAR] + actual[..b]);
    ResultTokens(actual[b..]);
  }

  lemma {:induction false} HeaderLineRead(f: Failure)
    requires f.path != ""
    ensures Is(Lex(HeaderLine(f.path, f.line)), IsHeader) && Announces(HeaderLine(f.path, f.line), f)
  {
    hide MatchHeader, HeaderLine, Strip;
    assert Blank("") && "" + HeaderLine(f.path, f.line) + "" == HeaderLine(f.path, f.line);
    HeaderRoundTrip("", f.path, f.line, "");
  }

  lemma MarkerIsMarker()
    ensures Is(Lex("Actual result:"), IsMarker)
  {
    hide Lex, Padded;
    MarkerAlone();
    LexMeans("Actual result:");
  }

  /** The item of a report is in order and brings its header and its trimmed result. */
  lemma {:induction false} PrintedItem(p: Printed, carry: seq<string>)
    requires PrintedOk(p) && NoHeaderIn(carry)
    ensures ItemOk(ItemOf(p, carry))
    ensures Announces(ItemOf(p, carry).header.text, Trim(p.failure)) && Trim(p.failure).path != ""
    ensures Texts(ItemOf(p, carry).actual) == Trim(p.failure).actual
  {
    var f := p.failure;
    hide Lex, LexAll, HeaderLine, Texts, OpensAs, BarText, NoneIs, NoHeaderIn, NoMarkerIn, StartsWith, AllNonBlank, LeadingBars, Filler, Announces;
    HeaderLineRead(f);
    MarkerIsMarker();
    NoHeaderConcat(carry, p.noise);
    NoneOfHeader(carry + p.noise);
    FillerOk(p);
    NoneOfMarker(Filler(p));
    ResultLines(f.actual);
    LexedLines(f.actual[LeadingBars(f.actual)..]);
    TextOf(HeaderLine(f.path, f.line));
    SameHeader(HeaderLine(f.path, f.line), f);
  }

  lemma TextOf(line: string)
    ensures Lex(line).text == line
  {
  }

  lemma SameHeader(line: string, f: Failure)
    requires Announces(line, f)
    ensures Announces(line, Trim(f))
  {
  }

  lemma {:induction false} PrintedLog(ps: seq<Printed>, carry: seq<string>, end: seq<string>)
    requires forall i :: 0 <= i < |ps| ==> PrintedOk(ps[i])
    requires NoHeaderIn(carry) && EndsQuietly(end)
    ensures WellFormed(LogOf(ps, carry, end)) && Prints(LogOf(ps, carry, end), TrimAll(FailuresOf(ps)))
  {
    BlankIsNoHeader();
    hide Lex, LexAll, PrintedOk, Trim, ItemOf, ItemOk, Announces, Texts, NoHeaderIn, EndsQuietly, NoneIs, NoMarkerIn, BarText, PrintedLines, TailFor, TailOk;
    if ps == [] {
      QuietConcat(carry, end);
      QuietTail(carry + end);
    } else {
      assert PrintedOk(ps[0]);
      PrintedItem(ps[0], carry);
      PrintedLog(ps[1..], [""], end);
      FlatLog(ps[1..], [""], end);
      BlankFirst(PrintedLines(ps[1..]) + end);
      assert TrimAll(FailuresOf(ps))[1..] == TrimAll(FailuresOf(ps[1..]));
    }
  }

  lemma QuietConcat(a: seq<string>, b: seq<string>)
    requires NoHeaderIn(a) && EndsQuietly(b)
    ensures EndsQuietly(a + b)
  {
    hide OpensAs, Padded;
    var lines := a + b;
    forall i, j, path, digits | 0 <= i < j < |lines| && OpensAs(lines[i], path, digits) ensures !Padded(lines[j], "Actual result:") {
      assert |a| <= i && lines[i] == b[i - |a|] && lines[j] == b[j - |a|];
    }
  }

  lemma {:induction false} NoMarkerAfter(lines: seq<string>, n: nat)
    requires EndsQuietly(lines) && n < |lines| && Is(Lex(lines[n]), IsHeader)
    ensures NoMarkerIn(lines[n + 1..])
  {
    LexMeans(lines[n]);
    hide Lex, Is, OpensAs, Padded, EndsQuietly;
    forall k | n < k < |lines| ensures !Padded(lines[k], "Actual result:") {
      QuietAfter(lines, n, k);
    }
  }

  lemma LexAllFrom(lines: seq<string>, n: nat)
    requires n < |lines|
    ensures LexAll(lines)[n] == Lex(lines[n]) && LexAll(lines)[n + 1..] == LexAll(lines[n + 1..])
  {
    hide Lex;
  }

  lemma {:induction false} TailForOk(ts: seq<Token>)
    requires var n := Until(ts, IsHeader); n < |ts| ==> NoneIs(ts[n + 1..], IsMarker)
    ensures TailOk(TailFor(ts))
  {
    UntilStops(ts, IsHeader);
    hide Until, Is, NoneIs;
  }

  /** Lines in which no marker follows a header are a tail in order. */
  lemma {:induction false} QuietTail(lines: seq<string>)
    requires EndsQuietly(lines)
    ensures TailOk(TailFor(LexAll(lines)))
  {
    hide *;
    var n := Until(LexAll(lines), IsHeader);
    UntilFirst(LexAll(lines), IsHeader);
    if n < |lines| {
      LexAllFrom(lines, n);
      NoMarkerAfter(lines, n);
      NoneOfMarker(lines[n + 1..]);
    }
    TailForOk(LexAll(lines));
  }

  lemma QuietAfter(lines: seq<string>, i: nat, j: nat)
    requires EndsQuietly(lines) && i < j < |lines| && exists path, digits :: OpensAs(lines[i], path, digits)
    ensures !Padded(lines[j], "Actual result:")
  {
    hide OpensAs, Padded;
  }

  lemma BlankFirst(lines: seq<string>)
    ensures StartsWith(LexAll([""] + lines), IsBlank)
  {
    hide Lex, Is;
    LexMeans("");
  }

  lemma TrimsNothing(fs: seq<Failure>)
    ensures TrimAll(fs) == fs <==> forall i :: 0 <= i < |fs| ==> StartsSolid(fs[i])
  {
    hide BarText;
    forall i | 0 <= i < |fs| ensures Trim(fs[i]) == fs[i] <==> StartsSolid(fs[i]) {
      var f := fs[i];
      assert |Trim(f).actual| == |f.actual| - LeadingBars(f.actual);
    }
  }

  lemma NoNewlineConcat(a: string, b: string)
    requires '\n' !in a && '\n' !in b
    ensures '\n' !in a + b
  {
  }

  lemma NoNewlineInHeader(path: string, line: nat)
    requires '\n' !in path
    ensures '\n' !in HeaderLine(path, line)
  {
    assert '\n' !in HEADER;
    hide Decimal;
    NoNewlineConcat(HEADER, path);
    NoNewlineConcat(HEADER + path, ":");
    NoNewlineConcat(HEADER + path + ":", Decimal(line));
    NoNewlineConcat(HEADER + path + ":" + Decimal(line), ")!");
  }

  lemma OneLineConcat(a: seq<string>, b: seq<string>)
    requires OneLineEach(a) && OneLineEach(b)
    ensures OneLineEach(a + b)
  {
  }

  lemma FixedOneLine()
    ensures OneLineEach(["Expected result:", BAR]) && OneLineEach([""]) && OneLineEach(["Actual result:"]) && OneLineEach([BAR])
  {
  }

  lemma FillerOneLine(p: Printed)
    requires PrintedOk(p)
    ensures OneLineEach(Filler(p))
  {
    hide NoHeaderIn, NoMarkerIn, OneLineEach, Loggable;
    FixedOneLine();
    OneLineConcat(["Expected result:", BAR], p.expected);
    OneLineConcat(["Expected result:", BAR] + p.expected, [""]);
    OneLineConcat(p.preamble, ["Expected result:", BAR] + p.expected + [""]);
    OneLineConcat(p.preamble + (["Expected result:", BAR] + p.expected + [""]), p.between);
  }

  lemma ReportOneLine(p: Printed)
    requires PrintedOk(p)
    ensures OneLineEach(PrintedFailure(p))
  {
    var header := HeaderLine(p.failure.path, p.failure.line);
    NoNewlineInHeader(p.failure.path, p.failure.line);
    assert OneLineEach([header]);
    FillerOneLine(p);
    FixedOneLine();
    hide NoHeaderIn, NoMarkerIn, OneLineEach, AllNonBlank, Filler, HeaderLine;
    OneLineConcat(p.noise, [header]);
    OneLineConcat(p.noise + [header], Filler(p));
    OneLineConcat(p.noise + [header] + Filler(p), ["Actual result:"]);
    OneLineConcat([BAR], p.failure.actual);
    OneLineConcat(p.noise + [header] + Filler(p) + ["Actual result:"], [BAR] + p.failure.actual);
  }

  lemma {:induction false} PrintedOneLine(ps: seq<Printed>)
    requires forall i :: 0 <= i < |ps| ==> PrintedOk(ps[i])
    ensures OneLineEach(PrintedLines(ps))
  {
    hide PrintedFailure, PrintedOk;
    if ps == [] {
    } else {
      ReportOneLine(ps[0]);
      FixedOneLine();
      PrintedOneLine(ps[1..]);
      hide OneLineEach;
      OneLineConcat([""], PrintedLines(ps[1..]));
      OneLineConcat(PrintedFailure(ps[0]), [""] + PrintedLines(ps[1..]));
    }
  }

  /** The report of a failure with nothing around it. */
  function Plain(f: Failure): Printed {
    Printed(f, [], [], [], [])
  }

  lemma PlainOk(f: Failure)
    requires Loggable(f)
    ensures PrintedOk(Plain(f)) && FailuresOf([Plain(f)]) == [f]
  {
    hide Loggable, OpensAs, Padded;
  }

  lemma TrimsNothingOf(f: Failure)
    requires StartsSolid(f)
    ensures TrimAll([f]) == [f]
  {
    hide StartsSolid;
    TrimsNothing([f]);
  }

  lemma {:induction false} PlainLines(f: Failure)
    requires Loggable(f)
    ensures Lexed(Flatten(LogOf([Plain(f)], [], [])))
  {
    hide Loggable, Flatten, Lexed, PrintedOk, PrintedLines, LogOf, LexAll, OneLineEach, Plain;
    PlainOk(f);
    FlatLog([Plain(f)], [], []);
    PrintedOneLine([Plain(f)]);
    assert [] + (PrintedLines([Plain(f)]) + []) == PrintedLines([Plain(f)]);
    LexedLines(PrintedLines([Plain(f)]));
  }

  lemma {:induction false} PlainPrints(f: Failure)
    requires Loggable(f)
    ensures WellFormed(LogOf([Plain(f)], [], [])) && Prints(LogOf([Plain(f)], [], []), TrimAll([f]))
  {
    PlainOk(f);
    NoHeaderInNothing();
    hide *;
    PrintedLog([Plain(f)], [], []);
  }

  /** A printable failure has a log. */
  lemma {:induction false} PrintableHasLog(f: Failure) returns (log: Log)
    requires Printable(f)
    ensures WellFormed(log) && Lexed(Flatten(log)) && Prints(log, [f])
  {
    log := LogOf([Plain(f)], [], []);
    assert Loggable(f) && StartsSolid(f);
    hide *;
    TrimsNothingOf(f);
    PlainPrints(f);
    PlainLines(f);
  }

  lemma NoHeaderInNothing()
    ensures NoHeaderIn([]) && EndsQuietly([])
  {
  }

  /**
   * What is printed is parsed as what was printed, whatever the noise, the expected results, the filler
   * and the lines at the end, less the first result lines that look like the separator.
   */
  lemma {:induction false} PrintThenParse(ps: seq<Printed>, end: seq<string>)
    requires forall i :: 0 <= i < |ps| ==> PrintedOk(ps[i])
    requires EndsQuietly(end) && OneLineEach(end)
    ensures ParseText(PrintLog(ps, end)) == TrimAll(FailuresOf(ps))
  {
    hide LogOf, LexAll, Texts, ParseText, WellFormed, Lexed, NoHeaderIn, EndsQuietly, Prints, PrintedOk, PrintedLines;
    NoHeaderInNothing();
    PrintedLog(ps, [], end);
    FlatLog(ps, [], end);
    PrintedOneLine(ps);
    var lines := PrintedLines(ps) + end;
    assert [] + lines == lines;
    LexedLines(lines);
    ParserUndoesPrinter(LogOf(ps, [], end), TrimAll(FailuresOf(ps)));
  }

  /** What is printed is what is parsed exactly when no result starts with a line that looks like the separator. */
  lemma {:induction false} PrintThenParseExact(ps: seq<Printed>, end: seq<string>)
    requires forall i :: 0 <= i < |ps| ==> PrintedOk(ps[i])
    requires EndsQuietly(end) && OneLineEach(end)
    ensures ParseText(PrintLog(ps, end)) == FailuresOf(ps) <==> forall i :: 0 <= i < |ps| ==> StartsSolid(ps[i].failure)
  {
    hide ParseText, PrintLog, PrintedOk, StartsSolid, TrimAll, EndsQuietly;
    PrintThenParse(ps, end);
    TrimsNothing(FailuresOf(ps));
  }

  // ---------- where the reported blocks lie ----------

  /** Where the block of an item starts, counted from the item's first line. */
  ghost function BlockStart(item: Item): nat {
    |item.noise| + 1 + |item.filler| + 1 + |item.bars|
  }

  /** The place of each reported block in the lines of a log that starts at line `at`. */
  ghost function Blocks(log: Log, at: nat): seq<(nat, nat)> {
    if log.Entry? then
      var b := at + BlockStart(log.item);
      [(b, b + |log.item.actual|)] + Blocks(log.rest, b + |log.item.actual|)
    else []
  }

  lemma BlockOfItem(item: Item)
    ensures |FlattenItem(item)| == BlockStart(item) + |item.actual|
    ensures FlattenItem(item)[BlockStart(item)..] == item.actual
  {
    var r2 := item.bars + item.actual;
    var r1 := item.filler + ([item.marker] + r2);
    assert FlattenItem(item)[|item.noise| + 1..] == r1;
    assert r1[|item.filler| + 1..] == r2;
  }

  /** The block `b` of the lines holds the failure `f`'s lines, none blank, and is as long as it can be. */
  ghost predicate BlockLies(ts: seq<Token>, b: (nat, nat), f: Failure) {
    && b.0 <= b.1 <= |ts|
    && Texts(ts[b.0..b.1]) == f.actual
    && NoneIs(ts[b.0..b.1], IsBlank)
    && StartsWith(ts[b.1..], IsBlank)
  }

  ghost predicate BlocksLie(ts: seq<Token>, bs: seq<(nat, nat)>, fs: seq<Failure>, at: nat) {
    && |bs| == |fs|
    && (forall k :: 0 <= k < |bs| ==> at < bs[k].0 && BlockLies(ts, bs[k], fs[k]))
    && forall j, k :: 0 <= j < k < |bs| ==> bs[j].1 < bs[k].0
  }

  lemma BlocksLieCons(ts: seq<Token>, b: (nat, nat), f: Failure, bs: seq<(nat, nat)>, fs: seq<Failure>, at: nat)
    requires at < b.0 && BlockLies(ts, b, f) && BlocksLie(ts, bs, fs, b.1)
    ensures BlocksLie(ts, [b] + bs, [f] + fs, at)
  {
    hide Texts, NoneIs, StartsWith;
  }

  lemma {:induction false} BlocksOfLog(ts: seq<Token>, log: Log, at: nat)
    requires WellFormed(log) && at <= |ts| && ts[at..] == Flatten(log)
    ensures BlocksLie(ts, Blocks(log, at), Reports(log), at)
  {
    hide BlockLies, BlocksLie;
    if log.Entry? {
      var b := at + BlockStart(log.item);
      var e := b + |log.item.actual|;
      BlockOfFirst(ts, log, at);
      BlocksOfLog(ts, log.rest, e);
      BlocksLieCons(ts, (b, e), Report(log.item), Blocks(log.rest, e), Reports(log.rest), at);
    } else {
      NoBlocks(ts, at);
    }
  }

  lemma NoBlocks(ts: seq<Token>, at: nat)
    ensures BlocksLie(ts, [], [], at)
  {
  }

  lemma {:induction false} BlockOfFirst(ts: seq<Token>, log: Log, at: nat)
    requires log.Entry? && WellFormed(log) && at <= |ts| && ts[at..] == Flatten(log)
    ensures var b := at + BlockStart(log.item);
      var e := b + |log.item.actual|;
      && BlockLies(ts, (b, e), Report(log.item))
      && ts[e..] == Flatten(log.rest)
  {
    var n := BlockStart(log.item);
    var e := n + |log.item.actual|;
    BlockOfItem(log.item);
    hide BlockStart, FlattenItem, NoneIs, StartsWith, Texts;
    BothSides(FlattenItem(log.item), Flatten(log.rest), n);
    SubSlice(ts, at, n, e);
  }

  lemma BothSides(a: seq<Token>, b: seq<Token>, n: nat)
    requires n <= |a|
    ensures (a + b)[n..|a|] == a[n..] && (a + b)[|a|..] == b
  {
  }

  lemma SubSlice(ts: seq<Token>, at: nat, x: nat, y: nat)
    requires x <= y && at + y <= |ts|
    ensures ts[at..][x..y] == ts[at + x..at + y] && ts[at..][y..] == ts[at + y..]
  {
  }

  /**
   * On every log the blocks returned are runs of non-blank lines of the log, each ended by
   * a blank line or the end of the log, disjoint and in log order.
   */
  lemma {:induction false} ParsedBlocksLie(lines: seq<string>)
    ensures var log := Decompose(LexAll(lines));
      BlocksLie(LexAll(lines), Blocks(log, 0), Reports(log), 0)
  {
    var ts := LexAll(lines);
    DecomposeFlatten(ts);
    assert ts[0..] == ts;
    BlocksOfLog(ts, Decompose(ts), 0);
  }
}
