/** The Python string operations the scripts rely on. */
module Text {
  datatype Option<+T> = None | Some(value: T)

  // ---------- whitespace ----------

  /** `str.isspace`, which is also what `\s` matches in a str pattern. */
  predicate IsSpace(c: char) {
    || '\t' <= c <= '\r'
    || '\U{1C}' <= c <= ' '
    || c == '\U{85}' || c == '\U{A0}' || c == '\U{1680}'
    || '\U{2000}' <= c <= '\U{200A}'
    || c == '\U{2028}' || c == '\U{2029}' || c == '\U{202F}' || c == '\U{205F}' || c == '\U{3000}'
  }

  /** `not s.strip()` (see StripBlank). */
  predicate Blank(s: string) {
    forall i :: 0 <= i < |s| ==> IsSpace(s[i])
  }

  function LeftStrip(s: string): string {
    if s != "" && IsSpace(s[0]) then LeftStrip(s[1..]) else s
  }

  function RightStrip(s: string): string {
    if s != "" && IsSpace(s[|s| - 1]) then RightStrip(s[..|s| - 1]) else s
  }

  /** `s.strip()`. */
  function Strip(s: string): string {
    LeftStrip(RightStrip(s))
  }

  lemma {:induction false} LeftStripPad(a: string, m: string)
    requires Blank(a) && (m != "" ==> !IsSpace(m[0]))
    ensures LeftStrip(a + m) == m
  {
    if a == "" {
      assert a + m == m;
    } else {
      assert (a + m)[1..] == a[1..] + m;
      LeftStripPad(a[1..], m);
    }
  }

  lemma {:induction false} RightStripPad(m: string, b: string)
    requires Blank(b) && (m != "" ==> !IsSpace(m[|m| - 1]))
    ensures RightStrip(m + b) == m
  {
    if b == "" {
      assert m + b == m;
    } else {
      assert (m + b)[..|m + b| - 1] == m + b[..|b| - 1];
      RightStripPad(m, b[..|b| - 1]);
    }
  }

  /** Stripping removes blank padding around a text with solid ends. */
  lemma StripPad(a: string, m: string, b: string)
    requires Blank(a) && Blank(b)
    requires m != "" ==> !IsSpace(m[0]) && !IsSpace(m[|m| - 1])
    ensures Strip(a + m + b) == m
  {
    if m == "" {
      assert a + m + b == "" + (a + b);
      RightStripPad("", a + b);
    } else {
      RightStripPad(a + m, b);
      LeftStripPad(a, m);
    }
  }

  lemma {:induction false} RightStripSplits(s: string) returns (b: string)
    ensures Blank(b) && s == RightStrip(s) + b
    ensures RightStrip(s) != "" ==> !IsSpace(RightStrip(s)[|RightStrip(s)| - 1])
  {
    if s != "" && IsSpace(s[|s| - 1]) {
      b := RightStripSplits(s[..|s| - 1]);
      b := b + [s[|s| - 1]];
    } else {
      b := "";
    }
  }

  lemma {:induction false} LeftStripSplits(s: string) returns (a: string)
    ensures Blank(a) && s == a + LeftStrip(s)
    ensures LeftStrip(s) != "" ==> !IsSpace(LeftStrip(s)[0])
  {
    if s != "" && IsSpace(s[0]) {
      a := LeftStripSplits(s[1..]);
      a := [s[0]] + a;
    } else {
      a := "";
    }
  }

  /** Every text is its stripped core between blank padding, and the core has solid ends. */
  lemma StripSplits(s: string) returns (a: string, b: string)
    ensures Blank(a) && Blank(b) && s == a + Strip(s) + b
    ensures Strip(s) != "" ==> !IsSpace(Strip(s)[0]) && !IsSpace(Strip(s)[|Strip(s)| - 1])
  {
    b := RightStripSplits(s);
    a := LeftStripSplits(RightStrip(s));
  }

  /** `not s.strip()` holds exactly when the text is all whitespace. */
  lemma StripBlank(s: string)
    ensures Strip(s) == "" <==> Blank(s)
  {
    var a, b := StripSplits(s);
    if Strip(s) != "" {
      assert s[|a|] == Strip(s)[0];
    }
  }

  /** `m` stands in `s` alone, up to blank padding. */
  ghost predicate Padded(s: string, m: string) {
    exists a, b :: Blank(a) && Blank(b) && s == a + m + b
  }

  /** A text with solid ends is what stripping leaves exactly when it stands there between blanks. */
  lemma StripMeans(s: string, m: string)
    requires m != "" && !IsSpace(m[0]) && !IsSpace(m[|m| - 1])
    ensures Strip(s) == m <==> Padded(s, m)
  {
    if Padded(s, m) {
      var a, b :| Blank(a) && Blank(b) && s == a + m + b;
      StripPad(a, m, b);
    } else {
      var a, b := StripSplits(s);
    }
  }

  // ---------- splitting and joining ----------

  /** `s.split(c)` for a one-character separator. */
  function Split(s: string, c: char): (r: seq<string>)
    ensures r != []
  {
    if s == "" then [""]
    else
      var r := Split(s[1..], c);
      if s[0] == c then [""] + r else [[s[0]] + r[0]] + r[1..]
  }

  /** `c.join(parts)` for a one-character separator. */
  function Join(parts: seq<string>, c: char): string {
    if parts == [] then ""
    else if |parts| == 1 then parts[0]
    else parts[0] + [c] + Join(parts[1..], c)
  }

  lemma {:induction false} SplitFirst(p: string, c: char, rest: string)
    requires c !in p
    ensures Split(p, c) == [p]
    ensures Split(p + [c] + rest, c) == [p] + Split(rest, c)
  {
    if p == "" {
      assert p + [c] + rest == [c] + rest;
      assert ([c] + rest)[1..] == rest;
    } else {
      assert (p + [c] + rest)[1..] == p[1..] + [c] + rest;
      SplitFirst(p[1..], c, rest);
      assert p == [p[0]] + p[1..];
    }
  }

  /** Splitting undoes joining when no part holds the separator. */
  lemma {:induction false} SplitJoin(parts: seq<string>, c: char)
    requires parts != []
    requires forall i :: 0 <= i < |parts| ==> c !in parts[i]
    ensures Split(Join(parts, c), c) == parts
  {
    if |parts| == 1 {
      SplitFirst(parts[0], c, "");
    } else {
      SplitJoin(parts[1..], c);
      SplitFirst(parts[0], c, Join(parts[1..], c));
      assert parts == [parts[0]] + parts[1..];
    }
  }

  /** Joining undoes splitting, and no piece of a split holds the separator. */
  lemma {:induction false} JoinSplit(s: string, c: char)
    ensures Join(Split(s, c), c) == s
    ensures forall i :: 0 <= i < |Split(s, c)| ==> c !in Split(s, c)[i]
  {
    if s == "" {
    } else {
      var r := Split(s[1..], c);
      JoinSplit(s[1..], c);
      assert s == [s[0]] + s[1..];
      if s[0] == c {
        assert ([""] + r)[1..] == r;
      } else {
        assert ([[s[0]] + r[0]] + r[1..])[1..] == r[1..];
      }
    }
  }

  /** `s.rstrip('\n')`. */
  function RightStripNewlines(s: string): string {
    if s != "" && s[|s| - 1] == '\n' then RightStripNewlines(s[..|s| - 1]) else s
  }

  // ---------- decimal numbers ----------

  predicate IsDigit(c: char) {
    '0' <= c <= '9'
  }

  /** `int(s)` for a run of decimal digits. */
  function DecimalValue(s: string): nat
    requires forall i :: 0 <= i < |s| ==> IsDigit(s[i])
  {
    if s == "" then 0
    else
      assert IsDigit(s[|s| - 1]);
      DecimalValue(s[..|s| - 1]) * 10 + (s[|s| - 1] as int - '0' as int)
  }

  /** `str(n)`. */
  function Decimal(n: nat): (s: string)
    ensures s != "" && forall i :: 0 <= i < |s| ==> IsDigit(s[i])
  {
    (if n < 10 then "" else Decimal(n / 10)) + [(n % 10 + '0' as int) as char]
  }

  lemma {:induction false} DecimalRoundTrip(n: nat)
    ensures DecimalValue(Decimal(n)) == n
  {
    var front := if n < 10 then "" else Decimal(n / 10);
    assert Decimal(n)[..|Decimal(n)| - 1] == front;
    if n >= 10 {
      DecimalRoundTrip(n / 10);
    }
  }

  // ---------- words and case ----------

  /** `\w`. */
  predicate IsWordChar(c: char) {
    'a' <= c <= 'z' || 'A' <= c <= 'Z' || '0' <= c <= '9' || c == '_'
  }

  predicate IsWord(s: string) {
    s != "" && forall i :: 0 <= i < |s| ==> IsWordChar(s[i])
  }

  function LowerChar(c: char): char {
    if 'A' <= c <= 'Z' then (c as int + 32) as char else c
  }

  /** `s.lower()`. */
  function Lower(s: string): (r: string)
    ensures |r| == |s|
    ensures forall i :: 0 <= i < |s| ==> r[i] == LowerChar(s[i])
  {
    if s == "" then "" else [LowerChar(s[0])] + Lower(s[1..])
  }

  /** `c` and `d` are the same character, or a capital letter and its small one, either way round. */
  predicate SameLetter(c: char, d: char) {
    || c == d
    || ('A' <= c <= 'Z' && 'a' <= d <= 'z' && c as int - 'A' as int == d as int - 'a' as int)
    || ('A' <= d <= 'Z' && 'a' <= c <= 'z' && d as int - 'A' as int == c as int - 'a' as int)
  }

  /** `s` and `t` are the same text in some casing. */
  ghost predicate SameLetters(s: string, t: string) {
    |s| == |t| && forall i :: 0 <= i < |s| ==> SameLetter(s[i], t[i])
  }

  ghost predicate NoCapitals(s: string) {
    forall i :: 0 <= i < |s| ==> !('A' <= s[i] <= 'Z')
  }

  /** The lower-case form is the one casing of a text that holds no capital. */
  lemma LowerMeans(s: string, t: string)
    ensures Lower(s) == t <==> SameLetters(s, t) && NoCapitals(t)
  {
  }

  /** Two texts have one lower-case form exactly when they are the same but for casing. */
  lemma {:induction false} LowerSame(s: string, t: string)
    ensures Lower(s) == Lower(t) <==> SameLetters(s, t)
  {
    LowerMeans(s, Lower(s));
    LowerMeans(t, Lower(t));
    if SameLetters(s, t) {
      forall i | 0 <= i < |s| ensures Lower(s)[i] == Lower(t)[i] {
        assert SameLetter(s[i], t[i]);
      }
    } else if Lower(s) == Lower(t) {
      forall i | 0 <= i < |s| ensures SameLetter(s[i], t[i]) {
        assert Lower(s)[i] == Lower(t)[i];
      }
    }
  }

  const DIGITS := "0123456789"
  const SMALL_LETTERS := "abcdefghijklmnopqrstuvwxyz"
  const CAPITALS := "ABCDEFGHIJKLMNOPQRSTUVWXYZ"

  /** `\d`. */
  lemma Digits(c: char)
    ensures IsDigit(c) <==> c in DIGITS
  {
    assert '0' <= c <= '9' ==> DIGITS[c as int - '0' as int] == c;
  }

  lemma SmallLetters(c: char)
    ensures 'a' <= c <= 'z' <==> c in SMALL_LETTERS
  {
    assert 'a' <= c <= 'z' ==> SMALL_LETTERS[c as int - 'a' as int] == c;
  }

  lemma Capitals(c: char)
    ensures 'A' <= c <= 'Z' <==> c in CAPITALS
  {
    assert 'A' <= c <= 'Z' ==> CAPITALS[c as int - 'A' as int] == c;
  }

  /** `\w`. */
  lemma WordChars(c: char)
    ensures IsWordChar(c) <==> c in SMALL_LETTERS || c in CAPITALS || c in DIGITS || c == '_'
  {
    Digits(c);
    SmallLetters(c);
    Capitals(c);
  }

  /** `\s`, among the ASCII characters. */
  lemma Spaces(c: char)
    requires c < '\U{80}'
    ensures IsSpace(c) <==> c in "\t\n\r \U{0B}\U{0C}\U{1C}\U{1D}\U{1E}\U{1F}"
  {
  }

  /** The digit behind a number counts one, and what is before it ten times as much. */
  lemma DecimalMeans(s: string, k: nat)
    requires k < 10 && forall i :: 0 <= i < |s| ==> IsDigit(s[i])
    ensures DecimalValue("") == 0
    ensures forall i :: 0 <= i < |s + [DIGITS[k]]| ==> IsDigit((s + [DIGITS[k]])[i])
    ensures DecimalValue(s + [DIGITS[k]]) == 10 * DecimalValue(s) + k
  {
    Digits(DIGITS[k]);
    assert (s + [DIGITS[k]])[..|s|] == s;
    assert DIGITS[k] as int == '0' as int + k;
  }
}
