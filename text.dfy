/**
 * The string operations the scraper applies to extracted text: Python's
 * `str.strip()`, `str.isdigit()`, `str.lower()`, the `in` substring test,
 * `' '.join(...)`, and the two regular-expression rewrites
 * `re.sub(r'\[\d+\]', '', s)` (footnote removal) and `re.sub(r'\s+', ' ', s)`
 * (whitespace collapse), written out as string functions.
 */
module Text {

  /** Python's `str.isspace()`, which is also what `\s` matches in a `str` pattern. */
  predicate IsSpace(c: char) {
    c == ' ' || ('\t' <= c <= '\r') || ('\U{1C}' <= c <= '\U{1F}')
    || c == '\U{85}' || c == '\U{A0}' || c == '\U{1680}'
    || ('\U{2000}' <= c <= '\U{200A}') || c == '\U{2028}' || c == '\U{2029}'
    || c == '\U{202F}' || c == '\U{205F}' || c == '\U{3000}'
  }

  predicate IsDigit(c: char) {
    '0' <= c <= '9'
  }

  /** `str.isdigit()` on ASCII digits: non-empty and digits only. */
  predicate IsDigits(s: string) {
    |s| > 0 && forall i :: 0 <= i < |s| ==> IsDigit(s[i])
  }

  predicate AllSpace(s: string) {
    forall i :: 0 <= i < |s| ==> IsSpace(s[i])
  }

  /** Neither end of `s` is whitespace. */
  predicate NoOuterSpace(s: string) {
    s == [] || (!IsSpace(s[0]) && !IsSpace(s[|s| - 1]))
  }

  /** Positions `k` and `k + 1` of `s` are both whitespace. */
  predicate SpacePairAt(s: string, k: nat)
    requires k + 1 < |s|
  {
    IsSpace(s[k]) && IsSpace(s[k + 1])
  }

  /** No two adjacent whitespace characters. */
  predicate NoDoubleSpace(s: string) {
    forall k: nat :: k + 1 < |s| ==> !SpacePairAt(s, k)
  }

  /** The characters of `s` that are not whitespace, in order. */
  function NonSpace(s: string): string {
    if s == [] then []
    else if IsSpace(s[0]) then NonSpace(s[1..])
    else [s[0]] + NonSpace(s[1..])
  }

  /** Whether `sub` occurs in `s` at position `i`. */
  predicate OccursAt(s: string, sub: string, i: nat) {
    i + |sub| <= |s| && s[i..i + |sub|] == sub
  }

  predicate StartsWith(s: string, prefix: string) {
    |prefix| <= |s| && s[..|prefix|] == prefix
  }

  /** Python's `sub in s`, as a scan over the start positions. */
  predicate Contains(s: string, sub: string)
    decreases |s|
  {
    StartsWith(s, sub) || (s != [] && Contains(s[1..], sub))
  }

  /** A pattern holding a character the text lacks does not occur in it. */
  lemma MissingChar(s: string, sub: string, c: char)
    requires c in sub && c !in s
    ensures !Contains(s, sub)
  {
    if Contains(s, sub) {
      ContainsChars(s, sub);
      assert false;
    }
  }

  /** Every character of a contained text occurs in the containing one. */
  lemma ContainsChars(s: string, sub: string)
    requires Contains(s, sub)
    ensures forall c :: c in sub ==> c in s
  {
    var i := ContainsWitness(s, sub);
    forall c | c in sub
      ensures c in s
    {
      var k :| 0 <= k < |sub| && sub[k] == c;
      assert s[i..i + |sub|][k] == s[i + k];
    }
  }

  /** When `s` contains `sub`, the scan finds a position where it occurs. */
  lemma {:induction false} ContainsWitness(s: string, sub: string) returns (i: nat)
    requires Contains(s, sub)
    ensures i <= |s| && OccursAt(s, sub, i)
    decreases |s|
  {
    if StartsWith(s, sub) {
      assert s[0..|sub|] == s[..|sub|];
      i := 0;
    } else {
      var j := ContainsWitness(s[1..], sub);
      assert s[j + 1..j + 1 + |sub|] == s[1..][j..j + |sub|];
      i := j + 1;
    }
  }

  /** An occurrence at any position is found by the scan. */
  lemma {:induction false} OccursContains(s: string, sub: string, i: nat)
    requires OccursAt(s, sub, i)
    ensures Contains(s, sub)
    decreases i
  {
    if i == 0 {
      assert s[0..|sub|] == s[..|sub|];
    } else {
      assert s[1..][i - 1..i - 1 + |sub|] == s[i..i + |sub|];
      OccursContains(s[1..], sub, i - 1);
    }
  }

  /** `Contains` holds exactly when `sub` occurs at some position of `s`. */
  lemma ContainsOccurs(s: string, sub: string)
    ensures Contains(s, sub) <==> exists i: nat :: i <= |s| && OccursAt(s, sub, i)
  {
    if Contains(s, sub) {
      var i := ContainsWitness(s, sub);
    }
    if exists i: nat :: i <= |s| && OccursAt(s, sub, i) {
      var i: nat :| i <= |s| && OccursAt(s, sub, i);
      OccursContains(s, sub, i);
    }
  }


  // ---------------------------------------------------------------- strip

  function TrimStart(s: string): (r: string)
    ensures |r| <= |s|
    ensures s != [] && IsSpace(s[0]) ==> |r| < |s|
    ensures r == [] || !IsSpace(r[0])
  {
    if s != [] && IsSpace(s[0]) then TrimStart(s[1..]) else s
  }

  /** `TrimStart` drops a whitespace prefix and nothing else. */
  lemma {:induction false} TrimStartSlice(s: string)
    ensures TrimStart(s) == s[|s| - |TrimStart(s)|..]
    ensures AllSpace(s[..|s| - |TrimStart(s)|])
  {
    if s != [] && IsSpace(s[0]) {
      TrimStartSlice(s[1..]);
    }
  }

  function TrimEnd(s: string): (r: string)
    ensures |r| <= |s|
    ensures r == [] || !IsSpace(r[|r| - 1])
  {
    if s != [] && IsSpace(s[|s| - 1]) then TrimEnd(s[..|s| - 1]) else s
  }

  /** `TrimEnd` drops a whitespace suffix and nothing else. */
  lemma {:induction false} TrimEndSlice(s: string)
    ensures TrimEnd(s) == s[..|TrimEnd(s)|]
    ensures AllSpace(s[|TrimEnd(s)|..])
  {
    if s != [] && IsSpace(s[|s| - 1]) {
      TrimEndSlice(s[..|s| - 1]);
    }
  }

  /** Python's `str.strip()` with no argument. */
  function Strip(s: string): (r: string)
    ensures NoOuterSpace(r)
    ensures |r| <= |s|
  {
    TrimEndSlice(TrimStart(s));
    TrimEnd(TrimStart(s))
  }

  /** `Strip` removes only whitespace, and only from the two ends. */
  lemma StripSlice(s: string) returns (i: nat)
    ensures i + |Strip(s)| <= |s|
    ensures Strip(s) == s[i..i + |Strip(s)|]
    ensures AllSpace(s[..i]) && AllSpace(s[i + |Strip(s)|..])
  {
    var t := TrimStart(s);
    i := |s| - |t|;
    var r := TrimEnd(t);
    TrimStartSlice(s);
    TrimEndSlice(t);
    assert s[i..] == t;
    assert s[i..i + |r|] == t[..|r|];
    assert s[i + |r|..] == t[|r|..];
  }

  lemma NonSpaceConcat(a: string, b: string)
    ensures NonSpace(a + b) == NonSpace(a) + NonSpace(b)
  {
    if a == [] {
      assert a + b == b;
    } else {
      assert (a + b)[0] == a[0];
      assert (a + b)[1..] == a[1..] + b;
      NonSpaceConcat(a[1..], b);
    }
  }

  lemma NonSpaceOfSpaces(s: string)
    requires AllSpace(s)
    ensures NonSpace(s) == []
  {
    if s != [] {
      NonSpaceOfSpaces(s[1..]);
    }
  }

  /** Stripping keeps every non-whitespace character. */
  lemma {:induction false} StripKeepsText(s: string)
    ensures NonSpace(Strip(s)) == NonSpace(s)
  {
    var i := StripSlice(s);
    var r := Strip(s);
    var lead, trail := s[..i], s[i + |r|..];
    assert s == (lead + r) + trail;
    NonSpaceConcat(lead + r, trail);
    NonSpaceConcat(lead, r);
    NonSpaceOfSpaces(lead);
    NonSpaceOfSpaces(trail);
  }

  /** Stripping text with no double whitespace leaves none. */
  lemma {:induction false} StripKeepsSingleSpaces(s: string)
    requires NoDoubleSpace(s)
    ensures NoDoubleSpace(Strip(s))
  {
    var i := StripSlice(s);
    var r := Strip(s);
    forall k: nat | k + 1 < |r|
      ensures !SpacePairAt(r, k)
    {
      assert r[k] == s[i + k] && r[k + 1] == s[i + k + 1];
      assert !SpacePairAt(s, i + k);
    }
  }

  /** Stripping text that has no outer whitespace changes nothing. */
  lemma {:induction false} StripTrimmed(s: string)
    requires NoOuterSpace(s)
    ensures Strip(s) == s
  {
  }

  // ---------------------------------------------------------------- lower / join

  function LowerChar(c: char): char {
    if 'A' <= c <= 'Z' then (c as int + 32) as char else c
  }

  /** `str.lower()` on ASCII letters. */
  function ToLower(s: string): (r: string)
    ensures |r| == |s|
    ensures forall i :: 0 <= i < |s| ==> r[i] == LowerChar(s[i])
  {
    seq(|s|, i requires 0 <= i < |s| => LowerChar(s[i]))
  }

  /** Lower-casing twice is lower-casing once. */
  lemma ToLowerIdempotent(s: string)
    ensures ToLower(ToLower(s)) == ToLower(s)
  {
    assert forall i :: 0 <= i < |s| ==> LowerChar(LowerChar(s[i])) == LowerChar(s[i]);
  }

  function LowerAll(parts: seq<string>): (r: seq<string>)
    ensures |r| == |parts|
    ensures forall i :: 0 <= i < |parts| ==> r[i] == ToLower(parts[i])
  {
    seq(|parts|, i requires 0 <= i < |parts| => ToLower(parts[i]))
  }

  /** `' '.join(parts)`. */
  function JoinSpace(parts: seq<string>): string {
    if parts == [] then ""
    else if |parts| == 1 then parts[0]
    else parts[0] + " " + JoinSpace(parts[1..])
  }

  /** Lower-casing a joined header text is the same as joining the lower-cased headers. */
  lemma {:induction false} ToLowerJoin(parts: seq<string>)
    ensures ToLower(JoinSpace(parts)) == JoinSpace(LowerAll(parts))
  {
    if |parts| > 1 {
      ToLowerJoin(parts[1..]);
      assert LowerAll(parts)[1..] == LowerAll(parts[1..]);
      var a, b := parts[0] + " ", JoinSpace(parts[1..]);
      assert ToLower(a + b) == ToLower(a) + ToLower(b);
      assert ToLower(parts[0] + " ") == ToLower(parts[0]) + " ";
    }
  }

  // ---------------------------------------------------------------- re.sub(r'\s+', ' ', s)

  /** Every maximal run of whitespace replaced by one space, as `re.sub(r'\s+', ' ', s)`. */
  function CollapseSpaces(s: string): (r: string)
    ensures |r| <= |s|
    ensures s == [] <==> r == []
    ensures s != [] ==> r[0] == (if IsSpace(s[0]) then ' ' else s[0])
    ensures NoDoubleSpace(r)
    ensures forall k :: 0 <= k < |r| && IsSpace(r[k]) ==> r[k] == ' '
    decreases |s|
  {
    if s == [] then []
    else if IsSpace(s[0]) then
      var rest := CollapseSpaces(TrimStart(s));
      ConsNoDoubleSpace(' ', rest);
      [' '] + rest
    else
      var rest := CollapseSpaces(s[1..]);
      ConsNoDoubleSpace(s[0], rest);
      [s[0]] + rest
  }

  lemma ConsNoDoubleSpace(c: char, t: string)
    requires NoDoubleSpace(t)
    requires t == [] || !IsSpace(c) || !IsSpace(t[0])
    ensures NoDoubleSpace([c] + t)
  {
    var s := [c] + t;
    forall k: nat | k + 1 < |s|
      ensures !SpacePairAt(s, k)
    {
      if k > 0 {
        assert !SpacePairAt(t, k - 1);
      }
    }
  }

  lemma TailNoDoubleSpace(s: string)
    requires s != [] && NoDoubleSpace(s)
    ensures NoDoubleSpace(s[1..])
    ensures |s| > 1 && IsSpace(s[0]) ==> !IsSpace(s[1])
  {
    var t := s[1..];
    forall k: nat | k + 1 < |t|
      ensures !SpacePairAt(t, k)
    {
      assert !SpacePairAt(s, k + 1);
    }
    if |s| > 1 {
      assert !SpacePairAt(s, 0);
    }
  }

  /** Collapsing keeps every non-whitespace character in order. */
  lemma {:induction false} CollapseKeepsText(s: string)
    ensures NonSpace(CollapseSpaces(s)) == NonSpace(s)
    decreases |s|
  {
    if s != [] {
      if IsSpace(s[0]) {
        var t := TrimStart(s);
        var lead := s[..|s| - |t|];
        TrimStartSlice(s);
        CollapseKeepsText(t);
        assert CollapseSpaces(s) == [' '] + CollapseSpaces(t);
        NonSpaceConcat([' '], CollapseSpaces(t));
        assert NonSpace([' ']) == [];
        assert s == lead + t;
        NonSpaceConcat(lead, t);
        NonSpaceOfSpaces(lead);
      } else {
        CollapseKeepsText(s[1..]);
        assert CollapseSpaces(s) == [s[0]] + CollapseSpaces(s[1..]);
        NonSpaceConcat([s[0]], CollapseSpaces(s[1..]));
        assert NonSpace([s[0]]) == [s[0]];
      }
    }
  }

  /** Collapsing is idempotent: collapsed text has nothing left to collapse. */
  lemma {:induction false} CollapseIdempotent(s: string)
    ensures CollapseSpaces(CollapseSpaces(s)) == CollapseSpaces(s)
  {
    CollapseFixed(CollapseSpaces(s));
  }

  lemma {:induction false} CollapseFixed(s: string)
    requires NoDoubleSpace(s)
    requires forall k :: 0 <= k < |s| && IsSpace(s[k]) ==> s[k] == ' '
    ensures CollapseSpaces(s) == s
  {
    if s != [] {
      TailNoDoubleSpace(s);
      if IsSpace(s[0]) {
        assert TrimStart(s) == s[1..] by {
          if |s| > 1 {
            assert TrimStart(s) == TrimStart(s[1..]);
          }
        }
      }
      CollapseFixed(s[1..]);
    }
  }

  /** Leading whitespace in front of text that does not start with whitespace is trimmed whole. */
  lemma {:induction false} TrimStartSpaces(w: string, b: string)
    requires AllSpace(w)
    requires b == [] || !IsSpace(b[0])
    ensures TrimStart(w + b) == b
  {
    if w != [] {
      assert (w + b)[1..] == w[1..] + b;
      TrimStartSpaces(w[1..], b);
    } else {
      assert w + b == b;
    }
  }

  /** Trimming text that ends in a non-whitespace character only touches its front. */
  lemma {:induction false} TrimStartConcat(a: string, y: string)
    requires a != [] && !IsSpace(a[|a| - 1])
    ensures TrimStart(a + y) == TrimStart(a) + y
  {
    if IsSpace(a[0]) {
      assert |a| > 1;
      assert (a + y)[1..] == a[1..] + y;
      TrimStartConcat(a[1..], y);
    }
  }

  /** Trimming the front of text that ends in a non-whitespace character keeps that end. */
  lemma TrimStartKeepsLast(a: string)
    requires a != [] && !IsSpace(a[|a| - 1])
    ensures TrimStart(a) != [] && TrimStart(a)[|TrimStart(a)| - 1] == a[|a| - 1]
    ensures |TrimStart(a)| < |a| || !IsSpace(a[0])
  {
    TrimStartSlice(a);
  }

  /** A leading whitespace run becomes one space in front of the collapsed rest. */
  lemma CollapseLead(w: string, b: string)
    requires w != [] && AllSpace(w)
    requires b == [] || !IsSpace(b[0])
    ensures CollapseSpaces(w + b) == [' '] + CollapseSpaces(b)
  {
    TrimStartSpaces(w, b);
    assert (w + b)[0] == w[0];
  }

  /** Collapsing text that starts with a whitespace run ending before a non-whitespace character. */
  lemma CollapseSpaceStep(a: string, y: string)
    requires a != [] && IsSpace(a[0]) && !IsSpace(a[|a| - 1])
    ensures CollapseSpaces(a + y) == [' '] + CollapseSpaces(TrimStart(a) + y)
    ensures CollapseSpaces(a) == [' '] + CollapseSpaces(TrimStart(a))
  {
    TrimStartConcat(a, y);
  }

  /** Collapsing text that starts with a non-whitespace character. */
  lemma CollapseCharStep(a: string, y: string)
    requires a != [] && !IsSpace(a[0])
    ensures CollapseSpaces(a + y) == [a[0]] + CollapseSpaces(a[1..] + y)
    ensures CollapseSpaces(a) == [a[0]] + CollapseSpaces(a[1..])
  {
    assert (a + y)[1..] == a[1..] + y;
  }

  /** Putting the same text in front of both sides of a join. */
  lemma JoinCons(c: string, whole: string, x: string, y: string)
    requires whole == x + " " + y
    ensures c + whole == (c + x) + " " + y
  {
  }

  /**
   * A whitespace run between two pieces of text becomes exactly one space,
   * and each side is collapsed on its own.
   */
  lemma {:induction false} CollapseRun(a: string, w: string, b: string)
    requires w != [] && AllSpace(w)
    requires a == [] || !IsSpace(a[|a| - 1])
    requires b == [] || !IsSpace(b[0])
    ensures CollapseSpaces(a + w + b) == CollapseSpaces(a) + " " + CollapseSpaces(b)
    decreases |a|, 1
  {
    if a == [] {
      assert a + w + b == w + b;
      CollapseLead(w, b);
    } else if IsSpace(a[0]) {
      CollapseRunAfterSpace(a, w, b);
    } else {
      CollapseRunAfterChar(a, w, b);
    }
  }

  /** `CollapseRun` when the text in front starts with whitespace. */
  lemma {:induction false} CollapseRunAfterSpace(a: string, w: string, b: string)
    requires w != [] && AllSpace(w)
    requires a != [] && IsSpace(a[0]) && !IsSpace(a[|a| - 1])
    requires b == [] || !IsSpace(b[0])
    ensures CollapseSpaces(a + w + b) == CollapseSpaces(a) + " " + CollapseSpaces(b)
    decreases |a|, 0
  {
    var y := w + b;
    var t := TrimStart(a);
    TrimStartKeepsLast(a);
    CollapseRun(t, w, b);
    assert a + w + b == a + y && t + w + b == t + y;
    CollapseSpaceStep(a, y);
    JoinCons([' '], CollapseSpaces(t + y), CollapseSpaces(t), CollapseSpaces(b));
  }

  /** `CollapseRun` when the text in front starts with a non-whitespace character. */
  lemma {:induction false} CollapseRunAfterChar(a: string, w: string, b: string)
    requires w != [] && AllSpace(w)
    requires a != [] && !IsSpace(a[0]) && !IsSpace(a[|a| - 1])
    requires b == [] || !IsSpace(b[0])
    ensures CollapseSpaces(a + w + b) == CollapseSpaces(a) + " " + CollapseSpaces(b)
    decreases |a|, 0
  {
    var y := w + b;
    var rest := a[1..];
    assert rest == [] || rest[|rest| - 1] == a[|a| - 1];
    CollapseRun(rest, w, b);
    assert a + w + b == a + y && rest + w + b == rest + y;
    CollapseCharStep(a, y);
    JoinCons([a[0]], CollapseSpaces(rest + y), CollapseSpaces(rest), CollapseSpaces(b));
  }

  // ---------------------------------------------------------------- re.sub(r'\[\d+\]', '', s)

  /** A footnote marker: `[`, one or more ASCII digits, `]`. */
  predicate IsMarker(m: string) {
    |m| >= 3 && m[0] == '[' && m[|m| - 1] == ']' && IsDigits(m[1..|m| - 1])
  }

  /** The number of leading ASCII digits of `s`. */
  function DigitRun(s: string): (n: nat)
    ensures n <= |s|
    ensures forall i :: 0 <= i < n ==> IsDigit(s[i])
    ensures n < |s| ==> !IsDigit(s[n])
  {
    if s != [] && IsDigit(s[0]) then 1 + DigitRun(s[1..]) else 0
  }

  /** The length of the footnote marker `s` starts with, or 0 when it starts with none. */
  function MarkerLength(s: string): (n: nat)
    ensures n == 0 || (n <= |s| && IsMarker(s[..n]))
  {
    if s != [] && s[0] == '[' then
      var d := DigitRun(s[1..]);
      if d > 0 && d + 1 < |s| && s[d + 1] == ']' then
        assert s[..d + 2][1..d + 1] == s[1..][..d];
        d + 2
      else 0
    else 0
  }

  /**
   * Every footnote marker deleted, scanning left to right without rescanning
   * the result, as `re.sub(r'\[\d+\]', '', s)` does.
   */
  function RemoveFootnotes(s: string): (r: string)
    ensures |r| <= |s|
    decreases |s|
  {
    if s == [] then []
    else
      var m := MarkerLength(s);
      if m > 0 then RemoveFootnotes(s[m..]) else [s[0]] + RemoveFootnotes(s[1..])
  }

  /** Text with no `[` is left as it is. */
  lemma {:induction false} RemoveFootnotesPlain(s: string)
    requires '[' !in s
    ensures RemoveFootnotes(s) == s
  {
    if s != [] {
      RemoveFootnotesPlain(s[1..]);
    }
  }

  /** A text prefix with no `[` is kept, and the rest is processed on its own. */
  lemma {:induction false} RemoveFootnotesPrefix(w: string, t: string)
    requires '[' !in w
    ensures RemoveFootnotes(w + t) == w + RemoveFootnotes(t)
  {
    if w == [] {
      assert w + t == t;
    } else {
      var s := w + t;
      assert s[0] == w[0] && s[0] != '[';
      assert MarkerLength(s) == 0;
      assert s[1..] == w[1..] + t;
      RemoveFootnotesPrefix(w[1..], t);
    }
  }

  /** A footnote marker at the front is dropped entirely. */
  lemma {:induction false} RemoveFootnotesMarker(m: string, t: string)
    requires IsMarker(m)
    ensures RemoveFootnotes(m + t) == RemoveFootnotes(t)
  {
    var s := m + t;
    var digits := m[1..|m| - 1];
    assert s[1..] == digits + ([']'] + t);
    DigitRunOf(digits, [']'] + t);
    assert s[|m|..] == t;
  }

  /**
   * A `[` that does not open a marker (no digits, or no `]` right after
   * them) is kept, and scanning goes on from the next character.
   */
  lemma UnmatchedBracketKept(t: string)
    requires DigitRun(t) == 0 || DigitRun(t) == |t| || t[DigitRun(t)] != ']'
    ensures RemoveFootnotes(['['] + t) == ['['] + RemoveFootnotes(t)
  {
    var s := ['['] + t;
    assert s[1..] == t;
    assert MarkerLength(s) == 0;
  }

  /** `"[a]"` and `"x[]"` have no marker; `"[[1]"` loses only its marker. */
  lemma FootnoteExamples()
    ensures RemoveFootnotes("[a]") == "[a]"
    ensures RemoveFootnotes("x[]") == "x[]"
    ensures RemoveFootnotes("[[1]") == "["
  {
    RemoveFootnotesPlain("a]");
    UnmatchedBracketKept("a]");
    RemoveFootnotesPlain("]");
    UnmatchedBracketKept("]");
    RemoveFootnotesPrefix("x", "[]");
    assert "x[]" == "x" + "[]";
    assert "[1]" == "[1]" + [];
    RemoveFootnotesMarker("[1]", []);
    UnmatchedBracketKept("[1]");
  }

  lemma {:induction false} DigitRunOf(d: string, t: string)
    requires forall i :: 0 <= i < |d| ==> IsDigit(d[i])
    requires t == [] || !IsDigit(t[0])
    ensures DigitRun(d + t) == |d|
  {
    if d != [] {
      assert (d + t)[1..] == d[1..] + t;
      DigitRunOf(d[1..], t);
    }
  }

  /**
   * The text cleanup of a regular column: cell text stripped, footnote markers
   * removed, whitespace runs collapsed, ends stripped.
   */
  function CleanText(raw: string): string {
    Strip(CollapseSpaces(RemoveFootnotes(Strip(raw))))
  }

  /**
   * Cleaned text has no leading or trailing whitespace, no two adjacent
   * whitespace characters, and keeps every non-whitespace character that
   * footnote removal left.
   */
  lemma {:induction false} CleanTextShape(raw: string)
    ensures NoOuterSpace(CleanText(raw))
    ensures NoDoubleSpace(CleanText(raw))
    ensures NonSpace(CleanText(raw)) == NonSpace(RemoveFootnotes(Strip(raw)))
  {
    var f := RemoveFootnotes(Strip(raw));
    CollapseKeepsText(f);
    StripKeepsText(CollapseSpaces(f));
    StripKeepsSingleSpaces(CollapseSpaces(f));
  }

  /** Cleanup of text that is already clean changes nothing. */
  lemma {:induction false} CleanTextIdempotent(raw: string)
    ensures '[' !in CleanText(raw) ==> CleanText(CleanText(raw)) == CleanText(raw)
  {
    var c := CleanText(raw);
    if '[' !in c {
      CleanTextShape(raw);
      StripTrimmed(c);
      RemoveFootnotesPlain(c);
      // c is a slice of collapsed text, so its only whitespace is plain spaces
      var _ := StripSlice(CollapseSpaces(RemoveFootnotes(Strip(raw))));
      CollapseFixed(c);
    }
  }

  /** Text that cleanup leaves as it is: trimmed, single spaces only, no `[`. */
  predicate IsCleanWord(w: string) {
    w != [] && NoOuterSpace(w) && NoDoubleSpace(w) && '[' !in w
    && forall k :: 0 <= k < |w| && IsSpace(w[k]) ==> w[k] == ' '
  }

  /**
   * Footnote markers after a name are dropped, with or without a separating
   * space: "Widget[3]" and "Widget [12][4]" both clean to "Widget".
   */
  lemma {:induction false} TrailingFootnotesDropped(w: string, m1: string, m2: string)
    requires IsCleanWord(w) && IsMarker(m1) && IsMarker(m2)
    ensures CleanText(w + m1) == w
    ensures CleanText(w + " " + m1 + m2) == w
  {
    MarkerAfterWord(w, m1);
    MarkersAfterSpace(w, m1, m2);
  }

  lemma {:induction false} MarkerAfterWord(w: string, m: string)
    requires IsCleanWord(w) && IsMarker(m)
    ensures CleanText(w + m) == w
  {
    var one := w + m;
    assert one[0] == w[0] && one[|one| - 1] == m[|m| - 1];
    RemoveFootnotesPrefix(w, m);
    assert m + [] == m;
    RemoveFootnotesMarker(m, []);
    CleanTextOf(one, w);
    CollapseFixed(w);
    StripTrimmed(w);
  }

  lemma {:induction false} MarkersAfterSpace(w: string, m1: string, m2: string)
    requires IsCleanWord(w) && IsMarker(m1) && IsMarker(m2)
    ensures CleanText(w + " " + m1 + m2) == w
  {
    var w' := w + " ";
    var two := w + " " + m1 + m2;
    assert two[0] == w[0] && two[|two| - 1] == m2[|m2| - 1];
    assert two == w' + (m1 + m2);
    RemoveFootnotesPrefix(w', m1 + m2);
    RemoveFootnotesMarker(m1, m2);
    assert m2 + [] == m2;
    RemoveFootnotesMarker(m2, []);
    CleanTextOf(two, w');
    SpaceAfterWord(w);
  }

  /** For text without outer whitespace, cleanup is collapse-and-strip of its footnote-free form. */
  lemma CleanTextOf(raw: string, f: string)
    requires NoOuterSpace(raw) && RemoveFootnotes(raw) == f
    ensures CleanText(raw) == Strip(CollapseSpaces(f))
  {
    StripTrimmed(raw);
  }

  lemma SpaceAfterWord(w: string)
    requires IsCleanWord(w)
    ensures Strip(CollapseSpaces(w + " ")) == w
  {
    var w' := w + " ";
    assert NoDoubleSpace(w') by {
      forall k: nat | k + 1 < |w'|
        ensures !SpacePairAt(w', k)
      {
        if k + 1 < |w| {
          assert !SpacePairAt(w, k);
        }
      }
    }
    CollapseFixed(w');
    assert TrimStart(w') == w';
    assert w'[..|w'| - 1] == w;
    assert TrimEnd(w') == TrimEnd(w);
    assert TrimEnd(w) == w;
  }

  /**
   * Two clean words separated by any whitespace run clean to the words joined
   * by one space: the separation survives, collapsed.
   */
  lemma CleanTextJoinsWords(u: string, w: string, v: string)
    requires IsCleanWord(u) && IsCleanWord(v)
    requires w != [] && AllSpace(w)
    ensures CleanText(u + w + v) == u + " " + v
  {
    var s := u + w + v;
    var j := u + " " + v;
    assert Strip(s) == s by {
      assert s[0] == u[0] && s[|s| - 1] == v[|v| - 1];
      StripTrimmed(s);
    }
    assert RemoveFootnotes(s) == s by {
      assert forall k :: 0 <= k < |w| ==> w[k] != '[';
      assert '[' !in s;
      RemoveFootnotesPlain(s);
    }
    assert CollapseSpaces(s) == j by {
      CollapseRun(u, w, v);
      CollapseFixed(u);
      CollapseFixed(v);
    }
    assert Strip(j) == j by {
      assert j[0] == u[0] && j[|j| - 1] == v[|v| - 1];
      StripTrimmed(j);
    }
  }
}
