/**
 * String operations the source relies on, with the semantics of the language that
 * calls them: JavaScript `split`, `join`, `trim`, `startsWith`, `includes`,
 * `toLowerCase`, the `\s`/`\D` regex classes, and Python `str.strip`.
 * Strings are sequences of Unicode scalar values (no UTF-16 surrogates).
 */
module Text {
  import Seqs

  /** JavaScript (`trim`, `\s`) and Python (`str.strip`, `str.isspace`) disagree on a few characters. */
  datatype SpaceRule = JsSpace | PySpace

  predicate IsSpace(rule: SpaceRule, c: char) {
    // Shared by both: ASCII controls TAB..CR, SPACE, NBSP, the Unicode space separators
    // and the line/paragraph separators.
    || ('\t' <= c <= '\r') || c == ' ' || c == '\U{00A0}' || c == '\U{1680}'
    || ('\U{2000}' <= c <= '\U{200A}') || c == '\U{2028}' || c == '\U{2029}'
    || c == '\U{202F}' || c == '\U{205F}' || c == '\U{3000}'
    || match rule
       // JavaScript counts the byte-order mark as white space.
       case JsSpace => c == '\U{FEFF}'
       // Python counts the information separators and NEL.
       case PySpace => ('\U{001C}' <= c <= '\U{001F}') || c == '\U{0085}'
  }

  predicate IsBlank(rule: SpaceRule, s: string) {
    forall i :: 0 <= i < |s| ==> IsSpace(rule, s[i])
  }

  predicate IsDigit(c: char) {
    '0' <= c <= '9'
  }

  // ---------------------------------------------------------------- trimming

  function TrimStart(rule: SpaceRule, s: string): (r: string)
    ensures |r| <= |s| && r == s[|s| - |r|..]
    ensures IsBlank(rule, s[..|s| - |r|])
    ensures r == [] || !IsSpace(rule, r[0])
  {
    if |s| > 0 && IsSpace(rule, s[0]) then
      var r := TrimStart(rule, s[1..]);
      assert s[..|s| - |r|] == [s[0]] + s[1..][..|s| - 1 - |r|];
      r
    else s
  }

  function TrimEnd(rule: SpaceRule, s: string): (r: string)
    ensures |r| <= |s| && r == s[..|r|]
    ensures IsBlank(rule, s[|r|..])
    ensures r == [] || !IsSpace(rule, r[|r| - 1])
  {
    if |s| > 0 && IsSpace(rule, s[|s| - 1]) then
      var r := TrimEnd(rule, s[..|s| - 1]);
      assert s[|r|..] == s[..|s| - 1][|r|..] + [s[|s| - 1]];
      r
    else s
  }

  /** `s.trim()` (JsSpace) or `s.strip()` (PySpace). */
  function Trim(rule: SpaceRule, s: string): string {
    TrimEnd(rule, TrimStart(rule, s))
  }

  /** What trimming means: the result is a slice of the input, only white space was cut off, and its ends are not white space. */
  lemma TrimIsCore(rule: SpaceRule, s: string)
    ensures exists i :: CutAt(rule, s, Trim(rule, s), i)
    ensures IsTrimmed(rule, Trim(rule, s))
  {
    var t := TrimStart(rule, s);
    CutOfParts(rule, s, t, TrimEnd(rule, t));
    assert CutAt(rule, s, Trim(rule, s), |s| - |t|);
  }

  /** Cutting blanks off the front and then off the back is one cut. */
  lemma CutOfParts(rule: SpaceRule, s: string, t: string, r: string)
    requires |t| <= |s| && t == s[|s| - |t|..] && IsBlank(rule, s[..|s| - |t|])
    requires |r| <= |t| && r == t[..|r|] && IsBlank(rule, t[|r|..])
    ensures CutAt(rule, s, r, |s| - |t|)
  {
    var i := |s| - |t|;
    assert s[i..i + |r|] == t[..|r|];
    assert s[i + |r|..] == t[|r|..];
  }

  /** `r` is `s` with the white space `s[..i]` cut off in front and white space cut off behind. */
  predicate CutAt(rule: SpaceRule, s: string, r: string, i: int) {
    0 <= i <= i + |r| <= |s| && r == s[i..i + |r|] && IsBlank(rule, s[..i]) && IsBlank(rule, s[i + |r|..])
  }

  /** Neither end of `s` is white space. */
  predicate IsTrimmed(rule: SpaceRule, s: string) {
    s == [] || (!IsSpace(rule, s[0]) && !IsSpace(rule, s[|s| - 1]))
  }

  /** Trimming leaves a trimmed string alone, and its result is trimmed, so trimming is idempotent. */
  lemma TrimTrimmed(rule: SpaceRule, s: string)
    ensures IsTrimmed(rule, s) ==> Trim(rule, s) == s
    ensures IsTrimmed(rule, Trim(rule, s))
  {
    TrimIsCore(rule, s);
    var i :| CutAt(rule, s, Trim(rule, s), i);
  }

  /** Every character of the trimmed string comes from the input. */
  lemma TrimChars(rule: SpaceRule, s: string, c: char)
    ensures c in Trim(rule, s) ==> c in s
  {
    TrimIsCore(rule, s);
    var i :| CutAt(rule, s, Trim(rule, s), i);
  }

  /** A string trims to "" exactly when it is all white space. */
  lemma TrimEmptyIffBlank(rule: SpaceRule, s: string)
    ensures Trim(rule, s) == "" <==> IsBlank(rule, s)
  {
    var t := TrimStart(rule, s);
    if Trim(rule, s) == "" {
      assert IsBlank(rule, t[0..]);
      assert s == s[..|s| - |t|] + t;
    }
  }

  // ---------------------------------------------------------------- split / join

  /** `s.split(sep)` for a one-character separator: always at least one piece, "" gives [""]. */
  function Split(s: string, sep: char): (parts: seq<string>)
    ensures |parts| >= 1
    ensures forall i :: 0 <= i < |parts| ==> sep !in parts[i]
    decreases |s|
  {
    if |s| == 0 then [""]
    else if s[0] == sep then [""] + Split(s[1..], sep)
    else
      var rest := Split(s[1..], sep);
      [[s[0]] + rest[0]] + rest[1..]
  }

  /** The first piece of a split is the text before the first separator (or the whole string). */
  lemma {:induction false} SplitHead(s: string, sep: char)
    ensures var h := Split(s, sep)[0]; StartsWith(s, h) && (|h| == |s| || s[|h|] == sep)
    decreases |s|
  {
    if |s| > 0 && s[0] != sep {
      SplitHead(s[1..], sep);
      var h := Split(s, sep)[0];
      var rest := Split(s[1..], sep)[0];
      assert h == [s[0]] + rest;
      assert s[..|h|] == [s[0]] + s[1..][..|rest|];
    }
  }

  /** `parts.join(sep)`: [] gives "". */
  function Join(parts: seq<string>, sep: string): string {
    if |parts| == 0 then ""
    else if |parts| == 1 then parts[0]
    else parts[0] + sep + Join(parts[1..], sep)
  }

  /** Joining the pieces of a split with the same separator gives back the string. */
  lemma {:induction false} JoinSplit(s: string, sep: char)
    ensures Join(Split(s, sep), [sep]) == s
    decreases |s|
  {
    if |s| == 0 {
    } else if s[0] == sep {
      JoinSplit(s[1..], sep);
      var rest := Split(s[1..], sep);
      assert Split(s, sep) == [""] + rest;
      assert ([""] + rest)[1..] == rest;
    } else {
      JoinSplit(s[1..], sep);
      var rest := Split(s[1..], sep);
      var parts := [[s[0]] + rest[0]] + rest[1..];
      assert Split(s, sep) == parts;
      if |rest| == 1 {
        assert Join(parts, [sep]) == [s[0]] + rest[0];
      } else {
        assert parts[1..] == rest[1..];
        assert Join(rest, [sep]) == rest[0] + [sep] + Join(rest[1..], [sep]);
      }
    }
  }

  /** A string without the separator splits into itself. */
  lemma {:induction false} SplitNoSep(p: string, sep: char)
    requires sep !in p
    ensures Split(p, sep) == [p]
    decreases |p|
  {
    if |p| > 0 {
      SplitNoSep(p[1..], sep);
      assert [p[0]] + p[1..] == p;
    }
  }

  /** Splitting `p + sep + t` where `p` has no separator peels off `p`. */
  lemma {:induction false} SplitCons(p: string, t: string, sep: char)
    requires sep !in p
    ensures Split(p + [sep] + t, sep) == [p] + Split(t, sep)
    decreases |p|
  {
    var s := p + [sep] + t;
    if |p| == 0 {
      assert s[0] == sep && s[1..] == t;
    } else {
      assert s[0] == p[0] && s[1..] == p[1..] + [sep] + t;
      SplitCons(p[1..], t, sep);
      assert [p[0]] + p[1..] == p;
    }
  }

  /** Splitting a join of separator-free pieces gives back the pieces. */
  lemma {:induction false} SplitJoin(parts: seq<string>, sep: char)
    requires |parts| >= 1
    requires forall i :: 0 <= i < |parts| ==> sep !in parts[i]
    ensures Split(Join(parts, [sep]), sep) == parts
  {
    if |parts| == 1 {
      SplitNoSep(parts[0], sep);
    } else {
      SplitJoin(parts[1..], sep);
      SplitCons(parts[0], Join(parts[1..], [sep]), sep);
      assert [parts[0]] + parts[1..] == parts;
    }
  }

  // ---------------------------------------------------------------- prefixes, substrings, case

  /** `s.startsWith(p)`. */
  predicate StartsWith(s: string, p: string) {
    |p| <= |s| && s[..|p|] == p
  }

  /** `s.substring(k)` for k >= 0: clamps to the end of the string. */
  function DropPrefix(s: string, k: nat): (r: string)
    ensures |s| <= k ==> r == ""
    ensures k < |s| ==> r == s[k..]
  {
    if k <= |s| then s[k..] else ""
  }

  /** `s.substring(0, k)` for k >= 0. */
  function Prefix(s: string, k: nat): (r: string)
    ensures |r| == if k < |s| then k else |s|
    ensures StartsWith(s, r)
  {
    if k <= |s| then s[..k] else s
  }

  predicate OccursAt(s: string, sub: string, i: nat) {
    i + |sub| <= |s| && s[i..i + |sub|] == sub
  }

  /** `s.includes(sub)` / Python `sub in s`. */
  predicate Contains(s: string, sub: string) {
    exists i: nat | i <= |s| :: OccursAt(s, sub, i)
  }

  /** ASCII case mapping of `toLowerCase`. */
  function LowerChar(c: char): char {
    if 'A' <= c <= 'Z' then (c as int + 32) as char else c
  }

  function ToLower(s: string): (r: string)
    ensures |r| == |s|
    ensures forall i :: 0 <= i < |s| ==> r[i] == LowerChar(s[i])
  {
    seq(|s|, i requires 0 <= i < |s| => LowerChar(s[i]))
  }

  // ---------------------------------------------------------------- character filters

  /** `s.replace(/\D/g, '')`: the decimal digits of `s`, in order. */
  function KeepDigits(s: string): string {
    Seqs.Filter(s, c => IsDigit(c))
  }

  /** `s.replace(/\s+/g, '')`. */
  function RemoveSpaces(s: string): string {
    Seqs.Filter(s, c => !IsSpace(JsSpace, c))
  }

  /** `s.replace(/\s+/g, repl)`: every maximal run of white space becomes one `repl`. */
  function ReplaceSpaceRuns(s: string, repl: char): (r: string)
    requires !IsSpace(JsSpace, repl)
    ensures forall i :: 0 <= i < |r| ==> !IsSpace(JsSpace, r[i])
    ensures |r| <= |s| && (s != [] ==> r != [])
    ensures (forall i :: 0 <= i < |s| ==> !IsSpace(JsSpace, s[i])) ==> r == s
  {
    if s == [] then []
    else if IsSpace(JsSpace, s[0]) then
      [repl] + ReplaceSpaceRuns(TrimStart(JsSpace, s), repl)
    else [s[0]] + ReplaceSpaceRuns(s[1..], repl)
  }

  /** Trimming a blank run in front of text that does not start blank leaves that text. */
  lemma {:induction false} TrimStartBlank(rule: SpaceRule, w: string, b: string)
    requires IsBlank(rule, w)
    requires b == [] || !IsSpace(rule, b[0])
    ensures TrimStart(rule, w + b) == b
    decreases |w|
  {
    if w == [] {
      assert w + b == b;
    } else {
      assert (w + b)[1..] == w[1..] + b;
      TrimStartBlank(rule, w[1..], b);
    }
  }

  /** Trimming stops inside `a` when `a` ends in a non-blank character, so what follows is kept. */
  lemma {:induction false} TrimStartAppend(rule: SpaceRule, a: string, c: string)
    requires a != [] && !IsSpace(rule, a[|a| - 1])
    ensures TrimStart(rule, a + c) == TrimStart(rule, a) + c
    decreases |a|
  {
    if IsSpace(rule, a[0]) {
      assert (a + c)[1..] == a[1..] + c;
      TrimStartAppend(rule, a[1..], c);
    }
  }

  /**
   * `replace(/\s+/g, repl)` works run by run: cut after a non-blank character (or at the
   * start), the two sides are replaced independently, because no run of white space
   * crosses the cut.
   */
  lemma {:induction false} ReplaceSpaceRunsAppend(a: string, c: string, repl: char)
    requires !IsSpace(JsSpace, repl)
    requires a == [] || !IsSpace(JsSpace, a[|a| - 1])
    ensures ReplaceSpaceRuns(a + c, repl) == ReplaceSpaceRuns(a, repl) + ReplaceSpaceRuns(c, repl)
    decreases |a|
  {
    if a == [] {
      assert a + c == c;
    } else if IsSpace(JsSpace, a[0]) {
      var t := LeadingRunRest(a);
      TrimStartAppend(JsSpace, a, c);
      ReplaceSpaceRunsAppend(t, c, repl);
      RunThenRest(a, t, c, repl);
    } else {
      ReplaceSpaceRunsAppend(a[1..], c, repl);
      PlainThenRest(a, c, repl);
    }
  }

  /**
   * Each maximal run of white space becomes exactly one `repl`: a run between text that
   * does not end blank and text that does not start blank is replaced by a single `repl`,
   * and the text on either side is treated on its own.
   */
  lemma {:induction false} ReplaceSpaceRunsJoin(a: string, w: string, b: string, repl: char)
    requires !IsSpace(JsSpace, repl)
    requires w != [] && IsBlank(JsSpace, w)
    requires a == [] || !IsSpace(JsSpace, a[|a| - 1])
    requires b == [] || !IsSpace(JsSpace, b[0])
    ensures ReplaceSpaceRuns(a + w + b, repl) == ReplaceSpaceRuns(a, repl) + [repl] + ReplaceSpaceRuns(b, repl)
  {
    ReplaceSpaceRunsAppend(a, w + b, repl);
    RunAtStart(w, b, repl);
    Regroup(a, w, b, repl, ReplaceSpaceRuns(a, repl), ReplaceSpaceRuns(b, repl));
  }

  /** Only the grouping of the concatenations differs; kept apart so the blank-run facts stay out of it. */
  lemma Regroup(a: string, w: string, b: string, repl: char, x: string, y: string)
    requires !IsSpace(JsSpace, repl)
    requires ReplaceSpaceRuns(a + (w + b), repl) == x + ([repl] + y)
    ensures ReplaceSpaceRuns(a + w + b, repl) == x + [repl] + y
  {
    assert a + w + b == a + (w + b);
    assert x + ([repl] + y) == x + [repl] + y;
  }

  /** A non-blank first character is kept, with or without text after the rest. */
  lemma PlainThenRest(a: string, c: string, repl: char)
    requires !IsSpace(JsSpace, repl)
    requires a != [] && !IsSpace(JsSpace, a[0])
    ensures ReplaceSpaceRuns(a + c, repl) == [a[0]] + ReplaceSpaceRuns(a[1..] + c, repl)
    ensures ReplaceSpaceRuns(a, repl) == [a[0]] + ReplaceSpaceRuns(a[1..], repl)
  {
    assert (a + c)[0] == a[0];
    assert (a + c)[1..] == a[1..] + c;
  }

  /** A blank run at the very start becomes one `repl`. */
  lemma RunAtStart(w: string, b: string, repl: char)
    requires !IsSpace(JsSpace, repl)
    requires w != [] && IsBlank(JsSpace, w)
    requires b == [] || !IsSpace(JsSpace, b[0])
    ensures ReplaceSpaceRuns(w + b, repl) == [repl] + ReplaceSpaceRuns(b, repl)
  {
    TrimStartBlank(JsSpace, w, b);
    assert (w + b)[0] == w[0];
  }

  /** What remains of `a` after its leading blank run, when `a` starts blank and ends non-blank. */
  function LeadingRunRest(a: string): (t: string)
    requires a != [] && IsSpace(JsSpace, a[0]) && !IsSpace(JsSpace, a[|a| - 1])
    ensures t == TrimStart(JsSpace, a)
    ensures t != [] && |t| < |a| && t[|t| - 1] == a[|a| - 1]
  {
    var t := TrimStart(JsSpace, a);
    if t == [] then
      assert false;
      t
    else t
  }

  /** A leading blank run becomes one `repl`, with or without text after the rest. */
  lemma RunThenRest(a: string, t: string, c: string, repl: char)
    requires !IsSpace(JsSpace, repl)
    requires a != [] && IsSpace(JsSpace, a[0])
    requires t == TrimStart(JsSpace, a) && TrimStart(JsSpace, a + c) == t + c
    ensures ReplaceSpaceRuns(a + c, repl) == [repl] + ReplaceSpaceRuns(t + c, repl)
    ensures ReplaceSpaceRuns(a, repl) == [repl] + ReplaceSpaceRuns(t, repl)
  {
    assert (a + c)[0] == a[0];
  }

  // ---------------------------------------------------------------- decimal numbers

  function DigitChar(d: nat): (c: char)
    requires d < 10
    ensures IsDigit(c)
  {
    ('0' as int + d) as char
  }

  function DigitValue(c: char): nat
    requires IsDigit(c)
  {
    c as int - '0' as int
  }

  /** Decimal rendering of a non-negative integer, as `${n}` produces it. */
  function NatToString(n: nat): (r: string)
    ensures |r| >= 1
    ensures forall i :: 0 <= i < |r| ==> IsDigit(r[i])
  {
    if n < 10 then [DigitChar(n)] else NatToString(n / 10) + [DigitChar(n % 10)]
  }

  /** `${i}` for an integer. */
  function IntToString(i: int): string {
    if i < 0 then "-" + NatToString(-i) else NatToString(i)
  }

  /** Reading a string of decimal digits. */
  function ParseDigits(s: string): nat
    requires forall i :: 0 <= i < |s| ==> IsDigit(s[i])
  {
    if s == [] then 0 else ParseDigits(s[..|s| - 1]) * 10 + DigitValue(s[|s| - 1])
  }

  /** Decimal rendering is faithful: reading it back gives the number. */
  lemma {:induction false} ParseNatToString(n: nat)
    ensures ParseDigits(NatToString(n)) == n
  {
    if n >= 10 {
      var r := NatToString(n);
      ParseNatToString(n / 10);
      assert r[..|r| - 1] == NatToString(n / 10);
    }
  }
}
