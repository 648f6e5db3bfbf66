/**
 * The e-mail pattern `^[^\s@]+@[^\s@]+\.[^\s@]+$` shared by the admin panel and the
 * contact form: its meaning as a decomposition of the whole string, and a direct check
 * proved to agree with it. `\s` is JavaScript's whitespace class.
 */
module EmailPattern {
  import Text

  /** `[^\s@]`. */
  predicate Plain(c: char) {
    !Text.IsSpace(Text.JsSpace, c) && c != '@'
  }

  /** `[^\s@]+`. */
  predicate PlainRun(s: string) {
    s != [] && forall i :: 0 <= i < |s| ==> Plain(s[i])
  }

  /** The pattern matches: the string is a run, `@`, a run, `.`, a run, with the dot at `j`. */
  ghost predicate MatchesAt(s: string, k: nat, j: nat) {
    k < j < |s| && s[k] == '@' && s[j] == '.' && PlainRun(s[..k]) && PlainRun(s[k + 1..j]) && PlainRun(s[j + 1..])
  }

  ghost predicate Matches(s: string) {
    exists k: nat, j: nat :: MatchesAt(s, k, j)
  }

  /** The position of the first `@`, or `|s|` when there is none. */
  function FirstAt(s: string): (k: nat)
    ensures k <= |s|
    ensures forall i :: 0 <= i < k ==> s[i] != '@'
    ensures k < |s| ==> s[k] == '@'
  {
    if s == [] then 0
    else if s[0] == '@' then 0
    else 1 + FirstAt(s[1..])
  }

  /** `emailRegex.test(s)`: one `@`, not first; no whitespace; a `.` with a character on each side, after the `@`. */
  predicate Check(s: string) {
    var k := FirstAt(s);
    && 0 < k < |s|
    && (forall i :: 0 <= i < |s| && i != k ==> Plain(s[i]))
    && exists j :: k + 1 < j < |s| - 1 && s[j] == '.'
  }

  /** The direct check accepts exactly the strings the pattern matches. */
  lemma {:induction false} CheckMatches(s: string)
    ensures Check(s) <==> Matches(s)
  {
    if Check(s) {
      var k := FirstAt(s);
      var j :| k + 1 < j < |s| - 1 && s[j] == '.';
      var a, b, c := s[..k], s[k + 1..j], s[j + 1..];
      forall i | 0 <= i < |a| ensures Plain(a[i]) {
        assert a[i] == s[i];
      }
      forall i | 0 <= i < |b| ensures Plain(b[i]) {
        assert b[i] == s[k + 1 + i];
      }
      forall i | 0 <= i < |c| ensures Plain(c[i]) {
        assert c[i] == s[j + 1 + i];
      }
      assert MatchesAt(s, k, j);
    }
    if Matches(s) {
      var k: nat, j: nat :| MatchesAt(s, k, j);
      MatchesShape(s, k, j);
    }
  }

  /** From a match: the `@` at `k` is the first one and the rest of the string is plain. */
  lemma MatchesShape(s: string, k: nat, j: nat)
    requires MatchesAt(s, k, j)
    ensures Check(s)
  {
    forall i | 0 <= i < k ensures s[i] != '@' {
      assert s[..k][i] == s[i];
    }
    assert FirstAt(s) == k;
    forall i | 0 <= i < |s| && i != k ensures Plain(s[i]) {
      if i < k {
        assert s[..k][i] == s[i];
      } else if i < j {
        assert s[k + 1..j][i - k - 1] == s[i];
      } else if i > j {
        assert s[j + 1..][i - j - 1] == s[i];
      }
    }
  }
}
