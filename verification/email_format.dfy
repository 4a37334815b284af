/** The email-format check of the signup handler: the JavaScript regular
    expression `^[^\s@]+@[^\s@]+\.[^\s@]+$`, stated once as what the pattern
    matches and once as a check the handler can run, with a proof that the two
    agree on every string. */
module EmailFormat {
  import opened Wrappers

  /** The class `\s` of ECMAScript regular expressions: the WhiteSpace and
      LineTerminator characters. */
  predicate IsRegexSpace(c: char)
  {
    || c == '\t' || c == '\n' || c == '\U{B}' || c == '\U{C}' || c == '\r' || c == ' '
    || c == '\U{A0}' || c == '\U{1680}' || ('\U{2000}' <= c <= '\U{200A}')
    || c == '\U{2028}' || c == '\U{2029}' || c == '\U{202F}' || c == '\U{205F}'
    || c == '\U{3000}' || c == '\U{FEFF}'
  }

  /** The character class `[^\s@]`. */
  predicate Plain(c: char)
  {
    c != '@' && !IsRegexSpace(c)
  }

  predicate AllPlain(t: string)
  {
    forall j :: 0 <= j < |t| ==> Plain(t[j])
  }

  /** `[^\s@]+`: one or more plain characters. */
  predicate Segment(t: string)
  {
    |t| > 0 && AllPlain(t)
  }

  /** What the anchored pattern matches: a segment, `@`, a segment, a literal
      dot and a segment, covering the whole string. */
  ghost predicate MatchesEmailPattern(s: string)
  {
    exists i, k :: 0 <= i < k < |s| && s[i] == '@' && s[k] == '.'
      && Segment(s[..i]) && Segment(s[i + 1..k]) && Segment(s[k + 1..])
  }

  /** The position of the first occurrence of `c` in `s`. */
  function IndexOf(s: string, c: char): (r: Option<nat>)
    ensures r.Some? ==> r.value < |s| && s[r.value] == c && c !in s[..r.value]
    ensures r.None? ==> c !in s
  {
    if |s| == 0 then None
    else if s[0] == c then Some(0)
    else
      match IndexOf(s[1..], c)
      case None => None
      case Some(j) =>
        assert s[..j + 1] == [s[0]] + s[1..][..j];
        Some(j + 1)
  }

  /** A position holding `c` with no `c` before it is the one `IndexOf` finds. */
  lemma {:induction false} IndexOfFirst(s: string, c: char, i: nat)
    requires i < |s| && s[i] == c && c !in s[..i]
    ensures IndexOf(s, c) == Some(i)
  {
    if i > 0 {
      assert s[0] == s[..i][0];
      assert s[1..][..i - 1] == s[..i][1..];
      IndexOfFirst(s[1..], c, i - 1);
    }
  }

  /** `[^\s@]+\.[^\s@]+` on the part after the `@`: only plain characters,
      and a dot that is neither the first nor the last of them. */
  predicate IsDomain(d: string)
  {
    |d| >= 3 && AllPlain(d) && '.' in d[1..|d| - 1]
  }

  /** The check the signup handler runs (controllers/auth.controller.js:14-15):
      split at the first `@`, then check the local part and the domain. */
  predicate IsValidEmail(s: string)
  {
    match IndexOf(s, '@')
    case None => false
    case Some(i) => Segment(s[..i]) && IsDomain(s[i + 1..])
  }

  /** Every string the check accepts matches the regular expression. */
  lemma ValidEmailMatches(s: string)
    requires IsValidEmail(s)
    ensures MatchesEmailPattern(s)
  {
    var i := IndexOf(s, '@').value;
    var d := s[i + 1..];
    var inner := d[1..|d| - 1];
    var m :| 0 <= m < |inner| && inner[m] == '.';
    var k := i + 2 + m;
    assert s[k] == d[m + 1] == inner[m];
    var host, tld := s[i + 1..k], s[k + 1..];
    assert host == d[..m + 1] && tld == d[m + 2..];
    forall j | 0 <= j < |host| ensures Plain(host[j]) { assert host[j] == d[j]; }
    forall j | 0 <= j < |tld| ensures Plain(tld[j]) { assert tld[j] == d[m + 2 + j]; }
  }

  /** Every string the regular expression matches passes the check. */
  lemma MatchesAreValidEmails(s: string, i: nat, k: nat)
    requires 0 <= i < k < |s| && s[i] == '@' && s[k] == '.'
    requires Segment(s[..i]) && Segment(s[i + 1..k]) && Segment(s[k + 1..])
    ensures IsValidEmail(s)
  {
    assert '@' !in s[..i] by {
      forall j | 0 <= j < i ensures s[..i][j] != '@' { assert Plain(s[..i][j]); }
    }
    IndexOfFirst(s, '@', i);
    var d := s[i + 1..];
    var m := k - i - 1;
    assert d[1..|d| - 1][m - 1] == d[m] == s[k];
    forall j | 0 <= j < |d| ensures Plain(d[j]) {
      if j < m { assert d[j] == s[i + 1..k][j]; }
      else if j > m { assert d[j] == s[k + 1..][j - m - 1]; }
    }
  }

  /** The check accepts exactly the strings the regular expression matches. */
  lemma IsValidEmailMatchesPattern(s: string)
    ensures IsValidEmail(s) <==> MatchesEmailPattern(s)
  {
    if IsValidEmail(s) {
      ValidEmailMatches(s);
    }
    if MatchesEmailPattern(s) {
      var i, k :| 0 <= i < k < |s| && s[i] == '@' && s[k] == '.'
        && Segment(s[..i]) && Segment(s[i + 1..k]) && Segment(s[k + 1..]);
      MatchesAreValidEmails(s, i, k);
    }
  }
}
