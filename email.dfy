/** The pieces of JavaScript string behaviour the form handler relies on:
    the white-space class `\s`, `String.prototype.trim`, and searching for a character. */
module JsText {

  /** JavaScript's WhiteSpace and LineTerminator characters: exactly what the regular
      expression class `\s` matches and what `trim` strips from both ends. */
  const WhitespaceChars: set<char> := {
    '\t', '\n', '\U{0B}', '\U{0C}', '\r', ' ', '\U{A0}', '\U{1680}',
    '\U{2000}', '\U{2001}', '\U{2002}', '\U{2003}', '\U{2004}', '\U{2005}',
    '\U{2006}', '\U{2007}', '\U{2008}', '\U{2009}', '\U{200A}',
    '\U{2028}', '\U{2029}', '\U{202F}', '\U{205F}', '\U{3000}', '\U{FEFF}'
  }

  predicate IsWhitespace(c: char)
  {
    c in WhitespaceChars
  }

  predicate AllWhitespace(s: string)
  {
    forall i :: 0 <= i < |s| ==> IsWhitespace(s[i])
  }

  predicate NoWhitespace(s: string)
  {
    forall i :: 0 <= i < |s| ==> !IsWhitespace(s[i])
  }

  /** The first position at or after `i` that does not hold white space, or `|s|`. */
  function SkipWhitespace(s: string, i: nat): (j: nat)
    requires i <= |s|
    ensures i <= j <= |s|
    ensures forall k :: i <= k < j ==> IsWhitespace(s[k])
    ensures j < |s| ==> !IsWhitespace(s[j])
    decreases |s| - i
  {
    if i == |s| || !IsWhitespace(s[i]) then i else SkipWhitespace(s, i + 1)
  }

  /** The position just after the last character before `j` (and at or after `lo`) that is
      not white space, or `lo`. */
  function SkipWhitespaceBack(s: string, lo: nat, j: nat): (e: nat)
    requires lo <= j <= |s|
    ensures lo <= e <= j
    ensures forall k :: e <= k < j ==> IsWhitespace(s[k])
    ensures e > lo ==> !IsWhitespace(s[e - 1])
    decreases j
  {
    if j == lo || !IsWhitespace(s[j - 1]) then j else SkipWhitespaceBack(s, lo, j - 1)
  }

  /** `String.prototype.trim`: the result is a slice of `s`, only white space was cut off
      either end, and it is empty exactly when `s` is all white space. */
  function Trim(s: string): (r: string)
    ensures exists i :: 0 <= i <= |s| - |r| && r == s[i..i + |r|] &&
                        AllWhitespace(s[..i]) && AllWhitespace(s[i + |r|..])
    ensures r == [] <==> AllWhitespace(s)
    ensures r != [] ==> !IsWhitespace(r[0]) && !IsWhitespace(r[|r| - 1])
  {
    var i := SkipWhitespace(s, 0);
    var j := SkipWhitespaceBack(s, i, |s|);
    assert AllWhitespace(s[..i]) by {
      forall k | 0 <= k < i ensures IsWhitespace(s[..i][k]) {
        assert s[..i][k] == s[k];
      }
    }
    assert AllWhitespace(s[j..]) by {
      forall k | 0 <= k < |s| - j ensures IsWhitespace(s[j..][k]) {
        assert s[j..][k] == s[j + k];
      }
    }
    s[i..j]
  }

  /** The number of occurrences of `c` in `s`. */
  function Count(s: string, c: char): (n: nat)
    ensures n <= |s|
    ensures n == 0 <==> c !in s
  {
    if s == [] then 0 else (if s[0] == c then 1 else 0) + Count(s[1..], c)
  }

  lemma {:induction false} CountAppend(a: string, b: string, c: char)
    ensures Count(a + b, c) == Count(a, c) + Count(b, c)
  {
    if a == [] {
      assert a + b == b;
    } else {
      assert (a + b)[1..] == a[1..] + b;
      CountAppend(a[1..], b, c);
    }
  }

  /** The position of the first `c` in `s`, or `|s|` when there is none. */
  function IndexOf(s: string, c: char): (i: nat)
    ensures i <= |s|
    ensures i < |s| ==> s[i] == c
    ensures c !in s[..i]
  {
    if s == [] then 0
    else if s[0] == c then 0
    else 1 + IndexOf(s[1..], c)
  }
}

/** The contact form's email check: the regular expression `^[^\s@]+@[^\s@]+\.[^\s@]+$`,
    a simplified shape test and not the RFC 5322 address grammar. */
module Email {
  import opened JsText

  /** The character class `[^\s@]`. */
  predicate IsAtomChar(c: char)
  {
    !IsWhitespace(c) && c != '@'
  }

  /** The repetition `[^\s@]+`. */
  predicate IsAtomRun(s: string)
  {
    |s| > 0 && forall i :: 0 <= i < |s| ==> IsAtomChar(s[i])
  }

  /** The language of the pattern, read directly off the regular expression:
      a run, then `@`, then a run, then `.`, then a run, and nothing else. */
  ghost predicate MatchesEmailPattern(s: string)
  {
    exists at, dot :: 0 <= at < dot < |s| && s[at] == '@' && s[dot] == '.' &&
      IsAtomRun(s[..at]) && IsAtomRun(s[at + 1..dot]) && IsAtomRun(s[dot + 1..])
  }

  /** The domain has a `.` that is neither its first nor its last character. */
  predicate HasInnerDot(domain: string)
  {
    exists k :: 0 < k < |domain| - 1 && domain[k] == '.'
  }

  /** `isValidEmail`: exactly one `@`, no white space, a non-empty local part before the `@`,
      and a domain after it with an inner `.`. */
  predicate IsValidEmail(s: string)
  {
    Count(s, '@') == 1 && NoWhitespace(s) &&
    var at := IndexOf(s, '@');
    0 < at < |s| && HasInnerDot(s[at + 1..])
  }

  /** The hand-written check accepts exactly the strings the regular expression matches. */
  lemma ValidEmailIffPattern(s: string)
    ensures IsValidEmail(s) <==> MatchesEmailPattern(s)
  {
    if IsValidEmail(s) {
      ValidEmailMatches(s);
    }
    if MatchesEmailPattern(s) {
      var at, dot :| 0 <= at < dot < |s| && s[at] == '@' && s[dot] == '.' &&
        IsAtomRun(s[..at]) && IsAtomRun(s[at + 1..dot]) && IsAtomRun(s[dot + 1..]);
      MatchIsValidEmail(s, at, dot);
    }
  }

  lemma ValidEmailMatches(s: string)
    requires IsValidEmail(s)
    ensures MatchesEmailPattern(s)
  {
    var at := IndexOf(s, '@');
    var domain := s[at + 1..];
    var k :| 0 < k < |domain| - 1 && domain[k] == '.';
    var dot := at + 1 + k;
    assert s == s[..at] + [s[at]] + domain;
    CountAppend(s[..at] + [s[at]], domain, '@');
    CountAppend(s[..at], [s[at]], '@');
    assert '@' !in domain;
    assert IsAtomRun(s[..at]);
    assert s[at + 1..dot] == domain[..k];
    assert s[dot + 1..] == domain[k + 1..];
    assert IsAtomRun(s[at + 1..dot]);
    assert IsAtomRun(s[dot + 1..]);
  }

  lemma MatchIsValidEmail(s: string, at: nat, dot: nat)
    requires at < dot < |s| && s[at] == '@' && s[dot] == '.'
    requires IsAtomRun(s[..at]) && IsAtomRun(s[at + 1..dot]) && IsAtomRun(s[dot + 1..])
    ensures IsValidEmail(s)
  {
    var local, host, tld := s[..at], s[at + 1..dot], s[dot + 1..];
    assert s == local + ['@'] + host + ['.'] + tld;
    CountInMatch(local, host, tld);
    forall i | 0 <= i < |s| ensures !IsWhitespace(s[i]) {
      if i < at {
        assert s[i] == local[i];
      } else if at < i < dot {
        assert s[i] == host[i - at - 1];
      } else if dot < i {
        assert s[i] == tld[i - dot - 1];
      }
    }
    assert '@' !in local;
    assert IndexOf(s, '@') == at;
    var domain := s[at + 1..];
    assert domain[dot - at - 1] == '.';
  }

  /** A string of the pattern's shape holds exactly one `@`. */
  lemma CountInMatch(local: string, host: string, tld: string)
    requires IsAtomRun(local) && IsAtomRun(host) && IsAtomRun(tld)
    ensures Count(local + ['@'] + host + ['.'] + tld, '@') == 1
  {
    assert '@' !in local && '@' !in host && '@' !in tld;
    CountAppend(local + ['@'] + host + ['.'], tld, '@');
    CountAppend(local + ['@'] + host, ['.'], '@');
    CountAppend(local + ['@'], host, '@');
    CountAppend(local, ['@'], '@');
  }

  /** The worked examples: a plain address is accepted, a string without `@` is not. */
  lemma AcceptsPlainAddress()
    ensures IsValidEmail("jane@x.com")
  {
    MatchIsValidEmail("jane@x.com", 4, 6);
  }

  lemma RejectsStringWithoutAt()
    ensures !IsValidEmail("not-an-email")
  {
  }
}
