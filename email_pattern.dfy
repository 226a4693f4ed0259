/**
 * The email pattern of the profile card,
 *
 *   ^[\p{L}!#-'*+\-/\d=?^-~]+(.[\p{L}!#-'*+\-/\d=?^-~])*@[^@\s]{2,}$   (flag u)
 *
 * as a recognizer over strings of Unicode scalar values.
 *
 * `\p{L}` (the Unicode "Letter" property) is not tabulated here: every member
 * takes it as the parameter `isLetter`, and every property below holds for any
 * choice of it.  The unescaped `.` of the repeated group is kept as written: it
 * matches any character but a line terminator, `@` included.
 */
module EmailPattern {
  import opened Wrappers

  /** The characters ECMAScript calls line terminators: the ones `.` does not match. */
  predicate IsLineTerminator(c: char) {
    c == '\n' || c == '\r' || c == '\U{2028}' || c == '\U{2029}'
  }

  /** `\s` of ECMAScript: the white space characters (Unicode Zs, tab, vertical tab,
      form feed, the byte order mark) and the line terminators. */
  predicate IsWhitespace(c: char) {
    || c == '\t' || c == '\U{B}' || c == '\U{C}' || c == ' ' || c == '\U{A0}'
    || c == '\U{1680}' || ('\U{2000}' <= c <= '\U{200A}') || c == '\U{202F}'
    || c == '\U{205F}' || c == '\U{3000}' || c == '\U{FEFF}'
    || IsLineTerminator(c)
  }

  /** The character class `[\p{L}!#-'*+\-/\d=?^-~]` of the local part. */
  predicate InLocalClass(isLetter: char -> bool, c: char) {
    || isLetter(c)
    || c == '!'
    || ('#' <= c <= '\'')
    || c == '*' || c == '+' || c == '-' || c == '/'
    || ('0' <= c <= '9')
    || c == '=' || c == '?'
    || ('^' <= c <= '~')
  }

  /** `[...]+` is matched by `w` when `w` is non-empty and wholly of the class. */
  predicate ClassRun(isLetter: char -> bool, w: string) {
    |w| >= 1 && forall i | 0 <= i < |w| :: InLocalClass(isLetter, w[i])
  }

  /** `(.[...])*`: `w` splits into pairs, each a non-line-terminator followed by a
      character of the class. */
  predicate Pairs(isLetter: char -> bool, w: string)
    decreases |w|
  {
    || w == []
    || (&& |w| >= 2
        && !IsLineTerminator(w[0])
        && InLocalClass(isLetter, w[1])
        && Pairs(isLetter, w[2..]))
  }

  /** The part before `@`: `[...]+(.[...])*`. */
  predicate LocalPart(isLetter: char -> bool, l: string) {
    exists m | 1 <= m <= |l| :: ClassRun(isLetter, l[..m]) && Pairs(isLetter, l[m..])
  }

  /** The part after `@`: `[^@\s]{2,}`. */
  predicate DomainPart(d: string) {
    |d| >= 2 && forall i | 0 <= i < |d| :: d[i] != '@' && !IsWhitespace(d[i])
  }

  /** The language of the anchored pattern: some `@` splits the string into a local
      part and a domain part. */
  predicate Matches(isLetter: char -> bool, s: string) {
    exists k | 0 <= k < |s| :: s[k] == '@' && LocalPart(isLetter, s[..k]) && DomainPart(s[k + 1..])
  }

  /** The position of the last occurrence of `c` in `s`, if any. */
  function LastIndexOf(s: string, c: char): (r: Option<nat>)
    ensures r.Some? ==> r.value < |s| && s[r.value] == c
    ensures r.Some? ==> forall j | r.value < j < |s| :: s[j] != c
    ensures r.None? <==> c !in s
    decreases |s|
  {
    if |s| == 0 then None
    else if s[|s| - 1] == c then Some(|s| - 1)
    else
      var r := LastIndexOf(s[..|s| - 1], c);
      assert s == s[..|s| - 1] + [s[|s| - 1]];
      r
  }

  /** `emailRegex.test(s)`: since the domain part holds no `@`, only the last `@`
      can separate the two parts, so one split is tried. */
  predicate Accepts(isLetter: char -> bool, s: string) {
    match LastIndexOf(s, '@')
    case None => false
    case Some(k) => LocalPart(isLetter, s[..k]) && DomainPart(s[k + 1..])
  }

  /** A position holding `c` with no `c` after it is the last occurrence. */
  lemma LastIndexOfIs(s: string, c: char, k: nat)
    requires k < |s| && s[k] == c
    requires forall j | k < j < |s| :: s[j] != c
    ensures LastIndexOf(s, c) == Some(k)
  {
  }

  /** The characters after position `k` are those of the domain part that follows it. */
  lemma DomainAfter(s: string, k: nat)
    requires k < |s| && DomainPart(s[k + 1..])
    ensures k + 2 < |s|
    ensures forall j | k < j < |s| :: s[j] != '@' && !IsWhitespace(s[j])
  {
    forall j | k < j < |s| ensures s[j] != '@' && !IsWhitespace(s[j]) {
      assert s[j] == s[k + 1..][j - k - 1];
    }
  }

  /** An `@` between a local part and a domain part is the last `@`, so the
      recognizer accepts. */
  lemma AcceptsAt(isLetter: char -> bool, s: string, k: nat)
    requires k < |s| && s[k] == '@'
    requires LocalPart(isLetter, s[..k]) && DomainPart(s[k + 1..])
    ensures Accepts(isLetter, s)
  {
    DomainAfter(s, k);
    LastIndexOfIs(s, '@', k);
  }

  /** The recognizer accepts exactly the language of the pattern. */
  lemma AcceptsIffMatches(isLetter: char -> bool, s: string)
    ensures Accepts(isLetter, s) <==> Matches(isLetter, s)
  {
    if Matches(isLetter, s) {
      var k :| 0 <= k < |s| && s[k] == '@' && LocalPart(isLetter, s[..k]) && DomainPart(s[k + 1..]);
      AcceptsAt(isLetter, s, k);
    }
  }

  /** Whatever the pattern accepts has a last `@` with at least one character before
      it and at least two after it, none of which is white space (nor `@`, by the
      contract of LastIndexOf). */
  lemma AcceptedHasDomainSuffix(isLetter: char -> bool, s: string)
    requires Accepts(isLetter, s)
    ensures LastIndexOf(s, '@').Some?
    ensures 1 <= LastIndexOf(s, '@').value && LastIndexOf(s, '@').value + 2 < |s|
    ensures forall j | LastIndexOf(s, '@').value < j < |s| :: !IsWhitespace(s[j])
  {
    DomainAfter(s, LastIndexOf(s, '@').value);
  }

  /** A string without `@` is rejected: "not-an-email" is one. */
  lemma RejectsWithoutAt(isLetter: char -> bool, s: string)
    requires '@' !in s
    ensures !Accepts(isLetter, s) && !Matches(isLetter, s)
  {
    AcceptsIffMatches(isLetter, s);
  }

  /** One more group of `(.[...])*` in front of a run of groups. */
  lemma PairsCons(isLetter: char -> bool, a: char, b: char, w: string)
    requires !IsLineTerminator(a) && InLocalClass(isLetter, b) && Pairs(isLetter, w)
    ensures Pairs(isLetter, [a, b] + w)
  {
    assert ([a, b] + w)[2..] == w;
  }

  /** A leading run followed by a run of groups is a local part. */
  lemma LocalPartOf(isLetter: char -> bool, run: string, groups: string)
    requires ClassRun(isLetter, run) && Pairs(isLetter, groups)
    ensures LocalPart(isLetter, run + groups)
  {
    var l := run + groups;
    assert l[..|run|] == run && l[|run|..] == groups;
  }

  /** "john.doe" is a leading run "john" and the groups ".d" and "oe". */
  lemma DefaultLocalPart(isLetter: char -> bool)
    ensures LocalPart(isLetter, "john.doe")
  {
    PairsCons(isLetter, 'o', 'e', []);
    PairsCons(isLetter, '.', 'd', "oe");
    assert ClassRun(isLetter, "john");
    LocalPartOf(isLetter, "john", ".doe");
    assert "john" + ".doe" == "john.doe";
  }

  /** A domain of two or more lower-case ASCII letters and dots. */
  lemma PlainDomain(d: string)
    requires |d| >= 2 && forall i | 0 <= i < |d| :: 'a' <= d[i] <= 'z' || d[i] == '.'
    ensures DomainPart(d)
  {
  }

  /** "example.com" is a domain part. */
  lemma DefaultDomain()
    ensures DomainPart("example.com")
  {
    PlainDomain("example.com");
  }

  /** The last `@` of the default address splits it into "john.doe" and "example.com". */
  lemma DefaultSplit()
    ensures "john.doe@example.com"[..8] == "john.doe"
    ensures "john.doe@example.com"[9..] == "example.com"
  {
  }

  /** The default address of the card is accepted. */
  lemma AcceptsDefaultAddress(isLetter: char -> bool)
    ensures Accepts(isLetter, "john.doe@example.com")
  {
    DefaultLocalPart(isLetter);
    DefaultDomain();
    DefaultSplit();
    AcceptsAt(isLetter, "john.doe@example.com", 8);
  }

  /** The `.` of the repeated group matches `@` as well, so an address with two `@`
      signs is accepted. */
  lemma AcceptsRepeatedAt(isLetter: char -> bool)
    ensures Accepts(isLetter, "a@b@cc")
  {
    PairsCons(isLetter, '@', 'b', []);
    assert ClassRun(isLetter, "a");
    LocalPartOf(isLetter, "a", "@b");
    assert DomainPart("cc");
    var s := "a@b@cc";
    assert s[..3] == "a" + "@b" && s[4..] == "cc";
    AcceptsAt(isLetter, s, 3);
  }

  /** A local part of one class character and a two-character domain are enough:
      "a@b.co" is accepted. */
  lemma AcceptsShortAddress(isLetter: char -> bool)
    ensures Accepts(isLetter, "a@b.co")
  {
    assert ClassRun(isLetter, "a") && Pairs(isLetter, []);
    LocalPartOf(isLetter, "a", []);
    assert DomainPart("b.co");
    var s := "a@b.co";
    assert s[..1] == "a" + [] && s[2..] == "b.co";
    AcceptsAt(isLetter, s, 1);
  }

  /** Each group of `(.[...])*` ends in a class character: a run of groups has even
      length and a class character at every odd position. */
  lemma {:induction false} PairsShape(isLetter: char -> bool, w: string)
    ensures Pairs(isLetter, w) ==> |w| % 2 == 0
    ensures Pairs(isLetter, w) ==> forall i | 0 <= i < |w| && i % 2 == 1 :: InLocalClass(isLetter, w[i])
    decreases |w|
  {
    if w != [] && Pairs(isLetter, w) {
      PairsShape(isLetter, w[2..]);
      forall i | 0 <= i < |w| && i % 2 == 1 ensures InLocalClass(isLetter, w[i]) {
        if i > 1 {
          assert w[i] == w[2..][i - 2];
        }
      }
    }
  }

  /** A character outside the class that is followed by an even number of characters
      cannot stand in the local part: it is not in the leading run, and in the groups
      it would fall on the class position of a pair. */
  lemma RejectsEvenTail(isLetter: char -> bool, l: string, p: nat)
    requires p < |l| && !InLocalClass(isLetter, l[p]) && (|l| - p - 1) % 2 == 0
    ensures !LocalPart(isLetter, l)
  {
    forall m | 1 <= m <= |l| ensures !(ClassRun(isLetter, l[..m]) && Pairs(isLetter, l[m..])) {
      if m > p {
        assert l[..m][p] == l[p];
      } else {
        PairsShape(isLetter, l[m..]);
        assert l[m..][p - m] == l[p];
      }
    }
  }

  /** "john.do@example.com" has its last `@` at position 7, after "john.do". */
  lemma ShortenedSplit()
    ensures LastIndexOf("john.do@example.com", '@') == Some(7)
    ensures "john.do@example.com"[..7] == "john.do"
  {
    var s := "john.do@example.com";
    forall j | 7 < j < |s| ensures s[j] != '@' {
    }
    LastIndexOfIs(s, '@', 7);
  }

  /** One letter fewer after the dot turns the default address into one the pattern
      rejects: the `.` of "john.do" is followed by two characters. */
  lemma RejectsShortenedDefaultAddress(isLetter: char -> bool)
    requires !isLetter('.')
    ensures !Accepts(isLetter, "john.do@example.com")
  {
    ShortenedSplit();
    RejectsEvenTail(isLetter, "john.do", 4);
  }

  /** The local part must open with a character of the class, and `.` is not one
      (it is no letter): a string that starts with `.` is rejected. */
  lemma RejectsLeadingDot(isLetter: char -> bool, s: string)
    requires !isLetter('.')
    requires |s| >= 1 && s[0] == '.'
    ensures !Accepts(isLetter, s)
  {
    match LastIndexOf(s, '@')
    case None =>
    case Some(k) =>
      forall m | 1 <= m <= k ensures !ClassRun(isLetter, s[..k][..m]) {
        assert s[..k][..m][0] == '.';
      }
  }
}
