/**
 * The user-name pattern `^[a-zA-Z0-9._%+-]+@[a-zA-Z0-9.-]+\.[a-zA-Z]{2,}$`,
 * shared by the register body schema and the user record.
 *
 * `Matches` states what the regular expression accepts: some split of the
 * whole string into local part, '@', domain, '.', and a top-level part of
 * two or more letters. `MatchesEmail` decides it in one pass (first '@',
 * last '.'), and `MatchesEmailCorrect` proves the two agree.
 */
module EmailPattern {

  predicate Letter(c: char) {
    ('a' <= c <= 'z') || ('A' <= c <= 'Z')
  }

  predicate Digit(c: char) {
    '0' <= c <= '9'
  }

  /** `[a-zA-Z0-9._%+-]` */
  predicate LocalChar(c: char) {
    Letter(c) || Digit(c) || c == '.' || c == '_' || c == '%' || c == '+' || c == '-'
  }

  /** `[a-zA-Z0-9.-]` */
  predicate DomainChar(c: char) {
    Letter(c) || Digit(c) || c == '.' || c == '-'
  }

  /** s[lo..hi] consists of local-part characters. */
  predicate LocalRun(s: string, lo: int, hi: int)
    requires 0 <= lo <= hi <= |s|
  {
    forall k :: lo <= k < hi ==> LocalChar(s[k])
  }

  predicate DomainRun(s: string, lo: int, hi: int)
    requires 0 <= lo <= hi <= |s|
  {
    forall k :: lo <= k < hi ==> DomainChar(s[k])
  }

  predicate LetterRun(s: string, lo: int, hi: int)
    requires 0 <= lo <= hi <= |s|
  {
    forall k :: lo <= k < hi ==> Letter(s[k])
  }

  /**
   * `s` splits as local '@' domain '.' tld with '@' at `at` and the
   * separating '.' at `dot`, each part long enough and of the right characters.
   */
  predicate SplitsAt(s: string, at: int, dot: int) {
    && 1 <= at && at + 2 <= dot && dot + 3 <= |s|
    && s[at] == '@' && s[dot] == '.'
    && LocalRun(s, 0, at) && DomainRun(s, at + 1, dot) && LetterRun(s, dot + 1, |s|)
  }

  /** What the anchored regular expression accepts. */
  ghost predicate Matches(s: string) {
    exists at, dot :: SplitsAt(s, at, dot)
  }

  /** Index of the first `c` in `s`, or |s| if there is none. */
  function FirstIndex(s: string, c: char): (i: nat)
    ensures i <= |s|
    ensures i < |s| ==> s[i] == c
    ensures forall k :: 0 <= k < i ==> s[k] != c
  {
    if s == [] then 0
    else if s[0] == c then 0
    else 1 + FirstIndex(s[1..], c)
  }

  /** Index of the last `c` in `s`, or -1 if there is none. */
  function LastIndex(s: string, c: char): (i: int)
    ensures -1 <= i < |s|
    ensures i >= 0 ==> s[i] == c
    ensures forall k :: i < k < |s| ==> s[k] != c
  {
    if s == [] then -1
    else if s[|s| - 1] == c then |s| - 1
    else LastIndex(s[..|s| - 1], c)
  }

  /** The one-pass decision: split at the first '@' and the last '.'. */
  predicate MatchesEmail(s: string) {
    SplitsAt(s, FirstIndex(s, '@'), LastIndex(s, '.'))
  }

  /** The one-pass decision accepts exactly what the regular expression accepts. */
  lemma MatchesEmailCorrect(s: string)
    ensures MatchesEmail(s) <==> Matches(s)
  {
    if Matches(s) {
      var at, dot :| SplitsAt(s, at, dot);
      // No local-part character is '@', so `at` is the first '@'.
      assert !LocalChar('@');
      assert FirstIndex(s, '@') == at;
      // No letter is '.', so `dot` is the last '.'.
      assert !Letter('.');
      assert LastIndex(s, '.') == dot;
    }
  }

  /** An address of the usual shape is accepted. */
  lemma ExampleAccepted()
    ensures MatchesEmail("test@test.com")
  {
    assert SplitsAt("test@test.com", 4, 9);
  }

  /** A one-letter top-level part is rejected, as are a missing local part and an empty domain. */
  lemma ExamplesRejected()
    ensures !Matches("a@b.c")
    ensures !Matches("@test.com")
    ensures !Matches("a@.com")
  {
    MatchesEmailCorrect("a@b.c");
    MatchesEmailCorrect("@test.com");
    MatchesEmailCorrect("a@.com");
  }
}
