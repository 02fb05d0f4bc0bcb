/** The address pattern `^[a-zA-Z0-9._%+-]+@[a-zA-Z0-9.-]+\.[a-zA-Z]{2,}$`, written out
    identically in both variants. `Splits` is what the pattern means; `Matches` is the
    deterministic test the validators use, and `MatchesIffShape` ties the two together. */
module EmailPattern {

  import opened Text

  /** The class `a-zA-Z0-9._%+-` of the part before `@`. */
  predicate IsLocalChar(c: char) {
    IsLetter(c) || IsDigit(c) || c == '.' || c == '_' || c == '%' || c == '+' || c == '-'
  }

  /** The class `a-zA-Z0-9.-` of the domain. */
  predicate IsDomainChar(c: char) {
    IsLetter(c) || IsDigit(c) || c == '.' || c == '-'
  }

  predicate LocalPart(t: string) {
    |t| >= 1 && forall i :: 0 <= i < |t| ==> IsLocalChar(t[i])
  }

  predicate DomainPart(t: string) {
    |t| >= 1 && forall i :: 0 <= i < |t| ==> IsDomainChar(t[i])
  }

  predicate TopLevelPart(t: string) {
    |t| >= 2 && forall i :: 0 <= i < |t| ==> IsLetter(t[i])
  }

  /** The pattern without its anchors, matched against the whole of `s`: some `@` and some
      later `.` cut `s` into a local part, a domain and a top-level domain. */
  ghost predicate Splits(s: string) {
    exists at, dot | 0 <= at < dot < |s| ::
      s[at] == '@' && s[dot] == '.' &&
      LocalPart(s[..at]) && DomainPart(s[at + 1..dot]) && TopLevelPart(s[dot + 1..])
  }

  /** The pattern with `$`: the whole input splits, or the input minus one final line feed does. */
  ghost predicate Shape(s: string) {
    Splits(s) || (EndsWithNewline(s) && Splits(DropLast(s)))
  }

  /** The position of the first `c` in `s`, or `|s|` when there is none. */
  function FirstIndex(s: string, c: char): (r: nat)
    ensures r <= |s|
    ensures r < |s| ==> s[r] == c
    ensures forall i :: 0 <= i < r ==> s[i] != c
  {
    if s == [] then 0
    else if s[0] == c then 0
    else 1 + FirstIndex(s[1..], c)
  }

  /** The position of the last `c` in `s`, or -1 when there is none. */
  function LastIndex(s: string, c: char): (r: int)
    ensures -1 <= r < |s|
    ensures 0 <= r ==> s[r] == c
    ensures forall i :: r < i < |s| ==> s[i] != c
  {
    if s == [] then -1
    else if s[|s| - 1] == c then |s| - 1
    else LastIndex(s[..|s| - 1], c)
  }

  /** The test without anchors: cut at the first `@`, then at the last `.` after it. */
  predicate Fits(s: string) {
    var at := FirstIndex(s, '@');
    at < |s| &&
    var rest := s[at + 1..];
    var dot := LastIndex(rest, '.');
    0 <= dot && LocalPart(s[..at]) && DomainPart(rest[..dot]) && TopLevelPart(rest[dot + 1..])
  }

  /** `re.match` of the anchored pattern. */
  predicate Matches(s: string) {
    Fits(s) || (EndsWithNewline(s) && Fits(DropLast(s)))
  }

  lemma FitsGivesSplit(s: string)
    requires Fits(s)
    ensures Splits(s)
  {
    var at := FirstIndex(s, '@');
    var rest := s[at + 1..];
    var dot := LastIndex(rest, '.');
    var d := at + 1 + dot;
    assert s[d] == rest[dot];
    assert s[at + 1..d] == rest[..dot];
    assert s[d + 1..] == rest[dot + 1..];
    assert s[at] == '@' && s[d] == '.' && LocalPart(s[..at]) && DomainPart(s[at + 1..d]) && TopLevelPart(s[d + 1..]);
  }

  lemma SplitIsFound(s: string, a: nat, d: nat)
    requires a < d < |s| && s[a] == '@' && s[d] == '.'
    requires LocalPart(s[..a]) && DomainPart(s[a + 1..d]) && TopLevelPart(s[d + 1..])
    ensures Fits(s)
  {
    var at := FirstIndex(s, '@');
    // No local character is an `@`, so `a` is the first one.
    forall i | 0 <= i < a
      ensures s[i] != '@'
    {
      assert s[..a][i] == s[i];
    }
    assert at == a;
    var rest := s[a + 1..];
    // No letter is a `.`, so `d` is the last one.
    var dot := LastIndex(rest, '.');
    assert rest[d - a - 1] == '.';
    forall i | d - a - 1 < i < |rest|
      ensures rest[i] != '.'
    {
      assert s[d + 1..][i - (d - a)] == rest[i];
    }
    assert dot == d - a - 1;
    assert rest[..dot] == s[a + 1..d];
    assert rest[dot + 1..] == s[d + 1..];
  }

  lemma FitsIffSplits(s: string)
    ensures Fits(s) <==> Splits(s)
  {
    if Fits(s) {
      FitsGivesSplit(s);
    }
    if Splits(s) {
      var a, d :| 0 <= a < d < |s| && s[a] == '@' && s[d] == '.' &&
        LocalPart(s[..a]) && DomainPart(s[a + 1..d]) && TopLevelPart(s[d + 1..]);
      SplitIsFound(s, a, d);
    }
  }

  /** The deterministic test accepts exactly the strings the pattern describes. */
  lemma MatchesIffShape(s: string)
    ensures Matches(s) <==> Shape(s)
  {
    FitsIffSplits(s);
    if EndsWithNewline(s) {
      FitsIffSplits(DropLast(s));
    }
  }

  /** Input without an `@`, such as the empty string, never matches. */
  lemma NoAtRejected(s: string)
    requires forall i :: 0 <= i < |s| ==> s[i] != '@'
    ensures !Matches(s)
  {
    if EndsWithNewline(s) {
      var t := DropLast(s);
      assert forall i :: 0 <= i < |t| ==> t[i] == s[i];
    }
  }

  /** Input with no `.` after its first `@` (no top-level domain) never matches. */
  lemma NoDotAfterAtRejected(s: string)
    requires forall i, j :: 0 <= i < j < |s| && s[i] == '@' ==> s[j] != '.'
    ensures !Matches(s)
  {
    if EndsWithNewline(s) {
      var t := DropLast(s);
      assert forall i :: 0 <= i < |t| ==> t[i] == s[i];
    }
  }
}
