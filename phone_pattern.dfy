/** The batch form's phone pattern `^\(?([0-9]{3})\)?[-. ]?([0-9]{3})[-. ]?([0-9]{4})$`.
    A `Parse` records one way the pattern can match (which optional pieces are present and
    the three digit groups); `Shape` is the existence of a parse, `Matches` the greedy test
    the validator runs, and `MatchesIffShape` ties the two together. */
module PhonePattern {

  import opened Text

  /** The class `[-. ]`. */
  predicate IsSeparator(c: char) {
    c == '-' || c == '.' || c == ' '
  }

  /** Zero or one separator: what `[-. ]?` consumes. */
  predicate OptionalSeparator(t: string) {
    |t| == 0 || (|t| == 1 && IsSeparator(t[0]))
  }

  predicate DigitGroup(t: string, n: nat) {
    |t| == n && AllDigits(t)
  }

  datatype Parse = Parse(
    open: bool, area: string, close: bool, sep1: string,
    exchange: string, sep2: string, line: string)

  predicate WellFormed(p: Parse) {
    DigitGroup(p.area, 3) && DigitGroup(p.exchange, 3) && DigitGroup(p.line, 4) &&
    OptionalSeparator(p.sep1) && OptionalSeparator(p.sep2)
  }

  /** The text a parse spells out. */
  function Yield(p: Parse): string {
    (if p.open then "(" else "") + p.area + (if p.close then ")" else "") +
    p.sep1 + p.exchange + p.sep2 + p.line
  }

  /** The pattern without its anchors, matched against the whole of `s`. */
  ghost predicate Spells(s: string) {
    exists p :: WellFormed(p) && Yield(p) == s
  }

  /** The pattern with `$`: the whole input, or the input minus one final line feed. */
  ghost predicate Shape(s: string) {
    Spells(s) || (EndsWithNewline(s) && Spells(DropLast(s)))
  }

  /** Where a greedy left-to-right scan puts the four cut points (after the optional `(`, after
      the optional `)`, after the first optional separator, after the second one). Each optional
      piece is taken whenever it is there: no digit is a parenthesis or a separator, so taking
      it never loses a match. */
  function Cuts(s: string): (r: (nat, nat, nat, nat))
  {
    var i0 := if |s| > 0 && s[0] == '(' then 1 else 0;
    var i1 := if i0 + 3 < |s| && s[i0 + 3] == ')' then i0 + 4 else i0 + 3;
    var i2 := if i1 < |s| && IsSeparator(s[i1]) then i1 + 1 else i1;
    var i3 := if i2 + 3 < |s| && IsSeparator(s[i2 + 3]) then i2 + 4 else i2 + 3;
    (i0, i1, i2, i3)
  }

  /** The greedy test without anchors. */
  predicate Fits(s: string) {
    var (i0, i1, i2, i3) := Cuts(s);
    i3 + 4 == |s| &&
    DigitGroup(s[i0..i0 + 3], 3) && DigitGroup(s[i2..i2 + 3], 3) && DigitGroup(s[i3..], 4)
  }

  /** `re.match` of the anchored pattern. */
  predicate Matches(s: string) {
    Fits(s) || (EndsWithNewline(s) && Fits(DropLast(s)))
  }

  lemma SlicesJoin(s: string, a: nat, b: nat, c: nat)
    requires a <= b <= c <= |s|
    ensures s[a..b] + s[b..c] == s[a..c]
  {
  }

  /** Cutting `s` at six points and joining the pieces gives `s` back. */
  lemma JoinPieces(s: string, a: nat, b: nat, c: nat, d: nat, e: nat, f: nat)
    requires a <= b <= c <= d <= e <= f <= |s|
    ensures s[..a] + s[a..b] + s[b..c] + s[c..d] + s[d..e] + s[e..f] + s[f..] == s
  {
    SlicesJoin(s, 0, a, b);
    SlicesJoin(s, 0, b, c);
    SlicesJoin(s, 0, c, d);
    SlicesJoin(s, 0, d, e);
    SlicesJoin(s, 0, e, f);
    SlicesJoin(s, 0, f, |s|);
    assert s[0..|s|] == s;
  }

  /** The parse the greedy test finds. */
  function ParseOf(s: string): (p: Parse)
    requires Fits(s)
    ensures WellFormed(p) && Yield(p) == s
  {
    var (i0, i1, i2, i3) := Cuts(s);
    var p := Parse(i0 == 1, s[i0..i0 + 3], i1 == i0 + 4, s[i1..i2], s[i2..i2 + 3], s[i2 + 3..i3], s[i3..]);
    assert (if p.open then "(" else "") == s[..i0];
    assert (if p.close then ")" else "") == s[i0 + 3..i1];
    JoinPieces(s, i0, i0 + 3, i1, i2, i2 + 3, i3);
    p
  }

  /** Where each piece of a parse starts in the text it spells. */
  function AreaStart(p: Parse): nat { if p.open then 1 else 0 }
  function CloseStart(p: Parse): nat { AreaStart(p) + 3 }
  function Sep1Start(p: Parse): nat { CloseStart(p) + (if p.close then 1 else 0) }
  function ExchangeStart(p: Parse): nat { Sep1Start(p) + |p.sep1| }
  function Sep2Start(p: Parse): nat { ExchangeStart(p) + 3 }
  function LineStart(p: Parse): nat { Sep2Start(p) + |p.sep2| }

  lemma YieldPieces(p: Parse)
    requires WellFormed(p)
    ensures var s := Yield(p);
      |s| == LineStart(p) + 4 &&
      s[..AreaStart(p)] == (if p.open then "(" else "") &&
      s[AreaStart(p)..CloseStart(p)] == p.area &&
      s[CloseStart(p)..Sep1Start(p)] == (if p.close then ")" else "") &&
      s[Sep1Start(p)..ExchangeStart(p)] == p.sep1 &&
      s[ExchangeStart(p)..Sep2Start(p)] == p.exchange &&
      s[Sep2Start(p)..LineStart(p)] == p.sep2 &&
      s[LineStart(p)..] == p.line
  {
    var s := Yield(p);
    var q1 := (if p.open then "(" else "") + p.area;
    var q2 := q1 + (if p.close then ")" else "");
    var q3 := q2 + p.sep1;
    var q4 := q3 + p.exchange;
    var q5 := q4 + p.sep2;
    assert s == q5 + p.line;
    PrefixOfJoin(q5, p.line);
    PrefixOfPrefix(s, q5, |q4|);
    PrefixOfJoin(q4, p.sep2);
    PrefixOfPrefix(s, q4, |q3|);
    PrefixOfJoin(q3, p.exchange);
    PrefixOfPrefix(s, q3, |q2|);
    PrefixOfJoin(q2, p.sep1);
    PrefixOfPrefix(s, q2, |q1|);
    PrefixOfJoin(q1, (if p.close then ")" else ""));
    PrefixOfPrefix(s, q1, AreaStart(p));
    PrefixOfJoin((if p.open then "(" else ""), p.area);
    PieceOfPrefix(s, (if p.open then "(" else ""), p.area);
    PieceOfPrefix(s, q1, (if p.close then ")" else ""));
    PieceOfPrefix(s, q2, p.sep1);
    PieceOfPrefix(s, q3, p.exchange);
    PieceOfPrefix(s, q4, p.sep2);
    assert s[|q5|..] == p.line;
  }

  lemma PrefixOfJoin(t: string, x: string)
    ensures (t + x)[..|t|] == t
  {
  }

  /** A prefix of a prefix of `s` is a prefix of `s`. */
  lemma PrefixOfPrefix(s: string, u: string, n: nat)
    requires |u| <= |s| && s[..|u|] == u && n <= |u|
    ensures s[..n] == u[..n]
  {
    assert forall i :: 0 <= i < n ==> s[..n][i] == s[..|u|][i];
  }

  /** When `t + x` starts `s`, `x` is the piece of `s` right after `t`. */
  lemma PieceOfPrefix(s: string, t: string, x: string)
    requires |t| + |x| <= |s| && s[..|t| + |x|] == t + x
    ensures s[|t|..|t| + |x|] == x
  {
    forall i | 0 <= i < |x|
      ensures s[|t| + i] == x[i]
    {
      assert s[|t| + i] == s[..|t| + |x|][|t| + i];
    }
  }

  /** The character at `k` lies in the piece `s[a..b]` that contains it. */
  lemma CharInPiece(s: string, a: nat, b: nat, k: nat)
    requires a <= k < b <= |s|
    ensures s[k] == s[a..b][k - a]
  {
  }

  /** The scan takes the `(` exactly when the parse opens with one: otherwise the text starts
      with a digit. */
  lemma OpenCut(s: string, p: Parse)
    requires WellFormed(p) && CloseStart(p) <= |s|
    requires s[..AreaStart(p)] == (if p.open then "(" else "")
    requires s[AreaStart(p)..CloseStart(p)] == p.area
    ensures (|s| > 0 && s[0] == '(') == p.open
  {
    if p.open {
      CharInPiece(s, 0, 1, 0);
    } else {
      CharInPiece(s, 0, 3, 0);
    }
  }

  /** The scan takes the `)` exactly when the parse has one: otherwise the character after the
      area code is a separator or a digit. */
  lemma CloseCut(s: string, p: Parse)
    requires WellFormed(p) && Sep2Start(p) <= |s|
    requires s[CloseStart(p)..Sep1Start(p)] == (if p.close then ")" else "")
    requires s[Sep1Start(p)..ExchangeStart(p)] == p.sep1
    requires s[ExchangeStart(p)..Sep2Start(p)] == p.exchange
    ensures (CloseStart(p) < |s| && s[CloseStart(p)] == ')') == p.close
  {
    var k := CloseStart(p);
    if p.close {
      CharInPiece(s, k, k + 1, k);
    } else if |p.sep1| == 1 {
      CharInPiece(s, k, k + 1, k);
    } else {
      CharInPiece(s, k, k + 3, k);
    }
  }

  /** The scan takes a separator after the area code exactly when the parse has one there. */
  lemma Sep1Cut(s: string, p: Parse)
    requires WellFormed(p) && Sep2Start(p) <= |s|
    requires s[Sep1Start(p)..ExchangeStart(p)] == p.sep1
    requires s[ExchangeStart(p)..Sep2Start(p)] == p.exchange
    ensures (Sep1Start(p) < |s| && IsSeparator(s[Sep1Start(p)])) == (|p.sep1| == 1)
  {
    var k := Sep1Start(p);
    if |p.sep1| == 1 {
      CharInPiece(s, k, k + 1, k);
    } else {
      CharInPiece(s, k, k + 3, k);
    }
  }

  /** The scan takes a separator after the exchange exactly when the parse has one there. */
  lemma Sep2Cut(s: string, p: Parse)
    requires WellFormed(p) && |s| == LineStart(p) + 4
    requires s[Sep2Start(p)..LineStart(p)] == p.sep2
    requires s[LineStart(p)..] == p.line
    ensures (Sep2Start(p) < |s| && IsSeparator(s[Sep2Start(p)])) == (|p.sep2| == 1)
  {
    var k := Sep2Start(p);
    if |p.sep2| == 1 {
      CharInPiece(s, k, k + 1, k);
    } else {
      CharInPiece(s, k, |s|, k);
    }
  }

  /** Given where the pieces of a parse lie in `s`, the greedy scan cuts `s` there. */
  lemma GreedyCuts(s: string, p: Parse)
    requires WellFormed(p)
    requires |s| == LineStart(p) + 4
    requires s[..AreaStart(p)] == (if p.open then "(" else "")
    requires s[AreaStart(p)..CloseStart(p)] == p.area
    requires s[CloseStart(p)..Sep1Start(p)] == (if p.close then ")" else "")
    requires s[Sep1Start(p)..ExchangeStart(p)] == p.sep1
    requires s[ExchangeStart(p)..Sep2Start(p)] == p.exchange
    requires s[Sep2Start(p)..LineStart(p)] == p.sep2
    requires s[LineStart(p)..] == p.line
    ensures Cuts(s) == (AreaStart(p), Sep1Start(p), ExchangeStart(p), LineStart(p))
  {
    OpenCut(s, p);
    CloseCut(s, p);
    Sep1Cut(s, p);
    Sep2Cut(s, p);
  }

  /** Whatever parse spells `s`, the greedy scan cuts `s` where that parse does. */
  lemma GreedyFindsParse(p: Parse)
    requires WellFormed(p)
    ensures Fits(Yield(p))
  {
    var s := Yield(p);
    YieldPieces(p);
    GreedyCuts(s, p);
  }

  lemma FitsIffSpells(s: string)
    ensures Fits(s) <==> Spells(s)
  {
    if Fits(s) {
      var p := ParseOf(s);
    }
    if Spells(s) {
      var p :| WellFormed(p) && Yield(p) == s;
      GreedyFindsParse(p);
    }
  }

  /** The greedy test accepts exactly the strings the pattern describes. */
  lemma MatchesIffShape(s: string)
    ensures Matches(s) <==> Shape(s)
  {
    FitsIffSpells(s);
    if EndsWithNewline(s) {
      FitsIffSpells(DropLast(s));
    }
  }

  /** Every number a parse spells has exactly ten digits and 10 to 14 characters. */
  lemma YieldCounts(p: Parse)
    requires WellFormed(p)
    ensures CountDigits(Yield(p)) == 10 && 10 <= |Yield(p)| <= 14
  {
    var o := if p.open then "(" else "";
    var c := if p.close then ")" else "";
    CountNoDigits(o);
    CountNoDigits(c);
    CountNoDigits(p.sep1);
    CountNoDigits(p.sep2);
    CountAllDigits(p.area);
    CountAllDigits(p.exchange);
    CountAllDigits(p.line);
    CountDigitsAppend(o, p.area);
    CountDigitsAppend(o + p.area, c);
    CountDigitsAppend(o + p.area + c, p.sep1);
    CountDigitsAppend(o + p.area + c + p.sep1, p.exchange);
    CountDigitsAppend(o + p.area + c + p.sep1 + p.exchange, p.sep2);
    CountDigitsAppend(o + p.area + c + p.sep1 + p.exchange + p.sep2, p.line);
  }

  lemma SpelledCounts(s: string)
    requires Spells(s)
    ensures CountDigits(s) == 10 && 10 <= |s| <= 14
  {
    var p :| WellFormed(p) && Yield(p) == s;
    YieldCounts(p);
  }
}
