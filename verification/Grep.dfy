/**
 The regular-expression matcher of grep against the language its pattern denotes:
 literals, `.`, `c*`, a leading `^` and a final `$`.
 */
module Grep {

  /** One position of a pattern: a character, or any number of one. */
  datatype Item = One(c: char) | Star(c: char)

  /** A pattern: its items, and whether a match must reach the end of the text. */
  datatype Pattern = Pattern(items: seq<Item>, toEnd: bool)

  /** How the matcher reads a pattern string, from the left. */
  function Parse(re: string): Pattern {
    if re == [] then Pattern([], false)
    else if |re| >= 2 && re[1] == '*' then
      var p := Parse(re[2..]);
      Pattern([Star(re[0])] + p.items, p.toEnd)
    else if re == "$" then Pattern([], true)
    else
      var p := Parse(re[1..]);
      Pattern([One(re[0])] + p.items, p.toEnd)
  }

  // ------------------------------------------------------------ reading a pattern string

  function PrintedItems(items: seq<Item>): string {
    if items == [] then ""
    else (if items[0].One? then [items[0].c] else [items[0].c, '*']) + PrintedItems(items[1..])
  }

  /** The pattern as it is written. */
  function Printed(p: Pattern): string {
    PrintedItems(p.items) + if p.toEnd then "$" else ""
  }

  /** No character is read without the star after it, and no final `$` as a character. */
  predicate Canonical(p: Pattern) {
    && (forall i {:trigger p.items[i]} :: 0 <= i < |p.items| - 1 && p.items[i].One? ==> p.items[i + 1].c != '*')
    && (!p.toEnd && p.items != [] ==> p.items[|p.items| - 1] != One('$'))
  }

  predicate Fits(c: char, x: char) {
    c == '.' || c == x
  }

  predicate AllFit(c: char, w: string) {
    forall i :: 0 <= i < |w| ==> Fits(c, w[i])
  }

  /** w is a word of the language of the items. */
  predicate InLanguage(items: seq<Item>, w: string) {
    if items == [] then w == []
    else match items[0]
      case One(c) => w != [] && Fits(c, w[0]) && InLanguage(items[1..], w[1..])
      case Star(c) => exists k :: 0 <= k <= |w| && AllFit(c, w[..k]) && InLanguage(items[1..], w[k..])
  }

  /** Some prefix of the text is in the language, the whole text if the pattern is anchored at the end. */
  predicate MatchesHere(p: Pattern, text: string) {
    exists j :: 0 <= j <= |text| && InLanguage(p.items, text[..j]) && (p.toEnd ==> j == |text|)
  }

  /** Some suffix of the text has a match at its beginning. */
  predicate MatchesSomewhere(p: Pattern, text: string) {
    exists i :: 0 <= i <= |text| && MatchesHere(p, text[i..])
  }

  /**
   The meaning of a pattern: a substring of the text is in its language, at the start under `^`, at
   the end under a final `$`.
   */
  predicate Matches(re: string, text: string) {
    if re != [] && re[0] == '^' then MatchesHere(Parse(re[1..]), text)
    else MatchesSomewhere(Parse(re), text)
  }

  predicate Substring(p: Pattern, text: string, i: int, j: int) {
    0 <= i <= j <= |text| && InLanguage(p.items, text[i..j]) && (p.toEnd ==> j == |text|)
  }

  /** Without `^`, a text matches exactly when one of its substrings, a suffix under a final `$`, is in the language. */
  lemma SomewhereIsSubstring(p: Pattern, text: string)
    ensures MatchesSomewhere(p, text) <==> exists i, j :: Substring(p, text, i, j)
  {
    if MatchesSomewhere(p, text) {
      var i :| 0 <= i <= |text| && MatchesHere(p, text[i..]);
      var j :| 0 <= j <= |text[i..]| && InLanguage(p.items, text[i..][..j]) && (p.toEnd ==> j == |text[i..]|);
      assert text[i..][..j] == text[i..i + j];
      assert Substring(p, text, i, i + j);
    }
    if i, j :| Substring(p, text, i, j) {
      assert text[i..][..j - i] == text[i..j];
      assert MatchesHere(p, text[i..]);
    }
  }

  lemma PrintedCons(x: Item, p: Pattern)
    ensures Printed(Pattern([x] + p.items, p.toEnd)) == (if x.One? then [x.c] else [x.c, '*']) + Printed(p)
  {
    assert ([x] + p.items)[1..] == p.items;
  }

  lemma CanonicalCons(x: Item, p: Pattern)
    requires Canonical(p)
    requires x.One? && p.items != [] ==> p.items[0].c != '*'
    requires !p.toEnd && p.items == [] ==> x != One('$')
    ensures Canonical(Pattern([x] + p.items, p.toEnd))
  {
    var items := [x] + p.items;
    forall i | 0 <= i < |items| - 1 && items[i].One? ensures items[i + 1].c != '*' {
      assert i > 0 ==> items[i] == p.items[i - 1];
    }
  }

  /** The first item starts with the first character, and a final `$` is the end. */
  lemma {:induction false} ParseEnds(re: string)
    ensures re != [] && re != "$" ==> Parse(re).items != [] && Parse(re).items[0].c == re[0]
    ensures Parse(re).toEnd <==> re != [] && re[|re| - 1] == '$'
    decreases |re|
  {
    if |re| >= 2 && re[1] == '*' {
      ParseEnds(re[2..]);
    } else if re != [] && re != "$" {
      ParseEnds(re[1..]);
    }
  }

  /** A pattern string is read as a canonical pattern, and that is written as the string. */
  lemma {:induction false} ParsePrinted(re: string)
    ensures Canonical(Parse(re)) && Printed(Parse(re)) == re
    decreases |re|
  {
    if |re| >= 2 && re[1] == '*' {
      ParsePrinted(re[2..]);
      PrintedCons(Star(re[0]), Parse(re[2..]));
      CanonicalCons(Star(re[0]), Parse(re[2..]));
      assert re == [re[0], '*'] + re[2..];
    } else if re != [] && re != "$" {
      ParsePrinted(re[1..]);
      ParseEnds(re[1..]);
      PrintedCons(One(re[0]), Parse(re[1..]));
      CanonicalCons(One(re[0]), Parse(re[1..]));
      assert re == [re[0]] + re[1..];
    }
  }

  /** And no other canonical pattern is. */
  lemma {:induction false} OneReading(p: Pattern)
    requires Canonical(p)
    ensures Parse(Printed(p)) == p
    decreases |p.items|
  {
    if p.items != [] {
      var rest := Pattern(p.items[1..], p.toEnd);
      var re := Printed(rest);
      assert p.items == [p.items[0]] + rest.items;
      PrintedCons(p.items[0], rest);
      OneReading(rest);
      if p.items[0].Star? {
        assert Printed(p)[2..] == re;
      } else {
        assert Printed(p)[1..] == re;
        assert rest.items != [] ==> re[0] == rest.items[0].c;
      }
    }
  }

  /** What one item stands for: `.` for any character, every other character for itself. */
  lemma OneItem(c: char, w: string)
    ensures InLanguage([One(c)], w) <==> |w| == 1 && (c == '.' || w == [c])
    ensures InLanguage([Star(c)], w) <==> c == '.' || forall i :: 0 <= i < |w| ==> w[i] == c
  {
    assert [One(c)][1..] == [] && [Star(c)][1..] == [];
    if InLanguage([Star(c)], w) {
      var k :| 0 <= k <= |w| && AllFit(c, w[..k]) && InLanguage([], w[k..]);
      assert w[..k] == w;
    }
    if c == '.' || forall i :: 0 <= i < |w| ==> w[i] == c {
      assert w[..|w|] == w && w[|w|..] == [] && AllFit(c, w[..|w|]);
    }
  }

  // ------------------------------------------------------------ one item at a time

  lemma HereEmpty(toEnd: bool, text: string)
    ensures MatchesHere(Pattern([], toEnd), text) <==> (toEnd ==> text == [])
  {
    assert text[..0] == [];
    if toEnd && text == [] {
      assert text[..0] == text;
    }
  }

  lemma HereOne(c: char, p: Pattern, text: string)
    ensures MatchesHere(Pattern([One(c)] + p.items, p.toEnd), text)
            <==> text != [] && Fits(c, text[0]) && MatchesHere(p, text[1..])
  {
    var items := [One(c)] + p.items;
    assert items[1..] == p.items;
    if MatchesHere(Pattern(items, p.toEnd), text) {
      var j :| 0 <= j <= |text| && InLanguage(items, text[..j]) && (p.toEnd ==> j == |text|);
      assert text[..j][1..] == text[1..][..j - 1];
    }
    if text != [] && Fits(c, text[0]) && MatchesHere(p, text[1..]) {
      var j :| 0 <= j <= |text| - 1 && InLanguage(p.items, text[1..][..j]) && (p.toEnd ==> j == |text| - 1);
      assert text[..j + 1][1..] == text[1..][..j];
      assert InLanguage(items, text[..j + 1]);
    }
  }

  /** A starred character takes some k of the characters it fits, and the rest matches after them. */
  predicate StarSplit(c: char, p: Pattern, text: string, k: nat) {
    k <= |text| && AllFit(c, text[..k]) && MatchesHere(p, text[k..])
  }

  predicate MatchesStar(c: char, p: Pattern, text: string) {
    exists k :: 0 <= k <= |text| && StarSplit(c, p, text, k)
  }

  lemma HereStar(c: char, p: Pattern, text: string)
    ensures MatchesHere(Pattern([Star(c)] + p.items, p.toEnd), text) <==> MatchesStar(c, p, text)
  {
    var items := [Star(c)] + p.items;
    assert items[1..] == p.items;
    if MatchesHere(Pattern(items, p.toEnd), text) {
      var j :| 0 <= j <= |text| && InLanguage(items, text[..j]) && (p.toEnd ==> j == |text|);
      var k :| 0 <= k <= j && AllFit(c, text[..j][..k]) && InLanguage(p.items, text[..j][k..]);
      assert text[..j][..k] == text[..k] && text[..j][k..] == text[k..][..j - k];
      assert StarSplit(c, p, text, k);
    }
    if k: nat :| StarSplit(c, p, text, k) {
      var j :| 0 <= j <= |text| - k && InLanguage(p.items, text[k..][..j]) && (p.toEnd ==> j == |text| - k);
      assert text[..k + j][..k] == text[..k] && text[..k + j][k..] == text[k..][..j];
      assert InLanguage(items, text[..k + j]);
    }
  }

  /** The star cannot reach past a character that it does not fit. */
  lemma StarStops(c: char, p: Pattern, text: string, i: nat)
    requires i <= |text| && (i < |text| ==> !Fits(c, text[i]))
    ensures forall k: nat :: i < k ==> !StarSplit(c, p, text, k)
  {
    forall k: nat | i < k <= |text| ensures !AllFit(c, text[..k]) {
      assert text[..k][i] == text[i];
    }
  }

  // ------------------------------------------------------------ the matcher

  /** Search for the pattern at the beginning of the text. */
  method MatchHere(re: string, text: string) returns (found: bool)
    ensures found <==> MatchesHere(Parse(re), text)
    decreases re, |text| + 1
  {
    if re == [] {
      HereEmpty(false, text);
      return true;
    }
    if |re| >= 2 && re[1] == '*' {
      var rest := Parse(re[2..]);
      assert Parse(re) == Pattern([Star(re[0])] + rest.items, rest.toEnd);
      HereStar(re[0], rest, text);
      found := MatchStar(re[0], re[2..], text);
      return;
    }
    if re == "$" {
      HereEmpty(true, text);
      return text == [];
    }
    HereOne(re[0], Parse(re[1..]), text);
    if text != [] && (re[0] == '.' || re[0] == text[0]) {
      found := MatchHere(re[1..], text[1..]);
      return;
    }
    found := false;
  }

  /** Search for c*re at the beginning of the text. */
  method MatchStar(c: char, re: string, text: string) returns (found: bool)
    ensures found <==> MatchesStar(c, Parse(re), text)
    decreases re, |text| + 2
  {
    var i := 0;
    while true
      invariant 0 <= i <= |text| && AllFit(c, text[..i])
      invariant forall k :: 0 <= k < i ==> !StarSplit(c, Parse(re), text, k)
      decreases |text| - i
    {
      found := MatchHere(re, text[i..]);
      if found {
        assert StarSplit(c, Parse(re), text, i);
        return;
      }
      assert !StarSplit(c, Parse(re), text, i);
      if !(i < |text| && (text[i] == c || c == '.')) {
        StarStops(c, Parse(re), text, i);
        return false;
      }
      assert text[..i + 1] == text[..i] + [text[i]];
      i := i + 1;
    }
  }

  /** Search for the pattern anywhere in the text. */
  method Match(re: string, text: string) returns (found: bool)
    ensures found <==> Matches(re, text)
  {
    if re != [] && re[0] == '^' {
      found := MatchHere(re[1..], text);
      return;
    }
    var i := 0;
    while true
      invariant 0 <= i <= |text| && forall k :: 0 <= k < i ==> !MatchesHere(Parse(re), text[k..])
      decreases |text| - i
    {
      found := MatchHere(re, text[i..]);
      if found {
        return;
      }
      if i == |text| {
        return false;
      }
      i := i + 1;
    }
  }
}
