/** The regular expression matcher of grep (user/grep.c), against the languages its patterns denote.
    A string stands for the characters before the terminating NUL. */
module Grep {

  /** One element of a pattern: a character, any character, or a repetition of one of these. */
  datatype Item = Lit(c: char) | Any | Star(c: char)

  /** The elements of a pattern, without a final '$'. */
  function Items(re: string): seq<Item>
  {
    if re == [] || re == "$" then []
    else if |re| >= 2 && re[1] == '*' then [Star(re[0])] + Items(re[2..])
    else [if re[0] == '.' then Any else Lit(re[0])] + Items(re[1..])
  }

  /** The pattern ends with '$' as an element of its own. */
  predicate Anchored(re: string)
  {
    if re == [] then false
    else if re == "$" then true
    else if |re| >= 2 && re[1] == '*' then Anchored(re[2..])
    else Anchored(re[1..])
  }

  predicate Fits(c: char, x: char) { c == '.' || x == c }

  /** The strings that one element stands for. */
  predicate OneOf(item: Item, w: string)
  {
    match item
    case Lit(c) => w == [c]
    case Any => |w| == 1
    case Star(c) => forall i :: 0 <= i < |w| ==> Fits(c, w[i])
  }

  /** The strings that a sequence of elements stands for: concatenations of what they stand for. */
  predicate Denotes(items: seq<Item>, w: string)
    decreases |items|
  {
    if items == [] then w == []
    else exists k :: 0 <= k <= |w| && OneOf(items[0], w[..k]) && Denotes(items[1..], w[k..])
  }

  /** A prefix of the text is denoted by the pattern, all of it if the pattern ends with '$'. */
  ghost predicate PrefixMatches(re: string, text: string)
  {
    exists n :: 0 <= n <= |text| && Denotes(Items(re), text[..n]) && (Anchored(re) ==> n == |text|)
  }

  /** What a pattern means: some part of the text is denoted by it, at the start of the text after '^'. */
  ghost predicate Means(re: string, text: string)
  {
    if re != [] && re[0] == '^' then PrefixMatches(re[1..], text)
    else exists i :: 0 <= i <= |text| && PrefixMatches(re, text[i..])
  }

  lemma EmptyPattern(text: string)
    ensures PrefixMatches([], text)
  {
    assert Denotes(Items([]), text[..0]);
  }

  lemma DollarPattern(text: string)
    ensures PrefixMatches("$", text) <==> text == []
  {
    if text == [] {
      assert Denotes(Items("$"), text[..0]);
    }
  }

  /** A starred element takes some prefix, the rest of the pattern what follows. */
  lemma StarPattern(re: string, text: string)
    requires |re| >= 2 && re[1] == '*'
    ensures PrefixMatches(re, text) <==>
              exists k :: 0 <= k <= |text| && OneOf(Star(re[0]), text[..k]) && PrefixMatches(re[2..], text[k..])
  {
    var items := Items(re);
    assert items[0] == Star(re[0]) && items[1..] == Items(re[2..]);
    if PrefixMatches(re, text) {
      var n :| 0 <= n <= |text| && Denotes(items, text[..n]) && (Anchored(re) ==> n == |text|);
      var k :| 0 <= k <= n && OneOf(items[0], text[..n][..k]) && Denotes(items[1..], text[..n][k..]);
      assert text[..n][..k] == text[..k] && text[..n][k..] == text[k..][..n - k];
      assert PrefixMatches(re[2..], text[k..]);
    }
    if exists k :: 0 <= k <= |text| && OneOf(Star(re[0]), text[..k]) && PrefixMatches(re[2..], text[k..]) {
      var k :| 0 <= k <= |text| && OneOf(Star(re[0]), text[..k]) && PrefixMatches(re[2..], text[k..]);
      var n :| 0 <= n <= |text[k..]| && Denotes(Items(re[2..]), text[k..][..n])
          && (Anchored(re[2..]) ==> n == |text[k..]|);
      assert text[..k + n][..k] == text[..k] && text[..k + n][k..] == text[k..][..n];
      assert Denotes(items, text[..k + n]);
    }
  }

  /** A plain element takes one character. */
  lemma CharPattern(re: string, text: string)
    requires re != [] && re != "$" && !(|re| >= 2 && re[1] == '*')
    ensures PrefixMatches(re, text) <==> text != [] && Fits(re[0], text[0]) && PrefixMatches(re[1..], text[1..])
  {
    var items := Items(re);
    assert items[1..] == Items(re[1..]);
    if PrefixMatches(re, text) {
      var n :| 0 <= n <= |text| && Denotes(items, text[..n]) && (Anchored(re) ==> n == |text|);
      var k :| 0 <= k <= n && OneOf(items[0], text[..n][..k]) && Denotes(items[1..], text[..n][k..]);
      assert k == 1 && text[..n][..k][0] == text[0] && text[..n][k..] == text[1..][..n - 1];
      assert PrefixMatches(re[1..], text[1..]);
    }
    if text != [] && Fits(re[0], text[0]) && PrefixMatches(re[1..], text[1..]) {
      var n :| 0 <= n <= |text[1..]| && Denotes(Items(re[1..]), text[1..][..n])
          && (Anchored(re[1..]) ==> n == |text[1..]|);
      assert text[..1 + n][..1] == [text[0]] && text[..1 + n][1..] == text[1..][..n];
      assert Denotes(items, text[..1 + n]);
    }
  }

  /** match() */
  method Match(re: string, text: string) returns (found: bool)
    ensures found <==> Means(re, text)
  {
    if re != [] && re[0] == '^' {
      found := MatchHere(re[1..], text);
      return;
    }
    var i := 0;
    while true
      invariant 0 <= i <= |text| && forall k :: 0 <= k < i ==> !PrefixMatches(re, text[k..])
      decreases |text| - i
    {
      found := MatchHere(re, text[i..]);
      if found {
        return;
      }
      if i == |text| {
        return false;
      }
      i := i + 1;
    }
  }

  /** matchhere() */
  method MatchHere(re: string, text: string) returns (found: bool)
    ensures found <==> PrefixMatches(re, text)
    decreases |re|, 0
  {
    if re == [] {
      EmptyPattern(text);
      return true;
    }
    if |re| >= 2 && re[1] == '*' {
      StarPattern(re, text);
      found := MatchStar(re[0], re[2..], text);
      return;
    }
    if re == "$" {
      DollarPattern(text);
      return text == [];
    }
    CharPattern(re, text);
    if text != [] && (re[0] == '.' || re[0] == text[0]) {
      found := MatchHere(re[1..], text[1..]);
      return;
    }
    found := false;
  }

  /** matchstar() */
  method MatchStar(c: char, re: string, text: string) returns (found: bool)
    ensures found <==> exists k :: 0 <= k <= |text| && OneOf(Star(c), text[..k]) && PrefixMatches(re, text[k..])
    decreases |re|, 1
  {
    var i := 0;
    while true
      invariant 0 <= i <= |text| && OneOf(Star(c), text[..i])
      invariant forall k :: 0 <= k < i ==> !PrefixMatches(re, text[k..])
      decreases |text| - i
    {
      found := MatchHere(re, text[i..]);
      if found {
        return;
      }
      if !(i < |text| && (text[i] == c || c == '.')) {
        NoFurther(c, text, i);
        return false;
      }
      i := i + 1;
    }
  }

  /** The repetition cannot go past a character that does not fit. */
  lemma NoFurther(c: char, text: string, i: nat)
    requires i <= |text| && (i < |text| ==> !Fits(c, text[i]))
    ensures forall k :: i < k <= |text| ==> !OneOf(Star(c), text[..k])
  {
  }
}
