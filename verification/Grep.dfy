/** The regular expression matcher of grep.c (Kernighan and Pike, The Practice of
    Programming, chapter 9), against the language its patterns denote.

    A C string is the characters before its terminating NUL, so `re + 1` is
    `re[1..]` and `*text == '\0'` is `text == []`. */
module Grep {

  /** One character, or any number of it; '.' stands for any character. */
  datatype Item = One(c: char) | Star(c: char)

  predicate Fits(c: char, x: char) {
    c == '.' || c == x
  }

  /** A pattern read as items: a following '*' binds first, then a final '$', and
      any other character stands for itself. */
  function Items(re: string): seq<Item> {
    if re == [] then []
    else if |re| >= 2 && re[1] == '*' then [Star(re[0])] + Items(re[2..])
    else if re == "$" then []
    else [One(re[0])] + Items(re[1..])
  }

  /** The pattern ends with a '$' that means the end of the text. */
  predicate AnchoredEnd(re: string) {
    if re == [] then false
    else if |re| >= 2 && re[1] == '*' then AnchoredEnd(re[2..])
    else if re == "$" then true
    else AnchoredEnd(re[1..])
  }

  /** The language of a sequence of items. */
  ghost predicate InLanguage(items: seq<Item>, s: string)
    decreases |items|
  {
    if items == [] then s == []
    else match items[0]
      case One(c) => s != [] && Fits(c, s[0]) && InLanguage(items[1..], s[1..])
      case Star(c) => exists k :: 0 <= k <= |s| && Repeats(c, s[..k]) && InLanguage(items[1..], s[k..])
  }

  ghost predicate Repeats(c: char, s: string) {
    forall i :: 0 <= i < |s| ==> Fits(c, s[i])
  }

  /** Some prefix of the text, all of it if the end is anchored, is in the language. */
  ghost predicate MatchesHere(re: string, text: string) {
    exists n :: 0 <= n <= |text| && InLanguage(Items(re), text[..n]) && (AnchoredEnd(re) ==> n == |text|)
  }

  /** Some substring of the text is in the language of the pattern: at the start for
      a pattern with a leading '^', up to the end for one with a final '$'. */
  ghost predicate Matches(re: string, text: string) {
    if re != [] && re[0] == '^' then exists j :: MatchAt(re[1..], text, 0, j)
    else exists i, j :: MatchAt(re, text, i, j)
  }

  /** matchhere (grep.c:85-96). */
  method MatchHere(re: string, text: string) returns (r: bool)
    ensures r <==> MatchesHere(re, text)
    decreases |re|, 0
  {
    if re == [] {
      assert text[..0] == [];
      return true;
    }
    if |re| >= 2 && re[1] == '*' {
      r := MatchStar(re[0], re[2..], text);
      StarPrefix(re, text);
      return;
    }
    if re[0] == '$' && |re| == 1 {
      assert text[..|text|] == text;
      return text == [];
    }
    OnePrefix(re, text);
    if text != [] && (re[0] == '.' || re[0] == text[0]) {
      r := MatchHere(re[1..], text[1..]);
      return;
    }
    return false;
  }

  /** Text that starts with `c` repeated and goes on with a match. */
  ghost predicate MatchesStar(c: char, re: string, text: string) {
    exists k :: 0 <= k <= |text| && Repeats(c, text[..k]) && MatchesHere(re, text[k..])
  }

  /** matchstar (grep.c:99-106). */
  method MatchStar(c: char, re: string, text: string) returns (r: bool)
    ensures r <==> MatchesStar(c, re, text)
    decreases |re|, 1
  {
    var k := 0;
    while true
      invariant 0 <= k <= |text| && Repeats(c, text[..k])
      invariant forall m :: 0 <= m < k ==> !MatchesHere(re, text[m..])
      decreases |text| - k
    {
      r := MatchHere(re, text[k..]);
      if r {
        return;
      }
      if !(k < |text| && (text[k] == c || c == '.')) {
        return false;
      }
      k := k + 1;
    }
  }

  /** match (grep.c:73-82). */
  method Match(re: string, text: string) returns (r: bool)
    ensures r <==> Matches(re, text)
  {
    if re != [] && re[0] == '^' {
      r := MatchHere(re[1..], text);
      assert text[0..] == text;
      AtStart(re[1..], text, 0);
      return;
    }
    var i := 0;
    while true
      invariant 0 <= i <= |text| && forall m :: 0 <= m < i ==> !MatchesHere(re, text[m..])
      decreases |text| - i
    {
      r := MatchHere(re, text[i..]);
      if r || i == |text| {
        break;
      }
      i := i + 1;
    }
    if r {
      AtStart(re, text, i);
    } else {
      forall m, j | 0 <= m <= |text|
        ensures !MatchAt(re, text, m, j)
      {
        AtStart(re, text, m);
        assert !MatchesHere(re, text[m..]);
      }
    }
  }

  /** The substring text[i..j] is a match of a pattern without its '^'. */
  ghost predicate MatchAt(body: string, text: string, i: int, j: int) {
    0 <= i <= j <= |text| && InLanguage(Items(body), text[i..j]) && (AnchoredEnd(body) ==> j == |text|)
  }

  lemma AtStart(re: string, text: string, m: nat)
    requires m <= |text|
    ensures MatchesHere(re, text[m..]) <==> exists j :: MatchAt(re, text, m, j)
  {
    if MatchesHere(re, text[m..]) {
      var n :| 0 <= n <= |text[m..]| && InLanguage(Items(re), text[m..][..n]) && (AnchoredEnd(re) ==> n == |text[m..]|);
      assert text[m..][..n] == text[m..m + n];
      assert MatchAt(re, text, m, m + n);
    }
    if j :| MatchAt(re, text, m, j) {
      assert text[m..][..j - m] == text[m..j];
    }
  }

  /** A pattern that starts with a plain character. */
  lemma OnePrefix(re: string, text: string)
    requires re != [] && re != "$" && !(|re| >= 2 && re[1] == '*')
    ensures MatchesHere(re, text) <==> text != [] && Fits(re[0], text[0]) && MatchesHere(re[1..], text[1..])
  {
    assert Items(re) == [One(re[0])] + Items(re[1..]) && Items(re)[1..] == Items(re[1..]);
    assert forall n :: 0 < n <= |text| ==> text[..n][0] == text[0] && text[..n][1..] == text[1..][..n - 1];
    if text != [] && Fits(re[0], text[0]) && MatchesHere(re[1..], text[1..]) {
      var n :| 0 <= n <= |text[1..]| && InLanguage(Items(re[1..]), text[1..][..n]) && (AnchoredEnd(re[1..]) ==> n == |text[1..]|);
      assert InLanguage(Items(re), text[..n + 1]);
    }
  }

  /** A pattern that starts with a starred character. */
  lemma StarPrefix(re: string, text: string)
    requires |re| >= 2 && re[1] == '*'
    ensures MatchesHere(re, text) <==> MatchesStar(re[0], re[2..], text)
  {
    var c, rest := re[0], re[2..];
    assert Items(re) == [Star(c)] + Items(rest) && Items(re)[1..] == Items(rest);
    if MatchesHere(re, text) {
      var n :| 0 <= n <= |text| && InLanguage(Items(re), text[..n]) && (AnchoredEnd(re) ==> n == |text|);
      var k :| 0 <= k <= n && Repeats(c, text[..n][..k]) && InLanguage(Items(rest), text[..n][k..]);
      assert text[..n][..k] == text[..k] && text[..n][k..] == text[k..][..n - k];
    }
    if MatchesStar(c, rest, text) {
      var k :| 0 <= k <= |text| && Repeats(c, text[..k]) && MatchesHere(rest, text[k..]);
      var n :| 0 <= n <= |text[k..]| && InLanguage(Items(rest), text[k..][..n]) && (AnchoredEnd(rest) ==> n == |text[k..]|);
      var s := text[..k + n];
      assert s[..k] == text[..k] && s[k..] == text[k..][..n];
      assert InLanguage(Items(re), s);
    }
  }
}
