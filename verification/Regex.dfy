/** The regular expression matcher of grep.c, against a meaning that does not
    mention the search: a pattern is a sequence of items, and a text matches if
    it can be cut into pieces that fit them one by one.  Strings are the
    characters before the terminating null. */
module Regex {

  /** One item of a pattern; the character '.' stands for any. */
  datatype Item = One(c: char) | Star(c: char) | End

  /** How the matcher reads a pattern: a character followed by '*' is a star,
      whatever the character, and '$' means the end only when it is last. */
  function Parse(re: string): seq<Item> {
    if re == [] then []
    else if |re| > 1 && re[1] == '*' then [Star(re[0])] + Parse(re[2..])
    else if re == "$" then [End]
    else [One(re[0])] + Parse(re[1..])
  }

  predicate Fits(c: char, x: char) { c == '.' || c == x }

  predicate PieceFits(item: Item, piece: string) {
    match item
    case One(c) => |piece| == 1 && Fits(c, piece[0])
    case Star(c) => forall k | 0 <= k < |piece| :: Fits(c, piece[k])
    case End => piece == []
  }

  function Flat(pieces: seq<string>): string {
    if pieces == [] then [] else pieces[0] + Flat(pieces[1..])
  }

  /** pieces are a beginning of the text, cut up to fit the items; with End last
      they are all of it. */
  ghost predicate Cut(items: seq<Item>, text: string, pieces: seq<string>) {
    && |pieces| == |items| && (forall k | 0 <= k < |items| :: PieceFits(items[k], pieces[k]))
    && Flat(pieces) <= text && (items != [] && items[|items| - 1] == End ==> Flat(pieces) == text)
  }

  /** The items match at the beginning of the text. */
  ghost predicate Here(items: seq<Item>, text: string) {
    exists pieces :: Cut(items, text, pieces)
  }

  ghost predicate MatchesAt(re: string, text: string, n: nat) {
    n <= |text| && Here(Parse(re), text[n..])
  }

  /** The text matches: from its start after '^', else from anywhere. */
  ghost predicate Matches(re: string, text: string) {
    if re != [] && re[0] == '^' then MatchesAt(re[1..], text, 0) else exists n: nat :: MatchesAt(re, text, n)
  }

  // ---------- The meaning, item by item ----------

  lemma HereNothing(text: string)
    ensures Here([], text)
  {
    assert Cut([], text, []);
  }

  lemma HereEnd(text: string)
    ensures Here([End], text) <==> text == []
  {
    if text == [] {
      assert Flat([[]]) == [] + Flat([[]][1..]) == [];
      assert Cut([End], text, [[]]);
    }
    if Here([End], text) {
      var pieces :| Cut([End], text, pieces);
      var items := [End];
      assert PieceFits(items[0], pieces[0]) && items[|items| - 1] == End;
      assert pieces[1..] == [];
      assert Flat(pieces) == pieces[0] + Flat(pieces[1..]) == [];
    }
  }

  /** A cut with one more piece in front. */
  lemma CutCons(item: Item, rest: seq<Item>, text: string, piece: string, pieces: seq<string>)
    requires item != End && PieceFits(item, piece) && Cut(rest, text, pieces)
    ensures Cut([item] + rest, piece + text, [piece] + pieces)
  {
    assert ([piece] + pieces)[1..] == pieces;
    assert Flat([piece] + pieces) == piece + Flat(pieces);
    assert Flat(pieces) == text[..|Flat(pieces)|];
  }

  lemma CutFirst(item: Item, rest: seq<Item>, text: string, pieces: seq<string>)
    requires item != End && Cut([item] + rest, text, pieces)
    ensures PieceFits(item, pieces[0]) && pieces[0] <= text && Cut(rest, text[|pieces[0]|..], pieces[1..])
  {
    var items := [item] + rest;
    assert items[0] == item && items[1..] == rest;
    assert PieceFits(items[0], pieces[0]);
    forall k | 0 <= k < |rest|
      ensures PieceFits(rest[k], pieces[1..][k])
    {
      assert PieceFits(items[k + 1], pieces[k + 1]);
    }
    var n, m := |pieces[0]|, |Flat(pieces[1..])|;
    assert Flat(pieces) == pieces[0] + Flat(pieces[1..]);
    assert Flat(pieces) == text[..n + m];
    assert pieces[0] == Flat(pieces)[..n] && Flat(pieces[1..]) == Flat(pieces)[n..];
    if rest != [] && rest[|rest| - 1] == End {
      assert items[|items| - 1] == End;
    }
  }

  lemma HereOne(c: char, rest: seq<Item>, text: string)
    ensures Here([One(c)] + rest, text) <==> text != [] && Fits(c, text[0]) && Here(rest, text[1..])
  {
    if text != [] && Fits(c, text[0]) && Here(rest, text[1..]) {
      var pieces :| Cut(rest, text[1..], pieces);
      CutCons(One(c), rest, text[1..], text[..1], pieces);
      assert text[..1] + text[1..] == text;
    }
    if Here([One(c)] + rest, text) {
      var pieces :| Cut([One(c)] + rest, text, pieces);
      CutFirst(One(c), rest, text, pieces);
    }
  }

  predicate AllFit(c: char, s: string) { forall k | 0 <= k < |s| :: Fits(c, s[k]) }

  /** A star takes n characters, and the rest of the items match behind them. */
  ghost predicate StarTakes(c: char, rest: seq<Item>, text: string, n: nat) {
    n <= |text| && AllFit(c, text[..n]) && Here(rest, text[n..])
  }

  lemma HereStar(c: char, rest: seq<Item>, text: string)
    ensures Here([Star(c)] + rest, text) <==> exists n: nat :: StarTakes(c, rest, text, n)
  {
    if n: nat :| StarTakes(c, rest, text, n) {
      var pieces :| Cut(rest, text[n..], pieces);
      CutCons(Star(c), rest, text[n..], text[..n], pieces);
      assert text[..n] + text[n..] == text;
    }
    if Here([Star(c)] + rest, text) {
      var pieces :| Cut([Star(c)] + rest, text, pieces);
      CutFirst(Star(c), rest, text, pieces);
      var n := |pieces[0]|;
      assert text[..n] == pieces[0];
      assert StarTakes(c, rest, text, n);
    }
  }

  // ---------- The matcher ----------

  method MatchHere(re: string, text: string) returns (r: bool)
    ensures r <==> Here(Parse(re), text)
    decreases |re|, 0
  {
    if re == [] {
      HereNothing(text);
      return true;
    }
    if |re| > 1 && re[1] == '*' {
      assert Parse(re) == [Star(re[0])] + Parse(re[2..]);
      HereStar(re[0], Parse(re[2..]), text);
      r := MatchStar(re[0], re[2..], text);
      return;
    }
    if re[0] == '$' && |re| == 1 {
      HereEnd(text);
      return text == [];
    }
    HereOne(re[0], Parse(re[1..]), text);
    if text != [] && (re[0] == '.' || re[0] == text[0]) {
      r := MatchHere(re[1..], text[1..]);
      return;
    }
    return false;
  }

  method MatchStar(c: char, re: string, text: string) returns (r: bool)
    ensures r <==> exists n: nat :: StarTakes(c, Parse(re), text, n)
    decreases |re|, 1
  {
    var i := 0;
    while true
      invariant 0 <= i <= |text| && AllFit(c, text[..i])
      invariant forall n | 0 <= n < i :: !StarTakes(c, Parse(re), text, n)
      decreases |text| - i
    {
      var here := MatchHere(re, text[i..]);
      if here {
        assert StarTakes(c, Parse(re), text, i);
        return true;
      }
      if !(i < |text| && (text[i] == c || c == '.')) { break; }
      i := i + 1;
    }
    forall n: nat
      ensures !StarTakes(c, Parse(re), text, n)
    {
      if n <= |text| && n > i {
        assert text[..n][i] == text[i];
      }
    }
    return false;
  }

  method Match(re: string, text: string) returns (r: bool)
    ensures r <==> Matches(re, text)
  {
    assert text[0..] == text;
    if re != [] && re[0] == '^' {
      r := MatchHere(re[1..], text);
      return;
    }
    var i := 0;
    while true
      invariant 0 <= i <= |text| && forall n | 0 <= n < i :: !MatchesAt(re, text, n)
      decreases |text| - i
    {
      var here := MatchHere(re, text[i..]);
      if here {
        assert MatchesAt(re, text, i);
        return true;
      }
      if i == |text| { break; }
      i := i + 1;
    }
    return false;
  }
}
