/** grep's regular expressions: what a pattern means, and the backtracking matcher that decides it. */
module Regex {

  /** One element of a pattern: a character, a starred character, or the end of the text.  The character '.' stands for
      any. */
  datatype Item = One(c: char) | Star(c: char) | End

  /** A pattern taken apart.  A star binds to the character before it, whatever that is; '$' is special only at the very
      end, and '*' and '^' are ordinary where nothing makes them otherwise. */
  function Items(re: string): seq<Item>
  {
    if re == "" then []
    else if |re| > 1 && re[1] == '*' then [Star(re[0])] + Items(re[2..])
    else if re == "$" then [End]
    else [One(re[0])] + Items(re[1..])
  }

  predicate Agrees(c: char, x: char)
  {
    c == '.' || c == x
  }

  /** The texts one item stands for. */
  predicate Covers(item: Item, w: string)
  {
    match item
    case One(c) => |w| == 1 && Agrees(c, w[0])
    case Star(c) => forall i :: 0 <= i < |w| ==> Agrees(c, w[i])
    case End => w == ""
  }

  function Concat(pieces: seq<string>): string
  {
    if pieces == [] then "" else pieces[0] + Concat(pieces[1..])
  }

  /** `text` is the pieces, one for each item, followed by `rest`; after End there is nothing left. */
  ghost predicate Fits(items: seq<Item>, text: string, pieces: seq<string>, rest: string)
  {
    && |pieces| == |items| && text == Concat(pieces) + rest
    && (forall i :: 0 <= i < |items| ==> Covers(items[i], pieces[i]))
    && (End in items ==> rest == "")
  }

  /** The pattern matches at the beginning of `text`. */
  ghost predicate Here(items: seq<Item>, text: string)
  {
    exists pieces, rest :: Fits(items, text, pieces, rest)
  }

  /** The pattern matches `text` somewhere, or at its beginning if it starts with '^'. */
  ghost predicate Matches(re: string, text: string)
  {
    if re != "" && re[0] == '^' then Here(Items(re[1..]), text)
    else exists p :: 0 <= p <= |text| && Here(Items(re), text[p..])
  }

  // ---------------------------------------------------------- item by item

  lemma EmptyHere(text: string)
    ensures Here([], text)
  {
    assert "" + text == text;
    assert Fits([], text, [], text);
  }

  lemma EndHere(text: string)
    ensures Here([End], text) <==> text == ""
  {
    if text == "" {
      assert Concat([""]) == "" + Concat([""][1..]);
      assert Fits([End], text, [""], "");
    }
    if Here([End], text) {
      var pieces, rest :| Fits([End], text, pieces, rest);
      assert Covers([End][0], pieces[0]) && pieces[1..] == [];
      assert End in [End] && Concat(pieces) == "";
    }
  }

  /** End stands only at the end of a pattern. */
  lemma {:induction false} EndIsLast(re: string)
    ensures forall i :: 0 <= i < |Items(re)| - 1 ==> !Items(re)[i].End?
  {
    if re == "" {
    } else if |re| > 1 && re[1] == '*' {
      EndIsLast(re[2..]);
    } else if re != "$" {
      EndIsLast(re[1..]);
    }
  }

  /** The first item takes a piece off the text and the others match what is left. */
  lemma FirstPiece(item: Item, items: seq<Item>, text: string)
    requires !item.End?
    ensures Here([item] + items, text) <==>
            exists k :: 0 <= k <= |text| && Covers(item, text[..k]) && Here(items, text[k..])
  {
    if Here([item] + items, text) {
      var pieces, rest :| Fits([item] + items, text, pieces, rest);
      var k := |pieces[0]|;
      assert text == pieces[0] + (Concat(pieces[1..]) + rest);
      assert text[..k] == pieces[0] && text[k..] == Concat(pieces[1..]) + rest;
      assert Covers(([item] + items)[0], pieces[0]);
      forall i | 0 <= i < |items|
        ensures Covers(items[i], pieces[1..][i])
      {
        assert Covers(([item] + items)[i + 1], pieces[i + 1]);
      }
      assert Fits(items, text[k..], pieces[1..], rest);
    }
    if exists k :: 0 <= k <= |text| && Covers(item, text[..k]) && Here(items, text[k..]) {
      var k :| 0 <= k <= |text| && Covers(item, text[..k]) && Here(items, text[k..]);
      var pieces, rest :| Fits(items, text[k..], pieces, rest);
      PutFirst(item, items, text, k, pieces, rest);
    }
  }

  lemma PutFirst(item: Item, items: seq<Item>, text: string, k: nat, pieces: seq<string>, rest: string)
    requires !item.End? && k <= |text| && Covers(item, text[..k]) && Fits(items, text[k..], pieces, rest)
    ensures Here([item] + items, text)
  {
    var all := [text[..k]] + pieces;
    assert all[1..] == pieces;
    assert text == text[..k] + text[k..];
    assert text == Concat(all) + rest;
    assert Fits([item] + items, text, all, rest);
  }

  lemma OneHere(c: char, items: seq<Item>, text: string)
    ensures Here([One(c)] + items, text) <==> text != "" && Agrees(c, text[0]) && Here(items, text[1..])
  {
    hide Here;
    FirstPiece(One(c), items, text);
    if text != "" && Agrees(c, text[0]) && Here(items, text[1..]) {
      assert Covers(One(c), text[..1]);
    }
  }

  lemma StarHere(c: char, items: seq<Item>, text: string)
    ensures Here([Star(c)] + items, text) <==>
            exists k :: 0 <= k <= |text| && (forall i :: 0 <= i < k ==> Agrees(c, text[i])) && Here(items, text[k..])
  {
    hide Here;
    FirstPiece(Star(c), items, text);
    forall k | 0 <= k <= |text|
      ensures Covers(Star(c), text[..k]) <==> forall i :: 0 <= i < k ==> Agrees(c, text[i])
    {
      assert forall i :: 0 <= i < k ==> text[..k][i] == text[i];
    }
  }

  // --------------------------------------------------------------- the matcher

  function At(s: string, i: nat): char
  {
    if i < |s| then s[i] else '\0'
  }

  /** matchhere. */
  method MatchHere(re: string, text: string) returns (yes: bool)
    requires '\0' !in re && '\0' !in text
    ensures yes <==> Here(Items(re), text)
    decreases |re|, 0
  {
    hide Here;
    if At(re, 0) == '\0' {
      assert re == "" by { NoNul(re); }
      EmptyHere(text);
      return true;
    }
    if At(re, 1) == '*' {
      yes := MatchStar(re[0], re[2..], text);
      return;
    }
    NoNul(re);
    if re[0] == '$' && At(re, 1) == '\0' {
      assert re == "$";
      EndHere(text);
      NoNul(text);
      return At(text, 0) == '\0';
    }
    OneHere(re[0], Items(re[1..]), text);
    NoNul(text);
    if At(text, 0) != '\0' && (re[0] == '.' || re[0] == text[0]) {
      yes := MatchHere(re[1..], text[1..]);
      return;
    }
    return false;
  }

  lemma NoNul(s: string)
    requires '\0' !in s
    ensures forall i: nat :: At(s, i) == '\0' <==> i >= |s|
  {
    assert forall i :: 0 <= i < |s| ==> s[i] in s;
  }

  /** matchstar: the starred character is tried zero times, once, twice, and so on. */
  method MatchStar(c: char, re: string, text: string) returns (yes: bool)
    requires '\0' !in re && '\0' !in text
    ensures yes <==> Here([Star(c)] + Items(re), text)
    decreases |re|, 1
  {
    hide Here;
    StarHere(c, Items(re), text);
    NoNul(text);
    var k := 0;
    while true
      invariant 0 <= k <= |text| && forall i :: 0 <= i < k ==> Agrees(c, text[i])
      invariant forall j :: 0 <= j < k ==> !Here(Items(re), text[j..])
      decreases |text| - k
    {
      var here := MatchHere(re, text[k..]);
      if here { return true; }
      if At(text, k) == '\0' || !(text[k] == c || c == '.') {
        return false;
      }
      k := k + 1;
    }
  }

  /** match: 1 exactly when the pattern matches the text. */
  method Match(re: string, text: string) returns (yes: bool)
    requires '\0' !in re && '\0' !in text
    ensures yes <==> Matches(re, text)
  {
    hide Here;
    NoNul(re);
    NoNul(text);
    if At(re, 0) == '^' {
      yes := MatchHere(re[1..], text);
      return;
    }
    var p := 0;
    while true
      invariant 0 <= p <= |text| && forall q :: 0 <= q < p ==> !Here(Items(re), text[q..])
      decreases |text| - p
    {
      var here := MatchHere(re, text[p..]);
      if here { return true; }
      if At(text, p) == '\0' { return false; }
      p := p + 1;
    }
  }
}
