/**
 The regular-expression matcher of grep.c.

 A pattern is read as a list of items, and a match is a way to cut the text into consecutive
 pieces, one per item.  The backtracking matcher is proved to find a match exactly when such a
 cutting exists.  C strings are sequences here; reading the terminating NUL is reaching the end.
 */
module Grep {

  datatype Item =
    | One(c: char)   // a literal, or '.' for any character
    | Star(c: char)  // zero or more of the same
    | End            // '$' as the very last character

  // A star binds to the character before it, whatever that is, and takes precedence over '$'.
  // A star with nothing before it, and a '$' that is not last, are literals.
  function Items(re: string): seq<Item>
  {
    if re == "" then []
    else if |re| > 1 && re[1] == '*' then [Star(re[0])] + Items(re[2..])
    else if re == "$" then [End]
    else [One(re[0])] + Items(re[1..])
  }

  // ---- What the items of a pattern are, from its text ----

  function ItemText(item: Item): (r: string)
    ensures r != ""
  {
    match item
    case One(c) => [c]
    case Star(c) => [c, '*']
    case End => "$"
  }

  function TextOf(items: seq<Item>): string
  {
    if items == [] then "" else ItemText(items[0]) + TextOf(items[1..])
  }

  // '$' stands for the end exactly where it is last, and a character before a star is never by itself.
  predicate WellRead(items: seq<Item>)
  {
    && (forall k | 0 <= k < |items| :: items[k] == End ==> k == |items| - 1)
    && (forall k | 0 <= k < |items| :: items[k] == One('$') ==> k < |items| - 1)
    && (forall k | 0 <= k < |items| - 1 :: items[k].One? ==> ItemText(items[k + 1])[0] != '*')
  }

  // The items of a pattern are the one list that reads so and has its text.
  lemma {:induction false} ItemsIff(re: string, items: seq<Item>)
    ensures items == Items(re) <==> TextOf(items) == re && WellRead(items)
  {
    ItemsRead(re);
    if TextOf(items) == re && WellRead(items) { ItemsUnique(re, items); }
  }

  lemma {:induction false} ItemsRead(re: string)
    ensures TextOf(Items(re)) == re && WellRead(Items(re))
    decreases |re|
  {
    var items := Items(re);
    if re == "" {
    } else if |re| > 1 && re[1] == '*' {
      ItemsRead(re[2..]);
      assert items[1..] == Items(re[2..]) && re == [re[0], '*'] + re[2..];
      WellReadMore(Star(re[0]), Items(re[2..]));
    } else if re == "$" {
      assert items == [End] && items[1..] == [];
    } else {
      ItemsRead(re[1..]);
      assert items[1..] == Items(re[1..]) && re == [re[0]] + re[1..];
      assert Items(re[1..]) != [] ==> ItemText(Items(re[1..])[0])[0] == re[1];
      WellReadMore(One(re[0]), Items(re[1..]));
    }
  }

  lemma WellReadMore(item: Item, rest: seq<Item>)
    requires WellRead(rest) && item != End && (item == One('$') ==> rest != [])
    requires item.One? && rest != [] ==> ItemText(rest[0])[0] != '*'
    ensures WellRead([item] + rest)
  {
    var items := [item] + rest;
    forall k | 0 < k < |items| ensures items[k] == rest[k - 1] {
    }
  }

  lemma {:induction false} ItemsUnique(re: string, items: seq<Item>)
    requires TextOf(items) == re && WellRead(items)
    ensures items == Items(re)
    decreases |items|
  {
    if items != [] {
      var rest := items[1..];
      forall k | 0 <= k < |rest| ensures rest[k] == items[k + 1] {
      }
      assert items == [items[0]] + rest;
      ItemsUnique(TextOf(rest), rest);
      assert rest != [] ==> TextOf(rest) != "" && TextOf(rest)[0] == ItemText(rest[0])[0];
      match items[0]
      case One(c) => assert re[0] == c && re[1..] == TextOf(rest);
      case Star(c) => assert re[0] == c && re[1] == '*' && re[2..] == TextOf(rest);
      case End => assert rest == [] && re == "$";
    }
  }

  // ---- What a match is ----

  predicate Accepts(p: char, c: char) { p == '.' || p == c }

  ghost predicate Piece(item: Item, text: string, i: nat, j: nat)
    requires i <= j <= |text|
  {
    match item
    case One(c) => j == i + 1 && Accepts(c, text[i])
    case Star(c) => forall k | i <= k < j :: Accepts(c, text[k])
    case End => i == j == |text|
  }

  // cuts[k] .. cuts[k+1] is the piece of text that item k consumes.
  ghost predicate Cutting(items: seq<Item>, text: string, cuts: seq<nat>)
  {
    && |cuts| == |items| + 1
    && (forall k | 0 <= k < |cuts| :: cuts[k] <= |text|)
    && (forall k | 0 <= k < |items| :: cuts[k] <= cuts[k + 1])
    && (forall k | 0 <= k < |items| :: Piece(items[k], text, cuts[k], cuts[k + 1]))
  }

  ghost predicate MatchesAt(items: seq<Item>, text: string, i: nat)
  {
    exists cuts :: Cutting(items, text, cuts) && cuts[0] == i
  }

  ghost predicate Matches(re: string, text: string)
  {
    if re != "" && re[0] == '^' then MatchesAt(Items(re[1..]), text, 0)
    else exists i: nat :: i <= |text| && MatchesAt(Items(re), text, i)
  }

  lemma EmptyMatches(text: string, i: nat)
    requires i <= |text|
    ensures MatchesAt([], text, i)
  {
    assert Cutting([], text, [i]);
  }

  // A match of a non-empty list is a first piece followed by a match of the rest.
  lemma SplitFirst(item: Item, rest: seq<Item>, text: string, i: nat)
    ensures MatchesAt([item] + rest, text, i) <==>
            exists j: nat :: i <= j <= |text| && Piece(item, text, i, j) && MatchesAt(rest, text, j)
  {
    var items := [item] + rest;
    if MatchesAt(items, text, i) {
      var cuts :| Cutting(items, text, cuts) && cuts[0] == i;
      forall k | 0 <= k < |rest| ensures Piece(rest[k], text, cuts[1..][k], cuts[1..][k + 1]) {
        assert items[k + 1] == rest[k];
      }
      assert Cutting(rest, text, cuts[1..]) && cuts[1..][0] == cuts[1];
      assert items[0] == item && Piece(items[0], text, cuts[0], cuts[1]);
      assert MatchesAt(rest, text, cuts[1]);
    }
    if j: nat :| i <= j <= |text| && Piece(item, text, i, j) && MatchesAt(rest, text, j) {
      var cuts :| Cutting(rest, text, cuts) && cuts[0] == j;
      var all := [i] + cuts;
      forall k | 0 <= k < |items| ensures all[k] <= all[k + 1] && Piece(items[k], text, all[k], all[k + 1]) {
        assert k > 0 ==> items[k] == rest[k - 1] && all[k] == cuts[k - 1] && all[k + 1] == cuts[k];
      }
      assert Cutting(items, text, all);
    }
  }

  // What an item matches, one by one: a character itself, '.' any character, a star none or one and again,
  // and '$' the end.
  lemma OneMatches(c: char, rest: seq<Item>, text: string, i: nat)
    ensures MatchesAt([One(c)] + rest, text, i) <==>
            i < |text| && (c == '.' || c == text[i]) && MatchesAt(rest, text, i + 1)
  {
    SplitFirst(One(c), rest, text, i);
    if i < |text| && (c == '.' || c == text[i]) && MatchesAt(rest, text, i + 1) {
      assert Piece(One(c), text, i, i + 1);
    }
  }

  lemma StarMatches(c: char, rest: seq<Item>, text: string, i: nat)
    ensures MatchesAt([Star(c)] + rest, text, i) <==>
            || (i <= |text| && MatchesAt(rest, text, i))
            || (i < |text| && (c == '.' || c == text[i]) && MatchesAt([Star(c)] + rest, text, i + 1))
  {
    SplitFirst(Star(c), rest, text, i);
    SplitFirst(Star(c), rest, text, i + 1);
    if j: nat :| i <= j <= |text| && Piece(Star(c), text, i, j) && MatchesAt(rest, text, j) {
      if i < j {
        assert Piece(Star(c), text, i + 1, j) && Accepts(c, text[i]);
      }
    }
    if i <= |text| && MatchesAt(rest, text, i) {
      assert Piece(Star(c), text, i, i);
    }
    if i < |text| && (c == '.' || c == text[i]) && MatchesAt([Star(c)] + rest, text, i + 1) {
      var j: nat :| i + 1 <= j <= |text| && Piece(Star(c), text, i + 1, j) && MatchesAt(rest, text, j);
      assert Piece(Star(c), text, i, j);
    }
  }

  lemma EndMatches(text: string, i: nat)
    ensures MatchesAt([End], text, i) <==> i == |text|
  {
    SplitFirst(End, [], text, i);
    assert [End] + [] == [End];
    if i == |text| {
      EmptyMatches(text, i);
      assert Piece(End, text, i, i);
    }
  }

  // match: search for re anywhere in text, or at its start for a leading ^.
  method Match(re: string, text: string) returns (r: bool)
    ensures r <==> Matches(re, text)
    ensures |re| > 0 && re[0] == '^' ==> (r <==> MatchesAt(Items(re[1..]), text, 0))
    ensures !(|re| > 0 && re[0] == '^') ==> (r <==> exists i: nat :: i <= |text| && MatchesAt(Items(re), text, i))
  {
    if re != "" && re[0] == '^' {
      r := MatchHere(re[1..], text, 0);
      return;
    }
    var i := 0;
    while true
      invariant i <= |text|
      invariant forall k: nat | k < i :: !MatchesAt(Items(re), text, k)
      decreases |text| - i
    {
      var here := MatchHere(re, text, i);
      if here { return true; }
      if i == |text| { return false; }
      i := i + 1;
    }
  }

  // matchhere: search for re at position i of text.
  method MatchHere(re: string, text: string, i: nat) returns (r: bool)
    requires i <= |text|
    ensures r <==> MatchesAt(Items(re), text, i)
    decreases |re|, 0
  {
    if re == "" {
      EmptyMatches(text, i);
      return true;
    }
    if |re| > 1 && re[1] == '*' {
      r := MatchStar(re[0], re[2..], text, i);
      SplitFirst(Star(re[0]), Items(re[2..]), text, i);
      return;
    }
    if re == "$" {
      SplitFirst(End, [], text, i);
      EmptyMatches(text, i);
      assert [End] + [] == [End];
      return i == |text|;
    }
    SplitFirst(One(re[0]), Items(re[1..]), text, i);
    if i < |text| && (re[0] == '.' || re[0] == text[i]) {
      r := MatchHere(re[1..], text, i + 1);
      return;
    }
    return false;
  }

  // matchstar: search for c*re at position i of text, shortest repetition first.
  method MatchStar(c: char, re: string, text: string, i: nat) returns (r: bool)
    requires i <= |text|
    ensures r <==> exists j: nat :: i <= j <= |text| && Piece(Star(c), text, i, j) && MatchesAt(Items(re), text, j)
    decreases |re|, 1
  {
    var j := i;
    while true
      invariant i <= j <= |text|
      invariant Piece(Star(c), text, i, j)
      invariant forall k: nat | i <= k < j :: !MatchesAt(Items(re), text, k)
      decreases |text| - j
    {
      var here := MatchHere(re, text, j);
      if here { return true; }
      if j == |text| || !(text[j] == c || c == '.') { return false; }
      j := j + 1;
    }
  }
}
