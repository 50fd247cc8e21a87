/** The regular expression matcher of user/grep.c against the language of a pattern.

  A pattern is a list of items; its language is the set of strings that split into
  one piece for each item. C strings are sequences without NUL.
 */
module Regex {

  const NUL := '\0'

  /** s[i], where a C string ends with NUL. */
  function At(s: string, i: nat): char { if i < |s| then s[i] else NUL }

  predicate CString(s: string) { NUL !in s }

  // ---------------------------------------------------------------- the language

  /** c or any character, c* or any characters, the end of the text. */
  datatype Item = One(c: char) | Many(c: char) | End

  predicate Fits(c: char, x: char) { c == '.' || x == c }

  predicate InItem(it: Item, w: string) {
    match it
    case One(c) => |w| == 1 && Fits(c, w[0])
    case Many(c) => forall k :: 0 <= k < |w| ==> Fits(c, w[k])
    case End => w == ""
  }

  /** The items of a pattern: a star binds the character before it, whatever that is; a
      dollar is the end only as the whole rest of the pattern. */
  function Items(re: string): seq<Item> {
    if re == "" then []
    else if At(re, 1) == '*' then [Many(re[0])] + Items(re[2..])
    else if re == "$" then [End]
    else [One(re[0])] + Items(re[1..])
  }

  function Show(items: seq<Item>): string {
    if items == [] then ""
    else (match items[0]
          case One(c) => [c]
          case Many(c) => [c, '*']
          case End => "$") + Show(items[1..])
  }

  function Concat(parts: seq<string>): string {
    if parts == [] then "" else parts[0] + Concat(parts[1..])
  }

  ghost predicate Splits(items: seq<Item>, parts: seq<string>, w: string) {
    |parts| == |items| && Concat(parts) == w && forall k :: 0 <= k < |items| ==> InItem(items[k], parts[k])
  }

  ghost predicate InLanguage(items: seq<Item>, w: string) {
    exists parts :: Splits(items, parts, w)
  }

  predicate AtEnd(items: seq<Item>) {
    items != [] && items[|items| - 1] == End
  }

  /** Some prefix of text is in the language, all of text if the pattern says so. */
  ghost predicate Here(items: seq<Item>, text: string) {
    exists j :: 0 <= j <= |text| && HereUpTo(items, text, j)
  }

  ghost predicate HereUpTo(items: seq<Item>, text: string, j: nat)
    requires j <= |text|
  {
    InLanguage(items, text[..j]) && (AtEnd(items) ==> j == |text|)
  }

  // ---------------------------------------------------------------- the items describe the pattern

  /** Nothing of the pattern is lost in its items. */
  lemma {:induction false} ShowItems(re: string)
    ensures Show(Items(re)) == re
    decreases |re|
  {
    if re == "" {
    } else if At(re, 1) == '*' {
      ShowItems(re[2..]);
      assert re == [re[0], '*'] + re[2..];
      assert ([Many(re[0])] + Items(re[2..]))[1..] == Items(re[2..]);
    } else if re == "$" {
      assert [End][1..] == [];
    } else {
      ShowItems(re[1..]);
      assert re == [re[0]] + re[1..];
      assert ([One(re[0])] + Items(re[1..]))[1..] == Items(re[1..]);
    }
  }

  /** Only the last item can be the end. */
  lemma {:induction false} EndIsLast(re: string, k: nat)
    requires k + 1 < |Items(re)|
    ensures Items(re)[k] != End
    decreases |re|
  {
    if At(re, 1) == '*' {
      if k > 0 {
        EndIsLast(re[2..], k - 1);
      }
    } else if re != "$" {
      if k > 0 {
        EndIsLast(re[1..], k - 1);
      }
    }
  }

  // ---------------------------------------------------------------- unfolding the language

  lemma Nothing(text: string)
    ensures Here([], text)
  {
    assert Splits([], [], text[..0]);
    assert HereUpTo([], text, 0);
  }

  lemma OnlyEnd(text: string)
    ensures Here([End], text) <==> text == ""
  {
    if Here([End], text) {
      var j :| 0 <= j <= |text| && HereUpTo([End], text, j);
      var parts :| Splits([End], parts, text[..j]);
      assert InItem([End][0], parts[0]);
      assert parts == [""];
      assert Concat(parts) == "" + Concat(parts[1..]);
    }
    if text == "" {
      assert Concat([""]) == "" + Concat([""][1..]);
      assert Splits([End], [""], text[..0]);
      assert HereUpTo([End], text, 0);
    }
  }

  /** Splitting off the piece of the first item. */
  lemma SplitFirst(it: Item, rest: seq<Item>, w: string)
    ensures InLanguage([it] + rest, w) <==> exists n :: 0 <= n <= |w| && FirstPiece(it, rest, w, n)
  {
    var items := [it] + rest;
    if InLanguage(items, w) {
      var parts :| Splits(items, parts, w);
      var n := |parts[0]|;
      assert w[..n] == parts[0] && w[n..] == Concat(parts[1..]);
      assert InItem(items[0], parts[0]);
      forall k | 0 <= k < |rest|
        ensures InItem(rest[k], parts[1..][k])
      {
        assert InItem(items[k + 1], parts[k + 1]);
      }
      assert Splits(rest, parts[1..], w[n..]);
      assert FirstPiece(it, rest, w, n);
    }
    if n :| 0 <= n <= |w| && FirstPiece(it, rest, w, n) {
      var ps :| Splits(rest, ps, w[n..]);
      var parts := [w[..n]] + ps;
      assert parts[1..] == ps && w == w[..n] + w[n..];
      assert Splits(items, parts, w);
    }
  }

  ghost predicate FirstPiece(it: Item, rest: seq<Item>, w: string, n: nat)
    requires n <= |w|
  {
    InItem(it, w[..n]) && InLanguage(rest, w[n..])
  }

  /** A match of it + rest is a piece for `it` and then a match of the rest. */
  lemma HereFirst(it: Item, rest: seq<Item>, text: string)
    requires it != End
    ensures Here([it] + rest, text) <==> SomeThen(it, rest, text)
  {
    hide HereUpTo, ThenHere;
    if Here([it] + rest, text) {
      var j :| 0 <= j <= |text| && HereUpTo([it] + rest, text, j);
      var n := HereApart(it, rest, text, j);
    }
    if n :| 0 <= n <= |text| && ThenHere(it, rest, text, n) {
      var j := HereTogether(it, rest, text, n);
    }
  }

  lemma HereApart(it: Item, rest: seq<Item>, text: string, j: nat) returns (n: nat)
    requires it != End && j <= |text| && HereUpTo([it] + rest, text, j)
    ensures n <= |text| && ThenHere(it, rest, text, n)
  {
    assert AtEnd([it] + rest) <==> AtEnd(rest);
    SplitFirst(it, rest, text[..j]);
    n :| 0 <= n <= j && FirstPiece(it, rest, text[..j], n);
    assert text[..j][..n] == text[..n] && text[..j][n..] == text[n..][..j - n];
    assert HereUpTo(rest, text[n..], j - n);
  }

  lemma HereTogether(it: Item, rest: seq<Item>, text: string, n: nat) returns (j: nat)
    requires it != End && n <= |text| && ThenHere(it, rest, text, n)
    ensures j <= |text| && HereUpTo([it] + rest, text, j)
  {
    assert AtEnd([it] + rest) <==> AtEnd(rest);
    var m :| 0 <= m <= |text[n..]| && HereUpTo(rest, text[n..], m);
    j := n + m;
    assert text[..j][..n] == text[..n] && text[..j][n..] == text[n..][..m];
    assert FirstPiece(it, rest, text[..j], n);
    SplitFirst(it, rest, text[..j]);
  }

  ghost predicate ThenHere(it: Item, rest: seq<Item>, text: string, n: nat)
    requires n <= |text|
  {
    InItem(it, text[..n]) && Here(rest, text[n..])
  }

  ghost predicate SomeThen(it: Item, rest: seq<Item>, text: string) {
    exists n :: 0 <= n <= |text| && ThenHere(it, rest, text, n)
  }

  // ---------------------------------------------------------------- the program

  /** matchhere: does re match at the beginning of text? */
  method MatchHere(re: string, text: string) returns (b: bool)
    requires CString(re) && CString(text)
    ensures b <==> Here(Items(re), text)
    decreases |re|, 0
  {
    hide Here, SomeThen;
    if At(re, 0) == NUL {
      Nothing(text);
      return true;
    }
    if At(re, 1) == '*' {
      HereFirst(Many(re[0]), Items(re[2..]), text);
      assert Items(re) == [Many(re[0])] + Items(re[2..]);
      b := MatchStar(re[0], re[2..], text);
      return;
    }
    if At(re, 0) == '$' && At(re, 1) == NUL {
      assert re == "$";
      OnlyEnd(text);
      return At(text, 0) == NUL;
    }
    HereFirst(One(re[0]), Items(re[1..]), text);
    OneStep(re[0], Items(re[1..]), text);
    if At(text, 0) != NUL && (re[0] == '.' || re[0] == text[0]) {
      b := MatchHere(re[1..], text[1..]);
      return;
    }
    b := false;
  }

  lemma OneStep(c: char, rest: seq<Item>, text: string)
    ensures SomeThen(One(c), rest, text) <==>
            text != "" && Fits(c, text[0]) && Here(rest, text[1..])
  {
    hide Here;
    if n :| 0 <= n <= |text| && ThenHere(One(c), rest, text, n) {
      assert n == 1;
    }
    if text != "" && Fits(c, text[0]) && Here(rest, text[1..]) {
      assert ThenHere(One(c), rest, text, 1);
    }
  }

  /** matchstar: does c*re match at the beginning of text? The loop tries every number of c's. */
  method MatchStar(c: char, re: string, text: string) returns (b: bool)
    requires CString(re) && CString(text)
    ensures b <==> SomeThen(Many(c), Items(re), text)
    decreases |re|, 1
  {
    hide Here;
    var n := 0;
    while true
      invariant 0 <= n <= |text| && InItem(Many(c), text[..n])
      invariant forall k :: 0 <= k < n ==> !ThenHere(Many(c), Items(re), text, k)
      decreases |text| - n
    {
      b := MatchHere(re, text[n..]);
      if b {
        assert ThenHere(Many(c), Items(re), text, n);
        return true;
      }
      if !(At(text, n) != NUL && (text[n] == c || c == '.')) {
        break;
      }
      n := n + 1;
    }
    forall k | n < k <= |text|
      ensures !ThenHere(Many(c), Items(re), text, k)
    {
      assert text[..k][n] == text[n];
    }
    b := false;
  }

  /** The body of a pattern, without a leading caret. */
  function Body(re: string): string { if At(re, 0) == '^' then re[1..] else re }

  /** text[i..j] is a match: in the language, and at the ends of text the pattern asks for. */
  ghost predicate Selects(re: string, text: string, i: int, j: int) {
    && 0 <= i <= j <= |text| && InLanguage(Items(Body(re)), text[i..j])
    && (At(re, 0) == '^' ==> i == 0) && (AtEnd(Items(Body(re))) ==> j == |text|)
  }

  lemma SelectsHere(re: string, text: string, i: int)
    requires 0 <= i <= |text| && (At(re, 0) == '^' ==> i == 0)
    ensures Here(Items(Body(re)), text[i..]) <==> exists j :: Selects(re, text, i, j)
  {
    var items := Items(Body(re));
    if Here(items, text[i..]) {
      var m :| 0 <= m <= |text[i..]| && HereUpTo(items, text[i..], m);
      assert text[i..][..m] == text[i..i + m];
      assert Selects(re, text, i, i + m);
    }
    if j :| Selects(re, text, i, j) {
      assert text[i..][..j - i] == text[i..j];
      assert HereUpTo(items, text[i..], j - i);
    }
  }

  /** match: is there a substring of text that the pattern selects? */
  method Match(re: string, text: string) returns (b: bool)
    requires CString(re) && CString(text)
    ensures b <==> exists i, j :: Selects(re, text, i, j)
  {
    hide Here, Selects, Items;
    if At(re, 0) == '^' {
      b := MatchHere(re[1..], text);
      SelectsHere(re, text, 0);
      assert text[0..] == text;
      CaretOnly(re, text);
      return;
    }
    var i := 0;
    while true
      invariant 0 <= i <= |text|
      invariant forall k, j :: 0 <= k < i ==> !Selects(re, text, k, j)
      decreases |text| - i
    {
      b := MatchHere(re, text[i..]);
      SelectsHere(re, text, i);
      if b {
        return;
      }
      if At(text, i) == NUL {
        break;
      }
      i := i + 1;
    }
    InText(re, text);
    b := false;
  }

  lemma CaretOnly(re: string, text: string)
    requires At(re, 0) == '^'
    ensures forall i, j :: Selects(re, text, i, j) ==> i == 0
  {
  }

  lemma InText(re: string, text: string)
    ensures forall i, j :: Selects(re, text, i, j) ==> 0 <= i <= |text|
  {
  }
}
