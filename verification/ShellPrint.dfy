/** Printing a command with every part in parentheses, and parsing it back (user/sh.c).

  `Tree` is a command with its words as strings. `Print` writes it so that the grammar can
  read it in one way only; `Lay` is the token sequence of that text when it starts at a
  given position, and `Place` the command whose words point there.
 */
module ShellPrint {
  import opened Common
  import opened ShellLex
  import opened ShellParse

  datatype Tree =
    | TExec(words: seq<string>)
    | TRedir(cmd: Tree, file: string, out: bool)
    | TPipe(left: Tree, right: Tree)
    | TList(left: Tree, right: Tree)
    | TBack(cmd: Tree)

  predicate WordOk(w: string) { w != "" && forall k :: 0 <= k < |w| ==> WordChar(w[k]) && w[k] != NUL }

  /** Proper words, at most nine to a command. */
  predicate TreeOk(t: Tree) {
    match t
    case TExec(ws) => |ws| < MAXARGS && forall k :: 0 <= k < |ws| ==> WordOk(ws[k])
    case TRedir(c, f, _) => TreeOk(c) && WordOk(f)
    case TPipe(l, r) => TreeOk(l) && TreeOk(r)
    case TList(l, r) => TreeOk(l) && TreeOk(r)
    case TBack(c) => TreeOk(c)
  }

  function PrintWords(ws: seq<string>): string {
    if ws == [] then "" else ws[0] + " " + PrintWords(ws[1..])
  }

  function Print(t: Tree): string {
    match t
    case TExec(ws) => PrintWords(ws)
    case TRedir(c, f, out) => "(" + Print(c) + ")" + (if out then ">" else "<") + f
    case TPipe(l, r) => "(" + Print(l) + ")" + "|" + "(" + Print(r) + ")"
    case TList(l, r) => "(" + Print(l) + ")" + ";" + "(" + Print(r) + ")"
    case TBack(c) => "(" + Print(c) + ")" + "&"
  }

  // ---------------------------------------------------------------- the same as tokens and as a command

  function One(c: char, at: nat): seq<Token> { [Token(c, at, at + 1)] }

  function LayWords(ws: seq<string>, at: nat): seq<Token> {
    if ws == [] then [] else [Token('a', at, at + |ws[0]|)] + LayWords(ws[1..], at + |ws[0]| + 1)
  }

  /** ( t ) */
  function LayIn(t: Tree, at: nat): seq<Token>
    decreases t, 1
  {
    One('(', at) + Lay(t, at + 1) + One(')', at + 1 + |Print(t)|)
  }

  function Lay(t: Tree, at: nat): seq<Token>
    decreases t, 0
  {
    match t
    case TExec(ws) => LayWords(ws, at)
    case TRedir(c, f, out) =>
      var e := at + |Print(c)| + 2;
      LayIn(c, at) + One(if out then '>' else '<', e) + [Token('a', e + 1, e + 1 + |f|)]
    case TPipe(l, r) =>
      var e := at + |Print(l)| + 2;
      LayIn(l, at) + One('|', e) + LayIn(r, e + 1)
    case TList(l, r) =>
      var e := at + |Print(l)| + 2;
      LayIn(l, at) + One(';', e) + LayIn(r, e + 1)
    case TBack(c) => LayIn(c, at) + One('&', at + |Print(c)| + 2)
  }

  function PlaceWords(ws: seq<string>, at: nat): seq<Word> {
    if ws == [] then [] else [Word(at, at + |ws[0]|)] + PlaceWords(ws[1..], at + |ws[0]| + 1)
  }

  function Place(t: Tree, at: nat): Cmd {
    match t
    case TExec(ws) => Exec(PlaceWords(ws, at))
    case TRedir(c, f, out) =>
      var e := at + |Print(c)| + 2;
      Redir(Place(c, at + 1), Word(e + 1, e + 1 + |f|), if out then O_WRONLY_CREATE else O_RDONLY, if out then 1 else 0)
    case TPipe(l, r) => Piped(Place(l, at + 1), Place(r, at + |Print(l)| + 4))
    case TList(l, r) => Listed(Place(l, at + 1), Place(r, at + |Print(l)| + 4))
    case TBack(c) => Back(Place(c, at + 1))
  }

  // ---------------------------------------------------------------- parsing the tokens back

  /** What may follow a command inside parentheses or at the end of the line. */
  predicate Closed(rest: seq<Token>) {
    rest == [] || rest[0].kind == ')'
  }

  lemma ItemStep(done: seq<Word>, ts: seq<Token>)
    requires ts != [] && ts[0].kind == 'a' && |done| + 1 < MAXARGS
    ensures PItems(done, [], ts) == PItems(done + [WordOf(ts[0])], [], ts[1..])
  {
    var none: seq<Redirection> := [];
    assert none + none == none;
    assert PRedirs(ts) == Redirs([], ts);
  }

  lemma ItemsEnd(done: seq<Word>, rest: seq<Token>)
    requires Closed(rest)
    ensures PItems(done, [], rest) == Ok(Exec(done), rest)
  {
  }

  lemma {:induction false} WordsParse(done: seq<Word>, ws: seq<string>, at: nat, rest: seq<Token>)
    requires |done| + |ws| < MAXARGS && Closed(rest)
    ensures PItems(done, [], LayWords(ws, at) + rest) == Ok(Exec(done + PlaceWords(ws, at)), rest)
    decreases |ws|
  {
    hide PItems;
    var ts := LayWords(ws, at) + rest;
    if ws == [] {
      assert ts == rest;
      assert done + [] == done;
      ItemsEnd(done, rest);
    } else {
      var w, next := Word(at, at + |ws[0]|), at + |ws[0]| + 1;
      assert ts[0] == Token('a', at, at + |ws[0]|);
      assert ts[1..] == LayWords(ws[1..], next) + rest;
      ItemStep(done, ts);
      WordsParse(done + [w], ws[1..], next, rest);
      assert done + ([w] + PlaceWords(ws[1..], next)) == (done + [w]) + PlaceWords(ws[1..], next);
    }
  }

  /** A command in parentheses, followed by what is not a redirection. */
  lemma {:induction false} BlockParse(t: Tree, at: nat, rest: seq<Token>)
    requires TreeOk(t)
    requires PLine(Lay(t, at + 1) + (One(')', at + 1 + |Print(t)|) + rest)) ==
             Ok(Place(t, at + 1), One(')', at + 1 + |Print(t)|) + rest)
    ensures match PRedirs(rest)
            case NoFile => PExec(LayIn(t, at) + rest) == Fail
            case Redirs(rs, us) => PExec(LayIn(t, at) + rest) == Ok(Wrap(Place(t, at + 1), rs), us)
  {
    hide PLine, PRedirs, Wrap;
    var ts := LayIn(t, at) + rest;
    var close := One(')', at + 1 + |Print(t)|);
    assert ts[0] == Token('(', at, at + 1);
    assert ts[1..] == Lay(t, at + 1) + (close + rest);
    assert (close + rest)[0].kind == ')' && (close + rest)[1..] == rest;
  }

  /** An exec followed by nothing that continues a line. */
  lemma ExecLine(ts: seq<Token>, rest: seq<Token>, c: Cmd)
    requires PExec(ts) == Ok(c, rest) && Closed(rest)
    ensures PPipe(ts) == Ok(c, rest) && PLine(ts) == Ok(c, rest)
  {
  }

  /** Parsing the tokens of a printed command gives that command and leaves what follows it. */
  lemma {:induction false} TokensParse(t: Tree, at: nat, rest: seq<Token>)
    requires TreeOk(t) && Closed(rest)
    ensures PLine(Lay(t, at) + rest) == Ok(Place(t, at), rest)
    decreases t, 1
  {
    match t
    case TExec(ws) =>
      WordsParse([], ws, at, rest);
      assert [] + PlaceWords(ws, at) == PlaceWords(ws, at);
      ExecLine(LayWords(ws, at) + rest, rest, Place(t, at));
    case TRedir(_, _, _) => RedirParse(t, at, rest);
    case TPipe(_, _) => PipeParse(t, at, rest);
    case TList(_, _) => ListParse(t, at, rest);
    case TBack(_) => BackParse(t, at, rest);
  }

  /** A parenthesised part, followed by something that is not a redirection. */
  lemma {:induction false} PartParse(t: Tree, at: nat, rest: seq<Token>)
    requires TreeOk(t) && !Next(rest, "<>")
    ensures PExec(LayIn(t, at) + rest) == Ok(Place(t, at + 1), rest)
    decreases t, 2
  {
    TokensParse(t, at + 1, One(')', at + 1 + |Print(t)|) + rest);
    BlockParse(t, at, rest);
    assert PRedirs(rest) == Redirs([], rest);
  }

  lemma OneRedir(op: Token, file: Token, rest: seq<Token>, c: Cmd)
    requires (op.kind == '<' || op.kind == '>') && file.kind == 'a' && Closed(rest)
    ensures var r := RedirectionOf(op, file);
            PRedirs([op, file] + rest) == Redirs([r], rest) && Wrap(c, [r]) == Redir(c, r.file, r.mode, r.fd)
  {
  }

  lemma {:induction false} RedirParse(t: Tree, at: nat, rest: seq<Token>)
    requires TreeOk(t) && Closed(rest) && t.TRedir?
    ensures PLine(Lay(t, at) + rest) == Ok(Place(t, at), rest)
    decreases t, 0
  {
    hide PLine, PExec, PRedirs, Wrap;
    var e := at + |Print(t.cmd)| + 2;
    var op, file := Token(if t.out then '>' else '<', e, e + 1), Token('a', e + 1, e + 1 + |t.file|);
    var tail := [op, file] + rest;
    TokensParse(t.cmd, at + 1, One(')', at + 1 + |Print(t.cmd)|) + tail);
    BlockParse(t.cmd, at, tail);
    OneRedir(op, file, rest, Place(t.cmd, at + 1));
    assert Lay(t, at) + rest == LayIn(t.cmd, at) + tail;
    ExecLine(Lay(t, at) + rest, rest, Place(t, at));
  }

  lemma {:induction false} PipeParse(t: Tree, at: nat, rest: seq<Token>)
    requires TreeOk(t) && Closed(rest) && t.TPipe?
    ensures PLine(Lay(t, at) + rest) == Ok(Place(t, at), rest)
    decreases t, 0
  {
    hide PExec, LayIn;
    var e := at + |Print(t.left)| + 2;
    var right := LayIn(t.right, e + 1) + rest;
    var tail := One('|', e) + right;
    PartParse(t.left, at, tail);
    PartParse(t.right, e + 1, rest);
    ExecLine(right, rest, Place(t.right, e + 2));
    var ts := Lay(t, at) + rest;
    assert ts == LayIn(t.left, at) + tail;
    assert tail[1..] == right;
    assert PPipe(ts) == Ok(Place(t, at), rest);
    assert PBacks(Place(t, at), rest) == (Place(t, at), rest);
  }

  lemma {:induction false} ListParse(t: Tree, at: nat, rest: seq<Token>)
    requires TreeOk(t) && Closed(rest) && t.TList?
    ensures PLine(Lay(t, at) + rest) == Ok(Place(t, at), rest)
    decreases t, 0
  {
    hide PExec, LayIn;
    var e := at + |Print(t.left)| + 2;
    var right := LayIn(t.right, e + 1) + rest;
    var tail := One(';', e) + right;
    PartParse(t.left, at, tail);
    PartParse(t.right, e + 1, rest);
    ExecLine(right, rest, Place(t.right, e + 2));
    var ts, l := Lay(t, at) + rest, Place(t.left, at + 1);
    assert ts == LayIn(t.left, at) + tail;
    assert tail[1..] == right;
    assert PPipe(ts) == Ok(l, tail);
    assert PBacks(l, tail) == (l, tail);
  }

  lemma {:induction false} BackParse(t: Tree, at: nat, rest: seq<Token>)
    requires TreeOk(t) && Closed(rest) && t.TBack?
    ensures PLine(Lay(t, at) + rest) == Ok(Place(t, at), rest)
    decreases t, 0
  {
    hide PExec, LayIn;
    var tail := One('&', at + |Print(t.cmd)| + 2) + rest;
    PartParse(t.cmd, at, tail);
    var ts, c := Lay(t, at) + rest, Place(t.cmd, at + 1);
    assert ts == LayIn(t.cmd, at) + tail;
    assert tail[1..] == rest;
    assert PPipe(ts) == Ok(c, tail);
    assert PBacks(c, tail) == PBacks(Back(c), rest) == (Back(c), rest);
  }

  // ---------------------------------------------------------------- scanning the printed text

  /** s occurs in the line at i. */
  predicate Has(line: string, i: nat, s: string) {
    i + |s| <= |line| && line[i..i + |s|] == s
  }

  lemma HasParts(line: string, i: nat, a: string, b: string)
    requires Has(line, i, a + b)
    ensures Has(line, i, a) && Has(line, i + |a|, b)
  {
    var n := i + |a| + |b|;
    assert line[i..n][..|a|] == line[i..i + |a|] && line[i..n][|a|..] == line[i + |a|..n];
  }

  lemma LexSymbol(line: string, i: nat)
    requires i < |line| && Symbol(line[i]) && (line[i] == '>' ==> At(line, i + 1) != '>')
    ensures Tokens(line, i) == One(line[i], i) + Tokens(line, i + 1)
  {
    assert !Space(line[i]);
    assert Skip(line, i) == i;
  }

  lemma LexSpace(line: string, i: nat)
    requires i < |line| && line[i] == ' '
    ensures Tokens(line, i) == Tokens(line, i + 1)
  {
  }

  lemma LexWord(line: string, i: nat, w: string)
    requires Has(line, i, w) && WordOk(w) && (i + |w| < |line| ==> !WordChar(line[i + |w|]))
    ensures Tokens(line, i) == [Token('a', i, i + |w|)] + Tokens(line, i + |w|)
  {
    hide Symbol, Space;
    forall k | i <= k < i + |w|
      ensures WordChar(line[k])
    {
      assert line[k] == w[k - i];
    }
    assert Skip(line, i) == i;
    assert WordEnd(line, i) == i + |w|;
    NotArrow(line[i]);
  }

  lemma NotArrow(c: char)
    requires WordChar(c)
    ensures c != '>'
  {
  }

  lemma {:induction false} LexWords(line: string, ws: seq<string>, i: nat)
    requires Has(line, i, PrintWords(ws)) && forall k :: 0 <= k < |ws| ==> WordOk(ws[k])
    ensures Tokens(line, i) == LayWords(ws, i) + Tokens(line, i + |PrintWords(ws)|)
    decreases |ws|
  {
    hide Tokens;
    if ws != [] {
      var w, n := ws[0], i + |ws[0]|;
      HasParts(line, i, w + " ", PrintWords(ws[1..]));
      HasParts(line, i, w, " ");
      assert line[n] == " "[0];
      LexWord(line, i, w);
      LexSpace(line, n);
      LexWords(line, ws[1..], n + 1);
      var rest := Tokens(line, i + |PrintWords(ws)|);
      assert [Token('a', i, n)] + (LayWords(ws[1..], n + 1) + rest) == LayWords(ws, i) + rest;
    }
  }

  /** The line goes on after the command with a closing parenthesis or not at all. */
  predicate Ends(line: string, i: nat) { i <= |line| && (i < |line| ==> line[i] == ')') }

  lemma {:induction false} LexTree(line: string, t: Tree, i: nat)
    requires TreeOk(t) && Has(line, i, Print(t)) && Ends(line, i + |Print(t)|)
    ensures Tokens(line, i) == Lay(t, i) + Tokens(line, i + |Print(t)|)
    decreases t, 1
  {
    hide Tokens, PrintWords;
    match t
    case TExec(ws) => LexWords(line, ws, i);
    case TRedir(_, _, _) => LexRedir(line, t, i);
    case TPipe(l, r) => LexPair(line, t, l, r, '|', i);
    case TList(l, r) => LexPair(line, t, l, r, ';', i);
    case TBack(c) =>
      var e := i + |Print(c)| + 2;
      HasParts(line, i, "(" + Print(c) + ")", "&");
      assert line[e] == "&"[0];
      LexIn(line, c, i);
      LexSymbol(line, e);
      var rest := Tokens(line, e + 1);
      assert LayIn(c, i) + (One('&', e) + rest) == Lay(t, i) + rest;
  }

  lemma {:induction false} LexIn(line: string, t: Tree, i: nat)
    requires TreeOk(t) && Has(line, i, "(" + Print(t) + ")")
    ensures Tokens(line, i) == LayIn(t, i) + Tokens(line, i + |Print(t)| + 2)
    decreases t, 2
  {
    hide Tokens, Lay;
    var e := i + 1 + |Print(t)|;
    HasParts(line, i, "(" + Print(t), ")");
    HasParts(line, i, "(", Print(t));
    assert line[i] == "("[0] && line[e] == ")"[0];
    LexSymbol(line, i);
    LexTree(line, t, i + 1);
    LexSymbol(line, e);
    var rest := Tokens(line, e + 1);
    assert One('(', i) + (Lay(t, i + 1) + (One(')', e) + rest)) == LayIn(t, i) + rest;
  }

  lemma {:induction false} LexRedir(line: string, t: Tree, i: nat)
    requires t.TRedir? && TreeOk(t) && Has(line, i, Print(t)) && Ends(line, i + |Print(t)|)
    ensures Tokens(line, i) == Lay(t, i) + Tokens(line, i + |Print(t)|)
    decreases t, 0
  {
    hide Tokens, LayIn, PrintWords, WordOk, TokenAt;
    var c, f, op := t.cmd, t.file, if t.out then ">" else "<";
    var e := i + |Print(c)| + 2;
    assert Print(t) == "(" + Print(c) + ")" + op + f;
    HasParts(line, i, "(" + Print(c) + ")" + op, f);
    HasParts(line, i, "(" + Print(c) + ")", op);
    LexIn(line, c, i);
    LexArrow(line, e, op, f);
    var rest := Tokens(line, e + 1 + |f|);
    assert LayIn(c, i) + (One(op[0], e) + [Token('a', e + 1, e + 1 + |f|)] + rest) == Lay(t, i) + rest;
  }

  lemma LexArrow(line: string, e: nat, op: string, f: string)
    requires (op == ">" || op == "<") && Has(line, e, op) && Has(line, e + 1, f) && WordOk(f) && Ends(line, e + 1 + |f|)
    ensures Tokens(line, e) == One(op[0], e) + [Token('a', e + 1, e + 1 + |f|)] + Tokens(line, e + 1 + |f|)
  {
    hide Tokens, TokenAt;
    assert line[e] == op[0] && line[e + 1] == f[0];
    NotArrow(f[0]);
    LexSymbol(line, e);
    LexWord(line, e + 1, f);
  }

  lemma LexOp(line: string, e: nat, op: char)
    requires (op == '|' || op == ';') && Has(line, e, [op])
    ensures e < |line| && Tokens(line, e) == One(op, e) + Tokens(line, e + 1)
  {
    hide Tokens;
    assert line[e] == [op][0];
    LexSymbol(line, e);
  }

  lemma {:induction false} LexPair(line: string, t: Tree, l: Tree, r: Tree, op: char, i: nat)
    requires TreeOk(t) && Has(line, i, Print(t)) && ((t == TPipe(l, r) && op == '|') || (t == TList(l, r) && op == ';'))
    ensures Tokens(line, i) == Lay(t, i) + Tokens(line, i + |Print(t)|)
    decreases t, 0
  {
    hide Tokens, LayIn, PrintWords, WordOk, TokenAt, Symbol, Has;
    var e := i + |Print(l)| + 2;
    var left, right := "(" + Print(l) + ")", "(" + Print(r) + ")";
    assert Print(t) == left + [op] + right;
    HasParts(line, i, left + [op], right);
    HasParts(line, i, left, [op]);
    LexIn(line, l, i);
    LexOp(line, e, op);
    LexIn(line, r, e + 1);
    var rest := Tokens(line, e + 1 + |right|);
    assert LayIn(l, i) + (One(op, e) + (LayIn(r, e + 1) + rest)) == Lay(t, i) + rest;
  }

  // ---------------------------------------------------------------- the round trip

  function TextOf(line: string, w: Word): string {
    if w.q <= w.eq <= |line| then line[w.q..w.eq] else ""
  }

  /** The command with its words read off the line. */
  function Text(line: string, c: Cmd): Tree {
    match c
    case Exec(argv) => TExec(seq(|argv|, k requires 0 <= k < |argv| => TextOf(line, argv[k])))
    case Redir(d, f, _, fd) => TRedir(Text(line, d), TextOf(line, f), fd == 1)
    case Piped(l, r) => TPipe(Text(line, l), Text(line, r))
    case Listed(l, r) => TList(Text(line, l), Text(line, r))
    case Back(d) => TBack(Text(line, d))
  }

  lemma HasText(line: string, i: nat, w: string)
    requires Has(line, i, w)
    ensures TextOf(line, Word(i, i + |w|)) == w
  {
  }

  lemma {:induction false} TextWords(line: string, ws: seq<string>, i: nat)
    requires Has(line, i, PrintWords(ws))
    ensures |PlaceWords(ws, i)| == |ws| && forall k :: 0 <= k < |ws| ==> TextOf(line, PlaceWords(ws, i)[k]) == ws[k]
    decreases |ws|
  {
    hide TextOf;
    if ws != [] {
      HasParts(line, i, ws[0] + " ", PrintWords(ws[1..]));
      HasParts(line, i, ws[0], " ");
      HasText(line, i, ws[0]);
      TextWords(line, ws[1..], i + |ws[0]| + 1);
    }
  }

  /** The words of the placed command are those of the tree. */
  lemma {:induction false} TextPlace(line: string, t: Tree, i: nat)
    requires Has(line, i, Print(t))
    ensures Text(line, Place(t, i)) == t
  {
    hide TextOf, PrintWords, Has;
    match t
    case TExec(ws) =>
      TextWords(line, ws, i);
    case TRedir(c, f, out) =>
      var op := if out then ">" else "<";
      HasParts(line, i, "(" + Print(c) + ")" + op, f);
      HasParts(line, i, "(" + Print(c) + ")", op);
      HasIn(line, i, c);
      HasText(line, i + |Print(c)| + 3, f);
      TextPlace(line, c, i + 1);
    case TPipe(l, r) =>
      HasPair(line, i, l, "|", r);
      TextPlace(line, l, i + 1);
      TextPlace(line, r, i + |Print(l)| + 4);
    case TList(l, r) =>
      HasPair(line, i, l, ";", r);
      TextPlace(line, l, i + 1);
      TextPlace(line, r, i + |Print(l)| + 4);
    case TBack(c) =>
      HasParts(line, i, "(" + Print(c) + ")", "&");
      HasIn(line, i, c);
      TextPlace(line, c, i + 1);
  }

  lemma HasIn(line: string, i: nat, t: Tree)
    requires Has(line, i, "(" + Print(t) + ")")
    ensures Has(line, i + 1, Print(t))
  {
    HasParts(line, i, "(" + Print(t), ")");
    HasParts(line, i, "(", Print(t));
  }

  lemma HasPair(line: string, i: nat, l: Tree, op: string, r: Tree)
    requires |op| == 1 && Has(line, i, "(" + Print(l) + ")" + op + "(" + Print(r) + ")")
    ensures Has(line, i + 1, Print(l)) && Has(line, i + |Print(l)| + 4, Print(r))
  {
    hide Has;
    var left, right := "(" + Print(l) + ")", "(" + Print(r) + ")";
    assert left + op + "(" + Print(r) + ")" == (left + op) + right;
    HasParts(line, i, left + op, right);
    HasParts(line, i, left, op);
    HasIn(line, i, l);
    HasIn(line, i + |left| + 1, r);
  }

  lemma {:induction false} WordsHaveNoNul(ws: seq<string>)
    requires forall k :: 0 <= k < |ws| ==> WordOk(ws[k])
    ensures Line(PrintWords(ws))
  {
    if ws != [] {
      WordsHaveNoNul(ws[1..]);
    }
  }

  lemma {:induction false} NoNul(t: Tree)
    requires TreeOk(t)
    ensures Line(Print(t))
  {
    match t
    case TExec(ws) => WordsHaveNoNul(ws);
    case TRedir(c, f, out) => NoNul(c);
    case TPipe(l, r) =>
      NoNul(l);
      NoNul(r);
    case TList(l, r) =>
      NoNul(l);
      NoNul(r);
    case TBack(c) => NoNul(c);
  }

  /** A fully parenthesised command parses back to itself. */
  lemma RoundTrip(t: Tree)
    requires TreeOk(t)
    ensures var line := Print(t);
            Line(line) && exists c :: PCmd(Tokens(line, 0)) == Some(c) && Text(line, c) == t
  {
    hide Lay, Place, PLine, Tokens, Text, TreeOk, Print;
    var line := Print(t);
    NoNul(t);
    assert Has(line, 0, line);
    LexTree(line, t, 0);
    NothingLeft(line);
    assert Lay(t, 0) + [] == Lay(t, 0);
    TokensParse(t, 0, []);
    TextPlace(line, t, 0);
    assert PCmd(Tokens(line, 0)) == Some(Place(t, 0));
  }

  lemma NothingLeft(line: string)
    ensures Tokens(line, |line|) == []
  {
  }
}
