/** The grammar of the shell's command language (user/sh.c) as a relation between token
  sequences and commands, and the parser proved to accept exactly what it derives.
 */
module ShellGrammar {
  import opened Common
  import opened ShellLex
  import opened ShellParse

  /** The command with one more argument, after all others; redirections stay around it. */
  function AddArg(c: Cmd, w: Word): Cmd {
    match c
    case Exec(argv) => Exec(argv + [w])
    case Redir(d, file, mode, fd) => Redir(AddArg(d, w), file, mode, fd)
    case _ => c
  }

  /** The number of arguments of a simple command. */
  function Args(c: Cmd): nat {
    match c
    case Exec(argv) => |argv|
    case Redir(d, _, _, _) => Args(d)
    case _ => 0
  }

  /** c is c.cmd with input from the file, for <, or with output to it, for > and >>. */
  predicate Redirects(op: Token, file: Token, c: Cmd) {
    && file.kind == 'a' && c.Redir? && c.file == Word(file.q, file.eq)
    && (if op.kind == '<' then c.mode == 0 && c.fd == 0
        else op.kind in ">+" && c.mode == 0x201 && c.fd == 1)
  }

  /** simple: nothing | simple word | simple (< | > | >>) word, with at most nine words as
      arguments. The last redirection is the outermost. */
  ghost predicate DSimple(ts: seq<Token>, c: Cmd)
    decreases |ts|, 1
  {
    || (ts == [] && c == Exec([]))
    || (exists d :: MoreWords(ts, d, c))
    || (c.Redir? && |ts| >= 2 && Redirects(ts[|ts| - 2], ts[|ts| - 1], c) && DSimple(ts[..|ts| - 2], c.cmd))
  }

  ghost predicate MoreWords(ts: seq<Token>, d: Cmd, c: Cmd)
    decreases |ts|, 0
  {
    && |ts| >= 1 && ts[|ts| - 1].kind == 'a' && DSimple(ts[..|ts| - 1], d)
    && c == AddArg(d, Word(ts[|ts| - 1].q, ts[|ts| - 1].eq)) && Args(c) <= 9
  }

  /** block: ( line ) | block (< | > | >>) word */
  ghost predicate DBlock(ts: seq<Token>, c: Cmd)
    decreases |ts|, 0
  {
    || (|ts| >= 2 && ts[0].kind == '(' && ts[|ts| - 1].kind == ')' && DLine(ts[1..|ts| - 1], c))
    || (c.Redir? && |ts| >= 2 && Redirects(ts[|ts| - 2], ts[|ts| - 1], c) && DBlock(ts[..|ts| - 2], c.cmd))
  }

  ghost predicate DExec(ts: seq<Token>, c: Cmd)
    decreases |ts|, 1
  {
    DSimple(ts, c) || DBlock(ts, c)
  }

  ghost predicate DPipe(ts: seq<Token>, c: Cmd)
    decreases |ts|, 2
  {
    || DExec(ts, c)
    || (c.Piped? && exists k :: 0 <= k < |ts| && ts[k].kind == '|' && DExec(ts[..k], c.left)
                                && DPipe(ts[k + 1..], c.right))
  }

  ghost predicate DBacks(ts: seq<Token>, c: Cmd)
    decreases |ts|, 3
  {
    || DPipe(ts, c)
    || (c.Back? && ts != [] && ts[|ts| - 1].kind == '&' && DBacks(ts[..|ts| - 1], c.cmd))
  }

  /** line: pipe { & } [ ; line ], in the order of binding. */
  ghost predicate DLine(ts: seq<Token>, c: Cmd)
    decreases |ts|, 4
  {
    || DBacks(ts, c)
    || (c.Listed? && exists k :: 0 <= k < |ts| && ts[k].kind == ';' && DBacks(ts[..k], c.left)
                                 && DLine(ts[k + 1..], c.right))
  }

  // ---------------------------------------------------------------- items from the left

  datatype Items = Items(argv: seq<Word>, rs: seq<Redirection>) | NotItems

  /** Words and redirections in any order. */
  ghost function ItemsOf(ts: seq<Token>): Items {
    if ts == [] then Items([], [])
    else if Next(ts, "<>") then
      if |ts| < 2 || ts[1].kind != 'a' then NotItems
      else match ItemsOf(ts[2..])
           case Items(argv, rs) => Items(argv, [RedirectionOf(ts[0], ts[1])] + rs)
           case NotItems => NotItems
    else if ts[0].kind != 'a' then NotItems
    else match ItemsOf(ts[1..])
         case Items(argv, rs) => Items([WordOf(ts[0])] + argv, rs)
         case NotItems => NotItems
  }

  ghost predicate Simple(ts: seq<Token>, c: Cmd) {
    match ItemsOf(ts)
    case Items(argv, rs) => |argv| < MAXARGS && c == Wrap(Exec(argv), rs)
    case NotItems => false
  }

  /** ( line ) and redirections, where k is the closing parenthesis and d the command inside. */
  ghost predicate BlockAt(ts: seq<Token>, c: Cmd, k: int, d: Cmd)
    requires 0 < k < |ts|
  {
    && ts[0].kind == '(' && ts[k].kind == ')' && DLine(ts[1..k], d)
    && match ItemsOf(ts[k + 1..])
       case Items(argv, rs) => argv == [] && c == Wrap(d, rs)
       case NotItems => false
  }

  ghost predicate IsBlock(ts: seq<Token>, c: Cmd) {
    exists k, d :: 0 < k < |ts| && BlockAt(ts, c, k, d)
  }

  lemma OneRedir(t: Token, file: Token, ts: seq<Token>)
    requires Next([t], "<>") && file.kind == 'a' && ItemsOf(ts).Items?
    ensures ItemsOf([t, file] + ts) == Items(ItemsOf(ts).argv, [RedirectionOf(t, file)] + ItemsOf(ts).rs)
  {
    assert ([t, file] + ts)[2..] == ts;
  }

  lemma OneWord(t: Token, ts: seq<Token>)
    requires t.kind == 'a' && ItemsOf(ts).Items?
    ensures ItemsOf([t] + ts) == Items([WordOf(t)] + ItemsOf(ts).argv, ItemsOf(ts).rs)
  {
    assert ([t] + ts)[1..] == ts;
  }

  /** How items begin. */
  lemma ItemsHead(a: seq<Token>)
    requires ItemsOf(a).Items?
    ensures a == [] ==> ItemsOf(a) == Items([], [])
    ensures Next(a, "<>") ==> |a| >= 2 && a[1].kind == 'a' && ItemsOf(a[2..]).Items?
                              && ItemsOf(a) == Items(ItemsOf(a[2..]).argv,
                                                     [RedirectionOf(a[0], a[1])] + ItemsOf(a[2..]).rs)
    ensures a != [] && !Next(a, "<>") ==> a[0].kind == 'a' && ItemsOf(a[1..]).Items?
                                          && ItemsOf(a) == Items([WordOf(a[0])] + ItemsOf(a[1..]).argv,
                                                                 ItemsOf(a[1..]).rs)
  {
  }

  /** Items follow items. */
  lemma {:induction false} ItemsJoin(a: seq<Token>, b: seq<Token>)
    requires ItemsOf(a).Items? && ItemsOf(b).Items?
    ensures ItemsOf(a + b) == Items(ItemsOf(a).argv + ItemsOf(b).argv, ItemsOf(a).rs + ItemsOf(b).rs)
    decreases |a|
  {
    hide RedirectionOf, WordOf, ItemsOf;
    ItemsHead(a);
    if a == [] {
      assert a + b == b;
    } else if Next(a, "<>") {
      ItemsJoin(a[2..], b);
      assert a + b == [a[0], a[1]] + (a[2..] + b);
      OneRedir(a[0], a[1], a[2..] + b);
      assert [RedirectionOf(a[0], a[1])] + (ItemsOf(a[2..]).rs + ItemsOf(b).rs) == ItemsOf(a).rs + ItemsOf(b).rs;
    } else {
      ItemsJoin(a[1..], b);
      assert a + b == [a[0]] + (a[1..] + b);
      OneWord(a[0], a[1..] + b);
      assert [WordOf(a[0])] + (ItemsOf(a[1..]).argv + ItemsOf(b).argv) == ItemsOf(a).argv + ItemsOf(b).argv;
    }
  }

  /** Where the last item of some items begins. */
  lemma {:induction false} LastItem(ts: seq<Token>) returns (k: nat)
    requires ItemsOf(ts).Items? && ts != []
    ensures k < |ts| && ItemsOf(ts[..k]).Items?
    ensures || (k == |ts| - 1 && ts[k].kind == 'a')
            || (k == |ts| - 2 && Next([ts[k]], "<>") && ts[k + 1].kind == 'a')
    decreases |ts|
  {
    hide RedirectionOf, WordOf, ItemsOf;
    ItemsHead(ts);
    ItemsHead([]) by { NoItems(); }
    var one := if Next(ts, "<>") then 2 else 1;
    if |ts| == one {
      k := 0;
    } else {
      var i := LastItem(ts[one..]);
      k := i + one;
      if one == 2 {
        OneRedir(ts[0], ts[1], ts[2..][..i]);
        assert ts[..k] == [ts[0], ts[1]] + ts[2..][..i];
      } else {
        OneWord(ts[0], ts[1..][..i]);
        assert ts[..k] == [ts[0]] + ts[1..][..i];
      }
    }
  }

  lemma NoItems()
    ensures ItemsOf([]) == Items([], [])
  {
  }

  /** What the last item adds. */
  lemma ItemsLast(ts: seq<Token>, k: nat)
    requires k < |ts| && ItemsOf(ts[..k]).Items?
    ensures k == |ts| - 1 && ts[k].kind == 'a' ==>
              ItemsOf(ts) == Items(ItemsOf(ts[..k]).argv + [WordOf(ts[k])], ItemsOf(ts[..k]).rs)
    ensures k == |ts| - 2 && Next([ts[k]], "<>") && ts[k + 1].kind == 'a' ==>
              ItemsOf(ts) == Items(ItemsOf(ts[..k]).argv,
                                   ItemsOf(ts[..k]).rs + [RedirectionOf(ts[k], ts[k + 1])])
  {
    hide RedirectionOf, WordOf, ItemsOf;
    NoItems();
    var init := ts[..k];
    if k == |ts| - 1 && ts[k].kind == 'a' {
      OneWord(ts[k], []);
      assert [ts[k]] + [] == [ts[k]];
      ItemsJoin(init, [ts[k]]);
      assert ts == init + [ts[k]];
    }
    if k == |ts| - 2 && Next([ts[k]], "<>") && ts[k + 1].kind == 'a' {
      OneRedir(ts[k], ts[k + 1], []);
      assert [ts[k], ts[k + 1]] + [] == [ts[k], ts[k + 1]];
      ItemsJoin(init, [ts[k], ts[k + 1]]);
      assert ts == init + [ts[k], ts[k + 1]];
    }
  }

  lemma {:induction false} WrapLast(c: Cmd, rs: seq<Redirection>, r: Redirection)
    ensures Wrap(c, rs + [r]) == Redir(Wrap(c, rs), r.file, r.mode, r.fd)
    decreases |rs|
  {
    if rs == [] {
      assert rs + [r] == [r];
    } else {
      assert (rs + [r])[1..] == rs[1..] + [r];
      WrapLast(Redir(c, rs[0].file, rs[0].mode, rs[0].fd), rs[1..], r);
    }
  }

  lemma {:induction false} WrapArgs(argv: seq<Word>, rs: seq<Redirection>, w: Word)
    ensures AddArg(Wrap(Exec(argv), rs), w) == Wrap(Exec(argv + [w]), rs)
    ensures Args(Wrap(Exec(argv), rs)) == |argv|
    decreases |rs|
  {
    if rs != [] {
      var n := |rs| - 1;
      assert rs == rs[..n] + [rs[n]];
      WrapArgs(argv, rs[..n], w);
      WrapLast(Exec(argv), rs[..n], rs[n]);
      WrapLast(Exec(argv + [w]), rs[..n], rs[n]);
    }
  }

  lemma LastRedirection(op: Token, file: Token, c: Cmd)
    ensures Redirects(op, file, c) <==>
              && Next([op], "<>") && file.kind == 'a' && c.Redir?
              && RedirectionOf(op, file) == Redirection(c.file, c.mode, c.fd)
  {
  }

  lemma {:induction false} SimpleIsItems(ts: seq<Token>, c: Cmd)
    requires DSimple(ts, c)
    ensures Simple(ts, c)
    decreases |ts|
  {
    hide ItemsOf, Wrap, Redirects, RedirectionOf, MoreWords, Simple;
    if c.Redir? && |ts| >= 2 && Redirects(ts[|ts| - 2], ts[|ts| - 1], c) && DSimple(ts[..|ts| - 2], c.cmd) {
      SimpleIsItems(ts[..|ts| - 2], c.cmd);
      RedirItem(ts, c);
    } else if d :| MoreWords(ts, d, c) {
      MoreWordsHas(ts, d, c);
      SimpleIsItems(ts[..|ts| - 1], d);
      WordItem(ts, d, c);
    } else {
      NothingIsItems();
    }
  }

  lemma MoreWordsHas(ts: seq<Token>, d: Cmd, c: Cmd)
    requires MoreWords(ts, d, c)
    ensures |ts| >= 1 && ts[|ts| - 1].kind == 'a' && DSimple(ts[..|ts| - 1], d)
    ensures c == AddArg(d, WordOf(ts[|ts| - 1])) && Args(c) <= 9
  {
    hide DSimple;
  }

  lemma NothingIsItems()
    ensures Simple([], Exec([]))
  {
  }

  lemma RedirItem(ts: seq<Token>, c: Cmd)
    requires c.Redir? && |ts| >= 2 && Redirects(ts[|ts| - 2], ts[|ts| - 1], c) && Simple(ts[..|ts| - 2], c.cmd)
    ensures Simple(ts, c)
  {
    hide ItemsOf, Wrap, Redirects, RedirectionOf;
    var k := |ts| - 2;
    LastRedirection(ts[k], ts[k + 1], c);
    ItemsLast(ts, k);
    var it := ItemsOf(ts[..k]);
    WrapLast(Exec(it.argv), it.rs, RedirectionOf(ts[k], ts[k + 1]));
  }

  lemma WordItem(ts: seq<Token>, d: Cmd, c: Cmd)
    requires |ts| >= 1 && ts[|ts| - 1].kind == 'a' && Simple(ts[..|ts| - 1], d)
    requires c == AddArg(d, WordOf(ts[|ts| - 1])) && Args(c) <= 9
    ensures Simple(ts, c)
  {
    hide ItemsOf, Wrap, AddArg, Args;
    var k := |ts| - 1;
    var w := WordOf(ts[k]);
    ItemsLast(ts, k);
    var it := ItemsOf(ts[..k]);
    WrapArgs(it.argv, it.rs, w);
    WrapArgs(it.argv + [w], it.rs, w);
  }

  lemma NothingWrapped(c: Cmd)
    ensures Wrap(c, []) == c
  {
  }

  lemma {:induction false} ItemsAreSimple(ts: seq<Token>, c: Cmd)
    requires Simple(ts, c)
    ensures DSimple(ts, c)
    decreases |ts|
  {
    hide ItemsOf, Wrap, Redirects, RedirectionOf, AddArg, Args, MoreWords;
    NoItems();
    if ts == [] {
      NothingWrapped(Exec([]));
    } else {
      var k := LastItem(ts);
      ItemsLast(ts, k);
      var it := ItemsOf(ts[..k]);
      var d := Wrap(Exec(it.argv), it.rs);
      ItemsAreSimple(ts[..k], d);
      if k == |ts| - 1 && ts[k].kind == 'a' {
        WrapArgs(it.argv, it.rs, WordOf(ts[k]));
        WrapArgs(ItemsOf(ts).argv, it.rs, WordOf(ts[k]));
        HasMoreWords(ts, d, c);
      } else {
        WrapLast(Exec(it.argv), it.rs, RedirectionOf(ts[k], ts[k + 1]));
        LastRedirection(ts[k], ts[k + 1], c);
      }
    }
  }

  lemma HasMoreWords(ts: seq<Token>, d: Cmd, c: Cmd)
    requires |ts| >= 1 && ts[|ts| - 1].kind == 'a' && DSimple(ts[..|ts| - 1], d)
    requires c == AddArg(d, WordOf(ts[|ts| - 1])) && Args(c) <= 9
    ensures MoreWords(ts, d, c)
  {
  }

  lemma {:induction false} BlockIsItems(ts: seq<Token>, c: Cmd)
    requires DBlock(ts, c)
    ensures IsBlock(ts, c)
    decreases |ts|
  {
    hide ItemsOf, Wrap, Redirects, RedirectionOf, DLine, BlockAt;
    var n := |ts|;
    if c.Redir? && n >= 2 && Redirects(ts[n - 2], ts[n - 1], c) && DBlock(ts[..n - 2], c.cmd) {
      BlockIsItems(ts[..n - 2], c.cmd);
      var k, d :| 0 < k < n - 2 && BlockAt(ts[..n - 2], c.cmd, k, d);
      BlockMore(ts, c, k, d);
    } else {
      BlockOnly(ts, c);
    }
  }

  lemma BlockOnly(ts: seq<Token>, c: Cmd)
    requires |ts| >= 2 && ts[0].kind == '(' && ts[|ts| - 1].kind == ')' && DLine(ts[1..|ts| - 1], c)
    ensures BlockAt(ts, c, |ts| - 1, c)
  {
    hide ItemsOf, DLine;
    NoItems();
    assert ts[|ts|..] == [];
  }

  lemma BlockMore(ts: seq<Token>, c: Cmd, k: nat, d: Cmd)
    requires 0 < k < |ts| - 2 && c.Redir? && Redirects(ts[|ts| - 2], ts[|ts| - 1], c)
             && BlockAt(ts[..|ts| - 2], c.cmd, k, d)
    ensures BlockAt(ts, c, k, d)
  {
    hide ItemsOf, Wrap, Redirects, RedirectionOf, DLine;
    var n := |ts|;
    var us := ts[k + 1..];
    LastRedirection(ts[n - 2], ts[n - 1], c);
    assert us[..|us| - 2] == ts[..n - 2][k + 1..];
    assert ts[..n - 2][1..k] == ts[1..k];
    ItemsLast(us, |us| - 2);
    WrapLast(d, ItemsOf(us[..|us| - 2]).rs, RedirectionOf(ts[n - 2], ts[n - 1]));
  }

  lemma {:induction false} ItemsAreBlock(ts: seq<Token>, c: Cmd, k: nat, d: Cmd)
    requires 0 < k < |ts| && BlockAt(ts, c, k, d)
    ensures DBlock(ts, c)
    decreases |ts|
  {
    hide ItemsOf, Wrap, Redirects, RedirectionOf, DLine;
    NoItems();
    var n, us := |ts|, ts[k + 1..];
    if us == [] {
      NothingWrapped(d);
    } else {
      var i := LastItem(us);
      ItemsLast(us, i);
      var it := ItemsOf(us[..i]);
      WrapLast(d, it.rs, RedirectionOf(ts[n - 2], ts[n - 1]));
      LastRedirection(ts[n - 2], ts[n - 1], c);
      assert us[..i] == ts[..n - 2][k + 1..];
      assert ts[..n - 2][1..k] == ts[1..k];
      ItemsAreBlock(ts[..n - 2], c.cmd, k, d);
    }
  }

  /** The grammar's rule for commands, and the same read from the left. */
  lemma ExecForms(ts: seq<Token>, c: Cmd)
    ensures DExec(ts, c) <==> Simple(ts, c) || IsBlock(ts, c)
  {
    hide DSimple, DBlock, Simple, BlockAt;
    if DSimple(ts, c) {
      SimpleIsItems(ts, c);
    }
    if Simple(ts, c) {
      ItemsAreSimple(ts, c);
    }
    if DBlock(ts, c) {
      BlockIsItems(ts, c);
    }
    if IsBlock(ts, c) {
      var k, d :| 0 < k < |ts| && BlockAt(ts, c, k, d);
      ItemsAreBlock(ts, c, k, d);
    }
  }

  // ---------------------------------------------------------------- what is derived is parsed

  /** The tokens that may follow. */
  ghost predicate Ends(rest: seq<Token>, toks: string) { rest == [] || Next(rest, toks) }

  lemma {:induction false} RedirsParse(ts: seq<Token>, rest: seq<Token>)
    requires ItemsOf(ts).Items? && ItemsOf(ts).argv == [] && !Next(rest, "<>")
    ensures PRedirs(ts + rest) == Redirs(ItemsOf(ts).rs, rest)
    decreases |ts|
  {
    if ts == [] {
      assert ts + rest == rest;
    } else {
      assert Next(ts, "<>");
      assert (ts + rest)[2..] == ts[2..] + rest;
      RedirsParse(ts[2..], rest);
    }
  }

  /** One redirection more or less in front of the parser. */
  lemma ItemsRedir(argv: seq<Word>, rs: seq<Redirection>, ts: seq<Token>)
    requires Next(ts, "<>") && |ts| >= 2 && ts[1].kind == 'a'
    ensures PItems(argv, rs, ts) == PItems(argv, rs + [RedirectionOf(ts[0], ts[1])], ts[2..])
  {
    var one := RedirectionOf(ts[0], ts[1]);
    match PRedirs(ts[2..])
    case NoFile =>
    case Redirs(more, us) =>
      assert rs + ([one] + more) == (rs + [one]) + more;
  }

  lemma ItemsWord(argv: seq<Word>, rs: seq<Redirection>, ts: seq<Token>)
    requires ts != [] && ts[0].kind == 'a' && |argv| + 1 < MAXARGS
    ensures PItems(argv, rs, ts) == PItems(argv + [WordOf(ts[0])], rs, ts[1..])
  {
    assert rs + [] == rs;
  }

  lemma ItemsEnd(argv: seq<Word>, rs: seq<Redirection>, ts: seq<Token>)
    requires Ends(ts, "|)&;")
    ensures PItems(argv, rs, ts) == Ok(Wrap(Exec(argv), rs), ts)
  {
    assert rs + [] == rs;
  }

  lemma {:induction false} ItemsParse(argv: seq<Word>, rs: seq<Redirection>, ts: seq<Token>, rest: seq<Token>)
    requires ItemsOf(ts).Items? && |argv| + |ItemsOf(ts).argv| < MAXARGS && Ends(rest, "|)&;")
    ensures PItems(argv, rs, ts + rest) == Ok(Wrap(Exec(argv + ItemsOf(ts).argv), rs + ItemsOf(ts).rs), rest)
    decreases |ts|
  {
    hide ItemsOf, PItems, Wrap, RedirectionOf, WordOf;
    ItemsHead(ts);
    if ts == [] {
      ItemsEnd(argv, rs, rest);
      assert ts + rest == rest && argv + [] == argv && rs + [] == rs;
    } else if Next(ts, "<>") {
      var one := RedirectionOf(ts[0], ts[1]);
      ItemsRedir(argv, rs, ts + rest);
      assert (ts + rest)[2..] == ts[2..] + rest;
      ItemsParse(argv, rs + [one], ts[2..], rest);
      assert (rs + [one]) + ItemsOf(ts[2..]).rs == rs + ItemsOf(ts).rs;
    } else {
      var w := WordOf(ts[0]);
      ItemsWord(argv, rs, ts + rest);
      assert (ts + rest)[1..] == ts[1..] + rest;
      ItemsParse(argv + [w], rs, ts[1..], rest);
      assert (argv + [w]) + ItemsOf(ts[1..]).argv == argv + ItemsOf(ts).argv;
    }
  }

  lemma SimpleParse(ts: seq<Token>, c: Cmd, rest: seq<Token>)
    requires Simple(ts, c) && Ends(rest, "|)&;")
    ensures PExec(ts + rest) == Ok(c, rest)
  {
    ItemsParse([], [], ts, rest);
    assert [] + ItemsOf(ts).argv == ItemsOf(ts).argv && [] + ItemsOf(ts).rs == ItemsOf(ts).rs;
    if ts == [] {
      assert ts + rest == rest;
    } else {
      assert (ts + rest)[0] == ts[0];
    }
  }

  lemma {:induction false} ExecParse(ts: seq<Token>, c: Cmd, rest: seq<Token>)
    requires DExec(ts, c) && Ends(rest, "|)&;")
    ensures PExec(ts + rest) == Ok(c, rest)
    decreases |ts|, 1
  {
    hide PLine, DLine, PRedirs, Simple, ItemsOf, DExec;
    ExecForms(ts, c);
    if Simple(ts, c) {
      SimpleParse(ts, c, rest);
    } else {
      var k, d :| 0 < k < |ts| && BlockAt(ts, c, k, d);
      LineParse(ts[1..k], d, ts[k..] + rest);
      assert (ts + rest)[1..] == ts[1..k] + (ts[k..] + rest);
      assert (ts[k..] + rest)[1..] == ts[k + 1..] + rest;
      RedirsParse(ts[k + 1..], rest);
    }
  }

  lemma {:induction false} PipeParse(ts: seq<Token>, c: Cmd, rest: seq<Token>)
    requires DPipe(ts, c) && Ends(rest, ")&;")
    ensures PPipe(ts + rest) == Ok(c, rest)
    decreases |ts|, 2
  {
    hide PExec, DExec;
    if DExec(ts, c) {
      ExecParse(ts, c, rest);
    } else {
      var k :| 0 <= k < |ts| && ts[k].kind == '|' && DExec(ts[..k], c.left) && DPipe(ts[k + 1..], c.right);
      ExecParse(ts[..k], c.left, ts[k..] + rest);
      assert ts + rest == ts[..k] + (ts[k..] + rest);
      assert (ts[k..] + rest)[1..] == ts[k + 1..] + rest;
      PipeParse(ts[k + 1..], c.right, rest);
    }
  }

  /** pipe { & }, before the parser looks for a semicolon. */
  ghost function BacksResult(ts: seq<Token>): Result {
    match PPipe(ts)
    case Fail => Fail
    case Ok(c, us) => Ok(PBacks(c, us).0, PBacks(c, us).1)
  }

  lemma {:induction false} BacksParse(ts: seq<Token>, c: Cmd, rest: seq<Token>)
    requires DBacks(ts, c) && Ends(rest, ")&;")
    ensures PPipe(ts + rest).Ok?
    ensures BacksResult(ts + rest) == Ok(PBacks(c, rest).0, PBacks(c, rest).1)
    decreases |ts|, 3
  {
    hide PPipe, DPipe;
    if DPipe(ts, c) {
      PipeParse(ts, c, rest);
    } else {
      var n := |ts| - 1;
      BacksParse(ts[..n], c.cmd, [ts[n]] + rest);
      assert ts + rest == ts[..n] + ([ts[n]] + rest);
      assert ([ts[n]] + rest)[1..] == rest;
    }
  }

  lemma {:induction false} LineParse(ts: seq<Token>, c: Cmd, rest: seq<Token>)
    requires DLine(ts, c) && Ends(rest, ")")
    ensures PLine(ts + rest) == Ok(c, rest)
    decreases |ts|, 4
  {
    hide PPipe, DBacks;
    if DBacks(ts, c) {
      BacksParse(ts, c, rest);
    } else {
      var k :| 0 <= k < |ts| && ts[k].kind == ';' && DBacks(ts[..k], c.left) && DLine(ts[k + 1..], c.right);
      BacksParse(ts[..k], c.left, ts[k..] + rest);
      assert ts + rest == ts[..k] + (ts[k..] + rest);
      assert (ts[k..] + rest)[1..] == ts[k + 1..] + rest;
      LineParse(ts[k + 1..], c.right, rest);
    }
  }

  // ---------------------------------------------------------------- what is parsed is derived

  /** ts is `before` and then `rest`, where before has len tokens. */
  ghost predicate Leaves(ts: seq<Token>, rest: seq<Token>) {
    |rest| <= |ts| && ts[|ts| - |rest|..] == rest
  }

  ghost function Taken(ts: seq<Token>, rest: seq<Token>): (pre: seq<Token>)
    ensures |rest| <= |ts| ==> |pre| == |ts| - |rest|
  {
    if |rest| <= |ts| then ts[..|ts| - |rest|] else ts
  }

  lemma LeavesTrans(ts: seq<Token>, us: seq<Token>, vs: seq<Token>)
    requires Leaves(ts, us) && Leaves(us, vs)
    ensures Leaves(ts, vs) && Taken(ts, vs) == Taken(ts, us) + Taken(us, vs)
  {
    var a, b := |ts| - |us|, |us| - |vs|;
    assert us == ts[a..];
    assert us[b..] == ts[a + b..];
    assert ts[..a + b] == ts[..a] + ts[a..][..b];
  }

  lemma {:induction false} RedirsDerived(ts: seq<Token>)
    requires PRedirs(ts).Redirs?
    ensures var r := PRedirs(ts); Leaves(ts, r.rest) && ItemsOf(Taken(ts, r.rest)) == Items([], r.rs)
    decreases |ts|
  {
    if Next(ts, "<>") {
      RedirsDerived(ts[2..]);
      var r := PRedirs(ts);
      var pre := Taken(ts, r.rest);
      assert Leaves(ts, ts[2..]);
      LeavesTrans(ts, ts[2..], r.rest);
      assert pre[2..] == Taken(ts[2..], r.rest) && pre[0] == ts[0] && pre[1] == ts[1];
    }
  }

  /** The tokens taken are those before the operator, the operator and those after it. */
  lemma Joined(ts: seq<Token>, us: seq<Token>, rest: seq<Token>)
    requires Leaves(ts, us) && us != [] && Leaves(us[1..], rest)
    ensures Leaves(ts, rest)
    ensures var pre, k := Taken(ts, rest), |ts| - |us|;
            0 <= k < |pre| && pre[k] == us[0] && pre[..k] == Taken(ts, us) && pre[k + 1..] == Taken(us[1..], rest)
  {
    assert Leaves(us, us[1..]);
    LeavesTrans(ts, us, us[1..]);
    LeavesTrans(ts, us[1..], rest);
  }

  lemma {:induction false} ItemsDerived(argv: seq<Word>, rs: seq<Redirection>, ts: seq<Token>)
    requires PItems(argv, rs, ts).Ok? && |argv| < MAXARGS
    ensures var r := PItems(argv, rs, ts);
            && Leaves(ts, r.rest) && ItemsOf(Taken(ts, r.rest)).Items?
            && var it := ItemsOf(Taken(ts, r.rest));
               |argv + it.argv| < MAXARGS && r.cmd == Wrap(Exec(argv + it.argv), rs + it.rs)
    decreases |ts|
  {
    hide ItemsOf, Leaves, Taken, PRedirs, Wrap;
    RedirsDerived(ts);
    var more, us := PRedirs(ts).rs, PRedirs(ts).rest;
    if us == [] || Next(us, "|)&;") {
      assert argv + [] == argv;
    } else {
      var w, vs := WordOf(us[0]), us[1..];
      ItemsDerived(argv + [w], rs + more, vs);
      var rest := PItems(argv, rs, ts).rest;
      var it := ItemsOf(Taken(vs, rest));
      WordTaken(ts, us, rest);
      assert (argv + [w]) + it.argv == argv + ([] + ([w] + it.argv));
      assert (rs + more) + it.rs == rs + (more + it.rs);
    }
  }

  lemma WordTaken(ts: seq<Token>, us: seq<Token>, rest: seq<Token>)
    requires Leaves(ts, us) && us != [] && us[0].kind == 'a' && Leaves(us[1..], rest)
    requires ItemsOf(Taken(ts, us)).Items? && ItemsOf(Taken(us[1..], rest)).Items?
    ensures Leaves(ts, rest)
    ensures var a, b := ItemsOf(Taken(ts, us)), ItemsOf(Taken(us[1..], rest));
            ItemsOf(Taken(ts, rest)) == Items(a.argv + ([WordOf(us[0])] + b.argv), a.rs + b.rs)
  {
    hide ItemsOf, WordOf;
    Joined(ts, us, rest);
    OneWord(us[0], Taken(us[1..], rest));
    ItemsJoin(Taken(ts, us), [us[0]] + Taken(us[1..], rest));
    var pre, k := Taken(ts, rest), |ts| - |us|;
    assert pre == pre[..k] + ([pre[k]] + pre[k + 1..]);
  }

  lemma {:induction false} ExecDerived(ts: seq<Token>)
    requires PExec(ts).Ok?
    ensures var r := PExec(ts); Leaves(ts, r.rest) && DExec(Taken(ts, r.rest), r.cmd)
    decreases |ts|, 1
  {
    if Next(ts, "(") {
      BlockDerived(ts);
    } else {
      ItemsDerived([], [], ts);
      var it := ItemsOf(Taken(ts, PExec(ts).rest));
      assert [] + it.argv == it.argv && [] + it.rs == it.rs;
      ExecForms(Taken(ts, PExec(ts).rest), PExec(ts).cmd);
    }
  }

  lemma {:induction false} BlockDerived(ts: seq<Token>)
    requires Next(ts, "(") && PBlock(ts).Ok?
    ensures var r := PBlock(ts); Leaves(ts, r.rest) && DExec(Taken(ts, r.rest), r.cmd)
    decreases |ts|, 0
  {
    hide PLine, DLine, Leaves, Taken, ItemsOf, PRedirs, Wrap, DExec;
    LineDerived(ts[1..]);
    var d, us := PLine(ts[1..]).cmd, PLine(ts[1..]).rest;
    RedirsDerived(us[1..]);
    var r := PBlock(ts);
    BlockTaken(ts, us, r.rest);
    assert BlockAt(Taken(ts, r.rest), r.cmd, |ts| - |us|, d);
    ExecForms(Taken(ts, r.rest), r.cmd);
  }

  lemma BlockTaken(ts: seq<Token>, us: seq<Token>, rest: seq<Token>)
    requires ts != [] && Leaves(ts[1..], us) && us != [] && Leaves(us[1..], rest)
    ensures Leaves(ts, rest)
    ensures var pre, k := Taken(ts, rest), |ts| - |us|;
            && 0 < k < |pre| && pre[0] == ts[0] && pre[k] == us[0]
            && pre[1..k] == Taken(ts[1..], us) && pre[k + 1..] == Taken(us[1..], rest)
  {
    assert Leaves(ts, ts[1..]);
    LeavesTrans(ts, ts[1..], us);
    Joined(ts, us, rest);
    var pre, k := Taken(ts, rest), |ts| - |us|;
    assert pre[1..k] == pre[..k][1..];
  }

  lemma {:induction false} PipeDerived(ts: seq<Token>)
    requires PPipe(ts).Ok?
    ensures var r := PPipe(ts); Leaves(ts, r.rest) && DPipe(Taken(ts, r.rest), r.cmd)
    decreases |ts|, 2
  {
    hide PExec, DExec;
    ExecDerived(ts);
    var c, us := PExec(ts).cmd, PExec(ts).rest;
    if Next(us, "|") {
      PipeDerived(us[1..]);
      Joined(ts, us, PPipe(ts).rest);
    }
  }

  lemma {:induction false} BacksDerived(c: Cmd, pre: seq<Token>, us: seq<Token>)
    requires DBacks(pre, c)
    ensures var (d, rest) := PBacks(c, us); Leaves(us, rest) && DBacks(pre + Taken(us, rest), d)
    decreases |us|
  {
    hide DPipe, DExec, DBlock, DSimple, MoreWords, DLine;
    var (d, rest) := PBacks(c, us);
    if Next(us, "&") {
      var pre' := pre + [us[0]];
      assert pre'[..|pre|] == pre && pre'[|pre|] == us[0];
      assert DBacks(pre', Back(c));
      BacksDerived(Back(c), pre', us[1..]);
      assert Leaves(us, us[1..]) && Taken(us, us[1..]) == [us[0]];
      LeavesTrans(us, us[1..], rest);
      assert pre' + Taken(us[1..], rest) == pre + Taken(us, rest);
    } else {
      assert pre + Taken(us, rest) == pre;
    }
  }

  lemma {:induction false} LineDerived(ts: seq<Token>)
    requires PLine(ts).Ok?
    ensures var r := PLine(ts); Leaves(ts, r.rest) && DLine(Taken(ts, r.rest), r.cmd)
    decreases |ts|, 3
  {
    hide PPipe, DPipe, DBacks, PBacks, DLine, Taken, Leaves;
    PipeDerived(ts);
    var c0, us := PPipe(ts).cmd, PPipe(ts).rest;
    PipeIsBacks(Taken(ts, us), c0);
    BacksDerived(c0, Taken(ts, us), us);
    var (c, vs) := PBacks(c0, us);
    LeavesTrans(ts, us, vs);
    if Next(vs, ";") {
      LineDerived(vs[1..]);
      Joined(ts, vs, PLine(ts).rest);
      TwoLines(Taken(ts, PLine(ts).rest), |ts| - |vs|, c, PLine(vs[1..]).cmd);
    } else {
      BacksIsLine(Taken(ts, vs), c);
    }
  }

  lemma TwoLines(ts: seq<Token>, k: int, c: Cmd, d: Cmd)
    requires 0 <= k < |ts| && ts[k].kind == ';' && DBacks(ts[..k], c) && DLine(ts[k + 1..], d)
    ensures DLine(ts, Listed(c, d))
  {
    hide DBacks;
  }

  lemma BacksIsLine(ts: seq<Token>, c: Cmd)
    requires DBacks(ts, c)
    ensures DLine(ts, c)
  {
    hide DBacks;
  }

  lemma PipeIsBacks(ts: seq<Token>, c: Cmd)
    requires DPipe(ts, c)
    ensures DBacks(ts, c)
  {
  }

  /** The parser accepts a line exactly if the grammar derives a command from it, and then
      returns that command: the grammar is unambiguous. */
  lemma ParserIsGrammar(ts: seq<Token>, c: Cmd)
    ensures PCmd(ts) == Some(c) <==> DLine(ts, c)
  {
    hide PLine, DLine;
    if DLine(ts, c) {
      LineParse(ts, c, []);
      assert ts + [] == ts;
    }
    if PCmd(ts) == Some(c) {
      LineDerived(ts);
      assert Taken(ts, []) == ts;
    }
  }

  // ---------------------------------------------------------------- >> is >

  /** Every >> becomes a >. */
  function Plain(ts: seq<Token>): (us: seq<Token>)
    ensures |us| == |ts| && forall i :: 0 <= i < |ts| ==>
                                          us[i] == (if ts[i].kind == '+' then ts[i].(kind := '>') else ts[i])
  {
    seq(|ts|, i requires 0 <= i < |ts| => if ts[i].kind == '+' then ts[i].(kind := '>') else ts[i])
  }

  function PlainResult(r: Result): Result {
    match r
    case Ok(c, rest) => Ok(c, Plain(rest))
    case Fail => Fail
  }

  lemma PlainFrom(ts: seq<Token>, k: nat)
    requires k <= |ts|
    ensures Plain(ts)[k..] == Plain(ts[k..])
  {
  }

  lemma {:induction false} PlainRedirs(ts: seq<Token>)
    ensures PRedirs(Plain(ts)) ==
            (match PRedirs(ts) case Redirs(rs, rest) => Redirs(rs, Plain(rest)) case NoFile => NoFile)
    decreases |ts|
  {
    if Next(ts, "<>") && |ts| >= 2 {
      PlainFrom(ts, 2);
      PlainRedirs(ts[2..]);
    }
  }

  lemma {:induction false} PlainItems(argv: seq<Word>, rs: seq<Redirection>, ts: seq<Token>)
    ensures PItems(argv, rs, Plain(ts)) == PlainResult(PItems(argv, rs, ts))
    decreases |ts|
  {
    hide PRedirs, Wrap;
    PlainRedirs(ts);
    if PRedirs(ts).Redirs? {
      var more, us := PRedirs(ts).rs, PRedirs(ts).rest;
      if us != [] {
        PlainFrom(us, 1);
        PlainItems(argv + [WordOf(us[0])], rs + more, us[1..]);
      }
    }
  }

  lemma {:induction false} PlainExec(ts: seq<Token>)
    ensures PExec(Plain(ts)) == PlainResult(PExec(ts))
    decreases |ts|, 1
  {
    hide PLine, PRedirs, Wrap, PItems;
    PlainItems([], [], ts);
    if Next(ts, "(") {
      PlainFrom(ts, 1);
      PlainLine(ts[1..]);
      if PLine(ts[1..]).Ok? && PLine(ts[1..]).rest != [] {
        var us := PLine(ts[1..]).rest;
        PlainFrom(us, 1);
        PlainRedirs(us[1..]);
      }
    }
  }

  lemma {:induction false} PlainPipe(ts: seq<Token>)
    ensures PPipe(Plain(ts)) == PlainResult(PPipe(ts))
    decreases |ts|, 2
  {
    hide PExec;
    PlainExec(ts);
    if PExec(ts).Ok? && Next(PExec(ts).rest, "|") {
      var us := PExec(ts).rest;
      PlainFrom(us, 1);
      PlainPipe(us[1..]);
    }
  }

  lemma {:induction false} PlainBacks(c: Cmd, ts: seq<Token>)
    ensures PBacks(c, Plain(ts)) == (PBacks(c, ts).0, Plain(PBacks(c, ts).1))
    decreases |ts|
  {
    if Next(ts, "&") {
      PlainFrom(ts, 1);
      PlainBacks(Back(c), ts[1..]);
    }
  }

  lemma {:induction false} PlainLine(ts: seq<Token>)
    ensures PLine(Plain(ts)) == PlainResult(PLine(ts))
    decreases |ts|, 3
  {
    hide PPipe, PBacks;
    PlainPipe(ts);
    if PPipe(ts).Ok? {
      PlainBacks(PPipe(ts).cmd, PPipe(ts).rest);
      var vs := PBacks(PPipe(ts).cmd, PPipe(ts).rest).1;
      if Next(vs, ";") {
        PlainFrom(vs, 1);
        PlainLine(vs[1..]);
      }
    }
  }

  /** A line parses to the same command with > in place of every >>. */
  lemma AppendIsWrite(ts: seq<Token>)
    ensures PCmd(Plain(ts)) == PCmd(ts)
  {
    PlainLine(ts);
  }
}
