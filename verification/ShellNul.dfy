/** nulterminate of user/sh.c: it turns every word of a parsed line into a C string of its own. */
module ShellNul {
  import opened Common
  import opened ShellLex
  import opened ShellParse

  /** The words a command points at. */
  ghost function Words(c: Cmd): set<Word> {
    match c
    case Exec(argv) => set w | w in argv
    case Redir(d, f, _, _) => Words(d) + {f}
    case Piped(l, r) => Words(l) + Words(r)
    case Listed(l, r) => Words(l) + Words(r)
    case Back(d) => Words(d)
  }

  ghost predicate IsEnd(ws: set<Word>, k: int) {
    exists w :: w in ws && w.eq == k
  }

  /** s with NUL at the ends of the words. */
  ghost function Cut(s: string, ws: set<Word>): (r: string)
    ensures |r| == |s| && forall k :: 0 <= k < |s| ==> r[k] == if IsEnd(ws, k) then NUL else s[k]
  {
    seq(|s|, k requires 0 <= k < |s| => if IsEnd(ws, k) then NUL else s[k])
  }

  ghost predicate Inside(ws: set<Word>, n: int) {
    forall w :: w in ws ==> w.eq < n
  }

  lemma CutTwice(s: string, a: set<Word>, b: set<Word>)
    ensures Cut(Cut(s, a), b) == Cut(s, a + b)
  {
  }

  /** nulterminate: NUL is written at the end of every word of the command, and nowhere else. */
  method NulTerminate(buf: array<char>, cmd: Cmd)
    requires Inside(Words(cmd), buf.Length)
    modifies buf
    ensures buf[..] == Cut(old(buf[..]), Words(cmd))
  {
    match cmd
    case Exec(argv) =>
      EndWords(buf, argv);
    case Redir(d, f, _, _) =>
      assert f in Words(cmd);
      NulTerminate(buf, d);
      ghost var s := buf[..];
      buf[f.eq] := NUL;
      CutOne(s, f);
      assert buf[..] == s[f.eq := NUL];
      CutTwice(old(buf[..]), Words(d), {f});
    case Piped(l, r) =>
      NulTerminate(buf, l);
      NulTerminate(buf, r);
      CutTwice(old(buf[..]), Words(l), Words(r));
    case Listed(l, r) =>
      NulTerminate(buf, l);
      NulTerminate(buf, r);
      CutTwice(old(buf[..]), Words(l), Words(r));
    case Back(d) =>
      NulTerminate(buf, d);
  }

  lemma CutOne(s: string, f: Word)
    requires f.eq < |s|
    ensures Cut(s, {f}) == s[f.eq := NUL]
  {
  }

  /** The EXEC case: one NUL for each argument. */
  method EndWords(buf: array<char>, argv: seq<Word>)
    requires forall k :: 0 <= k < |argv| ==> argv[k].eq < buf.Length
    modifies buf
    ensures buf[..] == Cut(old(buf[..]), set w | w in argv)
  {
    var i := 0;
    ghost var seen: set<Word> := {};
    assert buf[..] == Cut(old(buf[..]), {});
    while i < |argv|
      invariant 0 <= i <= |argv| && seen == (set w | w in argv[..i]) && buf[..] == Cut(old(buf[..]), seen)
    {
      ghost var s := buf[..];
      buf[argv[i].eq] := NUL;
      assert buf[..] == s[argv[i].eq := NUL];
      CutOne(s, argv[i]);
      CutTwice(old(buf[..]), seen, {argv[i]});
      assert argv[..i + 1] == argv[..i] + [argv[i]];
      seen := seen + {argv[i]};
      i := i + 1;
    }
    assert argv[..i] == argv;
  }

  // ---------------------------------------------------------------- the words of a parsed command are tokens

  ghost predicate Sub(us: seq<Token>, ts: seq<Token>) {
    forall x :: x in us ==> x in ts
  }

  ghost predicate IsToken(w: Word, ts: seq<Token>) {
    Token('a', w.q, w.eq) in ts
  }

  ghost predicate AreTokens(ws: set<Word>, ts: seq<Token>) {
    forall w :: w in ws ==> IsToken(w, ts)
  }

  ghost predicate FilesAreTokens(rs: seq<Redirection>, ts: seq<Token>) {
    forall k :: 0 <= k < |rs| ==> IsToken(rs[k].file, ts)
  }

  ghost predicate From(r: Result, all: seq<Token>) {
    r.Ok? ==> AreTokens(Words(r.cmd), all) && Sub(r.rest, all)
  }

  lemma {:induction false} RedirsFrom(ts: seq<Token>, all: seq<Token>)
    requires Sub(ts, all)
    ensures PRedirs(ts).Redirs? ==> FilesAreTokens(PRedirs(ts).rs, all) && Sub(PRedirs(ts).rest, all)
    decreases |ts|
  {
    if Next(ts, "<>") && |ts| >= 2 && ts[1].kind == 'a' {
      RedirsFrom(ts[2..], all);
      assert ts[1] in ts;
      assert ts[1] == Token('a', ts[1].q, ts[1].eq);
    }
  }

  lemma {:induction false} WrapFrom(c: Cmd, rs: seq<Redirection>, all: seq<Token>)
    requires AreTokens(Words(c), all) && FilesAreTokens(rs, all)
    ensures AreTokens(Words(Wrap(c, rs)), all)
    decreases |rs|
  {
    if rs != [] {
      WrapFrom(Redir(c, rs[0].file, rs[0].mode, rs[0].fd), rs[1..], all);
    }
  }

  lemma {:induction false} ItemsFrom(argv: seq<Word>, rs: seq<Redirection>, ts: seq<Token>, all: seq<Token>)
    requires Sub(ts, all) && FilesAreTokens(rs, all) && forall k :: 0 <= k < |argv| ==> IsToken(argv[k], all)
    ensures From(PItems(argv, rs, ts), all)
    decreases |ts|
  {
    hide IsToken;
    RedirsFrom(ts, all);
    if PRedirs(ts).Redirs? {
      var more, us := PRedirs(ts).rs, PRedirs(ts).rest;
      if us == [] || Next(us, "|)&;") {
        WrapFrom(Exec(argv), rs + more, all);
      } else if us[0].kind == 'a' && |argv| + 1 < MAXARGS {
        FirstIsToken(us, all);
        ItemsFrom(argv + [WordOf(us[0])], rs + more, us[1..], all);
      }
    }
  }

  lemma FirstIsToken(us: seq<Token>, all: seq<Token>)
    requires Sub(us, all) && us != [] && us[0].kind == 'a'
    ensures IsToken(WordOf(us[0]), all)
  {
  }

  lemma {:induction false} ExecFrom(ts: seq<Token>, all: seq<Token>)
    requires Sub(ts, all)
    ensures From(PExec(ts), all)
    decreases |ts|, 1
  {
    hide PItems, IsToken;
    if Next(ts, "(") {
      LineFrom(ts[1..], all);
      var r := PLine(ts[1..]);
      if r.Ok? && Next(r.rest, ")") {
        RedirsFrom(r.rest[1..], all);
        var rs := PRedirs(r.rest[1..]);
        if rs.Redirs? {
          WrapFrom(r.cmd, rs.rs, all);
        }
      }
    } else {
      ItemsFrom([], [], ts, all);
    }
  }

  lemma {:induction false} PipeFrom(ts: seq<Token>, all: seq<Token>)
    requires Sub(ts, all)
    ensures From(PPipe(ts), all)
    decreases |ts|, 2
  {
    hide PExec, IsToken;
    ExecFrom(ts, all);
    var r := PExec(ts);
    if r.Ok? && Next(r.rest, "|") {
      PipeFrom(r.rest[1..], all);
    }
  }

  lemma {:induction false} BacksFrom(c: Cmd, ts: seq<Token>, all: seq<Token>)
    requires Sub(ts, all) && AreTokens(Words(c), all)
    ensures Sub(PBacks(c, ts).1, all) && AreTokens(Words(PBacks(c, ts).0), all)
    decreases |ts|
  {
    if Next(ts, "&") {
      BacksFrom(Back(c), ts[1..], all);
    }
  }

  /** Every word of the parsed command is a word token of the line. */
  lemma {:induction false} LineFrom(ts: seq<Token>, all: seq<Token>)
    requires Sub(ts, all)
    ensures From(PLine(ts), all)
    decreases |ts|, 3
  {
    hide PPipe, IsToken;
    PipeFrom(ts, all);
    var r := PPipe(ts);
    if r.Ok? {
      BacksFrom(r.cmd, r.rest, all);
      var (c, vs) := PBacks(r.cmd, r.rest);
      if Next(vs, ";") {
        LineFrom(vs[1..], all);
      }
    }
  }

  // ---------------------------------------------------------------- what the pointers read as

  /** From q on, s reads as the C string `text`. */
  predicate Reads(s: string, q: nat, text: string) {
    q + |text| < |s| && s[q..q + |text|] == text && NUL !in text && s[q + |text|] == NUL
  }

  /** No NUL is written inside a word: all words end where no word goes on. */
  lemma WordsSurvive(line: string, ws: set<Word>, w: Word)
    requires Line(line) && w in ws && forall v :: v in ws ==> WordAt(line, v.q, v.eq)
    ensures w.q <= w.eq <= |line| && Reads(Cut(line + [NUL], ws), w.q, line[w.q..w.eq])
  {
  }

  /** parsecmd: the command the grammar gives to the line, with every argv and file pointer
      reading as exactly its word; None is the panic on a syntax error. */
  method ParseCommand(buf: array<char>, n: nat) returns (r: Option<Cmd>)
    requires n + 1 == buf.Length && buf[n] == NUL && Line(buf[..n])
    modifies buf
    ensures r == PCmd(Tokens(old(buf[..n]), 0))
    ensures r.Some? ==> forall w :: w in Words(r.value) ==>
              w.q <= w.eq <= n && Reads(buf[..], w.q, old(buf[..n])[w.q..w.eq])
  {
    hide Tokens, PCmd, Cut, WordAt, Reads;
    var line := buf[..n];
    r := ParseCmd(line);
    if r.Some? {
      AllWords(line, r.value);
      assert Inside(Words(r.value), buf.Length);
      assert buf[..] == line + [NUL];
      NulTerminate(buf, r.value);
      forall w | w in Words(r.value)
        ensures w.q <= w.eq <= n && Reads(buf[..], w.q, line[w.q..w.eq])
      {
        WordsSurvive(line, Words(r.value), w);
      }
    }
  }

  lemma AllWords(line: string, c: Cmd)
    requires PCmd(Tokens(line, 0)) == Some(c)
    ensures forall w :: w in Words(c) ==> WordAt(line, w.q, w.eq) && w.eq <= |line|
  {
    hide Tokens;
    var ts := Tokens(line, 0);
    LineFrom(ts, ts);
    forall w | w in Words(c)
      ensures WordAt(line, w.q, w.eq)
    {
      assert IsToken(w, ts);
      WordTokens(line, 0, Token('a', w.q, w.eq));
    }
  }
}
