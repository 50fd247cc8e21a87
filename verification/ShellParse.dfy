/** The shell's recursive descent parser (user/sh.c): the grammar as functions on token
  sequences, and the parser with its cursor proved against them.
 */
module ShellParse {
  import opened Common
  import opened ShellLex

  const MAXARGS := 10
  const O_RDONLY := 0
  const O_WRONLY_CREATE := 0x201

  /** A word of the line: q and eq are the pointers to its ends. */
  datatype Word = Word(q: nat, eq: nat)

  datatype Cmd =
    | Exec(argv: seq<Word>)
    | Redir(cmd: Cmd, file: Word, mode: int, fd: int)
    | Piped(left: Cmd, right: Cmd)
    | Listed(left: Cmd, right: Cmd)
    | Back(cmd: Cmd)

  datatype Redirection = Redirection(file: Word, mode: int, fd: int)

  /** A command and the tokens after it, or the parser's panic. */
  datatype Result = Ok(cmd: Cmd, rest: seq<Token>) | Fail

  function WordOf(t: Token): Word { Word(t.q, t.eq) }

  function RedirectionOf(op: Token, file: Token): Redirection {
    if op.kind == '<' then Redirection(WordOf(file), O_RDONLY, 0) else Redirection(WordOf(file), O_WRONLY_CREATE, 1)
  }

  /** The redirections apply in order, the first one innermost. */
  function Wrap(c: Cmd, rs: seq<Redirection>): Cmd
    decreases |rs|
  {
    if rs == [] then c else Wrap(Redir(c, rs[0].file, rs[0].mode, rs[0].fd), rs[1..])
  }

  // ---------------------------------------------------------------- the grammar

  datatype Redirs = Redirs(rs: seq<Redirection>, rest: seq<Token>) | NoFile

  /** redirs: { (< | > | >>) word } */
  function PRedirs(ts: seq<Token>): (r: Redirs)
    ensures r.Redirs? ==> |r.rest| <= |ts| && !Next(r.rest, "<>")
  {
    if !Next(ts, "<>") then Redirs([], ts)
    else if |ts| < 2 || ts[1].kind != 'a' then NoFile
    else match PRedirs(ts[2..])
         case Redirs(rs, rest) => Redirs([RedirectionOf(ts[0], ts[1])] + rs, rest)
         case NoFile => NoFile
  }

  /** The words and redirections of a simple command; at most MAXARGS - 1 words. */
  function PItems(argv: seq<Word>, rs: seq<Redirection>, ts: seq<Token>): (r: Result)
    ensures r.Ok? ==> |r.rest| <= |ts|
    decreases |ts|
  {
    match PRedirs(ts)
    case NoFile => Fail
    case Redirs(more, us) =>
      if us == [] || Next(us, "|)&;") then Ok(Wrap(Exec(argv), rs + more), us)
      else if us[0].kind != 'a' || |argv| + 1 >= MAXARGS then Fail
      else PItems(argv + [WordOf(us[0])], rs + more, us[1..])
  }

  /** exec: block | items */
  function PExec(ts: seq<Token>): (r: Result)
    ensures r.Ok? ==> |r.rest| <= |ts|
    decreases |ts|, 1
  {
    if Next(ts, "(") then PBlock(ts) else PItems([], [], ts)
  }

  /** block: ( line ) redirs */
  function PBlock(ts: seq<Token>): (r: Result)
    requires Next(ts, "(")
    ensures r.Ok? ==> |r.rest| < |ts|
    decreases |ts|, 0
  {
    match PLine(ts[1..])
    case Fail => Fail
    case Ok(c, us) =>
      if !Next(us, ")") then Fail
      else match PRedirs(us[1..])
           case NoFile => Fail
           case Redirs(rs, rest) => Ok(Wrap(c, rs), rest)
  }

  /** pipe: exec [ | pipe ] */
  function PPipe(ts: seq<Token>): (r: Result)
    ensures r.Ok? ==> |r.rest| <= |ts|
    decreases |ts|, 2
  {
    match PExec(ts)
    case Fail => Fail
    case Ok(c, us) =>
      if !Next(us, "|") then Ok(c, us)
      else match PPipe(us[1..])
           case Fail => Fail
           case Ok(d, rest) => Ok(Piped(c, d), rest)
  }

  /** { & } */
  function PBacks(c: Cmd, ts: seq<Token>): (r: (Cmd, seq<Token>))
    ensures |r.1| <= |ts| && !Next(r.1, "&")
    decreases |ts|
  {
    if Next(ts, "&") then PBacks(Back(c), ts[1..]) else (c, ts)
  }

  /** line: pipe { & } [ ; line ] */
  function PLine(ts: seq<Token>): (r: Result)
    ensures r.Ok? ==> |r.rest| <= |ts|
    decreases |ts|, 3
  {
    match PPipe(ts)
    case Fail => Fail
    case Ok(c0, us) =>
      var (c, vs) := PBacks(c0, us);
      if !Next(vs, ";") then Ok(c, vs)
      else match PLine(vs[1..])
           case Fail => Fail
           case Ok(d, rest) => Ok(Listed(c, d), rest)
  }

  /** A whole line: nothing may be left over. */
  function PCmd(ts: seq<Token>): Option<Cmd> {
    match PLine(ts)
    case Fail => None
    case Ok(c, rest) => if rest == [] then Some(c) else None
  }

  // ---------------------------------------------------------------- the parser

  /** What a parsing function returns: the command, or None for a panic, and the cursor. */
  ghost predicate Meets(line: string, r: Option<Cmd>, ps: nat, spec: Result) {
    match spec
    case Ok(c, rest) => r == Some(c) && ps <= |line| && Tokens(line, ps) == rest
    case Fail => r == None
  }

  method ParseRedirs(line: string, ps0: nat) returns (r: Option<seq<Redirection>>, ps: nat)
    requires Line(line) && ps0 <= |line|
    ensures match PRedirs(Tokens(line, ps0))
            case Redirs(rs, rest) => r == Some(rs) && ps <= |line| && Tokens(line, ps) == rest
            case NoFile => r == None
  {
    hide Tokens, PRedirs, Further;
    ps := ps0;
    var rs: seq<Redirection> := [];
    ghost var all := PRedirs(Tokens(line, ps0));
    var b;
    b, ps := Peek(line, ps, "<>");
    NoneYet(Tokens(line, ps));
    while b
      invariant ps <= |line| && (b <==> Next(Tokens(line, ps), "<>")) && all == Further(rs, Tokens(line, ps))
      decreases |Tokens(line, ps)|
    {
      ghost var ts := Tokens(line, ps);
      var tok, tok2, q, eq;
      tok, q, eq, ps := GetToken(line, ps);
      tok2, q, eq, ps := GetToken(line, ps);
      OneMore(rs, ts);
      if tok2 != 'a' {
        return None, ps;
      }
      rs := rs + [if tok == '<' then Redirection(Word(q, eq), O_RDONLY, 0)
                  else Redirection(Word(q, eq), O_WRONLY_CREATE, 1)];
      b, ps := Peek(line, ps, "<>");
    }
    NoMore(rs, Tokens(line, ps));
    r := Some(rs);
  }

  /** The redirections rs and then those at the front of ts. */
  ghost function Further(rs: seq<Redirection>, ts: seq<Token>): Redirs {
    match PRedirs(ts)
    case Redirs(more, rest) => Redirs(rs + more, rest)
    case NoFile => NoFile
  }

  lemma NoneYet(ts: seq<Token>)
    ensures Further([], ts) == PRedirs(ts)
  {
  }

  lemma NoMore(rs: seq<Redirection>, ts: seq<Token>)
    requires !Next(ts, "<>")
    ensures Further(rs, ts) == Redirs(rs, ts)
  {
  }

  lemma OneMore(rs: seq<Redirection>, ts: seq<Token>)
    requires Next(ts, "<>")
    ensures if |ts| < 2 || ts[1].kind != 'a' then Further(rs, ts) == NoFile
            else Further(rs, ts) == Further(rs + [RedirectionOf(ts[0], ts[1])], ts[2..])
  {
  }

  /** parseexec without its parenthesised case. */
  method ParseItems(line: string, ps0: nat) returns (r: Option<Cmd>, ps: nat)
    requires Line(line) && ps0 <= |line|
    ensures Meets(line, r, ps, PItems([], [], Tokens(line, ps0)))
  {
    hide Tokens, PRedirs, Wrap;
    ps := ps0;
    var argv: seq<Word> := [];
    var rs: seq<Redirection> := [];
    while true
      invariant ps <= |line| && PItems(argv, rs, Tokens(line, ps)) == PItems([], [], Tokens(line, ps0))
      decreases |Tokens(line, ps)|
    {
      ghost var ts := Tokens(line, ps);
      var more;
      more, ps := ParseRedirs(line, ps);
      if more.None? {
        return None, ps;
      }
      ghost var us := Tokens(line, ps);
      var b;
      b, ps := Peek(line, ps, "|)&;");
      if b {
        return Some(Wrap(Exec(argv), rs + more.value)), ps;
      }
      var tok, q, eq;
      tok, q, eq, ps := GetToken(line, ps);
      if tok == NUL {
        return Some(Wrap(Exec(argv), rs + more.value)), ps;
      }
      if tok != 'a' {
        return None, ps;
      }
      argv := argv + [Word(q, eq)];
      if |argv| >= MAXARGS {
        return None, ps;
      }
      rs := rs + more.value;
    }
  }

  /** parseexec */
  method ParseExec(line: string, ps0: nat) returns (r: Option<Cmd>, ps: nat)
    requires Line(line) && ps0 <= |line|
    ensures Meets(line, r, ps, PExec(Tokens(line, ps0)))
    decreases |Tokens(line, ps0)|, 1
  {
    hide Tokens, PItems, PBlock;
    var b;
    b, ps := Peek(line, ps0, "(");
    if b {
      r, ps := ParseBlock(line, ps);
    } else {
      r, ps := ParseItems(line, ps);
    }
  }

  /** parseblock, called with an opening parenthesis next: its first panic cannot happen. */
  method ParseBlock(line: string, ps0: nat) returns (r: Option<Cmd>, ps: nat)
    requires Line(line) && ps0 <= |line| && Next(Tokens(line, ps0), "(")
    ensures Meets(line, r, ps, PBlock(Tokens(line, ps0)))
    decreases |Tokens(line, ps0)|, 0
  {
    hide Tokens, PLine, PRedirs;
    var b, tok, q, eq, rs;
    b, ps := Peek(line, ps0, "(");
    assert b;  // panic("parseblock")
    tok, q, eq, ps := GetToken(line, ps);
    r, ps := ParseLine(line, ps);
    if r.None? {
      return;
    }
    b, ps := Peek(line, ps, ")");
    if !b {
      return None, ps;
    }
    tok, q, eq, ps := GetToken(line, ps);
    rs, ps := ParseRedirs(line, ps);
    r := if rs.None? then None else Some(Wrap(r.value, rs.value));
  }

  /** parsepipe */
  method ParsePipe(line: string, ps0: nat) returns (r: Option<Cmd>, ps: nat)
    requires Line(line) && ps0 <= |line|
    ensures Meets(line, r, ps, PPipe(Tokens(line, ps0)))
    decreases |Tokens(line, ps0)|, 2
  {
    hide Tokens, PExec;
    r, ps := ParseExec(line, ps0);
    if r.None? {
      return;
    }
    var b;
    b, ps := Peek(line, ps, "|");
    if b {
      var tok, q, eq, right;
      tok, q, eq, ps := GetToken(line, ps);
      right, ps := ParsePipe(line, ps);
      r := if right.None? then None else Some(Piped(r.value, right.value));
    }
  }

  /** parseline */
  method ParseLine(line: string, ps0: nat) returns (r: Option<Cmd>, ps: nat)
    requires Line(line) && ps0 <= |line|
    ensures Meets(line, r, ps, PLine(Tokens(line, ps0)))
    decreases |Tokens(line, ps0)|, 3
  {
    hide Tokens, PPipe;
    r, ps := ParsePipe(line, ps0);
    if r.None? {
      return;
    }
    var b, cmd := true, r.value;
    ghost var all := PBacks(cmd, Tokens(line, ps));
    b, ps := Peek(line, ps, "&");
    while b
      invariant ps <= |line| && (b <==> Next(Tokens(line, ps), "&")) && PBacks(cmd, Tokens(line, ps)) == all
      decreases |Tokens(line, ps)|
    {
      var tok, q, eq;
      tok, q, eq, ps := GetToken(line, ps);
      cmd := Back(cmd);
      b, ps := Peek(line, ps, "&");
    }
    r := Some(cmd);
    b, ps := Peek(line, ps, ";");
    if b {
      var tok, q, eq, right;
      tok, q, eq, ps := GetToken(line, ps);
      right, ps := ParseLine(line, ps);
      r := if right.None? then None else Some(Listed(cmd, right.value));
    }
  }

  /** parsecmd before nulterminate: the command, if the whole line was consumed. */
  method ParseCmd(line: string) returns (r: Option<Cmd>)
    requires Line(line)
    ensures r == PCmd(Tokens(line, 0))
  {
    hide Tokens, PLine;
    var ps, b;
    r, ps := ParseLine(line, 0);
    if r.None? {
      return;
    }
    b, ps := Peek(line, ps, "");
    AllConsumed(line, ps);
    if ps != |line| {
      return None;  // leftovers
    }
  }

  /** After skipping white space, the cursor is at the end exactly if no token is left. */
  lemma AllConsumed(line: string, ps: nat)
    requires ps <= |line| && Skip(line, ps) == ps
    ensures ps == |line| <==> Tokens(line, ps) == []
  {
  }
}
