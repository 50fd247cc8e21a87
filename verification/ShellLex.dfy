/** The shell's scanner (user/sh.c: gettoken and peek) against the token sequence of a line. */
module ShellLex {

  const NUL := '\0'

  predicate Space(c: char) { c in [' ', '\t', '\r', '\n', 11 as char] }

  predicate Symbol(c: char) { c in "<|>&;()" }

  /** A line as a C string: the terminating NUL is not part of it. */
  predicate Line(line: string) { NUL !in line }

  /** line[i], where the line ends with NUL. */
  function At(line: string, i: nat): char { if i < |line| then line[i] else NUL }

  /** A token: its kind, 'a' for a word and '+' for >>, and the part of the line it covers. */
  datatype Token = Token(kind: char, q: nat, eq: nat)

  /** The first position from i on that is not white space. */
  function Skip(line: string, i: nat): (s: nat)
    requires i <= |line|
    ensures i <= s <= |line| && (s < |line| ==> !Space(line[s])) && forall k :: i <= k < s ==> Space(line[k])
    decreases |line| - i
  {
    if i < |line| && Space(line[i]) then Skip(line, i + 1) else i
  }

  predicate WordChar(c: char) { !Space(c) && !Symbol(c) }

  /** The end of the word that starts at i. */
  function WordEnd(line: string, i: nat): (e: nat)
    requires i <= |line|
    ensures i <= e <= |line| && (e < |line| ==> !WordChar(line[e])) && forall k :: i <= k < e ==> WordChar(line[k])
    decreases |line| - i
  {
    if i < |line| && WordChar(line[i]) then WordEnd(line, i + 1) else i
  }

  /** The token that starts at i. */
  function TokenAt(line: string, i: nat): (t: Token)
    requires i < |line| && !Space(line[i])
    ensures t.q == i < t.eq <= |line|
  {
    if line[i] == '>' then
      if At(line, i + 1) == '>' then Token('+', i, i + 2) else Token('>', i, i + 1)
    else if Symbol(line[i]) then Token(line[i], i, i + 1)
    else Token('a', i, WordEnd(line, i))
  }

  function Tokens(line: string, i: nat): (ts: seq<Token>)
    requires i <= |line|
    decreases |line| - i
  {
    var s := Skip(line, i);
    if s == |line| then [] else [TokenAt(line, s)] + Tokens(line, TokenAt(line, s).eq)
  }

  lemma SkipTokens(line: string, i: nat)
    requires i <= |line|
    ensures Tokens(line, Skip(line, i)) == Tokens(line, i)
  {
  }

  /** Is the next token one of toks? */
  predicate Next(ts: seq<Token>, toks: string) {
    ts != [] && (if ts[0].kind == '+' then '>' else ts[0].kind) in toks
  }

  method SkipSpace(line: string, ps: nat) returns (s: nat)
    requires ps <= |line|
    ensures s == Skip(line, ps)
  {
    s := ps;
    while s < |line| && Space(line[s])
      invariant ps <= s <= |line| && Skip(line, s) == Skip(line, ps)
    {
      s := s + 1;
    }
  }

  /** gettoken: the next token is taken off the sequence; NUL at the end of the line. */
  method GetToken(line: string, ps0: nat) returns (ret: char, q: nat, eq: nat, ps: nat)
    requires Line(line) && ps0 <= |line|
    ensures ps <= |line| && (ret == NUL <==> Tokens(line, ps0) == [])
    ensures var ts := Tokens(line, ps0);
            if ts == [] then ret == NUL && q == eq == |line| && Tokens(line, ps) == []
            else Token(ret, q, eq) == ts[0] && Tokens(line, ps) == ts[1..]
  {
    hide Space, Skip, TokenAt;
    q := SkipSpace(line, ps0);
    SkipTokens(line, ps0);
    ret, eq := Scan(line, q);
    ps := SkipSpace(line, eq);
    SkipTokens(line, eq);
  }

  /** The switch of gettoken: the kind of the token at q and where it ends. */
  method Scan(line: string, q: nat) returns (ret: char, s: nat)
    requires Line(line) && q <= |line| && (q < |line| ==> !Space(line[q]))
    ensures if q == |line| then ret == NUL && s == q else ret != NUL && Token(ret, q, s) == TokenAt(line, q)
  {
    hide Space;
    s := q;
    ret := At(line, s);
    if ret == NUL {
    } else if ret == '|' || ret == '(' || ret == ')' || ret == ';' || ret == '&' || ret == '<' {
      s := s + 1;
    } else if ret == '>' {
      s := s + 1;
      if At(line, s) == '>' {
        ret := '+';
        s := s + 1;
      }
    } else {
      ret := 'a';
      s := ScanWord(line, s);
    }
  }

  method ScanWord(line: string, q: nat) returns (s: nat)
    requires q <= |line|
    ensures s == WordEnd(line, q)
  {
    hide Space, Symbol;
    s := q;
    while s < |line| && !Space(line[s]) && !Symbol(line[s])
      invariant q <= s <= |line| && WordEnd(line, s) == WordEnd(line, q)
    {
      s := s + 1;
    }
  }

  /** peek: looks at the first character of the next token. */
  method Peek(line: string, ps0: nat, toks: string) returns (b: bool, ps: nat)
    requires Line(line) && ps0 <= |line| && forall c :: c in toks ==> Symbol(c)
    ensures ps == Skip(line, ps0) && Tokens(line, ps) == Tokens(line, ps0)
    ensures b <==> Next(Tokens(line, ps0), toks)
  {
    ps := SkipSpace(line, ps0);
    SkipTokens(line, ps0);
    b := At(line, ps) != NUL && At(line, ps) in toks;
  }

  // ---------------------------------------------------------------- where words lie

  /** From q to eq all characters belong to the word, and the one at eq does not. */
  ghost predicate WordAt(line: string, q: nat, eq: nat) {
    && q < eq <= |line| && (eq < |line| ==> !WordChar(line[eq]))
    && forall k :: q <= k < eq ==> WordChar(line[k])
  }

  lemma {:induction false} WordTokens(line: string, i: nat, t: Token)
    requires i <= |line| && t in Tokens(line, i) && t.kind == 'a'
    ensures WordAt(line, t.q, t.eq)
    decreases |line| - i
  {
    var s := Skip(line, i);
    var first := TokenAt(line, s);
    if t == first {
      assert first.kind == 'a' ==> !Symbol(line[s]);
    } else {
      WordTokens(line, first.eq, t);
    }
  }
}
