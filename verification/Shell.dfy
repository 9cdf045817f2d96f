// The shell's parser (sh.c): recursive descent over a character buffer, giving a command tree whose words
// are spans of the buffer, and the pass that terminates those words in place.

module Shell {
  import opened Common

  const MAXARGS := 10
  const NUL := '\0'

  datatype Dir = In | Out // "<": O_RDONLY on fd 0; ">" and ">>": O_WRONLY|O_CREATE on fd 1

  datatype Cmd<W> =
    | Exec(argv: seq<W>)
    | Redir(cmd: Cmd<W>, file: W, dir: Dir)
    | Pipe(left: Cmd<W>, right: Cmd<W>)
    | List(left: Cmd<W>, right: Cmd<W>)
    | Back(cmd: Cmd<W>)

  // A word in the buffer: from q up to, not including, eq.
  datatype Span = Span(q: nat, eq: nat)

  predicate White(c: char) { c == ' ' || c == '\t' || c == '\r' || c == '\n' || c == '\U{00000B}' }

  predicate Symbol(c: char) { c in "<|>&;()" }

  // A character of a word. The buffer's text has no NUL.
  predicate Plain(c: char) { c != NUL && !White(c) && !Symbol(c) }

  // The character at i; the text is followed by a NUL.
  function At(buf: string, i: nat): (c: char) { if i < |buf| then buf[i] else NUL }

  predicate Text(buf: string) { NUL !in buf }

  // ---------- gettoken and peek ----------

  function Skip(buf: string, i: nat): (j: nat)
    requires i <= |buf|
    ensures i <= j <= |buf| && !White(At(buf, j)) && forall k :: i <= k < j ==> White(buf[k])
    decreases |buf| - i
  {
    if i < |buf| && White(buf[i]) then Skip(buf, i + 1) else i
  }

  function WordEnd(buf: string, i: nat): (j: nat)
    requires i <= |buf|
    ensures i <= j <= |buf| && (j < |buf| ==> White(buf[j]) || Symbol(buf[j]))
    ensures forall k :: i <= k < j ==> !White(buf[k]) && !Symbol(buf[k])
    decreases |buf| - i
  {
    if i < |buf| && !White(buf[i]) && !Symbol(buf[i]) then WordEnd(buf, i + 1) else i
  }

  // A token: what gettoken returns, the span of the token, and where it leaves *ps.
  datatype Token = Token(tok: char, span: Span, next: nat)

  function GetToken(buf: string, i: nat): (t: Token)
    requires i <= |buf|
    ensures i <= t.next <= |buf| && !White(At(buf, t.next)) && (t.tok != NUL ==> i < t.next)
  {
    var s := Skip(buf, i);
    var c := At(buf, s);
    if s == |buf| || c == NUL then Token(c, Span(s, s), s)
    else if c == '>' && At(buf, s + 1) == '>' then Token('+', Span(s, s + 2), Skip(buf, s + 2))
    else if Symbol(c) then Token(c, Span(s, s + 1), Skip(buf, s + 1))
    else var e := WordEnd(buf, s); Token('a', Span(s, e), Skip(buf, e))
  }

  // peek: where it leaves *ps, and the character there.
  function Peek(buf: string, i: nat, toks: string): (b: bool)
    requires i <= |buf|
  {
    At(buf, Skip(buf, i)) != NUL && At(buf, Skip(buf, i)) in toks
  }

  method SkipWhite(buf: string, i: nat) returns (s: nat)
    requires i <= |buf|
    ensures s == Skip(buf, i)
  {
    s := i;
    while s < |buf| && White(buf[s])
      invariant i <= s <= |buf| && Skip(buf, i) == Skip(buf, s)
    {
      s := s + 1;
    }
  }

  method ScanWord(buf: string, i: nat) returns (s: nat)
    requires i <= |buf|
    ensures s == WordEnd(buf, i)
  {
    s := i;
    while s < |buf| && !White(buf[s]) && !Symbol(buf[s])
      invariant i <= s <= |buf| && WordEnd(buf, i) == WordEnd(buf, s)
    {
      s := s + 1;
    }
  }

  method ReadToken(buf: string, ps: nat) returns (tok: char, q: nat, eq: nat, next: nat)
    requires ps <= |buf| && Text(buf)
    ensures Token(tok, Span(q, eq), next) == GetToken(buf, ps)
  {
    q := SkipWhite(buf, ps);
    tok, eq := At(buf, q), q;
    if tok != NUL {
      if tok == '>' {
        eq := q + 1;
        if At(buf, eq) == '>' {
          tok, eq := '+', q + 2;
        }
      } else if Symbol(tok) {
        eq := q + 1;
      } else {
        tok := 'a';
        eq := ScanWord(buf, q);
      }
    }
    next := SkipWhite(buf, eq);
  }

  method PeekAhead(buf: string, ps: nat, toks: string) returns (next: nat, found: bool)
    requires ps <= |buf|
    ensures next == Skip(buf, ps) && found == Peek(buf, ps, toks)
  {
    next := SkipWhite(buf, ps);
    found := At(buf, next) != NUL && At(buf, next) in toks;
  }

  // ---------- the parser ----------

  type Tree = Cmd<Span>

  // A tree and the position after it; Err is a call of panic.
  datatype Result = Ok(cmd: Tree, pos: nat) | Err

  // parseredirs.
  function ParseRedirs(buf: string, cmd: Tree, i: nat): (r: Result)
    requires i <= |buf|
    ensures r.Ok? ==> i <= r.pos <= |buf| && !White(At(buf, r.pos)) && !(At(buf, r.pos) in "<>")
    decreases |buf| - i
  {
    if !Peek(buf, i, "<>") then Ok(cmd, Skip(buf, i))
    else
      var t := GetToken(buf, Skip(buf, i));
      var f := GetToken(buf, t.next);
      if f.tok != 'a' then Err
      else ParseRedirs(buf, Redir(cmd, f.span, if t.tok == '<' then In else Out), f.next)
  }

  // The redirections around an exec node, with the words seen so far in it.
  function AddArg<W>(cmd: Cmd<W>, w: W): (r: Cmd<W>) {
    match cmd
    case Exec(argv) => Exec(argv + [w])
    case Redir(c, f, d) => Redir(AddArg(c, w), f, d)
    case _ => cmd
  }

  // The loop of parseexec; ret is the exec node inside its redirections.
  function ParseArgs(buf: string, ret: Tree, argc: nat, i: nat): (r: Result)
    requires i <= |buf|
    ensures r.Ok? ==> i <= r.pos <= |buf| && !White(At(buf, r.pos))
    decreases |buf| - i
  {
    if Peek(buf, i, "|)&;") then Ok(ret, Skip(buf, i))
    else
      var t := GetToken(buf, Skip(buf, i));
      if t.tok == NUL then Ok(ret, t.next)
      else if t.tok != 'a' || argc + 1 >= MAXARGS then Err
      else
        var d := ParseRedirs(buf, AddArg(ret, t.span), t.next);
        if d.Err? then Err else ParseArgs(buf, d.cmd, argc + 1, d.pos)
  }

  function ParseLine(buf: string, i: nat): (r: Result)
    requires i <= |buf|
    ensures r.Ok? ==> i <= r.pos <= |buf|
    decreases |buf| - i, 4
  {
    var p := ParsePipe(buf, i);
    if p.Err? then Err
    else
      var b := ParseBacks(buf, p.cmd, p.pos);
      if At(buf, b.pos) != ';' then b
      else
        var l := ParseLine(buf, GetToken(buf, b.pos).next);
        if l.Err? then Err else Ok(List(b.cmd, l.cmd), l.pos)
  }

  function ParseBacks(buf: string, cmd: Tree, i: nat): (r: Result)
    requires i <= |buf|
    ensures r.Ok? && i <= r.pos <= |buf|
    decreases |buf| - i, 0
  {
    if Peek(buf, i, "&") then ParseBacks(buf, Back(cmd), GetToken(buf, Skip(buf, i)).next) else Ok(cmd, Skip(buf, i))
  }

  function ParsePipe(buf: string, i: nat): (r: Result)
    requires i <= |buf|
    ensures r.Ok? ==> i <= r.pos <= |buf|
    decreases |buf| - i, 3
  {
    var e := ParseExec(buf, i);
    if e.Err? then Err
    else if !Peek(buf, e.pos, "|") then Ok(e.cmd, Skip(buf, e.pos))
    else
      var p := ParsePipe(buf, GetToken(buf, Skip(buf, e.pos)).next);
      if p.Err? then Err else Ok(Pipe(e.cmd, p.cmd), p.pos)
  }

  function ParseExec(buf: string, i: nat): (r: Result)
    requires i <= |buf|
    ensures r.Ok? ==> i <= r.pos <= |buf|
    decreases |buf| - i, 2
  {
    if Peek(buf, i, "(") then ParseBlock(buf, Skip(buf, i))
    else
      var d := ParseRedirs(buf, Exec([]), Skip(buf, i));
      if d.Err? then Err else ParseArgs(buf, d.cmd, 0, d.pos)
  }

  function ParseBlock(buf: string, i: nat): (r: Result)
    requires i <= |buf|
    ensures r.Ok? ==> i <= r.pos <= |buf|
    decreases |buf| - i, 1
  {
    if !Peek(buf, i, "(") then Err
    else
      var l := ParseLine(buf, GetToken(buf, Skip(buf, i)).next);
      if l.Err? || !Peek(buf, l.pos, ")") then Err
      else ParseRedirs(buf, l.cmd, GetToken(buf, Skip(buf, l.pos)).next)
  }

  // parsecmd, before the words are terminated.
  function ParseCmd(buf: string): (r: Result) {
    var l := ParseLine(buf, 0);
    if l.Ok? && Skip(buf, l.pos) == |buf| then l else Err
  }

  // The same as the code has it: loops over *ps where parseredirs, parseexec and parseline loop.
  method TakesRedirs(buf: string, cmd: Tree, ps: nat) returns (r: Result)
    requires ps <= |buf| && Text(buf)
    ensures r == ParseRedirs(buf, cmd, ps)
  {
    var c, i := cmd, ps;
    var next, more := PeekAhead(buf, i, "<>");
    while more
      invariant i <= next <= |buf| && ParseRedirs(buf, cmd, ps) == ParseRedirs(buf, c, i)
      invariant next == Skip(buf, i) && more == Peek(buf, i, "<>")
      decreases |buf| - i
    {
      var op, q0, eq0, file := ReadToken(buf, next);
      var tok, q, eq, after := ReadToken(buf, file);
      if tok != 'a' {
        return Err;
      }
      c, i := Redir(c, Span(q, eq), if op == '<' then In else Out), after;
      next, more := PeekAhead(buf, i, "<>");
    }
    return Ok(c, next);
  }

  method TakesArgs(buf: string, ret: Tree, ps: nat) returns (r: Result)
    requires ps <= |buf| && Text(buf)
    ensures r == ParseArgs(buf, ret, 0, ps)
  {
    hide Skip, WordEnd, GetToken, ParseRedirs, AddArg;
    var c, i, argc := ret, ps, 0;
    var next, stop := PeekAhead(buf, i, "|)&;");
    while !stop
      invariant i <= next <= |buf| && ParseArgs(buf, ret, 0, ps) == ParseArgs(buf, c, argc, i)
      invariant next == Skip(buf, i) && stop == Peek(buf, i, "|)&;")
      decreases |buf| - i
    {
      var tok, q, eq, after := ReadToken(buf, next);
      if tok == NUL {
        return Ok(c, after);
      }
      if tok != 'a' || argc + 1 >= MAXARGS {
        return Err;
      }
      var d := TakesRedirs(buf, AddArg(c, Span(q, eq)), after);
      if d.Err? {
        return Err;
      }
      c, i, argc := d.cmd, d.pos, argc + 1;
      next, stop := PeekAhead(buf, i, "|)&;");
    }
    return Ok(c, next);
  }

  method TakesBacks(buf: string, cmd: Tree, ps: nat) returns (c: Tree, next: nat)
    requires ps <= |buf| && Text(buf)
    ensures Ok(c, next) == ParseBacks(buf, cmd, ps) && next <= |buf|
  {
    var i, more := ps, false;
    c := cmd;
    next, more := PeekAhead(buf, i, "&");
    while more
      invariant i <= next <= |buf| && ParseBacks(buf, cmd, ps) == ParseBacks(buf, c, i)
      invariant next == Skip(buf, i) && more == Peek(buf, i, "&")
      decreases |buf| - i
    {
      var tok, q, eq, after := ReadToken(buf, next);
      c, i := Back(c), after;
      next, more := PeekAhead(buf, i, "&");
    }
  }

  method TakesLine(buf: string, ps: nat) returns (r: Result)
    requires ps <= |buf| && Text(buf)
    ensures r == ParseLine(buf, ps)
    decreases |buf| - ps, 4
  {
    hide Skip, WordEnd, GetToken, ParseBacks;
    r := TakesPipe(buf, ps);
    if r.Err? {
      return;
    }
    var c, i := TakesBacks(buf, r.cmd, r.pos);
    BacksSkipped(buf, r.cmd, r.pos);
    var next, more := PeekAhead(buf, i, ";");
    r := Ok(c, i);
    if more {
      var tok, q, eq, after := ReadToken(buf, next);
      OpensOn(buf, i, next);
      var l := TakesLine(buf, after);
      r := if l.Err? then Err else Ok(List(c, l.cmd), l.pos);
    }
  }

  lemma {:induction false} BacksSkipped(buf: string, cmd: Tree, i: nat)
    requires i <= |buf|
    ensures var p := ParseBacks(buf, cmd, i).pos; Skip(buf, p) == p
    decreases |buf| - i
  {
    if Peek(buf, i, "&") { BacksSkipped(buf, Back(cmd), GetToken(buf, Skip(buf, i)).next); }
  }

  method TakesPipe(buf: string, ps: nat) returns (r: Result)
    requires ps <= |buf| && Text(buf)
    ensures r == ParsePipe(buf, ps)
    decreases |buf| - ps, 3
  {
    hide Skip, WordEnd, GetToken;
    r := TakesExec(buf, ps);
    if r.Err? {
      return;
    }
    var next, more := PeekAhead(buf, r.pos, "|");
    if !more {
      return Ok(r.cmd, next);
    }
    var tok, q, eq, after := ReadToken(buf, next);
    OpensOn(buf, r.pos, next);
    var p := TakesPipe(buf, after);
    r := if p.Err? then Err else Ok(Pipe(r.cmd, p.cmd), p.pos);
  }

  method TakesExec(buf: string, ps: nat) returns (r: Result)
    requires ps <= |buf| && Text(buf)
    ensures r == ParseExec(buf, ps)
    decreases |buf| - ps, 2
  {
    hide Skip, WordEnd, GetToken, ParseRedirs, ParseArgs;
    var next, block := PeekAhead(buf, ps, "(");
    if block {
      r := TakesBlock(buf, next);
      return;
    }
    r := TakesRedirs(buf, Exec([]), next);
    if r.Ok? {
      r := TakesArgs(buf, r.cmd, r.pos);
    }
  }

  method TakesBlock(buf: string, ps: nat) returns (r: Result)
    requires ps <= |buf| && Text(buf)
    ensures r == ParseBlock(buf, ps)
    decreases |buf| - ps, 1
  {
    hide Skip, WordEnd, GetToken, ParseRedirs;
    var next, open := PeekAhead(buf, ps, "(");
    if !open {
      return Err;
    }
    var tok, q, eq, inside := ReadToken(buf, next);
    OpensOn(buf, ps, next);
    r := TakesLine(buf, inside);
    if r.Err? {
      return;
    }
    var close: bool;
    var cmd := r.cmd;
    next, close := PeekAhead(buf, r.pos, ")");
    if !close {
      return Err;
    }
    var after;
    tok, q, eq, after := ReadToken(buf, next);
    r := TakesRedirs(buf, cmd, after);
  }

  // A token that peek has seen moves the position on.
  lemma {:induction false} OpensOn(buf: string, i: nat, s: nat)
    requires i <= |buf| && s == Skip(buf, i) && Text(buf) && At(buf, s) != NUL
    ensures GetToken(buf, s).next > i
  {
  }

  // ---------- the words of a parsed tree ----------

  // A maximal run of word characters.
  predicate SpanOk(buf: string, w: Span) {
    w.q < w.eq <= |buf| && (forall k :: w.q <= k < w.eq ==> Plain(buf[k])) && !Plain(At(buf, w.eq))
  }

  predicate SpansOk(buf: string, cmd: Tree) {
    match cmd
    case Exec(argv) => |argv| < MAXARGS && forall j :: 0 <= j < |argv| ==> SpanOk(buf, argv[j])
    case Redir(c, f, _) => SpansOk(buf, c) && SpanOk(buf, f)
    case Pipe(l, r) => SpansOk(buf, l) && SpansOk(buf, r)
    case List(l, r) => SpansOk(buf, l) && SpansOk(buf, r)
    case Back(c) => SpansOk(buf, c)
  }

  lemma {:induction false} TokenSpan(buf: string, i: nat)
    requires Text(buf) && i <= |buf| && GetToken(buf, i).tok == 'a'
    ensures SpanOk(buf, GetToken(buf, i).span)
  {
    var s := Skip(buf, i);
    assert s < |buf| && !White(buf[s]) && !Symbol(buf[s]);
  }

  lemma {:induction false} RedirsSpans(buf: string, cmd: Tree, i: nat)
    requires Text(buf) && i <= |buf| && SpansOk(buf, cmd)
    ensures ParseRedirs(buf, cmd, i).Ok? ==> SpansOk(buf, ParseRedirs(buf, cmd, i).cmd)
    decreases |buf| - i
  {
    if Peek(buf, i, "<>") {
      var t := GetToken(buf, Skip(buf, i));
      var f := GetToken(buf, t.next);
      if f.tok == 'a' {
        TokenSpan(buf, t.next);
        RedirsSpans(buf, Redir(cmd, f.span, if t.tok == '<' then In else Out), f.next);
      }
    }
  }

  // An exec node with argc words, inside redirections.
  predicate Core(cmd: Tree, argc: nat) {
    match cmd
    case Exec(argv) => |argv| == argc
    case Redir(c, _, _) => Core(c, argc)
    case _ => false
  }

  lemma {:induction false} RedirsCore(buf: string, cmd: Tree, argc: nat, i: nat)
    requires i <= |buf| && Core(cmd, argc)
    ensures ParseRedirs(buf, cmd, i).Ok? ==> Core(ParseRedirs(buf, cmd, i).cmd, argc)
    decreases |buf| - i
  {
    if Peek(buf, i, "<>") {
      var t := GetToken(buf, Skip(buf, i));
      var f := GetToken(buf, t.next);
      if f.tok == 'a' {
        RedirsCore(buf, Redir(cmd, f.span, if t.tok == '<' then In else Out), argc, f.next);
      }
    }
  }

  lemma {:induction false} AddArgSpans(buf: string, cmd: Tree, argc: nat, w: Span)
    requires SpansOk(buf, cmd) && Core(cmd, argc) && SpanOk(buf, w) && argc + 1 < MAXARGS
    ensures SpansOk(buf, AddArg(cmd, w)) && Core(AddArg(cmd, w), argc + 1)
  {
    if cmd.Redir? { AddArgSpans(buf, cmd.cmd, argc, w); }
  }

  lemma {:induction false} ArgsSpans(buf: string, ret: Tree, argc: nat, i: nat)
    requires Text(buf) && i <= |buf| && SpansOk(buf, ret) && Core(ret, argc)
    ensures ParseArgs(buf, ret, argc, i).Ok? ==> SpansOk(buf, ParseArgs(buf, ret, argc, i).cmd)
    decreases |buf| - i
  {
    hide Skip, WordEnd, GetToken, ParseRedirs, SpanOk;
    var t := GetToken(buf, Skip(buf, i));
    if !Peek(buf, i, "|)&;") && t.tok == 'a' && argc + 1 < MAXARGS {
      TokenSpan(buf, Skip(buf, i));
      AddArgSpans(buf, ret, argc, t.span);
      RedirsSpans(buf, AddArg(ret, t.span), t.next);
      RedirsCore(buf, AddArg(ret, t.span), argc + 1, t.next);
      var d := ParseRedirs(buf, AddArg(ret, t.span), t.next);
      if d.Ok? { ArgsSpans(buf, d.cmd, argc + 1, d.pos); }
    }
  }

  lemma {:induction false} BacksSpans(buf: string, cmd: Tree, i: nat)
    requires i <= |buf| && SpansOk(buf, cmd)
    ensures SpansOk(buf, ParseBacks(buf, cmd, i).cmd)
    decreases |buf| - i
  {
    if Peek(buf, i, "&") { BacksSpans(buf, Back(cmd), GetToken(buf, Skip(buf, i)).next); }
  }

  // Every word of a parsed tree is a maximal run of word characters, and no command has ten arguments.
  lemma {:induction false} LineSpans(buf: string, i: nat)
    requires Text(buf) && i <= |buf|
    ensures ParseLine(buf, i).Ok? ==> SpansOk(buf, ParseLine(buf, i).cmd)
    decreases |buf| - i, 4
  {
    PipeSpans(buf, i);
    var p := ParsePipe(buf, i);
    if p.Ok? {
      BacksSpans(buf, p.cmd, p.pos);
      var b := ParseBacks(buf, p.cmd, p.pos);
      if At(buf, b.pos) == ';' { LineSpans(buf, GetToken(buf, b.pos).next); }
    }
  }

  lemma {:induction false} PipeSpans(buf: string, i: nat)
    requires Text(buf) && i <= |buf|
    ensures ParsePipe(buf, i).Ok? ==> SpansOk(buf, ParsePipe(buf, i).cmd)
    decreases |buf| - i, 3
  {
    ExecSpans(buf, i);
    var e := ParseExec(buf, i);
    if e.Ok? && Peek(buf, e.pos, "|") { PipeSpans(buf, GetToken(buf, Skip(buf, e.pos)).next); }
  }

  lemma {:induction false} ExecSpans(buf: string, i: nat)
    requires Text(buf) && i <= |buf|
    ensures ParseExec(buf, i).Ok? ==> SpansOk(buf, ParseExec(buf, i).cmd)
    decreases |buf| - i, 2
  {
    if Peek(buf, i, "(") {
      BlockSpans(buf, Skip(buf, i));
    } else {
      RedirsSpans(buf, Exec([]), Skip(buf, i));
      RedirsCore(buf, Exec([]), 0, Skip(buf, i));
      var d := ParseRedirs(buf, Exec([]), Skip(buf, i));
      if d.Ok? { ArgsSpans(buf, d.cmd, 0, d.pos); }
    }
  }

  lemma {:induction false} BlockSpans(buf: string, i: nat)
    requires Text(buf) && i <= |buf|
    ensures ParseBlock(buf, i).Ok? ==> SpansOk(buf, ParseBlock(buf, i).cmd)
    decreases |buf| - i, 1
  {
    if Peek(buf, i, "(") {
      var n := GetToken(buf, Skip(buf, i)).next;
      LineSpans(buf, n);
      var l := ParseLine(buf, n);
      if l.Ok? && Peek(buf, l.pos, ")") {
        RedirsSpans(buf, l.cmd, GetToken(buf, Skip(buf, l.pos)).next);
      }
    }
  }

  // ---------- nulterminate ----------

  predicate InTree(cmd: Tree, w: Span) {
    match cmd
    case Exec(argv) => w in argv
    case Redir(c, f, _) => w == f || InTree(c, w)
    case Pipe(l, r) => InTree(l, w) || InTree(r, w)
    case List(l, r) => InTree(l, w) || InTree(r, w)
    case Back(c) => InTree(c, w)
  }

  // Position k is just past a word of the tree.
  predicate Ends(cmd: Tree, k: int) {
    match cmd
    case Exec(argv) => exists j {:trigger argv[j]} :: 0 <= j < |argv| && argv[j].eq == k
    case Redir(c, f, _) => f.eq == k || Ends(c, k)
    case Pipe(l, r) => Ends(l, k) || Ends(r, k)
    case List(l, r) => Ends(l, k) || Ends(r, k)
    case Back(c) => Ends(c, k)
  }

  // The buffer with a NUL after every word.
  function Terminated(s: string, cmd: Tree): (r: string)
    ensures |r| == |s| && forall k :: 0 <= k < |s| ==> r[k] == if Ends(cmd, k) then NUL else s[k]
  {
    seq(|s|, k requires 0 <= k < |s| => if Ends(cmd, k) then NUL else s[k])
  }

  // Every position to be written lies in the buffer.
  predicate EndsBelow(cmd: Tree, n: int) {
    match cmd
    case Exec(argv) => forall j :: 0 <= j < |argv| ==> argv[j].eq < n
    case Redir(c, f, _) => f.eq < n && EndsBelow(c, n)
    case Pipe(l, r) => EndsBelow(l, n) && EndsBelow(r, n)
    case List(l, r) => EndsBelow(l, n) && EndsBelow(r, n)
    case Back(c) => EndsBelow(c, n)
  }

  method NulTerminate(buf: array<char>, cmd: Tree)
    requires EndsBelow(cmd, buf.Length)
    modifies buf
    ensures buf[..] == Terminated(old(buf[..]), cmd)
  {
    match cmd
    case Exec(argv) =>
      var i := 0;
      while i < |argv|
        invariant 0 <= i <= |argv|
        invariant forall k :: 0 <= k < buf.Length ==> buf[k] == if Ends(Exec(argv[..i]), k) then NUL else old(buf[k])
      {
        buf[argv[i].eq] := NUL;
        ExecEnds(argv, i);
        i := i + 1;
      }
      assert argv[..i] == argv;
    case Redir(c, f, _) =>
      NulTerminate(buf, c);
      buf[f.eq] := NUL;
    case Pipe(l, r) =>
      NulTerminate(buf, l);
      NulTerminate(buf, r);
    case List(l, r) =>
      NulTerminate(buf, l);
      NulTerminate(buf, r);
    case Back(c) =>
      NulTerminate(buf, c);
  }

  lemma {:induction false} ExecEnds(argv: seq<Span>, i: nat)
    requires i < |argv|
    ensures forall k :: Ends(Exec(argv[..i + 1]), k) <==> Ends(Exec(argv[..i]), k) || argv[i].eq == k
  {
    var a, b := argv[..i], argv[..i + 1];
    assert b == a + [argv[i]];
    forall k
      ensures Ends(Exec(b), k) <==> Ends(Exec(a), k) || argv[i].eq == k
    {
      if argv[i].eq == k { assert b[i].eq == k; }
      if Ends(Exec(a), k) {
        var j :| 0 <= j < |a| && a[j].eq == k;
        assert b[j].eq == k;
      }
    }
  }

  // The C string at position q.
  function CString(s: string, q: nat): (r: string)
    requires q <= |s|
    decreases |s| - q
  {
    if q == |s| || s[q] == NUL then "" else [s[q]] + CString(s, q + 1)
  }

  lemma {:induction false} CStringIs(s: string, q: nat, e: nat)
    requires q <= e < |s| && s[e] == NUL && forall k :: q <= k < e ==> s[k] != NUL
    ensures CString(s, q) == s[q..e]
    decreases e - q
  {
    if q < e { CStringIs(s, q + 1, e); }
  }

  // Where a NUL is written there was no word character.
  lemma {:induction false} EndsNotPlain(buf: string, cmd: Tree, k: nat)
    requires SpansOk(buf, cmd) && Ends(cmd, k)
    ensures !Plain(At(buf, k)) && k <= |buf|
  {
    match cmd
    case Exec(argv) =>
    case Redir(c, f, _) => if Ends(c, k) { EndsNotPlain(buf, c, k); }
    case Pipe(l, r) => if Ends(l, k) { EndsNotPlain(buf, l, k); } else { EndsNotPlain(buf, r, k); }
    case List(l, r) => if Ends(l, k) { EndsNotPlain(buf, l, k); } else { EndsNotPlain(buf, r, k); }
    case Back(c) => EndsNotPlain(buf, c, k);
  }

  lemma {:induction false} InTreeOk(buf: string, cmd: Tree, w: Span)
    requires SpansOk(buf, cmd) && InTree(cmd, w)
    ensures SpanOk(buf, w) && Ends(cmd, w.eq)
  {
    match cmd
    case Exec(argv) =>
      var j :| 0 <= j < |argv| && argv[j] == w;
    case Redir(c, f, _) => if InTree(c, w) { InTreeOk(buf, c, w); }
    case Pipe(l, r) => if InTree(l, w) { InTreeOk(buf, l, w); } else { InTreeOk(buf, r, w); }
    case List(l, r) => if InTree(l, w) { InTreeOk(buf, l, w); } else { InTreeOk(buf, r, w); }
    case Back(c) => InTreeOk(buf, c, w);
  }

  // After nulterminate every argument and file name reads back as exactly its token.
  lemma {:induction false} ReadsBack(buf: string, cmd: Tree, w: Span)
    requires Text(buf) && SpansOk(buf, cmd) && InTree(cmd, w)
    ensures w.q < w.eq <= |buf| && CString(Terminated(buf + [NUL], cmd), w.q) == buf[w.q..w.eq]
  {
    InTreeOk(buf, cmd, w);
    var s := Terminated(buf + [NUL], cmd);
    forall k | w.q <= k < w.eq
      ensures s[k] == buf[k]
    {
      if Ends(cmd, k) { EndsNotPlain(buf, cmd, k); }
    }
    CStringIs(s, w.q, w.eq);
    assert s[w.q..w.eq] == buf[w.q..w.eq];
  }

  lemma {:induction false} SpansBelow(buf: string, cmd: Tree)
    requires SpansOk(buf, cmd)
    ensures EndsBelow(cmd, |buf| + 1)
  {
    match cmd
    case Exec(argv) =>
    case Redir(c, f, _) => SpansBelow(buf, c);
    case Pipe(l, r) => SpansBelow(buf, l); SpansBelow(buf, r);
    case List(l, r) => SpansBelow(buf, l); SpansBelow(buf, r);
    case Back(c) => SpansBelow(buf, c);
  }

  // parsecmd on a buffer that ends with a NUL: the tree, and the buffer with its words terminated; or a panic.
  method Parse(buf: array<char>, n: nat) returns (r: Result)
    requires n + 1 == buf.Length && buf[n] == NUL && Text(buf[..n])
    modifies buf
    ensures r == ParseCmd(old(buf[..n]))
    ensures r.Ok? ==>
              forall w :: InTree(r.cmd, w) ==> w.q < w.eq <= n && CString(buf[..], w.q) == old(buf[..n])[w.q..w.eq]
    ensures r.Err? ==> buf[..] == old(buf[..])
  {
    var s := buf[..n];
    r := TakesLine(s, 0);
    if r.Ok? {
      var end, more := PeekAhead(s, r.pos, "");
      if end != n {
        r := Err;
      }
    }
    if r.Ok? {
      LineSpans(s, 0);
      SpansBelow(s, r.cmd);
      assert buf[..] == s + [NUL];
      forall w | InTree(r.cmd, w)
        ensures w.q < w.eq <= n && CString(Terminated(s + [NUL], r.cmd), w.q) == s[w.q..w.eq]
      {
        ReadsBack(s, r.cmd, w);
      }
      NulTerminate(buf, r.cmd);
    }
  }

  // ---------- tokens ----------

  // A token as gettoken returns it: its kind ('a' for a word, '+' for ">>") and its text.
  datatype Tok = Tok(kind: char, text: string)

  function Word(buf: string, w: Span): (r: string) { if w.q <= w.eq <= |buf| then buf[w.q..w.eq] else "" }

  // The tokens from position i to the end of the text.
  function Lex(buf: string, i: nat): (ts: seq<Tok>)
    requires i <= |buf|
    decreases |buf| - i
  {
    var t := GetToken(buf, i);
    if t.tok == NUL then [] else [Tok(t.tok, Word(buf, t.span))] + Lex(buf, t.next)
  }

  predicate Starts(ts: seq<Tok>, kinds: string) { ts != [] && ts[0].kind in kinds }

  predicate IsWord(ts: seq<Tok>, k: nat) { k < |ts| && ts[k].kind == 'a' }

  lemma {:induction false} LexSkip(buf: string, i: nat)
    requires i <= |buf|
    ensures Lex(buf, i) == Lex(buf, Skip(buf, i)) && GetToken(buf, i) == GetToken(buf, Skip(buf, i))
  {
    hide Skip, WordEnd, Symbol;
    SkipStays(buf, Skip(buf, i));
    assert GetToken(buf, i) == GetToken(buf, Skip(buf, i));
  }

  lemma {:induction false} SkipStays(buf: string, e: nat)
    requires e <= |buf| && !White(At(buf, e))
    ensures Skip(buf, e) == e
  {
  }

  // What kind of token starts with the character c.
  lemma {:induction false} KindOf(buf: string, i: nat)
    requires i <= |buf| && Text(buf)
    ensures var c, k := At(buf, Skip(buf, i)), GetToken(buf, i).tok;
            && (k == NUL <==> c == NUL) && (c == NUL <==> Skip(buf, i) == |buf|)
            && (c == '>' <==> k == '>' || k == '+') && (Plain(c) <==> k == 'a')
            && (c == '|' <==> k == '|') && (c == ')' <==> k == ')') && (c == '&' <==> k == '&')
            && (c == ';' <==> k == ';') && (c == '(' <==> k == '(') && (c == '<' <==> k == '<')
  {
    hide WordEnd;
    var s := Skip(buf, i);
    if s < |buf| { assert buf[s] != NUL; }
  }

  // The first token, as peek and gettoken see it.
  lemma {:induction false} LexHead(buf: string, i: nat)
    requires i <= |buf| && Text(buf)
    ensures Lex(buf, i) == [] <==> Skip(buf, i) == |buf|
    ensures Lex(buf, i) == [] <==> GetToken(buf, i).tok == NUL
    ensures Lex(buf, i) != [] ==>
              var t := GetToken(buf, i);
              Lex(buf, i)[0] == Tok(t.tok, Word(buf, t.span)) && Lex(buf, i)[1..] == Lex(buf, t.next) && i < t.next
    ensures Peek(buf, i, "<>") <==> Starts(Lex(buf, i), "<>+")
    ensures Peek(buf, i, "|)&;") <==> Starts(Lex(buf, i), "|)&;")
    ensures forall c :: c in "|)&;(" ==> (Peek(buf, i, [c]) <==> Starts(Lex(buf, i), [c]))
  {
    hide WordEnd, Skip, GetToken, Plain;
    KindOf(buf, i);
  }

  // ---------- the parser on tokens ----------

  type Command = Cmd<string>

  // A command and the tokens after it.
  datatype Taken = Got(cmd: Command, rest: seq<Tok>) | Bad

  function DirOf(kind: char): (d: Dir) { if kind == '<' then In else Out }

  function TakeRedirs(cmd: Command, ts: seq<Tok>): (r: Taken)
    ensures r.Got? ==> |r.rest| <= |ts|
    decreases |ts|
  {
    if !Starts(ts, "<>+") then Got(cmd, ts)
    else if !IsWord(ts, 1) then Bad
    else TakeRedirs(Redir(cmd, ts[1].text, DirOf(ts[0].kind)), ts[2..])
  }

  function TakeArgs(ret: Command, argc: nat, ts: seq<Tok>): (r: Taken)
    ensures r.Got? ==> |r.rest| <= |ts|
    decreases |ts|
  {
    if ts == [] || Starts(ts, "|)&;") then Got(ret, ts)
    else if !IsWord(ts, 0) || argc + 1 >= MAXARGS then Bad
    else
      var d := TakeRedirs(AddArg(ret, ts[0].text), ts[1..]);
      if d.Bad? then Bad else TakeArgs(d.cmd, argc + 1, d.rest)
  }

  function TakeLine(ts: seq<Tok>): (r: Taken)
    ensures r.Got? ==> |r.rest| <= |ts|
    decreases |ts|, 4
  {
    var p := TakePipe(ts);
    if p.Bad? then Bad
    else
      var b := TakeBacks(p.cmd, p.rest);
      if !Starts(b.rest, ";") then b
      else
        var l := TakeLine(b.rest[1..]);
        if l.Bad? then Bad else Got(List(b.cmd, l.cmd), l.rest)
  }

  function TakeBacks(cmd: Command, ts: seq<Tok>): (r: Taken)
    ensures r.Got? && |r.rest| <= |ts|
    decreases |ts|, 0
  {
    if Starts(ts, "&") then TakeBacks(Back(cmd), ts[1..]) else Got(cmd, ts)
  }

  function TakePipe(ts: seq<Tok>): (r: Taken)
    ensures r.Got? ==> |r.rest| <= |ts|
    decreases |ts|, 3
  {
    var e := TakeExec(ts);
    if e.Bad? || !Starts(e.rest, "|") then e
    else
      var p := TakePipe(e.rest[1..]);
      if p.Bad? then Bad else Got(Pipe(e.cmd, p.cmd), p.rest)
  }

  function TakeExec(ts: seq<Tok>): (r: Taken)
    ensures r.Got? ==> |r.rest| <= |ts|
    decreases |ts|, 2
  {
    if Starts(ts, "(") then
      var l := TakeLine(ts[1..]);
      if l.Bad? || !Starts(l.rest, ")") then Bad else TakeRedirs(l.cmd, l.rest[1..])
    else TakeItems(Exec([]), 0, ts)
  }

  // Redirections, then words each with redirections after it.
  function TakeItems(ret: Command, argc: nat, ts: seq<Tok>): (r: Taken)
    ensures r.Got? ==> |r.rest| <= |ts|
  {
    var d := TakeRedirs(ret, ts);
    if d.Bad? then Bad else TakeArgs(d.cmd, argc, d.rest)
  }

  function ArgWords(buf: string, argv: seq<Span>): (r: seq<string>)
    ensures |r| == |argv| && forall j :: 0 <= j < |argv| ==> r[j] == Word(buf, argv[j])
  {
    seq(|argv|, j requires 0 <= j < |argv| => Word(buf, argv[j]))
  }

  // The words of a parsed tree.
  function Words(buf: string, cmd: Tree): (t: Command) {
    match cmd
    case Exec(argv) => Exec(ArgWords(buf, argv))
    case Redir(c, f, d) => Redir(Words(buf, c), Word(buf, f), d)
    case Pipe(l, r) => Pipe(Words(buf, l), Words(buf, r))
    case List(l, r) => List(Words(buf, l), Words(buf, r))
    case Back(c) => Back(Words(buf, c))
  }

  // The parser on the buffer at r.pos is where the parser on tokens is.
  predicate Agrees(buf: string, r: Result, t: Taken) {
    if r.Err? then t.Bad? else r.pos <= |buf| && t == Got(Words(buf, r.cmd), Lex(buf, r.pos))
  }

  lemma {:induction false} RedirsAgree(buf: string, cmd: Tree, i: nat)
    requires i <= |buf| && Text(buf)
    ensures Agrees(buf, ParseRedirs(buf, cmd, i), TakeRedirs(Words(buf, cmd), Lex(buf, i)))
    decreases |buf| - i
  {
    hide Skip, GetToken, Lex, WordEnd;
    LexSkip(buf, i);
    LexHead(buf, i);
    if Peek(buf, i, "<>") {
      var t := GetToken(buf, Skip(buf, i));
      LexHead(buf, t.next);
      RedirOpKind(buf, i);
      var f := GetToken(buf, t.next);
      if f.tok == 'a' {
        RedirsAgree(buf, Redir(cmd, f.span, if t.tok == '<' then In else Out), f.next);
      }
    }
  }

  lemma {:induction false} RedirOpKind(buf: string, i: nat)
    requires i <= |buf| && Text(buf) && Lex(buf, i) != []
    ensures Lex(buf, i)[0].kind == GetToken(buf, i).tok
  {
    LexHead(buf, i);
  }

  lemma {:induction false} AddArgWords(buf: string, cmd: Tree, w: Span)
    ensures Words(buf, AddArg(cmd, w)) == AddArg(Words(buf, cmd), Word(buf, w))
  {
    match cmd
    case Exec(argv) => assert ArgWords(buf, argv + [w]) == ArgWords(buf, argv) + [Word(buf, w)];
    case Redir(c, _, _) => AddArgWords(buf, c, w);
    case _ =>
  }

  lemma {:induction false} ArgsAgree(buf: string, ret: Tree, argc: nat, i: nat)
    requires i <= |buf| && Text(buf)
    ensures Agrees(buf, ParseArgs(buf, ret, argc, i), TakeArgs(Words(buf, ret), argc, Lex(buf, i)))
    decreases |buf| - i
  {
    hide Skip, GetToken, Lex, WordEnd, ParseRedirs, TakeRedirs;
    LexSkip(buf, i);
    LexHead(buf, i);
    var t := GetToken(buf, Skip(buf, i));
    if !Peek(buf, i, "|)&;") && t.tok == 'a' && argc + 1 < MAXARGS {
      AddArgWords(buf, ret, t.span);
      RedirsAgree(buf, AddArg(ret, t.span), t.next);
      var d := ParseRedirs(buf, AddArg(ret, t.span), t.next);
      if d.Ok? { ArgsAgree(buf, d.cmd, argc + 1, d.pos); }
    } else if t.tok == NUL {
      LexEmptyAt(buf, i);
    }
  }

  lemma {:induction false} LexEmptyAt(buf: string, i: nat)
    requires i <= |buf| && Text(buf) && GetToken(buf, i).tok == NUL
    ensures Lex(buf, GetToken(buf, i).next) == []
  {
  }

  lemma {:induction false} BacksAgree(buf: string, cmd: Tree, i: nat)
    requires i <= |buf| && Text(buf)
    ensures Agrees(buf, ParseBacks(buf, cmd, i), TakeBacks(Words(buf, cmd), Lex(buf, i)))
    ensures ParseBacks(buf, cmd, i).pos == Skip(buf, ParseBacks(buf, cmd, i).pos)
    decreases |buf| - i
  {
    hide GetToken, Lex, WordEnd, Skip;
    LexSkip(buf, i);
    LexHead(buf, i);
    SkipStays(buf, Skip(buf, i));
    if Peek(buf, i, "&") { BacksAgree(buf, Back(cmd), GetToken(buf, Skip(buf, i)).next); }
  }

  lemma {:induction false} LineAgrees(buf: string, i: nat)
    requires i <= |buf| && Text(buf)
    ensures Agrees(buf, ParseLine(buf, i), TakeLine(Lex(buf, i)))
    decreases |buf| - i, 4
  {
    hide GetToken, Lex, WordEnd, Skip, ParsePipe, TakePipe, ParseBacks, TakeBacks;
    PipeAgrees(buf, i);
    var p := ParsePipe(buf, i);
    if p.Ok? {
      BacksAgree(buf, p.cmd, p.pos);
      var b := ParseBacks(buf, p.cmd, p.pos);
      LexHead(buf, b.pos);
      assert Peek(buf, b.pos, ";") <==> Starts(Lex(buf, b.pos), ";");
      if At(buf, b.pos) == ';' { LineAgrees(buf, GetToken(buf, b.pos).next); }
    }
  }

  lemma {:induction false} PipeAgrees(buf: string, i: nat)
    requires i <= |buf| && Text(buf)
    ensures Agrees(buf, ParsePipe(buf, i), TakePipe(Lex(buf, i)))
    decreases |buf| - i, 3
  {
    hide GetToken, Lex, WordEnd, Skip, ParseExec, TakeExec;
    ExecAgrees(buf, i);
    var e := ParseExec(buf, i);
    if e.Ok? {
      LexSkip(buf, e.pos);
      LexHead(buf, e.pos);
      assert Peek(buf, e.pos, "|") <==> Starts(Lex(buf, e.pos), "|");
      if Peek(buf, e.pos, "|") { PipeAgrees(buf, GetToken(buf, Skip(buf, e.pos)).next); }
    }
  }

  lemma {:induction false} ExecAgrees(buf: string, i: nat)
    requires i <= |buf| && Text(buf)
    ensures Agrees(buf, ParseExec(buf, i), TakeExec(Lex(buf, i)))
    decreases |buf| - i, 2
  {
    hide GetToken, Lex, WordEnd, Skip, ParseRedirs, TakeRedirs, ParseArgs, TakeArgs, ParseBlock, TakeLine;
    LexSkip(buf, i);
    LexHead(buf, i);
    assert Peek(buf, i, "(") <==> Starts(Lex(buf, i), "(");
    if Peek(buf, i, "(") {
      PeekSkip(buf, i, "(");
      BlockAgrees(buf, Skip(buf, i));
    } else {
      assert Words(buf, Exec([])) == Exec([]);
      RedirsAgree(buf, Exec([]), Skip(buf, i));
      var d := ParseRedirs(buf, Exec([]), Skip(buf, i));
      if d.Ok? { ArgsAgree(buf, d.cmd, 0, d.pos); }
    }
  }

  lemma {:induction false} PeekSkip(buf: string, i: nat, toks: string)
    requires i <= |buf|
    ensures Peek(buf, Skip(buf, i), toks) == Peek(buf, i, toks) && Skip(buf, Skip(buf, i)) == Skip(buf, i)
  {
    SkipStays(buf, Skip(buf, i));
  }

  lemma {:induction false} BlockAgrees(buf: string, i: nat)
    requires i <= |buf| && Text(buf) && Peek(buf, i, "(") && Skip(buf, i) == i
    ensures Agrees(buf, ParseBlock(buf, i), TakeExec(Lex(buf, i)))
    decreases |buf| - i, 1
  {
    hide GetToken, Lex, WordEnd, Skip, ParseRedirs, TakeRedirs, ParseLine, TakeLine, TakeArgs;
    LexHead(buf, i);
    assert Peek(buf, i, "(") <==> Starts(Lex(buf, i), "(");
    var n := GetToken(buf, i).next;
    LineAgrees(buf, n);
    var l := ParseLine(buf, n);
    if l.Ok? {
      LexSkip(buf, l.pos);
      LexHead(buf, l.pos);
      assert Peek(buf, l.pos, ")") <==> Starts(Lex(buf, l.pos), ")");
      if Peek(buf, l.pos, ")") { RedirsAgree(buf, l.cmd, GetToken(buf, Skip(buf, l.pos)).next); }
    }
  }

  // ---------- the grammar ----------

  //   line  ::= pipe "&"* [ ";" line ]
  //   pipe  ::= exec [ "|" pipe ]
  //   exec  ::= ( word | redir )*  |  "(" line ")" redir*
  //   redir ::= ( "<" | ">" | ">>" ) word
  // A derivation says which rule was used where; Yield is the tokens it stands for, Meaning the command.
  datatype Redirection = Redirection(kind: char, file: string)
  datatype Item = Arg(word: string) | To(redir: Redirection)
  datatype ExecRule = Simple(items: seq<Item>) | Block(line: LineRule, redirs: seq<Redirection>)
  datatype PipeRule = Last(exec: ExecRule) | Into(exec: ExecRule, rest: PipeRule)
  datatype LineRule = Final(pipe: PipeRule, amps: nat) | Semi(pipe: PipeRule, amps: nat, rest: LineRule)

  function RedirYield(r: Redirection): (ts: seq<Tok>) {
    [Tok(r.kind, if r.kind == '+' then ">>" else [r.kind]), Tok('a', r.file)]
  }

  function RedirsYield(rs: seq<Redirection>): (ts: seq<Tok>) {
    if rs == [] then [] else RedirYield(rs[0]) + RedirsYield(rs[1..])
  }

  function ItemYield(i: Item): (ts: seq<Tok>) { if i.Arg? then [Tok('a', i.word)] else RedirYield(i.redir) }

  function ItemsYield(items: seq<Item>): (ts: seq<Tok>) {
    if items == [] then [] else ItemYield(items[0]) + ItemsYield(items[1..])
  }

  function Sym(c: char): (t: Tok) { Tok(c, [c]) }

  function AmpsYield(n: nat): (ts: seq<Tok>) { if n == 0 then [] else [Sym('&')] + AmpsYield(n - 1) }

  function ExecYield(e: ExecRule): (ts: seq<Tok>) {
    match e
    case Simple(items) => ItemsYield(items)
    case Block(line, redirs) => [Sym('(')] + (LineYield(line) + ([Sym(')')] + RedirsYield(redirs)))
  }

  function PipeYield(p: PipeRule): (ts: seq<Tok>) {
    match p
    case Last(e) => ExecYield(e)
    case Into(e, rest) => ExecYield(e) + ([Sym('|')] + PipeYield(rest))
  }

  function LineYield(l: LineRule): (ts: seq<Tok>) {
    match l
    case Final(p, amps) => PipeYield(p) + AmpsYield(amps)
    case Semi(p, amps, rest) => PipeYield(p) + (AmpsYield(amps) + ([Sym(';')] + LineYield(rest)))
  }

  // The redirections around a command; the last one written is the outermost.
  function Wrap(c: Command, rs: seq<Redirection>): (r: Command) {
    if rs == [] then c
    else var n := |rs| - 1; Redir(Wrap(c, rs[..n]), rs[n].file, DirOf(rs[n].kind))
  }

  function ArgsOf(items: seq<Item>): (ws: seq<string>) {
    if items == [] then [] else (if items[0].Arg? then [items[0].word] else []) + ArgsOf(items[1..])
  }

  function RedirsOf(items: seq<Item>): (rs: seq<Redirection>) {
    if items == [] then [] else (if items[0].To? then [items[0].redir] else []) + RedirsOf(items[1..])
  }

  function Backs(c: Command, n: nat): (r: Command) { if n == 0 then c else Back(Backs(c, n - 1)) }

  function ExecMeaning(e: ExecRule): (c: Command) {
    match e
    case Simple(items) => Wrap(Exec(ArgsOf(items)), RedirsOf(items))
    case Block(line, redirs) => Wrap(LineMeaning(line), redirs)
  }

  function PipeMeaning(p: PipeRule): (c: Command) {
    match p
    case Last(e) => ExecMeaning(e)
    case Into(e, rest) => Pipe(ExecMeaning(e), PipeMeaning(rest))
  }

  function LineMeaning(l: LineRule): (c: Command) {
    match l
    case Final(p, amps) => Backs(PipeMeaning(p), amps)
    case Semi(p, amps, rest) => List(Backs(PipeMeaning(p), amps), LineMeaning(rest))
  }

  // A word, and the parts of a derivation that hold words. A command has at most nine arguments.
  predicate WordOk(w: string) { w != "" && forall k :: 0 <= k < |w| ==> Plain(w[k]) }

  predicate RedirOk(r: Redirection) { r.kind in "<>+" && WordOk(r.file) }

  predicate ItemOk(i: Item) { if i.Arg? then WordOk(i.word) else RedirOk(i.redir) }

  predicate RedirsOk(rs: seq<Redirection>) { forall k :: 0 <= k < |rs| ==> RedirOk(rs[k]) }

  predicate ItemsOk(items: seq<Item>) { forall k :: 0 <= k < |items| ==> ItemOk(items[k]) }

  predicate ExecOk(e: ExecRule) {
    match e
    case Simple(items) => ItemsOk(items) && |ArgsOf(items)| < MAXARGS
    case Block(line, redirs) => LineOk(line) && RedirsOk(redirs)
  }

  predicate PipeOk(p: PipeRule) { ExecOk(p.exec) && (p.Into? ==> PipeOk(p.rest)) }

  predicate LineOk(l: LineRule) { PipeOk(l.pipe) && (l.Semi? ==> LineOk(l.rest)) }

  // ---------- every derivation is parsed ----------

  predicate Follows(ts: seq<Tok>, kinds: string) { ts == [] || ts[0].kind in kinds }

  lemma {:induction false} WrapLast(c: Command, rs: seq<Redirection>, r: Redirection)
    ensures Wrap(c, rs + [r]) == Redir(Wrap(c, rs), r.file, DirOf(r.kind))
  {
    assert (rs + [r])[..|rs|] == rs;
  }

  lemma {:induction false} AddArgWrap(args: seq<string>, rs: seq<Redirection>, w: string)
    ensures AddArg(Wrap(Exec(args), rs), w) == Wrap(Exec(args + [w]), rs)
    decreases |rs|
  {
    if rs != [] { AddArgWrap(args, rs[..|rs| - 1], w); }
  }

  lemma {:induction false} RedirsUnfold(rs: seq<Redirection>, more: seq<Redirection>, rest: seq<Tok>)
    requires more != []
    ensures RedirsYield(more) + rest == RedirYield(more[0]) + (RedirsYield(more[1..]) + rest)
    ensures (rs + [more[0]]) + more[1..] == rs + more
  {
    assert RedirsYield(more) == RedirYield(more[0]) + RedirsYield(more[1..]);
  }

  lemma {:induction false} RedirsTo(c: Command, r: Redirection, ts: seq<Tok>)
    requires r.kind in "<>+"
    ensures TakeRedirs(c, RedirYield(r) + ts) == TakeRedirs(Redir(c, r.file, DirOf(r.kind)), ts)
  {
    var all := RedirYield(r) + ts;
    assert all[0].kind == r.kind && all[1] == Tok('a', r.file) && all[2..] == ts;
  }

  lemma {:induction false} RedirsStop(c: Command, rest: seq<Tok>)
    requires Follows(rest, "|)&;a(")
    ensures RedirsYield([]) + rest == rest && TakeRedirs(c, rest) == Got(c, rest)
  {
  }

  lemma {:induction false} RedirsParse(c: Command, rs: seq<Redirection>, more: seq<Redirection>, rest: seq<Tok>)
    requires RedirsOk(more) && Follows(rest, "|)&;a(")
    ensures TakeRedirs(Wrap(c, rs), RedirsYield(more) + rest) == Got(Wrap(c, rs + more), rest)
    decreases |more|
  {
    hide Wrap, WordOk, DirOf, TakeRedirs, RedirYield, RedirsYield, Follows;
    if more == [] {
      RedirsStop(Wrap(c, rs), rest);
      assert rs + more == rs;
    } else {
      assert RedirOk(more[0]);
      RedirsUnfold(rs, more, rest);
      RedirsTo(Wrap(c, rs), more[0], RedirsYield(more[1..]) + rest);
      WrapLast(c, rs, more[0]);
      RedirsParse(c, rs + [more[0]], more[1..], rest);
    }
  }

  lemma {:induction false} ItemsTo(ret: Command, argc: nat, r: Redirection, ts: seq<Tok>)
    requires r.kind in "<>+"
    ensures TakeItems(ret, argc, RedirYield(r) + ts) == TakeItems(Redir(ret, r.file, DirOf(r.kind)), argc, ts)
  {
    hide TakeArgs, TakeRedirs, RedirYield;
    RedirsTo(ret, r, ts);
  }

  lemma {:induction false} ItemsArg(ret: Command, argc: nat, w: string, ts: seq<Tok>)
    requires argc + 1 < MAXARGS
    ensures TakeItems(ret, argc, [Tok('a', w)] + ts) == TakeItems(AddArg(ret, w), argc + 1, ts)
  {
    var all := [Tok('a', w)] + ts;
    assert all[0] == Tok('a', w) && all[1..] == ts;
  }

  lemma {:induction false} ItemsUnfold(args: seq<string>, rs: seq<Redirection>, items: seq<Item>, rest: seq<Tok>)
    requires items != []
    ensures ItemsYield(items) + rest == ItemYield(items[0]) + (ItemsYield(items[1..]) + rest)
    ensures items[0].Arg? ==> (args + [items[0].word]) + ArgsOf(items[1..]) == args + ArgsOf(items)
    ensures items[0].Arg? ==> RedirsOf(items[1..]) == RedirsOf(items)
    ensures items[0].To? ==> (rs + [items[0].redir]) + RedirsOf(items[1..]) == rs + RedirsOf(items)
    ensures items[0].To? ==> ArgsOf(items[1..]) == ArgsOf(items)
  {
    hide ItemYield;
    var x, tail := items[0], items[1..];
    Assoc(ItemYield(x), ItemsYield(tail), rest);
    if x.Arg? {
      assert ArgsOf(items) == [x.word] + ArgsOf(tail) && RedirsOf(items) == [] + RedirsOf(tail);
      Assoc(args, [x.word], ArgsOf(tail));
    } else {
      assert RedirsOf(items) == [x.redir] + RedirsOf(tail) && ArgsOf(items) == [] + ArgsOf(tail);
      Assoc(rs, [x.redir], RedirsOf(tail));
    }
  }

  // Words and redirections in any order: the words are the arguments, the redirections go around.
  lemma {:induction false} ItemsParse(args: seq<string>, rs: seq<Redirection>, items: seq<Item>, argc: nat,
          rest: seq<Tok>)
    requires argc == |args| && |args + ArgsOf(items)| < MAXARGS && Follows(rest, "|)&;")
    requires ItemsOk(items)
    ensures TakeItems(Wrap(Exec(args), rs), argc, ItemsYield(items) + rest) ==
            Got(Wrap(Exec(args + ArgsOf(items)), rs + RedirsOf(items)), rest)
    decreases |items|
  {
    hide TakeItems, AddArg, Wrap, WordOk, DirOf, RedirYield, ItemsYield, ArgsOf, RedirsOf;
    if items == [] {
      NoItems(rest);
      assert args + [] == args && rs + [] == rs;
      ItemsStop(Wrap(Exec(args), rs), argc, rest);
    } else {
      var tail := items[1..];
      var ts := ItemsYield(tail) + rest;
      ItemsUnfold(args, rs, items, rest);
      assert ItemOk(items[0]);
      if items[0].To? {
        var r := items[0].redir;
        ItemsTo(Wrap(Exec(args), rs), argc, r, ts);
        WrapLast(Exec(args), rs, r);
        ItemsParse(args, rs + [r], tail, argc, rest);
      } else {
        var w := items[0].word;
        ArgRoom(args, w, ArgsOf(tail));
        ItemsArg(Wrap(Exec(args), rs), argc, w, ts);
        AddArgWrap(args, rs, w);
        ItemsParse(args + [w], rs, tail, argc + 1, rest);
      }
    }
  }

  lemma {:induction false} ArgRoom(args: seq<string>, w: string, more: seq<string>)
    requires |(args + [w]) + more| < MAXARGS
    ensures |args| + 1 < MAXARGS
  {
  }

  lemma {:induction false} NoItems(rest: seq<Tok>)
    ensures ItemsYield([]) + rest == rest && ArgsOf([]) == [] && RedirsOf([]) == []
  {
  }

  lemma {:induction false} ItemsStop(ret: Command, argc: nat, rest: seq<Tok>)
    requires Follows(rest, "|)&;")
    ensures TakeItems(ret, argc, rest) == Got(ret, rest)
  {
  }

  lemma {:induction false} ItemsStart(items: seq<Item>, rest: seq<Tok>)
    requires ItemsOk(items) && Follows(rest, "|)&;")
    ensures !Starts(ItemsYield(items) + rest, "(")
  {
    if items != [] { assert (ItemsYield(items) + rest)[0] == ItemYield(items[0])[0]; }
  }

  lemma {:induction false} ExecParses(e: ExecRule, rest: seq<Tok>)
    requires ExecOk(e) && Follows(rest, "|)&;")
    ensures TakeExec(ExecYield(e) + rest) == Got(ExecMeaning(e), rest)
    decreases e
  {
    hide TakeLine, TakeItems, TakeRedirs;
    var ts := ExecYield(e) + rest;
    match e
    case Simple(items) =>
      ItemsStart(items, rest);
      ItemsParse([], [], items, 0, rest);
      assert [] + ArgsOf(items) == ArgsOf(items) && [] + RedirsOf(items) == RedirsOf(items);
    case Block(line, redirs) =>
      var after := [Sym(')')] + (RedirsYield(redirs) + rest);
      assert ts[0] == Sym('(') && ts[1..] == LineYield(line) + after;
      LineParses(line, after);
      assert after[1..] == RedirsYield(redirs) + rest;
      RedirsParse(LineMeaning(line), [], redirs, rest);
      assert [] + redirs == redirs;
  }

  lemma {:induction false} PipeParses(p: PipeRule, rest: seq<Tok>)
    requires PipeOk(p) && Follows(rest, ")&;")
    ensures TakePipe(PipeYield(p) + rest) == Got(PipeMeaning(p), rest)
    decreases p
  {
    hide TakeExec;
    match p
    case Last(e) => ExecParses(e, rest);
    case Into(e, more) =>
      var after := [Sym('|')] + (PipeYield(more) + rest);
      assert PipeYield(p) + rest == ExecYield(e) + after && after[1..] == PipeYield(more) + rest;
      ExecParses(e, after);
      PipeParses(more, rest);
  }

  lemma {:induction false} BacksParse(c: Command, done: nat, n: nat, rest: seq<Tok>)
    requires Follows(rest, ");")
    ensures TakeBacks(Backs(c, done), AmpsYield(n) + rest) == Got(Backs(c, done + n), rest)
    decreases n
  {
    if n == 0 {
      assert AmpsYield(n) + rest == rest;
    } else {
      var ts := AmpsYield(n) + rest;
      assert ts[0] == Sym('&') && ts[1..] == AmpsYield(n - 1) + rest;
      BacksParse(c, done + 1, n - 1, rest);
    }
  }

  lemma {:induction false} AmpsFollow(n: nat, rest: seq<Tok>, kinds: string)
    requires Follows(rest, kinds) && '&' in kinds
    ensures Follows(AmpsYield(n) + rest, kinds)
  {
  }

  lemma {:induction false} LineParses(l: LineRule, rest: seq<Tok>)
    requires LineOk(l) && Follows(rest, ")")
    ensures TakeLine(LineYield(l) + rest) == Got(LineMeaning(l), rest)
    decreases l
  {
    hide TakePipe, TakeBacks, PipeYield, PipeMeaning, AmpsYield;
    match l
    case Final(p, amps) =>
      assert LineYield(l) + rest == PipeYield(p) + (AmpsYield(amps) + rest);
      AmpsFollow(amps, rest, ")&;");
      PipeParses(p, AmpsYield(amps) + rest);
      BacksParse(PipeMeaning(p), 0, amps, rest);
    case Semi(p, amps, more) =>
      var after := [Sym(';')] + (LineYield(more) + rest);
      assert LineYield(l) + rest == PipeYield(p) + (AmpsYield(amps) + after) && after[1..] == LineYield(more) + rest;
      AmpsFollow(amps, after, ")&;");
      PipeParses(p, AmpsYield(amps) + after);
      BacksParse(PipeMeaning(p), 0, amps, after);
      LineParses(more, rest);
  }

  // ---------- everything parsed has a derivation ----------

  // A token's text is what its kind says.
  predicate TokOk(t: Tok) {
    if t.kind == 'a' then WordOk(t.text)
    else (t.kind == '+' && t.text == ">>") || (t.kind in "<>|&;()" && t.text == [t.kind])
  }

  predicate TokensOk(ts: seq<Tok>) { forall k :: 0 <= k < |ts| ==> TokOk(ts[k]) }

  lemma {:induction false} SuffixOk(a: seq<Tok>, b: seq<Tok>)
    requires TokensOk(a + b)
    ensures TokensOk(b)
  {
    assert forall k :: 0 <= k < |b| ==> b[k] == (a + b)[|a| + k];
  }

  lemma {:induction false} RedirsNeed(c: Command, ts: seq<Tok>)
    requires TakeRedirs(c, ts).Got?
    ensures Starts(ts, "<>+") ==> IsWord(ts, 1)
    ensures !Starts(ts, "<>+") ==> TakeRedirs(c, ts).rest == ts
  {
  }

  // The two tokens of a redirection.
  lemma {:induction false} RedirTokens(ts: seq<Tok>) returns (r: Redirection)
    requires TokensOk(ts) && Starts(ts, "<>+") && IsWord(ts, 1)
    ensures RedirOk(r) && ts == RedirYield(r) + ts[2..] && TokensOk(ts[2..])
  {
    r := Redirection(ts[0].kind, ts[1].text);
    assert TokOk(ts[0]) && TokOk(ts[1]);
  }

  lemma {:induction false} RedirsSound(c: Command, ts: seq<Tok>) returns (rs: seq<Redirection>)
    requires TokensOk(ts) && TakeRedirs(c, ts).Got?
    ensures RedirsOk(rs) && RedirsYield(rs) + TakeRedirs(c, ts).rest == ts
    decreases |ts|
  {
    hide WordOk, DirOf, TakeRedirs, RedirYield, RedirsYield, TokensOk;
    RedirsNeed(c, ts);
    var rest := TakeRedirs(c, ts).rest;
    if Starts(ts, "<>+") {
      var one := RedirTokens(ts);
      RedirsTo(c, one, ts[2..]);
      var more := RedirsSound(Redir(c, one.file, DirOf(one.kind)), ts[2..]);
      rs := [one] + more;
      RedirsUnfold([], rs, rest);
      assert rs[1..] == more;
    } else {
      rs := [];
      NoRedirs(rest);
    }
  }

  lemma {:induction false} NoRedirs(rest: seq<Tok>)
    ensures RedirsYield([]) + rest == rest
  {
  }

  lemma {:induction false} ItemsNeed(ret: Command, argc: nat, ts: seq<Tok>)
    requires TakeItems(ret, argc, ts).Got?
    ensures Starts(ts, "<>+") ==> IsWord(ts, 1)
    ensures IsWord(ts, 0) ==> argc + 1 < MAXARGS
    ensures !Starts(ts, "<>+") && !IsWord(ts, 0) ==> TakeItems(ret, argc, ts).rest == ts
  {
  }

  lemma {:induction false} ItemsCons(x: Item, more: seq<Item>, rest: seq<Tok>)
    ensures ItemsYield([x] + more) + rest == ItemYield(x) + (ItemsYield(more) + rest)
    ensures |ArgsOf([x] + more)| == |ArgsOf(more)| + (if x.Arg? then 1 else 0)
  {
    assert ([x] + more)[1..] == more;
  }

  lemma {:induction false} ItemsSound(ret: Command, argc: nat, ts: seq<Tok>) returns (items: seq<Item>)
    requires TokensOk(ts) && TakeItems(ret, argc, ts).Got? && argc < MAXARGS
    ensures ItemsOk(items) && argc + |ArgsOf(items)| < MAXARGS
    ensures ItemsYield(items) + TakeItems(ret, argc, ts).rest == ts
    decreases |ts|
  {
    hide TakeItems, AddArg, DirOf, ItemsYield, ArgsOf, WordOk, RedirYield;
    ItemsNeed(ret, argc, ts);
    var rest := TakeItems(ret, argc, ts).rest;
    if Starts(ts, "<>+") {
      var one := RedirTokens(ts);
      ItemsTo(ret, argc, one, ts[2..]);
      var more := ItemsSound(Redir(ret, one.file, DirOf(one.kind)), argc, ts[2..]);
      items := [To(one)] + more;
      ItemsCons(To(one), more, rest);
    } else if IsWord(ts, 0) {
      var w := ts[0].text;
      assert ts == [Tok('a', w)] + ts[1..];
      ItemsArg(ret, argc, w, ts[1..]);
      var more := ItemsSound(AddArg(ret, w), argc + 1, ts[1..]);
      items := [Arg(w)] + more;
      ItemsCons(Arg(w), more, rest);
    } else {
      items := [];
      NoItems(rest);
    }
  }

  lemma {:induction false} ExecSound(ts: seq<Tok>) returns (e: ExecRule)
    requires TokensOk(ts) && TakeExec(ts).Got?
    ensures ExecOk(e) && ExecYield(e) + TakeExec(ts).rest == ts
    decreases |ts|, 2
  {
    hide TakeLine, TakeItems, TakeRedirs;
    if Starts(ts, "(") {
      assert TokOk(ts[0]) && ts == [Sym('(')] + ts[1..];
      var l := TakeLine(ts[1..]);
      var d := LineSound(ts[1..]);
      SuffixOk(LineYield(d), l.rest);
      assert TokOk(l.rest[0]) && l.rest == [Sym(')')] + l.rest[1..];
      var rs := RedirsSound(l.cmd, l.rest[1..]);
      e := Block(d, rs);
    } else {
      var items := ItemsSound(Exec([]), 0, ts);
      e := Simple(items);
    }
  }

  lemma {:induction false} PipeSound(ts: seq<Tok>) returns (p: PipeRule)
    requires TokensOk(ts) && TakePipe(ts).Got?
    ensures PipeOk(p) && PipeYield(p) + TakePipe(ts).rest == ts
    decreases |ts|, 3
  {
    hide TakeExec, ExecYield, ExecOk;
    var e := ExecSound(ts);
    var r := TakeExec(ts);
    p := Last(e);
    if Starts(r.rest, "|") {
      SuffixOk(ExecYield(e), r.rest);
      assert TokOk(r.rest[0]) && r.rest == [Sym('|')] + r.rest[1..];
      var more := PipeSound(r.rest[1..]);
      p := Into(e, more);
    }
  }

  lemma {:induction false} BacksSound(c: Command, ts: seq<Tok>) returns (n: nat)
    requires TokensOk(ts)
    ensures AmpsYield(n) + TakeBacks(c, ts).rest == ts && !Starts(TakeBacks(c, ts).rest, "&")
    decreases |ts|
  {
    n := 0;
    if Starts(ts, "&") {
      assert TokOk(ts[0]) && ts == [Sym('&')] + ts[1..];
      var more := BacksSound(Back(c), ts[1..]);
      n := more + 1;
    }
  }

  lemma {:induction false} LineSound(ts: seq<Tok>) returns (l: LineRule)
    requires TokensOk(ts) && TakeLine(ts).Got?
    ensures LineOk(l) && LineYield(l) + TakeLine(ts).rest == ts
    decreases |ts|, 4
  {
    hide TakePipe, TakeBacks, PipeYield, PipeOk, AmpsYield;
    var p := PipeSound(ts);
    var r := TakePipe(ts);
    SuffixOk(PipeYield(p), r.rest);
    var n := BacksSound(r.cmd, r.rest);
    var b := TakeBacks(r.cmd, r.rest);
    l := Final(p, n);
    if Starts(b.rest, ";") {
      SuffixOk(AmpsYield(n), b.rest);
      assert TokOk(b.rest[0]) && b.rest == [Sym(';')] + b.rest[1..];
      var more := LineSound(b.rest[1..]);
      l := Semi(p, n, more);
    }
  }

  lemma {:induction false} LexTokens(buf: string, i: nat)
    requires i <= |buf| && Text(buf)
    ensures TokensOk(Lex(buf, i))
    decreases |buf| - i
  {
    hide GetToken, TokOk;
    var t := GetToken(buf, i);
    if t.tok != NUL {
      TokenShape(buf, i);
      LexTokens(buf, t.next);
    }
  }

  lemma {:induction false} TokenShape(buf: string, i: nat)
    requires i <= |buf| && Text(buf) && GetToken(buf, i).tok != NUL
    ensures TokOk(Tok(GetToken(buf, i).tok, Word(buf, GetToken(buf, i).span)))
  {
    hide WordEnd, Skip;
    if GetToken(buf, i).tok == 'a' {
      TokenSpan(buf, i);
      var w := GetToken(buf, i).span;
      assert forall k :: 0 <= k < |buf[w.q..w.eq]| ==> buf[w.q..w.eq][k] == buf[w.q + k];
    }
  }

  // THE PARSER IS THE GRAMMAR. The shell accepts exactly the texts whose tokens have a derivation, with the
  // meaning of that derivation, and reports an error on every other text.
  lemma {:induction false} ParsesIff(buf: string, c: Command)
    requires Text(buf)
    ensures ParseCmd(buf).Ok? && Words(buf, ParseCmd(buf).cmd) == c <==>
            exists l :: LineOk(l) && LineYield(l) == Lex(buf, 0) && LineMeaning(l) == c
  {
    hide TakeLine, ParseLine, LineYield, LineMeaning, LineOk, Lex, Words, Skip;
    var ts, r := Lex(buf, 0), ParseLine(buf, 0);
    LineAgrees(buf, 0);
    if r.Ok? { LexHead(buf, r.pos); }
    LexTokens(buf, 0);
    if r.Ok? && Skip(buf, r.pos) == |buf| {
      var l := LineSound(ts);
      assert LineYield(l) + [] == LineYield(l);
      LineParses(l, []);
    }
    forall l | LineOk(l) && LineYield(l) == ts
      ensures TakeLine(ts) == Got(LineMeaning(l), [])
    {
      assert LineYield(l) + [] == LineYield(l);
      LineParses(l, []);
    }
  }

  // ---------- any spelling ----------

  predicate AllWhite(s: string) { forall k :: 0 <= k < |s| ==> White(s[k]) }

  // Tokens that would run together.
  predicate Clings(a: Tok, b: Tok) { (a.kind == 'a' && b.kind == 'a') || (a.kind == '>' && b.kind in ">+") }

  // White space before, between and after the tokens: any amount, but some between tokens that cling.
  predicate Spaced(ws: seq<string>, ts: seq<Tok>) {
    && |ws| == |ts| + 1 && (forall k :: 0 <= k < |ws| ==> AllWhite(ws[k]))
    && (forall k :: 0 < k < |ts| && Clings(ts[k - 1], ts[k]) ==> ws[k] != "")
  }

  function Spell(ws: seq<string>, ts: seq<Tok>): (s: string)
    requires |ws| == |ts| + 1
    decreases |ts|
  {
    if ts == [] then ws[0] else ws[0] + (ts[0].text + Spell(ws[1..], ts[1..]))
  }

  // s stands in the buffer from i to the end.
  predicate FromHere(buf: string, i: nat, s: string) { i <= |buf| && buf[i..] == s }

  lemma {:induction false} SplitHere(buf: string, i: nat, a: string, b: string)
    requires FromHere(buf, i, a + b)
    ensures i + |a| <= |buf| && buf[i..i + |a|] == a && FromHere(buf, i + |a|, b)
  {
    assert a == (a + b)[..|a|] && b == (a + b)[|a|..];
    assert buf[i..][..|a|] == buf[i..i + |a|] && buf[i..][|a|..] == buf[i + |a|..];
  }

  lemma {:induction false} SkipTo(buf: string, i: nat, j: nat)
    requires i <= j <= |buf| && AllWhite(buf[i..j]) && !White(At(buf, j))
    ensures Skip(buf, i) == j
    decreases j - i
  {
    if i < j {
      assert buf[i..j][0] == buf[i] && buf[i + 1..j] == buf[i..j][1..];
      SkipTo(buf, i + 1, j);
    }
  }

  lemma {:induction false} WordEndIs(buf: string, i: nat, e: nat)
    requires i <= e <= |buf| && (forall k :: i <= k < e ==> Plain(buf[k])) && !Plain(At(buf, e)) && Text(buf)
    ensures WordEnd(buf, i) == e
    decreases e - i
  {
    if i < e { WordEndIs(buf, i + 1, e); }
  }

  // What may come right after a token.
  predicate EndsHere(t: Tok, c: char) {
    (t.kind == 'a' ==> !Plain(c)) && (t.kind == '>' ==> c != '>')
  }

  // A token in the buffer, with white space in front, is read as that token.
  lemma {:induction false} TokenRead(buf: string, i: nat, s: nat, t: Tok)
    requires Text(buf) && i <= s < |buf| && AllWhite(buf[i..s]) && TokOk(t)
    requires s + |t.text| <= |buf| && buf[s..s + |t.text|] == t.text && EndsHere(t, At(buf, s + |t.text|))
    ensures var g := GetToken(buf, i);
            g.tok == t.kind && g.span == Span(s, s + |t.text|) && g.next == Skip(buf, s + |t.text|)
  {
    hide Skip, WordEnd;
    assert t.text != "" && buf[s] == t.text[0];
    SkipTo(buf, i, s);
    if t.kind == 'a' {
      forall k | s <= k < s + |t.text|
        ensures Plain(buf[k])
      {
        assert buf[k] == t.text[k - s];
      }
      WordEndIs(buf, s, s + |t.text|);
    } else if t.kind == '+' {
      assert buf[s + 1] == t.text[1];
    }
  }

  // The first character of what follows a token.
  lemma {:induction false} SpellHead(ws: seq<string>, ts: seq<Tok>, prev: Tok)
    requires Spaced(ws, ts) && TokensOk(ts) && TokOk(prev) && (ts != [] && Clings(prev, ts[0]) ==> ws[0] != "")
    ensures EndsHere(prev, At(Spell(ws, ts), 0))
  {
    var s := Spell(ws, ts);
    if ws[0] != "" {
      assert White(ws[0][0]) && s[0] == ws[0][0];
    } else if ts != [] {
      assert TokOk(ts[0]) && ts[0].text != "" && s[0] == ts[0].text[0];
    }
  }

  lemma {:induction false} SpacedTail(ws: seq<string>, ts: seq<Tok>)
    requires Spaced(ws, ts) && TokensOk(ts) && ts != []
    ensures Spaced(ws[1..], ts[1..]) && TokensOk(ts[1..]) && AllWhite(ws[0]) && TokOk(ts[0])
    ensures |ts| > 1 && Clings(ts[0], ts[1]) ==> ws[1] != ""
  {
  }

  lemma {:induction false} HereAt(buf: string, e: nat, rest: string)
    requires FromHere(buf, e, rest)
    ensures At(buf, e) == At(rest, 0)
  {
  }

  // One token is read, and then the rest.
  lemma {:induction false} LexOne(buf: string, i: nat, s: nat, e: nat, t: Tok)
    requires Text(buf) && i <= s < |buf| && AllWhite(buf[i..s]) && TokOk(t) && e == s + |t.text|
    requires e <= |buf| && buf[s..e] == t.text && EndsHere(t, At(buf, e))
    ensures Lex(buf, i) == [t] + Lex(buf, e)
  {
    hide GetToken, Skip, TokOk, AllWhite, Lex, EndsHere, Peek, Starts;
    TokenNotEmpty(t);
    TokenRead(buf, i, s, t);
    LexHead(buf, i);
    LexSkip(buf, e);
    assert Lex(buf, i) == [Lex(buf, i)[0]] + Lex(buf, i)[1..];
  }

  // However the tokens are spaced out, they are read back.
  lemma {:induction false} LexSpell(buf: string, i: nat, ws: seq<string>, ts: seq<Tok>)
    requires |ws| == |ts| + 1 && Text(buf) && Spaced(ws, ts) && TokensOk(ts) && FromHere(buf, i, Spell(ws, ts))
    ensures Lex(buf, i) == ts
    decreases |ts|
  {
    hide Spaced, Spell, TokOk, TokensOk, AllWhite, Lex, EndsHere, Clings, At;
    if ts == [] {
      SpellEmpty(buf, i, ws, ts);
    } else {
      var t, rest := ts[0], Spell(ws[1..], ts[1..]);
      var s := i + |ws[0]|;
      var e := s + |t.text|;
      SpacedTail(ws, ts);
      SpellUnfold(ws, ts);
      SplitHere(buf, i, ws[0], t.text + rest);
      SplitHere(buf, s, t.text, rest);
      SpellHead(ws[1..], ts[1..], t);
      HereAt(buf, e, rest);
      TokenNotEmpty(t);
      LexOne(buf, i, s, e, t);
      LexSpell(buf, e, ws[1..], ts[1..]);
    }
  }

  lemma {:induction false} TokenNotEmpty(t: Tok)
    requires TokOk(t)
    ensures t.text != "" && t.kind != NUL
  {
  }

  lemma {:induction false} SpellUnfold(ws: seq<string>, ts: seq<Tok>)
    requires |ws| == |ts| + 1 && ts != []
    ensures Spell(ws, ts) == ws[0] + (ts[0].text + Spell(ws[1..], ts[1..]))
  {
  }

  lemma {:induction false} SpellEmpty(buf: string, i: nat, ws: seq<string>, ts: seq<Tok>)
    requires Text(buf) && Spaced(ws, ts) && FromHere(buf, i, Spell(ws, ts)) && ts == []
    ensures Lex(buf, i) == []
  {
    assert buf[i..|buf|] == ws[0] && AllWhite(ws[0]);
    SkipTo(buf, i, |buf|);
  }

  lemma {:induction false} SpellText(ws: seq<string>, ts: seq<Tok>)
    requires Spaced(ws, ts) && TokensOk(ts)
    ensures Text(Spell(ws, ts))
    decreases |ts|
  {
    assert AllWhite(ws[0]);
    if ts != [] {
      SpacedTail(ws, ts);
      SpellText(ws[1..], ts[1..]);
    }
  }

  // The white space before the token at i, the token, and the rest.
  lemma {:induction false} TokenParts(buf: string, i: nat) returns (s: nat, e: nat)
    requires Text(buf) && i <= |buf| && GetToken(buf, i).tok != NUL
    ensures s == Skip(buf, i) && i <= s < e <= |buf| && GetToken(buf, i).span == Span(s, e) && AllWhite(buf[i..s])
    ensures GetToken(buf, i).next == Skip(buf, e)
    ensures EndsHere(Tok(GetToken(buf, i).tok, buf[s..e]), At(buf, e))
  {
    s, e := Skip(buf, i), GetToken(buf, i).span.eq;
    assert s < |buf| && buf[s] != NUL;
  }

  // Tokens that cling have white space between them.
  lemma {:induction false} NoCling(buf: string, e: nat, t: Tok)
    requires Text(buf) && e <= |buf| && EndsHere(t, At(buf, e)) && Lex(buf, e) != [] && Clings(t, Lex(buf, e)[0])
    ensures buf[e..Skip(buf, e)] != ""
  {
    hide GetToken, Lex, Skip;
    LexHead(buf, e);
    KindOf(buf, e);
  }

  lemma {:induction false} SpacedCons(w: string, t: Tok, ws: seq<string>, ts: seq<Tok>)
    requires AllWhite(w) && Spaced(ws, ts) && (ts != [] && Clings(t, ts[0]) ==> ws[0] != "")
    ensures Spaced([w] + ws, [t] + ts) && Spell([w] + ws, [t] + ts) == w + (t.text + Spell(ws, ts))
  {
    assert ([w] + ws)[1..] == ws && ([t] + ts)[1..] == ts;
  }

  // Every text is its tokens and the white space around them.
  lemma {:induction false} LexCovers(buf: string, i: nat) returns (ws: seq<string>)
    requires Text(buf) && i <= |buf|
    ensures Spaced(ws, Lex(buf, i)) && Spell(ws, Lex(buf, i)) == buf[i..] && ws[0] == buf[i..Skip(buf, i)]
    decreases |buf| - i
  {
    hide GetToken, Skip, Clings, AllWhite;
    LexHead(buf, i);
    var ts := Lex(buf, i);
    if ts == [] {
      ws := [buf[i..]];
      RestWhite(buf, i);
    } else {
      var t := ts[0];
      var s, e := TokenParts(buf, i);
      LexSkip(buf, e);
      var more := LexCovers(buf, e);
      if ts[1..] != [] && Clings(t, ts[1]) { NoCling(buf, e, t); }
      SpacedCons(buf[i..s], t, more, ts[1..]);
      ws := [buf[i..s]] + more;
      assert [t] + ts[1..] == ts;
      assert buf[i..s] + (buf[s..e] + buf[e..]) == buf[i..];
    }
  }

  lemma {:induction false} RestWhite(buf: string, i: nat)
    requires i <= |buf| && Skip(buf, i) == |buf|
    ensures AllWhite(buf[i..]) && buf[i..] == buf[i..|buf|]
  {
  }

  // THE LANGUAGE OF THE SHELL. A text parses to command c exactly when it is some spelling of a derivation
  // that means c.
  lemma {:induction false} LanguageIff(buf: string, c: Command)
    requires Text(buf)
    ensures ParseCmd(buf).Ok? && Words(buf, ParseCmd(buf).cmd) == c <==>
            exists l, ws :: LineOk(l) && LineMeaning(l) == c && Spaced(ws, LineYield(l)) &&
                Spell(ws, LineYield(l)) == buf
  {
    hide LineOk, LineMeaning, LineYield, Spell, Lex, Words, ParseCmd;
    if ParseCmd(buf).Ok? && Words(buf, ParseCmd(buf).cmd) == c {
      ParsesIff(buf, c);
      var l :| LineOk(l) && LineYield(l) == Lex(buf, 0) && LineMeaning(l) == c;
      var ws := LexCovers(buf, 0);
      assert buf[0..] == buf;
    }
    forall l, ws | LineOk(l) && LineMeaning(l) == c && Spaced(ws, LineYield(l)) && Spell(ws, LineYield(l)) == buf
      ensures ParseCmd(buf).Ok? && Words(buf, ParseCmd(buf).cmd) == c
    {
      SpellingParses(l, ws);
    }
  }

  lemma {:induction false} RedirsTokens(rs: seq<Redirection>)
    requires RedirsOk(rs)
    ensures TokensOk(RedirsYield(rs))
    decreases |rs|
  {
    if rs != [] {
      assert RedirOk(rs[0]);
      RedirsTokens(rs[1..]);
    }
  }

  lemma {:induction false} ItemsTokens(items: seq<Item>)
    requires ItemsOk(items)
    ensures TokensOk(ItemsYield(items))
    decreases |items|
  {
    if items != [] {
      assert ItemOk(items[0]);
      ItemsTokens(items[1..]);
    }
  }

  lemma {:induction false} AmpsTokens(n: nat)
    ensures TokensOk(AmpsYield(n))
  {
    if n > 0 { AmpsTokens(n - 1); }
  }

  lemma {:induction false} ExecTokens(e: ExecRule)
    requires ExecOk(e)
    ensures TokensOk(ExecYield(e))
    decreases e
  {
    match e
    case Simple(items) => ItemsTokens(items);
    case Block(line, redirs) =>
      LineTokens(line);
      RedirsTokens(redirs);
  }

  lemma {:induction false} PipeTokens(p: PipeRule)
    requires PipeOk(p)
    ensures TokensOk(PipeYield(p))
    decreases p
  {
    ExecTokens(p.exec);
    if p.Into? { PipeTokens(p.rest); }
  }

  lemma {:induction false} LineTokens(l: LineRule)
    requires LineOk(l)
    ensures TokensOk(LineYield(l))
    decreases l
  {
    PipeTokens(l.pipe);
    AmpsTokens(l.amps);
    if l.Semi? { LineTokens(l.rest); }
  }

  // EVERY SPELLING. A derivation written out with any white space parses to its meaning.
  lemma {:induction false} SpellingParses(l: LineRule, ws: seq<string>)
    requires LineOk(l) && Spaced(ws, LineYield(l))
    ensures var buf := Spell(ws, LineYield(l));
            var r := ParseCmd(buf);
            Text(buf) && r.Ok? && SpansOk(buf, r.cmd) && Words(buf, r.cmd) == LineMeaning(l)
  {
    hide Spaced, LineYield, LineMeaning, LineOk, Spell, Lex, Words, SpansOk;
    var ts := LineYield(l);
    SpacedLength(ws, ts);
    var buf := Spell(ws, ts);
    LineTokens(l);
    SpellText(ws, ts);
    LexSpell(buf, 0, ws, ts);
    ParsesIff(buf, LineMeaning(l));
    LineSpans(buf, 0);
  }

  // ---------- ">>" is ">" ----------

  // A derivation with every ">>" written as ">".
  function RedirCut(r: Redirection): (c: Redirection) { if r.kind == '+' then r.(kind := '>') else r }

  function RedirsCut(rs: seq<Redirection>): (c: seq<Redirection>) {
    seq(|rs|, k requires 0 <= k < |rs| => RedirCut(rs[k]))
  }

  function ItemCut(i: Item): (c: Item) { if i.To? then To(RedirCut(i.redir)) else i }

  function ItemsCut(items: seq<Item>): (c: seq<Item>) {
    seq(|items|, k requires 0 <= k < |items| => ItemCut(items[k]))
  }

  function ExecCut(e: ExecRule): (c: ExecRule) {
    match e
    case Simple(items) => Simple(ItemsCut(items))
    case Block(line, redirs) => Block(LineCut(line), RedirsCut(redirs))
  }

  function PipeCut(p: PipeRule): (c: PipeRule) {
    match p
    case Last(e) => Last(ExecCut(e))
    case Into(e, rest) => Into(ExecCut(e), PipeCut(rest))
  }

  function LineCut(l: LineRule): (c: LineRule) {
    match l
    case Final(p, amps) => Final(PipeCut(p), amps)
    case Semi(p, amps, rest) => Semi(PipeCut(p), amps, LineCut(rest))
  }

  lemma {:induction false} RedirsCutSame(c: Command, rs: seq<Redirection>)
    ensures Wrap(c, RedirsCut(rs)) == Wrap(c, rs)
    decreases |rs|
  {
    if rs != [] {
      var n := |rs| - 1;
      assert RedirsCut(rs)[..n] == RedirsCut(rs[..n]);
      RedirsCutSame(c, rs[..n]);
    }
  }

  lemma {:induction false} ItemsCutSame(items: seq<Item>)
    ensures ArgsOf(ItemsCut(items)) == ArgsOf(items) && RedirsOf(ItemsCut(items)) == RedirsCut(RedirsOf(items))
  {
    if items != [] {
      assert ItemsCut(items)[1..] == ItemsCut(items[1..]);
      ItemsCutSame(items[1..]);
    }
  }

  lemma {:induction false} ExecCutSame(e: ExecRule)
    ensures ExecMeaning(ExecCut(e)) == ExecMeaning(e) && (ExecOk(e) ==> ExecOk(ExecCut(e)))
    decreases e
  {
    match e
    case Simple(items) =>
      ItemsCutSame(items);
      RedirsCutSame(Exec(ArgsOf(items)), RedirsOf(items));
    case Block(line, redirs) =>
      LineCutSame(line);
      RedirsCutSame(LineMeaning(line), redirs);
  }

  lemma {:induction false} PipeCutSame(p: PipeRule)
    ensures PipeMeaning(PipeCut(p)) == PipeMeaning(p) && (PipeOk(p) ==> PipeOk(PipeCut(p)))
    decreases p
  {
    ExecCutSame(p.exec);
    if p.Into? { PipeCutSame(p.rest); }
  }

  lemma {:induction false} LineCutSame(l: LineRule)
    ensures LineMeaning(LineCut(l)) == LineMeaning(l) && (LineOk(l) ==> LineOk(LineCut(l)))
    decreases l
  {
    PipeCutSame(l.pipe);
    if l.Semi? { LineCutSame(l.rest); }
  }

  // A line and the same line with ">" for every ">>", each with any white space, parse to one command.
  lemma {:induction false} AppendIsTruncate(l: LineRule, ws: seq<string>, vs: seq<string>)
    requires LineOk(l) && Spaced(ws, LineYield(l)) && Spaced(vs, LineYield(LineCut(l)))
    ensures LineOk(LineCut(l))
    ensures var a, b := Spell(ws, LineYield(l)), Spell(vs, LineYield(LineCut(l)));
            && ParseCmd(a).Ok? && ParseCmd(b).Ok? && SpansOk(a, ParseCmd(a).cmd) && SpansOk(b, ParseCmd(b).cmd)
            && Words(a, ParseCmd(a).cmd) == Words(b, ParseCmd(b).cmd)
  {
    hide Spaced, LineYield, LineMeaning, LineOk, Spell, Words, SpansOk, ParseCmd, LineCut;
    LineCutSame(l);
    SpellingParses(l, ws);
    SpellingParses(LineCut(l), vs);
  }

  lemma {:induction false} SpacedLength(ws: seq<string>, ts: seq<Tok>)
    requires Spaced(ws, ts)
    ensures |ws| == |ts| + 1
  {
  }

  // ---------- the round trip ----------

  // Commands the shell can hold: non-empty plain words, at most nine arguments.
  predicate CmdOk(t: Command) {
    match t
    case Exec(argv) => |argv| < MAXARGS && forall j :: 0 <= j < |argv| ==> WordOk(argv[j])
    case Redir(c, f, _) => CmdOk(c) && WordOk(f)
    case Pipe(l, r) => CmdOk(l) && CmdOk(r)
    case List(l, r) => CmdOk(l) && CmdOk(r)
    case Back(c) => CmdOk(c)
  }

  // A command without the redirections around it, and those, innermost first.
  function Inside(t: Command): (c: Command)
    ensures !c.Redir? && (t.Redir? ==> c < t) && (!t.Redir? ==> c == t)
  {
    if t.Redir? then Inside(t.cmd) else t
  }

  function Around(t: Command): (rs: seq<Redirection>) {
    if t.Redir? then Around(t.cmd) + [Redirection(if t.dir == In then '<' else '>', t.file)] else []
  }

  // A command without the "&" after it, and their number.
  function Front(t: Command): (c: Command)
    ensures !c.Back? && (t.Back? ==> c < t) && (!t.Back? ==> c == t)
  {
    if t.Back? then Front(t.cmd) else t
  }

  function Amps(t: Command): (n: nat) { if t.Back? then Amps(t.cmd) + 1 else 0 }

  function ItemsFor(argv: seq<string>, rs: seq<Redirection>): (items: seq<Item>) {
    if argv != [] then [Arg(argv[0])] + ItemsFor(argv[1..], rs)
    else if rs != [] then [To(rs[0])] + ItemsFor(argv, rs[1..])
    else []
  }

  // The derivation with parentheses only where the grammar needs them: around a pipe, list or background
  // command that is redirected or is the left part of a pipe, around a list or background command at the
  // right end of a pipe, and around a list that is the left part of a list or runs in the background.
  function ExecFor(t: Command): (e: ExecRule)
    decreases t, if t.Exec? || t.Redir? then 0 else 3
  {
    var c := Inside(t);
    if c.Exec? then Simple(ItemsFor(c.argv, Around(t))) else Block(LineFor(c), Around(t))
  }

  function PipeFor(t: Command): (p: PipeRule)
    decreases t, if t.List? || t.Back? then 4 else 1
  {
    if t.Pipe? then Into(ExecFor(t.left), PipeFor(t.right)) else Last(ExecFor(t))
  }

  function LineFor(t: Command): (l: LineRule)
    decreases t, 2
  {
    if t.List? then Semi(PipeFor(Front(t.left)), Amps(t.left), LineFor(t.right))
    else Final(PipeFor(Front(t)), Amps(t))
  }

  lemma {:induction false} NothingAround(t: Command)
    ensures Wrap(t, []) == t
  {
  }

  lemma {:induction false} AroundInside(t: Command)
    requires CmdOk(t)
    ensures Wrap(Inside(t), Around(t)) == t && CmdOk(Inside(t)) && RedirsOk(Around(t))
  {
    hide Wrap, WordOk;
    if !t.Redir? {
      NothingAround(t);
    } else {
      AroundInside(t.cmd);
      WrapLast(Inside(t.cmd), Around(t.cmd), Redirection(if t.dir == In then '<' else '>', t.file));
    }
  }

  lemma {:induction false} FrontAmps(t: Command)
    requires CmdOk(t)
    ensures Backs(Front(t), Amps(t)) == t && CmdOk(Front(t))
  {
    if t.Back? { FrontAmps(t.cmd); }
  }

  lemma {:induction false} ItemsForMean(argv: seq<string>, rs: seq<Redirection>)
    requires RedirsOk(rs) && forall j :: 0 <= j < |argv| ==> WordOk(argv[j])
    ensures ArgsOf(ItemsFor(argv, rs)) == argv && RedirsOf(ItemsFor(argv, rs)) == rs && ItemsOk(ItemsFor(argv, rs))
    decreases |argv|, |rs|
  {
    var items := ItemsFor(argv, rs);
    if argv != [] {
      ItemsForMean(argv[1..], rs);
      assert items[1..] == ItemsFor(argv[1..], rs);
    } else if rs != [] {
      ItemsForMean(argv, rs[1..]);
      assert items[1..] == ItemsFor(argv, rs[1..]);
    }
  }

  lemma {:induction false} ExecForMeans(t: Command)
    requires CmdOk(t)
    ensures ExecOk(ExecFor(t)) && ExecMeaning(ExecFor(t)) == t
    decreases t, if t.Exec? || t.Redir? then 0 else 3
  {
    AroundInside(t);
    var c := Inside(t);
    if c.Exec? { ItemsForMean(c.argv, Around(t)); } else { LineForMeans(c); }
  }

  lemma {:induction false} PipeForMeans(t: Command)
    requires CmdOk(t)
    ensures PipeOk(PipeFor(t)) && PipeMeaning(PipeFor(t)) == t
    decreases t, if t.List? || t.Back? then 4 else 1
  {
    if t.Pipe? {
      ExecForMeans(t.left);
      PipeForMeans(t.right);
    } else {
      ExecForMeans(t);
    }
  }

  lemma {:induction false} LineForMeans(t: Command)
    requires CmdOk(t)
    ensures LineOk(LineFor(t)) && LineMeaning(LineFor(t)) == t
    decreases t, 2
  {
    if t.List? {
      FrontAmps(t.left);
      PipeForMeans(Front(t.left));
      LineForMeans(t.right);
    } else {
      FrontAmps(t);
      PipeForMeans(Front(t));
    }
  }

  // ROUND TRIP. Every command, written with parentheses only where they are needed and with any white
  // space, is returned unchanged by parsecmd, with all input consumed.
  lemma {:induction false} RoundTrip(t: Command, ws: seq<string>)
    requires CmdOk(t) && Spaced(ws, LineYield(LineFor(t)))
    ensures var buf := Spell(ws, LineYield(LineFor(t)));
            var r := ParseCmd(buf);
            Text(buf) && r.Ok? && SpansOk(buf, r.cmd) && Words(buf, r.cmd) == t
  {
    hide Spaced, LineYield, LineFor, LineMeaning, LineOk, Spell, Words, SpansOk, ParseCmd;
    LineForMeans(t);
    SpellingParses(LineFor(t), ws);
  }
}
