/** parsecmd of sh.c with its loops, and nulterminate writing into the line buffer. */
module Shell {
  import opened ShellParser

  /** The loop over white space that gettoken has twice and peek once. */
  method SkipBlanks(s: string, p: nat) returns (r: nat)
    requires p <= |s|
    ensures r == SkipWhite(s, p)
  {
    r := p;
    while r < |s| && White(s[r])
      invariant p <= r <= |s| && SkipWhite(s, p) == SkipWhite(s, r)
    {
      r := r + 1;
    }
  }

  method GetTok(s: string, p: nat) returns (t: Token)
    requires p <= |s|
    ensures t == GetToken(s, p)
  {
    hide SkipWhite, White;
    var q := SkipBlanks(s, p);
    if q == |s| {
      return Token(End, q, q, q);
    }
    var eq := q;
    var kind;
    if s[q] == '>' {
      eq := eq + 1;
      kind := Sym('>');
      if eq < |s| && s[eq] == '>' {
        kind := Append;
        eq := eq + 1;
      }
    } else if Symbol(s[q]) {
      kind := Sym(s[q]);
      eq := eq + 1;
    } else {
      kind := Word;
      while eq < |s| && !White(s[eq]) && !Symbol(s[eq])
        invariant q <= eq <= |s| && WordEnd(s, q) == WordEnd(s, eq)
      {
        eq := eq + 1;
      }
    }
    var next := SkipBlanks(s, eq);
    return Token(kind, q, eq, next);
  }

  method Peek(s: string, p: nat, toks: string) returns (r: bool, next: nat)
    requires p <= |s|
    ensures next == SkipWhite(s, p) && r == (next < |s| && s[next] in toks)
  {
    next := SkipBlanks(s, p);
    r := next < |s| && s[next] in toks;
  }

  /** parseredirs: the redirections to put around the command, first innermost. */
  method ParseRedirs(s: string, p: nat) returns (r: Redirs)
    requires p <= |s|
    ensures r == RedirList(s, p)
  {
    hide SkipWhite, GetToken;
    var ops: seq<RedirOp> := [];
    var more, cur := Peek(s, p, "<>");
    PeekAgain(s, p);
    while more
      invariant p <= cur <= |s| && cur == SkipWhite(s, cur) && more == (Sees(s, cur, '<') || Sees(s, cur, '>'))
      invariant RedirList(s, p) == Prefixed(ops, RedirList(s, cur))
      decreases |s| - cur
    {
      var op := GetTok(s, cur);
      var file := GetTok(s, op.next);
      RedirStep(s, cur, ops);
      if file.kind != Word {
        return NoFile;
      }
      ops := ops + [RedirOp(Span(file.q, file.eq), op.kind != Sym('<'))];
      PeekAgain(s, file.next);
      more, cur := Peek(s, file.next, "<>");
    }
    return Ops(ops, cur);
  }

  ghost function Prefixed(ops: seq<RedirOp>, r: Redirs): Redirs {
    if r == NoFile then NoFile else Ops(ops + r.ops, r.next)
  }

  lemma PeekAgain(s: string, p: nat)
    requires p <= |s|
    ensures SkipWhite(s, SkipWhite(s, p)) == SkipWhite(s, p) && RedirList(s, SkipWhite(s, p)) == RedirList(s, p)
  {
  }

  lemma RedirStep(s: string, cur: nat, ops: seq<RedirOp>)
    requires cur <= |s| && cur == SkipWhite(s, cur) && (Sees(s, cur, '<') || Sees(s, cur, '>'))
    ensures var op := GetToken(s, cur);
            var file := GetToken(s, op.next);
            && op.next > cur && file.next >= op.next
            && (file.kind != Word ==> Prefixed(ops, RedirList(s, cur)) == NoFile)
            && (file.kind == Word ==>
                  Prefixed(ops, RedirList(s, cur))
                  == Prefixed(ops + [RedirOp(Span(file.q, file.eq), op.kind != Sym('<'))], RedirList(s, file.next)))
  {
    hide SkipWhite;
    var op := GetToken(s, cur);
    var file := GetToken(s, op.next);
    var rest := RedirList(s, file.next);
    if rest.Ops? {
      var first := RedirOp(Span(file.q, file.eq), op.kind != Sym('<'));
      assert ops + ([first] + rest.ops) == ops + [first] + rest.ops;
    }
  }

  /** parseexec. */
  method ParseExecCmd(s: string, p: nat) returns (r: Result)
    requires p <= |s|
    ensures r == ParseExec(s, p)
    decreases |s| - p, 1
  {
    hide SkipWhite, GetToken, RedirList, ParseBlock, WrapSpans;
    var block, cur := Peek(s, p, "(");
    if block {
      r := ParseBlockCmd(s, cur);
      return;
    }
    var argv: seq<Span> := [];
    var rs := ParseRedirs(s, cur);
    if rs == NoFile {
      return Panic;
    }
    var ops := rs.ops;
    cur := rs.next;
    while true
      invariant p <= cur <= |s| && ParseExec(s, p) == ParseArgs(s, cur, argv, ops)
      decreases |s| - cur
    {
      var stop, at := Peek(s, cur, "|)&;");
      if stop {
        return Ok(WrapSpans(Exec(argv), ops), at);
      }
      var t := GetTok(s, at);
      if t.kind == End {
        return Ok(WrapSpans(Exec(argv), ops), t.next);
      }
      if t.kind != Word {
        return Panic;
      }
      if |argv| + 1 >= MAXARGS {
        return Panic;
      }
      var more := ParseRedirs(s, t.next);
      if more == NoFile {
        return Panic;
      }
      argv := argv + [Span(t.q, t.eq)];
      ops := ops + more.ops;
      cur := more.next;
    }
  }

  method ParseBlockCmd(s: string, p: nat) returns (r: Result)
    requires p <= |s| && Sees(s, p, '(')
    ensures r == ParseBlock(s, p)
    decreases |s| - p, 0
  {
    hide SkipWhite, RedirList, ParseLine, WrapSpans;
    var open := GetTok(s, p);
    var inner := ParseLineCmd(s, open.next);
    if inner == Panic {
      return Panic;
    }
    var close, cur := Peek(s, inner.next, ")");
    if !close {
      return Panic;
    }
    var t := GetTok(s, cur);
    var rs := ParseRedirs(s, t.next);
    return if rs == NoFile then Panic else Ok(WrapSpans(inner.cmd, rs.ops), rs.next);
  }

  method ParsePipeCmd(s: string, p: nat) returns (r: Result)
    requires p <= |s|
    ensures r == ParsePipe(s, p)
    decreases |s| - p, 2
  {
    hide SkipWhite, ParseExec;
    var left := ParseExecCmd(s, p);
    if left == Panic {
      return Panic;
    }
    var bar, cur := Peek(s, left.next, "|");
    if !bar {
      return Ok(left.cmd, cur);
    }
    var t := GetTok(s, cur);
    var right := ParsePipeCmd(s, t.next);
    return if right == Panic then Panic else Ok(Pipe(left.cmd, right.cmd), right.next);
  }

  method ParseLineCmd(s: string, p: nat) returns (r: Result)
    requires p <= |s|
    ensures r == ParseLine(s, p)
    decreases |s| - p, 3
  {
    hide SkipWhite, ParsePipe;
    var first := ParsePipeCmd(s, p);
    if first == Panic {
      return Panic;
    }
    var c := first.cmd;
    BacksAgain(s, first.next, c);
    var amp, cur := Peek(s, first.next, "&");
    while amp
      invariant p <= cur <= |s| && cur == SkipWhite(s, cur) && amp == Sees(s, cur, '&')
      invariant Backs(s, first.next, first.cmd) == Backs(s, cur, c)
      decreases |s| - cur
    {
      var t := GetTok(s, cur);
      c := Back(c);
      BacksAgain(s, t.next, c);
      amp, cur := Peek(s, t.next, "&");
    }
    var semi;
    semi, cur := Peek(s, cur, ";");
    if !semi {
      return Ok(c, cur);
    }
    var t := GetTok(s, cur);
    var rest := ParseLineCmd(s, t.next);
    return if rest == Panic then Panic else Ok(List(c, rest.cmd), rest.next);
  }

  lemma BacksAgain(s: string, p: nat, c: Cmd<Span>)
    requires p <= |s|
    ensures SkipWhite(s, SkipWhite(s, p)) == SkipWhite(s, p) && Backs(s, SkipWhite(s, p), c) == Backs(s, p, c)
  {
  }

  /** nulterminate. */
  method NulTerminate(buf: array<char>, c: Cmd<Span>)
    requires forall e :: e in Ends(c) ==> e < buf.Length
    modifies buf
    ensures Cut(old(buf[..]), buf[..], Ends(c))
    decreases c
  {
    match c
    case Exec(argv) =>
      var i := 0;
      while i < |argv|
        invariant i <= |argv| && Cut(old(buf[..]), buf[..], set j | 0 <= j < i :: argv[j].eq)
      {
        assert argv[i].eq in Ends(c);
        buf[argv[i].eq] := '\0';
        i := i + 1;
      }
    case Redir(d, file, _) =>
      assert Ends(c) == Ends(d) + {file.eq};
      NulTerminate(buf, d);
      buf[file.eq] := '\0';
    case Pipe(l, r) =>
      assert Ends(c) == Ends(l) + Ends(r);
      NulTerminate(buf, l);
      NulTerminate(buf, r);
    case List(l, r) =>
      assert Ends(c) == Ends(l) + Ends(r);
      NulTerminate(buf, l);
      NulTerminate(buf, r);
    case Back(d) =>
      assert Ends(c) == Ends(d);
      NulTerminate(buf, d);
  }

  /** parsecmd: if it does not panic, every argument and file name of the command is, as a C
      string in the buffer, the word of the line that the parser took. */
  method ParseBuffer(buf: array<char>) returns (r: Result, ghost line: string)
    requires '\0' in buf[..]
    modifies buf
    ensures |line| < buf.Length && '\0' !in line && line + ['\0'] == old(buf[..|line| + 1])
    ensures r == ParseCmd(line)
    ensures r == Panic ==> buf[..] == old(buf[..])
    ensures r.Ok? ==> forall w :: Mentions(r.cmd, w) ==> w.q < w.eq <= |line| && StringAt(buf[..], w.q, line[w.q..w.eq])
  {
    var n := 0;
    while buf[n] != '\0'
      invariant n < buf.Length && '\0' !in buf[..n] && '\0' in buf[n..]
      decreases buf.Length - n
    {
      n := n + 1;
    }
    var s := buf[..n];
    line := s;
    var got := ParseLineCmd(s, 0);
    if got == Panic {
      return Panic, line;
    }
    var none, cur := Peek(s, got.next, "");
    if cur != n {
      return Panic, line;
    }
    LineWords(s, 0);
    ghost var was := buf[..];
    forall e | e in Ends(got.cmd) ensures e < buf.Length { EndsOutside(s, got.cmd, e); }
    NulTerminate(buf, got.cmd);
    forall w | Mentions(got.cmd, w) ensures w.q < w.eq <= |line| && StringAt(buf[..], w.q, line[w.q..w.eq]) {
      CutFront(was, buf[..], Ends(got.cmd), n);
      StringsAreWords(s, buf[..n + 1], got.cmd, w);
      Longer(buf[..n + 1], buf[..], w.q, line[w.q..w.eq]);
    }
    return Ok(got.cmd, n), line;
  }

  lemma CutFront(line: seq<char>, buf: seq<char>, e: set<nat>, n: nat)
    requires Cut(line, buf, e) && n < |line| && line[n] == '\0'
    ensures Cut(line[..n] + ['\0'], buf[..n + 1], e)
  {
  }

  lemma Longer(front: seq<char>, buf: seq<char>, q: nat, w: string)
    requires front <= buf && StringAt(front, q, w)
    ensures StringAt(buf, q, w)
  {
    assert buf[q..q + |w|] == front[q..q + |w|];
  }
}
