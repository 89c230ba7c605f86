/** The parser of sh.c as functions of the line and a position.  A line is the bytes before its
    terminating NUL; a panic of the shell is the result Panic. */
module ShellParser {

  const MAXARGS: nat := 10

  /** Where a word starts and ends in the line. */
  datatype Span = Span(q: nat, eq: nat)

  datatype Cmd<W> =
    | Exec(argv: seq<W>)
    | Redir(cmd: Cmd<W>, file: W, out: bool)
    | Pipe(left: Cmd<W>, right: Cmd<W>)
    | List(left: Cmd<W>, right: Cmd<W>)
    | Back(cmd: Cmd<W>)

  datatype Token = Token(kind: Kind, q: nat, eq: nat, next: nat)

  datatype Kind = End | Sym(c: char) | Append | Word

  datatype Result = Ok(cmd: Cmd<Span>, next: nat) | Panic

  datatype RedirOp = RedirOp(file: Span, out: bool)

  datatype Redirs = Ops(ops: seq<RedirOp>, next: nat) | NoFile

  predicate White(c: char) {
    c == ' ' || c == '\t' || c == '\r' || c == '\n' || c as int == 11
  }

  predicate Symbol(c: char) {
    c == '<' || c == '|' || c == '>' || c == '&' || c == ';' || c == '(' || c == ')'
  }

  predicate WordChar(c: char) {
    !White(c) && !Symbol(c)
  }

  /** A longest stretch of word characters, such as gettoken returns. */
  ghost predicate IsWord(s: string, w: Span) {
    && w.q < w.eq <= |s| && (forall i :: w.q <= i < w.eq ==> WordChar(s[i]))
    && (w.eq == |s| || !WordChar(s[w.eq]))
  }

  ghost predicate AllWords(s: string, c: Cmd<Span>) {
    match c
    case Exec(argv) => |argv| < MAXARGS && forall i :: 0 <= i < |argv| ==> IsWord(s, argv[i])
    case Redir(d, file, _) => AllWords(s, d) && IsWord(s, file)
    case Pipe(l, r) => AllWords(s, l) && AllWords(s, r)
    case List(l, r) => AllWords(s, l) && AllWords(s, r)
    case Back(d) => AllWords(s, d)
  }

  // ---- Tokens ----

  function SkipWhite(s: string, p: nat): (r: nat)
    requires p <= |s|
    ensures p <= r <= |s| && (r < |s| ==> !White(s[r])) && forall i :: p <= i < r ==> White(s[i])
    decreases |s| - p
  {
    if p < |s| && White(s[p]) then SkipWhite(s, p + 1) else p
  }

  function WordEnd(s: string, p: nat): (r: nat)
    requires p <= |s|
    ensures p <= r <= |s| && (r < |s| ==> !WordChar(s[r])) && forall i :: p <= i < r ==> WordChar(s[i])
    decreases |s| - p
  {
    if p < |s| && WordChar(s[p]) then WordEnd(s, p + 1) else p
  }

  function KindAt(s: string, q: nat): Kind
    requires q < |s|
  {
    if s[q] == '>' && q + 1 < |s| && s[q + 1] == '>' then Append else if Symbol(s[q]) then Sym(s[q]) else Word
  }

  function GetToken(s: string, p: nat): (t: Token)
    requires p <= |s|
    ensures p <= t.q <= t.eq <= t.next <= |s| && (t.kind != End ==> p < t.next)
    ensures t.kind == Word ==> IsWord(s, Span(t.q, t.eq))
  {
    var q := SkipWhite(s, p);
    if q == |s| then Token(End, q, q, q)
    else
      var kind := KindAt(s, q);
      var eq := match kind case Word => WordEnd(s, q) case Append => q + 2 case _ => q + 1;
      Token(kind, q, eq, SkipWhite(s, eq))
  }

  /** peek for one character, from a position that has no white space before it. */
  predicate Sees(s: string, p: nat, c: char) {
    p < |s| && s[p] == c
  }

  /** Past the symbol at p and the white space after it. */
  function Past(s: string, p: nat): (r: nat)
    requires p < |s| && Symbol(s[p])
    ensures p < r <= |s| && r == GetToken(s, p).next
  {
    GetToken(s, p).next
  }

  // ---- The grammar ----

  function RedirList(s: string, p: nat): (r: Redirs)
    requires p <= |s|
    ensures r.Ops? ==> p <= r.next <= |s| && forall i :: 0 <= i < |r.ops| ==> IsWord(s, r.ops[i].file)
    decreases |s| - p
  {
    var p1 := SkipWhite(s, p);
    if !Sees(s, p1, '<') && !Sees(s, p1, '>') then Ops([], p1)
    else
      var op := GetToken(s, p1);
      var file := GetToken(s, op.next);
      if file.kind != Word then NoFile
      else
        var rest := RedirList(s, file.next);
        if rest == NoFile then NoFile
        else Ops([RedirOp(Span(file.q, file.eq), op.kind != Sym('<'))] + rest.ops, rest.next)
  }

  function WrapSpans(c: Cmd<Span>, ops: seq<RedirOp>): Cmd<Span>
    decreases ops
  {
    if ops == [] then c else WrapSpans(Redir(c, ops[0].file, ops[0].out), ops[1..])
  }

  predicate EndsCommand(s: string, p: nat) {
    Sees(s, p, '|') || Sees(s, p, ')') || Sees(s, p, '&') || Sees(s, p, ';')
  }

  function ParseArgs(s: string, p: nat, argv: seq<Span>, ops: seq<RedirOp>): (r: Result)
    requires p <= |s|
    ensures r.Ok? ==> p <= r.next <= |s|
    decreases |s| - p
  {
    var p1 := SkipWhite(s, p);
    if EndsCommand(s, p1) then Ok(WrapSpans(Exec(argv), ops), p1)
    else
      var t := GetToken(s, p1);
      if t.kind == End then Ok(WrapSpans(Exec(argv), ops), t.next)
      else if t.kind != Word || |argv| + 1 >= MAXARGS then Panic
      else
        var rs := RedirList(s, t.next);
        if rs == NoFile then Panic else ParseArgs(s, rs.next, argv + [Span(t.q, t.eq)], ops + rs.ops)
  }

  function ParseExec(s: string, p: nat): (r: Result)
    requires p <= |s|
    ensures r.Ok? ==> p <= r.next <= |s|
    decreases |s| - p, 1
  {
    var p1 := SkipWhite(s, p);
    if Sees(s, p1, '(') then ParseBlock(s, p1)
    else
      var rs := RedirList(s, p1);
      if rs == NoFile then Panic else ParseArgs(s, rs.next, [], rs.ops)
  }

  function ParseBlock(s: string, p: nat): (r: Result)
    requires p <= |s| && Sees(s, p, '(')
    ensures r.Ok? ==> p <= r.next <= |s|
    decreases |s| - p, 0
  {
    var inner := ParseLine(s, Past(s, p));
    if inner == Panic then Panic
    else
      var p1 := SkipWhite(s, inner.next);
      if !Sees(s, p1, ')') then Panic
      else
        var rs := RedirList(s, Past(s, p1));
        if rs == NoFile then Panic else Ok(WrapSpans(inner.cmd, rs.ops), rs.next)
  }

  function ParsePipe(s: string, p: nat): (r: Result)
    requires p <= |s|
    ensures r.Ok? ==> p <= r.next <= |s|
    decreases |s| - p, 2
  {
    var left := ParseExec(s, p);
    if left == Panic then Panic
    else
      var p1 := SkipWhite(s, left.next);
      if !Sees(s, p1, '|') then Ok(left.cmd, p1)
      else
        var right := ParsePipe(s, Past(s, p1));
        if right == Panic then Panic else Ok(Pipe(left.cmd, right.cmd), right.next)
  }

  function Backs(s: string, p: nat, c: Cmd<Span>): (r: (Cmd<Span>, nat))
    requires p <= |s|
    ensures p <= r.1 <= |s|
    decreases |s| - p
  {
    var p1 := SkipWhite(s, p);
    if Sees(s, p1, '&') then Backs(s, Past(s, p1), Back(c)) else (c, p1)
  }

  function ParseLine(s: string, p: nat): (r: Result)
    requires p <= |s|
    ensures r.Ok? ==> p <= r.next <= |s|
    decreases |s| - p, 3
  {
    var first := ParsePipe(s, p);
    if first == Panic then Panic
    else
      var (c, p1) := Backs(s, first.next, first.cmd);
      if !Sees(s, p1, ';') then Ok(c, p1)
      else
        var rest := ParseLine(s, Past(s, p1));
        if rest == Panic then Panic else Ok(List(c, rest.cmd), rest.next)
  }

  function ParseCmd(s: string): (r: Result) {
    var line := ParseLine(s, 0);
    if line == Panic || SkipWhite(s, line.next) != |s| then Panic else Ok(line.cmd, |s|)
  }

  // ---- Every string of a parsed command is a word of the line ----

  lemma {:induction false} WrapWords(s: string, c: Cmd<Span>, ops: seq<RedirOp>)
    requires AllWords(s, c) && forall i :: 0 <= i < |ops| ==> IsWord(s, ops[i].file)
    ensures AllWords(s, WrapSpans(c, ops))
    decreases ops
  {
    hide IsWord;
    if ops != [] { WrapWords(s, Redir(c, ops[0].file, ops[0].out), ops[1..]); }
  }

  lemma {:induction false} ArgsWords(s: string, p: nat, argv: seq<Span>, ops: seq<RedirOp>)
    requires p <= |s| && AllWords(s, Exec(argv)) && forall i :: 0 <= i < |ops| ==> IsWord(s, ops[i].file)
    ensures ParseArgs(s, p, argv, ops).Ok? ==> AllWords(s, ParseArgs(s, p, argv, ops).cmd)
    decreases |s| - p
  {
    hide IsWord, SkipWhite, GetToken, RedirList, WrapSpans;
    WrapWords(s, Exec(argv), ops);
    var t := GetToken(s, SkipWhite(s, p));
    if t.kind == Word && |argv| + 1 < MAXARGS {
      var rs := RedirList(s, t.next);
      if rs.Ops? { ArgsWords(s, rs.next, argv + [Span(t.q, t.eq)], ops + rs.ops); }
    }
  }

  lemma {:induction false} ExecWords(s: string, p: nat)
    requires p <= |s|
    ensures ParseExec(s, p).Ok? ==> AllWords(s, ParseExec(s, p).cmd)
    decreases |s| - p, 1
  {
    hide IsWord, SkipWhite, GetToken, RedirList, ParseArgs;
    var p1 := SkipWhite(s, p);
    if Sees(s, p1, '(') {
      BlockWords(s, p1);
    } else {
      var rs := RedirList(s, p1);
      if rs.Ops? { ArgsWords(s, rs.next, [], rs.ops); }
    }
  }

  lemma {:induction false} BlockWords(s: string, p: nat)
    requires p <= |s| && Sees(s, p, '(')
    ensures ParseBlock(s, p).Ok? ==> AllWords(s, ParseBlock(s, p).cmd)
    decreases |s| - p, 0
  {
    hide IsWord, SkipWhite, RedirList, ParseLine, WrapSpans;
    var inner := ParseLine(s, GetToken(s, p).next);
    LineWords(s, GetToken(s, p).next);
    if inner.Ok? && Sees(s, SkipWhite(s, inner.next), ')') {
      var rs := RedirList(s, GetToken(s, SkipWhite(s, inner.next)).next);
      if rs.Ops? { WrapWords(s, inner.cmd, rs.ops); }
    }
  }

  lemma {:induction false} PipeWords(s: string, p: nat)
    requires p <= |s|
    ensures ParsePipe(s, p).Ok? ==> AllWords(s, ParsePipe(s, p).cmd)
    decreases |s| - p, 2
  {
    hide IsWord, SkipWhite, ParseExec;
    ExecWords(s, p);
    var left := ParseExec(s, p);
    if left.Ok? && Sees(s, SkipWhite(s, left.next), '|') { PipeWords(s, GetToken(s, SkipWhite(s, left.next)).next); }
  }

  lemma {:induction false} BacksWords(s: string, p: nat, c: Cmd<Span>)
    requires p <= |s| && AllWords(s, c)
    ensures AllWords(s, Backs(s, p, c).0)
    decreases |s| - p
  {
    hide IsWord, SkipWhite;
    var p1 := SkipWhite(s, p);
    if Sees(s, p1, '&') { BacksWords(s, GetToken(s, p1).next, Back(c)); }
  }

  lemma {:induction false} LineWords(s: string, p: nat)
    requires p <= |s|
    ensures ParseLine(s, p).Ok? ==> AllWords(s, ParseLine(s, p).cmd)
    decreases |s| - p, 3
  {
    hide IsWord, SkipWhite, ParsePipe, Backs;
    PipeWords(s, p);
    var first := ParsePipe(s, p);
    if first.Ok? {
      BacksWords(s, first.next, first.cmd);
      var p1 := Backs(s, first.next, first.cmd).1;
      if Sees(s, p1, ';') { LineWords(s, GetToken(s, p1).next); }
    }
  }

  // ---- nulterminate ----

  ghost function Ends(c: Cmd<Span>): set<nat> {
    match c
    case Exec(argv) => set i | 0 <= i < |argv| :: argv[i].eq
    case Redir(d, file, _) => Ends(d) + {file.eq}
    case Pipe(l, r) => Ends(l) + Ends(r)
    case List(l, r) => Ends(l) + Ends(r)
    case Back(d) => Ends(d)
  }

  ghost predicate Mentions(c: Cmd<Span>, w: Span) {
    match c
    case Exec(argv) => w in argv
    case Redir(d, file, _) => Mentions(d, w) || w == file
    case Pipe(l, r) => Mentions(l, w) || Mentions(r, w)
    case List(l, r) => Mentions(l, w) || Mentions(r, w)
    case Back(d) => Mentions(d, w)
  }

  lemma {:induction false} MentionsEnds(s: string, c: Cmd<Span>, w: Span)
    requires AllWords(s, c) && Mentions(c, w)
    ensures w.eq in Ends(c) && IsWord(s, w)
  {
    match c
    case Exec(argv) =>
    case Redir(d, file, _) => if Mentions(d, w) { MentionsEnds(s, d, w); }
    case Pipe(l, r) => if Mentions(l, w) { MentionsEnds(s, l, w); } else { MentionsEnds(s, r, w); }
    case List(l, r) => if Mentions(l, w) { MentionsEnds(s, l, w); } else { MentionsEnds(s, r, w); }
    case Back(d) => MentionsEnds(s, d, w);
  }

  /** No end of a word is inside a word. */
  lemma {:induction false} EndsOutside(s: string, c: Cmd<Span>, e: nat)
    requires AllWords(s, c) && e in Ends(c)
    ensures e == |s| || (e < |s| && !WordChar(s[e]))
  {
    match c
    case Exec(argv) =>
    case Redir(d, file, _) => if e in Ends(d) { EndsOutside(s, d, e); }
    case Pipe(l, r) => if e in Ends(l) { EndsOutside(s, l, e); } else { EndsOutside(s, r, e); }
    case List(l, r) => if e in Ends(l) { EndsOutside(s, l, e); } else { EndsOutside(s, r, e); }
    case Back(d) => EndsOutside(s, d, e);
  }

  /** The C string that starts at q. */
  ghost predicate StringAt(buf: seq<char>, q: nat, w: string) {
    q + |w| < |buf| && buf[q..q + |w|] == w && buf[q + |w|] == '\0' && '\0' !in w
  }

  /** buf is the line with a NUL written at every end in e. */
  ghost predicate Cut(line: seq<char>, buf: seq<char>, e: set<nat>) {
    |buf| == |line| && forall i: nat :: i < |line| ==> buf[i] == if i in e then '\0' else line[i]
  }

  /** After the NULs are written, every argument and file name is its word: no NUL falls inside one. */
  lemma StringsAreWords(s: string, buf: seq<char>, c: Cmd<Span>, w: Span)
    requires '\0' !in s && AllWords(s, c) && Cut(s + ['\0'], buf, Ends(c)) && Mentions(c, w)
    ensures w.q < w.eq <= |s| && StringAt(buf, w.q, s[w.q..w.eq])
  {
    hide AllWords, Ends, Mentions, StringAt, Cut, WordChar;
    MentionsEnds(s, c, w);
    forall i: nat | i in Ends(c) ensures !(w.q <= i < w.eq) {
      EndsOutside(s, c, i);
    }
    WordIntact(s, buf, Ends(c), w);
  }

  lemma WordIntact(s: string, buf: seq<char>, e: set<nat>, w: Span)
    requires '\0' !in s && Cut(s + ['\0'], buf, e) && w.q < w.eq <= |s| && w.eq in e
    requires forall i: nat :: i in e ==> !(w.q <= i < w.eq)
    ensures StringAt(buf, w.q, s[w.q..w.eq])
  {
    var text := s[w.q..w.eq];
    assert w.q + |text| == w.eq;
    forall i | 0 <= i < |text| ensures buf[w.q..w.eq][i] == text[i] && text[i] != '\0' {
      var j: nat := w.q + i;
      assert j !in e && (s + ['\0'])[j] == s[j];
    }
  }
}
