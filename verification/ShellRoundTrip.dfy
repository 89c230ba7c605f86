/** Parsing the canonical text of a command gives that command back. */
module ShellRoundTrip {
  import opened ShellParser

  type Tree = Cmd<string>

  datatype Op = Op(file: string, out: bool)

  // ---- Rendering ----

  ghost predicate GoodWord(w: string) {
    w != "" && forall i :: 0 <= i < |w| ==> WordChar(w[i])
  }

  /** At most nine arguments per command, each a word. */
  ghost predicate Writable(c: Tree) {
    match c
    case Exec(argv) => |argv| < MAXARGS && forall i :: 0 <= i < |argv| ==> GoodWord(argv[i])
    case Redir(d, file, _) => Writable(d) && GoodWord(file)
    case Pipe(l, r) => Writable(l) && Writable(r)
    case List(l, r) => Writable(l) && Writable(r)
    case Back(d) => Writable(d)
  }

  ghost function Words(ws: seq<string>): string {
    if ws == [] then "" else ws[0] + " " + Words(ws[1..])
  }

  ghost function OpText(op: Op): string {
    (if op.out then ">" else "<") + op.file + " "
  }

  ghost function OpsText(ops: seq<Op>): string {
    if ops == [] then "" else OpText(ops[0]) + OpsText(ops[1..])
  }

  /** How far a command is from the levels of the grammar, so that parentheses go in once. */
  ghost function Rank(c: Tree, level: nat): nat {
    match level
    case 0 => if c.Exec? || c.Redir? then 0 else 4
    case 1 => if c.Back? || c.List? then 5 else 1
    case 2 => if c.List? then 6 else 2
    case _ => 3
  }

  ghost function ExecText(c: Tree): string
    decreases c, Rank(c, 0)
  {
    match c
    case Exec(argv) => Words(argv)
    case Redir(d, file, out) => ExecText(d) + OpText(Op(file, out))
    case _ => "(" + LineText(c) + ")"
  }

  ghost function PipeText(c: Tree): string
    decreases c, Rank(c, 1)
  {
    if c.Pipe? then ExecText(c.left) + "|" + PipeText(c.right) else ExecText(c)
  }

  ghost function BackText(c: Tree): string
    decreases c, Rank(c, 2)
  {
    if c.Back? then BackText(c.cmd) + "&" else PipeText(c)
  }

  ghost function LineText(c: Tree): string
    decreases c, Rank(c, 3)
  {
    if c.List? then BackText(c.left) + ";" + LineText(c.right) else BackText(c)
  }

  // ---- Reading spans as text ----

  ghost predicate InLine(s: string, w: Span) {
    w.q <= w.eq <= |s|
  }

  ghost function Text(s: string, w: Span): string {
    if InLine(s, w) then s[w.q..w.eq] else ""
  }

  ghost function Texts(s: string, ws: seq<Span>): (r: seq<string>)
    ensures |r| == |ws| && forall i :: 0 <= i < |ws| ==> r[i] == Text(s, ws[i])
  {
    seq(|ws|, i requires 0 <= i < |ws| => Text(s, ws[i]))
  }

  /** The command with its strings in place of their positions. */
  ghost function Spelled(s: string, c: Cmd<Span>): Tree {
    match c
    case Exec(argv) => Exec(Texts(s, argv))
    case Redir(d, file, out) => Redir(Spelled(s, d), Text(s, file), out)
    case Pipe(l, r) => Pipe(Spelled(s, l), Spelled(s, r))
    case List(l, r) => List(Spelled(s, l), Spelled(s, r))
    case Back(d) => Back(Spelled(s, d))
  }

  ghost function SpelledOps(s: string, ops: seq<RedirOp>): (r: seq<Op>)
    ensures |r| == |ops| && forall i :: 0 <= i < |ops| ==> r[i] == Op(Text(s, ops[i].file), ops[i].out)
  {
    seq(|ops|, i requires 0 <= i < |ops| => Op(Text(s, ops[i].file), ops[i].out))
  }

  // ---- Redirections around a command ----

  ghost function Base(c: Tree): Tree {
    if c.Redir? then Base(c.cmd) else c
  }

  ghost function OpsOf(c: Tree): seq<Op> {
    if c.Redir? then OpsOf(c.cmd) + [Op(c.file, c.out)] else []
  }

  ghost function Around(c: Tree, ops: seq<Op>): Tree
    decreases ops
  {
    if ops == [] then c else Around(Redir(c, ops[0].file, ops[0].out), ops[1..])
  }

  lemma {:induction false} AroundSnoc(c: Tree, ops: seq<Op>, op: Op)
    ensures Around(c, ops + [op]) == Redir(Around(c, ops), op.file, op.out)
    decreases ops
  {
    if ops == [] {
      assert [op][1..] == [] && ops + [op] == [op];
    } else {
      assert (ops + [op])[1..] == ops[1..] + [op];
      AroundSnoc(Redir(c, ops[0].file, ops[0].out), ops[1..], op);
    }
  }

  lemma {:induction false} OpsTextSnoc(ops: seq<Op>, op: Op)
    ensures OpsText(ops + [op]) == OpsText(ops) + OpText(op)
  {
    hide OpText;
    if ops == [] {
      assert [op][1..] == [] && ops + [op] == [op];
    } else {
      assert (ops + [op])[1..] == ops[1..] + [op];
      OpsTextSnoc(ops[1..], op);
    }
  }

  /** Any command is its base with its redirections around it, and its text likewise. */
  lemma {:induction false} BaseAndOps(c: Tree)
    requires Writable(c)
    ensures c == Around(Base(c), OpsOf(c)) && ExecText(c) == ExecText(Base(c)) + OpsText(OpsOf(c))
    ensures Writable(Base(c)) && !Base(c).Redir? && forall i :: 0 <= i < |OpsOf(c)| ==> GoodWord(OpsOf(c)[i].file)
    ensures c.Redir? || (Base(c) == c && OpsOf(c) == [])
    ensures Base(c) == c || Base(c) < c
  {
    hide GoodWord, OpText;
    if c.Redir? {
      BaseAndOps(c.cmd);
      AroundSnoc(Base(c.cmd), OpsOf(c.cmd), Op(c.file, c.out));
      OpsTextSnoc(OpsOf(c.cmd), Op(c.file, c.out));
    }
  }

  lemma {:induction false} WrapIsAround(s: string, c: Cmd<Span>, ops: seq<RedirOp>)
    ensures Spelled(s, WrapSpans(c, ops)) == Around(Spelled(s, c), SpelledOps(s, ops))
    decreases ops
  {
    hide Text;
    if ops != [] {
      WrapIsAround(s, Redir(c, ops[0].file, ops[0].out), ops[1..]);
      assert SpelledOps(s, ops)[1..] == SpelledOps(s, ops[1..]);
    }
  }

  // ---- Tokens of a rendering ----

  ghost predicate At(s: string, p: nat, w: string) {
    p + |w| <= |s| && s[p..p + |w|] == w
  }

  ghost predicate Clear(s: string, p: nat) {
    p <= |s| && (p < |s| ==> !White(s[p]))
  }

  lemma AtSplit(s: string, p: nat, v: string, w: string)
    requires At(s, p, v + w)
    ensures At(s, p, v) && At(s, p + |v|, w)
  {
    assert s[p..p + |v|] == (v + w)[..|v|] == v;
    assert s[p + |v|..p + |v| + |w|] == (v + w)[|v|..] == w;
  }

  lemma ClearStays(s: string, p: nat)
    requires Clear(s, p)
    ensures SkipWhite(s, p) == p
  {
  }

  lemma WordToken(s: string, p: nat, w: string)
    requires At(s, p, w + " ") && GoodWord(w) && Clear(s, p + |w| + 1)
    ensures GetToken(s, p) == Token(Word, p, p + |w|, p + |w| + 1) && Text(s, Span(p, p + |w|)) == w
  {
    AtSplit(s, p, w, " ");
    assert forall i :: p <= i < p + |w| ==> s[i] == s[p..p + |w|][i - p];
    assert s[p + |w|] == s[p + |w|..p + |w| + 1][0] == ' ';
    assert WordChar(s[p]);
    assert SkipWhite(s, p) == p;
    assert WordEnd(s, p) == p + |w| by { WordEndAt(s, p, p + |w|); }
    assert SkipWhite(s, p + |w|) == SkipWhite(s, p + |w| + 1) == p + |w| + 1;
  }

  lemma {:induction false} WordEndAt(s: string, p: nat, e: nat)
    requires p <= e < |s| && (forall i :: p <= i < e ==> WordChar(s[i])) && !WordChar(s[e])
    ensures WordEnd(s, p) == e
    decreases e - p
  {
    if p < e { WordEndAt(s, p + 1, e); }
  }

  lemma SymbolToken(s: string, p: nat)
    requires p < |s| && Symbol(s[p]) && Clear(s, p + 1) && (s[p] == '>' ==> !Sees(s, p + 1, '>'))
    ensures GetToken(s, p) == Token(Sym(s[p]), p, p + 1, p + 1)
  {
  }

  // ---- Redirections ----

  lemma {:induction false} RedirsAt(s: string, p: nat, ops: seq<Op>) returns (spans: seq<RedirOp>)
    requires At(s, p, OpsText(ops)) && (forall i :: 0 <= i < |ops| ==> GoodWord(ops[i].file))
    requires Clear(s, p + |OpsText(ops)|) && !Sees(s, p + |OpsText(ops)|, '<') && !Sees(s, p + |OpsText(ops)|, '>')
    ensures RedirList(s, p) == Ops(spans, p + |OpsText(ops)|) && SpelledOps(s, spans) == ops
    decreases ops
  {
    hide GoodWord, GetToken, SkipWhite, Text, At, OpText, OpsText, SpelledOps, RedirList, Clear, Sees;
    if ops == [] {
      spans := [];
      NoOps(s);
      NoRedirs(s, p);
    } else {
      var q := p + |OpText(ops[0])|;
      OpsUnfold(ops);
      AtSplit(s, p, OpText(ops[0]), OpsText(ops[1..]));
      OpsClear(s, q, ops[1..]);
      var more := RedirsAt(s, q, ops[1..]);
      RedirCons(s, p, ops[0], q, more, p + |OpsText(ops)|);
      var first := RedirOp(Span(p + 1, p + 1 + |ops[0].file|), ops[0].out);
      spans := [first] + more;
      SpelledCons(s, first, more);
      assert ops == [ops[0]] + ops[1..];
    }
  }

  lemma NoOps(s: string)
    ensures OpsText([]) == "" && SpelledOps(s, []) == []
  {
  }

  lemma OpsUnfold(ops: seq<Op>)
    requires ops != []
    ensures OpsText(ops) == OpText(ops[0]) + OpsText(ops[1..])
  {
  }

  lemma SpelledCons(s: string, first: RedirOp, more: seq<RedirOp>)
    ensures SpelledOps(s, [first] + more) == [Op(Text(s, first.file), first.out)] + SpelledOps(s, more)
  {
  }

  lemma NoRedirs(s: string, p: nat)
    requires Clear(s, p) && !Sees(s, p, '<') && !Sees(s, p, '>')
    ensures RedirList(s, p) == Ops([], p)
  {
    ClearStays(s, p);
  }

  lemma RedirCons(s: string, p: nat, op: Op, q: nat, more: seq<RedirOp>, e: nat)
    requires At(s, p, OpText(op)) && GoodWord(op.file) && q == p + |OpText(op)| && Clear(s, q)
    requires RedirList(s, q) == Ops(more, e)
    ensures var file := Span(p + 1, p + 1 + |op.file|);
            RedirList(s, p) == Ops([RedirOp(file, op.out)] + more, e) && Text(s, file) == op.file
  {
    hide GoodWord, GetToken, SkipWhite, Text, At;
    OneRedir(s, p, op);
  }

  lemma OpsClear(s: string, p: nat, ops: seq<Op>)
    requires At(s, p, OpsText(ops)) && Clear(s, p + |OpsText(ops)|)
    ensures Clear(s, p) && (!Sees(s, p + |OpsText(ops)|, '(') ==> !Sees(s, p, '('))
  {
    if ops != [] {
      AtSplit(s, p, OpText(ops[0]), OpsText(ops[1..]));
      assert s[p] == s[p..p + |OpText(ops[0])|][0];
    }
  }

  lemma OneRedir(s: string, p: nat, op: Op)
    requires At(s, p, OpText(op)) && GoodWord(op.file) && Clear(s, p + |OpText(op)|)
    ensures SkipWhite(s, p) == p && (Sees(s, p, '<') || Sees(s, p, '>'))
    ensures var t := GetToken(s, p);
            && t.next == p + 1 && (op.out <==> t.kind != Sym('<'))
            && GetToken(s, p + 1) == Token(Word, p + 1, p + 1 + |op.file|, p + |OpText(op)|)
            && Text(s, Span(p + 1, p + 1 + |op.file|)) == op.file
  {
    hide At, OpText, GoodWord, GetToken, SkipWhite, Text;
    OpPlaces(s, p, op);
    ClearStays(s, p);
    SymbolToken(s, p);
    WordToken(s, p + 1, op.file);
  }

  lemma OpPlaces(s: string, p: nat, op: Op)
    requires At(s, p, OpText(op)) && GoodWord(op.file)
    ensures |OpText(op)| == |op.file| + 2 && p + 1 < |s| && s[p] == (if op.out then '>' else '<') && WordChar(s[p + 1])
    ensures At(s, p + 1, op.file + " ")
  {
    var sym := if op.out then ">" else "<";
    assert OpText(op) == sym + (op.file + " ");
    AtSplit(s, p, sym, op.file + " ");
    assert s[p] == s[p..p + 1][0];
    assert s[p + 1] == s[p + 1..p + 1 + |op.file + " "|][0] == op.file[0];
  }

  // ---- Simple commands ----

  /** The end of the line, or a symbol that ends a command. */
  ghost predicate Stops(s: string, p: nat) {
    p <= |s| && (p < |s| ==> EndsCommand(s, p))
  }

  lemma StopsFacts(s: string, p: nat)
    requires Stops(s, p)
    ensures Clear(s, p) && !Sees(s, p, '<') && !Sees(s, p, '>') && !Sees(s, p, '(')
    ensures forall argv, ops :: ParseArgs(s, p, argv, ops) == Ok(WrapSpans(Exec(argv), ops), p)
  {
    hide WrapSpans, RedirList;
    ClearStays(s, p);
    forall argv, ops ensures ParseArgs(s, p, argv, ops) == Ok(WrapSpans(Exec(argv), ops), p) {}
  }

  lemma WordsClear(s: string, p: nat, ws: seq<string>)
    requires ws != [] && At(s, p, Words(ws)) && GoodWord(ws[0])
    ensures Clear(s, p) && !Sees(s, p, '<') && !Sees(s, p, '>') && !Sees(s, p, '(') && !EndsCommand(s, p)
  {
    assert Words(ws) == ws[0] + (" " + Words(ws[1..]));
    AtSplit(s, p, ws[0], " " + Words(ws[1..]));
    assert s[p] == s[p..p + |ws[0]|][0] && WordChar(ws[0][0]);
  }

  /** One argument, and the redirections after it. */
  lemma ArgsStep(s: string, p: nat, w: string, rs: Redirs, argv: seq<Span>, ops: seq<RedirOp>)
    requires At(s, p, w + " ") && GoodWord(w) && Clear(s, p) && !EndsCommand(s, p) && Clear(s, p + |w| + 1)
    requires |argv| + 1 < MAXARGS && RedirList(s, p + |w| + 1) == rs && rs.Ops?
    ensures p + |w| + 1 <= rs.next <= |s| && Text(s, Span(p, p + |w|)) == w
    ensures ParseArgs(s, p, argv, ops) == ParseArgs(s, rs.next, argv + [Span(p, p + |w|)], ops + rs.ops)
  {
    hide *;
    ClearStays(s, p);
    WordToken(s, p, w);
    ArgsUnfold(s, p, GetToken(s, p), rs, argv, ops);
  }

  lemma ArgsUnfold(s: string, p: nat, t: Token, rs: Redirs, argv: seq<Span>, ops: seq<RedirOp>)
    requires p <= |s| && SkipWhite(s, p) == p && !EndsCommand(s, p) && GetToken(s, p) == t && t.kind == Word
    requires |argv| + 1 < MAXARGS && RedirList(s, t.next) == rs && rs.Ops?
    ensures t.next <= rs.next <= |s|
    ensures ParseArgs(s, p, argv, ops) == ParseArgs(s, rs.next, argv + [Span(t.q, t.eq)], ops + rs.ops)
  {
    hide GetToken, RedirList, WrapSpans, SkipWhite, EndsCommand, IsWord, White;
  }

  lemma {:induction false} ArgsAt(s: string, p: nat, ws: seq<string>, ops: seq<Op>, argv0: seq<Span>,
                                  ops0: seq<RedirOp>)
    returns (argv: seq<Span>, spans: seq<RedirOp>)
    requires At(s, p, Words(ws) + OpsText(ops)) && Stops(s, p + |Words(ws)| + |OpsText(ops)|)
    requires |argv0| + |ws| < MAXARGS
    requires (forall i :: 0 <= i < |ws| ==> GoodWord(ws[i])) && (forall i :: 0 <= i < |ops| ==> GoodWord(ops[i].file))
    requires ws != [] || ops == []
    ensures ParseArgs(s, p, argv0, ops0)
              == Ok(WrapSpans(Exec(argv0 + argv), ops0 + spans), p + |Words(ws)| + |OpsText(ops)|)
    ensures Texts(s, argv) == ws && SpelledOps(s, spans) == ops
    decreases ws
  {
    hide GoodWord, At, Text, OpText, ParseArgs, WrapSpans, Stops, RedirList, EndsCommand, Sees, Clear, IsWord, Texts;
    hide SpelledOps;
    var e := p + |Words(ws)| + |OpsText(ops)|;
    StopsFacts(s, e);
    if ws == [] {
      argv, spans := [], [];
      assert argv0 + argv == argv0 && ops0 + spans == ops0 && Texts(s, argv) == ws && SpelledOps(s, spans) == ops;
    } else {
      var q, w := p + |ws[0]| + 1, Span(p, p + |ws[0]|);
      var rest := Words(ws[1..]) + OpsText(ops);
      assert Words(ws) + OpsText(ops) == (ws[0] + " ") + rest;
      AtSplit(s, p, ws[0] + " ", rest);
      AtSplit(s, p, Words(ws), OpsText(ops));
      WordsClear(s, p, ws);
      var next, tail, more := AfterWord(s, q, ws[1..], ops, e);
      ArgsStep(s, p, ws[0], Ops(more, next), argv0, ops0);
      var argv1, spans1 := ArgsAt(s, next, ws[1..], tail, argv0 + [w], ops0 + more);
      argv, spans := [w] + argv1, more + spans1;
      assert argv0 + [w] + argv1 == argv0 + argv && ops0 + more + spans1 == ops0 + spans;
      SpelledParts(s, w, argv1, more, spans1);
    }
  }

  lemma SpelledParts(s: string, w: Span, argv: seq<Span>, more: seq<RedirOp>, ops: seq<RedirOp>)
    ensures Texts(s, [w] + argv) == [Text(s, w)] + Texts(s, argv)
    ensures SpelledOps(s, more + ops) == SpelledOps(s, more) + SpelledOps(s, ops)
  {
    hide Text;
  }

  /** After the last word come all the redirections; after any other word none. */
  lemma AfterWord(s: string, q: nat, ws: seq<string>, ops: seq<Op>, e: nat)
    returns (next: nat, tail: seq<Op>, more: seq<RedirOp>)
    requires At(s, q, Words(ws) + OpsText(ops)) && e == q + |Words(ws)| + |OpsText(ops)| && Stops(s, e)
    requires (forall i :: 0 <= i < |ws| ==> GoodWord(ws[i])) && (forall i :: 0 <= i < |ops| ==> GoodWord(ops[i].file))
    ensures Clear(s, q) && RedirList(s, q) == Ops(more, next) && SpelledOps(s, more) + tail == ops
    ensures At(s, next, Words(ws) + OpsText(tail)) && e == next + |Words(ws)| + |OpsText(tail)|
    ensures ws != [] || tail == []
    ensures forall i :: 0 <= i < |tail| ==> GoodWord(tail[i].file)
  {
    hide GoodWord, At, Text, OpText, Stops, RedirList, Sees;
    StopsFacts(s, e);
    AtSplit(s, q, Words(ws), OpsText(ops));
    if ws == [] {
      assert Words(ws) + OpsText(ops) == OpsText(ops);
      OpsClear(s, q, ops);
      more := RedirsAt(s, q, ops);
      next, tail := e, [];
      AtEmpty(s, e);
      assert Words(ws) + OpsText(tail) == "";
    } else {
      WordsClear(s, q, ws);
      NoRedirs(s, q);
      next, tail, more := q, ops, [];
      assert SpelledOps(s, more) + tail == ops;
    }
  }

  lemma AtEmpty(s: string, p: nat)
    requires p <= |s|
    ensures At(s, p, "")
  {
  }

  /** A command without parentheses. */
  lemma SimpleAt(s: string, p: nat, c: Tree) returns (tree: Cmd<Span>)
    requires Writable(c) && Base(c).Exec? && At(s, p, ExecText(c)) && Stops(s, p + |ExecText(c)|)
    ensures ParseExec(s, p) == Ok(tree, p + |ExecText(c)|) && Spelled(s, tree) == c
  {
    hide GoodWord, At, Text, OpText, Stops, RedirList, ParseArgs, EndsCommand, ExecText, WrapSpans, SkipWhite, Writable;
    BaseAndOps(c);
    var ws, ops, e := Base(c).argv, OpsOf(c), p + |ExecText(c)|;
    SimpleText(Base(c));
    StopsFacts(s, e);
    var argv: seq<Span>, spans: seq<RedirOp>;
    if ws == [] {
      assert Words(ws) + OpsText(ops) == OpsText(ops);
      OpsClear(s, p, ops);
      ClearStays(s, p);
      spans := RedirsAt(s, p, ops);
      argv := [];
      assert ParseExec(s, p) == ParseArgs(s, e, argv, spans);
    } else {
      AtSplit(s, p, Words(ws), OpsText(ops));
      WordsClear(s, p, ws);
      ClearStays(s, p);
      NoRedirs(s, p);
      argv, spans := ArgsAt(s, p, ws, ops, [], []);
      assert [] + argv == argv && [] + spans == spans;
    }
    tree := WrapSpans(Exec(argv), spans);
    WrapIsAround(s, Exec(argv), spans);
    assert Texts(s, argv) == ws;
  }

  lemma SimpleText(c: Tree)
    requires c.Exec? && Writable(c)
    ensures ExecText(c) == Words(c.argv) && |c.argv| < MAXARGS && forall i :: 0 <= i < |c.argv| ==> GoodWord(c.argv[i])
  {
  }

  // ---- The levels of the grammar ----

  /** No text begins with white space. */
  ghost predicate Starts(w: string) {
    w != "" ==> !White(w[0])
  }

  lemma StartsClear(s: string, p: nat, w: string)
    requires At(s, p, w) && Starts(w) && Clear(s, p + |w|)
    ensures Clear(s, p)
  {
    assert w != "" ==> s[p] == s[p..p + |w|][0];
  }

  lemma {:induction false} ExecStarts(c: Tree)
    requires Writable(c)
    ensures Starts(ExecText(c))
  {
    match c
    case Exec(argv) => if argv != [] { assert WordChar(argv[0][0]); }
    case Redir(d, file, out) => ExecStarts(d);
    case _ =>
  }

  lemma {:induction false} PipeStarts(c: Tree)
    requires Writable(c)
    ensures Starts(PipeText(c))
  {
    if c.Pipe? { ExecStarts(c.left); } else { ExecStarts(c); }
  }

  lemma {:induction false} BackStarts(c: Tree)
    requires Writable(c)
    ensures Starts(BackText(c))
  {
    if c.Back? { BackStarts(c.cmd); } else { PipeStarts(c); }
  }

  lemma LineStarts(c: Tree)
    requires Writable(c)
    ensures Starts(LineText(c))
  {
    if c.List? { BackStarts(c.left); } else { BackStarts(c); }
  }

  lemma SymAt(s: string, p: nat, c: char)
    requires At(s, p, [c]) && Symbol(c) && c != '>' && Clear(s, p + 1)
    ensures p < |s| && s[p] == c && Clear(s, p) && GetToken(s, p) == Token(Sym(c), p, p + 1, p + 1)
  {
    assert s[p] == s[p..p + 1][0];
    SymbolToken(s, p);
  }

  lemma {:induction false} ExecAt(s: string, p: nat, c: Tree) returns (tree: Cmd<Span>)
    requires Writable(c) && At(s, p, ExecText(c)) && Stops(s, p + |ExecText(c)|)
    ensures ParseExec(s, p) == Ok(tree, p + |ExecText(c)|) && Spelled(s, tree) == c
    decreases c, Rank(c, 0)
  {
    hide At, ExecText, Stops, ParseExec, Writable;
    BaseAndOps(c);
    if Base(c).Exec? {
      tree := SimpleAt(s, p, c);
    } else {
      tree := BlockAt(s, p, c);
    }
  }

  lemma {:induction false} BlockAt(s: string, p: nat, c: Tree) returns (tree: Cmd<Span>)
    requires Writable(c) && !Base(c).Exec? && At(s, p, ExecText(c)) && Stops(s, p + |ExecText(c)|)
    ensures ParseExec(s, p) == Ok(tree, p + |ExecText(c)|) && Spelled(s, tree) == c
    decreases Base(c), Rank(Base(c), 0), 0
  {
    hide *;
    BaseAndOps(c);
    var b, ops, e := Base(c), OpsOf(c), p + |ExecText(c)|;
    var m := p + 1 + |LineText(b)|;
    BlockText(b);
    BlockRanks(b);
    BlockLayout(s, p, b, ops);
    var inner := LineAt(s, p + 1, b);
    var spans := RedirsAt(s, m + 1, ops);
    tree := WrapSpans(inner, spans);
    WrapIsAround(s, inner, spans);
    BlockUnfold(s, p, inner, m, spans, e);
  }

  lemma BlockText(b: Tree)
    requires !b.Exec? && !b.Redir?
    ensures ExecText(b) == "(" + LineText(b) + ")"
  {
  }

  lemma BlockRanks(b: Tree)
    requires !b.Exec? && !b.Redir?
    ensures Rank(b, 3) < Rank(b, 0)
  {
  }

  /** Where the parts of a parenthesised command are. */
  lemma BlockLayout(s: string, p: nat, b: Tree, ops: seq<Op>)
    requires At(s, p, "(" + LineText(b) + ")" + OpsText(ops)) && Stops(s, p + 2 + |LineText(b)| + |OpsText(ops)|)
    requires Writable(b)
    ensures var m := p + 1 + |LineText(b)|;
            && p + 1 <= m < |s| && At(s, p + 1, LineText(b)) && LineStops(s, m) && At(s, m + 1, OpsText(ops))
            && Sees(s, p, '(') && SkipWhite(s, p) == p && GetToken(s, p).next == p + 1
            && Sees(s, m, ')') && SkipWhite(s, m) == m && GetToken(s, m).next == m + 1
    ensures var e := p + 2 + |LineText(b)| + |OpsText(ops)|; Clear(s, e) && !Sees(s, e, '<') && !Sees(s, e, '>')
  {
    hide At, Stops, Clear, GetToken, SkipWhite, LineText, OpsText, Starts, White, LineStops, Writable;
    var line, m := LineText(b), p + 1 + |LineText(b)|;
    StopsFacts(s, m + 1 + |OpsText(ops)|);
    assert "(" + line + ")" + OpsText(ops) == "(" + (line + (")" + OpsText(ops)));
    AtSplit(s, p, "(", line + (")" + OpsText(ops)));
    AtSplit(s, p + 1, line, ")" + OpsText(ops));
    AtSplit(s, m, ")", OpsText(ops));
    OpsClear(s, m + 1, ops);
    SymAt(s, m, ')');
    LineStarts(b);
    StartsClear(s, p + 1, line);
    SymAt(s, p, '(');
    ClearStays(s, p);
    ClearStays(s, m);
    AtBound(s, m);
  }

  lemma AtBound(s: string, m: nat)
    requires Sees(s, m, ')')
    ensures LineStops(s, m)
  {
  }

  lemma BlockUnfold(s: string, p: nat, inner: Cmd<Span>, m: nat, spans: seq<RedirOp>, e: nat)
    requires p + 1 <= m < |s| && Sees(s, p, '(') && SkipWhite(s, p) == p && GetToken(s, p).next == p + 1
    requires ParseLine(s, p + 1) == Ok(inner, m) && SkipWhite(s, m) == m && Sees(s, m, ')')
    requires GetToken(s, m).next == m + 1
    requires RedirList(s, m + 1) == Ops(spans, e)
    ensures ParseExec(s, p) == Ok(WrapSpans(inner, spans), e)
  {
    hide ParseLine, GetToken, SkipWhite, RedirList, WrapSpans;
  }

  ghost predicate PipeStops(s: string, p: nat) {
    Stops(s, p) && !Sees(s, p, '|')
  }

  ghost predicate LineStops(s: string, p: nat) {
    PipeStops(s, p) && !Sees(s, p, '&') && !Sees(s, p, ';')
  }

  lemma {:induction false} PipeAt(s: string, p: nat, c: Tree) returns (tree: Cmd<Span>)
    requires Writable(c) && At(s, p, PipeText(c)) && PipeStops(s, p + |PipeText(c)|)
    ensures ParsePipe(s, p) == Ok(tree, p + |PipeText(c)|) && Spelled(s, tree) == c
    decreases c, Rank(c, 1)
  {
    hide At, Stops, ParseExec, ParsePipe, Clear, GetToken, SkipWhite, ExecText, Starts, White, GoodWord, IsWord, Text;
    var e := p + |PipeText(c)|;
    StopsFacts(s, e);
    ClearStays(s, e);
    if c.Pipe? {
      var l, r := ExecText(c.left), PipeText(c.right);
      var m := p + |l|;
      assert PipeText(c) == l + ("|" + r);
      AtSplit(s, p, l, "|" + r);
      AtSplit(s, m, "|", r);
      PipeStarts(c.right);
      StartsClear(s, m + 1, r);
      SymAt(s, m, '|');
      SymStops(s, m);
      ClearStays(s, m);
      var left := ExecAt(s, p, c.left);
      var right := PipeAt(s, m + 1, c.right);
      tree := Pipe(left, right);
      PipeUnfold(s, p, left, m);
    } else {
      tree := ExecAt(s, p, c);
      PipeUnfold(s, p, tree, e);
    }
  }

  lemma PipeUnfold(s: string, p: nat, left: Cmd<Span>, m: nat)
    requires p <= m <= |s| && ParseExec(s, p) == Ok(left, m) && SkipWhite(s, m) == m
    requires Sees(s, m, '|') ==> GetToken(s, m).next == m + 1
    ensures !Sees(s, m, '|') ==> ParsePipe(s, p) == Ok(left, m)
    ensures Sees(s, m, '|') && ParsePipe(s, m + 1).Ok? ==>
              ParsePipe(s, p) == Ok(Pipe(left, ParsePipe(s, m + 1).cmd), ParsePipe(s, m + 1).next)
  {
    hide ParseExec, GetToken, SkipWhite;
  }

  lemma SymStops(s: string, m: nat)
    requires m < |s| && EndsCommand(s, m)
    ensures Stops(s, m)
  {
  }

  /** After the text of a pipeline and its ampersands, the loop of parseline is where it would be
      had it started there. */
  lemma {:induction false} BackAt(s: string, p: nat, c: Tree) returns (tree: Cmd<Span>)
    requires Writable(c) && At(s, p, BackText(c)) && PipeStops(s, p + |BackText(c)|)
    ensures var first := ParsePipe(s, p);
            first.Ok? && Backs(s, first.next, first.cmd) == Backs(s, p + |BackText(c)|, tree)
    ensures Spelled(s, tree) == c
    decreases c, Rank(c, 2)
  {
    hide At, Stops, ParsePipe, Clear, GetToken, SkipWhite, PipeText;
    var e := p + |BackText(c)|;
    StopsFacts(s, e);
    if c.Back? {
      var m := e - 1;
      AtSplit(s, p, BackText(c.cmd), "&");
      SymAt(s, m, '&');
      SymStops(s, m);
      ClearStays(s, m);
      var d := BackAt(s, p, c.cmd);
      tree := Back(d);
      assert Backs(s, m, d) == Backs(s, e, tree);
    } else {
      tree := PipeAt(s, p, c);
    }
  }

  lemma {:induction false} LineAt(s: string, p: nat, c: Tree) returns (tree: Cmd<Span>)
    requires Writable(c) && At(s, p, LineText(c)) && LineStops(s, p + |LineText(c)|)
    ensures ParseLine(s, p) == Ok(tree, p + |LineText(c)|) && Spelled(s, tree) == c
    decreases c, Rank(c, 3)
  {
    hide At, Stops, ParsePipe, ParseLine, Clear, GetToken, SkipWhite, BackText, Starts, White, GoodWord, IsWord, Text;
    var e := p + |LineText(c)|;
    StopsFacts(s, e);
    ClearStays(s, e);
    if c.List? {
      var m := p + |BackText(c.left)|;
      ListSplit(s, p, c);
      var left := BackAt(s, p, c.left);
      var right := LineAt(s, m + 1, c.right);
      tree := List(left, right);
      LineUnfold(s, p, left, m);
    } else {
      tree := BackAt(s, p, c);
      LineUnfold(s, p, tree, e);
    }
  }

  /** The two commands of a rendered list, and the semicolon between them. */
  lemma ListSplit(s: string, p: nat, c: Tree)
    requires c.List? && Writable(c) && At(s, p, LineText(c)) && LineStops(s, p + |LineText(c)|)
    ensures var m := p + |BackText(c.left)|;
            && |LineText(c)| == |BackText(c.left)| + 1 + |LineText(c.right)|
            && At(s, p, BackText(c.left)) && At(s, m + 1, LineText(c.right)) && m < |s| && s[m] == ';'
            && PipeStops(s, m) && SkipWhite(s, m) == m && GetToken(s, m).next == m + 1
  {
    hide At, Stops, Clear, GetToken, SkipWhite, BackText, Starts, White, GoodWord, IsWord, Text;
    var l, r := BackText(c.left), LineText(c.right);
    var m := p + |l|;
    StopsFacts(s, p + |LineText(c)|);
    assert LineText(c) == l + (";" + r);
    AtSplit(s, p, l, ";" + r);
    AtSplit(s, m, ";", r);
    LineStarts(c.right);
    StartsClear(s, m + 1, r);
    SymAt(s, m, ';');
    SymStops(s, m);
    ClearStays(s, m);
  }

  lemma LineUnfold(s: string, p: nat, c: Cmd<Span>, m: nat)
    requires p <= m <= |s| && SkipWhite(s, m) == m && !Sees(s, m, '&')
    requires var first := ParsePipe(s, p); first.Ok? && Backs(s, first.next, first.cmd) == Backs(s, m, c)
    requires Sees(s, m, ';') ==> GetToken(s, m).next == m + 1
    ensures !Sees(s, m, ';') ==> ParseLine(s, p) == Ok(c, m)
    ensures Sees(s, m, ';') && ParseLine(s, m + 1).Ok? ==>
              ParseLine(s, p) == Ok(List(c, ParseLine(s, m + 1).cmd), ParseLine(s, m + 1).next)
  {
    hide ParsePipe, GetToken, SkipWhite;
    assert Backs(s, m, c) == (c, m);
  }

  /** parsecmd reads back any command with at most nine arguments per program from its text. */
  lemma RoundTrip(c: Tree)
    requires Writable(c)
    ensures ParseCmd(LineText(c)).Ok? && Spelled(LineText(c), ParseCmd(LineText(c)).cmd) == c
  {
    hide LineText, ParseLine, Writable;
    var s := LineText(c);
    assert s[0..0 + |s|] == s;
    var tree := LineAt(s, 0, c);
    assert SkipWhite(s, |s|) == |s|;
  }
}
