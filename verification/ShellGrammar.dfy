/** The shell's language, defined apart from its parser: how a line is cut into pieces, and which
    sequences of pieces are which commands.  The parser accepts exactly that language. */
module ShellGrammar {
  import opened ShellParser
  import opened ShellRoundTrip

  // ---- Pieces of a line ----

  /** A word, a symbol, or ">>". */
  datatype Piece = W(w: string) | S(c: char) | Double

  ghost function PieceOf(s: string, t: Token): Piece {
    match t.kind
    case Word => W(Text(s, Span(t.q, t.eq)))
    case Append => Double
    case Sym(c) => S(c)
    case End => S(' ')
  }

  /** What repeated gettoken calls return. */
  ghost function Toks(s: string, p: nat := 0): seq<Token>
    requires p <= |s|
    decreases |s| - p
  {
    var t := GetToken(s, p);
    if t.kind == End then [] else [t] + Toks(s, t.next)
  }

  ghost function Pieces(s: string, p: nat := 0): seq<Piece>
    requires p <= |s|
    decreases |s| - p
  {
    var t := GetToken(s, p);
    if t.kind == End then [] else [PieceOf(s, t)] + Pieces(s, t.next)
  }

  /** A stretch q..eq of the line that is one token: a longest run of word characters, ">>", or one symbol
      that is not the first half of ">>". */
  ghost predicate IsToken(s: string, kind: Kind, q: nat, eq: nat) {
    && q < eq <= |s|
    && match kind
       case Word => (forall i :: q <= i < eq ==> WordChar(s[i])) && (eq < |s| ==> !WordChar(s[eq]))
       case Append => eq == q + 2 && s[q] == '>' && s[q + 1] == '>'
       case Sym(c) => eq == q + 1 && s[q] == c && Symbol(c) && !(c == '>' && eq < |s| && s[eq] == '>')
       case End => false
  }

  ghost predicate Blank(s: string, p: nat, q: nat) {
    p <= q <= |s| && forall i :: p <= i < q ==> White(s[i])
  }

  /** From p on the line is these tokens, in order, with nothing but white space around them. */
  ghost predicate Lexing(s: string, p: nat, ts: seq<Token>)
    decreases ts
  {
    if ts == [] then Blank(s, p, |s|)
    else Blank(s, p, ts[0].q) && IsToken(s, ts[0].kind, ts[0].q, ts[0].eq) && Lexing(s, ts[0].eq, ts[1..])
  }

  ghost predicate SameToken(t: Token, u: Token) {
    t.kind == u.kind && t.q == u.q && t.eq == u.eq
  }

  lemma SkipTo(s: string, p: nat, q: nat)
    requires Blank(s, p, q) && (q < |s| ==> !White(s[q]))
    ensures SkipWhite(s, p) == q
  {
  }

  lemma TokenAt(s: string, p: nat)
    requires p <= |s|
    ensures var t := GetToken(s, p);
            && Blank(s, p, t.q) && (t.kind == End <==> t.q == |s|) && (t.kind != End ==> IsToken(s, t.kind, t.q, t.eq))
            && Blank(s, t.eq, t.next) && (t.next < |s| ==> !White(s[t.next]))
  {
  }

  /** Where a token starts, only that token starts. */
  lemma TokenUnique(s: string, kind: Kind, q: nat, eq: nat, p: nat)
    requires Blank(s, p, q) && IsToken(s, kind, q, eq)
    ensures GetToken(s, p).kind == kind && GetToken(s, p).q == q && GetToken(s, p).eq == eq
  {
    hide SkipWhite;
    SkipTo(s, p, q);
    if kind == Word && eq < |s| { WordEndAt(s, q, eq); }
  }

  lemma {:induction false} ToksSkip(s: string, p: nat, q: nat)
    requires Blank(s, p, q)
    ensures Toks(s, p) == Toks(s, q) && Pieces(s, p) == Pieces(s, q) && GetToken(s, p) == GetToken(s, q)
  {
    hide SkipWhite, KindAt, WordEnd, PieceOf, Blank;
    SkipSame(s, p, q);
  }

  lemma {:induction false} SkipSame(s: string, p: nat, q: nat)
    requires Blank(s, p, q)
    ensures SkipWhite(s, p) == SkipWhite(s, q)
    decreases q - p
  {
    if p < q { SkipSame(s, p + 1, q); }
  }

  /** gettoken cuts the line in the one way there is. */
  lemma {:induction false} LexingUnique(s: string, p: nat, ts: seq<Token>)
    requires p <= |s|
    ensures Lexing(s, p, Toks(s, p))
    ensures Lexing(s, p, ts) ==>
              |ts| == |Toks(s, p)| && forall k :: 0 <= k < |ts| ==> SameToken(ts[k], Toks(s, p)[k])
    decreases |s| - p
  {
    hide GetToken, IsToken, SkipWhite;
    var t := GetToken(s, p);
    TokenAt(s, p);
    if t.kind != End {
      LexingUnique(s, t.next, ts[if ts == [] then 0 else 1..]);
      LexingBack(s, t.eq, t.next, Toks(s, t.next));
    }
    if Lexing(s, p, ts) {
      if ts == [] {
        NothingLeft(s, p);
      } else {
        TokenUnique(s, ts[0].kind, ts[0].q, ts[0].eq, p);
        assert t.kind != End by { NotEnd(s, ts[0]); }
        LexingOn(s, t.eq, t.next, ts[1..]);
        assert forall k :: 1 <= k < |ts| ==> ts[k] == ts[1..][k - 1];
      }
    }
  }

  lemma NotEnd(s: string, t: Token)
    requires IsToken(s, t.kind, t.q, t.eq)
    ensures t.kind != End
  {
  }

  lemma NothingLeft(s: string, p: nat)
    requires Blank(s, p, |s|)
    ensures GetToken(s, p).kind == End
  {
    SkipTo(s, p, |s|);
  }

  lemma LexingBack(s: string, p: nat, q: nat, ts: seq<Token>)
    requires Blank(s, p, q) && Lexing(s, q, ts)
    ensures Lexing(s, p, ts)
  {
    hide IsToken;
  }

  lemma LexingOn(s: string, p: nat, q: nat, ts: seq<Token>)
    requires Blank(s, p, q) && (q < |s| ==> !White(s[q])) && Lexing(s, p, ts)
    ensures Lexing(s, q, ts)
  {
    if ts != [] { assert !White(s[ts[0].q]); }
  }

  // ---- Commands as sequences of pieces ----

  predicate IsRedir(p: Piece) {
    p == S('<') || p == S('>') || p == Double
  }

  /** Words and redirections in any order: the arguments, and the files with their directions. */
  ghost predicate Simple(ps: seq<Piece>, argv: seq<string>, ops: seq<Op>)
    decreases ps
  {
    if ps == [] then argv == [] && ops == []
    else if ps[0].W? then argv != [] && argv[0] == ps[0].w && Simple(ps[1..], argv[1..], ops)
    else
      && IsRedir(ps[0]) && |ps| >= 2 && ps[1].W?
      && ops != [] && ops[0] == Op(ps[1].w, ps[0] != S('<')) && Simple(ps[2..], argv, ops[1..])
  }

  /** A program with at most nine arguments, or a line in parentheses, with redirections. */
  ghost predicate IsExec(ps: seq<Piece>, c: Tree)
    decreases |ps|, 0
  {
    || (exists argv, ops :: Simple(ps, argv, ops) && |argv| < MAXARGS && c == Around(Exec(argv), ops))
    || (exists m, b, ops :: IsBlock(ps, m, b, ops) && c == Around(b, ops))
  }

  ghost predicate IsBlock(ps: seq<Piece>, m: nat, b: Tree, ops: seq<Op>)
    decreases |ps|, 0, 0
  {
    && 0 < m < |ps| && ps[0] == S('(') && ps[m] == S(')')
    && IsLine(ps[1..m], b) && Simple(ps[m + 1..], [], ops)
  }

  ghost predicate IsPipe(ps: seq<Piece>, c: Tree)
    decreases |ps|, 1
  {
    IsExec(ps, c) || (c.Pipe? && exists m: nat :: PipeSplit(ps, m, c.left, c.right))
  }

  ghost predicate PipeSplit(ps: seq<Piece>, m: nat, l: Tree, r: Tree)
    decreases |ps|, 0, 1
  {
    m < |ps| && ps[m] == S('|') && IsExec(ps[..m], l) && IsPipe(ps[m + 1..], r)
  }

  ghost predicate IsBack(ps: seq<Piece>, c: Tree)
    decreases |ps|, 2
  {
    || IsPipe(ps, c)
    || (c.Back? && ps != [] && ps[|ps| - 1] == S('&') && IsBack(ps[..|ps| - 1], c.cmd))
  }

  ghost predicate IsLine(ps: seq<Piece>, c: Tree)
    decreases |ps|, 3
  {
    IsBack(ps, c) || (c.List? && exists m: nat :: LineSplit(ps, m, c.left, c.right))
  }

  ghost predicate LineSplit(ps: seq<Piece>, m: nat, l: Tree, r: Tree)
    decreases |ps|, 2, 1
  {
    m < |ps| && ps[m] == S(';') && IsBack(ps[..m], l) && IsLine(ps[m + 1..], r)
  }

  // ---- The next piece ----

  ghost predicate StartsWith(ps: seq<Piece>, p: Piece) {
    ps != [] && ps[0] == p
  }

  /** What peek and gettoken see. */
  lemma Head(s: string, p: nat)
    requires p <= |s|
    ensures var p1 := SkipWhite(s, p);
            var t := GetToken(s, p);
            && SkipWhite(s, p1) == p1 && GetToken(s, p1) == t && Pieces(s, p1) == Pieces(s, p)
            && (t.kind == End <==> Pieces(s, p) == []) && (t.kind == End ==> t.next == |s|)
            && (t.kind != End ==> Pieces(s, p) == [PieceOf(s, t)] + Pieces(s, t.next))
  {
    ToksSkip(s, p, SkipWhite(s, p));
    ToksSkip(s, SkipWhite(s, p), SkipWhite(s, p));
  }

  lemma HeadSymbol(s: string, p: nat, c: char)
    requires p <= |s| && (c == '(' || c == ')' || c == '|' || c == '&' || c == ';')
    ensures Sees(s, SkipWhite(s, p), c) <==> StartsWith(Pieces(s, p), S(c))
    ensures Sees(s, SkipWhite(s, p), c) ==> Pieces(s, p) == [S(c)] + Pieces(s, GetToken(s, SkipWhite(s, p)).next)
  {
    hide SkipWhite, Text;
    Head(s, p);
  }

  lemma HeadRedir(s: string, p: nat)
    requires p <= |s|
    ensures var p1 := SkipWhite(s, p);
            Sees(s, p1, '<') || Sees(s, p1, '>') <==> Pieces(s, p) != [] && IsRedir(Pieces(s, p)[0])
    ensures var t := GetToken(s, p);
            Pieces(s, p) != [] && IsRedir(Pieces(s, p)[0]) ==> (t.kind != Sym('<') <==> Pieces(s, p)[0] != S('<'))
  {
    hide SkipWhite, Text;
    Head(s, p);
  }

  lemma HeadWord(s: string, p: nat)
    requires p <= |s|
    ensures var t := GetToken(s, p);
            && (t.kind == Word <==> Pieces(s, p) != [] && Pieces(s, p)[0].W?)
            && (t.kind == Word ==> Pieces(s, p)[0] == W(Text(s, Span(t.q, t.eq))))
  {
    hide SkipWhite, Text;
    Head(s, p);
  }

  // ---- Every parse is a command of the language ----

  lemma ConsWord(w: string, ps: seq<Piece>, argv: seq<string>, ops: seq<Op>)
    requires Simple(ps, argv, ops)
    ensures Simple([W(w)] + ps, [w] + argv, ops)
  {
    assert ([W(w)] + ps)[1..] == ps && ([w] + argv)[1..] == argv;
  }

  lemma ConsRedir(x: Piece, w: string, ps: seq<Piece>, argv: seq<string>, ops: seq<Op>)
    requires Simple(ps, argv, ops) && IsRedir(x)
    ensures Simple([x, W(w)] + ps, argv, [Op(w, x != S('<'))] + ops)
  {
    var op := Op(w, x != S('<'));
    assert ([x, W(w)] + ps)[2..] == ps && ([op] + ops)[1..] == ops;
  }

  /** What a simple command starts with. */
  lemma SimpleHead(ps: seq<Piece>, argv: seq<string>, ops: seq<Op>)
    requires Simple(ps, argv, ops)
    ensures ps == [] ==> argv == [] && ops == []
    ensures ps != [] && ps[0].W? ==>
              && argv != [] && argv == [ps[0].w] + argv[1..] && ps == [W(ps[0].w)] + ps[1..]
              && Simple(ps[1..], argv[1..], ops)
    ensures ps != [] && !ps[0].W? ==>
              && IsRedir(ps[0]) && |ps| >= 2 && ps[1].W? && ops != []
              && ops == [Op(ps[1].w, ps[0] != S('<'))] + ops[1..]
              && ps == [ps[0], W(ps[1].w)] + ps[2..] && Simple(ps[2..], argv, ops[1..])
  {
  }

  lemma {:induction false} SimpleConcat(a: seq<Piece>, v: seq<string>, o: seq<Op>,
                                        b: seq<Piece>, w: seq<string>, q: seq<Op>)
    requires Simple(a, v, o) && Simple(b, w, q)
    ensures Simple(a + b, v + w, o + q)
    decreases a
  {
    hide Simple, IsRedir;
    SimpleHead(a, v, o);
    if a == [] {
      assert a + b == b && v + w == w && o + q == q;
    } else if a[0].W? {
      SimpleConcat(a[1..], v[1..], o, b, w, q);
      ConsWord(a[0].w, a[1..] + b, v[1..] + w, o + q);
      assert a + b == [W(a[0].w)] + (a[1..] + b) && v + w == [a[0].w] + (v[1..] + w);
    } else {
      SimpleConcat(a[2..], v, o[1..], b, w, q);
      ConsRedir(a[0], a[1].w, a[2..] + b, v + w, o[1..] + q);
      assert a + b == [a[0], W(a[1].w)] + (a[2..] + b);
      assert o + q == [Op(a[1].w, a[0] != S('<'))] + (o[1..] + q);
    }
  }

  /** n pieces from p on lead to q. */
  ghost predicate Leads(s: string, p: nat, n: nat, q: nat) {
    p <= |s| && q <= |s| && n <= |Pieces(s, p)| && Pieces(s, p)[n..] == Pieces(s, q)
  }

  ghost function Front(s: string, p: nat, n: nat): seq<Piece>
    requires p <= |s| && n <= |Pieces(s, p)|
  {
    Pieces(s, p)[..n]
  }

  lemma LeadsOn(s: string, p: nat, n: nat, q: nat, k: nat, r: nat)
    requires Leads(s, p, n, q) && Leads(s, q, k, r)
    ensures Leads(s, p, n + k, r) && Front(s, p, n + k) == Front(s, p, n) + Front(s, q, k)
  {
    hide Pieces;
    var ps := Pieces(s, p);
    assert ps == ps[..n] + Pieces(s, q);
    assert ps[n + k..] == Pieces(s, q)[k..] && ps[..n + k] == ps[..n] + Pieces(s, q)[..k];
  }

  lemma LeadsOne(s: string, p: nat, x: Piece, q: nat)
    requires p <= |s| && q <= |s| && Pieces(s, p) == [x] + Pieces(s, q)
    ensures Leads(s, p, 1, q) && Front(s, p, 1) == [x]
  {
  }

  lemma LeadsSkip(s: string, p: nat)
    requires p <= |s|
    ensures Leads(s, p, 0, SkipWhite(s, p)) && Front(s, p, 0) == []
  {
    Head(s, p);
  }

  lemma {:induction false} RedirsSound(s: string, p: nat) returns (n: nat)
    requires p <= |s| && RedirList(s, p).Ops?
    ensures var r := RedirList(s, p);
            && Leads(s, p, n, r.next) && Simple(Front(s, p, n), [], SpelledOps(s, r.ops))
            && !(Pieces(s, r.next) != [] && IsRedir(Pieces(s, r.next)[0]))
    decreases |s| - p
  {
    hide SkipWhite, GetToken, Text, Pieces, SpelledOps, RedirList, Simple, Leads, Front, IsRedir;
    RedirCases(s, p);
    if !(Pieces(s, p) != [] && IsRedir(Pieces(s, p)[0])) {
      n := 0;
      LeadsSkip(s, p);
      NothingSpelled(s);
    } else {
      var op := GetToken(s, p);
      var file := GetToken(s, op.next);
      var rest := RedirList(s, file.next);
      var k := RedirsSound(s, file.next);
      n := 2 + k;
      var first := RedirOp(Span(file.q, file.eq), op.kind != Sym('<'));
      SpelledCons(s, first, rest.ops);
      RedirAnd(s, p, k, rest.next, SpelledOps(s, rest.ops));
    }
  }

  /** One turn of parseredirs' loop. */
  lemma RedirCases(s: string, p: nat)
    requires p <= |s|
    ensures var r := RedirList(s, p);
            if !(Pieces(s, p) != [] && IsRedir(Pieces(s, p)[0])) then
              r == Ops([], SkipWhite(s, p)) && Pieces(s, SkipWhite(s, p)) == Pieces(s, p)
            else
              var op := GetToken(s, p);
              var file := GetToken(s, op.next);
              && p < op.next <= file.next
              && (r.Ops? <==> file.kind == Word && RedirList(s, file.next).Ops?)
              && (r.Ops? ==> var rest := RedirList(s, file.next);
                             r == Ops([RedirOp(Span(file.q, file.eq), op.kind != Sym('<'))] + rest.ops, rest.next))
  {
    hide SkipWhite, GetToken, Pieces, IsRedir;
    Head(s, p);
    HeadRedir(s, p);
    if Pieces(s, p) != [] && IsRedir(Pieces(s, p)[0]) { Head(s, GetToken(s, p).next); }
  }

  /** A redirection with its file, and more of them. */
  lemma RedirAnd(s: string, p: nat, k: nat, r: nat, ops: seq<Op>)
    requires p <= |s| && Pieces(s, p) != [] && IsRedir(Pieces(s, p)[0])
    requires GetToken(s, GetToken(s, p).next).kind == Word
    requires Leads(s, GetToken(s, GetToken(s, p).next).next, k, r)
    requires Simple(Front(s, GetToken(s, GetToken(s, p).next).next, k), [], ops)
    ensures var op := GetToken(s, p);
            var file := GetToken(s, op.next);
            && Leads(s, p, 2 + k, r)
            && Simple(Front(s, p, 2 + k), [], [Op(Text(s, Span(file.q, file.eq)), op.kind != Sym('<'))] + ops)
  {
    hide GetToken, Text, Pieces, Simple, IsRedir, Front;
    var op := GetToken(s, p);
    var file := GetToken(s, op.next);
    TwoPieces(s, p);
    LeadsOn(s, p, 2, file.next, k, r);
    HeadRedir(s, p);
    ConsRedir(Pieces(s, p)[0], Text(s, Span(file.q, file.eq)), Front(s, file.next, k), [], ops);
  }

  lemma TwoPieces(s: string, p: nat)
    requires p <= |s| && Pieces(s, p) != [] && GetToken(s, GetToken(s, p).next).kind == Word
    ensures var file := GetToken(s, GetToken(s, p).next);
            Leads(s, p, 2, file.next) && Front(s, p, 2) == [Pieces(s, p)[0], W(Text(s, Span(file.q, file.eq)))]
  {
    hide GetToken, Text, Pieces;
    var op := GetToken(s, p);
    var file := GetToken(s, op.next);
    Head(s, p);
    Head(s, op.next);
    LeadsOne(s, p, Pieces(s, p)[0], op.next);
    LeadsOne(s, op.next, W(Text(s, Span(file.q, file.eq))), file.next);
    LeadsOn(s, p, 1, op.next, 1, file.next);
  }

  lemma {:induction false} ArgsSound(s: string, p: nat, argv: seq<Span>, ops: seq<RedirOp>)
    returns (n: nat, more: seq<Span>, moreOps: seq<RedirOp>)
    requires p <= |s| && ParseArgs(s, p, argv, ops).Ok? && |argv| < MAXARGS
    ensures var r := ParseArgs(s, p, argv, ops);
            && Leads(s, p, n, r.next) && r.cmd == WrapSpans(Exec(argv + more), ops + moreOps)
            && Simple(Front(s, p, n), Texts(s, more), SpelledOps(s, moreOps)) && |argv| + |more| < MAXARGS
    decreases |s| - p
  {
    hide SkipWhite, GetToken, Text, Pieces, SpelledOps, Texts, RedirList, WrapSpans, ParseArgs, Simple, Front, Leads;
    hide EndsCommand;
    ArgsCases(s, p, argv, ops);
    var t := GetToken(s, p);
    if EndsCommand(s, SkipWhite(s, p)) || t.kind == End {
      n, more, moreOps := 0, [], [];
      assert argv + more == argv && ops + moreOps == ops;
      NothingSpelled(s);
      LeadsSkip(s, p);
    } else {
      var rs := RedirList(s, t.next);
      var k := RedirsSound(s, t.next);
      var w := Span(t.q, t.eq);
      var m, more1, ops1 := ArgsSound(s, rs.next, argv + [w], ops + rs.ops);
      more, moreOps, n := [w] + more1, rs.ops + ops1, 1 + k + m;
      assert argv + more == argv + [w] + more1 && ops + moreOps == ops + rs.ops + ops1;
      SpelledParts(s, w, more1, rs.ops, ops1);
      WordAnd(s, p, k, rs.next, m, ParseArgs(s, p, argv, ops).next, SpelledOps(s, rs.ops), Texts(s, more1),
        SpelledOps(s, ops1));
    }
  }

  /** A word, its redirections, and the rest of a simple command. */
  lemma WordAnd(s: string, p: nat, k: nat, r: nat, m: nat, q: nat, o: seq<Op>, v: seq<string>, o1: seq<Op>)
    requires p <= |s| && GetToken(s, p).kind == Word && Leads(s, GetToken(s, p).next, k, r) && Leads(s, r, m, q)
    requires Simple(Front(s, GetToken(s, p).next, k), [], o) && Simple(Front(s, r, m), v, o1)
    ensures var t := GetToken(s, p);
            Leads(s, p, 1 + k + m, q) && Simple(Front(s, p, 1 + k + m), [Text(s, Span(t.q, t.eq))] + v, o + o1)
  {
    hide GetToken, Text, Pieces, Simple;
    var t := GetToken(s, p);
    var w := Text(s, Span(t.q, t.eq));
    Head(s, p);
    LeadsOne(s, p, W(w), t.next);
    LeadsOn(s, t.next, k, r, m, q);
    LeadsOn(s, p, 1, t.next, k + m, q);
    SimpleConcat(Front(s, t.next, k), [], o, Front(s, r, m), v, o1);
    assert [] + v == v;
    ConsWord(w, Front(s, t.next, k + m), v, o + o1);
  }

  /** One turn of parseexec's loop. */
  lemma ArgsCases(s: string, p: nat, argv: seq<Span>, ops: seq<RedirOp>)
    requires p <= |s| && ParseArgs(s, p, argv, ops).Ok?
    ensures var t := GetToken(s, p);
            var r := ParseArgs(s, p, argv, ops);
            if EndsCommand(s, SkipWhite(s, p)) || t.kind == End then
              r.cmd == WrapSpans(Exec(argv), ops) && Leads(s, p, 0, r.next)
            else
              && t.kind == Word && |argv| + 1 < MAXARGS && RedirList(s, t.next).Ops? && p < t.next
              && var rs := RedirList(s, t.next);
                 r == ParseArgs(s, rs.next, argv + [Span(t.q, t.eq)], ops + rs.ops)
  {
    hide SkipWhite, GetToken, Text, Pieces, RedirList, WrapSpans, EndsCommand;
    Head(s, p);
    LeadsSkip(s, p);
    if GetToken(s, p).kind == End { LeadsEnd(s, p); }
  }

  lemma LeadsEnd(s: string, p: nat)
    requires p <= |s| && GetToken(s, p).kind == End
    ensures Leads(s, p, 0, GetToken(s, p).next)
  {
    Head(s, p);
    assert SkipWhite(s, |s|) == |s|;
  }

  lemma NothingSpelled(s: string)
    ensures Texts(s, []) == [] && SpelledOps(s, []) == [] && Simple([], [], [])
  {
  }

  lemma {:induction false} ExecSound(s: string, p: nat) returns (n: nat)
    requires p <= |s| && ParseExec(s, p).Ok?
    ensures var r := ParseExec(s, p); Leads(s, p, n, r.next) && IsExec(Front(s, p, n), Spelled(s, r.cmd))
    decreases |s| - p, 1
  {
    hide SkipWhite, GetToken, Text, Pieces, SpelledOps, Texts, RedirList, WrapSpans, ParseArgs, ParseBlock, Simple;
    var p1 := SkipWhite(s, p);
    LeadsSkip(s, p);
    if Sees(s, p1, '(') {
      var k := BlockSound(s, p1);
      LeadsOn(s, p, 0, p1, k, ParseExec(s, p).next);
      assert Front(s, p, k) == Front(s, p1, k);
      n := k;
    } else {
      var rs := RedirList(s, p1);
      var k := RedirsSound(s, p1);
      var m, argv, ops := ArgsSound(s, rs.next, [], rs.ops);
      LeadsOn(s, p, 0, p1, k, rs.next);
      LeadsOn(s, p, k, rs.next, m, ParseExec(s, p).next);
      n := k + m;
      SimpleConcat(Front(s, p1, k), [], SpelledOps(s, rs.ops), Front(s, rs.next, m), Texts(s, argv),
        SpelledOps(s, ops));
      SpelledBoth(s, rs.ops, ops);
      assert [] + argv == argv && [] + Texts(s, argv) == Texts(s, argv);
      WrapIsAround(s, Exec(argv), rs.ops + ops);
      SpelledExec(s, argv);
      assert Front(s, p, n) == Front(s, p1, k) + Front(s, rs.next, m);
      IsSimple(Front(s, p, n), Texts(s, argv), SpelledOps(s, rs.ops + ops));
    }
  }

  lemma SpelledBoth(s: string, a: seq<RedirOp>, b: seq<RedirOp>)
    ensures SpelledOps(s, a + b) == SpelledOps(s, a) + SpelledOps(s, b)
  {
    hide Text;
  }

  lemma SpelledExec(s: string, argv: seq<Span>)
    ensures Spelled(s, Exec(argv)) == Exec(Texts(s, argv))
  {
  }

  lemma IsSimple(ps: seq<Piece>, argv: seq<string>, ops: seq<Op>)
    requires Simple(ps, argv, ops) && |argv| < MAXARGS
    ensures IsExec(ps, Around(Exec(argv), ops))
  {
    hide Simple, Around;
  }

  lemma {:induction false} BlockSound(s: string, p: nat) returns (n: nat)
    requires p <= |s| && Sees(s, p, '(') && ParseBlock(s, p).Ok?
    ensures var r := ParseBlock(s, p); Leads(s, p, n, r.next) && IsExec(Front(s, p, n), Spelled(s, r.cmd))
    decreases |s| - p, 0
  {
    hide SkipWhite, GetToken, Text, Pieces, SpelledOps, RedirList, WrapSpans, ParseLine, Simple, IsLine, Around, IsExec;
    hide Front, Spelled;
    assert SkipWhite(s, p) == p by { SkipTo(s, p, p); }
    var q := GetToken(s, p).next;
    var inner := ParseLine(s, q);
    var k := LineSound(s, q);
    var z := GetToken(s, SkipWhite(s, inner.next)).next;
    var rs := RedirList(s, z);
    var m := RedirsSound(s, z);
    n := 2 + k + m;
    ParensAround(s, p, k, inner.next, m, rs.next);
    WrapIsAround(s, inner.cmd, rs.ops);
    BlockIs(Front(s, q, k), Spelled(s, inner.cmd), Front(s, z, m), SpelledOps(s, rs.ops));
  }

  lemma ParensAround(s: string, p: nat, k: nat, e: nat, m: nat, r: nat)
    requires p <= |s| && SkipWhite(s, p) == p && Sees(s, p, '(') && Leads(s, GetToken(s, p).next, k, e)
    requires Sees(s, SkipWhite(s, e), ')') && Leads(s, GetToken(s, SkipWhite(s, e)).next, m, r)
    ensures var q, z := GetToken(s, p).next, GetToken(s, SkipWhite(s, e)).next;
            Leads(s, p, 2 + k + m, r) && Front(s, p, 2 + k + m) == [S('(')] + Front(s, q, k) + [S(')')] + Front(s, z, m)
  {
    hide SkipWhite, GetToken, Pieces;
    HeadSymbol(s, p, '(');
    HeadSymbol(s, e, ')');
    var q, z := GetToken(s, p).next, GetToken(s, SkipWhite(s, e)).next;
    LeadsOne(s, p, S('('), q);
    LeadsOn(s, p, 1, q, k, e);
    LeadsOne(s, e, S(')'), z);
    LeadsOn(s, p, 1 + k, e, 1, z);
    LeadsOn(s, p, 2 + k, z, m, r);
  }

  lemma BlockIs(line: seq<Piece>, b: Tree, redirs: seq<Piece>, ops: seq<Op>)
    requires IsLine(line, b) && Simple(redirs, [], ops)
    ensures IsExec([S('(')] + line + [S(')')] + redirs, Around(b, ops))
  {
    hide IsLine, Simple, Around;
    var ps, m := [S('(')] + line + [S(')')] + redirs, 1 + |line|;
    assert ps[1..m] == line && ps[m + 1..] == redirs;
    assert IsBlock(ps, m, b, ops);
  }

  lemma {:induction false} PipeSound(s: string, p: nat) returns (n: nat)
    requires p <= |s| && ParsePipe(s, p).Ok?
    ensures var r := ParsePipe(s, p); Leads(s, p, n, r.next) && IsPipe(Front(s, p, n), Spelled(s, r.cmd))
    decreases |s| - p, 2
  {
    hide SkipWhite, GetToken, Text, Pieces, ParseExec, IsExec;
    var left := ParseExec(s, p);
    var k := ExecSound(s, p);
    var p1 := SkipWhite(s, left.next);
    HeadSymbol(s, left.next, '|');
    LeadsSkip(s, left.next);
    LeadsOn(s, p, k, left.next, 0, p1);
    if !Sees(s, p1, '|') {
      n := k;
    } else {
      var q := GetToken(s, p1).next;
      var m := PipeSound(s, q);
      LeadsOne(s, left.next, S('|'), q);
      LeadsOn(s, p, k, left.next, 1, q);
      LeadsOn(s, p, k + 1, q, m, ParsePipe(s, p).next);
      n := k + 1 + m;
      var ps := Front(s, p, n);
      assert ps == Front(s, p, k) + [S('|')] + Front(s, q, m);
      assert ps[..k] == Front(s, p, k) && ps[k + 1..] == Front(s, q, m) && ps[k] == S('|');
      assert PipeSplit(ps, k, Spelled(s, left.cmd), Spelled(s, ParsePipe(s, q).cmd));
    }
  }

  lemma {:induction false} BacksSound(s: string, p0: nat, n0: nat, p: nat, c: Cmd<Span>) returns (n: nat)
    requires Leads(s, p0, n0, p) && IsBack(Front(s, p0, n0), Spelled(s, c))
    ensures var r := Backs(s, p, c); Leads(s, p0, n, r.1) && IsBack(Front(s, p0, n), Spelled(s, r.0))
    ensures !StartsWith(Pieces(s, Backs(s, p, c).1), S('&')) && SkipWhite(s, Backs(s, p, c).1) == Backs(s, p, c).1
    decreases |s| - p
  {
    hide SkipWhite, GetToken, Text, Pieces, IsPipe;
    var p1 := SkipWhite(s, p);
    Head(s, p);
    HeadSymbol(s, p, '&');
    LeadsSkip(s, p);
    LeadsOn(s, p0, n0, p, 0, p1);
    if Sees(s, p1, '&') {
      var q := GetToken(s, p1).next;
      LeadsOne(s, p, S('&'), q);
      LeadsOn(s, p0, n0, p, 1, q);
      var ps := Front(s, p0, n0 + 1);
      assert ps[..|ps| - 1] == Front(s, p0, n0);
      n := BacksSound(s, p0, n0 + 1, q, Back(c));
    } else {
      n := n0;
    }
  }

  lemma {:induction false} LineSound(s: string, p: nat) returns (n: nat)
    requires p <= |s| && ParseLine(s, p).Ok?
    ensures var r := ParseLine(s, p); Leads(s, p, n, r.next) && IsLine(Front(s, p, n), Spelled(s, r.cmd))
    decreases |s| - p, 3
  {
    hide SkipWhite, GetToken, Text, Pieces, ParsePipe, Backs, IsPipe;
    var first := ParsePipe(s, p);
    var k0 := PipeSound(s, p);
    var k := BacksSound(s, p, k0, first.next, first.cmd);
    var p1 := Backs(s, first.next, first.cmd).1;
    HeadSymbol(s, p1, ';');
    if !Sees(s, p1, ';') {
      n := k;
    } else {
      var q := GetToken(s, p1).next;
      var m := LineSound(s, q);
      LeadsOne(s, p1, S(';'), q);
      LeadsOn(s, p, k, p1, 1, q);
      LeadsOn(s, p, k + 1, q, m, ParseLine(s, p).next);
      n := k + 1 + m;
      var ps := Front(s, p, n);
      assert ps == Front(s, p, k) + [S(';')] + Front(s, q, m);
      assert ps[..k] == Front(s, p, k) && ps[k + 1..] == Front(s, q, m) && ps[k] == S(';');
      var c := Backs(s, first.next, first.cmd).0;
      assert LineSplit(ps, k, Spelled(s, c), Spelled(s, ParseLine(s, q).cmd));
    }
  }

  // ---- Every command of the language is parsed ----

  /** The end, or a symbol that ends a command. */
  ghost predicate Stop(ps: seq<Piece>) {
    ps == [] || ps[0] == S('|') || ps[0] == S(')') || ps[0] == S('&') || ps[0] == S(';')
  }

  ghost function Rest(s: string, p: nat, n: nat): seq<Piece>
    requires p <= |s| && n <= |Pieces(s, p)|
  {
    Pieces(s, p)[n..]
  }

  lemma FrontOn(s: string, p: nat, n: nat, q: nat, k: nat)
    requires Leads(s, p, n, q) && n + k <= |Pieces(s, p)|
    ensures k <= |Pieces(s, q)| && Front(s, q, k) == Front(s, p, n + k)[n..] && Rest(s, q, k) == Rest(s, p, n + k)
  {
  }

  lemma {:induction false} RedirsComplete(s: string, p: nat, n: nat, ops: seq<Op>) returns (spans: seq<RedirOp>, q: nat)
    requires p <= |s| && n <= |Pieces(s, p)| && Simple(Front(s, p, n), [], ops)
    requires !(Rest(s, p, n) != [] && IsRedir(Rest(s, p, n)[0]))
    ensures RedirList(s, p) == Ops(spans, q) && Leads(s, p, n, q) && SpelledOps(s, spans) == ops
    decreases n
  {
    hide SkipWhite, GetToken, Text, Pieces, SpelledOps, RedirList, Simple, Leads, Front, Rest, IsRedir;
    RedirCases(s, p);
    if n == 0 {
      spans, q := [], SkipWhite(s, p);
      LeadsSkip(s, p);
      NothingSpelled(s);
      NoneToRead(s, p, ops);
    } else {
      RedirFirst(s, p, n, ops);
      var op := GetToken(s, p);
      var file := GetToken(s, op.next);
      var more;
      more, q := RedirsComplete(s, file.next, n - 2, ops[1..]);
      LeadsOn(s, p, 2, file.next, n - 2, q);
      var first := RedirOp(Span(file.q, file.eq), op.kind != Sym('<'));
      spans := [first] + more;
      SpelledCons(s, first, more);
      assert ops == [ops[0]] + ops[1..];
    }
  }

  lemma NoneToRead(s: string, p: nat, ops: seq<Op>)
    requires p <= |s| && Simple(Front(s, p, 0), [], ops)
    ensures ops == [] && Rest(s, p, 0) == Pieces(s, p)
  {
  }

  lemma RedirFirst(s: string, p: nat, n: nat, ops: seq<Op>)
    requires p <= |s| && 0 < n <= |Pieces(s, p)| && Simple(Front(s, p, n), [], ops)
    ensures var op := GetToken(s, p);
            var file := GetToken(s, op.next);
            && n >= 2 && Pieces(s, p) != [] && IsRedir(Pieces(s, p)[0]) && file.kind == Word && ops != []
            && ops[0] == Op(Text(s, Span(file.q, file.eq)), op.kind != Sym('<')) && Leads(s, p, 2, file.next)
            && n - 2 <= |Pieces(s, file.next)| && Simple(Front(s, file.next, n - 2), [], ops[1..])
            && Rest(s, file.next, n - 2) == Rest(s, p, n)
  {
    hide SkipWhite, GetToken, Text, Pieces, Simple, IsRedir;
    var ps := Front(s, p, n);
    SimpleHead(ps, [], ops);
    var op := GetToken(s, p);
    assert ps[0] == Pieces(s, p)[0] && ps[1] == Pieces(s, p)[1];
    Head(s, p);
    HeadRedir(s, p);
    assert Pieces(s, op.next)[0] == Pieces(s, p)[1];
    HeadWord(s, op.next);
    TwoPieces(s, p);
    FrontOn(s, p, 2, GetToken(s, op.next).next, n - 2);
  }

  /** The redirections before the first word. */
  lemma {:induction false} LeadSplit(ps: seq<Piece>, argv: seq<string>, ops: seq<Op>) returns (j: nat, k: nat)
    requires Simple(ps, argv, ops)
    ensures j <= |ps| && k <= |ops| && Simple(ps[..j], [], ops[..k]) && Simple(ps[j..], argv, ops[k..])
    ensures j == |ps| || ps[j].W?
    decreases ps
  {
    if ps == [] || ps[0].W? {
      j, k := 0, 0;
      assert ps[..0] == [] && ops[..0] == [] && ps[0..] == ps && ops[0..] == ops;
    } else {
      var j1, k1 := LeadSplit(ps[2..], argv, ops[1..]);
      j, k := j1 + 2, k1 + 1;
      assert ps[..j][2..] == ps[2..][..j1] && ops[..k][1..] == ops[1..][..k1];
      assert ps[j..] == ps[2..][j1..] && ops[k..] == ops[1..][k1..];
    }
  }

  lemma StopEnds(s: string, p: nat)
    requires p <= |s| && Stop(Pieces(s, p))
    ensures EndsCommand(s, SkipWhite(s, p)) || GetToken(s, SkipWhite(s, p)).kind == End
    ensures EndsCommand(s, SkipWhite(s, p)) || SkipWhite(s, p) == GetToken(s, SkipWhite(s, p)).next
  {
    hide SkipWhite, GetToken, Text, Pieces;
    Head(s, p);
    HeadSymbol(s, p, '|');
    HeadSymbol(s, p, ')');
    HeadSymbol(s, p, '&');
    HeadSymbol(s, p, ';');
    EndAtEnd(s, p);
  }

  lemma EndAtEnd(s: string, p: nat)
    requires p <= |s|
    ensures GetToken(s, SkipWhite(s, p)).kind == End ==> GetToken(s, SkipWhite(s, p)).next == SkipWhite(s, p)
  {
    ToksSkip(s, p, SkipWhite(s, p));
  }

  lemma WordGoesOn(s: string, p: nat)
    requires p <= |s| && Pieces(s, p) != [] && Pieces(s, p)[0].W?
    ensures !EndsCommand(s, SkipWhite(s, p)) && GetToken(s, SkipWhite(s, p)).kind == Word
  {
    hide SkipWhite, GetToken, Text, Pieces;
    Head(s, p);
    HeadWord(s, p);
    HeadSymbol(s, p, '|');
    HeadSymbol(s, p, ')');
    HeadSymbol(s, p, '&');
    HeadSymbol(s, p, ';');
  }

  lemma {:induction false} ArgsComplete(s: string, p: nat, n: nat, argv: seq<string>, ops: seq<Op>,
                                        argv0: seq<Span>, ops0: seq<RedirOp>)
    returns (more: seq<Span>, moreOps: seq<RedirOp>, q: nat)
    requires p <= |s| && n <= |Pieces(s, p)| && Simple(Front(s, p, n), argv, ops) && Stop(Rest(s, p, n))
    requires (n > 0 ==> Pieces(s, p)[0].W?) && |argv0| + |argv| < MAXARGS
    ensures ParseArgs(s, p, argv0, ops0) == Ok(WrapSpans(Exec(argv0 + more), ops0 + moreOps), q) && Leads(s, p, n, q)
    ensures Texts(s, more) == argv && SpelledOps(s, moreOps) == ops
    decreases n
  {
    hide SkipWhite, GetToken, Text, Pieces, SpelledOps, Texts, RedirList, WrapSpans, EndsCommand, ParseArgs, Simple;
    hide Leads, Front, Rest, Stop;
    if n == 0 {
      q := ArgsStop(s, p, argv, ops, argv0, ops0);
      more, moreOps := [], [];
      assert argv0 + more == argv0 && ops0 + moreOps == ops0;
    } else {
      var w, spans, k, j, r := ArgsTurn(s, p, n, argv, ops, argv0, ops0);
      var more1, ops1;
      more1, ops1, q := ArgsComplete(s, r, n - 1 - j, argv[1..], ops[k..], argv0 + [w], ops0 + spans);
      LeadsOn(s, p, 1 + j, r, n - 1 - j, q);
      more, moreOps := [w] + more1, spans + ops1;
      assert argv0 + more == argv0 + [w] + more1 && ops0 + moreOps == ops0 + spans + ops1;
      SpelledParts(s, w, more1, spans, ops1);
      assert argv == [argv[0]] + argv[1..] && ops == ops[..k] + ops[k..];
    }
  }

  /** One turn of parseexec's loop: a word, and the j pieces of redirections after it. */
  lemma ArgsTurn(s: string, p: nat, n: nat, argv: seq<string>, ops: seq<Op>, argv0: seq<Span>, ops0: seq<RedirOp>)
    returns (w: Span, spans: seq<RedirOp>, k: nat, j: nat, r: nat)
    requires p <= |s| && 0 < n <= |Pieces(s, p)| && Simple(Front(s, p, n), argv, ops) && Stop(Rest(s, p, n))
    requires Pieces(s, p)[0].W? && |argv0| + |argv| < MAXARGS
    ensures j < n && k <= |ops| && r <= |s| && Leads(s, p, 1 + j, r) && n - 1 - j <= |Pieces(s, r)|
    ensures argv != [] && Text(s, w) == argv[0] && SpelledOps(s, spans) == ops[..k]
    ensures Simple(Front(s, r, n - 1 - j), argv[1..], ops[k..]) && Stop(Rest(s, r, n - 1 - j))
    ensures n - 1 - j > 0 ==> Pieces(s, r)[0].W?
    ensures ParseArgs(s, p, argv0, ops0) == ParseArgs(s, r, argv0 + [w], ops0 + spans)
  {
    hide SkipWhite, GetToken, Text, Pieces, SpelledOps, Texts, RedirList, WrapSpans, EndsCommand, ParseArgs, Simple;
    hide Leads, Front, Rest, Stop;
    var t := GetToken(s, p);
    w := Span(t.q, t.eq);
    ArgsWord(s, p, n, argv, ops);
    j, k := LeadSplit(Front(s, t.next, n - 1), argv[1..], ops);
    FrontSize(s, t.next, n - 1);
    SplitFront(s, t.next, n - 1, j);
    spans, r := RedirsComplete(s, t.next, j, ops[..k]);
    FrontOn(s, t.next, j, r, n - 1 - j);
    ArgsOne(s, p, argv0, ops0);
    RestStarts(s, t.next, j, r, n - 1);
    LeadsOn(s, p, 1, t.next, j, r);
  }

  lemma ArgsStop(s: string, p: nat, argv: seq<string>, ops: seq<Op>, argv0: seq<Span>, ops0: seq<RedirOp>)
    returns (q: nat)
    requires p <= |s| && Simple(Front(s, p, 0), argv, ops) && Stop(Rest(s, p, 0))
    ensures ParseArgs(s, p, argv0, ops0) == Ok(WrapSpans(Exec(argv0), ops0), q) && Leads(s, p, 0, q)
    ensures Texts(s, []) == argv && SpelledOps(s, []) == ops
  {
    hide SkipWhite, GetToken, Text, Pieces, SpelledOps, Texts, RedirList, WrapSpans, EndsCommand;
    assert Rest(s, p, 0) == Pieces(s, p);
    Head(s, p);
    StopEnds(s, p);
    LeadsSkip(s, p);
    NothingSpelled(s);
    q := SkipWhite(s, p);
  }

  /** The first of n pieces is a word: the first argument. */
  lemma ArgsWord(s: string, p: nat, n: nat, argv: seq<string>, ops: seq<Op>)
    requires p <= |s| && 0 < n <= |Pieces(s, p)| && Pieces(s, p)[0].W? && Simple(Front(s, p, n), argv, ops)
    ensures var t := GetToken(s, p);
            && t.kind == Word && argv != [] && argv[0] == Text(s, Span(t.q, t.eq)) && Leads(s, p, 1, t.next)
            && n - 1 <= |Pieces(s, t.next)| && Simple(Front(s, t.next, n - 1), argv[1..], ops)
            && Rest(s, t.next, n - 1) == Rest(s, p, n)
  {
    hide SkipWhite, GetToken, Text, Pieces;
    Head(s, p);
    HeadWord(s, p);
    var t := GetToken(s, p);
    assert Front(s, p, n)[0] == Pieces(s, p)[0];
    LeadsOne(s, p, Pieces(s, p)[0], t.next);
    FrontOn(s, p, 1, t.next, n - 1);
  }

  lemma ArgsOne(s: string, p: nat, argv0: seq<Span>, ops0: seq<RedirOp>)
    requires p <= |s| && GetToken(s, p).kind == Word && |argv0| + 1 < MAXARGS && RedirList(s, GetToken(s, p).next).Ops?
    requires Pieces(s, p) != [] && Pieces(s, p)[0].W?
    ensures var t := GetToken(s, p);
            var rs := RedirList(s, t.next);
            ParseArgs(s, p, argv0, ops0) == ParseArgs(s, rs.next, argv0 + [Span(t.q, t.eq)], ops0 + rs.ops)
  {
    hide SkipWhite, GetToken, Text, Pieces, RedirList, WrapSpans, EndsCommand;
    Head(s, p);
    WordGoesOn(s, p);
  }

  lemma RestStarts(s: string, p: nat, j: nat, r: nat, n: nat)
    requires Leads(s, p, j, r) && j <= n <= |Pieces(s, p)| && (j < n ==> Rest(s, p, j)[0].W?)
    ensures j < n ==> Pieces(s, r) != [] && Pieces(s, r)[0].W?
    ensures Front(s, p, n)[j..] == Pieces(s, p)[j..n]
  {
  }

  /** After the first j of n pieces comes a word, or what comes after the n. */
  lemma SplitFront(s: string, p: nat, n: nat, j: nat)
    requires p <= |s| && j <= n <= |Pieces(s, p)| && Stop(Rest(s, p, n)) && (j == n || Front(s, p, n)[j].W?)
    ensures Front(s, p, n)[..j] == Front(s, p, j) && Front(s, p, n)[j..] == Pieces(s, p)[j..n]
    ensures !(Rest(s, p, j) != [] && IsRedir(Rest(s, p, j)[0])) && (j < n ==> Rest(s, p, j)[0].W?)
  {
  }

  lemma {:induction false} ExecComplete(s: string, p: nat, n: nat, c: Tree) returns (tree: Cmd<Span>, q: nat)
    requires p <= |s| && n <= |Pieces(s, p)| && IsExec(Front(s, p, n), c) && Stop(Rest(s, p, n))
    ensures ParseExec(s, p) == Ok(tree, q) && Leads(s, p, n, q) && Spelled(s, tree) == c
    decreases n, 0
  {
    hide *;
    var ps := Front(s, p, n);
    if argv, ops :| Simple(ps, argv, ops) && |argv| < MAXARGS && c == Around(Exec(argv), ops) {
      tree, q := SimpleComplete(s, p, n, argv, ops);
    } else {
      var m: nat, b, ops := TheBlock(ps, c);
      BlockParts(ps, m, b, ops);
      FrontSize(s, p, n);
      tree, q := BlockComplete(s, p, n, m, b, ops);
    }
  }

  lemma FrontSize(s: string, p: nat, n: nat)
    requires p <= |s| && n <= |Pieces(s, p)|
    ensures |Front(s, p, n)| == n
  {
  }

  lemma TheBlock(ps: seq<Piece>, c: Tree) returns (m: nat, b: Tree, ops: seq<Op>)
    requires IsExec(ps, c)
    requires forall argv, ops :: !(Simple(ps, argv, ops) && |argv| < MAXARGS && c == Around(Exec(argv), ops))
    ensures IsBlock(ps, m, b, ops) && c == Around(b, ops)
  {
    hide Simple, IsBlock, Around;
    m, b, ops :| IsBlock(ps, m, b, ops) && c == Around(b, ops);
  }

  lemma BlockParts(ps: seq<Piece>, m: nat, b: Tree, ops: seq<Op>)
    requires IsBlock(ps, m, b, ops)
    ensures 0 < m < |ps| && ps[0] == S('(') && ps[m] == S(')') && IsLine(ps[1..m], b) && Simple(ps[m + 1..], [], ops)
  {
    hide Simple, IsLine;
  }

  lemma SimpleComplete(s: string, p: nat, n: nat, argv: seq<string>, ops: seq<Op>) returns (tree: Cmd<Span>, q: nat)
    requires p <= |s| && n <= |Pieces(s, p)| && Stop(Rest(s, p, n))
    requires Simple(Front(s, p, n), argv, ops) && |argv| < MAXARGS
    ensures ParseExec(s, p) == Ok(tree, q) && Leads(s, p, n, q) && Spelled(s, tree) == Around(Exec(argv), ops)
  {
    hide SkipWhite, GetToken, Text, Pieces, SpelledOps, Texts, RedirList, WrapSpans, ParseArgs, ParseExec, Around;
    hide Simple;
    hide Leads, Front, Rest, Stop, Spelled;
    var j, k := LeadSplit(Front(s, p, n), argv, ops);
    FrontSize(s, p, n);
    SplitFront(s, p, n, j);
    var spans, r := RedirsComplete(s, p, j, ops[..k]);
    SimpleUnfold(s, p, n, argv, ops);
    FrontOn(s, p, j, r, n - j);
    RestStarts(s, p, j, r, n);
    var more, moreOps;
    more, moreOps, q := ArgsComplete(s, r, n - j, argv, ops[k..], [], spans);
    LeadsOn(s, p, j, r, n - j, q);
    tree := WrapSpans(Exec(more), spans + moreOps);
    assert [] + more == more;
    WrapIsAround(s, Exec(more), spans + moreOps);
    SpelledBoth(s, spans, moreOps);
    SpelledExec(s, more);
    assert ops[..k] + ops[k..] == ops;
  }

  lemma SimpleUnfold(s: string, p: nat, n: nat, argv: seq<string>, ops: seq<Op>)
    requires p <= |s| && n <= |Pieces(s, p)| && Stop(Rest(s, p, n)) && Simple(Front(s, p, n), argv, ops)
    requires RedirList(s, p).Ops?
    ensures ParseExec(s, p) == ParseArgs(s, RedirList(s, p).next, [], RedirList(s, p).ops)
  {
    hide SkipWhite, GetToken, Text, Pieces, ParseArgs, Simple, Rest, Front, Stop;
    NoParen(s, p, n, argv, ops);
    Head(s, p);
  }

  lemma NoParen(s: string, p: nat, n: nat, argv: seq<string>, ops: seq<Op>)
    requires p <= |s| && n <= |Pieces(s, p)| && Stop(Rest(s, p, n)) && Simple(Front(s, p, n), argv, ops)
    ensures !Sees(s, SkipWhite(s, p), '(')
  {
    hide SkipWhite, Text, Pieces;
    HeadSymbol(s, p, '(');
    if n == 0 { assert Rest(s, p, 0) == Pieces(s, p); } else { assert Front(s, p, n)[0] == Pieces(s, p)[0]; }
  }

  lemma {:induction false} BlockComplete(s: string, p: nat, n: nat, m: nat, b: Tree, ops: seq<Op>)
    returns (tree: Cmd<Span>, q: nat)
    requires p <= |s| && 0 < m < n <= |Pieces(s, p)| && Stop(Rest(s, p, n))
    requires var ps := Front(s, p, n);
             ps[0] == S('(') && ps[m] == S(')') && IsLine(ps[1..m], b) && Simple(ps[m + 1..], [], ops)
    ensures ParseExec(s, p) == Ok(tree, q) && Leads(s, p, n, q) && Spelled(s, tree) == Around(b, ops)
    decreases n, 0, 0
  {
    hide SkipWhite, GetToken, Text, Pieces, SpelledOps, RedirList, WrapSpans, ParseLine, Simple, IsLine, Around;
    hide ParseArgs;
    hide Leads, Front, Rest, ParseExec, Spelled;
    var u := BlockOpens(s, p, n, m);
    var inner, v := LineComplete(s, u, m - 1, b);
    LeadsOn(s, p, 1, u, m - 1, v);
    var z := BlockCloses(s, p, n, m, v);
    var spans;
    spans, q := RedirsComplete(s, z, n - m - 1, ops);
    LeadsOn(s, p, m + 1, z, n - m - 1, q);
    tree := WrapSpans(inner, spans);
    WrapIsAround(s, inner, spans);
    BlockParse(s, p, inner, v, spans, q);
  }

  lemma BlockOpens(s: string, p: nat, n: nat, m: nat) returns (u: nat)
    requires p <= |s| && 0 < m < n <= |Pieces(s, p)| && Front(s, p, n)[0] == S('(') && Front(s, p, n)[m] == S(')')
    ensures Sees(s, SkipWhite(s, p), '(') && u == GetToken(s, SkipWhite(s, p)).next && Leads(s, p, 1, u)
    ensures m - 1 <= |Pieces(s, u)| && Front(s, u, m - 1) == Front(s, p, n)[1..m]
    ensures Rest(s, u, m - 1) != [] && Rest(s, u, m - 1)[0] == S(')')
  {
    hide SkipWhite, GetToken, Pieces;
    HeadSymbol(s, p, '(');
    assert Front(s, p, n)[0] == Pieces(s, p)[0] && Front(s, p, n)[m] == Pieces(s, p)[m];
    u := GetToken(s, SkipWhite(s, p)).next;
    LeadsOne(s, p, S('('), u);
    FrontOn(s, p, 1, u, m - 1);
    assert Rest(s, p, m)[0] == S(')');
  }

  lemma BlockCloses(s: string, p: nat, n: nat, m: nat, v: nat) returns (z: nat)
    requires Leads(s, p, m, v) && m < n <= |Pieces(s, p)| && Front(s, p, n)[m] == S(')')
    ensures Sees(s, SkipWhite(s, v), ')') && z == GetToken(s, SkipWhite(s, v)).next && Leads(s, p, m + 1, z)
    ensures n - m - 1 <= |Pieces(s, z)| && Front(s, z, n - m - 1) == Front(s, p, n)[m + 1..]
    ensures Rest(s, z, n - m - 1) == Rest(s, p, n)
  {
    hide SkipWhite, GetToken, Pieces;
    assert Front(s, p, n)[m] == Pieces(s, p)[m] == Pieces(s, v)[0];
    HeadSymbol(s, v, ')');
    z := GetToken(s, SkipWhite(s, v)).next;
    LeadsOne(s, v, S(')'), z);
    LeadsOn(s, p, m, v, 1, z);
    FrontOn(s, p, m + 1, z, n - m - 1);
  }

  lemma BlockParse(s: string, p: nat, inner: Cmd<Span>, v: nat, spans: seq<RedirOp>, q: nat)
    requires p <= |s| && Sees(s, SkipWhite(s, p), '(')
    requires ParseLine(s, GetToken(s, SkipWhite(s, p)).next) == Ok(inner, v) && Sees(s, SkipWhite(s, v), ')')
    requires RedirList(s, GetToken(s, SkipWhite(s, v)).next) == Ops(spans, q)
    ensures ParseExec(s, p) == Ok(WrapSpans(inner, spans), q)
  {
    hide SkipWhite, GetToken, RedirList, WrapSpans, ParseLine;
  }

  lemma {:induction false} PipeComplete(s: string, p: nat, n: nat, c: Tree) returns (tree: Cmd<Span>, q: nat)
    requires p <= |s| && n <= |Pieces(s, p)| && IsPipe(Front(s, p, n), c)
    requires Stop(Rest(s, p, n)) && !StartsWith(Rest(s, p, n), S('|'))
    ensures ParsePipe(s, p) == Ok(tree, q) && Leads(s, p, n, q) && Spelled(s, tree) == c
    decreases n, 1
  {
    hide SkipWhite, GetToken, Text, Pieces, ParseExec, IsExec;
    var ps := Front(s, p, n);
    if IsExec(ps, c) {
      var left, r := ExecComplete(s, p, n, c);
      HeadSymbol(s, r, '|');
      LeadsSkip(s, r);
      LeadsOn(s, p, n, r, 0, SkipWhite(s, r));
      tree, q := left, SkipWhite(s, r);
    } else {
      var m: nat :| PipeSplit(ps, m, c.left, c.right);
      SplitAt(s, p, n, m);
      var left, r := ExecComplete(s, p, m, c.left);
      HeadSymbol(s, r, '|');
      var u := GetToken(s, SkipWhite(s, r)).next;
      LeadsOne(s, r, S('|'), u);
      LeadsOn(s, p, m, r, 1, u);
      FrontOn(s, p, m + 1, u, n - m - 1);
      var right;
      right, q := PipeComplete(s, u, n - m - 1, c.right);
      LeadsOn(s, p, m + 1, u, n - m - 1, q);
      tree := Pipe(left, right);
    }
  }

  lemma SplitAt(s: string, p: nat, n: nat, m: nat)
    requires p <= |s| && m < n <= |Pieces(s, p)|
    ensures Front(s, p, n)[..m] == Front(s, p, m) && Rest(s, p, m) != [] && Rest(s, p, m)[0] == Front(s, p, n)[m]
    ensures Front(s, p, n)[m + 1..] == Pieces(s, p)[m + 1..n]
  {
  }

  lemma {:induction false} BackComplete(s: string, p: nat, n: nat, c: Tree) returns (tree: Cmd<Span>, q: nat)
    requires p <= |s| && n <= |Pieces(s, p)| && IsBack(Front(s, p, n), c)
    requires Stop(Rest(s, p, n)) && !StartsWith(Rest(s, p, n), S('|'))
    ensures ParsePipe(s, p).Ok? && Leads(s, p, n, q) && Spelled(s, tree) == c
    ensures Backs(s, ParsePipe(s, p).next, ParsePipe(s, p).cmd) == Backs(s, q, tree)
    decreases n, 2
  {
    hide SkipWhite, GetToken, Text, Pieces, ParsePipe, IsPipe;
    var ps := Front(s, p, n);
    if IsPipe(ps, c) {
      tree, q := PipeComplete(s, p, n, c);
    } else {
      SplitAt(s, p, n, n - 1);
      var d, r := BackComplete(s, p, n - 1, c.cmd);
      HeadSymbol(s, r, '&');
      q := GetToken(s, SkipWhite(s, r)).next;
      LeadsOne(s, r, S('&'), q);
      LeadsOn(s, p, n - 1, r, 1, q);
      tree := Back(d);
    }
  }

  lemma {:induction false} LineComplete(s: string, p: nat, n: nat, c: Tree) returns (tree: Cmd<Span>, q: nat)
    requires p <= |s| && n <= |Pieces(s, p)| && IsLine(Front(s, p, n), c)
    requires Rest(s, p, n) == [] || Rest(s, p, n)[0] == S(')')
    ensures ParseLine(s, p) == Ok(tree, q) && Leads(s, p, n, q) && Spelled(s, tree) == c
    decreases n, 3
  {
    hide SkipWhite, GetToken, Text, Pieces, ParsePipe, IsBack;
    var ps := Front(s, p, n);
    if IsBack(ps, c) {
      var d, r := BackComplete(s, p, n, c);
      LineEnd(s, r, d);
      tree, q := d, SkipWhite(s, r);
      LeadsSkip(s, r);
      LeadsOn(s, p, n, r, 0, q);
    } else {
      var m: nat :| LineSplit(ps, m, c.left, c.right);
      SplitAt(s, p, n, m);
      var left, r := BackComplete(s, p, m, c.left);
      LineEnd(s, r, left);
      HeadSymbol(s, r, ';');
      var u := GetToken(s, SkipWhite(s, r)).next;
      LeadsOne(s, r, S(';'), u);
      LeadsOn(s, p, m, r, 1, u);
      FrontOn(s, p, m + 1, u, n - m - 1);
      var right;
      right, q := LineComplete(s, u, n - m - 1, c.right);
      LeadsOn(s, p, m + 1, u, n - m - 1, q);
      tree := List(left, right);
    }
  }

  /** The loop over ampersands stops where there is none. */
  lemma LineEnd(s: string, p: nat, c: Cmd<Span>)
    requires p <= |s| && !StartsWith(Pieces(s, p), S('&'))
    ensures Backs(s, p, c) == (c, SkipWhite(s, p))
    ensures Sees(s, SkipWhite(s, p), ';') <==> StartsWith(Pieces(s, p), S(';'))
  {
    hide SkipWhite, Text, Pieces;
    HeadSymbol(s, p, '&');
    HeadSymbol(s, p, ';');
  }

  // ---- The parser accepts exactly the language ----

  /** parsecmd answers c exactly when the pieces of the line are the command c. */
  lemma ParsesExactly(s: string, c: Tree)
    ensures ParseCmd(s).Ok? && Spelled(s, ParseCmd(s).cmd) == c <==> IsLine(Pieces(s), c)
  {
    hide SkipWhite, GetToken, Text, ParseLine, IsLine;
    var all := Pieces(s);
    if ParseCmd(s).Ok? {
      var n := LineSound(s, 0);
      var r := ParseLine(s, 0);
      Head(s, r.next);
      assert Pieces(s, r.next) == [] by { AtTheEnd(s); }
      assert all[..n] == all;
    }
    if IsLine(all, c) {
      assert Front(s, 0, |all|) == all;
      var tree, q := LineComplete(s, 0, |all|, c);
      assert Pieces(s, q) == [];
      Head(s, q);
      NoMore(s, q);
    }
  }

  lemma AtTheEnd(s: string)
    ensures Pieces(s, |s|) == []
  {
  }

  lemma NoMore(s: string, q: nat)
    requires q <= |s| && Pieces(s, q) == []
    ensures SkipWhite(s, q) == |s|
  {
  }

  /** At most one command, and a panic exactly when there is none. */
  lemma RejectsExactly(s: string)
    ensures forall c, d :: IsLine(Pieces(s), c) && IsLine(Pieces(s), d) ==> c == d
    ensures ParseCmd(s) == Panic <==> forall c :: !IsLine(Pieces(s), c)
  {
    hide IsLine, ParseCmd, Spelled, Pieces;
    forall c, d | IsLine(Pieces(s), c) && IsLine(Pieces(s), d) ensures c == d {
      ParsesExactly(s, c);
      ParsesExactly(s, d);
    }
    if ParseCmd(s).Ok? { ParsesExactly(s, Spelled(s, ParseCmd(s).cmd)); }
    forall c | IsLine(Pieces(s), c) ensures ParseCmd(s).Ok? { ParsesExactly(s, c); }
  }

  // ---- What every command has ----

  /** Each redirection has its file. */
  ghost predicate FilesFollow(ps: seq<Piece>) {
    forall i :: 0 <= i < |ps| && IsRedir(ps[i]) ==> i + 1 < |ps| && ps[i + 1].W?
  }

  function Count(ps: seq<Piece>, x: Piece): nat {
    if ps == [] then 0 else Count(ps[..|ps| - 1], x) + if ps[|ps| - 1] == x then 1 else 0
  }

  ghost predicate Balanced(ps: seq<Piece>) {
    Count(ps, S('(')) == Count(ps, S(')'))
  }

  predicate SameMark(p: Piece, q: Piece) {
    p == q || ((p == S('>') || p == Double) && (q == S('>') || q == Double))
  }

  /** The same pieces, but for ">" in place of ">>" or the other way round. */
  ghost predicate SameButMarks(ps: seq<Piece>, qs: seq<Piece>) {
    |ps| == |qs| && forall i :: 0 <= i < |ps| ==> SameMark(ps[i], qs[i])
  }

  ghost predicate Sound(ps: seq<Piece>) {
    FilesFollow(ps) && Balanced(ps)
  }

  lemma {:induction false} CountConcat(a: seq<Piece>, b: seq<Piece>, x: Piece)
    ensures Count(a + b, x) == Count(a, x) + Count(b, x)
  {
    if b == [] {
      assert a + b == a;
    } else {
      assert (a + b)[..|a + b| - 1] == a + b[..|b| - 1];
      CountConcat(a, b[..|b| - 1], x);
    }
  }

  lemma CountOne(p: Piece, x: Piece)
    ensures Count([p], x) == if p == x then 1 else 0
  {
    assert [p][..0] == [];
  }

  lemma JoinSound(a: seq<Piece>, p: Piece, b: seq<Piece>)
    requires Sound(a) && Sound(b) && (p == S('|') || p == S(';') || p == S('&'))
    ensures Sound(a + [p] + b)
  {
    var ps := a + [p] + b;
    forall x: Piece ensures Count(ps, x) == Count(a, x) + Count([p], x) + Count(b, x) {
      CountConcat(a + [p], b, x);
      CountConcat(a, [p], x);
    }
    CountOne(p, S('('));
    CountOne(p, S(')'));
    forall i | 0 <= i < |ps| && IsRedir(ps[i]) ensures i + 1 < |ps| && ps[i + 1].W? {
      if i < |a| { assert ps[i] == a[i]; } else if i > |a| { assert ps[i] == b[i - |a| - 1]; }
    }
  }

  lemma SimpleKeeps(ps: seq<Piece>, argv: seq<string>, ops: seq<Op>, qs: seq<Piece>)
    requires Simple(ps, argv, ops) && SameButMarks(ps, qs)
    ensures Simple(qs, argv, ops) && FilesFollow(ps) && Count(ps, S('(')) == 0 == Count(ps, S(')'))
  {
    hide Simple, FilesFollow, Count, SameButMarks;
    SimpleMarks(ps, argv, ops, qs);
    SimplePieces(ps, argv, ops);
    NoParens(ps);
  }

  lemma {:induction false} SimpleMarks(ps: seq<Piece>, argv: seq<string>, ops: seq<Op>, qs: seq<Piece>)
    requires Simple(ps, argv, ops) && SameButMarks(ps, qs)
    ensures Simple(qs, argv, ops)
    decreases ps
  {
    hide Simple;
    SimpleHead(ps, argv, ops);
    if ps == [] {
      assert qs == ps;
    } else if ps[0].W? {
      SimpleMarks(ps[1..], argv[1..], ops, qs[1..]);
      ConsWord(ps[0].w, qs[1..], argv[1..], ops);
      assert qs == [W(ps[0].w)] + qs[1..];
    } else {
      SimpleMarks(ps[2..], argv, ops[1..], qs[2..]);
      ConsRedir(qs[0], ps[1].w, qs[2..], argv, ops[1..]);
      assert SameMark(ps[1], qs[1]) && qs == [qs[0], W(ps[1].w)] + qs[2..];
    }
  }

  lemma {:induction false} SimplePieces(ps: seq<Piece>, argv: seq<string>, ops: seq<Op>)
    requires Simple(ps, argv, ops)
    ensures FilesFollow(ps) && forall i :: 0 <= i < |ps| ==> ps[i].W? || IsRedir(ps[i])
    decreases ps
  {
    hide Simple;
    SimpleHead(ps, argv, ops);
    if ps != [] {
      var n := if ps[0].W? then 1 else 2;
      if ps[0].W? { SimplePieces(ps[1..], argv[1..], ops); } else { SimplePieces(ps[2..], argv, ops[1..]); }
      forall i | n <= i < |ps|
        ensures (ps[i].W? || IsRedir(ps[i])) && (IsRedir(ps[i]) ==> i + 1 < |ps| && ps[i + 1].W?)
      {
        assert ps[i] == ps[n..][i - n] && (i + 1 < |ps| ==> ps[i + 1] == ps[n..][i + 1 - n]);
      }
    }
  }

  lemma {:induction false} NoParens(ps: seq<Piece>)
    requires forall i :: 0 <= i < |ps| ==> ps[i] != S('(') && ps[i] != S(')')
    ensures Count(ps, S('(')) == 0 && Count(ps, S(')')) == 0
  {
    if ps != [] { NoParens(ps[..|ps| - 1]); }
  }

  lemma {:induction false} ExecKeeps(ps: seq<Piece>, c: Tree, qs: seq<Piece>)
    requires IsExec(ps, c) && SameButMarks(ps, qs)
    ensures IsExec(qs, c) && Sound(ps)
    decreases |ps|, 0
  {
    hide Simple, IsLine, Around, FilesFollow, Count;
    if argv, ops :| Simple(ps, argv, ops) && |argv| < MAXARGS && c == Around(Exec(argv), ops) {
      SimpleKeeps(ps, argv, ops, qs);
      IsSimple(qs, argv, ops);
    } else {
      var m: nat, b, ops := TheBlock(ps, c);
      LineKeeps(ps[1..m], b, qs[1..m]);
      SimpleKeeps(ps[m + 1..], [], ops, qs[m + 1..]);
      assert IsBlock(qs, m, b, ops);
      BlockSoundness(ps, m);
    }
  }

  lemma BlockSoundness(ps: seq<Piece>, m: nat)
    requires 0 < m < |ps| && ps[0] == S('(') && ps[m] == S(')') && Sound(ps[1..m])
    requires FilesFollow(ps[m + 1..]) && Count(ps[m + 1..], S('(')) == 0 == Count(ps[m + 1..], S(')'))
    ensures Sound(ps)
  {
    var line, redirs := ps[1..m], ps[m + 1..];
    assert ps == [S('(')] + line + [S(')')] + redirs;
    forall x: Piece
      ensures Count(ps, x) == Count([S('(')], x) + Count(line, x) + Count([S(')')], x) + Count(redirs, x)
    {
      CountConcat([S('(')] + line + [S(')')], redirs, x);
      CountConcat([S('(')] + line, [S(')')], x);
      CountConcat([S('(')], line, x);
    }
    CountOne(S('('), S('('));
    CountOne(S('('), S(')'));
    CountOne(S(')'), S('('));
    CountOne(S(')'), S(')'));
    forall i | 0 <= i < |ps| && IsRedir(ps[i]) ensures i + 1 < |ps| && ps[i + 1].W? {
      if i < m { assert ps[i] == line[i - 1]; } else { assert ps[i] == redirs[i - m - 1]; }
    }
  }

  lemma {:induction false} PipeKeeps(ps: seq<Piece>, c: Tree, qs: seq<Piece>)
    requires IsPipe(ps, c) && SameButMarks(ps, qs)
    ensures IsPipe(qs, c) && Sound(ps)
    decreases |ps|, 1
  {
    hide IsExec, Sound;
    if IsExec(ps, c) {
      ExecKeeps(ps, c, qs);
    } else {
      var m: nat :| PipeSplit(ps, m, c.left, c.right);
      ExecKeeps(ps[..m], c.left, qs[..m]);
      PipeKeeps(ps[m + 1..], c.right, qs[m + 1..]);
      assert ps == ps[..m] + [S('|')] + ps[m + 1..] && qs[m] == S('|');
      JoinSound(ps[..m], S('|'), ps[m + 1..]);
      assert PipeSplit(qs, m, c.left, c.right);
    }
  }

  lemma {:induction false} BackKeeps(ps: seq<Piece>, c: Tree, qs: seq<Piece>)
    requires IsBack(ps, c) && SameButMarks(ps, qs)
    ensures IsBack(qs, c) && Sound(ps)
    decreases |ps|, 2
  {
    hide IsPipe, Sound;
    if IsPipe(ps, c) {
      PipeKeeps(ps, c, qs);
    } else {
      var m := |ps| - 1;
      BackKeeps(ps[..m], c.cmd, qs[..m]);
      assert ps == ps[..m] + [S('&')] + [] && qs[m] == S('&');
      EmptySound();
      JoinSound(ps[..m], S('&'), []);
    }
  }

  lemma EmptySound()
    ensures Sound([])
  {
  }

  lemma {:induction false} LineKeeps(ps: seq<Piece>, c: Tree, qs: seq<Piece>)
    requires IsLine(ps, c) && SameButMarks(ps, qs)
    ensures IsLine(qs, c) && Sound(ps)
    decreases |ps|, 3
  {
    hide IsBack, Sound;
    if IsBack(ps, c) {
      BackKeeps(ps, c, qs);
    } else {
      var m: nat :| LineSplit(ps, m, c.left, c.right);
      BackKeeps(ps[..m], c.left, qs[..m]);
      LineKeeps(ps[m + 1..], c.right, qs[m + 1..]);
      assert ps == ps[..m] + [S(';')] + ps[m + 1..] && qs[m] == S(';');
      JoinSound(ps[..m], S(';'), ps[m + 1..]);
      assert LineSplit(qs, m, c.left, c.right);
    }
  }

  /** A redirection without a file, or parentheses that do not balance, make the parser panic. */
  lemma BadLinesPanic(s: string)
    requires !FilesFollow(Pieces(s)) || !Balanced(Pieces(s))
    ensures ParseCmd(s) == Panic
  {
    hide IsLine, ParseCmd, Pieces, FilesFollow, Count;
    RejectsExactly(s);
    forall c ensures !IsLine(Pieces(s), c) {
      if IsLine(Pieces(s), c) { LineKeeps(Pieces(s), c, Pieces(s)); }
    }
  }

  /** Any line with the pieces of a command's canonical text, each output redirection spelled ">" or ">>"
      and white space anywhere between them, parses as that command. */
  lemma RoundTripAnySpelling(c: Tree, s: string)
    requires Writable(c) && SameButMarks(Pieces(LineText(c)), Pieces(s))
    ensures ParseCmd(s).Ok? && Spelled(s, ParseCmd(s).cmd) == c
  {
    hide IsLine, ParseCmd, Pieces, LineText, Spelled, Writable;
    RoundTrip(c);
    ParsesExactly(LineText(c), c);
    LineKeeps(Pieces(LineText(c)), c, Pieces(s));
    ParsesExactly(s, c);
  }
}
