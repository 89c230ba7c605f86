/** The regular expression matcher of grep.c against what a pattern means: a sequence of items,
    each a character or a starred character, with '.' for any, a leading '^' and a trailing '$'. */
module Grep {

  datatype Item = One(c: char) | Star(c: char)

  predicate Fits(c: char, x: char) {
    c == '.' || c == x
  }

  ghost predicate AllFit(c: char, w: string) {
    forall i :: 0 <= i < |w| ==> Fits(c, w[i])
  }

  // ---- Meaning ----

  /** The items of a pattern; a '$' that is all that is left is the anchor, not an item. */
  ghost function Items(re: string): seq<Item> {
    if re == "" || re == "$" then []
    else if |re| >= 2 && re[1] == '*' then [Star(re[0])] + Items(re[2..])
    else [One(re[0])] + Items(re[1..])
  }

  ghost predicate Anchored(re: string) {
    re != "" && (re == "$" || Anchored(if |re| >= 2 && re[1] == '*' then re[2..] else re[1..]))
  }

  ghost predicate Piece(it: Item, w: string) {
    match it
    case One(c) => |w| == 1 && Fits(c, w[0])
    case Star(c) => AllFit(c, w)
  }

  ghost function Join(ws: seq<string>): string {
    if ws == [] then "" else ws[0] + Join(ws[1..])
  }

  ghost predicate Pieces(its: seq<Item>, ws: seq<string>) {
    |ws| == |its| && forall i :: 0 <= i < |its| ==> Piece(its[i], ws[i])
  }

  /** w is made of one piece for each item, in order. */
  ghost predicate Spells(its: seq<Item>, w: string) {
    exists ws :: Pieces(its, ws) && Join(ws) == w
  }

  /** The pattern matches the k characters at the start of text. */
  ghost predicate HereAt(re: string, text: string, k: nat) {
    k <= |text| && Spells(Items(re), text[..k]) && (Anchored(re) ==> k == |text|)
  }

  ghost predicate Here(re: string, text: string) {
    exists k: nat :: HereAt(re, text, k)
  }

  /** The pattern without its leading '^'. */
  ghost function Body(re: string): string {
    if re != "" && re[0] == '^' then re[1..] else re
  }

  /** text[i..k] is a substring that the pattern allows. */
  ghost predicate MatchAt(re: string, text: string, i: nat, k: nat) {
    && i <= k <= |text| && Spells(Items(Body(re)), text[i..k])
    && (re != "" && re[0] == '^' ==> i == 0) && (Anchored(Body(re)) ==> k == |text|)
  }

  ghost predicate Matches(re: string, text: string) {
    exists i: nat, k: nat :: MatchAt(re, text, i, k)
  }

  // ---- Laws ----

  lemma SpellsNone(w: string)
    ensures Spells([], w) <==> w == ""
  {
    if w == "" { assert Pieces([], []) && Join([]) == w; }
  }

  lemma SpellsOne(c: char, its: seq<Item>, w: string)
    ensures Spells([One(c)] + its, w) <==> w != "" && Fits(c, w[0]) && Spells(its, w[1..])
  {
    if Spells([One(c)] + its, w) {
      var ws :| Pieces([One(c)] + its, ws) && Join(ws) == w;
      FirstPiece(One(c), its, ws);
      assert w[1..] == Join(ws[1..]);
    }
    if w != "" && Fits(c, w[0]) && Spells(its, w[1..]) {
      var ws :| Pieces(its, ws) && Join(ws) == w[1..];
      AddPiece(One(c), its, [w[0]], ws);
      assert [w[0]] + w[1..] == w;
    }
  }

  lemma SpellsStar(c: char, its: seq<Item>, w: string)
    ensures Spells([Star(c)] + its, w) <==> exists j: nat :: j <= |w| && AllFit(c, w[..j]) && Spells(its, w[j..])
  {
    if Spells([Star(c)] + its, w) {
      var ws :| Pieces([Star(c)] + its, ws) && Join(ws) == w;
      FirstPiece(Star(c), its, ws);
      var j := |ws[0]|;
      assert w[..j] == ws[0] && w[j..] == Join(ws[1..]);
    }
    if j: nat :| j <= |w| && AllFit(c, w[..j]) && Spells(its, w[j..]) {
      var ws :| Pieces(its, ws) && Join(ws) == w[j..];
      AddPiece(Star(c), its, w[..j], ws);
      assert w[..j] + w[j..] == w;
    }
  }

  lemma FirstPiece(it: Item, its: seq<Item>, ws: seq<string>)
    requires Pieces([it] + its, ws)
    ensures ws != [] && Piece(it, ws[0]) && Pieces(its, ws[1..]) && Join(ws) == ws[0] + Join(ws[1..])
  {
    var all := [it] + its;
    assert Piece(all[0], ws[0]);
    forall i | 0 <= i < |its| ensures Piece(its[i], ws[1..][i]) { assert Piece(all[i + 1], ws[i + 1]); }
  }

  lemma AddPiece(it: Item, its: seq<Item>, w: string, ws: seq<string>)
    requires Pieces(its, ws) && Piece(it, w)
    ensures Pieces([it] + its, [w] + ws) && Join([w] + ws) == w + Join(ws)
  {
    assert ([w] + ws)[1..] == ws;
  }

  lemma HereEmpty(text: string)
    ensures Here("", text)
  {
    SpellsNone(text[..0]);
    assert HereAt("", text, 0);
  }

  lemma HereEnd(text: string)
    ensures Here("$", text) <==> text == ""
  {
    forall k: nat | k <= |text| ensures Spells([], text[..k]) <==> k == 0 { SpellsNone(text[..k]); }
    if text == "" { assert HereAt("$", text, 0); }
  }

  lemma HereOne(re: string, text: string)
    requires re != "" && re != "$" && !(|re| >= 2 && re[1] == '*')
    ensures Here(re, text) <==> text != "" && Fits(re[0], text[0]) && Here(re[1..], text[1..])
  {
    hide Spells;
    forall k: nat | k <= |text|
      ensures HereAt(re, text, k) <==> k > 0 && Fits(re[0], text[0]) && HereAt(re[1..], text[1..], k - 1)
    {
      SpellsOne(re[0], Items(re[1..]), text[..k]);
      if k > 0 { assert text[..k][1..] == text[1..][..k - 1]; }
    }
    if text != "" && Fits(re[0], text[0]) && Here(re[1..], text[1..]) {
      var k: nat :| HereAt(re[1..], text[1..], k);
      assert HereAt(re, text, k + 1);
    }
  }

  lemma HereStar(re: string, text: string)
    requires |re| >= 2 && re[1] == '*'
    ensures Here(re, text) <==> StarHere(re[0], re[2..], text)
  {
    hide Spells, AllFit;
    if Here(re, text) {
      var k: nat :| HereAt(re, text, k);
      SpellsStar(re[0], Items(re[2..]), text[..k]);
      var j: nat :| j <= k && AllFit(re[0], text[..k][..j]) && Spells(Items(re[2..]), text[..k][j..]);
      assert text[..k][..j] == text[..j] && text[..k][j..] == text[j..][..k - j];
      assert HereAt(re[2..], text[j..], k - j);
    }
    if StarHere(re[0], re[2..], text) {
      var j: nat :| j <= |text| && AllFit(re[0], text[..j]) && Here(re[2..], text[j..]);
      var m: nat :| HereAt(re[2..], text[j..], m);
      var k := j + m;
      assert text[..k][..j] == text[..j] && text[..k][j..] == text[j..][..m];
      SpellsStar(re[0], Items(re[2..]), text[..k]);
      assert HereAt(re, text, k);
    }
  }

  /** Some characters that fit c, then re. */
  ghost predicate StarHere(c: char, re: string, text: string) {
    exists j: nat :: j <= |text| && AllFit(c, text[..j]) && Here(re, text[j..])
  }

  // ---- The code ----

  method MatchHere(re: string, text: string) returns (r: bool)
    ensures r == Here(re, text)
    decreases |re|, 0
  {
    if re == "" {
      HereEmpty(text);
      return true;
    }
    if |re| >= 2 && re[1] == '*' {
      HereStar(re, text);
      r := MatchStar(re[0], re[2..], text);
      return;
    }
    if re == "$" {
      HereEnd(text);
      return text == "";
    }
    HereOne(re, text);
    if text != "" && (re[0] == '.' || re[0] == text[0]) {
      r := MatchHere(re[1..], text[1..]);
      return;
    }
    return false;
  }

  method MatchStar(c: char, re: string, text: string) returns (r: bool)
    ensures r == StarHere(c, re, text)
    decreases |re|, 1
  {
    hide Here;
    var t := 0;
    while true
      invariant t <= |text| && AllFit(c, text[..t])
      invariant forall j: nat :: j < t ==> !Here(re, text[j..])
      decreases |text| - t
    {
      var here := MatchHere(re, text[t..]);
      if here {
        return true;
      }
      if !(t < |text| && (text[t] == c || c == '.')) {
        break;
      }
      t := t + 1;
    }
    forall j: nat | j <= |text| && AllFit(c, text[..j]) ensures j <= t {
      assert j > t ==> Fits(c, text[..j][t]);
    }
    return false;
  }

  /** match: true exactly when some substring of the text is one the pattern allows. */
  method Match(re: string, text: string) returns (r: bool)
    ensures r == Matches(re, text)
  {
    hide Here, Matches;
    if re != "" && re[0] == '^' {
      MatchesFront(re, text);
      r := MatchHere(re[1..], text);
      return;
    }
    MatchesAnywhere(re, text);
    var t := 0;
    while true
      invariant t <= |text| && forall j: nat :: j < t ==> !Here(re, text[j..])
      decreases |text| - t
    {
      var here := MatchHere(re, text[t..]);
      if here {
        return true;
      }
      if t == |text| {
        break;
      }
      t := t + 1;
    }
    return false;
  }

  lemma MatchesFront(re: string, text: string)
    requires re != "" && re[0] == '^'
    ensures Matches(re, text) <==> Here(re[1..], text)
  {
    hide Spells;
    if i: nat, k: nat :| MatchAt(re, text, i, k) { assert text[0..k] == text[..k] && HereAt(re[1..], text, k); }
    if k: nat :| HereAt(re[1..], text, k) { assert text[0..k] == text[..k] && MatchAt(re, text, 0, k); }
  }

  lemma MatchesAnywhere(re: string, text: string)
    requires re == "" || re[0] != '^'
    ensures Matches(re, text) <==> exists j: nat :: j <= |text| && Here(re, text[j..])
  {
    hide Spells;
    if i: nat, k: nat :| MatchAt(re, text, i, k) {
      assert text[i..][..k - i] == text[i..k];
      assert HereAt(re, text[i..], k - i);
    }
    if j: nat :| j <= |text| && Here(re, text[j..]) {
      var m: nat :| HereAt(re, text[j..], m);
      assert text[j..][..m] == text[j..j + m];
      assert MatchAt(re, text, j, j + m);
    }
  }
}
