/**
 The grammar of the shell's command lines, as a relation between stretches of the input
 and trees, and the proof that the parser decides it: it accepts exactly the lines the
 grammar has, with exactly the tree the grammar gives them.

   line   ::= back | back ; line
   back   ::= pipe | back &
   pipe   ::= exec | exec | pipe
   exec   ::= words and redirections | ( line ) redirections

 A redirection is < > or >> and a word, and an append is read as a write; white space may
 stand anywhere between words and symbols.
 */
module ShellGrammar {
  import opened Shell

  const WHITESPACE := " \t\r\n\U{000B}"
  const SYMBOLS := "<|>&;()"

  lemma Characters(c: char)
    ensures White(c) <==> c in WHITESPACE
    ensures Letter(c) <==> c !in WHITESPACE && c !in SYMBOLS && c != '\0'
  {
  }

  predicate Blank(s: string, p: nat, e: nat) { p <= e <= |s| && forall i :: p <= i < e ==> White(s[i]) }

  // --- words and redirections ---------------------------------------------------------------

  datatype Part = Arg(w: Span) | File(at: nat, w: Span, mode: Mode)

  // The part comes next from p on.
  predicate PartAt(s: string, p: nat, x: Part)
  {
    && IsToken(s, x.w)
    && match x
       case Arg(w) => Blank(s, p, w.q)
       case File(at, w, mode) =>
         && Blank(s, p, at) && at < |s|
         && if s[at] == '<' then mode == Read && Blank(s, at + 1, w.q)
            else s[at] == '>' && mode == Write && Blank(s, if At(s, at + 1) == '>' then at + 2 else at + 1, w.q)
  }

  predicate Parts(s: string, p: nat, e: nat, xs: seq<Part>)
    decreases |xs|
  {
    if xs == [] then Blank(s, p, e)
    else PartAt(s, p, xs[0]) && xs[0].w.eq <= e && Parts(s, xs[0].w.eq, e, xs[1..])
  }

  function Args(xs: seq<Part>): (ws: seq<Span>)
  {
    if xs == [] then [] else (if xs[0].Arg? then [xs[0].w] else []) + Args(xs[1..])
  }

  function Redirections(xs: seq<Part>): (fs: seq<(Span, Mode)>)
  {
    if xs == [] then [] else (if xs[0].File? then [(xs[0].w, xs[0].mode)] else []) + Redirections(xs[1..])
  }

  // --- commands --------------------------------------------------------------------------------

  ghost predicate SimpleIs(s: string, p: nat, e: nat, c: Cmd<Span>, xs: seq<Part>)
  {
    Parts(s, p, e, xs) && |Args(xs)| < MAXARGS && c == Wrap(Exec(Args(xs)), Redirections(xs))
  }

  ghost predicate BlockIs(s: string, p: nat, e: nat, c: Cmd<Span>, a: nat, b: nat, d: Cmd<Span>, xs: seq<Part>)
    decreases e - p, 0, 0
  {
    && p <= a < b < e <= |s| && Blank(s, p, a) && s[a] == '(' && s[b] == ')' && IsLine(s, a + 1, b, d)
    && Parts(s, b + 1, e, xs) && Args(xs) == [] && c == Wrap(d, Redirections(xs))
  }

  ghost predicate IsExec(s: string, p: nat, e: nat, c: Cmd<Span>)
    decreases e - p, 0, 1
  {
    (exists xs :: SimpleIs(s, p, e, c, xs)) || (exists a: nat, b: nat, d, xs :: BlockIs(s, p, e, c, a, b, d, xs))
  }

  ghost predicate BarAt(s: string, p: nat, e: nat, c: Cmd<Span>, m: nat)
    requires c.Pipe?
    decreases e - p, 1, 0
  {
    p <= m < e <= |s| && s[m] == '|' && IsExec(s, p, m, c.left) && IsPipe(s, m + 1, e, c.right)
  }

  ghost predicate IsPipe(s: string, p: nat, e: nat, c: Cmd<Span>)
    decreases e - p, 1, 1
  {
    IsExec(s, p, e, c) || (c.Pipe? && exists m: nat :: BarAt(s, p, e, c, m))
  }

  ghost predicate AmpersandIs(s: string, p: nat, e: nat, c: Cmd<Span>, m: nat)
    requires c.Back?
    decreases e - p, 2, 0
  {
    p <= m < e <= |s| && s[m] == '&' && IsBack(s, p, m, c.cmd) && Blank(s, m + 1, e)
  }

  ghost predicate IsBack(s: string, p: nat, e: nat, c: Cmd<Span>)
    decreases e - p, 2, 1
  {
    IsPipe(s, p, e, c) || (c.Back? && exists m: nat :: AmpersandIs(s, p, e, c, m))
  }

  ghost predicate SemicolonAt(s: string, p: nat, e: nat, c: Cmd<Span>, m: nat)
    requires c.List?
    decreases e - p, 3, 0
  {
    p <= m < e <= |s| && s[m] == ';' && IsBack(s, p, m, c.left) && IsLine(s, m + 1, e, c.right)
  }

  ghost predicate IsLine(s: string, p: nat, e: nat, c: Cmd<Span>)
    decreases e - p, 3, 1
  {
    IsBack(s, p, e, c) || (c.List? && exists m: nat :: SemicolonAt(s, p, e, c, m))
  }

  // --- white space --------------------------------------------------------------------------

  lemma {:induction false} SkipBlank(s: string, p: nat, e: nat)
    requires Blank(s, p, e)
    ensures SkipWhite(s, p) == SkipWhite(s, e)
    decreases e - p
  {
    if p < e {
      SkipBlank(s, p + 1, e);
    }
  }

  lemma {:induction false} SkippedIsBlank(s: string, p: nat)
    requires p <= |s|
    ensures Blank(s, p, SkipWhite(s, p))
    decreases |s| - p
  {
    if p < |s| && White(s[p]) {
      SkippedIsBlank(s, p + 1);
    }
  }

  // --- the parser accepts only what the grammar has ---------------------------------------------

  lemma {:induction false} PartsConcat(s: string, p: nat, m: nat, e: nat, xs: seq<Part>, ys: seq<Part>)
    requires Parts(s, p, m, xs) && Parts(s, m, e, ys)
    ensures Parts(s, p, e, xs + ys)
    decreases |xs|
  {
    hide PartAt;
    if xs == [] {
      assert xs + ys == ys;
      EarlierStart(s, p, m, e, ys);
    } else {
      assert (xs + ys)[1..] == xs[1..] + ys;
      PartsConcat(s, xs[0].w.eq, m, e, xs[1..], ys);
      PartsEnd(s, xs[0].w.eq, e, xs[1..] + ys);
    }
  }

  lemma KindsConcat(xs: seq<Part>, ys: seq<Part>)
    ensures Args(xs + ys) == Args(xs) + Args(ys) && Redirections(xs + ys) == Redirections(xs) + Redirections(ys)
  {
    hide *;
    ArgsConcat(xs, ys);
    RedirectionsConcat(xs, ys);
  }

  lemma {:induction false} ArgsConcat(xs: seq<Part>, ys: seq<Part>)
    ensures Args(xs + ys) == Args(xs) + Args(ys)
  {
    if xs == [] {
      assert xs + ys == ys;
    } else {
      var first := if xs[0].Arg? then [xs[0].w] else [];
      assert (xs + ys)[1..] == xs[1..] + ys;
      ArgsConcat(xs[1..], ys);
      assert first + (Args(xs[1..]) + Args(ys)) == (first + Args(xs[1..])) + Args(ys);
    }
  }

  lemma {:induction false} RedirectionsConcat(xs: seq<Part>, ys: seq<Part>)
    ensures Redirections(xs + ys) == Redirections(xs) + Redirections(ys)
  {
    if xs == [] {
      assert xs + ys == ys;
    } else {
      var first := if xs[0].File? then [(xs[0].w, xs[0].mode)] else [];
      assert (xs + ys)[1..] == xs[1..] + ys;
      RedirectionsConcat(xs[1..], ys);
      assert first + (Redirections(xs[1..]) + Redirections(ys)) == (first + Redirections(xs[1..])) + Redirections(ys);
    }
  }

  // One more part in front.
  lemma PartsCons(s: string, p: nat, e: nat, x: Part, xs: seq<Part>)
    requires PartAt(s, p, x) && Parts(s, x.w.eq, e, xs)
    ensures Parts(s, p, e, [x] + xs) && Args([x] + xs) == (if x.Arg? then [x.w] else []) + Args(xs)
    ensures Redirections([x] + xs) == (if x.File? then [(x.w, x.mode)] else []) + Redirections(xs)
  {
    hide PartAt;
    PartsEnd(s, x.w.eq, e, xs);
    assert ([x] + xs)[1..] == xs;
  }

  lemma EarlierStart(s: string, p: nat, m: nat, e: nat, ys: seq<Part>)
    requires Blank(s, p, m) && Parts(s, m, e, ys)
    ensures Parts(s, p, e, ys)
  {
    if ys != [] {
      assert PartAt(s, p, ys[0]);
    }
  }

  lemma {:induction false} PartsEnd(s: string, p: nat, e: nat, xs: seq<Part>)
    requires Parts(s, p, e, xs)
    ensures p <= e <= |s|
    decreases |xs|
  {
    if xs != [] {
      PartsEnd(s, xs[0].w.eq, e, xs[1..]);
    }
  }

  // The operator at a, and where what follows it starts.
  lemma OperatorAt(s: string, a: nat)
    requires NoNul(s) && a <= |s| && SkipWhite(s, a) == a && (At(s, a) == '<' || At(s, a) == '>')
    ensures a < |s| && s[a] == At(s, a)
    ensures var tok := GetToken(s, a);
            && tok.eq == (if s[a] == '>' && At(s, a + 1) == '>' then a + 2 else a + 1) <= |s|
            && tok.next == SkipWhite(s, tok.eq) && Opens(tok.kind) == (if s[a] == '<' then Read else Write)
  {
  }

  // The word from p on.
  lemma WordFrom(s: string, p: nat)
    requires NoNul(s) && p <= |s| && GetToken(s, p).kind == 'a'
    ensures var w := GetToken(s, p);
            w.q == SkipWhite(s, p) && w.eq <= |s| && w.next == SkipWhite(s, w.eq) && IsToken(s, Span(w.q, w.eq))
  {
    WordToken(s, p);
    hide IsToken;
  }

  // The redirection at p, as parseredirs reads it.
  lemma FilePart(s: string, p: nat) returns (x: Part)
    requires NoNul(s) && p <= |s| && (At(s, SkipWhite(s, p)) == '<' || At(s, SkipWhite(s, p)) == '>')
    requires GetToken(s, GetToken(s, SkipWhite(s, p)).next).kind == 'a'
    ensures var tok := GetToken(s, SkipWhite(s, p)); var w := GetToken(s, tok.next);
            && x.File? && PartAt(s, p, x) && x.w == Span(w.q, w.eq) && x.mode == Opens(tok.kind)
            && Blank(s, w.eq, w.next)
  {
    hide GetToken, IsToken, SkipWhite;
    var a := SkipWhite(s, p);
    var tok := GetToken(s, a);
    var w := GetToken(s, tok.next);
    SkipTwice(s, p);
    OperatorAt(s, a);
    WordFrom(s, tok.next);
    SkippedIsBlank(s, p);
    SkippedIsBlank(s, tok.eq);
    SkipTwice(s, tok.eq);
    SkippedIsBlank(s, w.eq);
    x := File(a, Span(w.q, w.eq), Opens(tok.kind));
  }

  lemma {:induction false} RedirsSound(s: string, p: nat) returns (xs: seq<Part>)
    requires NoNul(s) && p <= |s| && Redirs(s, p).Ok?
    ensures Parts(s, p, Redirs(s, p).next, xs) && Args(xs) == [] && Redirections(xs) == Redirs(s, p).value
    ensures SkipWhite(s, Redirs(s, p).next) == Redirs(s, p).next
    decreases |s| - p
  {
    hide GetToken, PartAt;
    var a := SkipWhite(s, p);
    if At(s, a) == '<' || At(s, a) == '>' {
      var x := FilePart(s, p);
      var w := GetToken(s, GetToken(s, a).next);
      var more := RedirsSound(s, w.next);
      EarlierStart(s, w.eq, w.next, Redirs(s, p).next, more);
      xs := [x] + more;
      PartsCons(s, p, Redirs(s, p).next, x, more);
    } else {
      SkippedIsBlank(s, p);
      SkipTwice(s, p);
      xs := [];
    }
  }

  // The word at p, as parseexec reads it.
  lemma ArgPart(s: string, p: nat) returns (x: Part)
    requires NoNul(s) && p <= |s| && GetToken(s, SkipWhite(s, p)).kind == 'a'
    ensures var tok := GetToken(s, SkipWhite(s, p));
            x.Arg? && PartAt(s, p, x) && x.w == Span(tok.q, tok.eq) && Blank(s, tok.eq, tok.next)
  {
    var a := SkipWhite(s, p);
    SkippedIsBlank(s, p);
    SkipTwice(s, p);
    WordToken(s, a);
    SkippedIsBlank(s, GetToken(s, a).eq);
    x := Arg(Span(GetToken(s, a).q, GetToken(s, a).eq));
  }

  lemma {:induction false} WordsSound(s: string, p: nat, n: nat) returns (xs: seq<Part>)
    requires NoNul(s) && p <= |s| && Words(s, p, n).Ok?
    ensures Parts(s, p, Words(s, p, n).next, xs) && Args(xs) == Words(s, p, n).value.0
    ensures Redirections(xs) == Words(s, p, n).value.1 && SkipWhite(s, Words(s, p, n).next) == Words(s, p, n).next
    ensures n < MAXARGS ==> n + |Args(xs)| < MAXARGS
    decreases |s| - p
  {
    hide GetToken, PartAt, Parts, Args, Redirections, Blank, SkipWhite, Redirs;
    var a := SkipWhite(s, p);
    var tok, f := GetToken(s, a), Words(s, p, n).next;
    if Words(s, p, n).value.0 != [] {
      var x := ArgPart(s, p);
      var fs := RedirsSound(s, tok.next);
      var rs := Redirs(s, tok.next);
      var more := WordsSound(s, rs.next, n + 1);
      PartsConcat(s, tok.next, rs.next, f, fs, more);
      KindsConcat(fs, more);
      assert [] + Args(more) == Args(more);
      EarlierStart(s, tok.eq, tok.next, f, fs + more);
      xs := [x] + (fs + more);
      PartsCons(s, p, f, x, fs + more);
      assert [] + Redirections(fs + more) == Redirections(fs + more);
    } else {
      WordsStop(s, p, n);
      SkippedIsBlank(s, p);
      SkipTwice(s, p);
      xs := [];
      NoParts(s, p, a);
    }
  }

  lemma NoParts(s: string, p: nat, e: nat)
    requires Blank(s, p, e)
    ensures Parts(s, p, e, []) && Args([]) == [] && Redirections([]) == []
  {
  }

  lemma WordsStop(s: string, p: nat, n: nat)
    requires NoNul(s) && p <= |s| && Words(s, p, n).Ok? && Words(s, p, n).value.0 == []
    ensures Words(s, p, n) == Ok(([], []), SkipWhite(s, p))
  {
    SkipTwice(s, p);
    hide Redirs;
  }

  lemma {:induction false} ExecSound(s: string, p: nat)
    requires NoNul(s) && p <= |s| && ExecAt(s, p).Ok?
    ensures IsExec(s, p, ExecAt(s, p).next, ExecAt(s, p).value)
    ensures SkipWhite(s, ExecAt(s, p).next) == ExecAt(s, p).next
    decreases |s| - p, 0, 1
  {
    hide *;
    if At(s, SkipWhite(s, p)) == '(' {
      BlockSound(s, p);
    } else {
      SimpleSound(s, p);
    }
  }

  lemma SimpleSound(s: string, p: nat)
    requires NoNul(s) && p <= |s| && ExecAt(s, p).Ok? && At(s, SkipWhite(s, p)) != '('
    ensures IsExec(s, p, ExecAt(s, p).next, ExecAt(s, p).value)
    ensures SkipWhite(s, ExecAt(s, p).next) == ExecAt(s, p).next
  {
    hide Redirs, Words, Wrap, SkipWhite, GetToken, Parts;
    var a, e := SkipWhite(s, p), ExecAt(s, p).next;
    var fs := RedirsSound(s, a);
    var rs := Redirs(s, a);
    var ws := WordsSound(s, rs.next, 0);
    PartsConcat(s, a, rs.next, e, fs, ws);
    KindsConcat(fs, ws);
    SkippedIsBlank(s, p);
    EarlierStart(s, p, a, e, fs + ws);
    assert [] + Args(ws) == Args(ws);
    assert SimpleIs(s, p, e, ExecAt(s, p).value, fs + ws);
  }

  // What parseblock has read.
  lemma BlockParts(s: string, p: nat) returns (a: nat, c: Cmd<Span>, f: nat, b: nat)
    requires NoNul(s) && p <= |s| && ExecAt(s, p).Ok? && At(s, SkipWhite(s, p)) == '('
    ensures a == SkipWhite(s, p) && a < |s| && s[a] == '(' && Line(s, a + 1) == Ok(c, f) && a < f <= |s|
    ensures b == SkipWhite(s, f) && f <= b < |s| && s[b] == ')' && Redirs(s, b + 1).Ok?
    ensures ExecAt(s, p) == Ok(Wrap(c, Redirs(s, b + 1).value), Redirs(s, b + 1).next)
  {
    hide Redirs, Words, Wrap, SkipWhite, GetToken, Line;
    a := SkipWhite(s, p);
    ParenToken(s, a);
    LineSkip(s, a + 1);
    c, f := Line(s, a + 1).value, Line(s, a + 1).next;
    b := SkipWhite(s, f);
    ParenToken(s, b);
    RedirsSkip(s, b + 1);
  }

  lemma {:induction false} BlockSound(s: string, p: nat)
    requires NoNul(s) && p <= |s| && ExecAt(s, p).Ok? && At(s, SkipWhite(s, p)) == '('
    ensures IsExec(s, p, ExecAt(s, p).next, ExecAt(s, p).value)
    ensures SkipWhite(s, ExecAt(s, p).next) == ExecAt(s, p).next
    decreases |s| - p, 0, 0
  {
    hide *;
    var a, c, f, b := BlockParts(s, p);
    var e := ExecAt(s, p).next;
    SkippedIsBlank(s, p);
    LineSound(s, a + 1);
    var xs := RedirsSound(s, b + 1);
    PartsEnd(s, b + 1, e, xs);
    IsBlock(s, p, e, ExecAt(s, p).value, a, b, c, xs);
  }

  lemma IsBlock(s: string, p: nat, e: nat, c: Cmd<Span>, a: nat, b: nat, d: Cmd<Span>, xs: seq<Part>)
    requires p <= a < b < e <= |s| && Blank(s, p, a) && s[a] == '(' && s[b] == ')' && IsLine(s, a + 1, b, d)
    requires Parts(s, b + 1, e, xs) && Args(xs) == [] && c == Wrap(d, Redirections(xs))
    ensures IsExec(s, p, e, c)
  {
    hide IsLine, Parts, Wrap;
    assert BlockIs(s, p, e, c, a, b, d, xs);
  }

  lemma ParenToken(s: string, a: nat)
    requires NoNul(s) && a <= |s| && (At(s, a) == '(' || At(s, a) == ')')
    ensures a < |s| && s[a] == At(s, a) && GetToken(s, a).next == SkipWhite(s, a + 1) && SkipWhite(s, a) == a
  {
    SymbolAt(s, a);
  }

  lemma {:induction false} PipeSound(s: string, p: nat)
    requires NoNul(s) && p <= |s| && PipeAt(s, p).Ok?
    ensures IsPipe(s, p, PipeAt(s, p).next, PipeAt(s, p).value)
    ensures SkipWhite(s, PipeAt(s, p).next) == PipeAt(s, p).next
    decreases |s| - p, 1, 0
  {
    hide ExecAt, SkipWhite, GetToken, IsExec;
    ExecSound(s, p);
    var m := ExecAt(s, p).next;
    if At(s, m) == '|' {
      OperatorToken(s, m);
      PipeSkip(s, m + 1);
      PipeSound(s, m + 1);
      assert BarAt(s, p, PipeAt(s, p).next, PipeAt(s, p).value, m);
    }
  }

  lemma {:induction false} BacksSound(s: string, p: nat, q: nat, c: Cmd<Span>)
    requires NoNul(s) && p <= q <= |s| && IsBack(s, p, q, c) && SkipWhite(s, q) == q
    ensures var (d, e) := Backs(s, q, c); IsBack(s, p, e, d) && SkipWhite(s, e) == e
    decreases |s| - q
  {
    hide SkipWhite, GetToken, IsPipe;
    if At(s, q) == '&' {
      AmpersandToken(s, q);
      var r := SkipWhite(s, q + 1);
      SkippedIsBlank(s, q + 1);
      SkipTwice(s, q + 1);
      assert AmpersandIs(s, p, r, Back(c), q);
      BacksSound(s, p, r, Back(c));
    }
  }

  lemma AmpersandToken(s: string, q: nat)
    requires NoNul(s) && q <= |s| && At(s, q) == '&'
    ensures q < |s| && s[q] == '&' && GetToken(s, q).next == SkipWhite(s, q + 1)
  {
    SymbolAt(s, q);
  }

  lemma {:induction false} LineSound(s: string, p: nat)
    requires NoNul(s) && p <= |s| && Line(s, p).Ok?
    ensures IsLine(s, p, Line(s, p).next, Line(s, p).value)
    ensures SkipWhite(s, Line(s, p).next) == Line(s, p).next
    decreases |s| - p, 2, 0
  {
    hide PipeAt, SkipWhite, GetToken, IsPipe, Backs;
    PipeSound(s, p);
    var c := PipeAt(s, p);
    BacksSound(s, p, c.next, c.value);
    var (d, m) := Backs(s, c.next, c.value);
    if At(s, m) == ';' {
      SemicolonToken(s, m);
      LineSkip(s, m + 1);
      LineSound(s, m + 1);
      assert SemicolonAt(s, p, Line(s, p).next, Line(s, p).value, m);
    }
  }

  lemma SemicolonToken(s: string, m: nat)
    requires NoNul(s) && m <= |s| && At(s, m) == ';'
    ensures m < |s| && s[m] == ';' && GetToken(s, m).next == SkipWhite(s, m + 1)
  {
    SymbolAt(s, m);
  }

  // --- the parser accepts all of it --------------------------------------------------------------

  // The word at w.q.
  lemma TokenAt(s: string, w: Span)
    requires NoNul(s) && IsToken(s, w)
    ensures GetToken(s, w.q) == Token('a', w.q, w.eq, SkipWhite(s, w.eq)) && SkipWhite(s, w.q) == w.q
    ensures w.q < |s| && Letter(At(s, w.q)) && !Symbol(At(s, w.q))
  {
    WordEnds(s, w.q, w.eq);
  }

  lemma ArgToken(s: string, p: nat, x: Part)
    requires NoNul(s) && x.Arg? && PartAt(s, p, x)
    ensures p <= |s| && SkipWhite(s, p) == x.w.q && Letter(At(s, x.w.q)) && !Symbol(At(s, x.w.q))
    ensures GetToken(s, x.w.q) == Token('a', x.w.q, x.w.eq, SkipWhite(s, x.w.eq))
    ensures PartAt(s, x.w.q, x)
  {
    TokenAt(s, x.w);
    SkipBlank(s, p, x.w.q);
  }

  lemma FileToken(s: string, p: nat, x: Part)
    requires NoNul(s) && x.File? && PartAt(s, p, x)
    ensures p <= |s| && SkipWhite(s, p) == x.at <= |s| && (At(s, x.at) == '<' || At(s, x.at) == '>')
    ensures var tok := GetToken(s, x.at);
            Opens(tok.kind) == x.mode && GetToken(s, tok.next) == Token('a', x.w.q, x.w.eq, SkipWhite(s, x.w.eq))
  {
    TokenAt(s, x.w);
    SkipBlank(s, p, x.at);
    var tok := GetToken(s, x.at);
    SkipBlank(s, tok.eq, x.w.q);
  }

  // parseredirs takes the leading redirections.
  lemma {:induction false} TakeRedirs(s: string, p: nat, e: nat, xs: seq<Part>)
    returns (fs: seq<(Span, Mode)>, rest: seq<Part>, m: nat)
    requires NoNul(s) && Parts(s, p, e, xs) && Stop(s, e)
    ensures p <= |s| && Redirs(s, p) == Ok(fs, m) && m <= |s| && Parts(s, m, e, rest) && SkipWhite(s, m) == m
    ensures Args(rest) == Args(xs) && fs + Redirections(rest) == Redirections(xs)
    ensures |rest| <= |xs| && (rest == [] || rest[0].Arg?)
    decreases |xs|
  {
    hide *;
    PartsAre(s, p, e, xs);
    StopIs(s, e);
    if xs == [] {
      SkipBlank(s, p, e);
      RedirsNone(s, p);
      fs, rest, m := [], [], e;
      NoParts(s, e, e);
    } else if xs[0].Arg? {
      ArgToken(s, p, xs[0]);
      LetterIs(At(s, xs[0].w.q));
      RedirsNone(s, p);
      SkipTwice(s, p);
      fs, rest, m := [], xs, xs[0].w.q;
      var no: seq<(Span, Mode)> := [];
      assert no + Redirections(xs) == Redirections(xs);
      LaterStart(s, p, e, xs);
    } else {
      var x := xs[0];
      FileToken(s, p, x);
      var more;
      more, rest, m := TakeRedirs(s, x.w.eq, e, xs[1..]);
      RedirsSkip(s, x.w.eq);
      var tok := GetToken(s, x.at);
      RedirsStep(s, p, tok, GetToken(s, tok.next), more, m);
      fs := [(x.w, x.mode)] + more;
      assert ([(x.w, x.mode)] + more) + Redirections(rest) == [(x.w, x.mode)] + (more + Redirections(rest));
    }
  }

  lemma PartsAre(s: string, p: nat, e: nat, xs: seq<Part>)
    requires Parts(s, p, e, xs)
    ensures xs == [] ==> Blank(s, p, e) && Args(xs) == [] && Redirections(xs) == []
    ensures xs != [] ==>
      && PartAt(s, p, xs[0]) && Parts(s, xs[0].w.eq, e, xs[1..])
      && Args(xs) == (if xs[0].Arg? then [xs[0].w] + Args(xs[1..]) else Args(xs[1..]))
      && Redirections(xs) == if xs[0].File? then [(xs[0].w, xs[0].mode)] + Redirections(xs[1..]) else Redirections(xs[1..])
  {
    hide PartAt;
    if xs != [] {
      assert [] + Args(xs[1..]) == Args(xs[1..]) && [] + Redirections(xs[1..]) == Redirections(xs[1..]);
    }
  }

  lemma LaterStart(s: string, p: nat, e: nat, xs: seq<Part>)
    requires Parts(s, p, e, xs) && xs != [] && xs[0].Arg?
    ensures Parts(s, xs[0].w.q, e, xs)
  {
    assert PartAt(s, xs[0].w.q, xs[0]);
    hide PartAt;
  }

  lemma {:induction false} WordsComplete(s: string, p: nat, e: nat, xs: seq<Part>, n: nat)
    requires NoNul(s) && Parts(s, p, e, xs) && Stop(s, e) && (xs == [] || xs[0].Arg?) && n + |Args(xs)| < MAXARGS
    ensures p <= |s| && Words(s, p, n) == Ok((Args(xs), Redirections(xs)), e)
    decreases |xs|
  {
    hide GetToken, PartAt, SkipWhite, Redirs, Words;
    StopIs(s, e);
    if xs == [] {
      SkipBlank(s, p, e);
      WordsSkip(s, p, n);
      WordsEnd(s, e, n);
    } else {
      var x := xs[0];
      ArgToken(s, p, x);
      var fs, rest, m := TakeRedirs(s, x.w.eq, e, xs[1..]);
      assert Args(xs) == [x.w] + Args(rest);
      WordsComplete(s, m, e, rest, n + 1);
      RedirsSkip(s, x.w.eq);
      WordsStep(s, p, n, GetToken(s, x.w.q), fs, m, Args(rest), Redirections(rest), e);
      assert [] + Redirections(xs[1..]) == Redirections(xs[1..]);
    }
  }

  lemma FirstChar(s: string, p: nat, e: nat, xs: seq<Part>)
    requires NoNul(s) && Parts(s, p, e, xs) && Stop(s, e)
    ensures p <= |s| && At(s, SkipWhite(s, p)) != '('
  {
    hide GetToken, PartAt, SkipWhite;
    StopIs(s, e);
    if xs == [] {
      SkipBlank(s, p, e);
    } else if xs[0].Arg? {
      ArgToken(s, p, xs[0]);
      LetterIs(At(s, xs[0].w.q));
    } else {
      FileToken(s, p, xs[0]);
    }
  }

  lemma SimpleComplete(s: string, p: nat, e: nat, c: Cmd<Span>, xs: seq<Part>)
    requires NoNul(s) && SimpleIs(s, p, e, c, xs) && Stop(s, e)
    ensures Gives(s, p, 0, c, e)
  {
    hide *;
    SimpleMeans(s, p, e, c, xs);
    FirstChar(s, p, e, xs);
    var fs, rest, m := TakeRedirs(s, p, e, xs);
    WordsComplete(s, m, e, rest, 0);
    RedirsSkip(s, p);
    ExecWords(s, p, fs, m, Args(rest), Redirections(rest), e);
    StopIs(s, e);
    GivesIf(s, p, 0, c, e);
  }

  lemma SimpleMeans(s: string, p: nat, e: nat, c: Cmd<Span>, xs: seq<Part>)
    requires SimpleIs(s, p, e, c, xs)
    ensures Parts(s, p, e, xs) && 0 + |Args(xs)| < MAXARGS && c == Wrap(Exec(Args(xs)), Redirections(xs))
  {
  }

  // Redirections alone, up to e.
  lemma RedirsComplete(s: string, p: nat, e: nat, xs: seq<Part>)
    requires NoNul(s) && Parts(s, p, e, xs) && Stop(s, e) && Args(xs) == []
    ensures p <= |s| && Redirs(s, p) == Ok(Redirections(xs), e)
  {
    var fs, rest, m := TakeRedirs(s, p, e, xs);
    hide PartAt, SkipWhite, Redirs;
    StopIs(s, e);
    assert rest == [];
    assert fs + [] == fs;
    SkipBlank(s, m, e);
  }

  lemma BlockMeans(s: string, p: nat, e: nat, c: Cmd<Span>, a: nat, b: nat, d: Cmd<Span>, xs: seq<Part>)
    requires BlockIs(s, p, e, c, a, b, d, xs)
    ensures p <= a < b < e <= |s| && Blank(s, p, a) && s[a] == '(' == At(s, a) && s[b] == ')' == At(s, b)
    ensures IsLine(s, a + 1, b, d) && StopAt(s, b, 3)
    ensures Parts(s, b + 1, e, xs) && Args(xs) == [] && c == Wrap(d, Redirections(xs))
  {
    hide IsLine;
  }

  lemma {:induction false} BlockComplete(s: string, p: nat, e: nat, c: Cmd<Span>, a: nat, b: nat, d: Cmd<Span>, xs: seq<Part>)
    requires NoNul(s) && BlockIs(s, p, e, c, a, b, d, xs) && Stop(s, e)
    ensures Gives(s, p, 0, c, e)
    decreases e - p, 0, 0
  {
    hide *;
    BlockMeans(s, p, e, c, a, b, d, xs);
    LineComplete(s, a + 1, b, d);
    GivesMeans(s, a + 1, 3, d, b);
    RedirsComplete(s, b + 1, e, xs);
    SkipBlank(s, p, a);
    ParenToken(s, a);
    ParenToken(s, b);
    LineSkip(s, a + 1);
    RedirsSkip(s, b + 1);
    ExecBlock(s, p, d, b, Redirections(xs), e);
    GivesIf(s, p, 0, c, e);
  }

  lemma {:induction false} ExecComplete(s: string, p: nat, e: nat, c: Cmd<Span>)
    requires NoNul(s) && IsExec(s, p, e, c) && Stop(s, e)
    ensures Gives(s, p, 0, c, e)
    decreases e - p, 0, 1
  {
    if xs :| SimpleIs(s, p, e, c, xs) {
      SimpleComplete(s, p, e, c, xs);
    } else {
      var a: nat, b: nat, d, xs :| BlockIs(s, p, e, c, a, b, d, xs);
      BlockComplete(s, p, e, c, a, b, d, xs);
    }
  }

  lemma OperatorStop(s: string, m: nat)
    requires m < |s| && (s[m] == '|' || s[m] == '&' || s[m] == ';')
    ensures At(s, m) == s[m] && Stop(s, m) && StopAt(s, m, if s[m] == '|' then 0 else 2)
  {
  }

  lemma {:induction false} PipeComplete(s: string, p: nat, e: nat, c: Cmd<Span>)
    requires NoNul(s) && IsPipe(s, p, e, c) && StopAt(s, e, 1)
    ensures Gives(s, p, 1, c, e)
    decreases e - p, 1
  {
    hide *;
    StopLower(s, e, 0, 1);
    if IsExec(s, p, e, c) {
      ExecComplete(s, p, e, c);
      Promote(s, p, 0, c, e);
    } else {
      var m := FindBar(s, p, e, c);
      OperatorStop(s, m);
      ExecComplete(s, p, m, c.left);
      PipeComplete(s, m + 1, e, c.right);
      GivesMeans(s, p, 0, c.left, m);
      GivesMeans(s, m + 1, 1, c.right, e);
      OperatorToken(s, m);
      PipeSkip(s, m + 1);
      PipeStep(s, p, c.left, m, c.right, e);
      GivesIf(s, p, 1, c, e);
    }
  }

  lemma FindBar(s: string, p: nat, e: nat, c: Cmd<Span>) returns (m: nat)
    requires IsPipe(s, p, e, c) && !IsExec(s, p, e, c)
    ensures c.Pipe? && p <= m < e <= |s| && s[m] == '|' && IsExec(s, p, m, c.left) && IsPipe(s, m + 1, e, c.right)
  {
    m :| BarAt(s, p, e, c, m);
  }

  lemma {:induction false} BackComplete(s: string, p: nat, e: nat, c: Cmd<Span>)
    requires NoNul(s) && IsBack(s, p, e, c) && StopAt(s, e, 2)
    ensures Gives(s, p, 2, c, e)
    decreases e - p, 2
  {
    hide *;
    StopLower(s, e, 1, 2);
    if IsPipe(s, p, e, c) {
      PipeComplete(s, p, e, c);
      Promote(s, p, 1, c, e);
    } else {
      var m := FindAmpersand(s, p, e, c);
      OperatorStop(s, m);
      BackComplete(s, p, m, c.cmd);
      GivesMeans(s, p, 2, c.cmd, m);
      BacksStep(s, m, c.cmd);
      BacksBlank(s, m + 1, e, c);
      GivesIf(s, p, 2, c, e);
    }
  }

  lemma FindAmpersand(s: string, p: nat, e: nat, c: Cmd<Span>) returns (m: nat)
    requires IsBack(s, p, e, c) && !IsPipe(s, p, e, c)
    ensures c.Back? && p <= m < e <= |s| && s[m] == '&' && IsBack(s, p, m, c.cmd) && Blank(s, m + 1, e)
  {
    m :| AmpersandIs(s, p, e, c, m);
  }

  lemma BacksBlank(s: string, p: nat, e: nat, c: Cmd<Span>)
    requires NoNul(s) && Blank(s, p, e)
    ensures Backs(s, p, c) == Backs(s, e, c)
  {
    SkipBlank(s, p, e);
  }

  lemma {:induction false} LineComplete(s: string, p: nat, e: nat, c: Cmd<Span>)
    requires NoNul(s) && IsLine(s, p, e, c) && StopAt(s, e, 3)
    ensures Gives(s, p, 3, c, e)
    decreases e - p, 3
  {
    hide *;
    StopLower(s, e, 2, 3);
    if IsBack(s, p, e, c) {
      BackComplete(s, p, e, c);
      Promote(s, p, 2, c, e);
    } else {
      var m := FindSemicolon(s, p, e, c);
      OperatorStop(s, m);
      BackComplete(s, p, m, c.left);
      LineComplete(s, m + 1, e, c.right);
      GivesMeans(s, p, 2, c.left, m);
      GivesMeans(s, m + 1, 3, c.right, e);
      BacksEnd(s, m, c.left);
      LineStep(s, p, c.left, m, c.right, e);
      GivesIf(s, p, 3, c, e);
    }
  }

  lemma FindSemicolon(s: string, p: nat, e: nat, c: Cmd<Span>) returns (m: nat)
    requires IsLine(s, p, e, c) && !IsBack(s, p, e, c)
    ensures c.List? && p <= m < e <= |s| && s[m] == ';' && IsBack(s, p, m, c.left) && IsLine(s, m + 1, e, c.right)
  {
    m :| SemicolonAt(s, p, e, c, m);
  }

  // A line is accepted with a tree exactly if the grammar gives it that tree; so the
  // grammar gives no line two.
  lemma ParsesExactly(s: string, c: Cmd<Span>)
    requires NoNul(s)
    ensures ParseCmd(s) == Ok(c, |s|) <==> IsLine(s, 0, |s|, c)
  {
    if ParseCmd(s) == Ok(c, |s|) {
      LineSound(s, 0);
    }
    if IsLine(s, 0, |s|, c) {
      assert StopAt(s, |s|, 3);
      LineComplete(s, 0, |s|, c);
    }
  }

  // What it accepts it has read to the end.
  lemma AcceptsExactly(s: string)
    requires NoNul(s)
    ensures ParseCmd(s).Ok? <==> exists c :: IsLine(s, 0, |s|, c)
  {
    if ParseCmd(s).Ok? {
      ParsesExactly(s, ParseCmd(s).value);
    }
    if c :| IsLine(s, 0, |s|, c) {
      ParsesExactly(s, c);
    }
  }
}
