/**
 The command language of xv6/sh.c.  The parser is given by functions of the
 input and a cursor; a tree's words are spans of the input, as the argv and eargv
 pointers are.

 Main results: every word of every parsed tree is a whole token of the input;
 printing a command, with the parentheses the grammar needs or with more, and parsing
 it gives the command with its appends turned into writes, so gives it back exactly if
 it appends nowhere, for every command whose exec nodes have at most nine words; ten
 are too many.
 */
module Shell {

  const MAXARGS := 10

  datatype Span = Span(q: nat, eq: nat)

  // How a redirection opens its file.
  datatype Mode = Read | Write | Append

  // W is Span as parsed, and string as meant.
  datatype Cmd<W> =
    | Exec(args: seq<W>)
    | Redir(cmd: Cmd<W>, file: W, mode: Mode)
    | Pipe(left: Cmd<W>, right: Cmd<W>)
    | List(left: Cmd<W>, right: Cmd<W>)
    | Back(cmd: Cmd<W>)

  datatype Error = Syntax | MissingFile | MissingParen | TooManyArgs | Leftovers

  // A value and the cursor after it, or a panic.
  datatype Parsed<+T> = Ok(value: T, next: nat) | Err(error: Error)

  predicate White(c: char) { c == ' ' || c == '\t' || c == '\r' || c == '\n' || c == '\U{000B}' }

  predicate Symbol(c: char) { c == '<' || c == '|' || c == '>' || c == '&' || c == ';' || c == '(' || c == ')' }

  predicate Letter(c: char) { !White(c) && !Symbol(c) && c != '\0' }

  // A C string's characters.
  predicate NoNul(s: string) { forall i :: 0 <= i < |s| ==> s[i] != '\0' }

  // --- tokens --------------------------------------------------------------------------

  function SkipWhite(s: string, p: nat): (r: nat)
    requires p <= |s|
    ensures p <= r <= |s| && (r < |s| ==> !White(s[r]))
    decreases |s| - p
  {
    if p < |s| && White(s[p]) then SkipWhite(s, p + 1) else p
  }

  function SkipWord(s: string, p: nat): (r: nat)
    requires p <= |s|
    ensures p <= r <= |s| && (r < |s| ==> White(s[r]) || Symbol(s[r]))
    decreases |s| - p
  {
    if p < |s| && !White(s[p]) && !Symbol(s[p]) then SkipWord(s, p + 1) else p
  }

  // The character at the cursor; the terminating NUL at the end.
  function At(s: string, p: nat): (c: char)
    requires p <= |s|
  {
    if p < |s| then s[p] else '\0'
  }

  datatype Token = Token(kind: char, q: nat, eq: nat, next: nat)

  // gettoken: kind is 'a' for a word, '+' for >>, NUL at the end, else the symbol.
  function GetToken(s: string, p: nat): (t: Token)
    requires NoNul(s) && p <= |s|
    ensures p <= t.q <= t.eq <= t.next <= |s|
    ensures t.kind == '\0' <==> SkipWhite(s, p) == |s|
    ensures t.kind != '\0' ==> t.q < t.eq
  {
    var q := SkipWhite(s, p);
    var c := At(s, q);
    if c == '\0' then Token(c, q, q, q)
    else if c == '>' then
      if At(s, q + 1) == '>' then Token('+', q, q + 2, SkipWhite(s, q + 2))
      else Token('>', q, q + 1, SkipWhite(s, q + 1))
    else if Symbol(c) then Token(c, q, q + 1, SkipWhite(s, q + 1))
    else Token('a', q, SkipWord(s, q), SkipWhite(s, SkipWord(s, q)))
  }

  // --- the grammar ---------------------------------------------------------------------------

  function Wrap<W>(c: Cmd<W>, rs: seq<(W, Mode)>): (r: Cmd<W>)
  {
    if rs == [] then c else Redir(Wrap(c, rs[..|rs| - 1]), rs[|rs| - 1].0, rs[|rs| - 1].1)
  }

  // The mode parseredirs opens a file in: the same for > and >>.
  function Opens(kind: char): (m: Mode) { if kind == '<' then Read else Write }

  // parseredirs: the redirections from p on.
  function Redirs(s: string, p: nat): (r: Parsed<seq<(Span, Mode)>>)
    requires NoNul(s) && p <= |s|
    ensures r.Ok? ==> p <= r.next <= |s|
    decreases |s| - p
  {
    var p := SkipWhite(s, p);
    if At(s, p) == '<' || At(s, p) == '>' then
      var tok := GetToken(s, p);
      var w := GetToken(s, tok.next);
      if w.kind != 'a' then Err(MissingFile)
      else
        var rest := Redirs(s, w.next);
        if rest.Err? then rest else Ok([(Span(w.q, w.eq), Opens(tok.kind))] + rest.value, rest.next)
    else Ok([], p)
  }

  // The loop of parseexec: words and redirections until a token that ends them.
  function Words(s: string, p: nat, n: nat): (r: Parsed<(seq<Span>, seq<(Span, Mode)>)>)
    requires NoNul(s) && p <= |s|
    ensures r.Ok? ==> p <= r.next <= |s|
    decreases |s| - p
  {
    var p := SkipWhite(s, p);
    var c := At(s, p);
    if c == '|' || c == ')' || c == '&' || c == ';' then Ok(([], []), p)
    else
      var tok := GetToken(s, p);
      if tok.kind == '\0' then Ok(([], []), tok.next)
      else if tok.kind != 'a' then Err(Syntax)
      else if n + 1 >= MAXARGS then Err(TooManyArgs)
      else
        var rs := Redirs(s, tok.next);
        if rs.Err? then Err(rs.error)
        else
          var rest := Words(s, rs.next, n + 1);
          if rest.Err? then rest
          else Ok(([Span(tok.q, tok.eq)] + rest.value.0, rs.value + rest.value.1), rest.next)
  }

  // parseexec, and parseblock where there is a parenthesis
  function ExecAt(s: string, p: nat): (r: Parsed<Cmd<Span>>)
    requires NoNul(s) && p <= |s|
    ensures r.Ok? ==> p <= r.next <= |s|
    decreases |s| - p, 0
  {
    var p := SkipWhite(s, p);
    if At(s, p) == '(' then
      var c := Line(s, GetToken(s, p).next);
      if c.Err? then c
      else
        var e := SkipWhite(s, c.next);
        if At(s, e) != ')' then Err(MissingParen)
        else
          var rs := Redirs(s, GetToken(s, e).next);
          if rs.Err? then Err(rs.error)
          else Ok(Wrap(c.value, rs.value), rs.next)
    else
      var rs := Redirs(s, p);
      if rs.Err? then Err(rs.error)
      else
        var ws := Words(s, rs.next, 0);
        if ws.Err? then Err(ws.error)
        else Ok(Wrap(Exec(ws.value.0), rs.value + ws.value.1), ws.next)
  }

  function PipeAt(s: string, p: nat): (r: Parsed<Cmd<Span>>)
    requires NoNul(s) && p <= |s|
    ensures r.Ok? ==> p <= r.next <= |s|
    decreases |s| - p, 1
  {
    var c := ExecAt(s, p);
    if c.Err? then c
    else
      var e := SkipWhite(s, c.next);
      if At(s, e) == '|' then
        var d := PipeAt(s, GetToken(s, e).next);
        if d.Err? then d else Ok(Pipe(c.value, d.value), d.next)
      else Ok(c.value, e)
  }

  // The ampersands after a pipe.
  function Backs(s: string, p: nat, c: Cmd<Span>): (r: (Cmd<Span>, nat))
    requires NoNul(s) && p <= |s|
    ensures p <= r.1 <= |s|
    decreases |s| - p
  {
    var p := SkipWhite(s, p);
    if At(s, p) == '&' then Backs(s, GetToken(s, p).next, Back(c)) else (c, p)
  }

  function Line(s: string, p: nat): (r: Parsed<Cmd<Span>>)
    requires NoNul(s) && p <= |s|
    ensures r.Ok? ==> p <= r.next <= |s|
    decreases |s| - p, 2
  {
    var c := PipeAt(s, p);
    if c.Err? then c
    else
      var (d, e) := Backs(s, c.next, c.value);
      if At(s, e) == ';' then
        var f := Line(s, GetToken(s, e).next);
        if f.Err? then f else Ok(List(d, f.value), f.next)
      else Ok(d, e)
  }

  function ParseCmd(s: string): (r: Parsed<Cmd<Span>>)
    requires NoNul(s)
  {
    var c := Line(s, 0);
    if c.Err? then c
    else if SkipWhite(s, c.next) != |s| then Err(Leftovers) else Ok(c.value, |s|)
  }

  // --- words are tokens ------------------------------------------------------------------------

  // A whole word of the input: letters, with no letter right after them.
  predicate IsToken(s: string, w: Span)
  {
    && w.q < w.eq <= |s|
    && (forall i :: w.q <= i < w.eq ==> Letter(s[i]))
    && (w.eq < |s| ==> !Letter(s[w.eq]))
  }

  // Every word of the tree is a token of the input.
  predicate Tokens(s: string, c: Cmd<Span>)
  {
    match c
    case Exec(args) => forall i :: 0 <= i < |args| ==> IsToken(s, args[i])
    case Redir(d, file, _) => IsToken(s, file) && Tokens(s, d)
    case Pipe(l, r) => Tokens(s, l) && Tokens(s, r)
    case List(l, r) => Tokens(s, l) && Tokens(s, r)
    case Back(d) => Tokens(s, d)
  }

  predicate FilesAre(s: string, rs: seq<(Span, Mode)>) { forall i :: 0 <= i < |rs| ==> IsToken(s, rs[i].0) }

  lemma {:induction false} WrapTokens(s: string, c: Cmd<Span>, rs: seq<(Span, Mode)>)
    requires Tokens(s, c) && FilesAre(s, rs)
    ensures Tokens(s, Wrap(c, rs))
  {
    if rs != [] {
      WrapTokens(s, c, rs[..|rs| - 1]);
    }
  }

  lemma {:induction false} SkipWordLetters(s: string, p: nat)
    requires p <= |s|
    ensures forall i :: p <= i < SkipWord(s, p) ==> !White(s[i]) && !Symbol(s[i])
    decreases |s| - p
  {
    if p < |s| && !White(s[p]) && !Symbol(s[p]) {
      SkipWordLetters(s, p + 1);
    }
  }

  lemma WordToken(s: string, p: nat)
    requires NoNul(s) && p <= |s| && GetToken(s, p).kind == 'a'
    ensures IsToken(s, Span(GetToken(s, p).q, GetToken(s, p).eq))
  {
    SkipWordLetters(s, SkipWhite(s, p));
  }

  lemma {:induction false} RedirsTokens(s: string, p: nat)
    requires NoNul(s) && p <= |s| && Redirs(s, p).Ok?
    ensures FilesAre(s, Redirs(s, p).value)
    decreases |s| - p
  {
    var p' := SkipWhite(s, p);
    if At(s, p') == '<' || At(s, p') == '>' {
      var w := GetToken(s, GetToken(s, p').next);
      WordToken(s, GetToken(s, p').next);
      RedirsTokens(s, w.next);
    }
  }

  lemma {:induction false} WordsTokens(s: string, p: nat, n: nat)
    requires NoNul(s) && p <= |s| && Words(s, p, n).Ok?
    ensures Tokens(s, Exec(Words(s, p, n).value.0)) && FilesAre(s, Words(s, p, n).value.1)
    decreases |s| - p
  {
    hide Redirs, GetToken, SkipWhite, IsToken;
    var p' := SkipWhite(s, p);
    var tok := GetToken(s, p');
    if Words(s, p, n).value.0 != [] {
      WordToken(s, p');
      RedirsTokens(s, tok.next);
      WordsTokens(s, Redirs(s, tok.next).next, n + 1);
    }
  }

  lemma {:induction false} BacksTokens(s: string, p: nat, c: Cmd<Span>)
    requires NoNul(s) && p <= |s| && Tokens(s, c)
    ensures Tokens(s, Backs(s, p, c).0)
    decreases |s| - p
  {
    var p' := SkipWhite(s, p);
    if At(s, p') == '&' {
      BacksTokens(s, GetToken(s, p').next, Back(c));
    }
  }

  lemma Forward(s: string, p: nat)
    requires NoNul(s) && p < |s| && !White(s[p])
    ensures p < GetToken(s, p).next
  {
  }

  lemma {:induction false} ExecTokens(s: string, p: nat)
    requires NoNul(s) && p <= |s| && ExecAt(s, p).Ok?
    ensures Tokens(s, ExecAt(s, p).value)
    decreases |s| - p, 0
  {
    hide Redirs, Words, GetToken, SkipWhite, Wrap;
    var p' := SkipWhite(s, p);
    if At(s, p') == '(' {
      var c := Line(s, GetToken(s, p').next);
      LineTokens(s, GetToken(s, p').next);
      var e := GetToken(s, SkipWhite(s, c.next)).next;
      RedirsTokens(s, e);
      WrapTokens(s, c.value, Redirs(s, e).value);
    } else {
      var rs := Redirs(s, p');
      RedirsTokens(s, p');
      WordsTokens(s, rs.next, 0);
      var ws := Words(s, rs.next, 0).value;
      assert FilesAre(s, rs.value + ws.1);
      WrapTokens(s, Exec(ws.0), rs.value + ws.1);
    }
  }

  lemma {:induction false} PipeTokens(s: string, p: nat)
    requires NoNul(s) && p <= |s| && PipeAt(s, p).Ok?
    ensures Tokens(s, PipeAt(s, p).value)
    decreases |s| - p, 1
  {
    hide ExecAt, GetToken, SkipWhite;
    ExecTokens(s, p);
    var e := SkipWhite(s, ExecAt(s, p).next);
    if At(s, e) == '|' {
      PipeTokens(s, GetToken(s, e).next);
    }
  }

  lemma {:induction false} LineTokens(s: string, p: nat)
    requires NoNul(s) && p <= |s| && Line(s, p).Ok?
    ensures Tokens(s, Line(s, p).value)
    decreases |s| - p, 2
  {
    hide PipeAt, GetToken, SkipWhite, Backs;
    PipeTokens(s, p);
    var c := PipeAt(s, p);
    BacksTokens(s, c.next, c.value);
    var e := Backs(s, c.next, c.value).1;
    if At(s, e) == ';' {
      Forward(s, e);
      LineTokens(s, GetToken(s, e).next);
    }
  }

  // Every word of a parsed command is a whole token of the input.
  lemma ParsedTokens(s: string)
    requires NoNul(s) && ParseCmd(s).Ok?
    ensures Tokens(s, ParseCmd(s).value)
  {
    LineTokens(s, 0);
  }

  // --- meaning and printing -------------------------------------------------------------------

  function Text(s: string, w: Span): (x: string)
  {
    if w.q <= w.eq <= |s| then s[w.q..w.eq] else ""
  }

  function Texts(s: string, ws: seq<Span>): (xs: seq<string>)
    ensures |xs| == |ws| && forall i :: 0 <= i < |ws| ==> xs[i] == Text(s, ws[i])
  {
    if ws == [] then [] else [Text(s, ws[0])] + Texts(s, ws[1..])
  }

  // The tree with its words spelled out.
  function Meaning(s: string, c: Cmd<Span>): (m: Cmd<string>)
  {
    match c
    case Exec(args) => Exec(Texts(s, args))
    case Redir(d, file, mode) => Redir(Meaning(s, d), Text(s, file), mode)
    case Pipe(l, r) => Pipe(Meaning(s, l), Meaning(s, r))
    case List(l, r) => List(Meaning(s, l), Meaning(s, r))
    case Back(d) => Back(Meaning(s, d))
  }

  predicate Word(w: string) { w != "" && forall i :: 0 <= i < |w| ==> Letter(w[i]) }

  predicate Legal(c: Cmd<string>)
  {
    match c
    case Exec(args) => |args| < MAXARGS && forall i :: 0 <= i < |args| ==> Word(args[i])
    case Redir(d, file, _) => Word(file) && Legal(d)
    case Pipe(l, r) => Legal(l) && Legal(r)
    case List(l, r) => Legal(l) && Legal(r)
    case Back(d) => Legal(d)
  }

  function PrintWords(ws: seq<string>): (x: string)
  {
    if ws == [] then "" else " " + ws[0] + PrintWords(ws[1..])
  }

  function Paren(x: string): (y: string)
    ensures |y| == |x| + 2
  {
    "(" + x + ")"
  }

  function Op(m: Mode): (x: string)
    ensures 1 <= |x| <= 2
  {
    match m
    case Read => "<"
    case Write => ">"
    case Append => ">>"
  }

  // The place in the grammar a command needs: 0 for what parseexec reads, 1 for a pipe,
  // 2 for one in the background, 3 for a list.
  function Level(c: Cmd<string>): (k: nat)
  {
    match c
    case Exec(_) => 0
    case Redir(_, _, _) => 0
    case Pipe(_, _) => 1
    case Back(_) => 2
    case List(_, _) => 3
  }

  // Commands to be put in parentheses though they need none.
  type Extra = Cmd<string> -> bool

  predicate Bare(c: Cmd<string>, k: nat, extra: Extra) { Level(c) <= k && !extra(c) }

  // c at a place for commands up to level k.
  function Put(c: Cmd<string>, k: nat, extra: Extra): (x: string)
    decreases c, 1
  {
    if Bare(c, k, extra) then Print(c, extra) else Paren(Print(c, extra))
  }

  // The text of a command, with the parentheses the grammar needs and those extra asks
  // for.
  function Print(c: Cmd<string>, extra: Extra): (x: string)
    decreases c, 0
  {
    match c
    case Exec(args) => PrintWords(args)
    case Redir(d, file, mode) => Put(d, 0, extra) + (Op(mode) + file)
    case Pipe(l, r) => Put(l, 0, extra) + "|" + Put(r, 1, extra)
    case List(l, r) => Put(l, 2, extra) + ";" + Put(r, 3, extra)
    case Back(d) => Put(d, 2, extra) + "&"
  }

  // The command with every append a write.
  function Flatten(c: Cmd<string>): (d: Cmd<string>)
  {
    match c
    case Exec(_) => c
    case Redir(d, file, mode) => Redir(Flatten(d), file, Flat(mode))
    case Pipe(l, r) => Pipe(Flatten(l), Flatten(r))
    case List(l, r) => List(Flatten(l), Flatten(r))
    case Back(d) => Back(Flatten(d))
  }

  function Flat(m: Mode): (m': Mode) { if m == Append then Write else m }

  predicate Appends(c: Cmd<string>)
  {
    match c
    case Exec(_) => false
    case Redir(d, _, mode) => mode.Append? || Appends(d)
    case Pipe(l, r) => Appends(l) || Appends(r)
    case List(l, r) => Appends(l) || Appends(r)
    case Back(d) => Appends(d)
  }

  lemma FlattenKeeps(c: Cmd<string>)
    ensures Flatten(c) == c <==> !Appends(c)
  {
  }

  // --- round trip --------------------------------------------------------------------------------

  predicate Starts(s: string, p: nat, x: string) { p + |x| <= |s| && s[p..p + |x|] == x }

  lemma StartsSplit(s: string, p: nat, x: string, y: string)
    requires Starts(s, p, x + y)
    ensures Starts(s, p, x) && Starts(s, p + |x|, y)
  {
    assert s[p..p + |x|] == s[p..p + |x + y|][..|x|];
    assert s[p + |x|..p + |x| + |y|] == s[p..p + |x + y|][|x|..];
  }

  lemma StartsChar(s: string, p: nat, x: string)
    requires Starts(s, p, x) && x != ""
    ensures p < |s| && s[p] == x[0]
  {
    assert s[p] == s[p..p + |x|][0];
  }

  // What can come after a command: an operator, a closing parenthesis, or nothing.
  predicate Plain(a: char) { a == '|' || a == ';' || a == '&' || a == ')' || a == '\0' }

  predicate Stop(s: string, p: nat) { p <= |s| && Plain(At(s, p)) }

  // What ends a command of level k.
  predicate StopAt(s: string, p: nat, k: nat)
  {
    && Stop(s, p)
    && (k >= 1 ==> At(s, p) != '|')
    && (k >= 3 ==> At(s, p) != '&' && At(s, p) != ';')
  }

  // White space before the cursor's next character makes no difference.
  lemma SkipTwice(s: string, p: nat)
    requires p <= |s|
    ensures SkipWhite(s, SkipWhite(s, p)) == SkipWhite(s, p)
  {
  }

  lemma SkipNone(s: string, p: nat)
    requires p <= |s| && !White(At(s, p))
    ensures SkipWhite(s, p) == p
  {
  }

  lemma SkipOne(s: string, p: nat)
    requires p + 1 <= |s| && s[p] == ' ' && !White(At(s, p + 1))
    ensures SkipWhite(s, p) == p + 1
  {
    SkipNone(s, p + 1);
  }

  lemma StopIs(s: string, p: nat)
    requires NoNul(s) && Stop(s, p)
    ensures p <= |s| && SkipWhite(s, p) == p && !Letter(At(s, p)) && !White(At(s, p))
    ensures At(s, p) != '<' && At(s, p) != '>' && At(s, p) != '(' && At(s, p) != ' '
    ensures At(s, p) == '\0' ==> p == |s|
  {
  }

  // --- one step of each parse function

  lemma RedirsNone(s: string, p: nat)
    requires NoNul(s) && p <= |s| && At(s, SkipWhite(s, p)) != '<' && At(s, SkipWhite(s, p)) != '>'
    ensures Redirs(s, p) == Ok([], SkipWhite(s, p))
  {
  }

  lemma RedirsStep(s: string, p: nat, tok: Token, w: Token, rest: seq<(Span, Mode)>, e: nat)
    requires NoNul(s) && p <= |s| && (At(s, SkipWhite(s, p)) == '<' || At(s, SkipWhite(s, p)) == '>')
    requires tok == GetToken(s, SkipWhite(s, p)) && w == GetToken(s, tok.next) && w.kind == 'a'
    requires Redirs(s, w.next) == Ok(rest, e)
    ensures Redirs(s, p) == Ok([(Span(w.q, w.eq), Opens(tok.kind))] + rest, e)
  {
  }

  lemma WordsEnd(s: string, p: nat, n: nat)
    requires NoNul(s) && Stop(s, p)
    ensures Words(s, p, n) == Ok(([], []), p)
  {
    StopIs(s, p);
  }

  lemma WordsStep(s: string, p: nat, n: nat, tok: Token, rs: seq<(Span, Mode)>, e: nat,
                  ws: seq<Span>, more: seq<(Span, Mode)>, f: nat)
    requires NoNul(s) && p <= |s| && tok == GetToken(s, SkipWhite(s, p)) && tok.kind == 'a' && n + 1 < MAXARGS
    requires !Symbol(At(s, SkipWhite(s, p)))
    requires Redirs(s, tok.next) == Ok(rs, e) && e <= |s| && Words(s, e, n + 1) == Ok((ws, more), f)
    ensures Words(s, p, n) == Ok(([Span(tok.q, tok.eq)] + ws, rs + more), f)
  {
  }

  lemma WordsSkip(s: string, p: nat, n: nat)
    requires NoNul(s) && p <= |s|
    ensures Words(s, SkipWhite(s, p), n) == Words(s, p, n)
  {
    SkipTwice(s, p);
  }

  lemma RedirsSkip(s: string, p: nat)
    requires NoNul(s) && p <= |s|
    ensures Redirs(s, SkipWhite(s, p)) == Redirs(s, p)
  {
    SkipTwice(s, p);
  }

  lemma ExecWords(s: string, p: nat, rs: seq<(Span, Mode)>, e: nat, ws: seq<Span>, more: seq<(Span, Mode)>, f: nat)
    requires NoNul(s) && p <= |s| && At(s, SkipWhite(s, p)) != '('
    requires Redirs(s, SkipWhite(s, p)) == Ok(rs, e) && e <= |s| && Words(s, e, 0) == Ok((ws, more), f)
    ensures ExecAt(s, p) == Ok(Wrap(Exec(ws), rs + more), f)
  {
    hide Line, Redirs, Words, Wrap, GetToken, SkipWhite;
  }

  lemma ExecBlock(s: string, p: nat, c: Cmd<Span>, e: nat, rs: seq<(Span, Mode)>, f: nat)
    requires NoNul(s) && p <= |s| && At(s, SkipWhite(s, p)) == '('
    requires Line(s, GetToken(s, SkipWhite(s, p)).next) == Ok(c, e) && e <= |s| && At(s, SkipWhite(s, e)) == ')'
    requires Redirs(s, GetToken(s, SkipWhite(s, e)).next) == Ok(rs, f)
    ensures ExecAt(s, p) == Ok(Wrap(c, rs), f)
  {
    hide Line, Redirs, Words, Wrap, GetToken, SkipWhite;
  }

  lemma ExecSkip(s: string, p: nat)
    requires NoNul(s) && p <= |s|
    ensures ExecAt(s, SkipWhite(s, p)) == ExecAt(s, p)
  {
    SkipTwice(s, p);
    hide Line, Redirs, Words, Wrap, GetToken, SkipWhite;
  }

  lemma PipeEnd(s: string, p: nat, c: Cmd<Span>, e: nat)
    requires NoNul(s) && p <= |s| && ExecAt(s, p) == Ok(c, e) && e <= |s| && At(s, SkipWhite(s, e)) != '|'
    ensures PipeAt(s, p) == Ok(c, SkipWhite(s, e))
  {
    hide ExecAt, SkipWhite, GetToken;
  }

  lemma PipeStep(s: string, p: nat, c: Cmd<Span>, e: nat, d: Cmd<Span>, f: nat)
    requires NoNul(s) && p <= |s| && ExecAt(s, p) == Ok(c, e) && e <= |s| && At(s, SkipWhite(s, e)) == '|'
    requires PipeAt(s, GetToken(s, SkipWhite(s, e)).next) == Ok(d, f)
    ensures PipeAt(s, p) == Ok(Pipe(c, d), f)
  {
    hide ExecAt, SkipWhite, GetToken;
  }

  lemma PipeSkip(s: string, p: nat)
    requires NoNul(s) && p <= |s|
    ensures PipeAt(s, SkipWhite(s, p)) == PipeAt(s, p)
  {
    ExecSkip(s, p);
    hide ExecAt, SkipWhite, GetToken;
  }

  lemma LineSkip(s: string, p: nat)
    requires NoNul(s) && p <= |s|
    ensures Line(s, SkipWhite(s, p)) == Line(s, p)
  {
    PipeSkip(s, p);
    hide PipeAt, Backs, SkipWhite, GetToken;
  }

  // The ampersands after a pipe, and then the rest of the line.
  lemma BacksEnd(s: string, e: nat, c: Cmd<Span>)
    requires NoNul(s) && Stop(s, e) && At(s, e) != '&'
    ensures Backs(s, e, c) == (c, e)
  {
    StopIs(s, e);
  }

  lemma BacksStep(s: string, e: nat, c: Cmd<Span>)
    requires NoNul(s) && e < |s| && s[e] == '&'
    ensures Backs(s, e, c) == Backs(s, e + 1, Back(c))
  {
    SymbolAt(s, e);
    SkipTwice(s, e + 1);
  }

  lemma LineEnd(s: string, p: nat, c: Cmd<Span>, e: nat)
    requires NoNul(s) && p <= |s| && PipeAt(s, p).Ok? && e <= |s|
    requires Backs(s, PipeAt(s, p).next, PipeAt(s, p).value) == (c, e) && At(s, e) != ';'
    ensures Line(s, p) == Ok(c, e)
  {
    hide PipeAt, Backs, SkipWhite, GetToken;
  }

  lemma LineStep(s: string, p: nat, c: Cmd<Span>, e: nat, d: Cmd<Span>, f: nat)
    requires NoNul(s) && p <= |s| && PipeAt(s, p).Ok? && e < |s| && s[e] == ';'
    requires Backs(s, PipeAt(s, p).next, PipeAt(s, p).value) == (c, e)
    requires Line(s, e + 1) == Ok(d, f)
    ensures Line(s, p) == Ok(List(c, d), f)
  {
    hide PipeAt, Backs, SkipWhite, GetToken, NoNul;
    OperatorToken(s, e);
    LineSkip(s, e + 1);
  }

  // The one-character token at e.
  lemma SymbolAt(s: string, e: nat)
    requires NoNul(s) && e < |s| && Symbol(s[e]) && (s[e] == '>' ==> At(s, e + 1) != '>')
    ensures SkipWhite(s, e) == e && At(s, e) == s[e] && GetToken(s, e) == Token(s[e], e, e + 1, SkipWhite(s, e + 1))
  {
  }

  // The word at p.
  lemma WordAt(s: string, p: nat, w: string)
    requires NoNul(s) && Starts(s, p, w) && Word(w) && !Letter(At(s, p + |w|))
    ensures SkipWhite(s, p) == p && Letter(At(s, p))
    ensures GetToken(s, p) == Token('a', p, p + |w|, SkipWhite(s, p + |w|))
    ensures Text(s, Span(p, p + |w|)) == w
  {
    assert forall i :: p <= i < p + |w| ==> s[i] == s[p..p + |w|][i - p];
    assert Letter(s[p]) && !Symbol(s[p]);
    WordEnds(s, p, p + |w|);
  }

  lemma {:induction false} WordEnds(s: string, p: nat, e: nat)
    requires NoNul(s) && p <= e <= |s| && (forall i :: p <= i < e ==> Letter(s[i])) && !Letter(At(s, e))
    ensures SkipWord(s, p) == e
    decreases e - p
  {
    if p < e {
      WordEnds(s, p + 1, e);
    }
  }

  // --- simple commands

  function PrintRedirs(rs: seq<(string, Mode)>): (x: string)
  {
    if rs == [] then "" else Op(rs[0].1) + rs[0].0 + PrintRedirs(rs[1..])
  }

  predicate Files(rs: seq<(string, Mode)>) { forall i :: 0 <= i < |rs| ==> Word(rs[i].0) }

  // The redirections as parsed mean rs, but for the appends.
  predicate SameFiles(s: string, fs: seq<(Span, Mode)>, rs: seq<(string, Mode)>)
  {
    |fs| == |rs| && forall i :: 0 <= i < |rs| ==> Text(s, fs[i].0) == rs[i].0 && fs[i].1 == Flat(rs[i].1)
  }

  // Where redirections start: at their operator, or at what ends the command.
  lemma RedirsAt(s: string, e: nat, rs: seq<(string, Mode)>)
    requires NoNul(s) && Files(rs) && Starts(s, e, PrintRedirs(rs)) && Stop(s, e + |PrintRedirs(rs)|)
    ensures e <= |s| && SkipWhite(s, e) == e && !Letter(At(s, e)) && At(s, e) != '(' && At(s, e) != ' '
    ensures rs == [] ==> Stop(s, e) && |PrintRedirs(rs)| == 0
    ensures rs != [] ==>
      var f := e + |Op(rs[0].1)|;
      && f <= |s| && Starts(s, f, rs[0].0) && Word(rs[0].0) && Starts(s, f + |rs[0].0|, PrintRedirs(rs[1..]))
      && |PrintRedirs(rs)| == |Op(rs[0].1)| + |rs[0].0| + |PrintRedirs(rs[1..])|
      && (At(s, e) == '<' || At(s, e) == '>')
      && Opens(GetToken(s, e).kind) == Flat(rs[0].1) && GetToken(s, e).next == f
  {
    if rs == [] {
      StopIs(s, e);
    } else {
      var op, file, more := Op(rs[0].1), rs[0].0, PrintRedirs(rs[1..]);
      assert PrintRedirs(rs) == op + (file + more);
      StartsSplit(s, e, op, file + more);
      StartsSplit(s, e + |op|, file, more);
      OpAt(s, e, rs[0].1, file);
    }
  }

  // The operator at e, with its file right behind it.
  lemma OpAt(s: string, e: nat, mode: Mode, file: string)
    requires NoNul(s) && Word(file) && Starts(s, e, Op(mode)) && Starts(s, e + |Op(mode)|, file)
    ensures e < |s| && SkipWhite(s, e) == e && (At(s, e) == '<' || At(s, e) == '>') && !Letter(At(s, e))
    ensures Opens(GetToken(s, e).kind) == Flat(mode) && GetToken(s, e).next == e + |Op(mode)|
  {
    var op := Op(mode);
    assert s[e] == s[e..e + |op|][0] && (|op| == 2 ==> s[e + 1] == s[e..e + |op|][1]);
    StartsChar(s, e + |op|, file);
    assert Letter(file[0]);
    SkipNone(s, e + |op|);
  }

  lemma {:induction false} RoundRedirs(s: string, e: nat, rs: seq<(string, Mode)>) returns (fs: seq<(Span, Mode)>)
    requires NoNul(s) && Files(rs) && Starts(s, e, PrintRedirs(rs)) && Stop(s, e + |PrintRedirs(rs)|)
    ensures e <= |s| && Redirs(s, e) == Ok(fs, e + |PrintRedirs(rs)|) && SameFiles(s, fs, rs)
    decreases |rs|
  {
    hide *;
    RedirsAt(s, e, rs);
    if rs == [] {
      StopIs(s, e);
      RedirsNone(s, e);
      fs := [];
      NoFiles(s);
    } else {
      var f, file, rest := e + |Op(rs[0].1)|, rs[0].0, rs[1..];
      FilesCons(s, rs);
      RedirsAt(s, f + |file|, rest);
      WordAt(s, f, file);
      var more := RoundRedirs(s, f + |file|, rest);
      RedirsStep(s, e, GetToken(s, e), GetToken(s, f), more, e + |PrintRedirs(rs)|);
      fs := [(Span(f, f + |file|), Flat(rs[0].1))] + more;
      SameFilesCons(s, Span(f, f + |file|), more, rs);
    }
  }

  lemma NoFiles(s: string)
    ensures SameFiles(s, [], [])
  {
  }

  lemma FilesCons(s: string, rs: seq<(string, Mode)>)
    requires Files(rs) && rs != []
    ensures Files(rs[1..]) && Word(rs[0].0)
  {
  }

  lemma SameFilesCons(s: string, w: Span, fs: seq<(Span, Mode)>, rs: seq<(string, Mode)>)
    requires rs != [] && Text(s, w) == rs[0].0 && SameFiles(s, fs, rs[1..])
    ensures SameFiles(s, [(w, Flat(rs[0].1))] + fs, rs)
  {
    assert rs == [rs[0]] + rs[1..];
  }

  // Where the printed words ws start: at a space and a letter, or at what follows them.
  lemma WordsAt(s: string, e: nat, ws: seq<string>, x: string)
    requires NoNul(s) && ws != [] && Starts(s, e, PrintWords(ws) + x) && forall i :: 0 <= i < |ws| ==> Word(ws[i])
    ensures Starts(s, e + 1, ws[0]) && Starts(s, e + 1 + |ws[0]|, PrintWords(ws[1..]) + x) && Word(ws[0])
    ensures |PrintWords(ws)| == 1 + |ws[0]| + |PrintWords(ws[1..])|
    ensures e + 1 <= |s| && At(s, e) == ' ' && SkipWhite(s, e) == e + 1 && !Symbol(At(s, e + 1)) && Letter(At(s, e + 1))
  {
    var w, rest := ws[0], PrintWords(ws[1..]) + x;
    assert PrintWords(ws) + x == " " + (w + rest);
    StartsSplit(s, e, " ", w + rest);
    StartsSplit(s, e + 1, w, rest);
    StartsChar(s, e, " ");
    StartsChar(s, e + 1, w);
    assert Letter(w[0]);
    SkipOne(s, e);
  }

  lemma TextsCons(s: string, w: Span, ws: seq<Span>)
    ensures Texts(s, [w] + ws) == [Text(s, w)] + Texts(s, ws)
  {
  }

  lemma LetterIs(c: char)
    requires Letter(c)
    ensures c != '<' && c != '>' && c != '(' && !White(c)
  {
  }

  lemma SpaceIs()
    ensures !Letter(' ')
  {
  }

  // Words, the last of them followed by redirections.
  lemma {:induction false} RoundWords(s: string, p: nat, ws: seq<string>, n: nat, rs: seq<(string, Mode)>)
    returns (spans: seq<Span>, fs: seq<(Span, Mode)>)
    requires NoNul(s) && Starts(s, p, PrintWords(ws) + PrintRedirs(rs)) && Stop(s, p + |PrintWords(ws) + PrintRedirs(rs)|)
    requires n + |ws| < MAXARGS && Files(rs) && ws != [] && forall i :: 0 <= i < |ws| ==> Word(ws[i])
    ensures p <= |s| && Words(s, p, n) == Ok((spans, fs), p + |PrintWords(ws) + PrintRedirs(rs)|)
    ensures Texts(s, spans) == ws && SameFiles(s, fs, rs)
    decreases |ws|
  {
    hide *;
    var x := PrintRedirs(rs);
    var end := p + |PrintWords(ws) + x|;
    WordsAt(s, p, ws, x);
    var w, rest, e := ws[0], ws[1..], p + 1 + |ws[0]|;
    var none: seq<(Span, Mode)> := [];
    if rest == [] {
      assert ws == [w];
      spans, fs := LastWord(s, p, w, n, rs);
    } else {
      WordsAt(s, e, rest, x);
      SpaceIs();
      LetterIs(At(s, e + 1));
      WordAt(s, p + 1, w);
      RedirsSkip(s, e);
      RedirsNone(s, e);
      var more, gs := RoundWords(s, e, rest, n + 1, rs);
      WordsSkip(s, e, n + 1);
      spans, fs := [Span(p + 1, e)] + more, gs;
      TextsCons(s, Span(p + 1, e), more);
      assert none + gs == gs && ws == [w] + rest;
      WordsStep(s, p, n, GetToken(s, p + 1), none, SkipWhite(s, e), more, gs, end);
    }
  }

  lemma LastWord(s: string, p: nat, w: string, n: nat, rs: seq<(string, Mode)>) returns (spans: seq<Span>, fs: seq<(Span, Mode)>)
    requires NoNul(s) && Starts(s, p, PrintWords([w]) + PrintRedirs(rs)) && Stop(s, p + |PrintWords([w]) + PrintRedirs(rs)|)
    requires n + 1 < MAXARGS && Files(rs) && Word(w)
    ensures p <= |s| && Words(s, p, n) == Ok((spans, fs), p + |PrintWords([w]) + PrintRedirs(rs)|)
    ensures Texts(s, spans) == [w] && SameFiles(s, fs, rs)
  {
    hide *;
    var x, e := PrintRedirs(rs), p + 1 + |w|;
    var end := p + |PrintWords([w]) + x|;
    NoWords();
    WordsAt(s, p, [w], x);
    assert [w][1..] == [] && "" + x == x;
    RedirsAt(s, e, rs);
    WordAt(s, p + 1, w);
    fs := RoundRedirs(s, e, rs);
    WordsEnd(s, end, n + 1);
    spans := [Span(p + 1, e)];
    assert spans + [] == spans && fs + [] == fs;
    WordsStep(s, p, n, GetToken(s, p + 1), fs, end, [], [], end);
    TextsCons(s, Span(p + 1, e), []);
    NoTexts(s);
  }

  lemma NoWords()
    ensures PrintWords([]) == ""
  {
  }

  lemma NoTexts(s: string)
    ensures Texts(s, []) == []
  {
  }

  // A simple command with its redirections.
  lemma RoundSimple(s: string, p: nat, ws: seq<string>, rs: seq<(string, Mode)>) returns (spans: seq<Span>, fs: seq<(Span, Mode)>)
    requires NoNul(s) && Starts(s, p, PrintWords(ws) + PrintRedirs(rs)) && Stop(s, p + |PrintWords(ws) + PrintRedirs(rs)|)
    requires |ws| < MAXARGS && Files(rs) && forall i :: 0 <= i < |ws| ==> Word(ws[i])
    ensures p <= |s| && ExecAt(s, p) == Ok(Wrap(Exec(spans), fs), p + |PrintWords(ws) + PrintRedirs(rs)|)
    ensures Texts(s, spans) == ws && SameFiles(s, fs, rs)
  {
    hide *;
    var x := PrintRedirs(rs);
    var end := p + |PrintWords(ws) + x|;
    var none: seq<(Span, Mode)> := [];
    if ws == [] {
      assert PrintWords(ws) + x == x by { NoWords(); }
      RedirsAt(s, p, rs);
      fs := RoundRedirs(s, p, rs);
      WordsEnd(s, end, 0);
      spans := [];
      NoTexts(s);
      assert fs + none == fs;
      ExecWords(s, p, fs, end, spans, none, end);
    } else {
      WordsAt(s, p, ws, x);
      LetterIs(At(s, p + 1));
      RedirsSkip(s, p);
      RedirsNone(s, p);
      spans, fs := RoundWords(s, p, ws, 0, rs);
      WordsSkip(s, p, 0);
      assert none + fs == fs;
      ExecWords(s, p, none, SkipWhite(s, p), spans, fs, end);
    }
  }

  // --- blocks

  lemma Inside(s: string, p: nat, x: string)
    requires NoNul(s) && Starts(s, p, Paren(x))
    ensures p + |Paren(x)| <= |s| && s[p] == '(' && s[p + 1 + |x|] == ')'
    ensures Starts(s, p + 1, x) && StopAt(s, p + 1 + |x|, 3)
  {
    assert Paren(x) == "(" + (x + ")");
    StartsSplit(s, p, "(", x + ")");
    StartsSplit(s, p + 1, x, ")");
    StartsChar(s, p, "(");
    StartsChar(s, p + 1 + |x|, ")");
  }

  // A parenthesised line, with what redirects it.
  lemma BlockAt(s: string, p: nat, x: string, c: Cmd<Span>, rs: seq<(Span, Mode)>, f: nat)
    requires NoNul(s) && Starts(s, p, Paren(x)) && p + 1 <= |s| && Line(s, p + 1) == Ok(c, p + 1 + |x|)
    requires p + |Paren(x)| <= |s| && Redirs(s, p + |Paren(x)|) == Ok(rs, f)
    ensures ExecAt(s, p) == Ok(Wrap(c, rs), f)
  {
    hide *;
    Inside(s, p, x);
    var e := p + 1 + |x|;
    SymbolAt(s, p) by { ParenSymbols(); }
    SymbolAt(s, e) by { ParenSymbols(); }
    LineSkip(s, p + 1);
    RedirsSkip(s, e + 1);
    ExecBlock(s, p, c, e, rs, f);
  }

  lemma ParenSymbols()
    ensures Symbol('(') && Symbol(')')
  {
  }

  lemma WrapNone(c: Cmd<Span>)
    ensures Wrap(c, []) == c
  {
  }

  // A block on its own.
  lemma PlainBlock(s: string, p: nat, x: string, c: Cmd<Span>)
    requires NoNul(s) && Starts(s, p, Paren(x)) && Stop(s, p + |Paren(x)|)
    requires p + 1 <= |s| && Line(s, p + 1) == Ok(c, p + 1 + |x|)
    ensures ExecAt(s, p) == Ok(c, p + |Paren(x)|)
  {
    hide *;
    StopIs(s, p + |Paren(x)|);
    WrapNone(c);
    RedirsNone(s, p + |Paren(x)|);
    BlockAt(s, p, x, c, [], p + |Paren(x)|);
  }

  // --- redirections of a command

  // The command the redirections at the end of c's text are for.  It is printed in
  // parentheses unless it is a simple command reached through bare ones.
  function Base(c: Cmd<string>, extra: Extra): (b: Cmd<string>)
    requires Level(c) == 0
    ensures Simple(c, extra) ==> b.Exec?
    ensures !Simple(c, extra) ==> b < c
  {
    match c
    case Exec(_) => c
    case Redir(d, _, _) => if Bare(d, 0, extra) then Base(d, extra) else d
  }

  predicate Simple(c: Cmd<string>, extra: Extra)
    requires Level(c) == 0
  {
    match c
    case Exec(_) => true
    case Redir(d, _, _) => Bare(d, 0, extra) && Simple(d, extra)
  }

  function Outer(c: Cmd<string>, extra: Extra): (rs: seq<(string, Mode)>)
    requires Level(c) == 0
  {
    match c
    case Exec(_) => []
    case Redir(d, file, mode) => (if Bare(d, 0, extra) then Outer(d, extra) else []) + [(file, mode)]
  }

  function Head(c: Cmd<string>, extra: Extra): (x: string)
    requires Level(c) == 0
  {
    if Simple(c, extra) then PrintWords(Base(c, extra).args) else Paren(Print(Base(c, extra), extra))
  }

  lemma {:induction false} PrintRedirsSnoc(rs: seq<(string, Mode)>, file: string, mode: Mode)
    ensures PrintRedirs(rs + [(file, mode)]) == PrintRedirs(rs) + (Op(mode) + file)
  {
    if rs == [] {
      assert rs + [(file, mode)] == [(file, mode)] && [(file, mode)][1..] == [];
    } else {
      assert (rs + [(file, mode)])[1..] == rs[1..] + [(file, mode)];
      PrintRedirsSnoc(rs[1..], file, mode);
    }
  }

  lemma {:induction false} HeadAndRedirs(c: Cmd<string>, extra: Extra)
    requires Level(c) == 0
    ensures Print(c, extra) == Head(c, extra) + PrintRedirs(Outer(c, extra))
    ensures Legal(c) ==> Legal(Base(c, extra)) && Files(Outer(c, extra))
    decreases c
  {
    match c
    case Exec(_) =>
    case Redir(d, file, mode) =>
      if Bare(d, 0, extra) {
        HeadAndRedirs(d, extra);
        PrintRedirsSnoc(Outer(d, extra), file, mode);
        assert Head(c, extra) == Head(d, extra);
      } else {
        PrintRedirsSnoc([], file, mode);
        assert [] + [(file, mode)] == Outer(c, extra);
      }
  }

  // Redirections as parsed around the base as parsed mean the command.
  lemma {:induction false} OuterMeans(s: string, c: Cmd<string>, extra: Extra, t: Cmd<Span>, fs: seq<(Span, Mode)>)
    requires Level(c) == 0 && Meaning(s, t) == Flatten(Base(c, extra)) && SameFiles(s, fs, Outer(c, extra))
    ensures Meaning(s, Wrap(t, fs)) == Flatten(c)
    decreases c
  {
    match c
    case Exec(_) =>
    case Redir(d, file, mode) =>
      var n := |fs| - 1;
      if Bare(d, 0, extra) {
        assert Outer(c, extra)[..n] == Outer(d, extra);
        OuterMeans(s, d, extra, t, fs[..n]);
      } else {
        assert Wrap(t, fs[..n]) == t;
      }
  }

  // --- every level

  // Parsing at p for level k gives t and the cursor e.  For level 2: the ampersands after
  // the pipe at p are those from e on, after t.
  predicate Gives(s: string, p: nat, k: nat, t: Cmd<Span>, e: nat)
    requires NoNul(s)
  {
    && p <= |s| && e <= |s|
    && if k == 0 then ExecAt(s, p) == Ok(t, e)
       else if k == 1 then PipeAt(s, p) == Ok(t, e)
       else if k == 2 then PipeAt(s, p).Ok? && Backs(s, PipeAt(s, p).next, PipeAt(s, p).value) == Backs(s, e, t)
       else Line(s, p) == Ok(t, e)
  }

  // A command is one of the next level, if what follows does not go on with it.
  lemma Promote(s: string, p: nat, k: nat, t: Cmd<Span>, e: nat)
    requires NoNul(s) && k < 3 && Gives(s, p, k, t, e) && StopAt(s, e, k + 1)
    ensures Gives(s, p, k + 1, t, e)
  {
    StopIs(s, e);
    if k == 0 {
      PipeEnd(s, p, t, e);
      hide ExecAt, PipeAt;
    } else if k == 1 {
      hide ExecAt, PipeAt, Backs;
    } else {
      BacksEnd(s, e, t);
      LineEnd(s, p, t, e);
      hide PipeAt, Backs, Line;
    }
  }

  lemma {:induction false} PromoteTo(s: string, p: nat, j: nat, k: nat, t: Cmd<Span>, e: nat)
    requires NoNul(s) && j <= k <= 3 && Gives(s, p, j, t, e) && StopAt(s, e, k)
    ensures Gives(s, p, k, t, e)
    decreases k - j
  {
    hide Gives, Stop;
    if j < k {
      Promote(s, p, j, t, e);
      PromoteTo(s, p, j + 1, k, t, e);
    }
  }

  lemma GivesMeans(s: string, p: nat, k: nat, t: Cmd<Span>, e: nat)
    requires NoNul(s) && Gives(s, p, k, t, e)
    ensures p <= |s| && e <= |s|
    ensures k == 0 ==> ExecAt(s, p) == Ok(t, e)
    ensures k == 1 ==> PipeAt(s, p) == Ok(t, e)
    ensures k == 2 ==> PipeAt(s, p).Ok? && Backs(s, PipeAt(s, p).next, PipeAt(s, p).value) == Backs(s, e, t)
    ensures k >= 3 ==> Line(s, p) == Ok(t, e)
  {
  }

  lemma GivesIf(s: string, p: nat, k: nat, t: Cmd<Span>, e: nat)
    requires NoNul(s) && p <= |s| && e <= |s|
    requires k == 0 ==> ExecAt(s, p) == Ok(t, e)
    requires k == 1 ==> PipeAt(s, p) == Ok(t, e)
    requires k == 2 ==> PipeAt(s, p).Ok? && Backs(s, PipeAt(s, p).next, PipeAt(s, p).value) == Backs(s, e, t)
    requires k >= 3 ==> Line(s, p) == Ok(t, e)
    ensures Gives(s, p, k, t, e)
  {
  }

  // What stops a command of some level stops those of lower ones.
  lemma StopLower(s: string, e: nat, j: nat, k: nat)
    requires StopAt(s, e, k) && j <= k
    ensures StopAt(s, e, j) && Stop(s, e) && e <= |s|
  {
  }

  // A command at a place for level k, in parentheses or not.
  lemma {:induction false} RoundPut(s: string, p: nat, c: Cmd<string>, k: nat, extra: Extra) returns (t: Cmd<Span>)
    requires NoNul(s) && Legal(c) && k <= 3 && Starts(s, p, Put(c, k, extra)) && StopAt(s, p + |Put(c, k, extra)|, k)
    ensures Gives(s, p, k, t, p + |Put(c, k, extra)|) && Meaning(s, t) == Flatten(c)
    decreases c, 1
  {
    hide *;
    var e := p + |Put(c, k, extra)|;
    PutIs(c, k, extra);
    if Bare(c, k, extra) {
      StopLower(s, e, Level(c), k);
      t := RoundOwn(s, p, c, extra);
      PromoteTo(s, p, Level(c), k, t, e);
    } else {
      var x := Print(c, extra);
      Inside(s, p, x);
      LevelIs(c);
      StopLower(s, p + 1 + |x|, Level(c), 3);
      t := RoundOwn(s, p + 1, c, extra);
      PromoteTo(s, p + 1, Level(c), 3, t, p + 1 + |x|);
      GivesMeans(s, p + 1, 3, t, p + 1 + |x|);
      StopLower(s, e, 0, k);
      PlainBlock(s, p, x, t);
      GivesIf(s, p, 0, t, e);
      PromoteTo(s, p, 0, k, t, e);
    }
  }

  lemma LevelIs(c: Cmd<string>)
    ensures Level(c) <= 3
  {
  }

  lemma PutIs(c: Cmd<string>, k: nat, extra: Extra)
    ensures Put(c, k, extra) == if Bare(c, k, extra) then Print(c, extra) else Paren(Print(c, extra))
    ensures Bare(c, k, extra) ==> Level(c) <= k
  {
  }

  // A command where its own level fits.
  lemma {:induction false} RoundOwn(s: string, p: nat, c: Cmd<string>, extra: Extra) returns (t: Cmd<Span>)
    requires NoNul(s) && Legal(c) && Starts(s, p, Print(c, extra)) && StopAt(s, p + |Print(c, extra)|, Level(c))
    ensures Gives(s, p, Level(c), t, p + |Print(c, extra)|) && Meaning(s, t) == Flatten(c)
    decreases c, 0
  {
    hide *;
    LegalParts(c);
    StopLower(s, p + |Print(c, extra)|, 0, Level(c));
    match c
    case Exec(_) => t := RoundRedirected(s, p, c, extra);
    case Redir(_, _, _) => t := RoundRedirected(s, p, c, extra);
    case Pipe(l, r) => t := RoundPipe(s, p, l, r, extra);
    case List(l, r) => t := RoundList(s, p, l, r, extra);
    case Back(d) => t := RoundBack(s, p, d, extra);
  }

  lemma {:induction false} RoundRedirected(s: string, p: nat, c: Cmd<string>, extra: Extra) returns (t: Cmd<Span>)
    requires NoNul(s) && Legal(c) && Level(c) == 0 && Starts(s, p, Print(c, extra)) && Stop(s, p + |Print(c, extra)|)
    ensures Gives(s, p, 0, t, p + |Print(c, extra)|) && Meaning(s, t) == Flatten(c)
    decreases c, 0, 0
  {
    hide *;
    var b, rs, e := Base(c, extra), Outer(c, extra), p + |Print(c, extra)|;
    HeadAndRedirs(c, extra);
    HeadIs(c, extra);
    if Simple(c, extra) {
      ExecParts(b);
      var spans, fs := RoundSimple(s, p, b.args, rs);
      t := Wrap(Exec(spans), fs);
      ExecMeans(s, spans, b);
      OuterMeans(s, c, extra, Exec(spans), fs);
    } else {
      var x := Print(b, extra);
      StartsSplit(s, p, Paren(x), PrintRedirs(rs));
      Inside(s, p, x);
      var f := p + |Paren(x)|;
      LevelIs(b);
      StopLower(s, p + 1 + |x|, Level(b), 3);
      var u := RoundOwn(s, p + 1, b, extra);
      PromoteTo(s, p + 1, Level(b), 3, u, p + 1 + |x|);
      GivesMeans(s, p + 1, 3, u, p + 1 + |x|);
      var fs := RoundRedirs(s, f, rs);
      BlockAt(s, p, x, u, fs, e);
      t := Wrap(u, fs);
      OuterMeans(s, c, extra, u, fs);
    }
    GivesIf(s, p, 0, t, e);
  }

  lemma HeadIs(c: Cmd<string>, extra: Extra)
    requires Level(c) == 0
    ensures Simple(c, extra) ==> Base(c, extra).Exec? && Head(c, extra) == PrintWords(Base(c, extra).args)
    ensures !Simple(c, extra) ==> Head(c, extra) == Paren(Print(Base(c, extra), extra)) && Base(c, extra) < c
  {
    hide Print;
  }

  lemma ExecParts(c: Cmd<string>)
    requires Legal(c) && c.Exec?
    ensures |c.args| < MAXARGS && forall i :: 0 <= i < |c.args| ==> Word(c.args[i])
  {
  }

  lemma ExecMeans(s: string, spans: seq<Span>, c: Cmd<string>)
    requires c.Exec? && Texts(s, spans) == c.args
    ensures Meaning(s, Exec(spans)) == Flatten(c)
  {
  }

  // Two commands with an operator between them.
  lemma TwoParts(s: string, p: nat, x: string, op: string, y: string)
    requires NoNul(s) && (op == "|" || op == ";") && Starts(s, p, x + op + y)
    ensures var e := p + |x|; Starts(s, p, x) && e < |s| && s[e] == op[0] == At(s, e) && Starts(s, e + 1, y) && Stop(s, e)
    ensures |x + op + y| == |x| + 1 + |y|
  {
    assert x + op + y == x + (op + y);
    StartsSplit(s, p, x, op + y);
    StartsSplit(s, p + |x|, op, y);
    StartsChar(s, p + |x|, op);
  }

  lemma OperatorStops(s: string, e: nat)
    requires Stop(s, e)
    ensures At(s, e) == '|' ==> StopAt(s, e, 0)
    ensures At(s, e) == ';' || At(s, e) == '&' ==> StopAt(s, e, 2)
  {
  }

  lemma {:induction false} RoundPipe(s: string, p: nat, l: Cmd<string>, r: Cmd<string>, extra: Extra) returns (t: Cmd<Span>)
    requires NoNul(s) && Legal(l) && Legal(r)
    requires Starts(s, p, Print(Pipe(l, r), extra)) && StopAt(s, p + |Print(Pipe(l, r), extra)|, 1)
    ensures Gives(s, p, 1, t, p + |Print(Pipe(l, r), extra)|) && Meaning(s, t) == Flatten(Pipe(l, r))
    decreases Pipe(l, r), 0, 0
  {
    hide *;
    PipeNode(s, Exec([]), Exec([]), l, r, extra);
    var x, y := Put(l, 0, extra), Put(r, 1, extra);
    var e := p + |x|;
    TwoParts(s, p, x, "|", y);
    OperatorStops(s, e);
    var c := RoundPut(s, p, l, 0, extra);
    var d := RoundPut(s, e + 1, r, 1, extra);
    GivesMeans(s, p, 0, c, e);
    GivesMeans(s, e + 1, 1, d, e + 1 + |y|);
    OperatorToken(s, e);
    PipeSkip(s, e + 1);
    PipeStep(s, p, c, e, d, e + 1 + |y|);
    t := Pipe(c, d);
    PipeNode(s, c, d, l, r, extra);
    GivesIf(s, p, 1, t, e + 1 + |y|);
  }

  lemma OperatorToken(s: string, e: nat)
    requires NoNul(s) && e < |s| && (s[e] == '|' || s[e] == ';')
    ensures SkipWhite(s, e) == e && At(s, e) == s[e] && GetToken(s, e).next == SkipWhite(s, e + 1)
  {
    SymbolAt(s, e);
  }

  lemma {:induction false} RoundList(s: string, p: nat, l: Cmd<string>, r: Cmd<string>, extra: Extra) returns (t: Cmd<Span>)
    requires NoNul(s) && Legal(l) && Legal(r)
    requires Starts(s, p, Print(List(l, r), extra)) && StopAt(s, p + |Print(List(l, r), extra)|, 3)
    ensures Gives(s, p, 3, t, p + |Print(List(l, r), extra)|) && Meaning(s, t) == Flatten(List(l, r))
    decreases List(l, r), 0, 0
  {
    hide *;
    ListNode(s, Exec([]), Exec([]), l, r, extra);
    var x, y := Put(l, 2, extra), Put(r, 3, extra);
    var e := p + |x|;
    TwoParts(s, p, x, ";", y);
    OperatorStops(s, e);
    var c := RoundPut(s, p, l, 2, extra);
    var d := RoundPut(s, e + 1, r, 3, extra);
    GivesMeans(s, p, 2, c, e);
    GivesMeans(s, e + 1, 3, d, e + 1 + |y|);
    BacksEnd(s, e, c);
    LineStep(s, p, c, e, d, e + 1 + |y|);
    t := List(c, d);
    ListNode(s, c, d, l, r, extra);
    GivesIf(s, p, 3, t, e + 1 + |y|);
  }

  lemma {:induction false} RoundBack(s: string, p: nat, d: Cmd<string>, extra: Extra) returns (t: Cmd<Span>)
    requires NoNul(s) && Legal(d) && Starts(s, p, Print(Back(d), extra)) && StopAt(s, p + |Print(Back(d), extra)|, 2)
    ensures Gives(s, p, 2, t, p + |Print(Back(d), extra)|) && Meaning(s, t) == Flatten(Back(d))
    decreases Back(d), 0, 0
  {
    hide *;
    BackNode(s, Exec([]), d, extra);
    var x := Put(d, 2, extra);
    var e := p + |x|;
    StartsSplit(s, p, x, "&");
    AmpersandAt(s, e);
    var c := RoundPut(s, p, d, 2, extra);
    GivesMeans(s, p, 2, c, e);
    BacksStep(s, e, c);
    t := Back(c);
    BackNode(s, c, d, extra);
    GivesIf(s, p, 2, t, e + 1);
  }

  lemma AmpersandAt(s: string, e: nat)
    requires Starts(s, e, "&")
    ensures e < |s| && s[e] == '&' && StopAt(s, e, 2)
  {
    StartsChar(s, e, "&");
  }

  // What printing and reading do to each kind of node.
  lemma PipeNode(s: string, t: Cmd<Span>, u: Cmd<Span>, l: Cmd<string>, r: Cmd<string>, extra: Extra)
    ensures Print(Pipe(l, r), extra) == Put(l, 0, extra) + "|" + Put(r, 1, extra)
    ensures Meaning(s, Pipe(t, u)) == Pipe(Meaning(s, t), Meaning(s, u))
    ensures Flatten(Pipe(l, r)) == Pipe(Flatten(l), Flatten(r))
  {
  }

  lemma ListNode(s: string, t: Cmd<Span>, u: Cmd<Span>, l: Cmd<string>, r: Cmd<string>, extra: Extra)
    ensures Print(List(l, r), extra) == Put(l, 2, extra) + ";" + Put(r, 3, extra)
    ensures Meaning(s, List(t, u)) == List(Meaning(s, t), Meaning(s, u))
    ensures Flatten(List(l, r)) == List(Flatten(l), Flatten(r))
  {
  }

  lemma BackNode(s: string, t: Cmd<Span>, d: Cmd<string>, extra: Extra)
    ensures Print(Back(d), extra) == Put(d, 2, extra) + "&"
    ensures Meaning(s, Back(t)) == Back(Meaning(s, t))
    ensures Flatten(Back(d)) == Back(Flatten(d))
  {
  }

  lemma LegalParts(c: Cmd<string>)
    requires Legal(c)
    ensures Level(c) == match c
                        case Exec(_) => 0
                        case Redir(_, _, _) => 0
                        case Pipe(_, _) => 1
                        case Back(_) => 2
                        case List(_, _) => 3
    ensures match c
            case Exec(_) => true
            case Redir(d, file, _) => Legal(d) && Word(file)
            case Pipe(l, r) => Legal(l) && Legal(r)
            case List(l, r) => Legal(l) && Legal(r)
            case Back(d) => Legal(d)
  {
  }

  lemma NoNulParts(x: string, y: string, z: string)
    requires NoNul(x) && NoNul(y) && NoNul(z)
    ensures NoNul(x + y + z) && NoNul(x + y) && NoNul(Paren(x))
  {
  }

  lemma NoNulWord(w: string, m: Mode)
    requires Word(w)
    ensures NoNul(Op(m) + w)
  {
  }

  lemma NoNulOperators()
    ensures NoNul("|") && NoNul(";") && NoNul("&") && NoNul("")
  {
  }

  lemma {:induction false} PutNoNul(c: Cmd<string>, k: nat, extra: Extra)
    requires Legal(c)
    ensures NoNul(Put(c, k, extra))
    decreases c, 1
  {
    hide *;
    PrintNoNul(c, extra);
    NoNulOperators();
    NoNulParts(Print(c, extra), "", "");
    PutIs(c, k, extra);
  }

  lemma {:induction false} PrintNoNul(c: Cmd<string>, extra: Extra)
    requires Legal(c)
    ensures NoNul(Print(c, extra))
    decreases c, 0
  {
    hide Put, NoNul, PrintWords, Op;
    NoNulOperators();
    match c
    case Exec(args) => WordsNoNul(args);
    case Redir(d, file, mode) =>
      PutNoNul(d, 0, extra);
      NoNulWord(file, mode);
      NoNulParts(Put(d, 0, extra), Op(mode) + file, "");
    case Pipe(l, r) =>
      PutNoNul(l, 0, extra);
      PutNoNul(r, 1, extra);
      NoNulParts(Put(l, 0, extra), "|", Put(r, 1, extra));
    case List(l, r) =>
      PutNoNul(l, 2, extra);
      PutNoNul(r, 3, extra);
      NoNulParts(Put(l, 2, extra), ";", Put(r, 3, extra));
    case Back(d) =>
      PutNoNul(d, 2, extra);
      NoNulParts(Put(d, 2, extra), "&", "");
  }

  lemma {:induction false} WordsNoNul(ws: seq<string>)
    requires forall i :: 0 <= i < |ws| ==> Word(ws[i])
    ensures NoNul(PrintWords(ws))
  {
    if ws != [] {
      WordsNoNul(ws[1..]);
    }
  }

  // Parsing a printed command, with whatever parentheses beyond those it needs, gives it
  // back, but for its appends: those come back as writes.  So it comes back exactly if it
  // has none.
  lemma RoundTrip(c: Cmd<string>, extra: Extra)
    requires Legal(c)
    ensures NoNul(Print(c, extra)) && ParseCmd(Print(c, extra)).Ok?
    ensures Meaning(Print(c, extra), ParseCmd(Print(c, extra)).value) == Flatten(c)
    ensures Meaning(Print(c, extra), ParseCmd(Print(c, extra)).value) == c <==> !Appends(c)
  {
    var s := Print(c, extra);
    PrintNoNul(c, extra);
    FlattenKeeps(c);
    assert s[0..|s|] == s && Starts(s, 0, s) && StopAt(s, |s|, 3);
    hide Print, Line, Meaning, Flatten, Appends, Gives, Starts, StopAt, NoNul, Level;
    LevelIs(c);
    StopLower(s, |s|, Level(c), 3);
    var t := RoundOwn(s, 0, c, extra);
    PromoteTo(s, 0, Level(c), 3, t, |s|);
    GivesMeans(s, 0, 3, t, |s|);
  }

  // --- the edges of the round trip --------------------------------------------------------------

  lemma WordsFull(s: string, p: nat, n: nat, tok: Token)
    requires NoNul(s) && p <= |s| && tok == GetToken(s, SkipWhite(s, p)) && tok.kind == 'a'
    requires !Symbol(At(s, SkipWhite(s, p)))
    ensures n + 1 >= MAXARGS ==> Words(s, p, n) == Err(TooManyArgs)
    ensures forall e: nat :: n + 1 < MAXARGS && Redirs(s, tok.next) == Ok([], e) && e <= |s| && Words(s, e, n + 1).Err?
              ==> Words(s, p, n) == Words(s, e, n + 1)
  {
    hide Redirs, GetToken, SkipWhite;
  }

  lemma {:induction false} TooManyWords(s: string, p: nat, ws: seq<string>, n: nat)
    requires NoNul(s) && Starts(s, p, PrintWords(ws)) && Stop(s, p + |PrintWords(ws)|)
    requires n < MAXARGS <= n + |ws| && forall i :: 0 <= i < |ws| ==> Word(ws[i])
    ensures p <= |s| && Words(s, p, n) == Err(TooManyArgs)
    decreases |ws|
  {
    hide *;
    var w, rest, e := ws[0], ws[1..], p + 1 + |ws[0]|;
    assert PrintWords(ws) + "" == PrintWords(ws) && PrintWords(rest) + "" == PrintWords(rest);
    WordsAt(s, p, ws, "");
    if rest == [] {
      NoWords();
      StopIs(s, e);
    } else {
      WordsAt(s, e, rest, "");
      SpaceIs();
    }
    WordAt(s, p + 1, w);
    WordsFull(s, p, n, GetToken(s, p + 1));
    if n + 1 < MAXARGS {
      LetterIs(At(s, e + 1));
      RedirsSkip(s, e);
      RedirsNone(s, e);
      TooManyWords(s, e, rest, n + 1);
      WordsSkip(s, e, n + 1);
    }
  }

  // Ten words or more are refused, however they are printed together.
  lemma TenAreTooMany(ws: seq<string>)
    requires |ws| >= MAXARGS && forall i :: 0 <= i < |ws| ==> Word(ws[i])
    ensures NoNul(PrintWords(ws)) && ParseCmd(PrintWords(ws)) == Err(TooManyArgs)
  {
    hide PrintWords, Words, Redirs, SkipWhite, GetToken, Word, Letter;
    WordsNoNul(ws);
    var s := PrintWords(ws);
    assert s[0..|s|] == s && s + "" == s;
    WordsAt(s, 0, ws, "");
    LetterIs(At(s, 1));
    TooManyWords(s, 0, ws, 0);
    RedirsSkip(s, 0);
    RedirsNone(s, 0);
    WordsSkip(s, 0, 0);
    assert ExecAt(s, 0) == Err(TooManyArgs);
    assert PipeAt(s, 0) == Err(TooManyArgs);
    assert Line(s, 0) == Err(TooManyArgs);
  }
}
