/**
 The parser of xv6/sh.c as it runs: a cursor moved over the input, and the input
 cut into C strings in place once the tree is built.  Each method computes what the
 function of Shell with the same task says.
 */
module ShellParser {
  import opened Shell

  // Results put after what was read before them.
  function AfterRedirs(acc: seq<(Span, Mode)>, r: Parsed<seq<(Span, Mode)>>): (r': Parsed<seq<(Span, Mode)>>)
  {
    if r.Err? then r else Ok(acc + r.value, r.next)
  }

  function AfterWords(ws: seq<Span>, rs: seq<(Span, Mode)>, r: Parsed<(seq<Span>, seq<(Span, Mode)>)>)
    : (r': Parsed<(seq<Span>, seq<(Span, Mode)>)>)
  {
    if r.Err? then r else Ok((ws + r.value.0, rs + r.value.1), r.next)
  }

  lemma RedirsTurn(s: string, p: nat, acc: seq<(Span, Mode)>, tok: Token, w: Token)
    requires NoNul(s) && p <= |s| && (At(s, SkipWhite(s, p)) == '<' || At(s, SkipWhite(s, p)) == '>')
    requires tok == GetToken(s, SkipWhite(s, p)) && w == GetToken(s, tok.next)
    ensures w.kind != 'a' ==> AfterRedirs(acc, Redirs(s, p)) == Err(MissingFile)
    ensures w.kind == 'a' ==>
      AfterRedirs(acc + [(Span(w.q, w.eq), Opens(tok.kind))], Redirs(s, w.next)) == AfterRedirs(acc, Redirs(s, p))
    ensures p < w.next || w.kind != 'a'
  {
    hide GetToken, SkipWhite, NoNul;
    var one := [(Span(w.q, w.eq), Opens(tok.kind))];
    if w.kind == 'a' && Redirs(s, w.next).Ok? {
      assert (acc + one) + Redirs(s, w.next).value == acc + (one + Redirs(s, w.next).value);
    }
  }

  lemma RedirsFirst(s: string, p: nat)
    requires NoNul(s) && p <= |s|
    ensures AfterRedirs([], Redirs(s, SkipWhite(s, p))) == Redirs(s, p) && SkipWhite(s, SkipWhite(s, p)) == SkipWhite(s, p)
  {
    SkipTwice(s, p);
    var r := Redirs(s, p);
    assert r.Ok? ==> [] + r.value == r.value;
  }

  lemma RedirsOver(s: string, p: nat, acc: seq<(Span, Mode)>)
    requires NoNul(s) && p <= |s| && At(s, SkipWhite(s, p)) != '<' && At(s, SkipWhite(s, p)) != '>'
    ensures AfterRedirs(acc, Redirs(s, p)) == Ok(acc, SkipWhite(s, p))
  {
    assert acc + [] == acc;
  }

  lemma WordsTurn(s: string, p: nat, ws: seq<Span>, rs: seq<(Span, Mode)>, tok: Token, more: Parsed<seq<(Span, Mode)>>)
    requires NoNul(s) && p <= |s| && !Ends(At(s, SkipWhite(s, p)))
    requires tok == GetToken(s, SkipWhite(s, p)) && more == Redirs(s, tok.next)
    ensures tok.kind == '\0' ==> Words(s, p, |ws|).Ok? && AfterWords(ws, rs, Words(s, p, |ws|)) == Ok((ws, rs), tok.next)
    ensures tok.kind != '\0' && tok.kind != 'a' ==> Words(s, p, |ws|) == Err(Syntax)
    ensures tok.kind == 'a' && |ws| + 1 >= MAXARGS ==> Words(s, p, |ws|) == Err(TooManyArgs)
    ensures tok.kind == 'a' && |ws| + 1 < MAXARGS && more.Err? ==> Words(s, p, |ws|) == Err(more.error)
    ensures tok.kind == 'a' && |ws| + 1 < MAXARGS && more.Ok? ==>
      && p < more.next
      && AfterWords(ws + [Span(tok.q, tok.eq)], rs + more.value, Words(s, more.next, |ws| + 1)) == AfterWords(ws, rs, Words(s, p, |ws|))
  {
    hide Redirs, GetToken, SkipWhite;
    assert ws + [] == ws && rs + [] == rs;
    if tok.kind == 'a' && |ws| + 1 < MAXARGS && more.Ok? {
      var w, rest := [Span(tok.q, tok.eq)], Words(s, more.next, |ws| + 1);
      if rest.Ok? {
        assert (ws + w) + rest.value.0 == ws + (w + rest.value.0);
        assert (rs + more.value) + rest.value.1 == rs + (more.value + rest.value.1);
      }
    }
  }

  // The tokens that end parseexec's loop.
  predicate Ends(c: char) { c == '|' || c == ')' || c == '&' || c == ';' }

  lemma WordsOver(s: string, p: nat, ws: seq<Span>, rs: seq<(Span, Mode)>)
    requires NoNul(s) && p <= |s| && Ends(At(s, SkipWhite(s, p)))
    ensures Words(s, p, |ws|).Ok? && AfterWords(ws, rs, Words(s, p, |ws|)) == Ok((ws, rs), SkipWhite(s, p))
  {
    assert ws + [] == ws && rs + [] == rs;
  }

  class Parser {
    const s: string
    var ps: nat

    constructor (s: string)
      requires NoNul(s)
      ensures this.s == s && ps == 0
    {
      this.s, ps := s, 0;
    }

    method PastWhite(p: nat) returns (r: nat)
      requires p <= |s|
      ensures r == SkipWhite(s, p)
    {
      r := p;
      while r < |s| && White(s[r])
        invariant r <= |s| && SkipWhite(s, r) == SkipWhite(s, p)
      {
        r := r + 1;
      }
    }

    method PastWord(p: nat) returns (r: nat)
      requires p <= |s|
      ensures r == SkipWord(s, p)
    {
      r := p;
      while r < |s| && !White(s[r]) && !Symbol(s[r])
        invariant r <= |s| && SkipWord(s, r) == SkipWord(s, p)
      {
        r := r + 1;
      }
    }

    method Gettoken() returns (tok: Token)
      requires NoNul(s) && ps <= |s|
      modifies this`ps
      ensures ps <= |s| && tok == GetToken(s, old(ps)) && ps == tok.next
    {
      hide SkipWhite, SkipWord;
      var q := PastWhite(ps);
      var eq := q;
      var kind := if q < |s| then s[q] else '\0';
      if q == |s| {
      } else if kind == '|' || kind == '(' || kind == ')' || kind == ';' || kind == '&' || kind == '<' {
        eq := q + 1;
      } else if kind == '>' {
        eq := q + 1;
        if eq < |s| && s[eq] == '>' {
          kind := '+';
          eq := eq + 1;
        }
      } else {
        kind := 'a';
        eq := PastWord(q);
      }
      SkipNone(s, q);
      ps := PastWhite(eq);
      tok := Token(kind, q, eq, ps);
    }

    method Peek(toks: string) returns (found: bool)
      requires NoNul(s) && ps <= |s|
      modifies this`ps
      ensures ps <= |s| && ps == SkipWhite(s, old(ps))
      ensures found <==> ps < |s| && s[ps] in toks
    {
      ps := PastWhite(ps);
      found := ps < |s| && s[ps] in toks;
    }

    method Parseredirs() returns (r: Parsed<seq<(Span, Mode)>>)
      requires NoNul(s) && ps <= |s|
      modifies this`ps
      ensures ps <= |s| && r == Redirs(s, old(ps)) && (r.Ok? ==> ps == r.next)
    {
      hide Redirs, Words, GetToken, SkipWhite, AfterRedirs, NoNul;
      var rs := [];
      RedirsFirst(s, ps);
      var more := Peek("<>");
      while more
        invariant ps <= |s| && AfterRedirs(rs, Redirs(s, ps)) == Redirs(s, old(ps))
        invariant ps == SkipWhite(s, ps) && (more <==> ps < |s| && s[ps] in "<>")
        decreases |s| - ps
      {
        ghost var p := ps;
        var tok := Gettoken();
        var w := Gettoken();
        RedirsTurn(s, p, rs, tok, w);
        if w.kind != 'a' {
          return Err(MissingFile);
        }
        rs := rs + [(Span(w.q, w.eq), Opens(tok.kind))];
        RedirsSkip(s, ps);
        SkipTwice(s, ps);
        more := Peek("<>");
      }
      RedirsOver(s, ps, rs);
      r := Ok(rs, ps);
    }

    // parseexec without parseblock: words and redirections.
    method Parsewords() returns (r: Parsed<Cmd<Span>>)
      requires NoNul(s) && ps <= |s| && ps == SkipWhite(s, ps) && At(s, ps) != '('
      modifies this`ps
      ensures ps <= |s| && r == ExecAt(s, old(ps)) && (r.Ok? ==> ps == r.next)
    {
      hide Redirs, Words, GetToken, SkipWhite, AfterRedirs, AfterWords, NoNul, Wrap, Line;
      var rs := Parseredirs();
      if rs.Err? {
        return Err(rs.error);
      }
      var argv, files := [], rs.value;
      WordsFirst(s, ps, files);
      ghost var start := ps;
      var done := Peek("|)&;");
      while !done
        invariant ps <= |s| && AfterWords(argv, files, Words(s, ps, |argv|)) == AfterWords([], rs.value, Words(s, start, 0))
        invariant ps == SkipWhite(s, ps) && (done <==> Ends(At(s, ps)))
        decreases |s| - ps
      {
        ghost var p := ps;
        var tok := Gettoken();
        WordsTurn(s, p, argv, files, tok, Redirs(s, tok.next));
        WordsIn(s, start, rs.value, argv, files, p);
        if tok.kind == '\0' {
          return Ok(Wrap(Exec(argv), files), ps);
        }
        if tok.kind != 'a' {
          return Err(Syntax);
        }
        argv := argv + [Span(tok.q, tok.eq)];
        if |argv| >= MAXARGS {
          return Err(TooManyArgs);
        }
        var more := Parseredirs();
        if more.Err? {
          return Err(more.error);
        }
        files := files + more.value;
        WordsSkip(s, ps, |argv|);
        SkipTwice(s, ps);
        done := Peek("|)&;");
      }
      WordsIn(s, start, rs.value, argv, files, ps);
      WordsOver(s, ps, argv, files);
      r := Ok(Wrap(Exec(argv), files), ps);
    }

    method Parseexec() returns (r: Parsed<Cmd<Span>>)
      requires NoNul(s) && ps <= |s|
      modifies this`ps
      ensures ps <= |s| && r == ExecAt(s, old(ps)) && (r.Ok? ==> ps == r.next)
      decreases |s| - ps, 1
    {
      hide Redirs, Words, GetToken, SkipWhite, NoNul, Wrap, Line;
      ExecSkip(s, ps);
      SkipTwice(s, ps);
      var block := Peek("(");
      if block {
        r := Parseblock();
      } else {
        r := Parsewords();
      }
    }

    method Parseblock() returns (r: Parsed<Cmd<Span>>)
      requires NoNul(s) && ps < |s| && s[ps] == '(' && ps == SkipWhite(s, ps)
      modifies this`ps
      ensures ps <= |s| && r == ExecAt(s, old(ps)) && (r.Ok? ==> ps == r.next)
      decreases |s| - ps, 0
    {
      hide Redirs, Words, GetToken, SkipWhite, NoNul, Wrap, Line;
      Past(s, ps);
      var tok := Gettoken();
      var c := Parseline();
      if c.Err? {
        return c;
      }
      var closed := Peek(")");
      if !closed {
        return Err(MissingParen);
      }
      SkipTwice(s, c.next);
      tok := Gettoken();
      var rs := Parseredirs();
      if rs.Err? {
        return Err(rs.error);
      }
      r := Ok(Wrap(c.value, rs.value), ps);
    }

    method Parsepipe() returns (r: Parsed<Cmd<Span>>)
      requires NoNul(s) && ps <= |s|
      modifies this`ps
      ensures ps <= |s| && r == PipeAt(s, old(ps)) && (r.Ok? ==> ps == r.next)
      decreases |s| - ps, 2
    {
      hide GetToken, SkipWhite, NoNul, ExecAt;
      r := Parseexec();
      if r.Err? {
        return;
      }
      SkipTwice(s, ps);
      var pipe := Peek("|");
      if pipe {
        Past(s, ps);
        var tok := Gettoken();
        var d := Parsepipe();
        return if d.Err? then d else Ok(Pipe(r.value, d.value), d.next);
      }
      return Ok(r.value, ps);
    }

    method Parseline() returns (r: Parsed<Cmd<Span>>)
      requires NoNul(s) && ps <= |s|
      modifies this`ps
      ensures ps <= |s| && r == Line(s, old(ps)) && (r.Ok? ==> ps == r.next)
      decreases |s| - ps, 3
    {
      hide GetToken, SkipWhite, NoNul, PipeAt;
      r := Parsepipe();
      if r.Err? {
        return;
      }
      var cmd := r.value;
      BacksSkip(s, ps, cmd);
      var back := Peek("&");
      while back
        invariant old(ps) <= ps <= |s| && Backs(s, ps, cmd) == Backs(s, r.next, r.value)
        invariant ps == SkipWhite(s, ps) && (back <==> At(s, ps) == '&')
        decreases |s| - ps
      {
        Past(s, ps);
        var tok := Gettoken();
        cmd := Back(cmd);
        BacksSkip(s, ps, cmd);
        back := Peek("&");
      }
      var list := Peek(";");
      if list {
        Past(s, ps);
        var tok := Gettoken();
        var f := Parseline();
        return if f.Err? then f else Ok(List(cmd, f.value), f.next);
      }
      return Ok(cmd, ps);
    }

    // The whole command, and the input cut up into the strings of the tree.
    method Parsecmd() returns (r: Parsed<Cmd<Span>>, buf: array<char>)
      requires NoNul(s) && ps == 0
      modifies this`ps
      ensures r == ParseCmd(s) && fresh(buf) && buf.Length == |s| + 1
      ensures r.Ok? ==> forall w :: InTree(w, r.value) ==> w.q <= buf.Length && CString(buf[..], w.q) == Text(s, w)
    {
      hide Line, SkipWhite, NoNul, CString, Tokens, InTree, TreeEnds, Cut, Fits;
      var input := s + ['\0'];
      buf := new char[|s| + 1](i requires 0 <= i < |input| => input[i]);
      assert buf[..] == input;
      r := Parseline();
      if r.Err? {
        return;
      }
      var more := Peek("");
      if ps != |s| {
        return Err(Leftovers), buf;
      }
      LineTokens(s, 0);
      TokensFit(s, r.value);
      Nulterminate(r.value, buf);
      forall w | InTree(w, r.value)
        ensures w.q <= buf.Length && CString(buf[..], w.q) == Text(s, w)
      {
        StringsAreTokens(s, r.value, w);
      }
      r := Ok(r.value, |s|);
    }
  }

  // --- nulterminate -------------------------------------------------------------------------

  function WordEnds(ws: seq<Span>): (e: set<nat>)
  {
    if ws == [] then {} else {ws[0].eq} + WordEnds(ws[1..])
  }

  // The ends of all words of a tree.
  function TreeEnds(c: Cmd<Span>): (e: set<nat>)
  {
    match c
    case Exec(args) => WordEnds(args)
    case Redir(d, file, _) => TreeEnds(d) + {file.eq}
    case Pipe(l, r) => TreeEnds(l) + TreeEnds(r)
    case List(l, r) => TreeEnds(l) + TreeEnds(r)
    case Back(d) => TreeEnds(d)
  }

  predicate InTree(w: Span, c: Cmd<Span>)
  {
    match c
    case Exec(args) => w in args
    case Redir(d, file, _) => w == file || InTree(w, d)
    case Pipe(l, r) => InTree(w, l) || InTree(w, r)
    case List(l, r) => InTree(w, l) || InTree(w, r)
    case Back(d) => InTree(w, d)
  }

  predicate Fits(c: Cmd<Span>, n: nat) { forall e :: e in TreeEnds(c) ==> e < n }

  // The buffer with a NUL at each of the given places.
  function Cut(b: seq<char>, ends: set<nat>): (b': seq<char>)
    ensures |b'| == |b|
  {
    seq(|b|, i requires 0 <= i < |b| => if i in ends then '\0' else b[i])
  }

  lemma CutTwice(b: seq<char>, d: set<nat>, e: set<nat>)
    ensures Cut(Cut(b, d), e) == Cut(b, d + e)
  {
  }

  lemma CutOne(b: seq<char>, e: nat)
    requires e < |b|
    ensures Cut(b, {e}) == b[e := '\0']
  {
  }

  lemma CutNone(b: seq<char>)
    ensures Cut(b, {}) == b
  {
  }

  lemma FitsParts(c: Cmd<Span>, n: nat)
    requires Fits(c, n)
    ensures match c
            case Exec(args) => forall e :: e in WordEnds(args) ==> e < n
            case Redir(d, file, _) => Fits(d, n) && file.eq < n
            case Pipe(l, r) => Fits(l, n) && Fits(r, n)
            case List(l, r) => Fits(l, n) && Fits(r, n)
            case Back(d) => Fits(d, n)
  {
    match c
    case Exec(args) => assert TreeEnds(c) == WordEnds(args);
    case Redir(d, file, _) => assert TreeEnds(c) == TreeEnds(d) + {file.eq};
    case Pipe(l, r) => assert TreeEnds(c) == TreeEnds(l) + TreeEnds(r);
    case List(l, r) => assert TreeEnds(c) == TreeEnds(l) + TreeEnds(r);
    case Back(d) => assert TreeEnds(c) == TreeEnds(d);
  }

  method Nulterminate(c: Cmd<Span>, buf: array<char>)
    requires Fits(c, buf.Length)
    modifies buf
    ensures buf[..] == Cut(old(buf[..]), TreeEnds(c))
    decreases c
  {
    hide Cut, Fits;
    FitsParts(c, buf.Length);
    match c
    case Exec(args) =>
      CutNone(buf[..]);
      var i := 0;
      while i < |args|
        invariant i <= |args| && buf[..] == Cut(old(buf[..]), WordEnds(args[..i]))
      {
        EndsStep(args, i);
        buf[args[i].eq] := '\0';
        CutOne(Cut(old(buf[..]), WordEnds(args[..i])), args[i].eq);
        CutTwice(old(buf[..]), WordEnds(args[..i]), {args[i].eq});
        i := i + 1;
      }
      assert args[..|args|] == args;
    case Redir(d, file, _) =>
      Nulterminate(d, buf);
      buf[file.eq] := '\0';
      CutOne(Cut(old(buf[..]), TreeEnds(d)), file.eq);
      CutTwice(old(buf[..]), TreeEnds(d), {file.eq});
    case Pipe(l, r) =>
      Nulterminate(l, buf);
      Nulterminate(r, buf);
      CutTwice(old(buf[..]), TreeEnds(l), TreeEnds(r));
    case List(l, r) =>
      Nulterminate(l, buf);
      Nulterminate(r, buf);
      CutTwice(old(buf[..]), TreeEnds(l), TreeEnds(r));
    case Back(d) =>
      Nulterminate(d, buf);
  }

  lemma {:induction false} EndsStep(ws: seq<Span>, i: nat)
    requires i < |ws|
    ensures WordEnds(ws[..i + 1]) == WordEnds(ws[..i]) + {ws[i].eq} && ws[i].eq in WordEnds(ws)
    decreases i
  {
    if i == 0 {
      assert ws[..1][1..] == [] && ws[..0] == [];
    } else {
      assert ws[..i + 1][1..] == ws[1..][..i] && ws[..i][1..] == ws[1..][..i - 1];
      EndsStep(ws[1..], i - 1);
    }
  }

  // The C string that starts at q.
  function CString(b: seq<char>, q: nat): (x: string)
    requires q <= |b|
    decreases |b| - q
  {
    if q == |b| || b[q] == '\0' then "" else [b[q]] + CString(b, q + 1)
  }

  lemma {:induction false} CStringIs(b: seq<char>, q: nat, e: nat)
    requires q <= e < |b| && b[e] == '\0' && forall i :: q <= i < e ==> b[i] != '\0'
    ensures CString(b, q) == b[q..e]
    decreases e - q
  {
    if q < e {
      CStringIs(b, q + 1, e);
      assert b[q..e] == [b[q]] + b[q + 1..e];
    }
  }

  // Every end of a token is a place with no letter; so is every place nulterminate writes.
  lemma {:induction false} EndsOfTokens(s: string, c: Cmd<Span>, e: nat)
    requires Tokens(s, c) && e in TreeEnds(c)
    ensures e <= |s| && (e < |s| ==> !Letter(s[e]))
    decreases c
  {
    match c
    case Exec(args) => WordEndsOf(s, args, e);
    case Redir(d, file, _) =>
      if e != file.eq {
        EndsOfTokens(s, d, e);
      }
    case Pipe(l, r) =>
      if e in TreeEnds(l) { EndsOfTokens(s, l, e); } else { EndsOfTokens(s, r, e); }
    case List(l, r) =>
      if e in TreeEnds(l) { EndsOfTokens(s, l, e); } else { EndsOfTokens(s, r, e); }
    case Back(d) => EndsOfTokens(s, d, e);
  }

  lemma {:induction false} WordEndsOf(s: string, ws: seq<Span>, e: nat)
    requires (forall i :: 0 <= i < |ws| ==> IsToken(s, ws[i])) && e in WordEnds(ws)
    ensures e <= |s| && (e < |s| ==> !Letter(s[e]))
  {
    if e != ws[0].eq {
      WordEndsOf(s, ws[1..], e);
    }
  }

  lemma TokensFit(s: string, c: Cmd<Span>)
    requires Tokens(s, c)
    ensures Fits(c, |s| + 1)
  {
    forall e | e in TreeEnds(c)
      ensures e <= |s|
    {
      EndsOfTokens(s, c, e);
    }
  }

  lemma {:induction false} InTreeEnds(s: string, c: Cmd<Span>, w: Span)
    requires Tokens(s, c) && InTree(w, c)
    ensures IsToken(s, w) && w.eq in TreeEnds(c)
    decreases c
  {
    match c
    case Exec(args) =>
      var i :| 0 <= i < |args| && args[i] == w;
      EndsStep(args, i);
    case Redir(d, file, _) =>
      if w != file {
        InTreeEnds(s, d, w);
      }
    case Pipe(l, r) =>
      if InTree(w, l) { InTreeEnds(s, l, w); } else { InTreeEnds(s, r, w); }
    case List(l, r) =>
      if InTree(w, l) { InTreeEnds(s, l, w); } else { InTreeEnds(s, r, w); }
    case Back(d) => InTreeEnds(s, d, w);
  }

  // So after nulterminate the string of each word is the word, no more and no less.
  lemma StringsAreTokens(s: string, c: Cmd<Span>, w: Span)
    requires Tokens(s, c) && InTree(w, c)
    ensures w.q <= |s| && CString(Cut(s + ['\0'], TreeEnds(c)), w.q) == Text(s, w)
  {
    hide Tokens, InTree, TreeEnds, CString;
    InTreeEnds(s, c, w);
    var b := Cut(s + ['\0'], TreeEnds(c));
    forall i | w.q <= i < w.eq
      ensures b[i] == s[i] && b[i] != '\0'
    {
      if i in TreeEnds(c) {
        EndsOfTokens(s, c, i);
        assert false;
      }
    }
    assert b[w.eq] == '\0';
    CStringIs(b, w.q, w.eq);
    assert b[w.q..w.eq] == s[w.q..w.eq];
  }

  // A symbol token moves the cursor.
  lemma Past(s: string, p: nat)
    requires NoNul(s) && p < |s| && p == SkipWhite(s, p)
    ensures p < GetToken(s, p).next
  {
  }

  lemma BacksSkip(s: string, p: nat, c: Cmd<Span>)
    requires NoNul(s) && p <= |s|
    ensures Backs(s, SkipWhite(s, p), c) == Backs(s, p, c) && SkipWhite(s, SkipWhite(s, p)) == SkipWhite(s, p)
  {
    SkipTwice(s, p);
  }

  lemma WordsFirst(s: string, p: nat, files: seq<(Span, Mode)>)
    requires NoNul(s) && p <= |s|
    ensures AfterWords([], files, Words(s, SkipWhite(s, p), 0)) == AfterWords([], files, Words(s, p, 0))
    ensures SkipWhite(s, SkipWhite(s, p)) == SkipWhite(s, p)
  {
    SkipTwice(s, p);
    WordsSkip(s, p, 0);
  }

  // An error further on is an error of the whole, and so is a success.
  lemma WordsIn(s: string, start: nat, rs: seq<(Span, Mode)>, argv: seq<Span>, files: seq<(Span, Mode)>, p: nat)
    requires NoNul(s) && start <= |s| && p <= |s|
    requires AfterWords(argv, files, Words(s, p, |argv|)) == AfterWords([], rs, Words(s, start, 0))
    ensures Words(s, p, |argv|).Err? ==> Words(s, start, 0) == Words(s, p, |argv|)
    ensures Words(s, p, |argv|).Ok? ==>
      && Words(s, start, 0).Ok?
      && AfterWords(argv, files, Words(s, p, |argv|)) == Ok((Words(s, start, 0).value.0, rs + Words(s, start, 0).value.1), Words(s, start, 0).next)
  {
    var w := Words(s, start, 0);
    assert w.Ok? ==> [] + w.value.0 == w.value.0;
    hide Words;
  }
}
