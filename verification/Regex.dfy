/**
 The regular-expression matcher of xv6/grep.c and what it is for.  A pattern is
 read as a sequence of items, each one character or a starred one, with perhaps a
 final $.  It matches at the start of a text when the text's beginning can be cut
 into pieces, one for each item; the matcher decides exactly this.
 */
module Regex {

  // . stands for any character.
  predicate Fits(c: char, x: char) { c == '.' || c == x }

  // --- what patterns mean -------------------------------------------------------------

  datatype Item = One(c: char) | Star(c: char)

  predicate Starred(re: string) { |re| >= 2 && re[1] == '*' }

  function Items(re: string): (r: seq<Item>)
  {
    if re == "" || re == "$" then []
    else if Starred(re) then [Star(re[0])] + Items(re[2..])
    else [One(re[0])] + Items(re[1..])
  }

  predicate ToEnd(re: string) { re != "" && re[|re| - 1] == '$' }

  predicate Piece(item: Item, x: string)
  {
    match item
    case One(c) => |x| == 1 && Fits(c, x[0])
    case Star(c) => forall i :: 0 <= i < |x| ==> Fits(c, x[i])
  }

  // The i-th piece of t between the cuts belongs to the i-th item.
  predicate PieceAt(items: seq<Item>, t: string, cuts: seq<nat>, i: nat)
    requires i < |items| && |cuts| == |items| + 1
  {
    cuts[i] <= cuts[i + 1] <= |t| && Piece(items[i], t[cuts[i]..cuts[i + 1]])
  }

  predicate Splits(items: seq<Item>, t: string, cuts: seq<nat>)
  {
    && |cuts| == |items| + 1 && cuts[0] == 0
    && forall i: nat :: i < |items| ==> PieceAt(items, t, cuts, i)
  }

  predicate Cuts(re: string, t: string, cuts: seq<nat>)
  {
    Splits(Items(re), t, cuts) && cuts[|cuts| - 1] <= |t| && (ToEnd(re) ==> cuts[|cuts| - 1] == |t|)
  }

  // Some beginning of t, all of it after $, is matched by re.
  ghost predicate Means(re: string, t: string)
  {
    exists cuts :: Cuts(re, t, cuts)
  }

  // --- what the matcher computes ---------------------------------------------------------

  predicate Here(re: string, t: string)
    decreases |re|, 0, |t|
  {
    if re == "" then true
    else if Starred(re) then StarHere(re[0], re[2..], t)
    else if re == "$" then t == ""
    else t != "" && Fits(re[0], t[0]) && Here(re[1..], t[1..])
  }

  predicate StarHere(c: char, re: string, t: string)
    decreases |re|, 1, |t|
  {
    Here(re, t) || (t != "" && Fits(c, t[0]) && StarHere(c, re, t[1..]))
  }

  // --- cutting ------------------------------------------------------------------------------

  function Shift(cuts: seq<nat>, n: nat): (r: seq<nat>)
    ensures |r| == |cuts|
  {
    seq(|cuts|, i requires 0 <= i < |cuts| => cuts[i] + n)
  }

  lemma Slices(t: string, n: nat, a: nat, b: nat)
    requires a <= b && n + b <= |t|
    ensures t[n..][a..b] == t[n + a..n + b]
  {
  }

  lemma FirstPiece(item: Item, items: seq<Item>, t: string, n: nat, cuts: seq<nat>)
    requires n <= |t| && Piece(item, t[..n]) && Splits(items, t[n..], cuts)
    ensures Splits([item] + items, t, [0] + Shift(cuts, n))
  {
    var all, cs := [item] + items, [0] + Shift(cuts, n);
    forall i: nat | i < |all|
      ensures PieceAt(all, t, cs, i)
    {
      if i > 0 {
        assert PieceAt(items, t[n..], cuts, i - 1);
        Slices(t, n, cuts[i - 1], cuts[i]);
      }
    }
  }

  function Unshift(cuts: seq<nat>, n: nat): (r: seq<nat>)
    requires forall i :: 0 <= i < |cuts| ==> n <= cuts[i]
    ensures |r| == |cuts|
  {
    seq(|cuts|, i requires 0 <= i < |cuts| => cuts[i] - n)
  }

  lemma {:induction false} Rising(items: seq<Item>, t: string, cuts: seq<nat>, i: nat, j: nat)
    requires Splits(items, t, cuts) && i <= j < |cuts|
    ensures cuts[i] <= cuts[j]
    decreases j - i
  {
    if i < j {
      Rising(items, t, cuts, i, j - 1);
      assert PieceAt(items, t, cuts, j - 1);
    }
  }

  lemma OtherPieces(item: Item, items: seq<Item>, t: string, cuts: seq<nat>) returns (rest: seq<nat>)
    requires Splits([item] + items, t, cuts)
    ensures |cuts| >= 2 && cuts[1] <= |t| && Piece(item, t[..cuts[1]])
    ensures Splits(items, t[cuts[1]..], rest) && rest[|rest| - 1] + cuts[1] == cuts[|cuts| - 1]
  {
    var all, n := [item] + items, cuts[1];
    assert PieceAt(all, t, cuts, 0);
    forall i | 1 <= i < |cuts|
      ensures n <= cuts[i]
    {
      Rising(all, t, cuts, 1, i);
    }
    rest := Unshift(cuts[1..], n);
    forall i: nat | i < |items|
      ensures PieceAt(items, t[n..], rest, i)
    {
      assert PieceAt(all, t, cuts, i + 1);
      Slices(t, n, rest[i], rest[i + 1]);
    }
  }

  // --- the matcher is right ----------------------------------------------------------------------

  // A starred match takes some number of fitting characters.
  lemma {:induction false} StarTakes(c: char, re: string, t: string) returns (n: nat)
    requires StarHere(c, re, t)
    ensures n <= |t| && Here(re, t[n..]) && forall i :: 0 <= i < n ==> Fits(c, t[i])
    decreases |t|
  {
    if Here(re, t) {
      n := 0;
      assert t[0..] == t;
    } else {
      n := StarTakes(c, re, t[1..]);
      n := n + 1;
      assert t[1..][n - 1..] == t[n..];
    }
  }

  lemma {:induction false} StarGives(c: char, re: string, t: string, n: nat)
    requires n <= |t| && Here(re, t[n..]) && forall i :: 0 <= i < n ==> Fits(c, t[i])
    ensures StarHere(c, re, t)
    decreases n
  {
    if n == 0 {
      assert t[0..] == t;
    } else {
      assert t[1..][n - 1..] == t[n..];
      StarGives(c, re, t[1..], n - 1);
    }
  }

  lemma {:induction false} HereCuts(re: string, t: string) returns (cuts: seq<nat>)
    requires Here(re, t)
    ensures Cuts(re, t, cuts)
    decreases |re|
  {
    if re == "" || (re == "$" && !Starred(re)) {
      cuts := [0];
    } else if Starred(re) {
      var n := StarTakes(re[0], re[2..], t);
      var rest := HereCuts(re[2..], t[n..]);
      FirstPiece(Star(re[0]), Items(re[2..]), t, n, rest);
      cuts := [0] + Shift(rest, n);
    } else {
      var rest := HereCuts(re[1..], t[1..]);
      FirstPiece(One(re[0]), Items(re[1..]), t, 1, rest);
      cuts := [0] + Shift(rest, 1);
    }
  }

  lemma {:induction false} CutsHere(re: string, t: string, cuts: seq<nat>)
    requires Cuts(re, t, cuts)
    ensures Here(re, t)
    decreases |re|
  {
    if re == "" || re == "$" {
    } else if Starred(re) {
      var rest := OtherPieces(Star(re[0]), Items(re[2..]), t, cuts);
      var n := cuts[1];
      CutsHere(re[2..], t[n..], rest);
      StarGives(re[0], re[2..], t, n);
    } else {
      var rest := OtherPieces(One(re[0]), Items(re[1..]), t, cuts);
      CutsHere(re[1..], t[1..], rest);
    }
  }

  lemma HereMeans(re: string, t: string)
    ensures Here(re, t) <==> Means(re, t)
  {
    if Here(re, t) {
      var cuts := HereCuts(re, t);
    }
    if Means(re, t) {
      var cuts :| Cuts(re, t, cuts);
      CutsHere(re, t, cuts);
    }
  }

  // --- laws ------------------------------------------------------------------------------------

  // Matching somewhere is matching at the start behind anything.
  lemma AnywhereIsDotStar(re: string, t: string)
    ensures Means(".*" + re, t) <==> exists i :: 0 <= i <= |t| && Means(re, t[i..])
  {
    var d := ".*" + re;
    HereMeans(d, t);
    assert d[2..] == re && Starred(d);
    hide Means;
    if Here(d, t) {
      var n := StarTakes('.', re, t);
      HereMeans(re, t[n..]);
    }
    if i :| 0 <= i <= |t| && Means(re, t[i..]) {
      HereMeans(re, t[i..]);
      StarGives('.', re, t, i);
    }
  }

  // A pattern without special characters matches the texts that start with it, and before
  // a $ itself alone.
  predicate Literal(re: string) { forall i :: 0 <= i < |re| ==> re[i] != '.' && re[i] != '*' && re[i] != '$' }

  lemma {:induction false} LiteralMeans(re: string, t: string)
    requires Literal(re)
    ensures Means(re, t) <==> re <= t
    ensures Means(re + "$", t) <==> re == t
  {
    HereMeans(re, t);
    HereMeans(re + "$", t);
    LiteralHere(re, t);
    LiteralToEnd(re, t);
  }

  lemma {:induction false} LiteralHere(re: string, t: string)
    requires Literal(re)
    ensures Here(re, t) <==> re <= t
  {
    if re != "" {
      assert re[0] != '$' && !Starred(re);
    }
    if re != "" && t != "" {
      LiteralHere(re[1..], t[1..]);
      PrefixCons(re, t);
    }
  }

  lemma PrefixCons(a: string, b: string)
    requires a != "" && b != ""
    ensures a <= b <==> a[0] == b[0] && a[1..] <= b[1..]
  {
    assert a == [a[0]] + a[1..] && b == [b[0]] + b[1..];
    if a[0] == b[0] && a[1..] <= b[1..] {
      assert b[..|a|] == [b[0]] + b[1..][..|a| - 1];
    }
    if a <= b {
      assert b[1..][..|a| - 1] == b[..|a|][1..];
    }
  }

  lemma {:induction false} LiteralToEnd(re: string, t: string)
    requires Literal(re)
    ensures Here(re + "$", t) <==> re == t
  {
    if re != "" {
      assert (re + "$")[1..] == re[1..] + "$";
      if t != "" {
        LiteralToEnd(re[1..], t[1..]);
        assert re == [re[0]] + re[1..] && t == [t[0]] + t[1..];
      }
    } else {
      assert re + "$" == "$";
    }
  }

  // A starred character matches any number of it.
  lemma StarMeans(c: char, re: string, t: string)
    ensures Means([c, '*'] + re, t) <==>
            exists n :: 0 <= n <= |t| && (forall i :: 0 <= i < n ==> c == '.' || t[i] == c) && Means(re, t[n..])
  {
    var d := [c, '*'] + re;
    HereMeans(d, t);
    assert d[2..] == re && Starred(d);
    hide Means;
    if Here(d, t) {
      var n := StarTakes(c, re, t);
      HereMeans(re, t[n..]);
    }
    if n :| 0 <= n <= |t| && (forall i :: 0 <= i < n ==> c == '.' || t[i] == c) && Means(re, t[n..]) {
      HereMeans(re, t[n..]);
      StarGives(c, re, t, n);
    }
  }

  // --- the code ------------------------------------------------------------------------------------

  method Matchhere(re: string, t: string) returns (r: bool)
    ensures r <==> Means(re, t)
    decreases |re|, 0
  {
    HereMeans(re, t);
    hide Means;
    if re == "" {
      return true;
    }
    if |re| >= 2 && re[1] == '*' {
      r := Matchstar(re[0], re[2..], t);
      return;
    }
    if re == "$" {
      return t == "";
    }
    if t != "" && (re[0] == '.' || re[0] == t[0]) {
      HereMeans(re[1..], t[1..]);
      r := Matchhere(re[1..], t[1..]);
      return;
    }
    return false;
  }

  method Matchstar(c: char, re: string, t: string) returns (r: bool)
    ensures r <==> StarHere(c, re, t)
    decreases |re|, 1
  {
    hide Means;
    var p := 0;
    assert t[0..] == t;
    while true
      invariant p <= |t| && StarHere(c, re, t) == StarHere(c, re, t[p..])
      decreases |t| - p
    {
      HereMeans(re, t[p..]);
      var here := Matchhere(re, t[p..]);
      if here {
        return true;
      }
      if p == |t| || !(t[p] == c || c == '.') {
        return false;
      }
      assert t[p..][1..] == t[p + 1..];
      p := p + 1;
    }
  }

  // re matches t: at its start after ^, and otherwise somewhere.
  method Match(re: string, t: string) returns (r: bool)
    ensures re != "" && re[0] == '^' ==> (r <==> Means(re[1..], t))
    ensures !(re != "" && re[0] == '^') ==> (r <==> exists i :: 0 <= i <= |t| && Means(re, t[i..]))
  {
    if re != "" && re[0] == '^' {
      r := Matchhere(re[1..], t);
      return;
    }
    var p := 0;
    while true
      invariant p <= |t| && forall i :: 0 <= i < p ==> !Means(re, t[i..])
      decreases |t| - p
    {
      var here := Matchhere(re, t[p..]);
      if here {
        return true;
      }
      if p == |t| {
        return false;
      }
      p := p + 1;
    }
  }
}
