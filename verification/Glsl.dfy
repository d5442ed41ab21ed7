/** The fragment of GLSL that the period renderer writes: tokens, expressions with C precedence,
    statements, and a parser for them. */
module Glsl {
  import opened Options

  // ---- tokens ----

  datatype Token = W(word: string) | S(sym: char) | ModEq

  predicate IsDigit(c: char) { '0' <= c <= '9' }
  predicate IsWordChar(c: char) { 'a' <= c <= 'z' || 'A' <= c <= 'Z' || c == '_' || IsDigit(c) }
  predicate IsBlank(c: char) { c == ' ' || c == '\n' }

  /** The longest word at the front. */
  function TakeWord(s: string): (w: string)
    ensures |w| <= |s| && w == s[..|w|]
    ensures forall i :: 0 <= i < |w| ==> IsWordChar(w[i])
    ensures |s| > 0 && IsWordChar(s[0]) ==> |w| > 0
  {
    if s == "" || !IsWordChar(s[0]) then "" else [s[0]] + TakeWord(s[1..])
  }

  /** What follows the current line. */
  function NextLine(s: string): (r: string)
    ensures |r| <= |s|
  {
    if s == "" then "" else if s[0] == '\n' then s[1..] else NextLine(s[1..])
  }

  /** Longest-match tokens; blanks and `//` comments separate. */
  function Lex(s: string): seq<Token>
    decreases |s|
  {
    if s == "" then []
    else if |s| >= 2 && s[0] == '/' && s[1] == '/' then Lex(NextLine(s[1..]))
    else if IsBlank(s[0]) then Lex(s[1..])
    else if IsWordChar(s[0]) then
      var w := TakeWord(s);
      [W(w)] + Lex(s[|w|..])
    else if |s| >= 2 && s[0] == '%' && s[1] == '=' then [ModEq] + Lex(s[2..])
    else [S(s[0])] + Lex(s[1..])
  }

  // ---- numbers ----

  function Dec(n: nat): (s: string)
    ensures |s| > 0 && forall i :: 0 <= i < |s| ==> IsDigit(s[i])
  {
    if n < 10 then ['0' + n as char] else Dec(n / 10) + ['0' + (n % 10) as char]
  }

  function DecValue(s: string): nat
    requires forall i :: 0 <= i < |s| ==> IsDigit(s[i])
  {
    if s == "" then 0
    else
      assert IsDigit(s[|s| - 1]);
      10 * DecValue(s[..|s| - 1]) + (s[|s| - 1] as int - '0' as int)
  }

  lemma {:induction false} DecRoundTrip(n: nat)
    ensures DecValue(Dec(n)) == n
  {
    if n >= 10 {
      DecRoundTrip(n / 10);
      assert Dec(n)[..|Dec(n)| - 1] == Dec(n / 10);
    } else {
      assert Dec(n)[..0] == "";
    }
  }

  predicate AllDigits(s: string) { |s| > 0 && forall i :: 0 <= i < |s| ==> IsDigit(s[i]) }

  // ---- expressions ----

  datatype BinOp = Plus | Times | Mod | Ampersand | Bar | Caret

  function Symbol(op: BinOp): char {
    match op
    case Plus => '+'
    case Times => '*'
    case Mod => '%'
    case Ampersand => '&'
    case Bar => '|'
    case Caret => '^'
  }

  /** Binding strength, weakest first: `|`, `^`, `&`, `+`, then `*` and `%`. */
  function Prec(op: BinOp): nat {
    match op
    case Bar => 1
    case Caret => 2
    case Ampersand => 3
    case Plus => 4
    case Times => 5
    case Mod => 5
  }

  function OpOf(t: Token): Option<BinOp> {
    if t == S('+') then Some(Plus)
    else if t == S('*') then Some(Times)
    else if t == S('%') then Some(Mod)
    else if t == S('&') then Some(Ampersand)
    else if t == S('|') then Some(Bar)
    else if t == S('^') then Some(Caret)
    else None
  }

  datatype Expr =
    | Num(n: nat, unsigned: bool)
    | Var(name: string)
    | Index(base: string, at: Expr)
    | Member(base: string, field: string, at: Expr)
    | Call1(f: string, a: Expr)
    | Call2(f: string, a: Expr, b: Expr)
    | Bin(op: BinOp, l: Expr, r: Expr)
    | Paren(e: Expr)

  /** How tightly the outermost construct binds. */
  function Level(e: Expr): nat { if e.Bin? then Prec(e.op) else 6 }

  predicate IsName(s: string) {
    |s| > 0 && !IsDigit(s[0]) && forall i :: 0 <= i < |s| ==> IsWordChar(s[i])
  }

  /** Written with enough parentheses: operators group to the left and by binding strength. */
  predicate Proper(e: Expr) {
    match e
    case Num(_, _) => true
    case Var(x) => IsName(x)
    case Index(x, i) => IsName(x) && Proper(i)
    case Member(x, f, i) => IsName(x) && IsName(f) && Proper(i)
    case Call1(f, a) => IsName(f) && Proper(a)
    case Call2(f, a, b) => IsName(f) && Proper(a) && Proper(b)
    case Bin(op, l, r) => Proper(l) && Proper(r) && Level(l) >= Prec(op) && Level(r) > Prec(op)
    case Paren(e) => Proper(e)
  }

  function Toks(e: Expr): (ts: seq<Token>)
    ensures |ts| > 0
  {
    match e
    case Num(n, u) => [W(Dec(n) + if u then "u" else "")]
    case Var(x) => [W(x)]
    case Index(x, i) => [W(x), S('[')] + Toks(i) + [S(']')]
    case Member(x, f, i) => [W(x), S('.'), W(f), S('[')] + Toks(i) + [S(']')]
    case Call1(f, a) => [W(f), S('(')] + Toks(a) + [S(')')]
    case Call2(f, a, b) => [W(f), S('(')] + Toks(a) + [S(',')] + Toks(b) + [S(')')]
    case Bin(op, l, r) => Toks(l) + [S(Symbol(op))] + Toks(r)
    case Paren(e) => [S('(')] + Toks(e) + [S(')')]
  }

  // ---- the parser ----

  function ParseNumber(w: string): Option<Expr> {
    if AllDigits(w) then Some(Num(DecValue(w), false))
    else if |w| > 0 && w[|w| - 1] == 'u' && AllDigits(w[..|w| - 1]) then Some(Num(DecValue(w[..|w| - 1]), true))
    else None
  }

  /** A token that continues a name. */
  predicate IsPostfix(t: Token) { t == S('(') || t == S('[') || t == S('.') }

  function Expect(ts: seq<Token>, t: Token): (r: Option<seq<Token>>)
    ensures r.Some? ==> |r.value| < |ts|
  {
    if |ts| > 0 && ts[0] == t then Some(ts[1..]) else None
  }

  function ParsePrimary(ts: seq<Token>): (r: Option<(Expr, seq<Token>)>)
    ensures r.Some? ==> |r.value.1| < |ts|
    decreases |ts|, 0
  {
    if |ts| == 0 then None
    else if ts[0] == S('(') then
      var (e, rest) :- ParseExpr(ts[1..], 1);
      var rest :- Expect(rest, S(')'));
      Some((Paren(e), rest))
    else if !ts[0].W? then None
    else if |ts[0].word| > 0 && IsDigit(ts[0].word[0]) then
      var e :- ParseNumber(ts[0].word);
      Some((e, ts[1..]))
    else if |ts| >= 2 && ts[1] == S('[') then
      var (i, rest) :- ParseExpr(ts[2..], 1);
      var rest :- Expect(rest, S(']'));
      Some((Index(ts[0].word, i), rest))
    else if |ts| >= 4 && ts[1] == S('.') && ts[2].W? && ts[3] == S('[') then
      var (i, rest) :- ParseExpr(ts[4..], 1);
      var rest :- Expect(rest, S(']'));
      Some((Member(ts[0].word, ts[2].word, i), rest))
    else if |ts| >= 2 && ts[1] == S('(') then
      var (a, rest) :- ParseExpr(ts[2..], 1);
      if |rest| > 0 && rest[0] == S(',') then
        var (b, rest) :- ParseExpr(rest[1..], 1);
        var rest :- Expect(rest, S(')'));
        Some((Call2(ts[0].word, a, b), rest))
      else
        var rest :- Expect(rest, S(')'));
        Some((Call1(ts[0].word, a), rest))
    else Some((Var(ts[0].word), ts[1..]))
  }

  /** An expression whose operators all bind at least as tightly as `min`. */
  function ParseExpr(ts: seq<Token>, min: nat): (r: Option<(Expr, seq<Token>)>)
    ensures r.Some? ==> |r.value.1| < |ts|
    decreases |ts|, 1
  {
    var (e, rest) :- ParsePrimary(ts);
    ParseTail(e, rest, min)
  }

  function ParseTail(e: Expr, ts: seq<Token>, min: nat): (r: Option<(Expr, seq<Token>)>)
    ensures r.Some? ==> |r.value.1| <= |ts|
    decreases |ts|, 2
  {
    if |ts| == 0 || OpOf(ts[0]).None? || Prec(OpOf(ts[0]).value) < min then Some((e, ts))
    else
      var op := OpOf(ts[0]).value;
      var (r, rest) :- ParseExpr(ts[1..], Prec(op) + 1);
      ParseTail(Bin(op, e, r), rest, min)
  }

  // ---- parsing undoes printing ----

  /** The strength of an operator at the front, 0 if there is none. */
  function HeadPrec(ts: seq<Token>): nat {
    if |ts| == 0 || OpOf(ts[0]).None? then 0 else Prec(OpOf(ts[0]).value)
  }

  predicate Follows(ts: seq<Token>) { |ts| == 0 || !IsPostfix(ts[0]) }

  lemma TailStops(e: Expr, ts: seq<Token>, min: nat)
    requires HeadPrec(ts) < min
    ensures ParseTail(e, ts, min) == Some((e, ts))
  {
  }

  lemma ParseDecimal(n: nat, u: bool)
    ensures ParseNumber(Dec(n) + if u then "u" else "") == Some(Num(n, u))
    ensures IsDigit((Dec(n) + if u then "u" else "")[0])
  {
    DecRoundTrip(n);
    if u {
      var w := Dec(n) + "u";
      assert w[..|w| - 1] == Dec(n);
      assert !AllDigits(w) by {
        assert w[|w| - 1] == 'u';
      }
    } else {
      assert Dec(n) + "" == Dec(n);
    }
  }

  /** C precedence and left grouping: the parser recovers every properly parenthesised expression. */
  lemma {:induction false} ParsePrinted(e: Expr, rest: seq<Token>, min: nat)
    requires Proper(e) && min <= Level(e) && HeadPrec(rest) <= Level(e) && Follows(rest)
    ensures ParseExpr(Toks(e) + rest, min) == ParseTail(e, rest, min)
    decreases e, 1
  {
    hide ParseExpr, ParsePrimary, ParseTail;
    match e {
      case Num(n, u) => LeafPrinted(e, rest);
      case Var(x) => LeafPrinted(e, rest);
      case Index(x, i) =>
        InnerPrinted(i, [S(']')] + rest);
        IndexPrinted(x, i, rest);
      case Member(x, f, i) =>
        InnerPrinted(i, [S(']')] + rest);
        MemberPrinted(x, f, i, rest);
      case Call1(f, a) =>
        InnerPrinted(a, [S(')')] + rest);
        Call1Printed(f, a, rest);
      case Call2(f, a, b) =>
        InnerPrinted(a, [S(',')] + (Toks(b) + ([S(')')] + rest)));
        InnerPrinted(b, [S(')')] + rest);
        Call2Printed(f, a, b, rest);
      case Paren(p) =>
        InnerPrinted(p, [S(')')] + rest);
        ParenPrinted(p, rest);
      case Bin(op, l, r) =>
        BinPrinted(op, l, r, rest, min);
    }
    if !e.Bin? {
      PrimaryIsExpr(e, rest, min);
    }
  }

  lemma {:induction false} BinPrinted(op: BinOp, l: Expr, r: Expr, rest: seq<Token>, min: nat)
    requires Proper(Bin(op, l, r)) && min <= Prec(op) && HeadPrec(rest) <= Prec(op) && Follows(rest)
    ensures ParseExpr(Toks(Bin(op, l, r)) + rest, min) == ParseTail(Bin(op, l, r), rest, min)
    decreases Bin(op, l, r), 0
  {
    hide ParseExpr, ParsePrimary, ParseTail;
    var more := [S(Symbol(op))] + (Toks(r) + rest);
    assert Toks(Bin(op, l, r)) + rest == Toks(l) + more;
    assert HeadPrec(more) == Prec(op) && Follows(more);
    ParsePrinted(l, more, min);
    ParsePrinted(r, rest, Prec(op) + 1);
    TailStops(r, rest, Prec(op) + 1);
    TailGoesOn(op, l, r, rest, min);
  }

  /** An operand closed by a bracket or a comma. */
  lemma {:induction false} InnerPrinted(e: Expr, rest: seq<Token>)
    requires Proper(e) && HeadPrec(rest) == 0 && Follows(rest)
    ensures ParseExpr(Toks(e) + rest, 1) == Some((e, rest))
    decreases e, 2
  {
    ParsePrinted(e, rest, 1);
    TailStops(e, rest, 1);
  }

  lemma PrimaryIsExpr(e: Expr, rest: seq<Token>, min: nat)
    requires ParsePrimary(Toks(e) + rest) == Some((e, rest))
    ensures ParseExpr(Toks(e) + rest, min) == ParseTail(e, rest, min)
  {
    hide ParsePrimary, ParseTail, Toks;
  }

  lemma TailGoesOn(op: BinOp, l: Expr, r: Expr, rest: seq<Token>, min: nat)
    requires Prec(op) >= min && ParseExpr(Toks(r) + rest, Prec(op) + 1) == Some((r, rest))
    ensures ParseTail(l, [S(Symbol(op))] + (Toks(r) + rest), min) == ParseTail(Bin(op, l, r), rest, min)
  {
    hide ParseExpr, Toks;
    assert ([S(Symbol(op))] + (Toks(r) + rest))[1..] == Toks(r) + rest;
  }

  lemma LeafPrinted(e: Expr, rest: seq<Token>)
    requires Proper(e) && (e.Num? || e.Var?) && Follows(rest)
    ensures ParsePrimary(Toks(e) + rest) == Some((e, rest))
  {
    hide ParseExpr;
    if e.Num? {
      ParseDecimal(e.n, e.unsigned);
      hide ParseNumber, Dec;
    }
    assert (Toks(e) + rest)[1..] == rest;
  }

  lemma IndexPrinted(x: string, i: Expr, rest: seq<Token>)
    requires IsName(x) && ParseExpr(Toks(i) + ([S(']')] + rest), 1) == Some((i, [S(']')] + rest))
    ensures ParsePrimary(Toks(Index(x, i)) + rest) == Some((Index(x, i), rest))
  {
    hide ParseExpr;
    var ts := Toks(Index(x, i)) + rest;
    assert ts[2..] == Toks(i) + ([S(']')] + rest) && ([S(']')] + rest)[1..] == rest;
    hide Toks;
  }

  lemma MemberPrinted(x: string, f: string, i: Expr, rest: seq<Token>)
    requires IsName(x) && ParseExpr(Toks(i) + ([S(']')] + rest), 1) == Some((i, [S(']')] + rest))
    ensures ParsePrimary(Toks(Member(x, f, i)) + rest) == Some((Member(x, f, i), rest))
  {
    hide ParseExpr;
    var ts := Toks(Member(x, f, i)) + rest;
    assert ts[4..] == Toks(i) + ([S(']')] + rest) && ([S(']')] + rest)[1..] == rest;
    hide Toks;
  }

  lemma Call1Printed(f: string, a: Expr, rest: seq<Token>)
    requires IsName(f) && ParseExpr(Toks(a) + ([S(')')] + rest), 1) == Some((a, [S(')')] + rest))
    ensures ParsePrimary(Toks(Call1(f, a)) + rest) == Some((Call1(f, a), rest))
  {
    hide ParseExpr;
    var ts := Toks(Call1(f, a)) + rest;
    assert ts[2..] == Toks(a) + ([S(')')] + rest) && ([S(')')] + rest)[1..] == rest;
    hide Toks;
  }

  lemma Call2Printed(f: string, a: Expr, b: Expr, rest: seq<Token>)
    requires IsName(f) && ParseExpr(Toks(b) + ([S(')')] + rest), 1) == Some((b, [S(')')] + rest))
    requires var more := Toks(b) + ([S(')')] + rest);
             ParseExpr(Toks(a) + ([S(',')] + more), 1) == Some((a, [S(',')] + more))
    ensures ParsePrimary(Toks(Call2(f, a, b)) + rest) == Some((Call2(f, a, b), rest))
  {
    var more := Toks(b) + ([S(')')] + rest);
    var ts := [W(f), S('(')] + (Toks(a) + ([S(',')] + more));
    Call2Toks(f, a, b, rest);
    hide ParseExpr, Toks;
    assert ts[2..] == Toks(a) + ([S(',')] + more);
    assert ([S(',')] + more)[1..] == more && ([S(')')] + rest)[1..] == rest;
  }

  lemma Call2Toks(f: string, a: Expr, b: Expr, rest: seq<Token>)
    ensures Toks(Call2(f, a, b)) + rest == [W(f), S('(')] + (Toks(a) + ([S(',')] + (Toks(b) + ([S(')')] + rest))))
  {
    var u, v := Toks(a), Toks(b);
    assert Toks(Call2(f, a, b)) == [W(f), S('(')] + u + [S(',')] + v + [S(')')];
    hide Toks;
  }

  lemma ParenPrinted(p: Expr, rest: seq<Token>)
    requires ParseExpr(Toks(p) + ([S(')')] + rest), 1) == Some((p, [S(')')] + rest))
    ensures ParsePrimary(Toks(Paren(p)) + rest) == Some((Paren(p), rest))
  {
    hide ParseExpr;
    var ts := Toks(Paren(p)) + rest;
    assert ts[1..] == Toks(p) + ([S(')')] + rest) && ([S(')')] + rest)[1..] == rest;
    hide Toks;
  }

  // ---- the precedence of C ----

  /** Whether C reads `a o b p c` as `(a o b) p c`: `|` is weakest, then `^`, `&`, `+`, and `*` and `%` are
      strongest; equals group to the left. */
  predicate LeftFirst(o: BinOp, p: BinOp) {
    match p
    case Bar => true
    case Caret => !o.Bar?
    case Ampersand => !o.Bar? && !o.Caret?
    case Plus => o.Plus? || o.Times? || o.Mod?
    case Times => o.Times? || o.Mod?
    case Mod => o.Times? || o.Mod?
  }

  lemma Precedence(a: Expr, b: Expr, c: Expr, o: BinOp, p: BinOp)
    requires a.Var? && b.Var? && c.Var? && Proper(a) && Proper(b) && Proper(c)
    ensures ParseExpr([W(a.name), S(Symbol(o)), W(b.name), S(Symbol(p)), W(c.name)], 1)
            == Some((if LeftFirst(o, p) then Bin(p, Bin(o, a, b), c) else Bin(o, a, Bin(p, b, c)), []))
  {
    hide IsName, ParseExpr;
    var x := if LeftFirst(o, p) then Bin(p, Bin(o, a, b), c) else Bin(o, a, Bin(p, b, c));
    assert Toks(a) == [W(a.name)] && Toks(b) == [W(b.name)] && Toks(c) == [W(c.name)];
    if LeftFirst(o, p) {
      assert Toks(x) == (Toks(a) + [S(Symbol(o))] + Toks(b)) + [S(Symbol(p))] + Toks(c);
    } else {
      assert Toks(x) == Toks(a) + [S(Symbol(o))] + (Toks(b) + [S(Symbol(p))] + Toks(c));
    }
    assert Toks(x) + [] == [W(a.name), S(Symbol(o)), W(b.name), S(Symbol(p)), W(c.name)];
    ParsePrinted(x, [], 1);
  }
}
