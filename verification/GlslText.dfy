/** Expressions and statements as text, and the lexer and parser that read the text back. */
module GlslText {
  import opened Glsl
  import opened Options

  // ---- expressions ----

  /** An operator between blanks. */
  function Blanked(op: BinOp): string {
    match op
    case Plus => " + "
    case Times => " * "
    case Mod => " % "
    case Ampersand => " & "
    case Bar => " | "
    case Caret => " ^ "
  }

  /** The source's spelling: blanks around binary operators and after commas. */
  function Text(e: Expr): string {
    match e
    case Num(n, u) => Dec(n) + if u then "u" else ""
    case Var(x) => x
    case Index(x, i) => x + "[" + Text(i) + "]"
    case Member(x, f, i) => x + "." + f + "[" + Text(i) + "]"
    case Call1(f, a) => f + "(" + Text(a) + ")"
    case Call2(f, a, b) => f + "(" + Text(a) + ", " + Text(b) + ")"
    case Bin(op, l, r) => Text(l) + Blanked(op) + Text(r)
    case Paren(p) => "(" + Text(p) + ")"
  }

  /** The text goes on with something that cannot lengthen a word. */
  predicate Breaks(s: string) { s == "" || !IsWordChar(s[0]) }

  predicate IsWord(w: string) { |w| > 0 && forall i :: 0 <= i < |w| ==> IsWordChar(w[i]) }

  lemma {:induction false} TakeWholeWord(w: string, rest: string)
    requires (forall i :: 0 <= i < |w| ==> IsWordChar(w[i])) && Breaks(rest)
    ensures TakeWord(w + rest) == w
  {
    if w == "" {
      assert w + rest == rest;
    } else {
      assert (w + rest)[1..] == w[1..] + rest;
      TakeWholeWord(w[1..], rest);
    }
  }

  lemma LexWord(w: string, rest: string)
    requires IsWord(w) && Breaks(rest)
    ensures Lex(w + rest) == [W(w)] + Lex(rest)
  {
    TakeWholeWord(w, rest);
    var s := w + rest;
    assert s[|w|..] == rest && IsWordChar(s[0]);
  }

  /** A punctuation mark that is a token of its own before any text. */
  predicate IsMark(c: char) { !IsWordChar(c) && !IsBlank(c) && c != '/' && c != '%' }

  lemma LexMark(c: char, rest: string)
    requires IsMark(c) || (c == '%' && rest != "" && rest[0] == ' ')
    ensures Lex([c] + rest) == [S(c)] + Lex(rest)
  {
    var s := [c] + rest;
    assert s[1..] == rest;
  }

  lemma LexBlank(c: char, rest: string)
    requires IsBlank(c)
    ensures Lex([c] + rest) == Lex(rest)
  {
    assert ([c] + rest)[1..] == rest;
  }

  /** A word, a mark, and the text after them. */
  lemma LexWordMark(w: string, c: char, rest: string)
    requires IsWord(w) && IsMark(c)
    ensures Lex(w + ([c] + rest)) == [W(w), S(c)] + Lex(rest)
  {
    LexMark(c, rest);
    LexWord(w, [c] + rest);
  }

  lemma DecIsWord(n: nat, u: bool)
    ensures IsWord(Dec(n) + if u then "u" else "")
  {
  }

  // Regrouping of concatenations.

  lemma Cat3<T>(a: seq<T>, b: seq<T>, c: seq<T>)
    ensures a + b + c == a + (b + c)
  {
  }

  lemma Cat4<T>(a: seq<T>, b: seq<T>, c: seq<T>, d: seq<T>)
    ensures a + b + c + d == a + (b + (c + d))
  {
    Cat3(a + b, c, d);
    Cat3(a, b, c + d);
  }

  lemma Cat5<T>(a: seq<T>, b: seq<T>, c: seq<T>, d: seq<T>, e: seq<T>)
    ensures a + b + c + d + e == a + (b + (c + (d + e)))
  {
    Cat3(a + b + c, d, e);
    Cat4(a, b, c, d + e);
  }

  lemma Cat7<T>(a: seq<T>, b: seq<T>, c: seq<T>, d: seq<T>, e: seq<T>, f: seq<T>, g: seq<T>)
    ensures a + b + c + d + e + f + g == a + (b + (c + (d + (e + (f + g)))))
  {
    Cat3(a + b + c + d + e, f, g);
    Cat3(a + b + c + d, e, f + g);
    Cat5(a, b, c, d, e + (f + g));
  }

  /** The lexer reads the text of an expression as its tokens. */
  lemma {:induction false} LexText(e: Expr, rest: string)
    requires Proper(e) && Breaks(rest)
    ensures Lex(Text(e) + rest) == Toks(e) + Lex(rest)
    decreases e, 1
  {
    hide Lex, Text, Toks, Dec;
    match e
    case Num(n, u) => LexLeaf(e, rest);
    case Var(x) => LexLeaf(e, rest);
    case Index(x, i) =>
      LexText(i, "]" + rest);
      LexIndex(x, i, rest);
    case Member(x, f, i) =>
      LexText(i, "]" + rest);
      LexMember(x, f, i, rest);
    case Call1(f, a) =>
      LexText(a, ")" + rest);
      LexCall1(f, a, rest);
    case Call2(f, a, b) => LexCall2(f, a, b, rest);
    case Bin(op, l, r) => LexBin(op, l, r, rest);
    case Paren(p) =>
      LexText(p, ")" + rest);
      LexParen(p, rest);
  }

  lemma LexLeaf(e: Expr, rest: string)
    requires Proper(e) && (e.Num? || e.Var?) && Breaks(rest)
    ensures Lex(Text(e) + rest) == Toks(e) + Lex(rest)
  {
    hide Lex, Dec;
    if e.Num? {
      DecIsWord(e.n, e.unsigned);
    }
    LexWord(Text(e), rest);
  }

  lemma LexIndex(x: string, i: Expr, rest: string)
    requires IsWord(x) && Lex(Text(i) + ("]" + rest)) == Toks(i) + Lex("]" + rest)
    ensures Lex(Text(Index(x, i)) + rest) == Toks(Index(x, i)) + Lex(rest)
  {
    var inner := Text(i) + ("]" + rest);
    Cat5(x, "[", Text(i), "]", rest);
    assert IsMark('[') && IsMark(']');
    assert Toks(Index(x, i)) == [W(x), S('[')] + Toks(i) + [S(']')];
    hide Lex, Toks, IsName, IsMark;
    LexWordMark(x, '[', inner);
    LexMark(']', rest);
    Cat4([W(x), S('[')], Toks(i), [S(']')], Lex(rest));
  }

  lemma LexMember(x: string, f: string, i: Expr, rest: string)
    requires IsWord(x) && IsWord(f) && Lex(Text(i) + ("]" + rest)) == Toks(i) + Lex("]" + rest)
    ensures Lex(Text(Member(x, f, i)) + rest) == Toks(Member(x, f, i)) + Lex(rest)
  {
    var inner := Text(i) + ("]" + rest);
    var field := f + ("[" + inner);
    Cat7(x, ".", f, "[", Text(i), "]", rest);
    assert IsMark('[') && IsMark(']') && IsMark('.');
    assert Toks(Member(x, f, i)) == [W(x), S('.'), W(f), S('[')] + Toks(i) + [S(']')];
    hide Lex, Toks, IsName, IsMark;
    LexWordMark(x, '.', field);
    LexWordMark(f, '[', inner);
    LexMark(']', rest);
    assert [W(x), S('.'), W(f), S('[')] == [W(x), S('.')] + [W(f), S('[')];
    Cat5([W(x), S('.')], [W(f), S('[')], Toks(i), [S(']')], Lex(rest));
  }

  lemma LexCall1(f: string, a: Expr, rest: string)
    requires IsWord(f) && Lex(Text(a) + (")" + rest)) == Toks(a) + Lex(")" + rest)
    ensures Lex(Text(Call1(f, a)) + rest) == Toks(Call1(f, a)) + Lex(rest)
  {
    var inner := Text(a) + (")" + rest);
    Cat5(f, "(", Text(a), ")", rest);
    assert IsMark('(') && IsMark(')');
    assert Toks(Call1(f, a)) == [W(f), S('(')] + Toks(a) + [S(')')];
    hide Lex, Toks, IsName, IsMark;
    LexWordMark(f, '(', inner);
    LexMark(')', rest);
    Cat4([W(f), S('(')], Toks(a), [S(')')], Lex(rest));
  }

  lemma LexParen(p: Expr, rest: string)
    requires Lex(Text(p) + (")" + rest)) == Toks(p) + Lex(")" + rest)
    ensures Lex(Text(Paren(p)) + rest) == Toks(Paren(p)) + Lex(rest)
  {
    var inner := Text(p) + (")" + rest);
    Cat4("(", Text(p), ")", rest);
    assert IsMark('(') && IsMark(')');
    assert Toks(Paren(p)) == [S('(')] + Toks(p) + [S(')')];
    hide Lex, Toks, IsName, IsMark;
    LexMark('(', inner);
    LexMark(')', rest);
    Cat4([S('(')], Toks(p), [S(')')], Lex(rest));
  }

  lemma {:induction false} LexCall2(f: string, a: Expr, b: Expr, rest: string)
    requires IsName(f) && Proper(a) && Proper(b) && Breaks(rest)
    ensures Lex(Text(Call2(f, a, b)) + rest) == Toks(Call2(f, a, b)) + Lex(rest)
    decreases Call2(f, a, b), 0
  {
    hide Lex, Text, Toks;
    var close := ")" + rest;
    var second := " " + (Text(b) + close);
    assert Text(Call2(f, a, b)) + rest == f + ("(" + (Text(a) + ("," + second))) by {
      Call2Text(f, a, b, rest);
    }
    LexWordMark(f, '(', Text(a) + ("," + second));
    LexText(a, "," + second);
    LexMark(',', second);
    LexBlank(' ', Text(b) + close);
    LexText(b, close);
    LexMark(')', rest);
    assert Toks(Call2(f, a, b)) == [W(f), S('(')] + Toks(a) + [S(',')] + Toks(b) + [S(')')] by {
      Call2Toks(f, a, b);
    }
  }

  lemma Call2Text(f: string, a: Expr, b: Expr, rest: string)
    ensures Text(Call2(f, a, b)) + rest == f + ("(" + (Text(a) + ("," + (" " + (Text(b) + (")" + rest))))))
  {
    assert ", " == "," + " ";
  }

  lemma Call2Toks(f: string, a: Expr, b: Expr)
    ensures Toks(Call2(f, a, b)) == [W(f), S('(')] + Toks(a) + [S(',')] + Toks(b) + [S(')')]
  {
  }

  lemma {:induction false} LexBin(op: BinOp, l: Expr, r: Expr, rest: string)
    requires Proper(l) && Proper(r) && Breaks(rest)
    ensures Lex(Text(Bin(op, l, r)) + rest) == Toks(Bin(op, l, r)) + Lex(rest)
    decreases Bin(op, l, r), 0
  {
    var c := Symbol(op);
    var right := " " + (Text(r) + rest);
    assert Text(Bin(op, l, r)) == Text(l) + Blanked(op) + Text(r);
    assert Toks(Bin(op, l, r)) == Toks(l) + [S(c)] + Toks(r);
    assert Blanked(op) == " " + [c] + " ";
    assert IsMark(c) || c == '%';
    hide Lex, Text, Toks, Symbol, IsMark, Blanked;
    Cat4(Text(l), Blanked(op), Text(r), rest);
    Cat4(" ", [c], " ", Text(r) + rest);
    LexText(l, " " + ([c] + right));
    LexBlank(' ', [c] + right);
    LexMark(c, right);
    LexBlank(' ', Text(r) + rest);
    LexText(r, rest);
    Cat4(Toks(l), [S(c)], Toks(r), Lex(rest));
  }

  // ---- statements ----

  datatype Stmt =
    | Declare(ty: string, x: string)
    | DeclareTwo(ty: string, x: string, y: string)
    | Assign(lhs: Expr, rhs: Expr)
    | ModAssign(lhs: Expr, rhs: Expr)
    | IfCall(cond: string, callee: string)

  predicate ProperStmt(s: Stmt) {
    match s
    case Declare(ty, x) => IsName(ty) && ty != "if" && IsName(x)
    case DeclareTwo(ty, x, y) => IsName(ty) && ty != "if" && IsName(x) && IsName(y)
    case Assign(l, r) => Proper(l) && Proper(r) && Assignable(l)
    case ModAssign(l, r) => Proper(l) && Proper(r) && Assignable(l)
    case IfCall(c, f) => IsName(c) && IsName(f)
  }

  /** A variable, an array element or a member element; a name here is never `if`. */
  predicate Assignable(e: Expr) {
    (e.Var? && e.name != "if") || (e.Index? && e.base != "if") || (e.Member? && e.base != "if")
  }

  function StmtText(s: Stmt): string {
    match s
    case Declare(ty, x) => ty + " " + x + ";\n"
    case DeclareTwo(ty, x, y) => ty + " " + x + ", " + y + ";\n"
    case Assign(l, r) => Text(l) + " = " + Text(r) + ";\n"
    case ModAssign(l, r) => Text(l) + " %= " + Text(r) + ";\n"
    case IfCall(c, f) => "if (" + c + ") " + f + "();\n"
  }

  function StmtToks(s: Stmt): seq<Token> {
    match s
    case Declare(ty, x) => [W(ty), W(x), S(';')]
    case DeclareTwo(ty, x, y) => [W(ty), W(x), S(','), W(y), S(';')]
    case Assign(l, r) => Toks(l) + [S('=')] + Toks(r) + [S(';')]
    case ModAssign(l, r) => Toks(l) + [ModEq] + Toks(r) + [S(';')]
    case IfCall(c, f) => [W("if"), S('('), W(c), S(')'), W(f), S('('), S(')'), S(';')]
  }

  lemma LexSemicolon(rest: string)
    ensures Lex(";\n" + rest) == [S(';')] + Lex(rest)
  {
    assert ";\n" + rest == ";" + ("\n" + rest);
    LexMark(';', "\n" + rest);
    LexBlank('\n', rest);
  }

  lemma LexModEq(rest: string)
    ensures Lex("%=" + rest) == [ModEq] + Lex(rest)
  {
    assert ("%=" + rest)[2..] == rest;
  }

  lemma LexAssign(l: Expr, r: Expr, rest: string)
    requires Proper(l) && Proper(r)
    ensures Lex(StmtText(Assign(l, r)) + rest) == StmtToks(Assign(l, r)) + Lex(rest)
    ensures Lex(StmtText(ModAssign(l, r)) + rest) == StmtToks(ModAssign(l, r)) + Lex(rest)
  {
    LexEquals(l, r, rest);
    LexModEquals(l, r, rest);
  }

  /** The right-hand side of an assignment, from the blank before it on. */
  lemma LexRhs(r: Expr, rest: string)
    requires Proper(r)
    ensures Lex(" " + (Text(r) + (";\n" + rest))) == Toks(r) + ([S(';')] + Lex(rest))
  {
    hide Lex, Text, Toks;
    LexText(r, ";\n" + rest);
    LexSemicolon(rest);
    LexBlank(' ', Text(r) + (";\n" + rest));
  }

  /** The text of an assignment, cut at its blanks. */
  lemma AssignText(a: string, op: string, b: string, rest: string)
    ensures a + (" " + op + " ") + b + ";\n" + rest == a + (" " + (op + (" " + (b + (";\n" + rest)))))
  {
    Cat5(a, " " + op + " ", b, ";\n", rest);
    Cat3(" " + op, " ", b + (";\n" + rest));
    Cat3(" ", op, " " + (b + (";\n" + rest)));
  }

  lemma LexEquals(l: Expr, r: Expr, rest: string)
    requires Proper(l) && Proper(r)
    ensures Lex(StmtText(Assign(l, r)) + rest) == StmtToks(Assign(l, r)) + Lex(rest)
  {
    hide Lex, Text, Toks;
    var tail := Text(r) + (";\n" + rest);
    LexRhs(r, rest);
    assert " = " == " " + "=" + " ";
    AssignText(Text(l), "=", Text(r), rest);
    LexText(l, " " + ("=" + (" " + tail)));
    LexBlank(' ', "=" + (" " + tail));
    LexMark('=', " " + tail);
    Cat4(Toks(l), [S('=')], Toks(r), [S(';')] + Lex(rest));
  }

  lemma LexModEquals(l: Expr, r: Expr, rest: string)
    requires Proper(l) && Proper(r)
    ensures Lex(StmtText(ModAssign(l, r)) + rest) == StmtToks(ModAssign(l, r)) + Lex(rest)
  {
    hide Lex, Text, Toks;
    var tail := Text(r) + (";\n" + rest);
    LexRhs(r, rest);
    assert " %= " == " " + "%=" + " ";
    AssignText(Text(l), "%=", Text(r), rest);
    LexText(l, " " + ("%=" + (" " + tail)));
    LexBlank(' ', "%=" + (" " + tail));
    LexModEq(" " + tail);
    Cat4(Toks(l), [ModEq], Toks(r), [S(';')] + Lex(rest));
  }

  lemma LexDeclare(ty: string, x: string, rest: string)
    requires IsWord(ty) && IsWord(x)
    ensures Lex(StmtText(Declare(ty, x)) + rest) == StmtToks(Declare(ty, x)) + Lex(rest)
  {
    hide Lex, IsWord;
    LexSemicolon(rest);
    var tail := ";\n" + rest;
    Cat5(ty, " ", x, ";\n", rest);
    LexWord(ty, " " + (x + tail));
    LexBlank(' ', x + tail);
    LexWord(x, tail);
  }

  lemma LexDeclareTwo(ty: string, x: string, y: string, rest: string)
    requires IsWord(ty) && IsWord(x) && IsWord(y)
    ensures Lex(StmtText(DeclareTwo(ty, x, y)) + rest) == StmtToks(DeclareTwo(ty, x, y)) + Lex(rest)
  {
    hide Lex, IsWord;
    LexSemicolon(rest);
    var tail := ";\n" + rest;
    var more := ", " + (y + tail);
    Cat7(ty, " ", x, ", ", y, ";\n", rest);
    LexWord(ty, " " + (x + more));
    LexBlank(' ', x + more);
    LexWord(x, more);
    assert ", " == "," + " ";
    Cat3(",", " ", y + tail);
    LexMark(',', " " + (y + tail));
    LexBlank(' ', y + tail);
    LexWord(y, tail);
  }

  lemma IfText(c: string, f: string, rest: string)
    ensures StmtText(IfCall(c, f)) + rest ==
            "if" + (" " + ("(" + (c + (")" + (" " + (f + ("(" + (")" + (";\n" + rest)))))))))
  {
    CallText(f, rest);
    var tail := f + ("(" + (")" + (";\n" + rest)));
    Cat4("if (" + c, ") ", f + "();\n", rest);
    assert "if (" + c + ") " + f + "();\n" + rest == "if (" + (c + (") " + tail));
    ConditionText(c, tail);
  }

  lemma CallText(f: string, rest: string)
    ensures f + "();\n" + rest == f + ("(" + (")" + (";\n" + rest)))
  {
    assert "();\n" == "(" + (")" + ";\n");
  }

  lemma ConditionText(c: string, tail: string)
    ensures "if (" + (c + (") " + tail)) == "if" + (" " + ("(" + (c + (")" + (" " + tail)))))
  {
    assert "if (" == "if" + (" " + "(") && ") " == ")" + " ";
    assert ") " + tail == ")" + (" " + tail);
  }

  lemma LexIf(c: string, f: string, rest: string)
    requires IsName(c) && IsName(f)
    ensures Lex(StmtText(IfCall(c, f)) + rest) == StmtToks(IfCall(c, f)) + Lex(rest)
  {
    IfText(c, f, rest);
    hide Lex, StmtText;
    LexSemicolon(rest);
    var t1 := ")" + (";\n" + rest);
    LexMark(')', ";\n" + rest);
    var t2 := f + ("(" + t1);
    LexWordMark(f, '(', t1);
    var t3 := c + (")" + (" " + t2));
    LexBlank(' ', t2);
    LexWordMark(c, ')', " " + t2);
    LexMark('(', t3);
    LexBlank(' ', "(" + t3);
    assert IsWord("if");
    LexWord("if", " " + ("(" + t3));
  }

  lemma LexStmt(s: Stmt, rest: string)
    requires ProperStmt(s)
    ensures Lex(StmtText(s) + rest) == StmtToks(s) + Lex(rest)
  {
    hide Lex, StmtText, StmtToks, Proper;
    match s
    case Declare(ty, x) => LexDeclare(ty, x, rest);
    case DeclareTwo(ty, x, y) => LexDeclareTwo(ty, x, y, rest);
    case Assign(l, r) => LexAssign(l, r, rest);
    case ModAssign(l, r) => LexAssign(l, r, rest);
    case IfCall(c, f) => LexIf(c, f, rest);
  }

  // ---- parsing statements ----

  function ParseStmt(ts: seq<Token>): (r: Option<(Stmt, seq<Token>)>)
    ensures r.Some? ==> |r.value.1| < |ts|
  {
    if |ts| >= 8 && ts[0] == W("if") then
      if ts[1] == S('(') && ts[2].W? && ts[3] == S(')') && ts[4].W? && ts[5..8] == [S('('), S(')'), S(';')] then
        Some((IfCall(ts[2].word, ts[4].word), ts[8..]))
      else None
    else if |ts| >= 3 && ts[0].W? && ts[1].W? then
      if ts[2] == S(';') then Some((Declare(ts[0].word, ts[1].word), ts[3..]))
      else if |ts| >= 5 && ts[2] == S(',') && ts[3].W? && ts[4] == S(';') then
        Some((DeclareTwo(ts[0].word, ts[1].word, ts[3].word), ts[5..]))
      else None
    else
      var (l, rest) :- ParsePrimary(ts);
      if |rest| > 0 && rest[0] == S('=') then
        var (r, rest) :- ParseExpr(rest[1..], 1);
        var rest :- Expect(rest, S(';'));
        Some((Assign(l, r), rest))
      else if |rest| > 0 && rest[0] == ModEq then
        var (r, rest) :- ParseExpr(rest[1..], 1);
        var rest :- Expect(rest, S(';'));
        Some((ModAssign(l, r), rest))
      else None
  }

  lemma PrimaryPrinted(e: Expr, rest: seq<Token>)
    requires Proper(e) && Assignable(e) && Follows(rest) && HeadPrec(rest) == 0
    ensures ParsePrimary(Toks(e) + rest) == Some((e, rest))
    ensures |Toks(e) + rest| > 0 && (Toks(e) + rest)[0] != W("if")
    ensures |Toks(e)| >= 2 ==> !Toks(e)[1].W?
    ensures |Toks(e)| == 1 ==> e.Var?
  {
    hide ParsePrimary, ParseExpr;
    match e
    case Var(x) => LeafPrinted(e, rest);
    case Index(x, i) =>
      InnerPrinted(i, [S(']')] + rest);
      IndexPrinted(x, i, rest);
    case Member(x, f, i) =>
      InnerPrinted(i, [S(']')] + rest);
      MemberPrinted(x, f, i, rest);
  }

  lemma ParseAssign(l: Expr, r: Expr, mark: Token, rest: seq<Token>)
    requires Proper(l) && Proper(r) && Assignable(l) && mark in {S('='), ModEq}
    ensures ParseStmt(Toks(l) + ([mark] + (Toks(r) + ([S(';')] + rest)))) ==
            Some((if mark == ModEq then ModAssign(l, r) else Assign(l, r), rest))
  {
    hide ParsePrimary, ParseExpr, Toks, Proper;
    var tail := [S(';')] + rest;
    InnerPrinted(r, tail);
    var t := [mark] + (Toks(r) + tail);
    PrimaryPrinted(l, t);
    assert tail[1..] == rest && t[1..] == Toks(r) + tail;
  }

  lemma ParseDeclare(ty: string, x: string, y: string, rest: seq<Token>)
    requires ty != "if"
    ensures ParseStmt(StmtToks(Declare(ty, x)) + rest) == Some((Declare(ty, x), rest))
    ensures ParseStmt(StmtToks(DeclareTwo(ty, x, y)) + rest) == Some((DeclareTwo(ty, x, y), rest))
  {
    hide ParsePrimary, ParseExpr;
    assert (StmtToks(Declare(ty, x)) + rest)[3..] == rest;
    assert (StmtToks(DeclareTwo(ty, x, y)) + rest)[5..] == rest;
  }

  lemma ParseIf(c: string, f: string, rest: seq<Token>)
    ensures ParseStmt(StmtToks(IfCall(c, f)) + rest) == Some((IfCall(c, f), rest))
  {
    hide ParsePrimary, ParseExpr;
    var ts := StmtToks(IfCall(c, f)) + rest;
    assert ts[8..] == rest && ts[5..8] == [S('('), S(')'), S(';')];
  }

  lemma ParsePrintedStmt(s: Stmt, rest: seq<Token>)
    requires ProperStmt(s)
    ensures ParseStmt(StmtToks(s) + rest) == Some((s, rest))
  {
    hide ParseStmt, Toks, Proper;
    match s
    case Declare(ty, x) => ParseDeclare(ty, x, x, rest);
    case DeclareTwo(ty, x, y) => ParseDeclare(ty, x, y, rest);
    case IfCall(c, f) => ParseIf(c, f, rest);
    case Assign(l, r) =>
      ParseAssign(l, r, S('='), rest);
      Cat5(Toks(l), [S('=')], Toks(r), [S(';')], rest);
    case ModAssign(l, r) =>
      ParseAssign(l, r, ModEq, rest);
      Cat5(Toks(l), [ModEq], Toks(r), [S(';')], rest);
  }
}
