/** The GLSL renderer of the period program, and the statements its text parses to. */
module Render {
  import opened Words
  import opened Options
  import opened ProgPow
  import opened Interpreter
  import opened Glsl
  import opened GlslText

  // ---- the source's format strings ----

  /** The right-hand sides, by selector; each line reads `<target> = <right-hand side>;`. */
  function MathRhs(a: string, b: string, r: Word): string {
    match MathSel(r)
    case 0 => a + " + " + b
    case 1 => a + " * " + b
    case 2 => "mul_hi" + "(" + a + ", " + b + ")"
    case 3 => "min" + "(" + a + ", " + b + ")"
    case 4 => "ROTL32" + "(" + a + ", " + (b + " % " + "32") + ")"
    case 5 => "ROTR32" + "(" + a + ", " + (b + " % " + "32") + ")"
    case 6 => a + " & " + b
    case 7 => a + " | " + b
    case 8 => a + " ^ " + b
    case 9 => ("clz" + "(" + a + ")") + " + " + ("clz" + "(" + b + ")")
    case _ => ("popcount" + "(" + a + ")") + " + " + ("popcount" + "(" + b + ")")
  }

  function MergeRhs(a: string, b: string, r: Word): string {
    match MergeSel(r)
    case 0 => ("(" + (a + " * " + "33") + ")") + " + " + b
    case 1 => ("(" + (a + " ^ " + b) + ")") + " * " + "33"
    case 2 => ("ROTL32" + "(" + a + ", " + Dec(MergeRot(r)) + ")") + " ^ " + b
    case _ => ("ROTR32" + "(" + a + ", " + Dec(MergeRot(r)) + ")") + " ^ " + b
  }

  function MathText(d: string, a: string, b: string, r: Word): string { d + " = " + MathRhs(a, b, r) + ";" }
  function MergeText(a: string, b: string, r: Word): string { a + " = " + MergeRhs(a, b, r) + ";" }

  function MixText(i: nat): string { "mix" + "[" + Dec(i) + "]" }
  function LoadText(i: nat): string { "data_dag" + "." + "s" + "[" + Dec(i) + "]" }

  /** The lines of a DAG load; `i` counts the words loaded. */
  function GlobalLoad(i: nat): string {
    LoadText(i) + " = "
    + ("g_dag" + "[" + (("offset" + " * " + "PROGPOW_DAG_LOADS") + " + " + (Dec(i) + "u")) + "]") + ";\n"
  }

  const GLOBAL_SHUFFLE: string :=
    "offset" + " = "
    + ("subgroupShuffle" + "(" + ("mix" + "[" + "0" + "]") + ", "
       + ("sg_base" + " + " + ("(" + ("loop" + " % " + "PROGPOW_LANES") + ")")) + ")") + ";\n"
  const GLOBAL_MOD: string := "offset" + " %= " + "PROGPOW_DAG_ELEMENTS" + ";\n"
  const GLOBAL_ROW: string :=
    "offset" + " = "
    + (("offset" + " * " + "PROGPOW_LANES") + " + " + (("(" + ("lane_id" + " ^ " + "loop") + ")") + " % " + "PROGPOW_LANES")) + ";\n"
  const HACK_COMMENT: string := "//" + HACK_NOTE + "\n"
  const HACK_NOTE: string := " hack to prevent" + " compiler from" + " reordering LD and usage"
  const HACK: string := "if (" + "hack_false" + ") " + "subgroupBarrier" + "();\n"

  function OpText(op: Op, cacheI: nat, mathI: nat): string {
    match op
    case Global =>
      ("//" + " global load" + "\n") + GLOBAL_SHUFFLE + GLOBAL_MOD + GLOBAL_ROW
      + GlobalLoad(0) + GlobalLoad(1) + GlobalLoad(2) + GlobalLoad(3) + HACK_COMMENT + HACK
    case Cache(src, dst, r) =>
      ("//" + (" cache load " + Dec(cacheI)) + "\n")
      + ("offset" + " = " + (MixText(src) + " % " + "PROGPOW_CACHE_WORDS") + ";\n")
      + ("data" + " = " + ("c_dag" + "[" + "offset" + "]") + ";\n")
      + (MergeText(MixText(dst), "data", r) + "\n")
    case Math(s1, s2, dst, r1, r2) =>
      ("//" + (" random math " + Dec(mathI)) + "\n")
      + (MathText("data", MixText(s1), MixText(s2), r1) + "\n")
      + (MergeText(MixText(dst), "data", r2) + "\n")
    case DagMerge(dst, i, r) =>
      (if i == 0 then ("//" + " consume global load data" + "\n") + HACK_COMMENT + HACK else "")
      + (MergeText(MixText(dst), LoadText(i), r) + "\n")
  }

  function CacheOps(ops: seq<Op>): nat {
    if ops == [] then 0 else CacheOps(ops[..|ops| - 1]) + if ops[|ops| - 1].Cache? then 1 else 0
  }
  function MathOps(ops: seq<Op>): nat {
    if ops == [] then 0 else MathOps(ops[..|ops| - 1]) + if ops[|ops| - 1].Math? then 1 else 0
  }

  function OpsText(ops: seq<Op>): string {
    if ops == [] then ""
    else
      var init := ops[..|ops| - 1];
      OpsText(init) + OpText(ops[|ops| - 1], CacheOps(init), MathOps(init))
  }

  /** The comment, the signature and the opening brace; then the local variables. */
  function OpeningText(progSeed: nat): string {
    ("//" + (" Inner loop for prog_seed " + Dec(progSeed)) + "\n") + SIGNATURE + ("{" + "\n")
  }
  const DECLARATIONS: string :=
    ("dag_t" + " " + "data_dag" + ";\n") + ("uint32_t" + " " + "offset" + ", " + "data" + ";\n")

  function Spaced(w: string, t: string): string { w + (" " + t) }
  function Marked(w: string, c: char, t: string): string { w + ([c] + t) }

  const SIGNATURE: string :=
    Spaced("void", Marked("progPowLoop", '(', PARAMS_1))
  const PARAMS_1: string :=
    Spaced("const", Spaced("uint32_t", Marked("loop", ',', " " + Spaced("inout", Spaced("uint32_t", Marked("mix", '[', PARAMS_2))))))
  const PARAMS_2: string :=
    Marked("PROGPOW_REGS", ']', "," + ("\n" + ("        " + Spaced("uint32_t", Marked("lane_id", ',', PARAMS_3)))))
  const PARAMS_3: string :=
    " " + Spaced("uint32_t", Marked("sg_base", ',', " " + Spaced("bool", Marked("hack_false", ')', "\n"))))

  function LoopText(progSeed: nat, ops: seq<Op>): string {
    OpeningText(progSeed) + DECLARATIONS + OpsText(ops) + ("}" + "\n")
  }

  /** The renderer: it appends to one string, counting cache loads and math operations. */
  method RenderLoopGlsl(progSeed: nat, ops: seq<Op>) returns (out: string)
    ensures out == LoopText(progSeed, ops)
  {
    hide OpText, OpeningText;
    out := OpeningText(progSeed) + DECLARATIONS;
    var cacheI, mathI := 0, 0;
    for k := 0 to |ops|
      invariant cacheI == CacheOps(ops[..k]) && mathI == MathOps(ops[..k])
      invariant out == OpeningText(progSeed) + DECLARATIONS + OpsText(ops[..k])
    {
      assert ops[..k + 1][..k] == ops[..k];
      out := out + OpText(ops[k], cacheI, mathI);
      if ops[k].Cache? {
        cacheI := cacheI + 1;
      }
      if ops[k].Math? {
        mathI := mathI + 1;
      }
    }
    assert ops[..|ops|] == ops;
    out := out + ("}" + "\n");
  }

  // ---- the statements of an operation ----

  function Mix(i: nat): Expr { Index("mix", Num(i, false)) }
  function Load(i: nat): Expr { Member("data_dag", "s", Num(i, false)) }
  function V(x: string): Expr { Var(x) }

  function MathExpr(a: Expr, b: Expr, r: Word): Expr {
    match MathSel(r)
    case 0 => Bin(Plus, a, b)
    case 1 => Bin(Times, a, b)
    case 2 => Call2("mul_hi", a, b)
    case 3 => Call2("min", a, b)
    case 4 => Call2("ROTL32", a, Bin(Mod, b, Num(32, false)))
    case 5 => Call2("ROTR32", a, Bin(Mod, b, Num(32, false)))
    case 6 => Bin(Ampersand, a, b)
    case 7 => Bin(Bar, a, b)
    case 8 => Bin(Caret, a, b)
    case 9 => Bin(Plus, Call1("clz", a), Call1("clz", b))
    case _ => Bin(Plus, Call1("popcount", a), Call1("popcount", b))
  }

  function MergeExpr(a: Expr, b: Expr, r: Word): Expr {
    match MergeSel(r)
    case 0 => Bin(Plus, Paren(Bin(Times, a, Num(33, false))), b)
    case 1 => Bin(Times, Paren(Bin(Caret, a, b)), Num(33, false))
    case 2 => Bin(Caret, Call2("ROTL32", a, Num(MergeRot(r), false)), b)
    case _ => Bin(Caret, Call2("ROTR32", a, Num(MergeRot(r), false)), b)
  }

  function ShuffleStmt(): Stmt {
    Assign(V("offset"),
           Call2("subgroupShuffle", Mix(0), Bin(Plus, V("sg_base"), Paren(Bin(Mod, V("loop"), V("PROGPOW_LANES"))))))
  }
  function ModStmt(): Stmt { ModAssign(V("offset"), V("PROGPOW_DAG_ELEMENTS")) }
  function RowStmt(): Stmt {
    Assign(V("offset"),
           Bin(Plus, Bin(Times, V("offset"), V("PROGPOW_LANES")),
               Bin(Mod, Paren(Bin(Caret, V("lane_id"), V("loop"))), V("PROGPOW_LANES"))))
  }
  function LoadStmt(i: nat): Stmt {
    Assign(Load(i), Index("g_dag", Bin(Plus, Bin(Times, V("offset"), V("PROGPOW_DAG_LOADS")), Num(i, true))))
  }
  function HackStmt(): Stmt { IfCall("hack_false", "subgroupBarrier") }
  function MergeStmt(dst: nat, b: Expr, r: Word): Stmt { Assign(Mix(dst), MergeExpr(Mix(dst), b, r)) }
  function MathStmt(s1: nat, s2: nat, r: Word): Stmt { Assign(V("data"), MathExpr(Mix(s1), Mix(s2), r)) }
  function CacheIndexStmt(src: nat): Stmt { Assign(V("offset"), Bin(Mod, Mix(src), V("PROGPOW_CACHE_WORDS"))) }
  function CacheLoadStmt(): Stmt { Assign(V("data"), Index("c_dag", V("offset"))) }

  function OpStmts(op: Op): seq<Stmt> {
    match op
    case Global =>
      [ShuffleStmt(), ModStmt(), RowStmt(), LoadStmt(0), LoadStmt(1), LoadStmt(2), LoadStmt(3), HackStmt()]
    case Cache(src, dst, r) => [CacheIndexStmt(src), CacheLoadStmt(), MergeStmt(dst, V("data"), r)]
    case Math(s1, s2, dst, r1, r2) => [MathStmt(s1, s2, r1), MergeStmt(dst, V("data"), r2)]
    case DagMerge(dst, i, r) => (if i == 0 then [HackStmt()] else []) + [MergeStmt(dst, Load(i), r)]
  }

  function OpsStmts(ops: seq<Op>): seq<Stmt> {
    if ops == [] then [] else OpsStmts(ops[..|ops| - 1]) + OpStmts(ops[|ops| - 1])
  }

  function Declarations(): seq<Stmt> { [Declare("dag_t", "data_dag"), DeclareTwo("uint32_t", "offset", "data")] }

  function LoopStmts(ops: seq<Op>): seq<Stmt> {
    Declarations() + OpsStmts(ops)
  }

  function StmtsToks(stmts: seq<Stmt>): seq<Token> {
    if stmts == [] then [] else StmtToks(stmts[0]) + StmtsToks(stmts[1..])
  }

  // ---- the text of each line is the text of its statement ----

  lemma DecSmall()
    ensures Dec(0) == "0" && Dec(32) == "32" && Dec(33) == "33"
  {
    assert Dec(3) == "3";
  }

  lemma MixIsText(i: nat)
    ensures MixText(i) == Text(Mix(i)) && LoadText(i) == Text(Load(i))
  {
    NumText(i, false);
    hide Dec;
  }

  lemma NumText(n: nat, u: bool)
    ensures Text(Num(n, u)) == if u then Dec(n) + "u" else Dec(n)
  {
    hide Dec;
  }

  lemma RotateCallText(f: string, a: Expr, b: Expr)
    ensures Text(Call2(f, a, Bin(Mod, b, Num(32, false)))) == f + "(" + Text(a) + ", " + (Text(b) + " % " + "32") + ")"
  {
    DecSmall();
    NumText(32, false);
    hide Dec;
    assert Text(Bin(Mod, b, Num(32, false))) == Text(b) + " % " + "32";
  }

  lemma SumOfCallsText(f: string, a: Expr, b: Expr)
    ensures Text(Bin(Plus, Call1(f, a), Call1(f, b))) == (f + "(" + Text(a) + ")") + " + " + (f + "(" + Text(b) + ")")
  {
    assert Text(Call1(f, a)) == f + "(" + Text(a) + ")";
  }

  lemma PlainText(op: BinOp, f: string, a: Expr, b: Expr)
    ensures Text(Bin(op, a, b)) == Text(a) + Blanked(op) + Text(b)
    ensures Text(Call2(f, a, b)) == f + "(" + Text(a) + ", " + Text(b) + ")"
  {
  }

  lemma MathRhsIsText(a: Expr, b: Expr, r: Word)
    ensures MathRhs(Text(a), Text(b), r) == Text(MathExpr(a, b, r))
  {
    hide Text, MathSel;
    match MathSel(r)
    case 0 => PlainText(Plus, "", a, b);
    case 1 => PlainText(Times, "", a, b);
    case 2 => PlainText(Plus, "mul_hi", a, b);
    case 3 => PlainText(Plus, "min", a, b);
    case 4 => RotateCallText("ROTL32", a, b);
    case 5 => RotateCallText("ROTR32", a, b);
    case 6 => PlainText(Ampersand, "", a, b);
    case 7 => PlainText(Bar, "", a, b);
    case 8 => PlainText(Caret, "", a, b);
    case 9 => SumOfCallsText("clz", a, b);
    case _ => SumOfCallsText("popcount", a, b);
  }

  lemma MergeRhsIsText(a: Expr, b: Expr, r: Word)
    ensures MergeRhs(Text(a), Text(b), r) == Text(MergeExpr(a, b, r))
  {
    DecSmall();
    NumText(33, false);
    NumText(MergeRot(r), false);
    hide Dec, MergeSel, MergeRot;
    assert Text(Bin(Times, a, Num(33, false))) == Text(a) + " * " + "33";
    assert Text(Bin(Caret, a, b)) == Text(a) + " ^ " + Text(b);
    assert Text(Paren(Bin(Times, a, Num(33, false)))) == "(" + (Text(a) + " * " + "33") + ")";
    assert Text(Paren(Bin(Caret, a, b))) == "(" + (Text(a) + " ^ " + Text(b)) + ")";
  }

  lemma LineIsText(d: Expr, e: Expr)
    ensures (Text(d) + " = " + Text(e) + ";") + "\n" == StmtText(Assign(d, e))
  {
    hide Text;
    Cat3(Text(d) + " = " + Text(e), ";", "\n");
    assert ";\n" == ";" + "\n";
  }

  lemma MathIsText(d: Expr, a: Expr, b: Expr, r: Word)
    ensures MathText(Text(d), Text(a), Text(b), r) + "\n" == StmtText(Assign(d, MathExpr(a, b, r)))
  {
    hide Text, MathExpr, MathRhs, StmtText;
    MathRhsIsText(a, b, r);
    LineIsText(d, MathExpr(a, b, r));
  }

  lemma MergeIsText(a: Expr, b: Expr, r: Word)
    ensures MergeText(Text(a), Text(b), r) + "\n" == StmtText(Assign(a, MergeExpr(a, b, r)))
  {
    hide Text, MergeExpr, MergeRhs, StmtText;
    MergeRhsIsText(a, b, r);
    LineIsText(a, MergeExpr(a, b, r));
  }

  lemma GlobalIsText()
    ensures GLOBAL_SHUFFLE == StmtText(ShuffleStmt())
    ensures GLOBAL_MOD == StmtText(ModStmt())
    ensures GLOBAL_ROW == StmtText(RowStmt())
    ensures HACK == StmtText(HackStmt())
  {
    ShuffleIsText();
    RowIsText();
  }

  lemma ShuffleIsText()
    ensures GLOBAL_SHUFFLE == StmtText(ShuffleStmt())
  {
    DecSmall();
    NumText(0, false);
    hide Dec;
    var m := Bin(Mod, V("loop"), V("PROGPOW_LANES"));
    assert Text(m) == "loop" + " % " + "PROGPOW_LANES";
    assert Text(Paren(m)) == "(" + Text(m) + ")";
    var p := Bin(Plus, V("sg_base"), Paren(m));
    assert Text(p) == "sg_base" + " + " + Text(Paren(m));
    assert Text(Mix(0)) == "mix" + "[" + "0" + "]";
    assert Text(Call2("subgroupShuffle", Mix(0), p)) == "subgroupShuffle" + "(" + Text(Mix(0)) + ", " + Text(p) + ")";
  }

  lemma RowIsText()
    ensures GLOBAL_ROW == StmtText(RowStmt())
  {
    var o := Bin(Times, V("offset"), V("PROGPOW_LANES"));
    var x := Bin(Caret, V("lane_id"), V("loop"));
    assert Text(o) == "offset" + " * " + "PROGPOW_LANES";
    assert Text(x) == "lane_id" + " ^ " + "loop";
    assert Text(Paren(x)) == "(" + Text(x) + ")";
    var m := Bin(Mod, Paren(x), V("PROGPOW_LANES"));
    assert Text(m) == Text(Paren(x)) + " % " + "PROGPOW_LANES";
    assert Text(Bin(Plus, o, m)) == Text(o) + " + " + Text(m);
  }

  lemma GlobalLoadIsText(i: nat)
    ensures GlobalLoad(i) == StmtText(LoadStmt(i))
  {
    MixIsText(i);
    NumText(i, true);
    hide Dec;
    var o := Bin(Times, V("offset"), V("PROGPOW_DAG_LOADS"));
    assert Text(o) == "offset" + " * " + "PROGPOW_DAG_LOADS";
    var p := Bin(Plus, o, Num(i, true));
    assert Text(p) == Text(o) + " + " + (Dec(i) + "u");
    assert Text(Index("g_dag", p)) == "g_dag" + "[" + Text(p) + "]";
    hide LoadText, Load;
  }

  lemma CacheIsText(src: nat)
    ensures "offset" + " = " + (MixText(src) + " % " + "PROGPOW_CACHE_WORDS") + ";\n" == StmtText(CacheIndexStmt(src))
    ensures "data" + " = " + ("c_dag" + "[" + "offset" + "]") + ";\n" == StmtText(CacheLoadStmt())
  {
    MixIsText(src);
    hide MixText, Mix;
    assert Text(Bin(Mod, Mix(src), V("PROGPOW_CACHE_WORDS"))) == Text(Mix(src)) + " % " + "PROGPOW_CACHE_WORDS";
    assert Text(Index("c_dag", V("offset"))) == "c_dag" + "[" + "offset" + "]";
  }

  // ---- reading the text back ----

  /** Whatever follows, the lexer reads `s` as `ts`. */
  ghost predicate Reads(s: string, ts: seq<Token>) {
    forall rest: string :: Lex(s + rest) == ts + Lex(rest)
  }

  lemma ReadsStmt(st: Stmt)
    requires ProperStmt(st)
    ensures Reads(StmtText(st), StmtToks(st))
  {
    hide Lex, StmtText, StmtToks, ProperStmt;
    forall rest: string
      ensures Lex(StmtText(st) + rest) == StmtToks(st) + Lex(rest)
    {
      LexStmt(st, rest);
    }
  }

  lemma ReadsCat(s: string, t: string, ts: seq<Token>, us: seq<Token>)
    requires Reads(s, ts) && Reads(t, us)
    ensures Reads(s + t, ts + us)
  {
    hide Lex;
    forall rest: string
      ensures Lex((s + t) + rest) == (ts + us) + Lex(rest)
    {
      Cat3(s, t, rest);
      Cat3(ts, us, Lex(rest));
    }
  }

  /** A comment runs to the end of its line. */
  lemma {:induction false} SkipLine(c: string, rest: string)
    requires '\n' !in c
    ensures NextLine(c + ("\n" + rest)) == rest
  {
    if c == "" {
      assert c + ("\n" + rest) == "\n" + rest && ("\n" + rest)[1..] == rest;
    } else {
      assert (c + ("\n" + rest))[1..] == c[1..] + ("\n" + rest);
      SkipLine(c[1..], rest);
    }
  }

  lemma ReadsComment(c: string)
    requires '\n' !in c
    ensures Reads("//" + c + "\n", [])
  {
    forall rest: string
      ensures Lex(("//" + c + "\n") + rest) == [] + Lex(rest)
    {
      var s := ("//" + c + "\n") + rest;
      assert s[1..] == ("/" + c) + ("\n" + rest);
      SkipLine("/" + c, rest);
    }
  }

  lemma DigitsNoNewline(note: string, n: nat)
    requires '\n' !in note
    ensures '\n' !in note + Dec(n)
  {
    hide Dec;
    forall i | 0 <= i < |Dec(n)|
      ensures Dec(n)[i] != '\n'
    {
      assert IsDigit(Dec(n)[i]);
    }
  }

  lemma StmtsToksConcat(a: seq<Stmt>, b: seq<Stmt>)
    ensures StmtsToks(a + b) == StmtsToks(a) + StmtsToks(b)
  {
    hide StmtToks;
    if a == [] {
      assert a + b == b;
    } else {
      assert (a + b)[1..] == a[1..] + b;
      StmtsToksConcat(a[1..], b);
      Cat3(StmtToks(a[0]), StmtsToks(a[1..]), StmtsToks(b));
    }
  }

  lemma StmtsToksOne(a: Stmt)
    ensures StmtsToks([a]) == StmtToks(a)
  {
    hide StmtToks;
    assert StmtsToks([a][1..]) == [];
  }

  /** Appending one more line to the text `x` that follows `s`. */
  lemma ReadsMore(s: string, x: string, stmts: seq<Stmt>, more: seq<Stmt>, line: string, st: Stmt)
    requires Reads(s + x, StmtsToks(stmts + more)) && ProperStmt(st) && line == StmtText(st)
    ensures Reads(s + (x + line), StmtsToks(stmts + (more + [st])))
  {
    hide Reads, StmtText, StmtToks, ProperStmt, StmtsToks;
    ReadsStmt(st);
    ReadsCat(s + x, line, StmtsToks(stmts + more), StmtToks(st));
    StmtsToksConcat(stmts + more, [st]);
    StmtsToksOne(st);
    Cat3(stmts, more, [st]);
    Cat3(s, x, line);
  }

  /** Appending a comment line. */
  lemma ReadsNote(s: string, x: string, stmts: seq<Stmt>, more: seq<Stmt>, note: string)
    requires Reads(s + x, StmtsToks(stmts + more)) && '\n' !in note
    ensures Reads(s + (x + ("//" + note + "\n")), StmtsToks(stmts + more))
  {
    hide Reads, StmtsToks;
    ReadsComment(note);
    ReadsCat(s + x, "//" + note + "\n", StmtsToks(stmts + more), []);
    assert StmtsToks(stmts + more) + [] == StmtsToks(stmts + more);
    Cat3(s, x, "//" + note + "\n");
  }

  lemma ReadsNothing()
    ensures Reads("", StmtsToks([]))
  {
    hide Lex;
    forall rest: string
      ensures Lex("" + rest) == StmtsToks([]) + Lex(rest)
    {
      assert "" + rest == rest;
    }
  }

  // ---- every statement the renderer writes is properly parenthesised ----

  lemma FunctionNames()
    ensures IsName("mul_hi") && IsName("min") && IsName("ROTL32") && IsName("ROTR32") && IsName("clz") && IsName("popcount")
  {
  }

  lemma ProperMath(a: Expr, b: Expr, r: Word)
    requires Proper(a) && Proper(b) && Level(a) == 6 && Level(b) == 6
    ensures Proper(MathExpr(a, b, r))
  {
    FunctionNames();
    hide MathSel, IsName;
    assert Proper(Bin(Mod, b, Num(32, false)));
    assert Proper(Call1("clz", a)) && Proper(Call1("clz", b)) && Proper(Call1("popcount", a)) && Proper(Call1("popcount", b));
  }

  lemma ProperRotate(f: string, a: Expr, n: nat)
    requires IsName(f) && Proper(a)
    ensures Proper(Call2(f, a, Num(n, false)))
  {
    assert Proper(Num(n, false));
  }

  lemma ProperMerge(a: Expr, b: Expr, r: Word)
    requires Proper(a) && Proper(b) && Level(a) == 6 && Level(b) == 6
    ensures Proper(MergeExpr(a, b, r))
  {
    FunctionNames();
    hide MergeSel, MergeRot, IsName;
    var t, x := Bin(Times, a, Num(33, false)), Bin(Caret, a, b);
    ProperNum(33, false);
    ProperBin(Times, a, Num(33, false));
    ProperBin(Caret, a, b);
    ProperParen(t);
    ProperParen(x);
    ProperRotate("ROTL32", a, MergeRot(r));
    ProperRotate("ROTR32", a, MergeRot(r));
  }

  lemma ProperParen(e: Expr)
    requires Proper(e)
    ensures Proper(Paren(e)) && Level(Paren(e)) == 6
  {
  }

  lemma ProperMix(i: nat)
    ensures Proper(Mix(i)) && Proper(Load(i)) && Assignable(Mix(i)) && Assignable(Load(i))
    ensures Level(Mix(i)) == 6 && Level(Load(i)) == 6
  {
    assert IsName("mix") && IsName("data_dag") && IsName("s");
  }

  lemma ProperVars()
    ensures Proper(V("offset")) && Proper(V("data")) && Proper(V("loop")) && Proper(V("lane_id")) && Proper(V("sg_base"))
    ensures Assignable(V("offset")) && Assignable(V("data"))
  {
    assert IsName("offset") && IsName("data") && IsName("loop") && IsName("lane_id") && IsName("sg_base");
  }

  lemma ProperConstants()
    ensures Proper(V("PROGPOW_LANES")) && Proper(V("PROGPOW_DAG_ELEMENTS")) && Proper(V("PROGPOW_DAG_LOADS"))
    ensures Proper(V("PROGPOW_CACHE_WORDS"))
  {
    LanesName();
    ElementsName();
    LoadsName();
    WordsName();
    hide IsName;
  }

  lemma LanesName()
    ensures IsName("PROGPOW_LANES")
  {
  }

  lemma ElementsName()
    ensures IsName("PROGPOW_DAG_ELEMENTS")
  {
  }

  lemma LoadsName()
    ensures IsName("PROGPOW_DAG_LOADS")
  {
  }

  lemma WordsName()
    ensures IsName("PROGPOW_CACHE_WORDS")
  {
  }

  lemma Names()
    ensures IsName("hack_false") && IsName("subgroupBarrier") && IsName("subgroupShuffle") && IsName("g_dag") && IsName("c_dag")
  {
  }

  lemma ProperShuffle()
    ensures ProperStmt(ShuffleStmt())
  {
    ProperVars();
    ProperConstants();
    ProperMix(0);
    Names();
    LevelOfVars();
    hide V, Mix, IsName;
    var m := Bin(Mod, V("loop"), V("PROGPOW_LANES"));
    assert Proper(m);
    assert Proper(Paren(m)) && Level(Paren(m)) == 6;
    assert Proper(Bin(Plus, V("sg_base"), Paren(m)));
  }

  lemma ProperBin(op: BinOp, a: Expr, b: Expr)
    requires Proper(a) && Proper(b) && Level(a) == 6 && Level(b) == 6
    ensures Proper(Bin(op, a, b))
  {
  }

  lemma ProperRow()
    ensures ProperStmt(ModStmt()) && ProperStmt(RowStmt())
  {
    ProperVars();
    ProperConstants();
    LevelOfVars();
    hide V, IsName, Proper;
    var l, o := V("PROGPOW_LANES"), V("offset");
    var x := Bin(Caret, V("lane_id"), V("loop"));
    ProperBin(Caret, V("lane_id"), V("loop"));
    ProperParen(x);
    ProperBin(Mod, Paren(x), l);
    ProperBin(Times, o, l);
    ProperSum(Bin(Times, o, l), Bin(Mod, Paren(x), l));
  }

  lemma ProperSum(a: Expr, b: Expr)
    requires Proper(a) && Proper(b) && Level(a) >= 5 && Level(b) >= 5
    ensures Proper(Bin(Plus, a, b))
  {
  }

  lemma ProperLoad(i: nat)
    ensures ProperStmt(LoadStmt(i))
  {
    ProperVars();
    ProperConstants();
    ProperMix(i);
    LevelOfVars();
    ProperNum(i, true);
    hide V, Load, Proper, IsName;
    var t := Bin(Times, V("offset"), V("PROGPOW_DAG_LOADS"));
    ProperBin(Times, V("offset"), V("PROGPOW_DAG_LOADS"));
    ProperSum(t, Num(i, true));
    ProperIndex("g_dag", Bin(Plus, t, Num(i, true)));
  }

  lemma ProperNum(i: nat, u: bool)
    ensures Proper(Num(i, u)) && Level(Num(i, u)) == 6
  {
  }

  lemma ProperIndex(x: string, e: Expr)
    requires Proper(e) && x == "g_dag"
    ensures Proper(Index(x, e))
  {
    Names();
    hide IsName;
  }

  lemma ProperGlobal(i: nat)
    ensures ProperStmt(ShuffleStmt()) && ProperStmt(ModStmt()) && ProperStmt(RowStmt()) && ProperStmt(LoadStmt(i))
    ensures ProperStmt(HackStmt())
  {
    ProperShuffle();
    ProperRow();
    ProperLoad(i);
    Names();
    hide ShuffleStmt, ModStmt, RowStmt, LoadStmt, IsName;
  }

  lemma LevelOfVars()
    ensures forall x: string :: Level(V(x)) == 6
  {
  }

  lemma ProperCache(src: nat)
    ensures ProperStmt(CacheIndexStmt(src)) && ProperStmt(CacheLoadStmt())
  {
    ProperVars();
    ProperConstants();
    LevelOfVars();
    ProperMix(src);
    Names();
    hide V, Mix, Load, IsName;
  }

  lemma ProperMathStmt(s1: nat, s2: nat, r: Word)
    ensures ProperStmt(MathStmt(s1, s2, r))
  {
    ProperVars();
    ProperMix(s1);
    ProperMix(s2);
    ProperMath(Mix(s1), Mix(s2), r);
    hide V, Mix, Load, MathExpr, IsName;
  }

  lemma ProperMerges(dst: nat, r: Word, i: nat)
    ensures ProperStmt(MergeStmt(dst, V("data"), r)) && ProperStmt(MergeStmt(dst, Load(i), r))
  {
    ProperVars();
    LevelOfVars();
    ProperMix(dst);
    ProperMix(i);
    hide V, Mix, Load, MergeExpr, IsName;
    ProperMerge(Mix(dst), V("data"), r);
    ProperMerge(Mix(dst), Load(i), r);
  }

  lemma ProperOps(src: nat, s1: nat, s2: nat, dst: nat, r: Word, i: nat)
    ensures ProperStmt(CacheIndexStmt(src)) && ProperStmt(CacheLoadStmt()) && ProperStmt(MathStmt(s1, s2, r))
    ensures ProperStmt(MergeStmt(dst, V("data"), r)) && ProperStmt(MergeStmt(dst, Load(i), r))
  {
    hide ProperStmt, MathStmt, MergeStmt, CacheIndexStmt, CacheLoadStmt;
    ProperCache(src);
    ProperMathStmt(s1, s2, r);
    ProperMerges(dst, r, i);
  }

  // ---- the whole text ----

  lemma ReadsStart(s: string, stmts: seq<Stmt>, note: string)
    requires Reads(s, StmtsToks(stmts)) && '\n' !in note
    ensures Reads(s + ("//" + note + "\n"), StmtsToks(stmts + []))
  {
    hide Reads, StmtsToks;
    assert s + "" == s && stmts + [] == stmts;
    ReadsNote(s, "", stmts, [], note);
    assert "" + ("//" + note + "\n") == "//" + note + "\n";
  }

  lemma ReadsGlobal(s: string, stmts: seq<Stmt>)
    requires Reads(s, StmtsToks(stmts))
    ensures Reads(s + OpText(Global, 0, 0), StmtsToks(stmts + OpStmts(Global)))
  {
    hide Reads, StmtsToks, StmtText, ProperStmt, GlobalLoad;
    hide ShuffleStmt, ModStmt, RowStmt, LoadStmt, HackStmt;
    assert '\n' !in " global load";
    ReadsStart(s, stmts, " global load");
    GlobalIsText();
    ProperGlobal(0);
    var x, m := "//" + " global load" + "\n", [];
    ReadsMore(s, x, stmts, m, GLOBAL_SHUFFLE, ShuffleStmt());
    x, m := x + GLOBAL_SHUFFLE, m + [ShuffleStmt()];
    ReadsMore(s, x, stmts, m, GLOBAL_MOD, ModStmt());
    x, m := x + GLOBAL_MOD, m + [ModStmt()];
    ReadsMore(s, x, stmts, m, GLOBAL_ROW, RowStmt());
    x, m := x + GLOBAL_ROW, m + [RowStmt()];
    x, m := ReadsLoad(s, x, stmts, m, 0);
    x, m := ReadsLoad(s, x, stmts, m, 1);
    x, m := ReadsLoad(s, x, stmts, m, 2);
    x, m := ReadsLoad(s, x, stmts, m, 3);
    ReadsHackNote(s, x, stmts, m);
    x := x + HACK_COMMENT;
    ReadsMore(s, x, stmts, m, HACK, HackStmt());
    m := m + [HackStmt()];
    assert m == OpStmts(Global);
  }

  lemma ReadsLoad(s: string, x: string, stmts: seq<Stmt>, m: seq<Stmt>, i: nat) returns (x': string, m': seq<Stmt>)
    requires Reads(s + x, StmtsToks(stmts + m))
    ensures x' == x + GlobalLoad(i) && m' == m + [LoadStmt(i)]
    ensures Reads(s + x', StmtsToks(stmts + m'))
  {
    hide Reads, StmtsToks, StmtText, ProperStmt, GlobalLoad, LoadStmt;
    ProperGlobal(i);
    GlobalLoadIsText(i);
    ReadsMore(s, x, stmts, m, GlobalLoad(i), LoadStmt(i));
    x', m' := x + GlobalLoad(i), m + [LoadStmt(i)];
  }

  lemma ReadsHackNote(s: string, x: string, stmts: seq<Stmt>, m: seq<Stmt>)
    requires Reads(s + x, StmtsToks(stmts + m))
    ensures Reads(s + (x + HACK_COMMENT), StmtsToks(stmts + m))
  {
    hide Reads, StmtsToks;
    assert '\n' !in " hack to prevent" && '\n' !in " compiler from" && '\n' !in " reordering LD and usage";
    ReadsNote(s, x, stmts, m, HACK_NOTE);
  }

  lemma ReadsCache(s: string, stmts: seq<Stmt>, src: Reg, dst: Reg, r: Word, cacheI: nat)
    requires Reads(s, StmtsToks(stmts))
    ensures Reads(s + OpText(Cache(src, dst, r), cacheI, 0), StmtsToks(stmts + OpStmts(Cache(src, dst, r))))
  {
    hide Reads, StmtsToks, StmtText, ProperStmt, MergeText, MixText, CacheIndexStmt, CacheLoadStmt, MergeStmt, Dec;
    assert '\n' !in " cache load ";
    var note := " cache load " + Dec(cacheI);
    DigitsNoNewline(" cache load ", cacheI);
    ReadsStart(s, stmts, note);
    CacheIsText(src);
    ProperOps(src, src, src, dst, r, 0);
    var x, m := "//" + note + "\n", [];
    var l1 := "offset" + " = " + (MixText(src) + " % " + "PROGPOW_CACHE_WORDS") + ";\n";
    ReadsMore(s, x, stmts, m, l1, CacheIndexStmt(src));
    x, m := x + l1, m + [CacheIndexStmt(src)];
    var l2 := "data" + " = " + ("c_dag" + "[" + "offset" + "]") + ";\n";
    ReadsMore(s, x, stmts, m, l2, CacheLoadStmt());
    x, m := x + l2, m + [CacheLoadStmt()];
    MergeLine(dst, V("data"), "data", r);
    ReadsMore(s, x, stmts, m, MergeText(MixText(dst), "data", r) + "\n", MergeStmt(dst, V("data"), r));
    assert m + [MergeStmt(dst, V("data"), r)] == OpStmts(Cache(src, dst, r));
  }

  lemma MergeLine(dst: nat, b: Expr, t: string, r: Word)
    requires Text(b) == t
    ensures MergeText(MixText(dst), t, r) + "\n" == StmtText(MergeStmt(dst, b, r))
  {
    MixIsText(dst);
    hide MergeText, MixText, Mix, MergeExpr, StmtText;
    MergeIsText(Mix(dst), b, r);
  }

  lemma MathLine(s1: nat, s2: nat, r: Word)
    ensures MathText("data", MixText(s1), MixText(s2), r) + "\n" == StmtText(MathStmt(s1, s2, r))
  {
    MixIsText(s1);
    MixIsText(s2);
    hide MathText, MixText, Mix, MathExpr, StmtText;
    MathIsText(V("data"), Mix(s1), Mix(s2), r);
  }

  lemma ReadsMath(s: string, stmts: seq<Stmt>, s1: Reg, s2: Reg, dst: Reg, r1: Word, r2: Word, mathI: nat)
    requires Reads(s, StmtsToks(stmts))
    ensures Reads(s + OpText(Math(s1, s2, dst, r1, r2), 0, mathI), StmtsToks(stmts + OpStmts(Math(s1, s2, dst, r1, r2))))
  {
    hide Reads, StmtsToks, StmtText, ProperStmt, MergeText, MathText, MixText, MathStmt, MergeStmt, Dec;
    assert '\n' !in " random math ";
    var note := " random math " + Dec(mathI);
    DigitsNoNewline(" random math ", mathI);
    ReadsStart(s, stmts, note);
    var x, m := "//" + note + "\n", [];
    ProperOps(s1, s1, s2, dst, r1, 0);
    MathLine(s1, s2, r1);
    var l1 := MathText("data", MixText(s1), MixText(s2), r1) + "\n";
    ReadsMore(s, x, stmts, m, l1, MathStmt(s1, s2, r1));
    x, m := x + l1, m + [MathStmt(s1, s2, r1)];
    ProperOps(s1, s1, s2, dst, r2, 0);
    MergeLine(dst, V("data"), "data", r2);
    ReadsMore(s, x, stmts, m, MergeText(MixText(dst), "data", r2) + "\n", MergeStmt(dst, V("data"), r2));
    assert m + [MergeStmt(dst, V("data"), r2)] == OpStmts(Math(s1, s2, dst, r1, r2));
  }

  lemma ReadsMerge(s: string, stmts: seq<Stmt>, dst: Reg, i: LoadIndex, r: Word)
    requires Reads(s, StmtsToks(stmts))
    ensures Reads(s + OpText(DagMerge(dst, i, r), 0, 0), StmtsToks(stmts + OpStmts(DagMerge(dst, i, r))))
  {
    hide Reads, StmtsToks, StmtText, ProperStmt, MergeText, MixText, LoadText, MergeStmt, HackStmt, Load;
    var x: string, m: seq<Stmt> := "", [];
    assert s + "" == s && stmts + [] == stmts;
    if i == 0 {
      assert '\n' !in " consume global load" && '\n' !in " data";
      assert " consume global load data" == " consume global load" + " data";
      ReadsStart(s, stmts, " consume global load data");
      x := "//" + " consume global load data" + "\n";
      ReadsHackNote(s, x, stmts, m);
      x := x + HACK_COMMENT;
      ProperGlobal(0);
      GlobalIsText();
      ReadsMore(s, x, stmts, m, HACK, HackStmt());
      x, m := x + HACK, m + [HackStmt()];
    }
    MixIsText(i);
    ProperOps(0, 0, 0, dst, r, i);
    MergeLine(dst, Load(i), LoadText(i), r);
    ReadsMore(s, x, stmts, m, MergeText(MixText(dst), LoadText(i), r) + "\n", MergeStmt(dst, Load(i), r));
    assert m + [MergeStmt(dst, Load(i), r)] == OpStmts(DagMerge(dst, i, r));
  }

  lemma ReadsOp(s: string, stmts: seq<Stmt>, op: Op, cacheI: nat, mathI: nat)
    requires Reads(s, StmtsToks(stmts))
    ensures Reads(s + OpText(op, cacheI, mathI), StmtsToks(stmts + OpStmts(op)))
  {
    hide Reads, StmtsToks, OpStmts;
    match op
    case Global =>
      ReadsGlobal(s, stmts);
    case Cache(src, dst, r) =>
      ReadsCache(s, stmts, src, dst, r, cacheI);
    case Math(s1, s2, dst, r1, r2) =>
      ReadsMath(s, stmts, s1, s2, dst, r1, r2, mathI);
    case DagMerge(dst, i, r) =>
      ReadsMerge(s, stmts, dst, i, r);
  }

  lemma ReadsBlank(c: char, t: string, ts: seq<Token>)
    requires IsBlank(c) && Reads(t, ts)
    ensures Reads([c] + t, ts)
  {
    hide Lex;
    forall rest: string
      ensures Lex(([c] + t) + rest) == ts + Lex(rest)
    {
      Cat3([c], t, rest);
      LexBlank(c, t + rest);
    }
  }

  lemma ReadsMark(c: char, t: string, ts: seq<Token>)
    requires IsMark(c) && Reads(t, ts)
    ensures Reads([c] + t, [S(c)] + ts)
  {
    hide Lex;
    forall rest: string
      ensures Lex(([c] + t) + rest) == ([S(c)] + ts) + Lex(rest)
    {
      Cat3([c], t, rest);
      LexMark(c, t + rest);
      Cat3([S(c)], ts, Lex(rest));
    }
  }

  lemma ReadsWord(w: string, t: string, ts: seq<Token>)
    requires IsWord(w) && t != "" && !IsWordChar(t[0]) && Reads(t, ts)
    ensures Reads(w + t, [W(w)] + ts)
  {
    hide Lex, IsWord;
    forall rest: string
      ensures Lex((w + t) + rest) == ([W(w)] + ts) + Lex(rest)
    {
      Cat3(w, t, rest);
      LexWord(w, t + rest);
      Cat3([W(w)], ts, Lex(rest));
    }
  }

  lemma ReadsSpaced(w: string, t: string, ts: seq<Token>)
    requires IsWord(w) && Reads(t, ts)
    ensures Reads(Spaced(w, t), [W(w)] + ts)
  {
    hide Reads, IsWord;
    ReadsBlank(' ', t, ts);
    ReadsWord(w, " " + t, ts);
  }

  lemma ReadsMarked(w: string, c: char, t: string, ts: seq<Token>)
    requires IsWord(w) && IsMark(c) && Reads(t, ts)
    ensures Reads(Marked(w, c, t), [W(w), S(c)] + ts)
  {
    hide Reads, IsWord;
    ReadsMark(c, t, ts);
    ReadsWord(w, [c] + t, [S(c)] + ts);
    assert [W(w)] + ([S(c)] + ts) == [W(w), S(c)] + ts;
  }

  function ParamToks3(): seq<Token> {
    [W("uint32_t")] + ([W("sg_base"), S(',')] + ([W("bool")] + ([W("hack_false"), S(')')] + [])))
  }
  function ParamToks2(): seq<Token> {
    [W("PROGPOW_REGS"), S(']')] + ([S(',')] + ([W("uint32_t")] + ([W("lane_id"), S(',')] + ParamToks3())))
  }
  function ParamToks1(): seq<Token> {
    [W("const")] + ([W("uint32_t")] + ([W("loop"), S(',')] + ([W("inout")] + ([W("uint32_t")] + ([W("mix"), S('[')] + ParamToks2())))))
  }
  function SignatureToks(): seq<Token> { [W("void")] + ([W("progPowLoop"), S('(')] + ParamToks1()) }

  lemma SignatureWords()
    ensures IsWord("void") && IsWord("progPowLoop") && IsWord("const") && IsWord("uint32_t") && IsWord("loop") && IsWord("inout")
    ensures IsWord("mix") && IsWord("PROGPOW_REGS") && IsWord("lane_id") && IsWord("sg_base") && IsWord("bool") && IsWord("hack_false")
  {
  }

  lemma ReadsParams3()
    ensures Reads(PARAMS_3, ParamToks3())
  {
    SignatureWords();
    hide IsWord, Reads, Spaced, Marked;
    ReadsNewline();
    ReadsMarked("hack_false", ')', "\n", []);
    var t1 := Marked("hack_false", ')', "\n");
    ReadsSpaced("bool", t1, [W("hack_false"), S(')')] + []);
    var t2 := Spaced("bool", t1);
    ReadsBlank(' ', t2, [W("bool")] + ([W("hack_false"), S(')')] + []));
    ReadsMarked("sg_base", ',', " " + t2, [W("bool")] + ([W("hack_false"), S(')')] + []));
    var t3 := Marked("sg_base", ',', " " + t2);
    ReadsSpaced("uint32_t", t3, [W("sg_base"), S(',')] + ([W("bool")] + ([W("hack_false"), S(')')] + [])));
    ReadsBlank(' ', Spaced("uint32_t", t3), ParamToks3());
  }

  lemma ReadsNewline()
    ensures Reads("\n", [])
  {
    hide Lex;
    forall rest: string
      ensures Lex("\n" + rest) == [] + Lex(rest)
    {
      LexBlank('\n', rest);
    }
  }

  lemma ReadsIndent(t: string, ts: seq<Token>)
    requires Reads(t, ts)
    ensures Reads("        " + t, ts)
  {
    hide Reads;
    var t2 := " " + (" " + t);
    ReadsBlank(' ', t, ts);
    ReadsBlank(' ', " " + t, ts);
    assert "  " + t == t2;
    var t4 := " " + (" " + t2);
    ReadsBlank(' ', t2, ts);
    ReadsBlank(' ', " " + t2, ts);
    assert "    " + t == t4;
    var t6 := " " + (" " + t4);
    ReadsBlank(' ', t4, ts);
    ReadsBlank(' ', " " + t4, ts);
    ReadsBlank(' ', t6, ts);
    ReadsBlank(' ', " " + t6, ts);
    assert "        " + t == " " + (" " + t6);
  }

  lemma ReadsParams2()
    ensures Reads(PARAMS_2, ParamToks2())
  {
    SignatureWords();
    hide IsWord, Reads, Spaced, Marked, ParamToks3;
    ReadsParams3();
    var ts := ParamToks3();
    ReadsMarked("lane_id", ',', PARAMS_3, ts);
    var t1 := Marked("lane_id", ',', PARAMS_3);
    ReadsSpaced("uint32_t", t1, [W("lane_id"), S(',')] + ts);
    var t2, u2 := Spaced("uint32_t", t1), [W("uint32_t")] + ([W("lane_id"), S(',')] + ts);
    ReadsIndent(t2, u2);
    ReadsBlank('\n', "        " + t2, u2);
    var t3 := "\n" + ("        " + t2);
    ReadsMark(',', t3, u2);
    ReadsMarked("PROGPOW_REGS", ']', "," + t3, [S(',')] + u2);
  }

  lemma ReadsSignature()
    ensures Reads(SIGNATURE, SignatureToks())
  {
    SignatureWords();
    hide IsWord, Reads, Spaced, Marked, ParamToks2;
    ReadsParams2();
    var u1 := [W("mix"), S('[')] + ParamToks2();
    ReadsMarked("mix", '[', PARAMS_2, ParamToks2());
    var t1 := Marked("mix", '[', PARAMS_2);
    ReadsSpaced("uint32_t", t1, u1);
    var t2, u2 := Spaced("uint32_t", t1), [W("uint32_t")] + u1;
    ReadsSpaced("inout", t2, u2);
    var t3, u3 := Spaced("inout", t2), [W("inout")] + u2;
    ReadsBlank(' ', t3, u3);
    ReadsMarked("loop", ',', " " + t3, u3);
    var t4, u4 := Marked("loop", ',', " " + t3), [W("loop"), S(',')] + u3;
    ReadsSpaced("uint32_t", t4, u4);
    ReadsSpaced("const", Spaced("uint32_t", t4), [W("uint32_t")] + u4);
    ReadsMarked("progPowLoop", '(', PARAMS_1, ParamToks1());
    ReadsSpaced("void", Marked("progPowLoop", '(', PARAMS_1), [W("progPowLoop"), S('(')] + ParamToks1());
  }

  // ---- parsing the rendered function ----

  function ParseBody(ts: seq<Token>): Option<seq<Stmt>>
    decreases |ts|
  {
    if ts == [S('}')] then Some([])
    else
      var (st, rest) :- ParseStmt(ts);
      var more :- ParseBody(rest);
      Some([st] + more)
  }

  /** A function with the expected signature, and its statements. */
  function ParseLoop(text: string): Option<seq<Stmt>> {
    var ts := Lex(text);
    var head := SignatureToks() + [S('{')];
    if head <= ts then ParseBody(ts[|head|..]) else None
  }

  ghost predicate AllProper(stmts: seq<Stmt>) { forall k :: 0 <= k < |stmts| ==> ProperStmt(stmts[k]) }

  lemma {:induction false} ParseStmts(stmts: seq<Stmt>)
    requires AllProper(stmts)
    ensures ParseBody(StmtsToks(stmts) + [S('}')]) == Some(stmts)
  {
    hide ParseStmt, StmtToks, ProperStmt;
    if stmts == [] {
      assert StmtsToks(stmts) + [S('}')] == [S('}')];
    } else {
      var rest := StmtsToks(stmts[1..]) + [S('}')];
      ParseStmts(stmts[1..]);
      ParsePrintedStmt(stmts[0], rest);
      Cat3(StmtToks(stmts[0]), StmtsToks(stmts[1..]), [S('}')]);
      StartsWithWord(stmts[0]);
      assert stmts == [stmts[0]] + stmts[1..];
    }
  }

  lemma StartsWithWord(st: Stmt)
    requires ProperStmt(st)
    ensures |StmtToks(st)| > 0 && StmtToks(st)[0].W?
  {
    hide Proper;
  }

  lemma {:induction false} ReadsOps(s: string, stmts: seq<Stmt>, ops: seq<Op>)
    requires Reads(s, StmtsToks(stmts))
    ensures Reads(s + OpsText(ops), StmtsToks(stmts + OpsStmts(ops)))
  {
    hide Reads, OpText, OpStmts, StmtsToks;
    if ops == [] {
      assert s + "" == s && stmts + [] == stmts;
    } else {
      var init, op := ops[..|ops| - 1], ops[|ops| - 1];
      ReadsOps(s, stmts, init);
      ReadsOp(s + OpsText(init), stmts + OpsStmts(init), op, CacheOps(init), MathOps(init));
      Cat3(s, OpsText(init), OpText(op, CacheOps(init), MathOps(init)));
      Cat3(stmts, OpsStmts(init), OpStmts(op));
    }
  }

  lemma OpProper(op: Op)
    ensures AllProper(OpStmts(op))
  {
    hide ProperStmt, ShuffleStmt, ModStmt, RowStmt, LoadStmt, HackStmt, MergeStmt, MathStmt, CacheIndexStmt, CacheLoadStmt;
    ProperGlobal(0);
    match op
    case Global =>
      ProperGlobal(1);
      ProperGlobal(2);
      ProperGlobal(3);
    case Cache(src, dst, r) => ProperOps(src, 0, 0, dst, r, 0);
    case Math(s1, s2, dst, r1, r2) =>
      ProperOps(0, s1, s2, 0, r1, 0);
      ProperOps(0, 0, 0, dst, r2, 0);
    case DagMerge(dst, i, r) => ProperOps(0, 0, 0, dst, r, i);
  }

  lemma {:induction false} OpsProper(ops: seq<Op>)
    ensures AllProper(OpsStmts(ops))
  {
    hide ProperStmt, OpStmts;
    if ops != [] {
      OpsProper(ops[..|ops| - 1]);
      OpProper(ops[|ops| - 1]);
    }
  }

  lemma ProperDeclarations()
    ensures ProperStmt(Declare("dag_t", "data_dag")) && ProperStmt(DeclareTwo("uint32_t", "offset", "data"))
  {
    assert IsName("dag_t") && IsName("data_dag") && IsName("uint32_t") && IsName("offset") && IsName("data");
  }

  lemma ReadsDeclarations()
    ensures Reads(DECLARATIONS, StmtsToks([Declare("dag_t", "data_dag"), DeclareTwo("uint32_t", "offset", "data")]))
  {
    hide Reads, StmtsToks, ProperStmt, StmtToks;
    var d1, d2 := Declare("dag_t", "data_dag"), DeclareTwo("uint32_t", "offset", "data");
    ProperDeclarations();
    ReadsNothing();
    assert "" + "" == "";
    var none: seq<Stmt> := [];
    assert none + none == none;
    ReadsMore("", "", none, none, StmtText(d1), d1);
    ReadsMore("", "" + StmtText(d1), none, none + [d1], StmtText(d2), d2);
    assert none + (none + [d1] + [d2]) == [d1, d2];
    assert "" + ("" + StmtText(d1) + StmtText(d2)) == StmtText(d1) + StmtText(d2);
  }

  lemma ReadsBrace(c: char)
    requires c == '{' || c == '}'
    ensures Reads([c] + "\n", [S(c)])
  {
    hide Reads;
    ReadsNewline();
    ReadsMark(c, "\n", []);
    assert [S(c)] + [] == [S(c)];
  }

  lemma ReadsOpening(progSeed: nat)
    ensures Reads(OpeningText(progSeed), SignatureToks() + [S('{')])
  {
    hide Reads, SignatureToks, Dec;
    assert '\n' !in " Inner loop" && '\n' !in " for prog_seed ";
    assert " Inner loop for prog_seed " == " Inner loop" + " for prog_seed ";
    DigitsNoNewline(" Inner loop for prog_seed ", progSeed);
    ReadsComment(" Inner loop for prog_seed " + Dec(progSeed));
    ReadsSignature();
    var c := "//" + (" Inner loop for prog_seed " + Dec(progSeed)) + "\n";
    ReadsCat(c, SIGNATURE, [], SignatureToks());
    assert [] + SignatureToks() == SignatureToks();
    ReadsBrace('{');
    ReadsCat(c + SIGNATURE, "{" + "\n", SignatureToks(), [S('{')]);
  }

  /** The text of any program lexes and parses, with C precedence, to the statements of its operations. */
  lemma LoopTextParses(progSeed: nat, ops: seq<Op>)
    ensures ParseLoop(LoopText(progSeed, ops)) == Some(LoopStmts(ops))
  {
    hide Reads, StmtsToks, SignatureToks, OpsText, OpeningText, ParseBody;
    var decls := [Declare("dag_t", "data_dag"), DeclareTwo("uint32_t", "offset", "data")];
    ReadsDeclarations();
    ReadsOps(DECLARATIONS, decls, ops);
    ReadsBrace('}');
    var body := DECLARATIONS + OpsText(ops);
    var toks := StmtsToks(LoopStmts(ops));
    ReadsCat(body, "}" + "\n", toks, [S('}')]);
    ReadsOpening(progSeed);
    var head := SignatureToks() + [S('{')];
    ReadsCat(OpeningText(progSeed), body + ("}" + "\n"), head, toks + [S('}')]);
    assert LoopText(progSeed, ops) == OpeningText(progSeed) + (body + ("}" + "\n")) by {
      Cat4(OpeningText(progSeed), DECLARATIONS, OpsText(ops), "}" + "\n");
      Cat3(DECLARATIONS, OpsText(ops), "}" + "\n");
    }
    ReadsAll(LoopText(progSeed, ops), head + (toks + [S('}')]));
    assert (head + (toks + [S('}')]))[|head|..] == toks + [S('}')];
    OpsProper(ops);
    ProperDeclarations();
    hide ProperStmt;
    ParseStmts(LoopStmts(ops));
  }

  lemma ReadsAll(s: string, ts: seq<Token>)
    requires Reads(s, ts)
    ensures Lex(s) == ts
  {
    assert s + "" == s;
    assert Lex("") == [];
  }
}
