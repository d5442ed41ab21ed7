/** Running parsed shader statements on one lane, and what the statements of each operation compute. */
module GlslExec {
  import opened Arith
  import opened Bits
  import opened Words
  import opened Options
  import opened ProgPow
  import opened Interpreter
  import opened Glsl
  import opened GlslText
  import opened Render
  import ProgramStructure

  /** What a lane sees besides its own registers. */
  datatype Env = Env(loop: Word, laneId: Word, sgBase: Word, gDag: seq<Word>, cDag: CacheWords, dagElements: Positive)

  /** The variables `progPowLoop` works on. */
  datatype Frame = Frame(mix: Regs, offset: Word, data: Word, dataDag: Row)

  // ---- the shader's own helper functions ----

  function GlslRotl(x: Word, n: Word): Word {
    And31(n);
    var m := And(n, 31);
    if m == 0 then x else Or(Shl(x, m), Shr(x, 32 - m))
  }
  function GlslRotr(x: Word, n: Word): Word {
    And31(n);
    var m := And(n, 31);
    if m == 0 then x else Or(Shr(x, m), Shl(x, 32 - m))
  }

  /** `findMSB` of the low `k` digits: the place of the highest set digit, -1 if there is none. */
  function FindMsb(x: nat, k: nat): int {
    if k == 0 then -1 else if Bit(x, k - 1) then k - 1 else FindMsb(x, k - 1)
  }
  function GlslClz(x: Word): Word {
    if x == 0 then 32 else
      FindMsbRange(x, 32);
      31 - FindMsb(x, 32)
  }

  lemma {:induction false} FindMsbRange(x: nat, k: nat)
    ensures -1 <= FindMsb(x, k) < k
  {
    if k > 0 && !Bit(x, k - 1) {
      FindMsbRange(x, k - 1);
    }
  }

  lemma {:induction false} MsbIsClz(x: nat, k: nat)
    ensures FindMsb(x, k) == k - 1 - LeadingZeros(x, k)
  {
    if k > 0 && !Bit(x, k - 1) {
      MsbIsClz(x, k - 1);
    }
  }

  lemma {:induction false} NoBits(x: nat, k: nat)
    requires x == 0
    ensures LeadingZeros(x, k) == k
  {
    if k > 0 {
      HighBit(0, 0, k - 1);
      NoBits(x, k - 1);
    }
  }

  lemma GlslClzAgrees(x: Word)
    ensures GlslClz(x) == Clz(x)
  {
    MsbIsClz(x, 32);
    NoBits(0, 32);
  }

  lemma And31(n: Word)
    ensures And(n, 31) == n % 32
  {
    AndMask(n, 5, 32);
    Pow2Table();
  }

  /** The two halves of a rotation do not overlap, so `|` adds them. */
  lemma HalvesJoin(x: Word, m: nat)
    requires 0 < m < 32
    ensures Or(Shl(x, m), Shr(x, 32 - m)) == x % Pow2(32 - m) * Pow2(m) + x / Pow2(32 - m)
  {
    var p, q := Pow2(32 - m), Pow2(m);
    RotateFits(m);
    var hi, lo := x / p, x % p;
    DivMod(x, p);
    DivBound(x, p, q);
    TwoDigits(lo, hi, p, q);
    ShiftDropsHigh(x, p, q, hi, lo);
    Pow2Table();
    hide Pow2, Bitwise;
    OrDisjoint(lo, hi, m, 32);
  }

  lemma HalvesJoinRight(x: Word, m: nat)
    requires 0 < m < 32
    ensures Or(Shr(x, m), Shl(x, 32 - m)) == x % Pow2(m) * Pow2(32 - m) + x / Pow2(m)
  {
    hide Or, Shl, Shr, Pow2;
    var k := 32 - m;
    HalvesJoin(x, k);
    OrCommutes(Shr(x, m), Shl(x, k));
    assert 32 - k == m;
  }

  lemma ShiftDropsHigh(x: Word, p: nat, q: nat, hi: nat, lo: nat)
    requires p > 0 && p * q == 0x1_0000_0000 && x == p * hi + lo && lo * q < 0x1_0000_0000
    ensures x * q % 0x1_0000_0000 == lo * q
  {
    DistAdd(q, p * hi, lo);
    MulAssoc(p, hi, q);
    MulAssoc(p, q, hi);
    MulComm(hi, q);
    assert x * q == hi * 0x1_0000_0000 + lo * q;
    ModMul(hi, 0x1_0000_0000, lo * q);
  }

  lemma RotlHalves(x: Word, n: Word)
    ensures Rotl(x, n) == x % Pow2(32 - n % 32) * Pow2(n % 32) + x / Pow2(32 - n % 32)
  {
    hide Pow2;
  }

  lemma GlslRotlAgrees(x: Word, n: Word)
    ensures GlslRotl(x, n) == Rotl(x, n)
  {
    And31(n);
    RotlHalves(x, n);
    var m := n % 32;
    hide And, Or, Shl, Shr, Rotl, Pow2;
    if m == 0 {
      RotateByZero(x);
    } else {
      HalvesJoin(x, m);
    }
  }

  lemma RotateByZero(x: Word)
    ensures x % Pow2(32) * Pow2(0) + x / Pow2(32) == x
    ensures x % Pow2(0) * Pow2(32) + x / Pow2(0) == x
  {
    Pow2Table();
  }

  lemma OrCommutes(a: Word, b: Word)
    ensures Or(a, b) == Or(b, a)
  {
    hide Or, Bit;
    forall i | 0 <= i < 32
      ensures Bit(Or(a, b), i) == Bit(Or(b, a), i)
    {
      BitOr(a, b, i);
      BitOr(b, a, i);
    }
    SameWord(Or(a, b), Or(b, a));
  }

  lemma RotrHalves(x: Word, n: Word)
    ensures Rotr(x, n) == x % Pow2(n % 32) * Pow2(32 - n % 32) + x / Pow2(n % 32)
  {
    hide Pow2;
  }

  lemma GlslRotrAgrees(x: Word, n: Word)
    ensures GlslRotr(x, n) == Rotr(x, n)
  {
    And31(n);
    RotrHalves(x, n);
    var m := n % 32;
    hide And, Or, Shl, Shr, Rotr, Pow2;
    if m == 0 {
      RotateByZero(x);
    } else {
      HalvesJoinRight(x, m);
    }
  }

  // ---- evaluation ----

  /** A named value; defines of the shader included. */
  function Lookup(env: Env, f: Frame, x: string): Option<Word> {
    if x == "offset" then Some(f.offset)
    else if x == "data" then Some(f.data)
    else if x == "loop" then Some(env.loop)
    else if x == "lane_id" then Some(env.laneId)
    else if x == "sg_base" then Some(env.sgBase)
    else if x == "PROGPOW_LANES" then Some(16)
    else if x == "PROGPOW_DAG_LOADS" then Some(4)
    else if x == "PROGPOW_CACHE_WORDS" then Some(4096)
    else if x == "PROGPOW_DAG_ELEMENTS" then Some(env.dagElements)
    else None
  }

  function Apply(op: BinOp, a: Word, b: Word): Option<Word> {
    match op
    case Plus => Some(Add(a, b))
    case Times => Some(Mul(a, b))
    case Mod => if b == 0 then None else Some(a % b)
    case Ampersand => Some(And(a, b))
    case Bar => Some(Or(a, b))
    case Caret => Some(Xor(a, b))
  }

  function Apply1(f: string, a: Word): Option<Word> {
    if f == "clz" then Some(GlslClz(a))
    else if f == "popcount" then Some(PopCount(a))
    else None
  }

  /** `mul_hi` is the upper word of the extended product. */
  function Apply2(f: string, a: Word, b: Word): Option<Word> {
    if f == "mul_hi" then Some(MulHi(a, b))
    else if f == "min" then Some(MinU32(a, b))
    else if f == "ROTL32" then Some(GlslRotl(a, b))
    else if f == "ROTR32" then Some(GlslRotr(a, b))
    else None
  }

  /** Element `i` of a named array, if it is in bounds. */
  function Element(env: Env, f: Frame, base: string, i: Word): Option<Word> {
    if base == "mix" && i < 32 then Some(f.mix[i])
    else if base == "c_dag" && i < 4096 then Some(env.cDag[i])
    else if base == "g_dag" && i < |env.gDag| then Some(env.gDag[i])
    else None
  }

  /** Unsigned 32-bit evaluation; `None` for an unknown name, a zero divisor or an index out of bounds. */
  function Eval(env: Env, f: Frame, e: Expr): Option<Word> {
    match e
    case Num(n, _) => if n < 0x1_0000_0000 then Some(n) else None
    case Var(x) => Lookup(env, f, x)
    case Index(x, i) =>
      var k :- Eval(env, f, i);
      Element(env, f, x, k)
    case Member(x, field, i) =>
      var k :- Eval(env, f, i);
      if x == "data_dag" && field == "s" && k < 4 then Some(f.dataDag[k]) else None
    case Call1(g, a) =>
      var u :- Eval(env, f, a);
      Apply1(g, u)
    case Call2(g, a, b) =>
      var u :- Eval(env, f, a);
      var v :- Eval(env, f, b);
      Apply2(g, u, v)
    case Bin(op, l, r) =>
      var u :- Eval(env, f, l);
      var v :- Eval(env, f, r);
      Apply(op, u, v)
    case Paren(p) => Eval(env, f, p)
  }

  function Store(env: Env, f: Frame, lhs: Expr, v: Word): Option<Frame> {
    match lhs
    case Var(x) =>
      if x == "offset" then Some(f.(offset := v)) else if x == "data" then Some(f.(data := v)) else None
    case Index(x, i) =>
      var k :- Eval(env, f, i);
      if x == "mix" && k < 32 then Some(f.(mix := f.mix[k := v])) else None
    case Member(x, field, i) =>
      var k :- Eval(env, f, i);
      if x == "data_dag" && field == "s" && k < 4 then Some(f.(dataDag := f.dataDag[k := v])) else None
    case _ => None
  }

  /** The one statement form in which lanes meet. */
  predicate IsShuffle(st: Stmt) { st.Assign? && st.rhs.Call2? && st.rhs.f == "subgroupShuffle" }

  /** A statement a lane runs on its own. The caller passes `hack_false` as false. */
  function Exec(env: Env, f: Frame, st: Stmt): Option<Frame> {
    match st
    case Declare(_, _) => Some(f)
    case DeclareTwo(_, _, _) => Some(f)
    case Assign(lhs, rhs) =>
      var v :- Eval(env, f, rhs);
      Store(env, f, lhs, v)
    case ModAssign(lhs, rhs) =>
      var u :- Eval(env, f, lhs);
      var v :- Eval(env, f, rhs);
      if v == 0 then None else Store(env, f, lhs, u % v)
    case IfCall(cond, _) => if cond == "hack_false" then Some(f) else None
  }

  function ExecAll(env: Env, f: Frame, stmts: seq<Stmt>): Option<Frame> {
    if stmts == [] then Some(f)
    else
      var g :- ExecAll(env, f, stmts[..|stmts| - 1]);
      Exec(env, g, stmts[|stmts| - 1])
  }

  lemma {:induction false} ExecConcat(env: Env, f: Frame, a: seq<Stmt>, b: seq<Stmt>)
    requires ExecAll(env, f, a).Some?
    ensures ExecAll(env, f, a + b) == ExecAll(env, ExecAll(env, f, a).value, b)
  {
    hide Exec;
    if b == [] {
      assert a + b == a;
    } else {
      var last := |b| - 1;
      assert (a + b)[..|a| + last] == a + b[..last];
      ExecConcat(env, f, a, b[..last]);
    }
  }

  // ---- what the statements of an operation compute ----

  lemma EvalMix(env: Env, f: Frame, i: Reg)
    ensures Eval(env, f, Mix(i)) == Some(f.mix[i])
  {
    assert Eval(env, f, Num(i, false)) == Some(i);
  }

  lemma EvalBin(env: Env, f: Frame, op: BinOp, a: Expr, b: Expr, u: Word, v: Word)
    requires Eval(env, f, a) == Some(u) && Eval(env, f, b) == Some(v)
    ensures Eval(env, f, Bin(op, a, b)) == Apply(op, u, v)
  {
    hide Apply;
  }

  lemma EvalCall2(env: Env, f: Frame, g: string, a: Expr, b: Expr, u: Word, v: Word)
    requires Eval(env, f, a) == Some(u) && Eval(env, f, b) == Some(v)
    ensures Eval(env, f, Call2(g, a, b)) == Apply2(g, u, v)
  {
    hide Apply2;
  }

  lemma EvalCall1(env: Env, f: Frame, g: string, a: Expr, u: Word)
    requires Eval(env, f, a) == Some(u)
    ensures Eval(env, f, Call1(g, a)) == Apply1(g, u)
  {
    hide Apply1;
  }

  lemma EvalNum(env: Env, f: Frame, n: Word, u: bool)
    ensures Eval(env, f, Num(n, u)) == Some(n)
  {
  }

  lemma EvalMath(env: Env, f: Frame, a: Expr, b: Expr, r: Word, u: Word, v: Word)
    requires Eval(env, f, a) == Some(u) && Eval(env, f, b) == Some(v)
    ensures Eval(env, f, MathExpr(a, b, r)) == Some(MathExec(u, v, r))
  {
    hide Eval, MathSel, Add, Mul, MulHi, MinU32, Rotl, Rotr, GlslRotl, GlslRotr, And, Or, Xor, Clz, GlslClz, PopCount;
    match MathSel(r)
    case 0 => EvalBin(env, f, Plus, a, b, u, v);
    case 1 => EvalBin(env, f, Times, a, b, u, v);
    case 2 => EvalCall2(env, f, "mul_hi", a, b, u, v);
    case 3 => EvalCall2(env, f, "min", a, b, u, v);
    case 4 => EvalRotations(env, f, a, b, u, v);
    case 5 => EvalRotations(env, f, a, b, u, v);
    case 6 => EvalBin(env, f, Ampersand, a, b, u, v);
    case 7 => EvalBin(env, f, Bar, a, b, u, v);
    case 8 => EvalBin(env, f, Caret, a, b, u, v);
    case _ => EvalCounts(env, f, a, b, u, v);
  }

  lemma EvalRotations(env: Env, f: Frame, a: Expr, b: Expr, u: Word, v: Word)
    requires Eval(env, f, a) == Some(u) && Eval(env, f, b) == Some(v)
    ensures Eval(env, f, Call2("ROTL32", a, Bin(Mod, b, Num(32, false)))) == Some(Rotl(u, v % 32))
    ensures Eval(env, f, Call2("ROTR32", a, Bin(Mod, b, Num(32, false)))) == Some(Rotr(u, v % 32))
  {
    EvalNum(env, f, 32, false);
    hide Eval, Rotl, Rotr, GlslRotl, GlslRotr;
    EvalBin(env, f, Mod, b, Num(32, false), v, 32);
    EvalCall2(env, f, "ROTL32", a, Bin(Mod, b, Num(32, false)), u, v % 32);
    EvalCall2(env, f, "ROTR32", a, Bin(Mod, b, Num(32, false)), u, v % 32);
    GlslRotlAgrees(u, v % 32);
    GlslRotrAgrees(u, v % 32);
  }

  lemma EvalCounts(env: Env, f: Frame, a: Expr, b: Expr, u: Word, v: Word)
    requires Eval(env, f, a) == Some(u) && Eval(env, f, b) == Some(v)
    ensures Eval(env, f, Bin(Plus, Call1("clz", a), Call1("clz", b))) == Some(Add(Clz(u), Clz(v)))
    ensures Eval(env, f, Bin(Plus, Call1("popcount", a), Call1("popcount", b))) == Some(Add(PopCount(u), PopCount(v)))
  {
    hide Eval, Add, Clz, GlslClz, PopCount;
    GlslClzAgrees(u);
    GlslClzAgrees(v);
    EvalCall1(env, f, "clz", a, u);
    EvalCall1(env, f, "clz", b, v);
    EvalCall1(env, f, "popcount", a, u);
    EvalCall1(env, f, "popcount", b, v);
    EvalBin(env, f, Plus, Call1("clz", a), Call1("clz", b), Clz(u), Clz(v));
    EvalBin(env, f, Plus, Call1("popcount", a), Call1("popcount", b), PopCount(u), PopCount(v));
  }

  lemma EvalMerge(env: Env, f: Frame, a: Expr, b: Expr, r: Word, u: Word, v: Word)
    requires Eval(env, f, a) == Some(u) && Eval(env, f, b) == Some(v)
    ensures Eval(env, f, MergeExpr(a, b, r)) == Some(MergeExec(u, v, r))
  {
    hide MergeSel, MergeRot, Add, Mul, Rotl, Rotr, GlslRotl, GlslRotr, Xor;
    var n := MergeRot(r);
    assert n < 0x1_0000_0000 by { MergeRotRange(r); }
    GlslRotlAgrees(u, n);
    GlslRotrAgrees(u, n);
    assert Eval(env, f, Num(33, false)) == Some(33) && Eval(env, f, Num(n, false)) == Some(n);
    assert Eval(env, f, Bin(Times, a, Num(33, false))) == Some(Mul(u, 33));
    assert Eval(env, f, Bin(Caret, a, b)) == Some(Xor(u, v));
    assert Eval(env, f, Paren(Bin(Times, a, Num(33, false)))) == Some(Mul(u, 33));
    assert Eval(env, f, Paren(Bin(Caret, a, b))) == Some(Xor(u, v));
    assert Eval(env, f, Call2("ROTL32", a, Num(n, false))) == Some(GlslRotl(u, n));
    assert Eval(env, f, Call2("ROTR32", a, Num(n, false))) == Some(GlslRotr(u, n));
  }

  lemma MergeRotRange(r: Word)
    ensures 1 <= MergeRot(r) <= 31
  {
  }

  lemma ExecMerge(env: Env, f: Frame, dst: Reg, b: Expr, r: Word, v: Word)
    requires Eval(env, f, b) == Some(v)
    ensures Exec(env, f, MergeStmt(dst, b, r)) == Some(f.(mix := f.mix[dst := MergeExec(f.mix[dst], v, r)]))
  {
    hide MergeExec, MergeExpr;
    EvalMix(env, f, dst);
    EvalMerge(env, f, Mix(dst), b, r, f.mix[dst], v);
    assert Eval(env, f, Num(dst, false)) == Some(dst);
  }

  lemma ExecMath(env: Env, f: Frame, s1: Reg, s2: Reg, r: Word)
    ensures Exec(env, f, MathStmt(s1, s2, r)) == Some(f.(data := MathExec(f.mix[s1], f.mix[s2], r)))
  {
    hide MathExec, MathExpr, Mix;
    EvalMix(env, f, s1);
    EvalMix(env, f, s2);
    EvalMath(env, f, Mix(s1), Mix(s2), r, f.mix[s1], f.mix[s2]);
  }

  lemma ExecCache(env: Env, f: Frame, src: Reg)
    ensures Exec(env, f, CacheIndexStmt(src)) == Some(f.(offset := f.mix[src] % 4096))
    ensures f.offset < 4096 ==> Exec(env, f, CacheLoadStmt()) == Some(f.(data := env.cDag[f.offset]))
  {
    EvalMix(env, f, src);
    hide Mix;
    assert Eval(env, f, V("PROGPOW_CACHE_WORDS")) == Some(4096);
    assert Eval(env, f, V("offset")) == Some(f.offset);
  }

  /** Everything but a DAG load: the statements do to the registers what the interpreter does. */
  lemma ExecOp(env: Env, f: Frame, op: Op)
    requires !op.Global?
    ensures var g := ExecAll(env, f, OpStmts(op));
            g.Some? && g.value.mix == RunOp(op, f.mix, f.dataDag, env.cDag) && g.value.dataDag == f.dataDag
  {
    hide MergeExec, MathExec, MergeStmt, MathStmt, CacheIndexStmt, CacheLoadStmt, Load, Exec, Eval;
    match op
    case Cache(src, dst, r) =>
      ExecCache(env, f, src);
      var f1 := f.(offset := f.mix[src] % 4096);
      ExecCache(env, f1, src);
      var f2 := f1.(data := env.cDag[f1.offset]);
      EvalData(env, f2, 0);
      ExecMerge(env, f2, dst, V("data"), r, f2.data);
      ExecThree(env, f, f1, f2, OpStmts(op));
    case Math(s1, s2, dst, r1, r2) =>
      ExecMath(env, f, s1, s2, r1);
      var f1 := f.(data := MathExec(f.mix[s1], f.mix[s2], r1));
      EvalData(env, f1, 0);
      ExecMerge(env, f1, dst, V("data"), r2, f1.data);
      ExecTwo(env, f, f1, OpStmts(op));
    case DagMerge(dst, i, r) =>
      EvalData(env, f, i);
      ExecMerge(env, f, dst, Load(i), r, f.dataDag[i]);
      ExecHack(env, f);
      ExecTwo(env, f, f, [HackStmt(), MergeStmt(dst, Load(i), r)]);
      ExecOne(env, f, MergeStmt(dst, Load(i), r));
  }

  lemma EvalData(env: Env, f: Frame, i: LoadIndex)
    ensures Eval(env, f, V("data")) == Some(f.data) && Eval(env, f, Load(i)) == Some(f.dataDag[i])
  {
    assert Eval(env, f, Num(i, false)) == Some(i);
  }

  lemma ExecHack(env: Env, f: Frame)
    ensures Exec(env, f, HackStmt()) == Some(f)
  {
  }

  lemma ExecOne(env: Env, f: Frame, st: Stmt)
    ensures ExecAll(env, f, [st]) == Exec(env, f, st)
  {
    hide Exec;
    assert [st][..0] == [];
  }

  lemma ExecTwo(env: Env, f: Frame, f1: Frame, s: seq<Stmt>)
    requires |s| == 2 && Exec(env, f, s[0]) == Some(f1)
    ensures ExecAll(env, f, s) == Exec(env, f1, s[1])
  {
    hide Exec;
    ExecOne(env, f, s[0]);
    assert s[..1] == [s[0]];
  }

  lemma ExecThree(env: Env, f: Frame, f1: Frame, f2: Frame, s: seq<Stmt>)
    requires |s| == 3 && Exec(env, f, s[0]) == Some(f1) && Exec(env, f1, s[1]) == Some(f2)
    ensures ExecAll(env, f, s) == Exec(env, f2, s[2])
  {
    hide Exec;
    ExecTwo(env, f, f1, s[..2]);
  }

  // ---- the DAG load ----

  /** The flat DAG of the shader holds the rows the interpreter reads, and its addresses fit 32 bits. */
  ghost predicate DagMatches(gDag: seq<Word>, rows: Word -> Row, de: Positive) {
    && 64 * de <= |gDag| && 64 * de <= 0x1_0000_0000
    && forall row: Word, i :: row < 16 * de && 0 <= i < 4 ==> rows(row)[i] == gDag[4 * row + i]
  }

  /** The private part of a DAG load, after the broadcast value has arrived in `offset`. */
  function LoadStmts(): seq<Stmt> {
    [ModStmt(), RowStmt(), LoadStmt(0), LoadStmt(1), LoadStmt(2), LoadStmt(3), HackStmt()]
  }

  lemma RowInRange(env: Env, v: Word)
    requires env.laneId < 16 && 64 * env.dagElements <= 0x1_0000_0000
    ensures RowIndex(v, env.laneId, env.loop, env.dagElements)
            == Add(Mul(v % env.dagElements, 16), Xor(env.laneId, env.loop) % 16) < 16 * env.dagElements
  {
    hide Xor;
    SmallRow(v % env.dagElements, Xor(env.laneId, env.loop) % 16, env.dagElements);
  }

  lemma SmallRow(q: nat, x: nat, de: nat)
    requires q < de && x < 16 && 64 * de <= 0x1_0000_0000
    ensures (q * 16) % 0x1_0000_0000 == q * 16 && (q * 16 + x) % 0x1_0000_0000 == q * 16 + x < 16 * de
  {
  }

  lemma ExecRow(env: Env, f: Frame)
    requires env.laneId < 16 && 64 * env.dagElements <= 0x1_0000_0000
    ensures Exec(env, f, ModStmt()) == Some(f.(offset := f.offset % env.dagElements))
    ensures Exec(env, f, RowStmt()) == Some(f.(offset := Add(Mul(f.offset, 16), Xor(env.laneId, env.loop) % 16)))
  {
    hide Add, Mul, Xor;
    assert Eval(env, f, V("offset")) == Some(f.offset) && Eval(env, f, V("PROGPOW_LANES")) == Some(16);
    assert Eval(env, f, V("lane_id")) == Some(env.laneId) && Eval(env, f, V("loop")) == Some(env.loop);
    var x := Bin(Caret, V("lane_id"), V("loop"));
    assert Eval(env, f, x) == Some(Xor(env.laneId, env.loop));
    assert Eval(env, f, Bin(Mod, Paren(x), V("PROGPOW_LANES"))) == Some(Xor(env.laneId, env.loop) % 16);
    assert Eval(env, f, Bin(Times, V("offset"), V("PROGPOW_LANES"))) == Some(Mul(f.offset, 16));
  }

  lemma ExecLoad(env: Env, f: Frame, i: LoadIndex)
    requires 4 * f.offset + i < |env.gDag| && 4 * f.offset + i < 0x1_0000_0000
    ensures Exec(env, f, LoadStmt(i)) == Some(f.(dataDag := f.dataDag[i := env.gDag[4 * f.offset + i]]))
  {
    assert Eval(env, f, V("offset")) == Some(f.offset) && Eval(env, f, V("PROGPOW_DAG_LOADS")) == Some(4);
    assert Eval(env, f, Num(i, true)) == Some(i) && Eval(env, f, Num(i, false)) == Some(i);
    var t := Bin(Times, V("offset"), V("PROGPOW_DAG_LOADS"));
    assert Eval(env, f, t) == Some(4 * f.offset);
    assert Eval(env, f, Bin(Plus, t, Num(i, true))) == Some(4 * f.offset + i);
  }

  lemma ExecAppend(env: Env, f: Frame, stmts: seq<Stmt>, g: Frame, st: Stmt)
    requires ExecAll(env, f, stmts) == Some(g)
    ensures ExecAll(env, f, stmts + [st]) == Exec(env, g, st)
  {
    hide Exec;
    assert (stmts + [st])[..|stmts|] == stmts;
  }

  /** The load leaves the registers alone and fetches the row the interpreter fetches. */
  lemma ExecLoads(env: Env, f: Frame, rows: Word -> Row)
    requires env.laneId < 16 && DagMatches(env.gDag, rows, env.dagElements)
    ensures var g := ExecAll(env, f, LoadStmts());
            && g.Some? && g.value.mix == f.mix
            && g.value.dataDag == rows(RowIndex(f.offset, env.laneId, env.loop, env.dagElements))
  {
    hide Exec, RowIndex, ModStmt, RowStmt, LoadStmt, HackStmt, Xor, Add, Mul;
    var row := RowIndex(f.offset, env.laneId, env.loop, env.dagElements);
    RowInRange(env, f.offset);
    ExecRow(env, f);
    var f1 := f.(offset := f.offset % env.dagElements);
    ExecRow(env, f1);
    var f2 := f1.(offset := row);
    ExecTwo(env, f, f1, [ModStmt(), RowStmt()]);
    var s2 := [ModStmt(), RowStmt()];
    var f3, s3 := LoadOne(env, f, s2, f2, 0, rows, row);
    var f4, s4 := LoadOne(env, f, s3, f3, 1, rows, row);
    var f5, s5 := LoadOne(env, f, s4, f4, 2, rows, row);
    var f6, s6 := LoadOne(env, f, s5, f5, 3, rows, row);
    ExecHack(env, f6);
    ExecAppend(env, f, s6, f6, HackStmt());
    assert s6 + [HackStmt()] == LoadStmts();
    assert f6.dataDag == rows(row);
  }

  lemma LoadOne(env: Env, f: Frame, s: seq<Stmt>, g: Frame, i: LoadIndex, rows: Word -> Row, row: Word)
    returns (h: Frame, t: seq<Stmt>)
    requires ExecAll(env, f, s) == Some(g) && g.offset == row < 16 * env.dagElements
    requires DagMatches(env.gDag, rows, env.dagElements)
    ensures t == s + [LoadStmt(i)] && ExecAll(env, f, t) == Some(h)
    ensures h == g.(dataDag := g.dataDag[i := rows(row)[i]])
  {
    hide Exec, LoadStmt, ExecAll;
    ExecLoad(env, g, i);
    ExecAppend(env, f, s, g, LoadStmt(i));
    t := s + [LoadStmt(i)];
    h := g.(dataDag := g.dataDag[i := rows(row)[i]]);
  }

  // ---- the whole loop body ----

  /** A DAG load first, and no other: the order in which the interpreter and the shader agree. */
  predicate LoadsFirst(ops: seq<Op>) {
    |ops| > 0 && ops[0] == Global && forall k :: 1 <= k < |ops| ==> !ops[k].Global?
  }

  lemma {:induction false} ExecOps(env: Env, f: Frame, ops: seq<Op>)
    requires forall k :: 0 <= k < |ops| ==> !ops[k].Global?
    ensures var g := ExecAll(env, f, OpsStmts(ops));
            g.Some? && g.value.mix == RunOps(ops, f.mix, f.dataDag, env.cDag) && g.value.dataDag == f.dataDag
  {
    hide OpStmts, RunOp, Exec;
    if ops != [] {
      var last := |ops| - 1;
      ExecOps(env, f, ops[..last]);
      var g := ExecAll(env, f, OpsStmts(ops[..last])).value;
      ExecOp(env, g, ops[last]);
      ExecConcat(env, f, OpsStmts(ops[..last]), OpStmts(ops[last]));
    }
  }

  lemma {:induction false} OpsStmtsConcat(a: seq<Op>, b: seq<Op>)
    ensures OpsStmts(a + b) == OpsStmts(a) + OpsStmts(b)
  {
    hide OpStmts;
    if b == [] {
      assert a + b == a;
    } else {
      var last := |b| - 1;
      assert (a + b)[..|a| + last] == a + b[..last];
      OpsStmtsConcat(a, b[..last]);
      Cat3(OpsStmts(a), OpsStmts(b[..last]), OpStmts(b[last]));
    }
  }

  lemma {:induction false} RunOpsSkipsGlobal(ops: seq<Op>, mix: Regs, dd: Row, cdag: CacheWords)
    requires LoadsFirst(ops)
    ensures RunOps(ops, mix, dd, cdag) == RunOps(ops[1..], mix, dd, cdag)
  {
    hide RunOp;
    var last := |ops| - 1;
    if last == 0 {
      assert ops[..0] == [] && ops[1..] == [];
      assert RunOp(Global, mix, dd, cdag) == mix by { RunGlobal(mix, dd, cdag); }
    } else {
      assert ops[..last][1..] == ops[1..][..last - 1];
      RunOpsSkipsGlobal(ops[..last], mix, dd, cdag);
    }
  }

  lemma RunGlobal(mix: Regs, dd: Row, cdag: CacheWords)
    ensures RunOp(Global, mix, dd, cdag) == mix
  {
  }

  /** The loop body is three opening statements, the third a shuffle, then private ones. */
  function PrivateStmts(ops: seq<Op>): seq<Stmt>
    requires LoadsFirst(ops)
  {
    LoadStmts() + OpsStmts(ops[1..])
  }

  lemma LoopShape(ops: seq<Op>)
    requires LoadsFirst(ops)
    ensures LoopStmts(ops) == Declarations() + [ShuffleStmt()] + PrivateStmts(ops)
  {
    hide Declarations, OpStmts, LoadStmts, ShuffleStmt, OpsStmts;
    OpsStmtsConcat([Global], ops[1..]);
    assert [Global] + ops[1..] == ops;
    OneOp(Global);
    GlobalShape();
    Cat3([ShuffleStmt()], LoadStmts(), OpsStmts(ops[1..]));
    Cat3(Declarations(), [ShuffleStmt()], PrivateStmts(ops));
  }

  lemma GlobalShape()
    ensures OpStmts(Global) == [ShuffleStmt()] + LoadStmts()
  {
    hide ShuffleStmt, ModStmt, RowStmt, LoadStmt, HackStmt;
  }

  lemma OneOp(op: Op)
    ensures OpsStmts([op]) == OpStmts(op)
  {
    hide OpStmts;
    assert [op][..0] == [];
  }

  /** After the broadcast, a lane's private statements compute what the interpreter computes. */
  lemma PrivateRun(env: Env, f: Frame, ops: seq<Op>, rows: Word -> Row)
    requires LoadsFirst(ops) && env.laneId < 16 && DagMatches(env.gDag, rows, env.dagElements)
    ensures var g := ExecAll(env, f, PrivateStmts(ops));
            && g.Some?
            && g.value.mix == RunOps(ops, f.mix, rows(RowIndex(f.offset, env.laneId, env.loop, env.dagElements)), env.cDag)
  {
    hide Exec, RunOp, LoadStmts, OpsStmts, RowIndex, DagMatches;
    ExecLoads(env, f, rows);
    var g := ExecAll(env, f, LoadStmts()).value;
    ExecOps(env, g, ops[1..]);
    ExecConcat(env, f, LoadStmts(), OpsStmts(ops[1..]));
    RunOpsSkipsGlobal(ops, f.mix, g.dataDag, env.cDag);
  }

  /** In every program generated the DAG is loaded first, once. */
  lemma ProgramLoadsFirst(p: Setting)
    ensures LoadsFirst(p.Ops())
  {
    hide Setting.Ops;
    ProgramStructure.ProgramShape(p);
  }
}
