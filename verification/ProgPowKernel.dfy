/** The GPU side of ProgPoW: the kernel statements that ProgPow::getKern emits for a period, what a
    lane does when it executes them, and their agreement with the CPU interpreter. */
module ProgPowKernel {
  import opened Words
  import opened Kiss99
  import opened Program

  datatype Option<T> = None | Some(value: T)

  // The expressions and statements of the emitted code.
  datatype BinaryOp = PlusOp | TimesOp | MulHiOp | MinOp | RotlOp | RotrOp | RemOp | AndOp | OrOp | XorOp
  datatype UnaryOp = ClzOp | PopcountOp
  datatype Expr =
    | Mix(i: nat)       // mix[i]
    | Data              // data
    | DagData(i: nat)   // data_dag.s[i]
    | Lit(n: word)
    | Binary(op: BinaryOp, a: Expr, b: Expr)
    | Unary(uop: UnaryOp, a: Expr)
  datatype Stmt =
    | ShareAddress              // offset = mix[0] of lane loop % PROGPOW_LANES
    | ReduceAddress             // offset %= PROGPOW_DAG_ELEMENTS
    | LaneAddress               // offset = offset * PROGPOW_LANES + (lane_id ^ loop) % PROGPOW_LANES
    | LoadDag                   // dag_t data_dag = g_dag[offset]
    | CacheAddress(e: Expr)     // offset = e % PROGPOW_CACHE_WORDS
    | LoadCache                 // data = c_dag[offset]
    | SetData(e: Expr)          // data = e
    | SetMix(i: nat, e: Expr)   // mix[i] = e

  // The variables of a lane. An address is kept as the integer it denotes, below 2^32.
  datatype LaneState = LaneState(mix: Regs, data: word, offset: nat, dag: Loads)

  // What a lane sees besides its own variables; shared is mix[0] of lane loop % PROGPOW_LANES when
  // the loop begins, passed on by a shuffle or through local memory.
  datatype Env = Env(
    dialect: Dialect, lane: nat, loop: nat, shared: word, elements: nat, dag: seq<word>, cache: seq<word>)
  {
    predicate Valid() {
      lane < LANES && loop < LOOPS && elements > 0 && |cache| == CACHE_WORDS
    }
  }

  function EvalBinary(d: Dialect, op: BinaryOp, a: word, b: word): Option<word> {
    match op
    case PlusOp => Some(Plus(a, b))
    case TimesOp => Some(Times(a, b))
    case MulHiOp => Some(MulHi(a, b))
    case MinOp => Some(Min(a, b))
    case RotlOp => Some(Rotl(d, a, b))
    case RotrOp => Some(Rotr(d, a, b))
    case RemOp => if b == 0 then None else Some(Rem(a, b))
    case AndOp => Some(And(a, b))
    case OrOp => Some(Or(a, b))
    case XorOp => Some(Xor(a, b))
  }

  function EvalUnary(op: UnaryOp, a: word): word {
    match op
    case ClzOp => Clz(a)
    case PopcountOp => Popcount(a)
  }

  function Eval(d: Dialect, st: LaneState, e: Expr): Option<word> {
    match e
    case Mix(i) => if i < REGS then Some(st.mix[i]) else None
    case Data => Some(st.data)
    case DagData(i) => if i < DAG_LOADS then Some(st.dag[i]) else None
    case Lit(n) => Some(n)
    case Binary(op, a, b) =>
      var x := Eval(d, st, a);
      var y := Eval(d, st, b);
      if x.Some? && y.Some? then EvalBinary(d, op, x.value, y.value) else None
    case Unary(op, a) =>
      var x := Eval(d, st, a);
      if x.Some? then Some(EvalUnary(op, x.value)) else None
  }

  const TWO32 := 0x1_0000_0000

  // One statement; None is an access outside the arrays.
  function Exec(env: Env, st: LaneState, s: Stmt): Option<LaneState>
    requires env.Valid()
  {
    match s
    case ShareAddress => Some(st.(offset := Index(env.shared)))
    case ReduceAddress => Some(st.(offset := st.offset % env.elements))
    case LaneAddress => Some(st.(offset := (st.offset * LANES + Slot(env.lane, env.loop)) % TWO32))
    case LoadDag =>
      if DAG_LOADS * st.offset + DAG_LOADS <= |env.dag|
      then Some(st.(dag := env.dag[DAG_LOADS * st.offset..DAG_LOADS * st.offset + DAG_LOADS]))
      else None
    case CacheAddress(e) =>
      var x := Eval(env.dialect, st, e);
      if x.Some? then Some(st.(offset := Index(x.value) % CACHE_WORDS)) else None
    case LoadCache =>
      if st.offset < CACHE_WORDS then Some(st.(data := env.cache[st.offset])) else None
    case SetData(e) =>
      var x := Eval(env.dialect, st, e);
      if x.Some? then Some(st.(data := x.value)) else None
    case SetMix(i, e) =>
      var x := Eval(env.dialect, st, e);
      if x.Some? && i < REGS then Some(st.(mix := st.mix[i := x.value])) else None
  }

  function ExecAll(env: Env, st: LaneState, code: seq<Stmt>): Option<LaneState>
    requires env.Valid()
    decreases |code|
  {
    if |code| == 0 then Some(st)
    else
      var r := Exec(env, st, code[0]);
      if r.Some? then ExecAll(env, r.value, code[1..]) else None
  }

  // ProgPow::merge and ProgPow::math.
  function MergeExpr(a: Expr, b: Expr, r: word): Expr {
    match MergeKind(r)
    case 0 => Binary(PlusOp, Binary(TimesOp, a, Lit(33)), b)
    case 1 => Binary(TimesOp, Binary(XorOp, a, b), Lit(33))
    case 2 => Binary(XorOp, Binary(RotlOp, a, Lit(MergeCount(r))), b)
    case _ => Binary(XorOp, Binary(RotrOp, a, Lit(MergeCount(r))), b)
  }

  function MergeCode(i: nat, b: Expr, r: word): Stmt { SetMix(i, MergeExpr(Mix(i), b, r)) }

  function MathExpr(a: Expr, b: Expr, r: word): Expr {
    match MathKind(r)
    case 0 => Binary(PlusOp, a, b)
    case 1 => Binary(TimesOp, a, b)
    case 2 => Binary(MulHiOp, a, b)
    case 3 => Binary(MinOp, a, b)
    case 4 => Binary(RotlOp, a, Binary(RemOp, b, Lit(32)))
    case 5 => Binary(RotrOp, a, Binary(RemOp, b, Lit(32)))
    case 6 => Binary(AndOp, a, b)
    case 7 => Binary(OrOp, a, b)
    case 8 => Binary(XorOp, a, b)
    case 9 => Binary(PlusOp, Unary(ClzOp, a), Unary(ClzOp, b))
    case _ => Binary(PlusOp, Unary(PopcountOp, a), Unary(PopcountOp, b))
  }

  function MathCode(a: Expr, b: Expr, r: word): Stmt { SetData(MathExpr(a, b, r)) }

  const PROLOGUE: seq<Stmt> := [ShareAddress, ReduceAddress, LaneAddress, LoadDag]

  function OpCode(op: Op): seq<Stmt> {
    match op
    case CacheOp(src, dst, sel) => [CacheAddress(Mix(src)), LoadCache, MergeCode(dst, Data, sel)]
    case MathOp(src1, src2, sel1, dst, sel2) =>
      [MathCode(Mix(src1), Mix(src2), sel1), MergeCode(dst, Data, sel2)]
    case DagOp(i, dst, sel) => [MergeCode(dst, DagData(i), sel)]
  }

  function OpsCode(ops: seq<Op>): seq<Stmt> {
    if |ops| == 0 then [] else OpsCode(ops[..|ops| - 1]) + OpCode(ops[|ops| - 1])
  }

  // The body of the kernel's loop for a program.
  function KernelCode(ops: seq<Op>): seq<Stmt> { PROLOGUE + OpsCode(ops) }

  lemma CountOfRemainder(d: Dialect, a: word, b: word)
    ensures Rotl(d, a, Rem(b, 32)) == Rotl(Cpu, a, b) && Rotr(d, a, Rem(b, 32)) == Rotr(Cpu, a, b)
  {
    hide Shl, Shr, Join, Count, Rem;
    RotationsAgree(d, a, Rem(b, 32));
    SameCount(b);
  }

  lemma SameCount(b: word)
    ensures Count(Rem(b, 32)) == Count(b)
  {
  }

  lemma EvalOf(d: Dialect, st: LaneState, op: BinaryOp, a: Expr, x: word, b: Expr, y: word)
    requires Eval(d, st, a) == Some(x) && Eval(d, st, b) == Some(y)
    ensures Eval(d, st, Binary(op, a, b)) == EvalBinary(d, op, x, y)
  {
    hide EvalBinary;
  }

  lemma MathExprRotates(d: Dialect, st: LaneState, a: Expr, x: word, b: Expr, y: word)
    requires Eval(d, st, a) == Some(x) && Eval(d, st, b) == Some(y)
    ensures var n := Binary(RemOp, b, Lit(32));
      && Eval(d, st, Binary(RotlOp, a, n)) == Some(Rotl(Cpu, x, y))
      && Eval(d, st, Binary(RotrOp, a, n)) == Some(Rotr(Cpu, x, y))
  {
    hide Eval, Rem, Rotl, Rotr;
    CountOfRemainder(d, x, y);
    EvalLit(d, st, 32);
    EvalOf(d, st, RemOp, b, y, Lit(32), 32);
    EvalOf(d, st, RotlOp, a, x, Binary(RemOp, b, Lit(32)), Rem(y, 32));
    EvalOf(d, st, RotrOp, a, x, Binary(RemOp, b, Lit(32)), Rem(y, 32));
  }

  lemma MathExprCounts(d: Dialect, st: LaneState, a: Expr, x: word, b: Expr, y: word)
    requires Eval(d, st, a) == Some(x) && Eval(d, st, b) == Some(y)
    ensures Eval(d, st, Binary(PlusOp, Unary(ClzOp, a), Unary(ClzOp, b))) == Some(Plus(Clz(x), Clz(y)))
    ensures Eval(d, st, Binary(PlusOp, Unary(PopcountOp, a), Unary(PopcountOp, b)))
      == Some(Plus(Popcount(x), Popcount(y)))
  {
    hide Eval, Plus, Clz, Popcount;
    EvalUnaries(d, st, a, x);
    EvalUnaries(d, st, b, y);
    EvalOf(d, st, PlusOp, Unary(ClzOp, a), Clz(x), Unary(ClzOp, b), Clz(y));
    EvalOf(d, st, PlusOp, Unary(PopcountOp, a), Popcount(x), Unary(PopcountOp, b), Popcount(y));
  }

  lemma MathExprPlain(d: Dialect, st: LaneState, a: Expr, x: word, b: Expr, y: word)
    requires Eval(d, st, a) == Some(x) && Eval(d, st, b) == Some(y)
    ensures Eval(d, st, Binary(PlusOp, a, b)) == Some(Plus(x, y))
    ensures Eval(d, st, Binary(TimesOp, a, b)) == Some(Times(x, y))
    ensures Eval(d, st, Binary(MulHiOp, a, b)) == Some(MulHi(x, y))
    ensures Eval(d, st, Binary(MinOp, a, b)) == Some(Min(x, y))
    ensures Eval(d, st, Binary(AndOp, a, b)) == Some(And(x, y))
    ensures Eval(d, st, Binary(OrOp, a, b)) == Some(Or(x, y))
    ensures Eval(d, st, Binary(XorOp, a, b)) == Some(Xor(x, y))
  {
    hide Eval, Plus, Times, And, Or, Xor, MulHi, Min;
    EvalOf(d, st, PlusOp, a, x, b, y);
    EvalOf(d, st, TimesOp, a, x, b, y);
    EvalOf(d, st, MulHiOp, a, x, b, y);
    EvalOf(d, st, MinOp, a, x, b, y);
    EvalOf(d, st, AndOp, a, x, b, y);
    EvalOf(d, st, OrOp, a, x, b, y);
    EvalOf(d, st, XorOp, a, x, b, y);
  }

  /** The emitted math expression computes what the interpreter computes. */
  lemma MathExprIsMath(d: Dialect, st: LaneState, a: Expr, x: word, b: Expr, y: word, r: word)
    requires Eval(d, st, a) == Some(x) && Eval(d, st, b) == Some(y)
    ensures Eval(d, st, MathExpr(a, b, r)) == Some(RandomMath(x, y, r))
  {
    hide Eval, Plus, Times, And, Or, Xor, MulHi, Min, Rotl, Rotr, Clz, Popcount, MathKind;
    MathExprPlain(d, st, a, x, b, y);
    MathExprRotates(d, st, a, x, b, y);
    MathExprCounts(d, st, a, x, b, y);
  }

  lemma EvalLit(d: Dialect, st: LaneState, n: word)
    ensures Eval(d, st, Lit(n)) == Some(n)
  {
  }

  lemma EvalUnaries(d: Dialect, st: LaneState, a: Expr, x: word)
    requires Eval(d, st, a) == Some(x)
    ensures Eval(d, st, Unary(ClzOp, a)) == Some(Clz(x))
    ensures Eval(d, st, Unary(PopcountOp, a)) == Some(Popcount(x))
  {
    hide Clz, Popcount;
  }

  lemma MergeExprRotates(d: Dialect, st: LaneState, a: Expr, m: word, b: Expr, x: word, n: word)
    requires Eval(d, st, a) == Some(m) && Eval(d, st, b) == Some(x)
    ensures Eval(d, st, Binary(XorOp, Binary(RotlOp, a, Lit(n)), b)) == Some(Xor(Rotl(Cpu, m, n), x))
    ensures Eval(d, st, Binary(XorOp, Binary(RotrOp, a, Lit(n)), b)) == Some(Xor(Rotr(Cpu, m, n), x))
  {
    hide Eval, Xor, Rotl, Rotr;
    RotationsAgree(d, m, n);
    EvalLit(d, st, n);
    EvalOf(d, st, RotlOp, a, m, Lit(n), n);
    EvalOf(d, st, XorOp, Binary(RotlOp, a, Lit(n)), Rotl(d, m, n), b, x);
    EvalOf(d, st, RotrOp, a, m, Lit(n), n);
    EvalOf(d, st, XorOp, Binary(RotrOp, a, Lit(n)), Rotr(d, m, n), b, x);
  }

  lemma MergeExprMultiplies(d: Dialect, st: LaneState, a: Expr, m: word, b: Expr, x: word)
    requires Eval(d, st, a) == Some(m) && Eval(d, st, b) == Some(x)
    ensures Eval(d, st, Binary(PlusOp, Binary(TimesOp, a, Lit(33)), b)) == Some(MulAdd(m, x))
    ensures Eval(d, st, Binary(TimesOp, Binary(XorOp, a, b), Lit(33))) == Some(XorMul(m, x))
  {
    hide Eval, Plus, Times, Xor;
    EvalLit(d, st, 33);
    EvalOf(d, st, TimesOp, a, m, Lit(33), 33);
    EvalOf(d, st, PlusOp, Binary(TimesOp, a, Lit(33)), Times(m, 33), b, x);
    EvalOf(d, st, XorOp, a, m, b, x);
    EvalOf(d, st, TimesOp, Binary(XorOp, a, b), Xor(m, x), Lit(33), 33);
  }

  /** The emitted merge expression merges as the interpreter does. */
  lemma MergeExprIsMerge(d: Dialect, st: LaneState, a: Expr, m: word, b: Expr, x: word, r: word)
    requires Eval(d, st, a) == Some(m) && Eval(d, st, b) == Some(x)
    ensures Eval(d, st, MergeExpr(a, b, r)) == Some(RandomMerge(m, x, r))
  {
    hide Eval, MulAdd, XorMul, Xor, Rotl, Rotr, MergeCount, MergeKind;
    MergeExprRotates(d, st, a, m, b, x, MergeCount(r));
    MergeExprMultiplies(d, st, a, m, b, x);
  }

  lemma {:induction false} ExecConcat(env: Env, st: LaneState, a: seq<Stmt>, b: seq<Stmt>)
    requires env.Valid()
    ensures var r := ExecAll(env, st, a);
      ExecAll(env, st, a + b) == if r.Some? then ExecAll(env, r.value, b) else None
    decreases |a|
  {
    hide Exec;
    if |a| == 0 {
      assert a + b == b;
    } else {
      var r := Exec(env, st, a[0]);
      assert (a + b)[1..] == a[1..] + b;
      if r.Some? {
        ExecConcat(env, r.value, a[1..], b);
      }
    }
  }

  lemma ExecOne(env: Env, st: LaneState, s: Stmt)
    requires env.Valid()
    ensures ExecAll(env, st, [s]) == Exec(env, st, s)
  {
    hide Exec;
  }

  lemma MergeRuns(env: Env, st: LaneState, i: nat, b: Expr, x: word, r: word)
    requires env.Valid() && i < REGS && Eval(env.dialect, st, b) == Some(x)
    ensures Exec(env, st, MergeCode(i, b, r)) == Some(st.(mix := st.mix[i := RandomMerge(st.mix[i], x, r)]))
  {
    hide RandomMerge, MergeExpr;
    MergeExprIsMerge(env.dialect, st, Mix(i), st.mix[i], b, x, r);
  }

  // A lane that ends an operation or a program with the given registers, its DAG words intact.
  ghost predicate EndsWith(r: Option<LaneState>, mix: Regs, dag: Loads) {
    r.Some? && r.value.mix == mix && r.value.dag == dag
  }

  lemma CacheOpRuns(env: Env, st: LaneState, op: Op)
    requires env.Valid() && op.CacheOp? && OpOk(op)
    ensures EndsWith(ExecAll(env, st, OpCode(op)), RunOp(op, st.mix, env.cache, st.dag), st.dag)
  {
    hide RandomMerge, MergeCode;
    var offset := Index(st.mix[op.src]) % CACHE_WORDS;
    var s1 := st.(offset := offset);
    var s2 := s1.(data := env.cache[offset]);
    assert Exec(env, st, CacheAddress(Mix(op.src))) == Some(s1);
    assert Exec(env, s1, LoadCache) == Some(s2);
    MergeRuns(env, s2, op.dst, Data, s2.data, op.sel);
    RunThree(env, st, CacheAddress(Mix(op.src)), s1, LoadCache, s2, MergeCode(op.dst, Data, op.sel));
  }

  lemma RunThree(env: Env, st: LaneState, a: Stmt, s1: LaneState, b: Stmt, s2: LaneState, c: Stmt)
    requires env.Valid() && Exec(env, st, a) == Some(s1) && Exec(env, s1, b) == Some(s2)
    ensures ExecAll(env, st, [a, b, c]) == Exec(env, s2, c)
  {
    hide Exec;
    ExecOne(env, s2, c);
    assert [a, b, c][1..] == [b, c] && [b, c][1..] == [c];
  }

  lemma RunTwo(env: Env, st: LaneState, a: Stmt, s1: LaneState, b: Stmt)
    requires env.Valid() && Exec(env, st, a) == Some(s1)
    ensures ExecAll(env, st, [a, b]) == Exec(env, s1, b)
  {
    hide Exec;
    ExecOne(env, s1, b);
    assert [a, b][1..] == [b];
  }

  lemma MathOpRuns(env: Env, st: LaneState, op: Op)
    requires env.Valid() && op.MathOp? && OpOk(op)
    ensures EndsWith(ExecAll(env, st, OpCode(op)), RunOp(op, st.mix, env.cache, st.dag), st.dag)
  {
    hide RandomMath, RandomMerge, MergeCode, MathExpr;
    var x := RandomMath(st.mix[op.src1], st.mix[op.src2], op.sel1);
    var s1 := st.(data := x);
    MathExprIsMath(env.dialect, st, Mix(op.src1), st.mix[op.src1], Mix(op.src2), st.mix[op.src2], op.sel1);
    assert Exec(env, st, MathCode(Mix(op.src1), Mix(op.src2), op.sel1)) == Some(s1);
    MergeRuns(env, s1, op.dst, Data, x, op.sel2);
    RunTwo(env, st, MathCode(Mix(op.src1), Mix(op.src2), op.sel1), s1, MergeCode(op.dst, Data, op.sel2));
  }

  /** The statements emitted for an operation perform it. */
  lemma OpCodeRuns(env: Env, st: LaneState, op: Op)
    requires env.Valid() && OpOk(op)
    ensures EndsWith(ExecAll(env, st, OpCode(op)), RunOp(op, st.mix, env.cache, st.dag), st.dag)
  {
    match op
    case CacheOp(_, _, _) => CacheOpRuns(env, st, op);
    case MathOp(_, _, _, _, _) => MathOpRuns(env, st, op);
    case DagOp(i, dst, sel) =>
      hide RandomMerge, MergeCode;
      MergeRuns(env, st, dst, DagData(i), st.dag[i], sel);
      ExecOne(env, st, MergeCode(dst, DagData(i), sel));
  }

  /** The statements emitted for a program run it. */
  lemma {:induction false} OpsCodeRuns(env: Env, st: LaneState, ops: seq<Op>)
    requires env.Valid() && OpsOk(ops)
    ensures EndsWith(ExecAll(env, st, OpsCode(ops)), RunLane(ops, st.mix, env.cache, st.dag), st.dag)
  {
    hide OpCode, OpOk, RunOp;
    if |ops| > 0 {
      var last := |ops| - 1;
      OpsCodeRuns(env, st, ops[..last]);
      ExecConcat(env, st, OpsCode(ops[..last]), OpCode(ops[last]));
      OpCodeRuns(env, ExecAll(env, st, OpsCode(ops[..last])).value, ops[last]);
    }
  }

  lemma OpsCodeSnoc(ops: seq<Op>, op: Op)
    ensures OpsCode(ops + [op]) == OpsCode(ops) + OpCode(op)
  {
    hide OpCode;
    assert (ops + [op])[..|ops|] == ops;
  }

  method SwapIn(a: array<nat>, i: nat, j: nat)
    requires i < a.Length && j < a.Length
    modifies a
    ensures a[..] == Swap(old(a[..]), i, j)
  {
    var t := a[i];
    a[i] := a[j];
    a[j] := t;
  }

  // The random sequences of destinations and cache sources.
  method Sequences(rng: Kiss) returns (after: Kiss, dst: seq<nat>, src: seq<nat>)
    ensures State(after, dst, 0, src, 0) == Shuffled(State(rng, Identity(), 0, Identity(), 0), REGS)
  {
    hide Step, Out, Pick, Swap;
    var mixSeqDst := new nat[REGS](i => i);
    var mixSeqCache := new nat[REGS](i => i);
    assert mixSeqDst[..] == Identity() && mixSeqCache[..] == Identity();
    ghost var goal := Shuffled(State(rng, Identity(), 0, Identity(), 0), REGS);
    after := rng;
    var i := REGS - 1;
    while i > 0
      invariant 0 <= i < REGS
      invariant Shuffled(State(after, mixSeqDst[..], 0, mixSeqCache[..], 0), i + 1) == goal
    {
      ghost var s := State(after, mixSeqDst[..], 0, mixSeqCache[..], 0);
      var x;
      after, x := Draw(after);
      SwapIn(mixSeqDst, i, Pick(x, i + 1));
      after, x := Draw(after);
      SwapIn(mixSeqCache, i, Pick(x, i + 1));
      assert State(after, mixSeqDst[..], 0, mixSeqCache[..], 0) == ShuffleStep(s, i + 1);
      i := i - 1;
    }
    dst, src := mixSeqDst[..], mixSeqCache[..];
  }

  method SeedRng(progSeed: bv64) returns (rng: Kiss)
    ensures rng == SeededRng(SeedLow(progSeed), SeedHigh(progSeed))
  {
    hide Fnv1a, SeedLow, SeedHigh;
    var seed0, seed1 := SeedLow(progSeed), SeedHigh(progSeed);
    var fnvHash := Fnv1a(FNV_OFFSET_BASIS, seed0);
    var z := fnvHash;
    fnvHash := Fnv1a(fnvHash, seed1);
    var w := fnvHash;
    fnvHash := Fnv1a(fnvHash, seed0);
    var jsr := fnvHash;
    fnvHash := Fnv1a(fnvHash, seed1);
    rng := Kiss(z, w, jsr, fnvHash);
  }

  // A cache load and a random math operation: the draws, and the statements they emit.
  method EmitCache(s: State) returns (after: State, code: seq<Stmt>)
    requires |s.dst| == |s.src| == REGS
    ensures after == AfterCache(s) && code == OpCode(CacheOpOf(s))
  {
    hide Step, Out, MergeCode;
    var src := s.src[s.srcCount % REGS];
    var dst := s.dst[s.dstCount % REGS];
    var rng, r := Draw(s.rng);
    code := [CacheAddress(Mix(src))];
    code := code + [LoadCache];
    code := code + [MergeCode(dst, Data, r)];
    after := State(rng, s.dst, s.dstCount + 1, s.src, s.srcCount + 1);
  }

  method EmitMath(s: State) returns (after: State, code: seq<Stmt>)
    requires |s.dst| == REGS
    ensures after == AfterMath(s) && code == OpCode(MathOpOf(s))
  {
    hide Step, Out, Pick, MergeCode, MathCode;
    var rng, x := Draw(s.rng);
    var srcRnd := Pick(x, (REGS - 1) * REGS);
    var src1 := srcRnd % REGS;
    var src2 := srcRnd / REGS;
    if src2 >= src1 {
      src2 := src2 + 1;
    }
    var r1, r2;
    rng, r1 := Draw(rng);
    var dst := s.dst[s.dstCount % REGS];
    rng, r2 := Draw(rng);
    code := [MathCode(Mix(src1), Mix(src2), r1)];
    code := code + [MergeCode(dst, Data, r2)];
    after := s.(rng := rng, dstCount := s.dstCount + 1);
  }

  method EmitMain(start: State) returns (s: State, code: seq<Stmt>)
    requires |start.dst| == |start.src| == REGS
    ensures s == AfterMain(start, 0) && code == OpsCode(MainOps(start, 0))
  {
    hide Step, MainOps, AfterMain, CacheOpOf, MathOpOf, OpCode, OpsCode;
    s, code := start, [];
    ghost var done: seq<Op> := [];
    OpsCodeNone();
    for i := 0 to MATH_OPERATIONS
      invariant |s.dst| == |s.src| == REGS
      invariant done + MainOps(s, i) == MainOps(start, 0) && AfterMain(s, i) == AfterMain(start, 0)
      invariant code == OpsCode(done)
    {
      ghost var ops, rest := IterationOps(s, i), MainOps(AfterIteration(s, i), i + 1);
      MainIteration(s, i);
      ghost var before := done;
      var more;
      if i < CACHE_ACCESSES {
        OpsCodeSnoc(done, CacheOpOf(s));
        done := done + [CacheOpOf(s)];
        s, more := EmitCache(s);
        code := code + more;
      }
      OpsCodeSnoc(done, MathOpOf(s));
      done := done + [MathOpOf(s)];
      s, more := EmitMath(s);
      code := code + more;
      assert done == before + ops;
      assert done + rest == before + (ops + rest);
    }
    MainStep(s, MATH_OPERATIONS);
    assert done == MainOps(start, 0);
  }

  lemma OpsCodeNone()
    ensures OpsCode([]) == []
  {
  }

  method EmitDag(start: State) returns (code: seq<Stmt>)
    requires |start.dst| == REGS
    ensures code == OpsCode(DagOps(start, 0))
  {
    hide Step, DagOps, OpsCode, MergeCode;
    var s := start;
    code := [];
    ghost var done: seq<Op> := [];
    OpsCodeNone();
    for i := 0 to DAG_LOADS
      invariant |s.dst| == REGS
      invariant done + DagOps(s, i) == DagOps(start, 0)
      invariant code == OpsCode(done)
    {
      DagStep(s, i);
      OpsCodeSnoc(done, DagOpOf(s, i));
      done := done + [DagOpOf(s, i)];
      var dest, count := 0, s.dstCount;
      if i != 0 {
        dest := s.dst[s.dstCount % REGS];
        count := count + 1;
      }
      var rng, r := Draw(s.rng);
      code := code + [MergeCode(dest, DagData(i), r)];
      s := s.(rng := rng, dstCount := count);
    }
    DagStep(s, DAG_LOADS);
    assert done == DagOps(start, 0);
  }

  lemma {:induction false} OpsCodeConcat(a: seq<Op>, b: seq<Op>)
    ensures OpsCode(a + b) == OpsCode(a) + OpsCode(b)
  {
    hide OpCode;
    if |b| == 0 {
      assert a + b == a;
    } else {
      var last := |b| - 1;
      OpsCodeConcat(a, b[..last]);
      assert a + b == (a + b[..last]) + [b[last]];
      OpsCodeSnoc(a + b[..last], b[last]);
    }
  }

  /** ProgPow::getKern: the statements that replace PROGPOW_REPLACE_MATH for a program seed. */
  method GetKern(progSeed: bv64) returns (code: seq<Stmt>)
    ensures code == KernelCode(Plan(Start(SeedLow(progSeed), SeedHigh(progSeed))))
  {
    hide SeedLow, SeedHigh, SeededRng, Shuffled, MainOps, AfterMain, DagOps, OpsCode;
    var rng := SeedRng(progSeed);
    var dst, src;
    rng, dst, src := Sequences(rng);
    var start := State(rng, dst, 0, src, 0);
    AfterMainKeeps(start, 0);
    var s, main := EmitMain(start);
    var dag := EmitDag(s);
    OpsCodeConcat(MainOps(start, 0), DagOps(s, 0));
    code := PROLOGUE + main + dag;
  }
}
