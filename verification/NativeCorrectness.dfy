/** The emitted block code computes exactly what the MIR means. */
module NativeCorrectness {
  import opened Wrappers
  import opened Mir
  import opened Clif
  import opened Lowering

  // ------------------------------------------------ partial and final code

  /** A block may still grow until it has a terminator. */
  ghost predicate BlockExtends(a: Block, b: Block) {
    a.params == b.params && a.insts <= b.insts && (a.term.Open? || a == b)
  }

  ghost predicate Extends(a: seq<Block>, b: seq<Block>) {
    |a| <= |b| && forall k | 0 <= k < |a| :: BlockExtends(a[k], b[k])
  }

  lemma ExtendsTrans(a: seq<Block>, b: seq<Block>, c: seq<Block>)
    requires Extends(a, b) && Extends(b, c)
    ensures Extends(a, c)
  {
  }

  /** The two shared exits, filled in. */
  ghost predicate Exits(code: seq<Block>) {
    && 3 <= |code|
    && code[HELPER_ERROR] == Block([STATUS_PARAM], [], Ret(STATUS_PARAM))
    && code[OVERFLOW].params == []
    && |code[OVERFLOW].insts| == 1
    && code[OVERFLOW].insts[0].Iconst?
    && code[OVERFLOW].insts[0].imm == STATUS_INTEGER_OVERFLOW
    && code[OVERFLOW].term == Ret(code[OVERFLOW].insts[0].dst)
  }

  lemma AppendExtends(b: Builder, insts: seq<Inst>, defs: nat)
    requires b.Ready()
    ensures b.Append(insts, defs).Ready() && Extends(b.code, b.Append(insts, defs).code)
  {
  }

  lemma GuardExtends(b: Builder, term: Term)
    requires b.Ready()
    ensures b.Guard(term).Ready() && Extends(b.code, b.Guard(term).code)
  {
  }

  lemma PollExtends(b: Builder, offset: Usize)
    requires b.Ready()
    ensures EmitPoll(b, offset).Ready() && Extends(b.code, EmitPoll(b, offset).code)
  {
  }

  lemma RangeExtends(b: Builder, value: nat)
    requires b.Ready()
    ensures EmitRangeCheck(b, value).Ready() && Extends(b.code, EmitRangeCheck(b, value).code)
  {
  }

  lemma AppendRangeExtends(b: Builder, insts: seq<Inst>, defs: nat, value: nat)
    requires b.Ready()
    ensures Extends(b.code, EmitRangeCheck(b.Append(insts, defs), value).code)
  {
  }

  lemma ExtendsSelf(a: seq<Block>)
    ensures Extends(a, a)
  {
  }

  lemma OperationExtends(b: Builder, regs: Registers, instruction: Instruction)
    requires b.Ready() && EmitOperation(b, regs, instruction).Ok?
    ensures Extends(b.code, EmitOperation(b, regs, instruction).value.builder.code)
  {
    var n := b.next;
    match instruction
    case LoadConst(_, UnitConst) => AppendExtends(b, [Iconst(n, 0)], 1);
    case LoadConst(_, BoolConst(v)) => AppendExtends(b, [Iconst(n, Flag(v))], 1);
    case LoadConst(_, I32Const(i)) => AppendExtends(b, [Iconst(n, i)], 1);
    case Move(_, _) => ExtendsSelf(b.code);
    case Unary(_, op, a) =>
      var x := regs[a].value;
      if op.Neg? {
        AppendRangeExtends(b, [Iconst(n, 0), Isub(n + 1, n, x.payload)], 2, n + 1);
      } else {
        AppendExtends(b, [IcmpImm(n, Equal, x.payload, 0), Uextend(n + 1, n)], 2);
      }
    case Binary(_, op, l, r) =>
      var x, y := regs[l].value, regs[r].value;
      if IsArithmetic(op) {
        AppendRangeExtends(b, [ArithmeticInst(op, n, x.payload, y.payload)], 1, n);
      } else {
        AppendExtends(b, [Icmp(n, Condition(op), x.payload, y.payload), Uextend(n + 1, n)], 2);
      }
  }

  // ----------------------------------------------------------- running code

  /** Running the final code from where the builder stands. */
  ghost function Resume(code: seq<Block>, b: Builder, m: Machine, poll: Poll, fuel: nat): Final
    requires b.current < |b.code|
  {
    Run(code, b.current, |b.code[b.current].insts|, m, poll, fuel)
  }

  function ExecAll(insts: seq<Inst>, m: Machine, poll: Poll): Option<Machine>
    decreases |insts|
  {
    if insts == [] then Some(m)
    else
      match Exec(insts[0], m, poll)
      case None => None
      case Some(next) => ExecAll(insts[1..], next, poll)
  }

  lemma {:induction false} RunInsts(code: seq<Block>, b: nat, at: nat, insts: seq<Inst>, m: Machine, poll: Poll, fuel: nat)
    requires b < |code| && at + |insts| <= |code[b].insts| && code[b].insts[at..at + |insts|] == insts
    requires ExecAll(insts, m, poll).Some?
    ensures Run(code, b, at, m, poll, fuel) == Run(code, b, at + |insts|, ExecAll(insts, m, poll).value, poll, fuel)
    decreases |insts|
  {
    if insts != [] {
      assert code[b].insts[at] == insts[0];
      assert code[b].insts[at + 1..at + 1 + |insts[1..]|] == insts[1..];
      RunInsts(code, b, at + 1, insts[1..], Exec(insts[0], m, poll).value, poll, fuel);
    }
  }

  lemma RunAppend(code: seq<Block>, b: Builder, insts: seq<Inst>, defs: nat, m: Machine, poll: Poll, fuel: nat)
    requires b.current < |b.code| && Extends(b.Append(insts, defs).code, code)
    requires ExecAll(insts, m, poll).Some?
    ensures Resume(code, b, m, poll, fuel)
         == Resume(code, b.Append(insts, defs), ExecAll(insts, m, poll).value, poll, fuel)
  {
    var c := b.Append(insts, defs);
    assert BlockExtends(c.code[b.current], code[b.current]);
    var at := |b.code[b.current].insts|;
    assert c.code[b.current].insts[at..at + |insts|] == insts;
    assert code[b.current].insts[at..at + |insts|] == insts;
    RunInsts(code, b.current, at, insts, m, poll, fuel);
  }

  /** Where a conditional branch goes. */
  ghost function Target(term: Term, m: Machine): (nat, seq<nat>)
    requires term.Brif? && term.cond in m.env
  {
    if m.env[term.cond] != 0 then (term.thenBlock, term.thenArgs) else (term.elseBlock, term.elseArgs)
  }

  lemma RunLeaves(code: seq<Block>, b: Builder, term: Term, m: Machine, poll: Poll, fuel: nat)
    requires b.Ready() && Extends(b.Guard(term).code, code)
    requires term.Brif? && term.cond in m.env
    ensures Resume(code, b, m, poll, fuel) == Jump(code, Target(term, m).0, Target(term, m).1, m, poll, fuel)
  {
  }

  /** A guard that stays on the main path continues in the fresh block. */
  lemma RunStays(code: seq<Block>, b: Builder, term: Term, m: Machine, poll: Poll, fuel: nat)
    requires b.Ready() && Extends(b.Guard(term).code, code) && 1 <= fuel
    requires term.Brif? && term.cond in m.env && Target(term, m) == (|b.code|, [])
    ensures Resume(code, b, m, poll, fuel) == Resume(code, b.Guard(term), m, poll, fuel - 1)
  {
    RunLeaves(code, b, term, m, poll, fuel);
    assert BlockExtends(b.Guard(term).code[|b.code|], code[|b.code|]);
    assert m.(env := m.env) == m;
  }

  lemma HelperExit(code: seq<Block>, arg: nat, m: Machine, poll: Poll, fuel: nat)
    requires Exits(code) && arg in m.env && 1 <= fuel
    ensures Jump(code, HELPER_ERROR, [arg], m, poll, fuel)
         == Halted(m.env[arg], m.(env := m.env[STATUS_PARAM := m.env[arg]]))
  {
    var env := m.env[STATUS_PARAM := m.env[arg]];
    assert [STATUS_PARAM][1..] == [] && [arg][1..] == [];
    assert Bind(m.env, env, [STATUS_PARAM][1..], [arg][1..]) == Some(env);
    assert Bind(m.env, m.env, [STATUS_PARAM], [arg]) == Some(env);
  }

  lemma OverflowExit(code: seq<Block>, m: Machine, poll: Poll, fuel: nat)
    requires Exits(code) && 1 <= fuel
    ensures Jump(code, OVERFLOW, [], m, poll, fuel)
         == Halted(STATUS_INTEGER_OVERFLOW, Define(m, code[OVERFLOW].insts[0].dst, STATUS_INTEGER_OVERFLOW))
  {
    assert m.(env := m.env) == m;
    assert Bind(m.env, m.env, [], []) == Some(m.env);
    var last := Define(m, code[OVERFLOW].insts[0].dst, STATUS_INTEGER_OVERFLOW);
    assert Run(code, OVERFLOW, 1, last, poll, fuel - 1) == Halted(STATUS_INTEGER_OVERFLOW, last);
  }

  lemma OffsetSurvives(offset: Usize)
    ensures Unsigned64(Wrap64(offset)) == offset
  {
  }

  /** The values a poll sequence defines. */
  ghost function Polled(m: Machine, n: nat, offset: Usize, poll: Poll): Machine {
    var asked := m.polls + [offset];
    var status := poll(asked);
    m.(polls := asked, env := m.env[n := Wrap64(offset)][n + 1 := status][n + 2 := Flag(status == STATUS_OK)])
  }

  lemma ExecOne(a: Inst, m: Machine, m1: Machine, poll: Poll)
    requires Exec(a, m, poll) == Some(m1)
    ensures ExecAll([a], m, poll) == Some(m1)
  {
  }

  lemma ExecTwo(a: Inst, b: Inst, m: Machine, m1: Machine, m2: Machine, poll: Poll)
    requires Exec(a, m, poll) == Some(m1) && Exec(b, m1, poll) == Some(m2)
    ensures ExecAll([a, b], m, poll) == Some(m2)
  {
    assert [a, b][1..] == [b];
    ExecOne(b, m1, m2, poll);
  }

  lemma ExecThree(a: Inst, b: Inst, c: Inst, m: Machine, m1: Machine, m2: Machine, m3: Machine, poll: Poll)
    requires Exec(a, m, poll) == Some(m1) && Exec(b, m1, poll) == Some(m2) && Exec(c, m2, poll) == Some(m3)
    ensures ExecAll([a, b, c], m, poll) == Some(m3)
  {
    assert [a, b, c][1..] == [b, c];
    ExecTwo(b, c, m1, m2, m3, poll);
  }

  lemma ExecPoll(n: nat, offset: Usize, m: Machine, poll: Poll)
    ensures ExecAll(PollCode(n, offset), m, poll) == Some(Polled(m, n, offset, poll))
  {
    OffsetSurvives(offset);
    var code := PollCode(n, offset);
    var m1 := Define(m, n, Wrap64(offset));
    var m2 := Exec(code[1], m1, poll).value;
    ExecThree(code[0], code[1], code[2], m, m1, m2, Polled(m, n, offset, poll), poll);
  }

  ghost function PollTerm(b: Builder): Term {
    Brif(b.next + 2, |b.code|, [], HELPER_ERROR, [b.next + 1])
  }

  /** Executing the poll sequence up to its branch. */
  lemma PollReachesBranch(code: seq<Block>, b: Builder, offset: Usize, m: Machine, poll: Poll, fuel: nat)
    requires b.Ready() && Extends(EmitPoll(b, offset).code, code)
    ensures var c := b.Append(PollCode(b.next, offset), 3);
            && c.Ready() && Extends(c.Guard(PollTerm(b)).code, code) && c.Guard(PollTerm(b)) == EmitPoll(b, offset)
            && Resume(code, b, m, poll, fuel) == Resume(code, c, Polled(m, b.next, offset, poll), poll, fuel)
  {
    var n := b.next;
    var c := b.Append(PollCode(n, offset), 3);
    AppendExtends(b, PollCode(n, offset), 3);
    GuardExtends(c, PollTerm(b));
    ExtendsTrans(c.code, c.Guard(PollTerm(b)).code, code);
    ExecPoll(n, offset, m, poll);
    RunAppend(code, b, PollCode(n, offset), 3, m, poll, fuel);
  }

  lemma PollRuns(code: seq<Block>, b: Builder, offset: Usize, m: Machine, poll: Poll, fuel: nat)
    requires b.Ready() && Extends(EmitPoll(b, offset).code, code) && Exits(code) && 1 <= fuel
    ensures var next := Polled(m, b.next, offset, poll);
            var status := poll(m.polls + [offset]);
            Resume(code, b, m, poll, fuel) ==
              if status == STATUS_OK then Resume(code, EmitPoll(b, offset), next, poll, fuel - 1)
              else Halted(status, next.(env := next.env[STATUS_PARAM := status]))
  {
    var c := b.Append(PollCode(b.next, offset), 3);
    PollReachesBranch(code, b, offset, m, poll, fuel);
    var next := Polled(m, b.next, offset, poll);
    if poll(m.polls + [offset]) == STATUS_OK {
      RunStays(code, c, PollTerm(b), next, poll, fuel);
    } else {
      RunLeaves(code, c, PollTerm(b), next, poll, fuel);
      HelperExit(code, b.next + 1, next, poll, fuel);
    }
  }

  ghost function Ranged1(m: Machine, n: nat, value: nat): Machine
    requires value in m.env
  {
    Define(m, n, Flag(Holds(SignedLess, m.env[value], I32_MIN)))
  }

  ghost function Ranged2(m: Machine, n: nat, value: nat): Machine
    requires value in m.env
  {
    Define(Ranged1(m, n, value), n + 1, Flag(Holds(SignedGreater, m.env[value], I32_MAX)))
  }

  /** The values a range check defines: too small, too large, either. */
  ghost function Ranged(m: Machine, n: nat, value: nat): Machine
    requires value in m.env
  {
    Define(Ranged2(m, n, value), n + 2, Flag(!(I32_MIN <= m.env[value] <= I32_MAX)))
  }

  lemma ExecIcmpImm(m: Machine, dst: nat, cond: Cond, a: nat, imm: int, poll: Poll)
    requires a in m.env
    ensures Exec(IcmpImm(dst, cond, a, imm), m, poll) == Some(Define(m, dst, Flag(Holds(cond, m.env[a], imm))))
  {
  }

  lemma ExecRange1(n: nat, value: nat, m: Machine, poll: Poll)
    requires value in m.env && value < n
    ensures Exec(IcmpImm(n, SignedLess, value, I32_MIN), m, poll) == Some(Ranged1(m, n, value))
  {
  }

  lemma ExecRange2(n: nat, value: nat, m: Machine, poll: Poll)
    requires value in m.env && value < n
    ensures Exec(IcmpImm(n + 1, SignedGreater, value, I32_MAX), Ranged1(m, n, value), poll) == Some(Ranged2(m, n, value))
  {
  }

  lemma ExecRange3(n: nat, value: nat, m: Machine, poll: Poll)
    requires value in m.env && value < n
    ensures Exec(Bor(n + 2, n, n + 1), Ranged2(m, n, value), poll) == Some(Ranged(m, n, value))
  {
  }

  lemma ExecRange(n: nat, value: nat, m: Machine, poll: Poll)
    requires value in m.env && value < n
    ensures ExecAll(RangeCode(n, value), m, poll) == Some(Ranged(m, n, value))
  {
    ExecRange1(n, value, m, poll);
    ExecRange2(n, value, m, poll);
    ExecRange3(n, value, m, poll);
    ExecThree(IcmpImm(n, SignedLess, value, I32_MIN), IcmpImm(n + 1, SignedGreater, value, I32_MAX), Bor(n + 2, n, n + 1),
              m, Ranged1(m, n, value), Ranged2(m, n, value), Ranged(m, n, value), poll);
  }

  lemma RangeRuns(code: seq<Block>, b: Builder, value: nat, m: Machine, poll: Poll, fuel: nat)
    requires b.Ready() && Extends(EmitRangeCheck(b, value).code, code) && Exits(code) && 1 <= fuel
    requires value in m.env && value < b.next
    ensures var next := Ranged(m, b.next, value);
            Resume(code, b, m, poll, fuel) ==
              if I32_MIN <= m.env[value] <= I32_MAX then Resume(code, EmitRangeCheck(b, value), next, poll, fuel - 1)
              else Halted(STATUS_INTEGER_OVERFLOW, Define(next, code[OVERFLOW].insts[0].dst, STATUS_INTEGER_OVERFLOW))
  {
    var n := b.next;
    var c := b.Append(RangeCode(n, value), 3);
    var term := Brif(n + 2, OVERFLOW, [], |b.code|, []);
    AppendExtends(b, RangeCode(n, value), 3);
    GuardExtends(c, term);
    ExtendsTrans(c.code, c.Guard(term).code, code);
    ExecRange(n, value, m, poll);
    RunAppend(code, b, RangeCode(n, value), 3, m, poll, fuel);
    var next := Ranged(m, n, value);
    if I32_MIN <= m.env[value] <= I32_MAX {
      RunStays(code, c, term, next, poll, fuel);
    } else {
      RunLeaves(code, c, term, next, poll, fuel);
      OverflowExit(code, next, poll, fuel);
    }
  }

  // -------------------------------------------------- values and registers

  function Tag(v: Value): nat {
    match v case VUnit => TAG_UNIT case VBool(_) => TAG_BOOL case VI32(_) => TAG_I32
  }

  /** Unit is 0, booleans are 0 or 1, and i32 values are themselves as signed 64-bit numbers. */
  function Payload(v: Value): int {
    match v case VUnit => 0 case VBool(b) => Flag(b) case VI32(i) => i
  }

  ghost predicate Represents(v: Value, l: Lowered, env: map<nat, int>) {
    l.tag == Tag(v) && l.payload in env && env[l.payload] == Payload(v)
  }

  /** Exactly the initialized temporaries are lowered, each to a defined value representing it. */
  ghost predicate Agrees(temps: map<nat, Value>, regs: Registers, env: map<nat, int>, next: nat) {
    && (forall t | t in temps :: t < |regs| && regs[t].Some?)
    && (forall t | 0 <= t < |regs| && regs[t].Some? ::
          t in temps && regs[t].value.payload < next && Represents(temps[t], regs[t].value, env))
  }

  /** Later code defines new values only. */
  ghost predicate Grows(env: map<nat, int>, env': map<nat, int>, next: nat) {
    forall k: nat | k in env && k < next :: k in env' && env'[k] == env[k]
  }

  lemma AgreesGrows(temps: map<nat, Value>, regs: Registers, env: map<nat, int>, env': map<nat, int>, next: nat, next': nat)
    requires Agrees(temps, regs, env, next) && Grows(env, env', next) && next <= next'
    ensures Agrees(temps, regs, env', next')
  {
  }

  lemma AgreesWrite(temps: map<nat, Value>, regs: Registers, env: map<nat, int>, next: nat, dst: nat, v: Value, l: Lowered)
    requires Agrees(temps, regs, env, next) && dst < |regs| && l.payload < next && Represents(v, l, env)
    ensures Agrees(temps[dst := v], regs[dst := Some(l)], env, next)
  {
  }

  /** Everything but the defined values is as before. */
  ghost predicate OnlyDefines(m: Machine, m': Machine, next: nat) {
    Grows(m.env, m'.env, next) && m' == m.(env := m'.env)
  }

  // ------------------------------------------------------------ operations

  /** The emitted operation ran through to its end and left `v` in its result value. */
  ghost predicate Computed(code: seq<Block>, b: Builder, out: Emitted, m: Machine, m': Machine, v: Value, poll: Poll, fuel: nat)
    requires b.current < |b.code| && out.builder.current < |out.builder.code|
    requires |b.code| <= |out.builder.code| <= |b.code| + fuel
  {
    && Resume(code, b, m, poll, fuel) == Resume(code, out.builder, m', poll, fuel - (|out.builder.code| - |b.code|))
    && OnlyDefines(m, m', b.next)
    && b.next <= out.builder.next && out.value.payload < out.builder.next
    && Represents(v, out.value, m'.env)
  }

  /** The run ended in the overflow exit without touching polls or result. */
  ghost predicate Overflowed(code: seq<Block>, b: Builder, m: Machine, poll: Poll, fuel: nat)
    requires b.current < |b.code|
  {
    match Resume(code, b, m, poll, fuel)
    case Halted(status, m') => status == STATUS_INTEGER_OVERFLOW && m' == m.(env := m'.env)
    case _ => false
  }

  lemma MagnitudeProduct(p: nat, q: nat, k: nat)
    requires p <= k && q <= k
    ensures p * q <= k * k
  {
    assert p * q + p * (k - q) == p * k;
    assert p * k + (k - p) * k == k * k;
  }

  /** Products of 32-bit numbers fit 64 bits with room to spare. */
  lemma ProductFits(a: I32, b: I32)
    ensures -TWO63 <= a * b < TWO63
  {
    var p: nat := if a < 0 then 0 - a else a;
    var q: nat := if b < 0 then 0 - b else b;
    MagnitudeProduct(p, q, 0x8000_0000);
    assert a * b == p * q || a * b == -(p * q);
  }

  lemma NoWrap(x: int)
    requires -TWO63 <= x < TWO63
    ensures Wrap64(x) == x
  {
  }

  lemma ConstantRuns(code: seq<Block>, b: Builder, c: Constant, m: Machine, poll: Poll, fuel: nat) returns (m': Machine)
    requires b.Ready() && EmitConstant(b, c).Ok? && Extends(EmitConstant(b, c).value.builder.code, code)
    ensures Compute(LoadConst(0, c), map[]).Yields?
    ensures Computed(code, b, EmitConstant(b, c).value, m, m', Compute(LoadConst(0, c), map[]).v, poll, fuel)
  {
    var n := b.next;
    var imm := match c case UnitConst => 0 case BoolConst(v) => Flag(v) case I32Const(i) => i case OtherConst => 0;
    m' := Define(m, n, imm);
    ExecOne(Iconst(n, imm), m, m', poll);
    RunAppend(code, b, [Iconst(n, imm)], 1, m, poll, fuel);
  }

  lemma ExecUextend(m: Machine, dst: nat, a: nat, p: bool, poll: Poll)
    requires a in m.env && m.env[a] == Flag(p)
    ensures Exec(Uextend(dst, a), m, poll) == Some(Define(m, dst, Flag(p)))
  {
  }

  lemma ExecIcmp(m: Machine, dst: nat, cond: Cond, a: nat, b: nat, poll: Poll)
    requires a in m.env && b in m.env
    ensures Exec(Icmp(dst, cond, a, b), m, poll) == Some(Define(m, dst, Flag(Holds(cond, m.env[a], m.env[b]))))
  {
  }

  lemma NotRuns(code: seq<Block>, b: Builder, x: Lowered, v: Value, m: Machine, poll: Poll, fuel: nat) returns (m': Machine)
    requires b.Ready() && EmitUnary(b, Not, x).Ok? && Extends(EmitUnary(b, Not, x).value.builder.code, code)
    requires Represents(v, x, m.env)
    ensures EvalUnary(Not, v).Yields?
    ensures Computed(code, b, EmitUnary(b, Not, x).value, m, m', EvalUnary(Not, v).v, poll, fuel)
  {
    var n := b.next;
    var m1 := Define(m, n, Flag(!v.b));
    ExecIcmpImm(m, n, Equal, x.payload, 0, poll);
    m' := Define(m1, n + 1, Flag(!v.b));
    ExecUextend(m1, n + 1, n, !v.b, poll);
    ExecTwo(IcmpImm(n, Equal, x.payload, 0), Uextend(n + 1, n), m, m1, m', poll);
    RunAppend(code, b, [IcmpImm(n, Equal, x.payload, 0), Uextend(n + 1, n)], 2, m, poll, fuel);
  }

  lemma CompareRuns(code: seq<Block>, b: Builder, op: BinaryOp, x: Lowered, y: Lowered, v: Value, w: Value, m: Machine, poll: Poll, fuel: nat)
    returns (m': Machine)
    requires b.Ready() && !IsArithmetic(op) && EmitBinary(b, op, x, y).Ok? && Extends(EmitBinary(b, op, x, y).value.builder.code, code)
    requires Represents(v, x, m.env) && Represents(w, y, m.env)
    ensures EvalBinary(op, v, w).Yields?
    ensures Computed(code, b, EmitBinary(b, op, x, y).value, m, m', EvalBinary(op, v, w).v, poll, fuel)
  {
    var n := b.next;
    var p := Holds(Condition(op), Payload(v), Payload(w));
    assert EvalBinary(op, v, w) == Yields(VBool(p));
    var m1 := Define(m, n, Flag(p));
    ExecIcmp(m, n, Condition(op), x.payload, y.payload, poll);
    m' := Define(m1, n + 1, Flag(p));
    ExecUextend(m1, n + 1, n, p, poll);
    var insts := [Icmp(n, Condition(op), x.payload, y.payload), Uextend(n + 1, n)];
    ExecTwo(insts[0], insts[1], m, m1, m', poll);
    RunAppend(code, b, insts, 2, m, poll, fuel);
  }

  /** A 64-bit result left in `value` goes on exactly if it is a 32-bit number. */
  lemma CheckedRuns(code: seq<Block>, b: Builder, insts: seq<Inst>, defs: nat, value: nat, m: Machine, m1: Machine, x: int, poll: Poll, fuel: nat)
    returns (m': Machine)
    requires b.Ready() && 1 <= fuel && Exits(code)
    requires Extends(EmitRangeCheck(b.Append(insts, defs), value).code, code)
    requires ExecAll(insts, m, poll) == Some(m1) && OnlyDefines(m, m1, b.next)
    requires value in m1.env && m1.env[value] == x && value < b.next + defs
    ensures Checked(x).Yields? ==>
              Computed(code, b, Emitted(EmitRangeCheck(b.Append(insts, defs), value), Lowered(TAG_I32, value)), m, m', Checked(x).v, poll, fuel)
    ensures Checked(x).Overflows? ==> Overflowed(code, b, m, poll, fuel)
  {
    var c := b.Append(insts, defs);
    AppendExtends(b, insts, defs);
    RangeExtends(c, value);
    ExtendsTrans(c.code, EmitRangeCheck(c, value).code, code);
    RunAppend(code, b, insts, defs, m, poll, fuel);
    RangeRuns(code, c, value, m1, poll, fuel);
    m' := Ranged(m1, c.next, value);
  }

  lemma NegRuns(code: seq<Block>, b: Builder, x: Lowered, v: Value, m: Machine, poll: Poll, fuel: nat) returns (m': Machine)
    requires b.Ready() && EmitUnary(b, Neg, x).Ok? && Extends(EmitUnary(b, Neg, x).value.builder.code, code)
    requires Exits(code) && 1 <= fuel
    requires Represents(v, x, m.env) && x.payload < b.next && !m.wrapped
    ensures !EvalUnary(Neg, v).IllTyped?
    ensures EvalUnary(Neg, v).Yields? ==> Computed(code, b, EmitUnary(b, Neg, x).value, m, m', EvalUnary(Neg, v).v, poll, fuel)
    ensures EvalUnary(Neg, v).Overflows? ==> Overflowed(code, b, m, poll, fuel)
  {
    var n := b.next;
    var insts := [Iconst(n, 0), Isub(n + 1, n, x.payload)];
    var m1 := ExecNeg(insts, n, x, v.i, m, poll);
    assert EvalUnary(Neg, v) == Checked(0 - v.i);
    m' := CheckedRuns(code, b, insts, 2, n + 1, m, m1, 0 - v.i, poll, fuel);
  }

  lemma ExecNeg(insts: seq<Inst>, n: nat, x: Lowered, i: I32, m: Machine, poll: Poll) returns (m': Machine)
    requires insts == [Iconst(n, 0), Isub(n + 1, n, x.payload)]
    requires x.payload < n && x.payload in m.env && m.env[x.payload] == i && !m.wrapped
    ensures ExecAll(insts, m, poll) == Some(m') && OnlyDefines(m, m', n) && n + 1 in m'.env && m'.env[n + 1] == 0 - i
  {
    NoWrap(0 - i);
    var m1 := Define(m, n, 0);
    m' := Arith(m1, n + 1, 0 - i);
    ExecTwo(insts[0], insts[1], m, m1, m', poll);
  }

  /** The exact mathematical result of an arithmetic operator. */
  function Exact(op: BinaryOp, a: int, b: int): int
    requires IsArithmetic(op)
  {
    match op case Add => a + b case Sub => a - b case Mul => a * b
  }

  lemma ExactFits(op: BinaryOp, a: I32, b: I32)
    requires IsArithmetic(op)
    ensures Wrap64(Exact(op, a, b)) == Exact(op, a, b)
  {
    if op.Mul? {
      ProductFits(a, b);
    }
    NoWrap(Exact(op, a, b));
  }

  lemma ArithRuns(code: seq<Block>, b: Builder, op: BinaryOp, x: Lowered, y: Lowered, v: Value, w: Value, m: Machine, poll: Poll, fuel: nat)
    returns (m': Machine)
    requires b.Ready() && IsArithmetic(op) && EmitBinary(b, op, x, y).Ok? && Extends(EmitBinary(b, op, x, y).value.builder.code, code)
    requires Exits(code) && 1 <= fuel
    requires Represents(v, x, m.env) && Represents(w, y, m.env) && !m.wrapped
    ensures !EvalBinary(op, v, w).IllTyped?
    ensures EvalBinary(op, v, w).Yields? ==> Computed(code, b, EmitBinary(b, op, x, y).value, m, m', EvalBinary(op, v, w).v, poll, fuel)
    ensures EvalBinary(op, v, w).Overflows? ==> Overflowed(code, b, m, poll, fuel)
  {
    var n := b.next;
    var exact := Exact(op, v.i, w.i);
    ExactFits(op, v.i, w.i);
    var m1 := Arith(m, n, exact);
    var inst := ArithmeticInst(op, n, x.payload, y.payload);
    assert EmitBinary(b, op, x, y).value == Emitted(EmitRangeCheck(b.Append([inst], 1), n), Lowered(TAG_I32, n));
    assert EvalBinary(op, v, w) == Checked(exact);
    ExecOne(inst, m, m1, poll);
    m' := CheckedRuns(code, b, [inst], 1, n, m, m1, exact, poll, fuel);
  }
}
