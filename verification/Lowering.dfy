/** What the scalar backend emits for each MIR construct, as builder-to-builder functions. */
module Lowering {
  import opened Wrappers
  import opened Mir
  import opened Clif

  const TAG_UNIT: nat := 0
  const TAG_BOOL: nat := 1
  const TAG_I32: nat := 2

  const ENTRY: nat := 0
  const HELPER_ERROR: nat := 1
  const OVERFLOW: nat := 2

  /** The value number of the helper-error block's status parameter. */
  const STATUS_PARAM: nat := 0

  /** Values 1 to 5 are the context and result pointers and the three loaded pointers. */
  const FIRST_VALUE: nat := 6

  datatype Error =
    | ResumeBody | HasArguments | NonScalarSlots | ControlFlow | UnsupportedInstruction
    | UnsupportedConstant | UnsupportedUnary | UnsupportedBinary
    | UninitializedRegister | RegisterBeyondFrame

  datatype Lowered = Lowered(tag: nat, payload: nat)

  type Registers = seq<Option<Lowered>>

  datatype Builder = Builder(code: seq<Block>, current: nat, next: nat) {
    /** The builder is positioned in an unfinished block other than the two shared exits. */
    predicate Ready() {
      && 3 <= |code|
      && current < |code| && current != HELPER_ERROR && current != OVERFLOW
      && code[current].term.Open?
      && FIRST_VALUE <= next
    }

    /** Adds instructions defining the next `defs` values to the current block. */
    function Append(insts: seq<Inst>, defs: nat): Builder
      requires current < |code|
    {
      this.(code := code[current := code[current].(insts := code[current].insts + insts)], next := next + defs)
    }

    /** Ends the current block. */
    function Close(term: Term): Builder
      requires current < |code|
    {
      this.(code := code[current := code[current].(term := term)])
    }

    /** Ends the current block and continues in a fresh one. */
    function Guard(term: Term): Builder
      requires current < |code|
    {
      Builder(Close(term).code + [Block([], [], Open)], |code|, next)
    }
  }

  function Start(): Builder {
    Builder([Block([], [], Open), Block([STATUS_PARAM], [], Open), Block([], [], Open)], ENTRY, FIRST_VALUE)
  }

  function PollCode(n: nat, offset: Usize): seq<Inst> {
    [Iconst(n, Wrap64(offset)), CallPoll(n + 1, n), IcmpImm(n + 2, Equal, n + 1, STATUS_OK)]
  }

  /** Poll, and leave through the helper-error block with any nonzero status. */
  function EmitPoll(b: Builder, offset: Usize): Builder
    requires b.Ready()
  {
    var n := b.next;
    b.Append(PollCode(n, offset), 3).Guard(Brif(n + 2, |b.code|, [], HELPER_ERROR, [n + 1]))
  }

  function RangeCode(n: nat, value: nat): seq<Inst> {
    [IcmpImm(n, SignedLess, value, I32_MIN), IcmpImm(n + 1, SignedGreater, value, I32_MAX), Bor(n + 2, n, n + 1)]
  }

  /** Leave through the overflow block unless `value` is a 32-bit number. */
  function EmitRangeCheck(b: Builder, value: nat): Builder
    requires b.Ready()
  {
    var n := b.next;
    b.Append(RangeCode(n, value), 3).Guard(Brif(n + 2, OVERFLOW, [], |b.code|, []))
  }

  datatype Emitted = Emitted(builder: Builder, value: Lowered)

  function EmitConstant(b: Builder, c: Constant): Result<Emitted, Error>
    requires b.Ready()
  {
    var n := b.next;
    match c
    case UnitConst => Ok(Emitted(b.Append([Iconst(n, 0)], 1), Lowered(TAG_UNIT, n)))
    case BoolConst(v) => Ok(Emitted(b.Append([Iconst(n, Flag(v))], 1), Lowered(TAG_BOOL, n)))
    case I32Const(i) => Ok(Emitted(b.Append([Iconst(n, i)], 1), Lowered(TAG_I32, n)))
    case OtherConst => Err(UnsupportedConstant)
  }

  function EmitUnary(b: Builder, op: UnaryOp, x: Lowered): Result<Emitted, Error>
    requires b.Ready()
  {
    var n := b.next;
    if op.Neg? && x.tag == TAG_I32 then
      Ok(Emitted(EmitRangeCheck(b.Append([Iconst(n, 0), Isub(n + 1, n, x.payload)], 2), n + 1), Lowered(TAG_I32, n + 1)))
    else if op.Not? && x.tag == TAG_BOOL then
      Ok(Emitted(b.Append([IcmpImm(n, Equal, x.payload, 0), Uextend(n + 1, n)], 2), Lowered(TAG_BOOL, n + 1)))
    else Err(UnsupportedUnary)
  }

  predicate IsArithmetic(op: BinaryOp) {
    op.Add? || op.Sub? || op.Mul?
  }

  predicate IsEquality(op: BinaryOp) {
    op.Eq? || op.NotEq?
  }

  predicate IsOrdering(op: BinaryOp) {
    op.Lt? || op.Gt? || op.Le? || op.Ge?
  }

  function ArithmeticInst(op: BinaryOp, n: nat, a: nat, b: nat): Inst
    requires IsArithmetic(op)
  {
    match op
    case Add => Iadd(n, a, b)
    case Sub => Isub(n, a, b)
    case Mul => Imul(n, a, b)
  }

  function Condition(op: BinaryOp): Cond
    requires IsEquality(op) || IsOrdering(op)
  {
    match op
    case Eq => Equal
    case NotEq => NotEqual
    case Lt => SignedLess
    case Gt => SignedGreater
    case Le => SignedLessEqual
    case Ge => SignedGreaterEqual
  }

  predicate Comparable(tag: nat) {
    tag == TAG_UNIT || tag == TAG_BOOL || tag == TAG_I32
  }

  function EmitBinary(b: Builder, op: BinaryOp, x: Lowered, y: Lowered): Result<Emitted, Error>
    requires b.Ready()
  {
    var n := b.next;
    if IsArithmetic(op) && x.tag == TAG_I32 && y.tag == TAG_I32 then
      Ok(Emitted(EmitRangeCheck(b.Append([ArithmeticInst(op, n, x.payload, y.payload)], 1), n), Lowered(TAG_I32, n)))
    else if (IsEquality(op) && x.tag == y.tag && Comparable(x.tag))
         || (IsOrdering(op) && x.tag == TAG_I32 && y.tag == TAG_I32) then
      Ok(Emitted(b.Append([Icmp(n, Condition(op), x.payload, y.payload), Uextend(n + 1, n)], 2), Lowered(TAG_BOOL, n + 1)))
    else Err(UnsupportedBinary)
  }

  function ReadRegister(regs: Registers, t: nat): Result<Lowered, Error> {
    if t < |regs| && regs[t].Some? then Ok(regs[t].value) else Err(UninitializedRegister)
  }

  /** The code of one instruction's operation, without its poll. */
  function EmitOperation(b: Builder, regs: Registers, instruction: Instruction): Result<Emitted, Error>
    requires b.Ready()
  {
    match instruction
    case LoadConst(_, c) => EmitConstant(b, c)
    case Move(_, src) =>
      (match ReadRegister(regs, src) case Err(e) => Err(e) case Ok(x) => Ok(Emitted(b, x)))
    case Unary(_, op, a) =>
      (match ReadRegister(regs, a) case Err(e) => Err(e) case Ok(x) => EmitUnary(b, op, x))
    case Binary(_, op, l, r) =>
      (match ReadRegister(regs, l)
       case Err(e) => Err(e)
       case Ok(x) =>
         match ReadRegister(regs, r)
         case Err(e) => Err(e)
         case Ok(y) => EmitBinary(b, op, x, y))
    case OtherInstruction => Err(UnsupportedInstruction)
  }

  /** Instructions whose emitted code can leave through the overflow block. */
  predicate MayTrap(instruction: Instruction) {
    (instruction.Unary? && instruction.unary.Neg?) || (instruction.Binary? && IsArithmetic(instruction.binary))
  }

  datatype State = State(builder: Builder, regs: Registers, safepoints: seq<Usize>, traps: seq<Usize>)

  function LowerOne(s: State, instruction: Instruction, offset: Usize): Result<State, Error>
    requires s.builder.Ready()
  {
    match EmitOperation(EmitPoll(s.builder, offset), s.regs, instruction)
    case Err(e) => Err(e)
    case Ok(out) =>
      if instruction.dst >= |s.regs| then Err(RegisterBeyondFrame)
      else Ok(State(out.builder, s.regs[instruction.dst := Some(out.value)], s.safepoints + [offset],
                    if MayTrap(instruction) then s.traps + [offset] else s.traps))
  }

  datatype Product = Product(code: seq<Block>, safepoints: seq<Usize>, traps: seq<Usize>)

  function ResultCode(n: nat, value: Lowered): seq<Inst> {
    [Iconst(n, value.tag), StoreTag(n), StorePayload(value.payload), Iconst(n + 1, STATUS_OK)]
  }

  /** Store the result and return OK; then the two shared exits. */
  function EmitExits(b: Builder, value: Lowered): seq<Block>
    requires b.Ready()
  {
    var n := b.next;
    var main := b.Append(ResultCode(n, value), 2).Close(Ret(n + 1)).code;
    main[HELPER_ERROR := main[HELPER_ERROR].(term := Ret(STATUS_PARAM))]
        [OVERFLOW := main[OVERFLOW].(insts := main[OVERFLOW].insts + [Iconst(n + 2, STATUS_INTEGER_OVERFLOW)], term := Ret(n + 2))]
  }

  /** The terminator: poll, then return a register or unit. */
  function LowerReturn(s: State, ret: Option<nat>, offset: Usize): Result<Product, Error>
    requires s.builder.Ready()
  {
    var b := EmitPoll(s.builder, offset);
    var out := if ret.None? then EmitConstant(b, UnitConst) else EmitOperation(b, s.regs, Move(0, ret.value));
    match out
    case Err(e) => Err(e)
    case Ok(out) => Ok(Product(EmitExits(out.builder, out.value), s.safepoints + [offset], s.traps))
  }

  lemma LowerOneReady(s: State, instruction: Instruction, offset: Usize)
    requires s.builder.Ready()
    ensures LowerOne(s, instruction, offset).Ok? ==> LowerOne(s, instruction, offset).value.builder.Ready()
  {
  }

  /** Lowers the instructions from `at` on and the return. */
  function LowerFrom(s: State, code: seq<Instruction>, ret: Option<nat>, offsets: seq<Usize>, at: nat): Result<Product, Error>
    requires s.builder.Ready() && |offsets| == |code| + 1 && at <= |code|
    decreases |code| - at
  {
    if at == |code| then LowerReturn(s, ret, offsets[at])
    else
      LowerOneReady(s, code[at], offsets[at]);
      match LowerOne(s, code[at], offsets[at])
      case Err(e) => Err(e)
      case Ok(t) => LowerFrom(t, code, ret, offsets, at + 1)
  }

  function Initial(temps: nat): State {
    State(Start(), seq(temps, _ => None), [], [])
  }

  predicate Scalar(ty: ValueType) {
    !ty.OtherType?
  }

  function CheckSubset(f: Function): Option<Error>
    requires f.entry < |f.blocks|
  {
    if f.maySuspend then Some(ResumeBody)
    else if f.params != [] then Some(HasArguments)
    else if !Scalar(f.returnType) || (exists l | l in f.locals :: !Scalar(l)) || (exists t | t in f.temps :: !Scalar(t)) then
      Some(NonScalarSlots)
    else if |f.blocks| != 1 || f.blocks[f.entry].terminator.None? || f.blocks[f.entry].terminator.value.OtherTerminator? then
      Some(ControlFlow)
    else if exists i | i in f.blocks[f.entry].instructions :: i.OtherInstruction? then Some(UnsupportedInstruction)
    else None
  }

  function Body(f: Function): seq<Instruction>
    requires f.entry < |f.blocks|
  {
    f.blocks[f.entry].instructions
  }

  /** The register an accepted function returns, if any. */
  function Returned(f: Function): Option<nat>
    requires f.entry < |f.blocks|
  {
    match f.blocks[f.entry].terminator
    case Some(Return(value)) => value
    case _ => None
  }

  /** The function and its logical offsets are as the sealed MIR analysis supplies them. */
  predicate Sealed(f: Function, offsets: seq<Usize>) {
    f.entry < |f.blocks| && |offsets| == |Body(f)| + 1
  }

  /** The whole lowering of a function. */
  function LowerFunction(f: Function, offsets: seq<Usize>): Result<Product, Error>
    requires Sealed(f, offsets)
  {
    match CheckSubset(f)
    case Some(e) => Err(e)
    case None => LowerFrom(Initial(|f.temps|), Body(f), Returned(f), offsets, 0)
  }
}
