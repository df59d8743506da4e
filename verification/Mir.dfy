/** Straight-line MIR over Unit, Bool and i32, and its meaning with checked 32-bit arithmetic. */
module Mir {
  import opened Wrappers

  const I32_MIN: int := -0x8000_0000
  const I32_MAX: int := 0x7fff_ffff

  type I32 = x: int | I32_MIN <= x <= I32_MAX

  /** A 64-bit machine index: instruction offsets as the runtime sees them. */
  type Usize = x: int | 0 <= x < 0x1_0000_0000_0000_0000

  const STATUS_OK: I32 := 0
  const STATUS_INTEGER_OVERFLOW: I32 := 2

  datatype Constant = UnitConst | BoolConst(b: bool) | I32Const(i: I32) | OtherConst

  datatype UnaryOp = Neg | Not

  /** `OtherOp` stands for every operator outside the scalar subset (division, logic, identity, ...). */
  datatype BinaryOp = Add | Sub | Mul | Eq | NotEq | Lt | Gt | Le | Ge | OtherOp

  datatype Instruction =
    | LoadConst(dst: nat, constant: Constant)
    | Move(dst: nat, src: nat)
    | Unary(dst: nat, unary: UnaryOp, operand: nat)
    | Binary(dst: nat, binary: BinaryOp, lhs: nat, rhs: nat)
    | OtherInstruction

  datatype Terminator = Return(value: Option<nat>) | OtherTerminator

  datatype BasicBlock = BasicBlock(instructions: seq<Instruction>, terminator: Option<Terminator>)

  datatype ValueType = UnitType | BoolType | I32Type | OtherType

  datatype Function = Function(
    maySuspend: bool,
    params: seq<ValueType>,
    returnType: ValueType,
    locals: seq<ValueType>,
    temps: seq<ValueType>,
    blocks: seq<BasicBlock>,
    entry: nat)

  datatype Value = VUnit | VBool(b: bool) | VI32(i: I32)

  /** The polling helper: an arbitrary status depending on all offsets polled so far. */
  type Poll = seq<Usize> -> I32

  datatype Eval = Yields(v: Value) | Overflows | IllTyped

  function Checked(x: int): Eval {
    if I32_MIN <= x <= I32_MAX then Yields(VI32(x)) else Overflows
  }

  function EvalUnary(op: UnaryOp, v: Value): Eval {
    match (op, v)
    case (Neg, VI32(i)) => Checked(0 - i)
    case (Not, VBool(b)) => Yields(VBool(!b))
    case _ => IllTyped
  }

  predicate SameKind(a: Value, b: Value) {
    (a.VUnit? && b.VUnit?) || (a.VBool? && b.VBool?) || (a.VI32? && b.VI32?)
  }

  function EvalBinary(op: BinaryOp, a: Value, b: Value): Eval {
    if op.Eq? || op.NotEq? then
      if SameKind(a, b) then Yields(VBool((a == b) == op.Eq?)) else IllTyped
    else if !(a.VI32? && b.VI32?) then IllTyped
    else
      match op
      case Add => Checked(a.i + b.i)
      case Sub => Checked(a.i - b.i)
      case Mul => Checked(a.i * b.i)
      case Lt => Yields(VBool(a.i < b.i))
      case Gt => Yields(VBool(a.i > b.i))
      case Le => Yields(VBool(a.i <= b.i))
      case Ge => Yields(VBool(a.i >= b.i))
      case _ => IllTyped
  }

  /** The value an instruction computes from the current temporaries. */
  function Compute(instruction: Instruction, temps: map<nat, Value>): Eval {
    match instruction
    case LoadConst(_, UnitConst) => Yields(VUnit)
    case LoadConst(_, BoolConst(b)) => Yields(VBool(b))
    case LoadConst(_, I32Const(i)) => Yields(VI32(i))
    case Move(_, src) => if src in temps then Yields(temps[src]) else IllTyped
    case Unary(_, op, a) => if a in temps then EvalUnary(op, temps[a]) else IllTyped
    case Binary(_, op, a, b) =>
      if a in temps && b in temps then EvalBinary(op, temps[a], temps[b]) else IllTyped
    case _ => IllTyped
  }

  datatype Outcome = Exit(status: I32, polls: seq<Usize>, result: Option<Value>) | Stuck

  /** Polls before each instruction and before the return, and stops at the first nonzero status. */
  function Execute(code: seq<Instruction>, ret: Option<nat>, offsets: seq<Usize>, at: nat,
                   temps: map<nat, Value>, polls: seq<Usize>, poll: Poll): Outcome
    requires |offsets| == |code| + 1 && at <= |code|
    decreases |code| - at
  {
    var asked := polls + [offsets[at]];
    var status := poll(asked);
    if status != STATUS_OK then Exit(status, asked, None)
    else if at == |code| then
      match ret
      case None => Exit(STATUS_OK, asked, Some(VUnit))
      case Some(t) => if t in temps then Exit(STATUS_OK, asked, Some(temps[t])) else Stuck
    else
      match Compute(code[at], temps)
      case Yields(v) => Execute(code, ret, offsets, at + 1, temps[code[at].dst := v], asked, poll)
      case Overflows => Exit(STATUS_INTEGER_OVERFLOW, asked, None)
      case IllTyped => Stuck
  }
}
