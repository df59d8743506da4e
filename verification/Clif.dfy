/** A small block machine for the low-level code the scalar backend emits. */
module Clif {
  import opened Wrappers
  import opened Mir

  datatype Cond = Equal | NotEqual | SignedLess | SignedGreater | SignedLessEqual | SignedGreaterEqual

  /** Instructions name the value they define first; values are numbered in creation order. */
  datatype Inst =
    | Iconst(dst: nat, imm: int)
    | Iadd(dst: nat, a: nat, b: nat)
    | Isub(dst: nat, a: nat, b: nat)
    | Imul(dst: nat, a: nat, b: nat)
    | IcmpImm(dst: nat, cond: Cond, a: nat, imm: int)
    | Icmp(dst: nat, cond: Cond, a: nat, b: nat)
    | Uextend(dst: nat, a: nat)
    | Bor(dst: nat, a: nat, b: nat)
    | CallPoll(dst: nat, offset: nat)
    | StoreTag(src: nat)
    | StorePayload(src: nat)

  datatype Term =
    | Open
    | Brif(cond: nat, thenBlock: nat, thenArgs: seq<nat>, elseBlock: nat, elseArgs: seq<nat>)
    | Ret(value: nat)

  datatype Block = Block(params: seq<nat>, insts: seq<Inst>, term: Term)

  /** Values, the offsets polled, the result cell, and whether any 64-bit operation wrapped. */
  datatype Machine = Machine(
    env: map<nat, int>,
    polls: seq<Usize>,
    tag: Option<int>,
    payload: Option<int>,
    wrapped: bool)

  const TWO63: int := 0x8000_0000_0000_0000
  const TWO64: int := 0x1_0000_0000_0000_0000

  /** Two's complement reduction to 64 bits. */
  function Wrap64(x: int): int {
    (x + TWO63) % TWO64 - TWO63
  }

  function Unsigned64(x: int): Usize {
    x % TWO64
  }

  /** Bitwise or. */
  function BitOr(a: nat, b: nat): nat {
    if a == 0 then b else if b == 0 || a == b then a
    else (if a % 2 == 1 || b % 2 == 1 then 1 else 0) + 2 * BitOr(a / 2, b / 2)
  }

  predicate Holds(cond: Cond, a: int, b: int) {
    match cond
    case Equal => a == b
    case NotEqual => a != b
    case SignedLess => a < b
    case SignedGreater => a > b
    case SignedLessEqual => a <= b
    case SignedGreaterEqual => a >= b
  }

  function Flag(b: bool): int {
    if b then 1 else 0
  }

  function Define(m: Machine, dst: nat, x: int): Machine {
    m.(env := m.env[dst := x])
  }

  function Arith(m: Machine, dst: nat, exact: int): Machine {
    Define(m, dst, Wrap64(exact)).(wrapped := m.wrapped || Wrap64(exact) != exact)
  }

  /** One instruction; `None` if it reads an undefined value, or an 8-bit operand out of range. */
  function Exec(inst: Inst, m: Machine, poll: Poll): Option<Machine> {
    var env := m.env;
    match inst
    case Iconst(dst, imm) => Some(Define(m, dst, imm))
    case Iadd(dst, a, b) => if a in env && b in env then Some(Arith(m, dst, env[a] + env[b])) else None
    case Isub(dst, a, b) => if a in env && b in env then Some(Arith(m, dst, env[a] - env[b])) else None
    case Imul(dst, a, b) => if a in env && b in env then Some(Arith(m, dst, env[a] * env[b])) else None
    case IcmpImm(dst, c, a, imm) => if a in env then Some(Define(m, dst, Flag(Holds(c, env[a], imm)))) else None
    case Icmp(dst, c, a, b) =>
      if a in env && b in env then Some(Define(m, dst, Flag(Holds(c, env[a], env[b])))) else None
    case Uextend(dst, a) => if a in env && 0 <= env[a] < 256 then Some(Define(m, dst, env[a])) else None
    case Bor(dst, a, b) =>
      if a in env && b in env && 0 <= env[a] < 256 && 0 <= env[b] < 256
      then Some(Define(m, dst, BitOr(env[a], env[b]))) else None
    case CallPoll(dst, offset) =>
      if offset in env then
        var asked := m.polls + [Unsigned64(env[offset])];
        Some(Define(m.(polls := asked), dst, poll(asked)))
      else None
    case StoreTag(src) => if src in env then Some(m.(tag := Some(env[src]))) else None
    case StorePayload(src) => if src in env then Some(m.(payload := Some(env[src]))) else None
  }

  datatype Final = Halted(status: int, machine: Machine) | Faulted | OutOfFuel

  /** Passing block arguments: parameters take the values the arguments have in `from`. */
  function Bind(from: map<nat, int>, env: map<nat, int>, params: seq<nat>, args: seq<nat>): Option<map<nat, int>>
    decreases |params|
  {
    if |params| != |args| then None
    else if params == [] then Some(env)
    else if args[0] !in from then None
    else Bind(from, env[params[0] := from[args[0]]], params[1..], args[1..])
  }

  /** Runs from instruction `at` of block `b`; `fuel` bounds the number of jumps. */
  function Run(code: seq<Block>, b: nat, at: nat, m: Machine, poll: Poll, fuel: nat): Final
    decreases fuel, if b < |code| then |code[b].insts| - at else 0
  {
    if b >= |code| || at > |code[b].insts| then Faulted
    else if at < |code[b].insts| then
      match Exec(code[b].insts[at], m, poll)
      case None => Faulted
      case Some(next) => Run(code, b, at + 1, next, poll, fuel)
    else
      match code[b].term
      case Open => Faulted
      case Ret(v) => if v in m.env then Halted(m.env[v], m) else Faulted
      case Brif(c, t, targs, e, eargs) =>
        if c !in m.env then Faulted
        else if m.env[c] != 0 then Jump(code, t, targs, m, poll, fuel)
        else Jump(code, e, eargs, m, poll, fuel)
  }

  function Jump(code: seq<Block>, b: nat, args: seq<nat>, m: Machine, poll: Poll, fuel: nat): Final
    decreases fuel, -1
  {
    if b >= |code| then Faulted
    else if fuel == 0 then OutOfFuel
    else
      match Bind(m.env, m.env, code[b].params, args)
      case None => Faulted
      case Some(env) => Run(code, b, 0, m.(env := env), poll, fuel - 1)
  }
}
