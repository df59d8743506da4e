/** The imperative lowering: a function builder filled instruction by instruction. */
module Emit {
  import opened Wrappers
  import opened Mir
  import opened Clif
  import opened Lowering

  /** The builder the backend appends to. Values are numbered as they are created. */
  class FunctionBuilder {
    var code: seq<Block>
    var current: nat
    var next: nat

    ghost function State(): Builder
      reads this
    {
      Builder(code, current, next)
    }

    constructor ()
      ensures State() == Start()
    {
      code := [Block([], [], Open), Block([STATUS_PARAM], [], Open), Block([], [], Open)];
      current, next := ENTRY, FIRST_VALUE;
    }

    /** Appends an instruction that defines the next value. */
    method Ins(inst: Inst) returns (value: nat)
      requires current < |code|
      modifies this
      ensures State() == old(State()).Append([inst], 1) && value == old(next)
    {
      code := code[current := code[current].(insts := code[current].insts + [inst])];
      value := next;
      next := next + 1;
    }

    /** Appends an instruction that defines no value. */
    method Effect(inst: Inst)
      requires current < |code|
      modifies this
      ensures State() == old(State()).Append([inst], 0)
    {
      code := code[current := code[current].(insts := code[current].insts + [inst])];
    }

    method Terminate(term: Term)
      requires current < |code|
      modifies this
      ensures State() == old(State()).Close(term)
    {
      code := code[current := code[current].(term := term)];
    }

    method CreateBlock() returns (block: nat)
      modifies this
      ensures block == |old(code)| && code == old(code) + [Block([], [], Open)]
      ensures current == old(current) && next == old(next)
    {
      block := |code|;
      code := code + [Block([], [], Open)];
    }

    method SwitchTo(block: nat)
      modifies this
      ensures State() == old(State()).(current := block)
    {
      current := block;
    }

    /** Ends the current block with a branch whose main target is a fresh block, and goes on there. */
    method Branch(cond: nat, leave: nat, args: seq<nat>, leaveWhen: bool)
      requires State().Ready()
      modifies this
      ensures State() == old(State()).Guard(
                           if leaveWhen then Brif(cond, leave, args, |old(code)|, []) else Brif(cond, |old(code)|, [], leave, args))
    {
      ghost var before := State();
      var onward := CreateBlock();
      Terminate(if leaveWhen then Brif(cond, leave, args, onward, []) else Brif(cond, onward, [], leave, args));
      SwitchTo(onward);
      assert code == before.Guard(if leaveWhen then Brif(cond, leave, args, onward, []) else Brif(cond, onward, [], leave, args)).code;
    }
  }

  lemma AppendOne(b: Builder, x: seq<Inst>, inst: Inst, m: nat, n: nat, all: seq<Inst>)
    requires b.current < |b.code| && all == x + [inst]
    ensures b.Append(x, m).Append([inst], n) == b.Append(all, m + n)
  {
    var c := b.Append(x, m).Append([inst], n);
    assert c.code[b.current].insts == b.code[b.current].insts + all;
    assert c.code == b.Append(all, m + n).code;
  }

  method EmitResourceCheck(builder: FunctionBuilder, offset: Usize)
    requires builder.State().Ready()
    modifies builder
    ensures builder.State() == EmitPoll(old(builder.State()), offset)
  {
    ghost var b := builder.State();
    var at := builder.Ins(Iconst(builder.next, Wrap64(offset)));
    var status := builder.Ins(CallPoll(builder.next, at));
    var ok := builder.Ins(IcmpImm(builder.next, Equal, status, STATUS_OK));
    ghost var i0, i1, i2 := Iconst(at, Wrap64(offset)), CallPoll(status, at), IcmpImm(ok, Equal, status, STATUS_OK);
    AppendOne(b, [i0], i1, 1, 1, [i0, i1]);
    AppendOne(b, [i0, i1], i2, 2, 1, [i0, i1, i2]);
    builder.Branch(ok, HELPER_ERROR, [status], false);
  }

  method EmitI32RangeCheck(builder: FunctionBuilder, value: nat)
    requires builder.State().Ready()
    modifies builder
    ensures builder.State() == EmitRangeCheck(old(builder.State()), value)
  {
    ghost var b := builder.State();
    var below := builder.Ins(IcmpImm(builder.next, SignedLess, value, I32_MIN));
    var above := builder.Ins(IcmpImm(builder.next, SignedGreater, value, I32_MAX));
    var either := builder.Ins(Bor(builder.next, below, above));
    ghost var i0, i1 := IcmpImm(below, SignedLess, value, I32_MIN), IcmpImm(above, SignedGreater, value, I32_MAX);
    AppendOne(b, [i0], i1, 1, 1, [i0, i1]);
    AppendOne(b, [i0, i1], Bor(either, below, above), 2, 1, [i0, i1, Bor(either, below, above)]);
    builder.Branch(either, OVERFLOW, [], true);
  }

  method EmitConst(builder: FunctionBuilder, constant: Constant) returns (r: Result<Lowered, Error>)
    requires builder.State().Ready()
    modifies builder
    ensures r.Ok? ==> EmitConstant(old(builder.State()), constant) == Ok(Emitted(builder.State(), r.value))
    ensures r.Err? ==> EmitConstant(old(builder.State()), constant) == Err(r.error)
  {
    match constant
    case UnitConst =>
      var payload := builder.Ins(Iconst(builder.next, 0));
      r := Ok(Lowered(TAG_UNIT, payload));
    case BoolConst(value) =>
      var payload := builder.Ins(Iconst(builder.next, Flag(value)));
      r := Ok(Lowered(TAG_BOOL, payload));
    case I32Const(value) =>
      var payload := builder.Ins(Iconst(builder.next, value));
      r := Ok(Lowered(TAG_I32, payload));
    case OtherConst =>
      r := Err(UnsupportedConstant);
  }

  method EmitUnaryOp(builder: FunctionBuilder, op: UnaryOp, operand: Lowered) returns (r: Result<Lowered, Error>)
    requires builder.State().Ready()
    modifies builder
    ensures r.Ok? ==> EmitUnary(old(builder.State()), op, operand) == Ok(Emitted(builder.State(), r.value))
    ensures r.Err? ==> EmitUnary(old(builder.State()), op, operand) == Err(r.error)
  {
    ghost var b := builder.State();
    if op.Neg? && operand.tag == TAG_I32 {
      var zero := builder.Ins(Iconst(builder.next, 0));
      var payload := builder.Ins(Isub(builder.next, zero, operand.payload));
      ghost var i0, i1 := Iconst(zero, 0), Isub(payload, zero, operand.payload);
      AppendOne(b, [i0], i1, 1, 1, [i0, i1]);
      EmitI32RangeCheck(builder, payload);
      r := Ok(Lowered(TAG_I32, payload));
    } else if op.Not? && operand.tag == TAG_BOOL {
      var isFalse := builder.Ins(IcmpImm(builder.next, Equal, operand.payload, 0));
      var payload := builder.Ins(Uextend(builder.next, isFalse));
      ghost var i0, i1 := IcmpImm(isFalse, Equal, operand.payload, 0), Uextend(payload, isFalse);
      AppendOne(b, [i0], i1, 1, 1, [i0, i1]);
      r := Ok(Lowered(TAG_BOOL, payload));
    } else {
      r := Err(UnsupportedUnary);
    }
  }

  method EmitBinaryOp(builder: FunctionBuilder, op: BinaryOp, lhs: Lowered, rhs: Lowered) returns (r: Result<Lowered, Error>)
    requires builder.State().Ready()
    modifies builder
    ensures r.Ok? ==> EmitBinary(old(builder.State()), op, lhs, rhs) == Ok(Emitted(builder.State(), r.value))
    ensures r.Err? ==> EmitBinary(old(builder.State()), op, lhs, rhs) == Err(r.error)
  {
    ghost var b := builder.State();
    if IsArithmetic(op) && lhs.tag == TAG_I32 && rhs.tag == TAG_I32 {
      var payload := builder.Ins(ArithmeticInst(op, builder.next, lhs.payload, rhs.payload));
      EmitI32RangeCheck(builder, payload);
      r := Ok(Lowered(TAG_I32, payload));
    } else if (IsEquality(op) && lhs.tag == rhs.tag && Comparable(lhs.tag))
           || (IsOrdering(op) && lhs.tag == TAG_I32 && rhs.tag == TAG_I32) {
      var comparison := builder.Ins(Icmp(builder.next, Condition(op), lhs.payload, rhs.payload));
      var payload := builder.Ins(Uextend(builder.next, comparison));
      ghost var i0, i1 := Icmp(comparison, Condition(op), lhs.payload, rhs.payload), Uextend(payload, comparison);
      AppendOne(b, [i0], i1, 1, 1, [i0, i1]);
      r := Ok(Lowered(TAG_BOOL, payload));
    } else {
      r := Err(UnsupportedBinary);
    }
  }

  /** The match over the instruction kinds in the emission loop. */
  method EmitInstruction(builder: FunctionBuilder, regs: Registers, instruction: Instruction) returns (r: Result<Lowered, Error>)
    requires builder.State().Ready()
    modifies builder
    ensures r.Ok? ==> EmitOperation(old(builder.State()), regs, instruction) == Ok(Emitted(builder.State(), r.value))
    ensures r.Err? ==> EmitOperation(old(builder.State()), regs, instruction) == Err(r.error)
  {
    match instruction
    case LoadConst(_, constant) =>
      r := EmitConst(builder, constant);
    case Move(_, src) =>
      r := ReadRegister(regs, src);
    case Unary(_, op, operand) =>
      var x := ReadRegister(regs, operand);
      if x.Err? {
        return x;
      }
      r := EmitUnaryOp(builder, op, x.value);
    case Binary(_, op, lhs, rhs) =>
      var x := ReadRegister(regs, lhs);
      if x.Err? {
        return x;
      }
      var y := ReadRegister(regs, rhs);
      if y.Err? {
        return y;
      }
      r := EmitBinaryOp(builder, op, x.value, y.value);
    case OtherInstruction =>
      r := Err(UnsupportedInstruction);
  }

  method EmitReturn(builder: FunctionBuilder, value: Lowered)
    requires builder.State().Ready()
    modifies builder
    ensures builder.code == EmitExits(old(builder.State()), value)
  {
    ghost var b := builder.State();
    var tag := builder.Ins(Iconst(builder.next, value.tag));
    builder.Effect(StoreTag(tag));
    builder.Effect(StorePayload(value.payload));
    var ok := builder.Ins(Iconst(builder.next, STATUS_OK));
    ghost var i0, i1, i2, i3 := Iconst(tag, value.tag), StoreTag(tag), StorePayload(value.payload), Iconst(ok, STATUS_OK);
    AppendOne(b, [i0], i1, 1, 0, [i0, i1]);
    AppendOne(b, [i0, i1], i2, 1, 0, [i0, i1, i2]);
    AppendOne(b, [i0, i1, i2], i3, 1, 1, [i0, i1, i2, i3]);
    builder.Terminate(Ret(ok));
    builder.SwitchTo(HELPER_ERROR);
    builder.Terminate(Ret(STATUS_PARAM));
    builder.SwitchTo(OVERFLOW);
    var status := builder.Ins(Iconst(builder.next, STATUS_INTEGER_OVERFLOW));
    builder.Terminate(Ret(status));
  }

  /** Lowers a function: the same product, or the same refusal, as the specification. */
  method Lower(f: Function, offsets: seq<Usize>) returns (r: Result<Product, Error>)
    requires Sealed(f, offsets)
    ensures r == LowerFunction(f, offsets)
  {
    var refused := CheckSubset(f);
    if refused.Some? {
      return Err(refused.value);
    }
    var code, ret := Body(f), Returned(f);
    var builder := new FunctionBuilder();
    var regs: Registers := seq(|f.temps|, _ => None);
    var safepoints, traps := [], [];
    ghost var s := Initial(|f.temps|);
    for index := 0 to |code|
      invariant fresh(builder) && builder.State() == s.builder && s.builder.Ready()
      invariant s.regs == regs && s.safepoints == safepoints && s.traps == traps
      invariant LowerFrom(s, code, ret, offsets, index) == LowerFunction(f, offsets)
    {
      LowerOneReady(s, code[index], offsets[index]);
      EmitResourceCheck(builder, offsets[index]);
      safepoints := safepoints + [offsets[index]];
      var value := EmitInstruction(builder, regs, code[index]);
      if value.Err? {
        return Err(value.error);
      }
      if code[index].dst >= |regs| {
        return Err(RegisterBeyondFrame);
      }
      regs := regs[code[index].dst := Some(value.value)];
      if MayTrap(code[index]) {
        traps := traps + [offsets[index]];
      }
      s := LowerOne(s, code[index], offsets[index]).value;
    }
    EmitResourceCheck(builder, offsets[|code|]);
    safepoints := safepoints + [offsets[|code|]];
    var value;
    if ret.None? {
      value := EmitConst(builder, UnitConst);
    } else {
      value := EmitInstruction(builder, regs, Move(0, ret.value));
    }
    if value.Err? {
      return Err(value.error);
    }
    EmitReturn(builder, value.value);
    return Ok(Product(builder.code, safepoints, traps));
  }
}
