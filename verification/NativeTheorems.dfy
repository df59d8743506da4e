/** What the scalar backend promises about every accepted function. */
module NativeTheorems {
  import opened Wrappers
  import opened Mir
  import opened Clif
  import opened Lowering
  import opened NativeCorrectness
  import opened NativeSimulation

  /** The machine as the entry block finds it. */
  function Fresh(): Machine {
    Machine(map[], [], None, None, false)
  }

  lemma AcceptedBody(f: Function, offsets: seq<Usize>, product: Product)
    requires Sealed(f, offsets) && LowerFunction(f, offsets) == Ok(product)
    ensures LowerFrom(Initial(|f.temps|), Body(f), Returned(f), offsets, 0) == Ok(product)
  {
  }

  /**
   * Compiler correctness: for every accepted function, every poll helper and enough jumps, the emitted
   * code halts with exactly the status, polls and result cell of the checked MIR run, and no 64-bit
   * operation wraps on the way.
   */
  lemma LoweringCorrect(f: Function, offsets: seq<Usize>, product: Product, poll: Poll, fuel: nat)
    requires Sealed(f, offsets) && LowerFunction(f, offsets) == Ok(product) && |product.code| <= fuel
    ensures Matches(Run(product.code, ENTRY, 0, Fresh(), poll, fuel),
                    Execute(Body(f), Returned(f), offsets, 0, map[], [], poll))
  {
    AcceptedBody(f, offsets, product);
    var s := Initial(|f.temps|);
    assert ExitsOpen(s.builder) && |s.builder.code| == 3;
    assert LeadsTo(s, Body(f), Returned(f), offsets, 0, product.code);
    Simulates(s, Body(f), Returned(f), offsets, 0, product.code, map[], Fresh(), poll, fuel);
  }

  /** The result cell is written if and only if the run reports OK. */
  lemma {:induction false} ResultOnlyOnSuccess(code: seq<Instruction>, ret: Option<nat>, offsets: seq<Usize>, at: nat,
                                               temps: map<nat, Value>, polls: seq<Usize>, poll: Poll)
    requires |offsets| == |code| + 1 && at <= |code|
    ensures var o := Execute(code, ret, offsets, at, temps, polls, poll);
            o.Exit? ==> (o.result.Some? <==> o.status == STATUS_OK)
    decreases |code| - at
  {
    if at < |code| && Compute(code[at], temps).Yields? {
      ResultOnlyOnSuccess(code, ret, offsets, at + 1, temps[code[at].dst := Compute(code[at], temps).v], polls + [offsets[at]], poll);
    }
  }

  // ------------------------------------------------------------------- traps

  /** Some values of the temporaries make the instruction overflow. */
  ghost predicate CanOverflow(instruction: Instruction) {
    exists temps: map<nat, Value> :: Compute(instruction, temps).Overflows?
  }

  /** A register subtracted from itself: always zero, yet compiled like every subtraction. */
  predicate SelfSubtraction(instruction: Instruction) {
    instruction.Binary? && instruction.binary.Sub? && instruction.lhs == instruction.rhs
  }

  ghost predicate Listed(instruction: Instruction) {
    CanOverflow(instruction) || SelfSubtraction(instruction)
  }

  /** The instructions listed as traps are exactly those that can overflow, and self-subtractions. */
  lemma TrapsExactly(instruction: Instruction)
    ensures MayTrap(instruction) <==> CanOverflow(instruction) || SelfSubtraction(instruction)
    ensures !(CanOverflow(instruction) && SelfSubtraction(instruction))
  {
    match instruction
    case Unary(_, Neg, a) =>
      assert Compute(instruction, map[a := VI32(I32_MIN)]).Overflows?;
    case Binary(_, op, a, b) =>
      if op.Sub? && a != b {
        assert Compute(instruction, map[a := VI32(I32_MIN), b := VI32(I32_MAX)]).Overflows?;
      } else if op.Add? || op.Mul? {
        assert Compute(instruction, map[a := VI32(I32_MAX), b := VI32(I32_MAX)]).Overflows?;
      }
    case _ =>
  }

  /** A self-subtraction is listed although no values of the temporaries make it trap. */
  lemma SelfSubtractionIsListed(temps: map<nat, Value>)
    ensures var f := Function(false, [], I32Type, [], [I32Type, I32Type],
                              [BasicBlock([LoadConst(0, I32Const(1)), Binary(1, Sub, 0, 0)], Some(Return(Some(1))))], 0);
            && LowerFunction(f, [10, 11, 12]).Ok? && LowerFunction(f, [10, 11, 12]).value.traps == [11]
            && !Compute(Body(f)[1], temps).Overflows?
  {
    var f := Function(false, [], I32Type, [], [I32Type, I32Type],
                      [BasicBlock([LoadConst(0, I32Const(1)), Binary(1, Sub, 0, 0)], Some(Return(Some(1))))], 0);
    var offsets: seq<Usize> := [10, 11, 12];
    assert KindOf(Body(f)[0], map[]) == Some(TAG_I32);
    assert KindOf(Body(f)[1], map[0 := TAG_I32]) == Some(TAG_I32);
    assert WellKinded(Body(f), Returned(f), 2, 2, map[0 := TAG_I32, 1 := TAG_I32]);
    assert WellKinded(Body(f), Returned(f), 2, 1, map[0 := TAG_I32]);
    AcceptsExactlyWellKinded(f, offsets);
    ArtifactMetadata(f, offsets, LowerFunction(f, offsets).value);
    TrapsExactly(Body(f)[0]);
    assert TrapOffsets(Body(f), offsets, 1) == [11];
  }

  /** Which instruction ended the run, and how. */
  lemma {:induction false} ExitPoint(code: seq<Instruction>, ret: Option<nat>, offsets: seq<Usize>, at: nat,
                                     temps: map<nat, Value>, polls: seq<Usize>, poll: Poll) returns (k: nat)
    requires |offsets| == |code| + 1 && at <= |code| && Execute(code, ret, offsets, at, temps, polls, poll).Exit?
    ensures at <= k <= |code|
    ensures var o := Execute(code, ret, offsets, at, temps, polls, poll);
            && o.polls == polls + offsets[at..k + 1]
            && (poll(o.polls) == STATUS_OK || poll(o.polls) == o.status)
            && (poll(o.polls) == STATUS_OK && o.status != STATUS_OK ==>
                  k < |code| && CanOverflow(code[k]) && o.status == STATUS_INTEGER_OVERFLOW)
            && (o.status == STATUS_OK ==> k == |code|)
    decreases |code| - at
  {
    k := at;
    if poll(polls + [offsets[at]]) == STATUS_OK && at < |code| && Compute(code[at], temps).Yields? {
      k := ExitPoint(code, ret, offsets, at + 1, temps[code[at].dst := Compute(code[at], temps).v], polls + [offsets[at]], poll);
      assert offsets[at..k + 1] == [offsets[at]] + offsets[at + 1..k + 1];
    } else {
      assert offsets[at..at + 1] == [offsets[at]];
    }
  }

  /** Offsets of the instructions from `at` on that can overflow or subtract a register from itself, in order. */
  ghost function TrapOffsets(code: seq<Instruction>, offsets: seq<Usize>, at: nat): seq<Usize>
    requires |offsets| == |code| + 1 && at <= |code|
    decreases |code| - at
  {
    if at == |code| then []
    else (if Listed(code[at]) then [offsets[at]] else []) + TrapOffsets(code, offsets, at + 1)
  }

  lemma TrapListed(code: seq<Instruction>, offsets: seq<Usize>, at: nat, k: nat)
    requires |offsets| == |code| + 1 && at <= k < |code| && CanOverflow(code[k])
    ensures offsets[k] in TrapOffsets(code, offsets, at)
  {
    TrapOffsetsMembers(code, offsets, at, offsets[k]);
    assert TrapPoint(code, offsets, k, offsets[k]);
  }

  lemma TablesStep(s: State, instruction: Instruction, offset: Usize)
    requires s.builder.Ready() && LowerOne(s, instruction, offset).Ok?
    ensures var t := LowerOne(s, instruction, offset).value;
            && t.builder.Ready()
            && t.safepoints == s.safepoints + [offset]
            && t.traps == s.traps + (if Listed(instruction) then [offset] else [])
  {
    TrapsExactly(instruction);
  }

  lemma ReturnTables(s: State, ret: Option<nat>, offset: Usize, product: Product)
    requires s.builder.Ready() && LowerReturn(s, ret, offset) == Ok(product)
    ensures product.safepoints == s.safepoints + [offset] && product.traps == s.traps
  {
  }

  lemma Regroup(a: seq<Usize>, b: seq<Usize>, c: seq<Usize>)
    ensures (a + b) + c == a + (b + c)
  {
  }

  /** The tables a lowering produces list its own points behind those of the state it started from. */
  lemma {:induction false} ArtifactTables(s: State, code: seq<Instruction>, ret: Option<nat>, offsets: seq<Usize>, at: nat, product: Product)
    requires s.builder.Ready() && |offsets| == |code| + 1 && at <= |code| && LowerFrom(s, code, ret, offsets, at) == Ok(product)
    ensures product.safepoints == s.safepoints + offsets[at..]
    ensures product.traps == s.traps + TrapOffsets(code, offsets, at)
    decreases |code| - at
  {
    if at == |code| {
      ReturnTables(s, ret, offsets[at], product);
      assert offsets[at..] == [offsets[at]];
    } else {
      TablesStep(s, code[at], offsets[at]);
      var t := LowerOne(s, code[at], offsets[at]).value;
      ArtifactTables(t, code, ret, offsets, at + 1, product);
      assert offsets[at..] == [offsets[at]] + offsets[at + 1..];
      Regroup(s.safepoints, [offsets[at]], offsets[at + 1..]);
      Regroup(s.traps, if Listed(code[at]) then [offsets[at]] else [], TrapOffsets(code, offsets, at + 1));
    }
  }

  /** Safepoints are all logical points in order; traps are the points of possible overflows and self-subtractions. */
  lemma ArtifactMetadata(f: Function, offsets: seq<Usize>, product: Product)
    requires Sealed(f, offsets) && LowerFunction(f, offsets) == Ok(product)
    ensures product.safepoints == offsets && product.traps == TrapOffsets(Body(f), offsets, 0)
  {
    AcceptedBody(f, offsets, product);
    ArtifactTables(Initial(|f.temps|), Body(f), Returned(f), offsets, 0, product);
    assert [] + offsets[0..] == offsets;
  }

  /** Instruction `k` has this offset and is listed as a trap. */
  ghost predicate TrapPoint(code: seq<Instruction>, offsets: seq<Usize>, k: nat, offset: Usize) {
    k < |code| && k < |offsets| && offsets[k] == offset && Listed(code[k])
  }

  lemma TrapOffsetsStep(code: seq<Instruction>, offsets: seq<Usize>, at: nat, offset: Usize)
    requires |offsets| == |code| + 1 && at < |code|
    ensures offset in TrapOffsets(code, offsets, at) <==>
              TrapPoint(code, offsets, at, offset) || offset in TrapOffsets(code, offsets, at + 1)
  {
  }

  lemma {:induction false} TrapOffsetsMembers(code: seq<Instruction>, offsets: seq<Usize>, at: nat, offset: Usize)
    requires |offsets| == |code| + 1 && at <= |code|
    ensures offset in TrapOffsets(code, offsets, at) <==>
              exists k {:trigger TrapPoint(code, offsets, k, offset)} | at <= k < |code| :: TrapPoint(code, offsets, k, offset)
    decreases |code| - at
  {
    if at < |code| {
      TrapOffsetsMembers(code, offsets, at + 1, offset);
      TrapOffsetsStep(code, offsets, at, offset);
    }
  }

  /** A listed offset is exactly the offset of an instruction that can overflow or subtracts a register from itself. */
  lemma TrapTable(f: Function, offsets: seq<Usize>, product: Product, offset: Usize)
    requires Sealed(f, offsets) && LowerFunction(f, offsets) == Ok(product)
    ensures offset in product.traps <==>
              exists k {:trigger TrapPoint(Body(f), offsets, k, offset)} | 0 <= k < |Body(f)| :: TrapPoint(Body(f), offsets, k, offset)
  {
    ArtifactMetadata(f, offsets, product);
    TrapOffsetsMembers(Body(f), offsets, 0, offset);
  }

  /** How a finished run relates to the metadata of the product. */
  ghost predicate Attributed(f: Function, offsets: seq<Usize>, traps: seq<Usize>, poll: Poll, final: Final)
    requires Sealed(f, offsets)
  {
    && final.Halted?
    && final.machine.polls != [] && final.machine.polls <= offsets
    && (final.machine.tag.Some? <==> final.status == STATUS_OK)
    && (final.machine.payload.Some? <==> final.status == STATUS_OK)
    && (final.status == STATUS_OK ==> final.machine.polls == offsets)
    && (poll(final.machine.polls) != STATUS_OK ==> final.status == poll(final.machine.polls))
    && (poll(final.machine.polls) == STATUS_OK && final.status != STATUS_OK ==>
          var k := |final.machine.polls| - 1;
          && final.status == STATUS_INTEGER_OVERFLOW
          && k < |Body(f)| && CanOverflow(Body(f)[k])
          && final.machine.polls[k] in traps)
  }

  lemma ExecuteAttributed(f: Function, offsets: seq<Usize>, poll: Poll, final: Final)
    requires Sealed(f, offsets) && Matches(final, Execute(Body(f), Returned(f), offsets, 0, map[], [], poll))
    ensures Attributed(f, offsets, TrapOffsets(Body(f), offsets, 0), poll, final)
  {
    ResultOnlyOnSuccess(Body(f), Returned(f), offsets, 0, map[], [], poll);
    var k := ExitPoint(Body(f), Returned(f), offsets, 0, map[], [], poll);
    assert [] + offsets[0..k + 1] == offsets[..k + 1];
    if k < |Body(f)| && CanOverflow(Body(f)[k]) {
      TrapListed(Body(f), offsets, 0, k);
    }
  }

  /**
   * A run that fails although its last poll said OK left through the overflow block; the last polled
   * offset is then the trapping instruction's own offset and is listed among the traps. The result
   * cell is written if and only if the status is OK.
   */
  lemma ExitsAreAttributed(f: Function, offsets: seq<Usize>, product: Product, poll: Poll, fuel: nat)
    requires Sealed(f, offsets) && LowerFunction(f, offsets) == Ok(product) && |product.code| <= fuel
    ensures Attributed(f, offsets, product.traps, poll, Run(product.code, ENTRY, 0, Fresh(), poll, fuel))
  {
    LoweringCorrect(f, offsets, product, poll, fuel);
    ArtifactMetadata(f, offsets, product);
    ExecuteAttributed(f, offsets, poll, Run(product.code, ENTRY, 0, Fresh(), poll, fuel));
  }

  // ------------------------------------------------------------ acceptance

  /** The static kind of an instruction's result from the kinds of the temporaries. */
  function KindOf(instruction: Instruction, kinds: map<nat, nat>): Option<nat> {
    match instruction
    case LoadConst(_, UnitConst) => Some(TAG_UNIT)
    case LoadConst(_, BoolConst(_)) => Some(TAG_BOOL)
    case LoadConst(_, I32Const(_)) => Some(TAG_I32)
    case Move(_, src) => if src in kinds then Some(kinds[src]) else None
    case Unary(_, Neg, a) => if a in kinds && kinds[a] == TAG_I32 then Some(TAG_I32) else None
    case Unary(_, Not, a) => if a in kinds && kinds[a] == TAG_BOOL then Some(TAG_BOOL) else None
    case Binary(_, op, a, b) =>
      if a !in kinds || b !in kinds || op.OtherOp? then None
      else if IsEquality(op) then if kinds[a] == kinds[b] then Some(TAG_BOOL) else None
      else if kinds[a] == TAG_I32 && kinds[b] == TAG_I32 then Some(if IsArithmetic(op) then TAG_I32 else TAG_BOOL)
      else None
    case _ => None
  }

  /** Straight-line code is well kinded: every read is initialized and fits, every write is in the frame. */
  predicate WellKinded(code: seq<Instruction>, ret: Option<nat>, frame: nat, at: nat, kinds: map<nat, nat>)
    requires at <= |code|
    decreases |code| - at
  {
    if at == |code| then ret.None? || ret.value in kinds
    else
      match KindOf(code[at], kinds)
      case None => false
      case Some(k) => code[at].dst < frame && WellKinded(code, ret, frame, at + 1, kinds[code[at].dst := k])
  }

  ghost predicate KindsAgree(kinds: map<nat, nat>, regs: Registers) {
    && (forall t | t in kinds :: t < |regs| && regs[t].Some?)
    && (forall t | 0 <= t < |regs| && regs[t].Some? :: t in kinds && kinds[t] == regs[t].value.tag && Comparable(kinds[t]))
  }

  lemma OperationKind(b: Builder, regs: Registers, instruction: Instruction, kinds: map<nat, nat>)
    requires b.Ready() && KindsAgree(kinds, regs)
    ensures EmitOperation(b, regs, instruction).Ok? <==> KindOf(instruction, kinds).Some?
    ensures KindOf(instruction, kinds).Some? ==>
              EmitOperation(b, regs, instruction).value.value.tag == KindOf(instruction, kinds).value
              && Comparable(KindOf(instruction, kinds).value)
  {
  }

  lemma PollReady(b: Builder, offset: Usize)
    requires b.Ready()
    ensures EmitPoll(b, offset).Ready()
  {
  }

  lemma {:induction false} LowersIffKinded(s: State, code: seq<Instruction>, ret: Option<nat>, offsets: seq<Usize>, at: nat, kinds: map<nat, nat>)
    requires s.builder.Ready() && |offsets| == |code| + 1 && at <= |code| && KindsAgree(kinds, s.regs)
    ensures LowerFrom(s, code, ret, offsets, at).Ok? <==> WellKinded(code, ret, |s.regs|, at, kinds)
    decreases |code| - at
  {
    PollReady(s.builder, offsets[at]);
    if at < |code| {
      OperationKind(EmitPoll(s.builder, offsets[at]), s.regs, code[at], kinds);
      if LowerOne(s, code[at], offsets[at]).Ok? {
        LowerOneReady(s, code[at], offsets[at]);
        var t := LowerOne(s, code[at], offsets[at]).value;
        var kinds' := kinds[code[at].dst := KindOf(code[at], kinds).value];
        assert KindsAgree(kinds', t.regs);
        LowersIffKinded(t, code, ret, offsets, at + 1, kinds');
      }
    } else if ret.Some? {
      OperationKind(EmitPoll(s.builder, offsets[at]), s.regs, Move(0, ret.value), kinds);
    }
  }

  lemma {:induction false} KindedIsSupported(code: seq<Instruction>, ret: Option<nat>, frame: nat, at: nat, kinds: map<nat, nat>)
    requires at <= |code| && WellKinded(code, ret, frame, at, kinds)
    ensures forall k | at <= k < |code| :: !code[k].OtherInstruction?
    decreases |code| - at
  {
    if at < |code| {
      KindedIsSupported(code, ret, frame, at + 1, kinds[code[at].dst := KindOf(code[at], kinds).value]);
    }
  }

  predicate IsScalar(ty: ValueType) {
    ty == UnitType || ty == BoolType || ty == I32Type
  }

  lemma ScalarsByIndex(types: seq<ValueType>)
    ensures (exists t | t in types :: !Scalar(t)) <==> !(forall k | 0 <= k < |types| :: IsScalar(types[k]))
  {
    if k :| 0 <= k < |types| && !IsScalar(types[k]) {
      assert types[k] in types && !Scalar(types[k]);
    }
  }

  lemma SubsetByFields(f: Function)
    requires f.entry < |f.blocks|
    ensures CheckSubset(f).None? <==>
              && !f.maySuspend && f.params == [] && IsScalar(f.returnType)
              && (forall k | 0 <= k < |f.locals| :: IsScalar(f.locals[k]))
              && (forall k | 0 <= k < |f.temps| :: IsScalar(f.temps[k]))
              && |f.blocks| == 1 && f.blocks[0].terminator.Some? && f.blocks[0].terminator.value.Return?
              && (forall k | 0 <= k < |f.blocks[0].instructions| :: !f.blocks[0].instructions[k].OtherInstruction?)
  {
    ScalarsByIndex(f.locals);
    ScalarsByIndex(f.temps);
  }

  /**
   * A function is lowered if and only if it never suspends, takes no arguments, has scalar slots and
   * result only, is one block ending in a return, and is well kinded.
   */
  lemma AcceptsExactlyWellKinded(f: Function, offsets: seq<Usize>)
    requires Sealed(f, offsets)
    ensures LowerFunction(f, offsets).Ok? <==>
              && !f.maySuspend && f.params == [] && IsScalar(f.returnType)
              && (forall k | 0 <= k < |f.locals| :: IsScalar(f.locals[k]))
              && (forall k | 0 <= k < |f.temps| :: IsScalar(f.temps[k]))
              && |f.blocks| == 1 && f.blocks[0].terminator.Some? && f.blocks[0].terminator.value.Return?
              && WellKinded(f.blocks[0].instructions, f.blocks[0].terminator.value.value, |f.temps|, 0, map[])
  {
    SubsetByFields(f);
    if WellKinded(Body(f), Returned(f), |f.temps|, 0, map[]) {
      KindedIsSupported(Body(f), Returned(f), |f.temps|, 0, map[]);
    }
    if CheckSubset(f).None? {
      LowersIffKinded(Initial(|f.temps|), Body(f), Returned(f), offsets, 0, map[]);
    }
  }
}
