/** Whole runs of lowered functions against the MIR meaning, for every poll helper. */
module NativeSimulation {
  import opened Wrappers
  import opened Mir
  import opened Clif
  import opened Lowering
  import opened NativeCorrectness

  // --------------------------------------------------------- one operation

  lemma OperationSize(b: Builder, regs: Registers, instruction: Instruction)
    requires b.Ready() && EmitOperation(b, regs, instruction).Ok?
    ensures |b.code| <= |EmitOperation(b, regs, instruction).value.builder.code| <= |b.code| + 1
    ensures EmitOperation(b, regs, instruction).value.builder.Ready()
  {
  }

  /** Any accepted operation on agreeing registers is well typed and runs as the MIR says. */
  lemma OperationRuns(code: seq<Block>, b: Builder, regs: Registers, instruction: Instruction, out: Emitted, temps: map<nat, Value>,
                      m: Machine, poll: Poll, fuel: nat) returns (m': Machine)
    requires b.Ready() && EmitOperation(b, regs, instruction) == Ok(out)
    requires Extends(out.builder.code, code) && Exits(code) && 1 <= fuel
    requires Agrees(temps, regs, m.env, b.next) && !m.wrapped
    ensures !Compute(instruction, temps).IllTyped?
    ensures Compute(instruction, temps).Yields? ==> OperationDone(code, b, out, m, m', Compute(instruction, temps).v, poll, fuel)
    ensures Compute(instruction, temps).Overflows? ==> Overflowed(code, b, m, poll, fuel)
  {
    OperationSize(b, regs, instruction);
    m' := m;
    match instruction
    case LoadConst(_, c) => m' := ConstantRuns(code, b, c, m, poll, fuel);
    case Move(_, _) =>
    case Unary(_, Neg, a) => m' := NegRuns(code, b, regs[a].value, temps[a], m, poll, fuel);
    case Unary(_, Not, a) => m' := NotRuns(code, b, regs[a].value, temps[a], m, poll, fuel);
    case Binary(_, op, l, r) =>
      if IsArithmetic(op) {
        m' := ArithRuns(code, b, op, regs[l].value, regs[r].value, temps[l], temps[r], m, poll, fuel);
      } else {
        m' := CompareRuns(code, b, op, regs[l].value, regs[r].value, temps[l], temps[r], m, poll, fuel);
      }
  }

  ghost predicate OperationDone(code: seq<Block>, b: Builder, out: Emitted, m: Machine, m': Machine, v: Value, poll: Poll, fuel: nat) {
    && b.current < |b.code| && out.builder.current < |out.builder.code|
    && |b.code| <= |out.builder.code| <= |b.code| + fuel
    && Computed(code, b, out, m, m', v, poll, fuel)
  }

  // ------------------------------------------------------ shape of the code

  /** The shared exits are still empty while instructions are being lowered. */
  ghost predicate ExitsOpen(b: Builder) {
    b.Ready() && b.code[HELPER_ERROR] == Block([STATUS_PARAM], [], Open) && b.code[OVERFLOW] == Block([], [], Open)
  }

  lemma OperationKeepsExits(b: Builder, regs: Registers, instruction: Instruction)
    requires ExitsOpen(b) && EmitOperation(b, regs, instruction).Ok?
    ensures ExitsOpen(EmitOperation(b, regs, instruction).value.builder)
  {
  }

  lemma PollKeepsExits(b: Builder, offset: Usize)
    requires ExitsOpen(b)
    ensures ExitsOpen(EmitPoll(b, offset)) && |EmitPoll(b, offset).code| == |b.code| + 1 && EmitPoll(b, offset).next == b.next + 3
  {
  }

  lemma LowerOneExtends(s: State, instruction: Instruction, offset: Usize)
    requires ExitsOpen(s.builder) && LowerOne(s, instruction, offset).Ok?
    ensures Extends(s.builder.code, LowerOne(s, instruction, offset).value.builder.code)
    ensures ExitsOpen(LowerOne(s, instruction, offset).value.builder)
  {
    var b := EmitPoll(s.builder, offset);
    PollExtends(s.builder, offset);
    PollKeepsExits(s.builder, offset);
    OperationExtends(b, s.regs, instruction);
    OperationKeepsExits(b, s.regs, instruction);
    ExtendsTrans(s.builder.code, b.code, EmitOperation(b, s.regs, instruction).value.builder.code);
  }

  lemma FinalExits(b: Builder, value: Lowered)
    requires ExitsOpen(b)
    ensures Exits(EmitExits(b, value)) && |EmitExits(b, value)| == |b.code|
    ensures Extends(b.Append(ResultCode(b.next, value), 2).Close(Ret(b.next + 1)).code, EmitExits(b, value))
    ensures Extends(b.code, EmitExits(b, value))
  {
  }

  lemma ReturnExtends(s: State, ret: Option<nat>, offset: Usize)
    requires ExitsOpen(s.builder) && LowerReturn(s, ret, offset).Ok?
    ensures Extends(s.builder.code, LowerReturn(s, ret, offset).value.code) && Exits(LowerReturn(s, ret, offset).value.code)
  {
    var b := EmitPoll(s.builder, offset);
    PollExtends(s.builder, offset);
    PollKeepsExits(s.builder, offset);
    var last := if ret.None? then LoadConst(0, UnitConst) else Move(0, ret.value);
    OperationExtends(b, s.regs, last);
    OperationKeepsExits(b, s.regs, last);
    var out := EmitOperation(b, s.regs, last).value;
    FinalExits(out.builder, out.value);
    ExtendsTrans(s.builder.code, b.code, out.builder.code);
    ExtendsTrans(s.builder.code, out.builder.code, LowerReturn(s, ret, offset).value.code);
  }

  /** Every intermediate builder is a partial version of the final code. */
  lemma {:induction false} FromExtends(s: State, code: seq<Instruction>, ret: Option<nat>, offsets: seq<Usize>, at: nat)
    requires |offsets| == |code| + 1 && at <= |code| && ExitsOpen(s.builder) && LowerFrom(s, code, ret, offsets, at).Ok?
    ensures Extends(s.builder.code, LowerFrom(s, code, ret, offsets, at).value.code)
    ensures Exits(LowerFrom(s, code, ret, offsets, at).value.code)
    decreases |code| - at
  {
    if at == |code| {
      ReturnExtends(s, ret, offsets[at]);
    } else {
      LowerOneExtends(s, code[at], offsets[at]);
      var t := LowerOne(s, code[at], offsets[at]).value;
      FromExtends(t, code, ret, offsets, at + 1);
      ExtendsTrans(s.builder.code, t.builder.code, LowerFrom(s, code, ret, offsets, at).value.code);
    }
  }

  // ------------------------------------------------------------- whole runs

  /** Same status, same polls, the result cell written exactly with the result, and nothing wrapped. */
  ghost predicate Matches(final: Final, outcome: Outcome) {
    && final.Halted? && outcome.Exit?
    && final.status == outcome.status
    && final.machine.polls == outcome.polls
    && !final.machine.wrapped
    && final.machine.tag == (if outcome.result.None? then None else Some(Tag(outcome.result.value)))
    && final.machine.payload == (if outcome.result.None? then None else Some(Payload(outcome.result.value)))
  }

  /** Nothing was stored in the result cell and nothing wrapped so far. */
  ghost predicate Clean(m: Machine) {
    m.tag.None? && m.payload.None? && !m.wrapped
  }

  lemma ExecResult(n: nat, value: Lowered, m: Machine, poll: Poll) returns (m': Machine)
    requires value.payload in m.env && value.payload < n
    ensures ExecAll(ResultCode(n, value), m, poll) == Some(m')
    ensures m'.env == m.env[n := value.tag][n + 1 := STATUS_OK]
    ensures m' == m.(env := m'.env, tag := Some(value.tag), payload := Some(m.env[value.payload]))
  {
    var code := ResultCode(n, value);
    var m1 := Define(m, n, value.tag);
    var m2 := m1.(tag := Some(value.tag));
    var m3 := m2.(payload := Some(m.env[value.payload]));
    m' := Define(m3, n + 1, STATUS_OK);
    assert code[1..] == [StoreTag(n), StorePayload(value.payload), Iconst(n + 1, STATUS_OK)];
    ExecThree(StoreTag(n), StorePayload(value.payload), Iconst(n + 1, STATUS_OK), m1, m2, m3, m', poll);
  }

  /** Storing the result and returning OK. */
  lemma ResultRuns(code: seq<Block>, b: Builder, value: Lowered, v: Value, m: Machine, poll: Poll, fuel: nat)
    requires ExitsOpen(b) && code == EmitExits(b, value)
    requires Represents(v, value, m.env) && value.payload < b.next && Clean(m)
    ensures Matches(Resume(code, b, m, poll, fuel), Exit(STATUS_OK, m.polls, Some(v)))
  {
    var n := b.next;
    var c := b.Append(ResultCode(n, value), 2);
    FinalExits(b, value);
    AppendExtends(b, ResultCode(n, value), 2);
    assert Extends(c.code, c.Close(Ret(n + 1)).code);
    ExtendsTrans(c.code, c.Close(Ret(n + 1)).code, code);
    var m' := ExecResult(n, value, m, poll);
    RunAppend(code, b, ResultCode(n, value), 2, m, poll, fuel);
    assert BlockExtends(c.Close(Ret(n + 1)).code[b.current], code[b.current]);
    assert Resume(code, c, m', poll, fuel) == Halted(STATUS_OK, m');
  }

  lemma PolledGrows(m: Machine, n: nat, offset: Usize, poll: Poll)
    ensures Grows(m.env, Polled(m, n, offset, poll).env, n)
  {
  }

  /** The run stopped with `status` after the poll `asked`, leaving the result cell as it was. */
  ghost predicate Stopped(final: Final, m: Machine, asked: seq<Usize>, status: I32) {
    final.Halted? && final.status == status && final.machine == m.(env := final.machine.env, polls := asked)
  }

  /** Poll and operation succeeded: the run stands behind the operation with `v` in its result value. */
  ghost predicate Advanced(code: seq<Block>, b: Builder, out: Emitted, m: Machine, m': Machine, asked: seq<Usize>, v: Value,
                           temps: map<nat, Value>, regs: Registers, poll: Poll, fuel: nat)
  {
    && b.current < |b.code| < |out.builder.code| <= |b.code| + fuel && out.builder.current < |out.builder.code|
    && Resume(code, b, m, poll, fuel) == Resume(code, out.builder, m', poll, fuel - (|out.builder.code| - |b.code|))
    && m' == m.(env := m'.env, polls := asked)
    && Agrees(temps, regs, m'.env, out.builder.next)
    && out.value.payload < out.builder.next && Represents(v, out.value, m'.env)
  }

  /** All that one poll and one operation can lead to. */
  ghost predicate Outcomes(code: seq<Block>, b: Builder, out: Emitted, m: Machine, m': Machine, asked: seq<Usize>, eval: Eval,
                           temps: map<nat, Value>, regs: Registers, poll: Poll, fuel: nat)
    requires b.current < |b.code|
  {
    && !eval.IllTyped?
    && (poll(asked) != STATUS_OK ==> Stopped(Resume(code, b, m, poll, fuel), m, asked, poll(asked)))
    && (poll(asked) == STATUS_OK && eval.Overflows? ==>
          Stopped(Resume(code, b, m, poll, fuel), m, asked, STATUS_INTEGER_OVERFLOW))
    && (poll(asked) == STATUS_OK && eval.Yields? ==> Advanced(code, b, out, m, m', asked, eval.v, temps, regs, poll, fuel))
  }

  /** Chains the run of a poll with the run of the operation behind it. */
  lemma Chain(code: seq<Block>, b: Builder, c: Builder, out: Emitted, m: Machine, next: Machine, m': Machine, asked: seq<Usize>,
              eval: Eval, temps: map<nat, Value>, regs: Registers, poll: Poll, fuel: nat)
    requires b.current < |b.code| < |c.code| <= |out.builder.code| && |c.code| == |b.code| + 1 && 1 <= fuel
    requires c.current < |c.code| && b.next <= c.next
    requires next == m.(env := next.env, polls := asked)
    requires Agrees(temps, regs, next.env, c.next)
    requires poll(asked) == STATUS_OK ==> Resume(code, b, m, poll, fuel) == Resume(code, c, next, poll, fuel - 1)
    requires poll(asked) != STATUS_OK ==> Stopped(Resume(code, b, m, poll, fuel), m, asked, poll(asked))
    requires !eval.IllTyped?
    requires eval.Yields? ==> OperationDone(code, c, out, next, m', eval.v, poll, fuel - 1)
    requires eval.Overflows? ==> Overflowed(code, c, next, poll, fuel - 1)
    ensures Outcomes(code, b, out, m, m', asked, eval, temps, regs, poll, fuel)
  {
  }

  /** What a poll leads to, in the terms of `Chain`. */
  lemma PollLeads(code: seq<Block>, b: Builder, c: Builder, offset: Usize, m: Machine, poll: Poll, fuel: nat) returns (next: Machine)
    requires b.Ready() && c == EmitPoll(b, offset) && c.Ready() && Extends(c.code, code) && Exits(code) && 1 <= fuel
    ensures next == Polled(m, b.next, offset, poll) && next == m.(env := next.env, polls := m.polls + [offset])
    ensures poll(m.polls + [offset]) == STATUS_OK ==> Resume(code, b, m, poll, fuel) == Resume(code, c, next, poll, fuel - 1)
    ensures poll(m.polls + [offset]) != STATUS_OK ==>
              Stopped(Resume(code, b, m, poll, fuel), m, m.polls + [offset], poll(m.polls + [offset]))
  {
    next := Polled(m, b.next, offset, poll);
    PollRuns(code, b, offset, m, poll, fuel);
  }

  lemma PollThenOperation(code: seq<Block>, b: Builder, c: Builder, out: Emitted, regs: Registers, instruction: Instruction,
                          offset: Usize, temps: map<nat, Value>, m: Machine, poll: Poll, fuel: nat) returns (m': Machine)
    requires ExitsOpen(b) && c == EmitPoll(b, offset) && c.Ready() && EmitOperation(c, regs, instruction) == Ok(out)
    requires Extends(out.builder.code, code) && Exits(code) && 2 <= fuel
    requires Agrees(temps, regs, m.env, b.next) && Clean(m)
    ensures Outcomes(code, b, out, m, m', m.polls + [offset], Compute(instruction, temps), temps, regs, poll, fuel)
  {
    PollKeepsExits(b, offset);
    OperationExtends(c, regs, instruction);
    OperationSize(c, regs, instruction);
    ExtendsTrans(c.code, out.builder.code, code);
    var next := PollLeads(code, b, c, offset, m, poll, fuel);
    PolledGrows(m, b.next, offset, poll);
    AgreesGrows(temps, regs, m.env, next.env, b.next, c.next);
    m' := OperationRuns(code, c, regs, instruction, out, temps, next, poll, fuel - 1);
    Chain(code, b, c, out, m, next, m', m.polls + [offset], Compute(instruction, temps), temps, regs, poll, fuel);
  }

  /** The return: poll, fetch the value, store it. */
  lemma ReturnRuns(s: State, ret: Option<nat>, offset: Usize, temps: map<nat, Value>, m: Machine, poll: Poll, fuel: nat)
    requires ExitsOpen(s.builder) && LowerReturn(s, ret, offset).Ok? && 2 <= fuel
    requires Agrees(temps, s.regs, m.env, s.builder.next) && Clean(m)
    ensures Matches(Resume(LowerReturn(s, ret, offset).value.code, s.builder, m, poll, fuel),
                    Execute([], ret, [offset], 0, temps, m.polls, poll))
  {
    var code := LowerReturn(s, ret, offset).value.code;
    var b := EmitPoll(s.builder, offset);
    PollKeepsExits(s.builder, offset);
    var last := if ret.None? then LoadConst(0, UnitConst) else Move(0, ret.value);
    var out := EmitOperation(b, s.regs, last).value;
    OperationKeepsExits(b, s.regs, last);
    FinalExits(out.builder, out.value);
    var m' := PollThenOperation(code, s.builder, b, out, s.regs, last, offset, temps, m, poll, fuel);
    if poll(m.polls + [offset]) == STATUS_OK {
      ResultRuns(code, out.builder, out.value, Compute(last, temps).v, m', poll, fuel - (|out.builder.code| - |s.builder.code|));
    }
  }

  /** The run stands behind the lowered instruction, with registers agreeing again. */
  ghost predicate Continues(code: seq<Block>, s: State, t: State, m: Machine, m': Machine, asked: seq<Usize>,
                            temps: map<nat, Value>, poll: Poll, fuel: nat)
  {
    && s.builder.current < |s.builder.code| < |t.builder.code| <= |s.builder.code| + fuel
    && t.builder.current < |t.builder.code|
    && Resume(code, s.builder, m, poll, fuel) == Resume(code, t.builder, m', poll, fuel - (|t.builder.code| - |s.builder.code|))
    && m' == m.(env := m'.env, polls := asked)
    && Agrees(temps, t.regs, m'.env, t.builder.next)
  }

  /** One instruction of the final code, from a state to the state its lowering leaves. */
  lemma StepRuns(code: seq<Block>, s: State, t: State, instruction: Instruction, offset: Usize,
                 temps: map<nat, Value>, m: Machine, poll: Poll, fuel: nat) returns (m': Machine)
    requires ExitsOpen(s.builder) && LowerOne(s, instruction, offset) == Ok(t)
    requires Extends(t.builder.code, code) && Exits(code) && |code| + 2 <= |s.builder.code| + fuel
    requires Agrees(temps, s.regs, m.env, s.builder.next) && Clean(m)
    ensures poll(m.polls + [offset]) != STATUS_OK ==>
              Stopped(Resume(code, s.builder, m, poll, fuel), m, m.polls + [offset], poll(m.polls + [offset]))
    ensures !Compute(instruction, temps).IllTyped?
    ensures poll(m.polls + [offset]) == STATUS_OK && Compute(instruction, temps).Overflows? ==>
              Stopped(Resume(code, s.builder, m, poll, fuel), m, m.polls + [offset], STATUS_INTEGER_OVERFLOW)
    ensures poll(m.polls + [offset]) == STATUS_OK && Compute(instruction, temps).Yields? ==>
              Continues(code, s, t, m, m', m.polls + [offset], temps[instruction.dst := Compute(instruction, temps).v], poll, fuel)
  {
    var c := EmitPoll(s.builder, offset);
    PollKeepsExits(s.builder, offset);
    var out := EmitOperation(c, s.regs, instruction).value;
    OperationSize(c, s.regs, instruction);
    m' := PollThenOperation(code, s.builder, c, out, s.regs, instruction, offset, temps, m, poll, fuel);
    if poll(m.polls + [offset]) == STATUS_OK && Compute(instruction, temps).Yields? {
      AgreesWrite(temps, s.regs, m'.env, out.builder.next, instruction.dst, Compute(instruction, temps).v, out.value);
    }
  }

  /** How the MIR run goes on after one poll and one instruction. */
  lemma OutcomeOfStep(code: seq<Instruction>, ret: Option<nat>, offsets: seq<Usize>, at: nat, temps: map<nat, Value>, m: Machine,
                      poll: Poll, final: Final)
    requires |offsets| == |code| + 1 && at < |code| && Clean(m) && !Compute(code[at], temps).IllTyped?
    requires poll(m.polls + [offsets[at]]) != STATUS_OK ==>
               Stopped(final, m, m.polls + [offsets[at]], poll(m.polls + [offsets[at]]))
    requires poll(m.polls + [offsets[at]]) == STATUS_OK && Compute(code[at], temps).Overflows? ==>
               Stopped(final, m, m.polls + [offsets[at]], STATUS_INTEGER_OVERFLOW)
    requires poll(m.polls + [offsets[at]]) == STATUS_OK && Compute(code[at], temps).Yields? ==>
               Matches(final, Execute(code, ret, offsets, at + 1, temps[code[at].dst := Compute(code[at], temps).v],
                                      m.polls + [offsets[at]], poll))
    ensures Matches(final, Execute(code, ret, offsets, at, temps, m.polls, poll))
  {
  }

  /** The lowering from here on ends in the code `final`. */
  ghost predicate LeadsTo(s: State, code: seq<Instruction>, ret: Option<nat>, offsets: seq<Usize>, at: nat, final: seq<Block>)
    requires |offsets| == |code| + 1 && at <= |code|
  {
    && ExitsOpen(s.builder)
    && LowerFrom(s, code, ret, offsets, at).Ok?
    && LowerFrom(s, code, ret, offsets, at).value.code == final
  }

  lemma LeadsOn(s: State, code: seq<Instruction>, ret: Option<nat>, offsets: seq<Usize>, at: nat, final: seq<Block>) returns (t: State)
    requires |offsets| == |code| + 1 && at < |code| && LeadsTo(s, code, ret, offsets, at, final)
    ensures LowerOne(s, code[at], offsets[at]) == Ok(t) && LeadsTo(t, code, ret, offsets, at + 1, final)
    ensures Extends(t.builder.code, final) && Exits(final)
  {
    t := LowerOne(s, code[at], offsets[at]).value;
    LowerOneExtends(s, code[at], offsets[at]);
    FromExtends(t, code, ret, offsets, at + 1);
  }

  /** From every instruction on, the emitted code and the MIR end the same way. */
  lemma {:induction false} Simulates(s: State, code: seq<Instruction>, ret: Option<nat>, offsets: seq<Usize>, at: nat, final: seq<Block>,
                                     temps: map<nat, Value>, m: Machine, poll: Poll, fuel: nat)
    requires |offsets| == |code| + 1 && at <= |code| && LeadsTo(s, code, ret, offsets, at, final)
    requires Agrees(temps, s.regs, m.env, s.builder.next) && Clean(m)
    requires |final| + 2 <= |s.builder.code| + fuel
    ensures Matches(Resume(final, s.builder, m, poll, fuel), Execute(code, ret, offsets, at, temps, m.polls, poll))
    decreases |code| - at, 1
  {
    if at == |code| {
      LastMatches(s, code, ret, offsets, final, temps, m, poll, fuel);
    } else {
      var t := LeadsOn(s, code, ret, offsets, at, final);
      var asked := m.polls + [offsets[at]];
      var m' := StepRuns(final, s, t, code[at], offsets[at], temps, m, poll, fuel);
      if poll(asked) == STATUS_OK && Compute(code[at], temps).Yields? {
        var temps' := temps[code[at].dst := Compute(code[at], temps).v];
        Forward(s, t, code, ret, offsets, at, final, temps', m, m', asked, poll, fuel);
      }
      OutcomeOfStep(code, ret, offsets, at, temps, m, poll, Resume(final, s.builder, m, poll, fuel));
    }
  }

  /** Behind the lowered instruction, the rest of the run ends as the rest of the MIR. */
  lemma {:induction false} Forward(s: State, t: State, code: seq<Instruction>, ret: Option<nat>, offsets: seq<Usize>, at: nat,
                                   final: seq<Block>, temps: map<nat, Value>, m: Machine, m': Machine, asked: seq<Usize>, poll: Poll, fuel: nat)
    requires |offsets| == |code| + 1 && at < |code| && LeadsTo(t, code, ret, offsets, at + 1, final)
    requires Continues(final, s, t, m, m', asked, temps, poll, fuel) && Clean(m)
    requires |final| + 2 <= |s.builder.code| + fuel
    ensures Matches(Resume(final, s.builder, m, poll, fuel), Execute(code, ret, offsets, at + 1, temps, asked, poll))
    decreases |code| - at, 0
  {
    Simulates(t, code, ret, offsets, at + 1, final, temps, m', poll, fuel - (|t.builder.code| - |s.builder.code|));
  }

  lemma LastMatches(s: State, code: seq<Instruction>, ret: Option<nat>, offsets: seq<Usize>, final: seq<Block>,
                    temps: map<nat, Value>, m: Machine, poll: Poll, fuel: nat)
    requires |offsets| == |code| + 1 && LeadsTo(s, code, ret, offsets, |code|, final)
    requires Agrees(temps, s.regs, m.env, s.builder.next) && Clean(m)
    requires |final| + 2 <= |s.builder.code| + fuel
    ensures Matches(Resume(final, s.builder, m, poll, fuel), Execute(code, ret, offsets, |code|, temps, m.polls, poll))
  {
    FromExtends(s, code, ret, offsets, |code|);
    ReturnRuns(s, ret, offsets[|code|], temps, m, poll, fuel);
  }
}
