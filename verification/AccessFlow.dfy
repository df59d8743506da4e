/** The per-instruction transfer and checks of access verification, and its dataflow equations. */
module AccessFlow {
  import opened Wrappers
  import opened AccessFacts

  /** A callee's semantic signature; parameters and result may be untyped. */
  datatype Signature = Signature(arity: nat, params: map<nat, Ty>, result: Option<Ty>)

  datatype Instruction =
    | LoadConst(dst: nat, builtin: nat, index: Option<nat>)
    | Move(dst: nat, src: nat)
    | LoadModule(dst: nat, slot: nat)
    | StoreModule(slot: nat, src: nat)
    | Operate(dst: nat, inputs: seq<nat>)
    | MakeCell(dst: nat, value: nat)
    | ReadCell(dst: nat, cell: nat)
    | WriteCell(cell: nat, value: nat)
    | MakeClosure(dst: nat, target: Signature, captures: seq<nat>)
    | MakeFuture(dst: nat, target: Signature, arguments: seq<nat>, future: Ty)
    | Call(result: Option<nat>, target: Signature, arguments: seq<nat>)
    | Return(returned: Option<nat>)
    | Jump
    | Branch(cond: nat)

  function Inputs(i: Instruction): seq<nat> {
    match i
    case LoadConst(_, _, _) => []
    case Move(_, src) => [src]
    case LoadModule(_, _) => []
    case StoreModule(_, src) => [src]
    case Operate(_, inputs) => inputs
    case MakeCell(_, value) => [value]
    case ReadCell(_, cell) => [cell]
    case WriteCell(cell, value) => [cell, value]
    case MakeClosure(_, _, captures) => captures
    case MakeFuture(_, _, arguments, _) => arguments
    case Call(_, _, arguments) => arguments
    case Return(returned) => if returned.Some? then [returned.value] else []
    case Jump => []
    case Branch(cond) => [cond]
  }

  function Output(i: Instruction): Option<nat> {
    match i
    case LoadConst(dst, _, _) => Some(dst)
    case Move(dst, _) => Some(dst)
    case LoadModule(dst, _) => Some(dst)
    case Operate(dst, _) => Some(dst)
    case MakeCell(dst, _) => Some(dst)
    case ReadCell(dst, _) => Some(dst)
    case MakeClosure(dst, _, _) => Some(dst)
    case MakeFuture(dst, _, _, _) => Some(dst)
    case Call(result, _, _) => result
    case _ => None
  }

  /** The bounded size of a type, and the type rules that are established elsewhere. */
  datatype Shape = Shape(nodes: nat, bytes: nat)

  datatype Rules = Rules(
    measure: Ty -> Option<Shape>,
    measureAll: seq<Ty> -> Option<Shape>,
    positionValid: Ty -> bool)

  datatype Subject = Subject(
    rules: Rules,
    count: nat,                 // number of slots
    slots: map<nat, Ty>,        // declared slot types
    params: map<nat, Ty>,       // declared parameter types
    parameterSlots: seq<nat>,
    result: Option<Ty>,
    code: seq<Instruction>)

  datatype Block = Block(
    start: nat,
    end: nat,
    successors: seq<nat>,
    predecessors: seq<nat>,
    reachable: bool,
    initialized: set<nat>)      // slots assigned on every path to the block

  type Registers = seq<Option<Fact>>

  /** The abstract state at a program point: facts, and small constants per slot. */
  datatype Flow = Flow(registers: Registers, constants: seq<Option<nat>>)

  predicate Sized(f: Subject, s: Flow) {
    |s.registers| == f.count && |s.constants| == f.count
  }

  predicate InRange(f: Subject, slots: seq<nat>) {
    forall i | 0 <= i < |slots| :: slots[i] < f.count
  }

  predicate Fits(f: Subject, i: Instruction) {
    InRange(f, Inputs(i)) && (Output(i).Some? ==> Output(i).value < f.count)
  }

  // --------------------------------------------------------------- transfer

  function Get(s: Flow, slot: nat): Option<Fact> {
    if slot < |s.registers| then s.registers[slot] else None
  }

  /** A fresh fact gets its measured size when it is admitted. */
  function Admitted(f: Subject, fact: Fact): Fact {
    if !fact.isNew || fact.ty.None? then fact
    else
      var shape := f.rules.measure(fact.ty.value);
      fact.(nodes := if shape.Some? then shape.value.nodes else 0, isNew := false)
  }

  function DeclaredFact(f: Subject, slot: nat): Option<Fact> {
    if slot in f.slots then Some(Admitted(f, Typed(f.slots[slot]))) else None
  }

  predicate HoldsReference(fact: Option<Fact>) {
    fact.Some? && fact.value.HoldsReference()
  }

  /** An argument or capture that outlives the frame: no reference, and it fits the declared parameter. */
  predicate Retainable(s: Flow, slot: nat, index: nat, target: Signature) {
    && !HoldsReference(Get(s, slot))
    && (Get(s, slot).Some? && index in target.params ==> Flows(Get(s, slot).value, target.params[index]))
  }

  /** An argument of an ordinary call. */
  predicate Passable(fact: Fact, index: nat, target: Signature) {
    if index in target.params then Flows(fact, target.params[index])
    else fact.access != Some(ReadOnly) && !fact.HoldsReference()
  }

  predicate AllKnown(s: Flow, slots: seq<nat>) {
    forall i | 0 <= i < |slots| :: Get(s, slots[i]).Some?
  }

  /** The instruction's own access rule. */
  predicate Checked(f: Subject, i: Instruction, s: Flow) {
    match i
    case StoreModule(_, src) => !HoldsReference(Get(s, src))
    case MakeCell(_, value) => !HoldsReference(Get(s, value))
    case WriteCell(cell, value) =>
      && !HoldsReference(Get(s, value))
      && (Get(s, cell).Some? && Get(s, value).Some? && Get(s, cell).value.ty.Some? ==>
            Flows(Get(s, value).value, Get(s, cell).value.ty.value))
    case MakeClosure(_, target, captures) => forall k | 0 <= k < |captures| :: Retainable(s, captures[k], k, target)
    case MakeFuture(_, target, arguments, _) => forall k | 0 <= k < |arguments| :: Retainable(s, arguments[k], k, target)
    case Call(_, target, arguments) =>
      AllKnown(s, arguments) ==>
        forall k | 0 <= k < |arguments| :: Passable(Get(s, arguments[k]).value, k, target)
    case Return(Some(value)) =>
      && !HoldsReference(Get(s, value))
      && (Get(s, value).Some? && f.result.Some? ==> Flows(Get(s, value).value, f.result.value))
    case _ => true
  }

  function FromResult(result: Option<Ty>): Fact {
    if result.Some? then Typed(result.value) else Unknown
  }

  /** The callable type of a closure over the first `captured` parameters, if all of it is declared. */
  function ClosureFact(target: Signature, captured: nat): Fact {
    if target.result.Some? && forall k | captured <= k < target.arity :: k in target.params then
      Typed(Function(if captured <= target.arity
                     then seq(target.arity - captured, k requires 0 <= k < target.arity - captured => target.params[captured + k])
                     else [],
                     target.result.value))
    else Unknown
  }

  /** The fact an instruction leaves in its output, before admission and declared-slot coercion. */
  function Produced(f: Subject, i: Instruction, s: Flow): Option<Fact> {
    match i
    case LoadConst(_, builtin, _) => Some(Typed(Builtin(builtin)))
    case Move(_, src) => Get(s, src)
    case LoadModule(_, _) => Some(Unknown)
    case Operate(_, _) => Some(Unknown)
    case MakeCell(_, value) => if Checked(f, i, s) then Get(s, value) else None
    case ReadCell(_, cell) => Get(s, cell)
    case MakeClosure(_, target, captures) => if Checked(f, i, s) then Some(ClosureFact(target, |captures|)) else None
    case MakeFuture(_, _, _, future) => if Checked(f, i, s) then Some(Typed(future)) else None
    case Call(_, target, arguments) =>
      if AllKnown(s, arguments) && Checked(f, i, s) then Some(FromResult(target.result)) else None
    case _ => None
  }

  function Constant(i: Instruction, s: Flow): Option<nat> {
    match i
    case LoadConst(_, _, index) => index
    case Move(_, src) => if src < |s.constants| then s.constants[src] else None
    case _ => None
  }

  /** What finally stands in the output slot. */
  function OutputFact(f: Subject, i: Instruction, s: Flow, dst: nat): Fact {
    var produced := Produced(f, i, s);
    if produced.None? then Unknown
    else if dst in f.slots then DeclaredFact(f, dst).value
    else Admitted(f, produced.value)
  }

  function Transfer(f: Subject, i: Instruction, s: Flow): (t: Flow)
    requires Sized(f, s) && Fits(f, i)
    ensures Sized(f, t)
  {
    var output := Output(i);
    if output.None? then s
    else Flow(s.registers[output.value := Some(OutputFact(f, i, s, output.value))],
              s.constants[output.value := Constant(i, s)])
  }

  /** What validation demands of one instruction. */
  predicate Accepts(f: Subject, i: Instruction, s: Flow) {
    && (forall k | 0 <= k < |Inputs(i)| :: Get(s, Inputs(i)[k]).Some? ==> !Get(s, Inputs(i)[k]).value.conflict)
    && Checked(f, i, s)
    && (Output(i).Some? && Output(i).value in f.slots && Produced(f, i, s).Some? ==>
          Flows(Admitted(f, Produced(f, i, s).value), f.slots[Output(i).value]))
  }

  // ------------------------------------------------------ dataflow equations

  predicate WellFormed(f: Subject, blocks: seq<Block>) {
    && (forall pc | 0 <= pc < |f.code| :: Fits(f, f.code[pc]))
    && InRange(f, f.parameterSlots)
    && blocks != []
    && (forall b | 0 <= b < |blocks| :: blocks[b].start < blocks[b].end <= |f.code|)
    && (forall b, k | 0 <= b < |blocks| && 0 <= k < |blocks[b].predecessors| :: blocks[b].predecessors[k] < |blocks|)
  }

  /** The state after the instructions `from..to` of the code. */
  function TransferRange(f: Subject, s: Flow, from: nat, to: nat): (t: Flow)
    requires Sized(f, s) && from <= to <= |f.code| && forall pc | 0 <= pc < |f.code| :: Fits(f, f.code[pc])
    ensures Sized(f, t)
  {
    if from == to then s else Transfer(f, f.code[to - 1], TransferRange(f, s, from, to - 1))
  }

  function EntryFact(f: Subject, index: nat): Fact {
    if index in f.params then Admitted(f, Typed(f.params[index])) else Unknown
  }

  /** Parameters are initialized on entry, in order. */
  function EntryRegisters(f: Subject, n: nat): (r: Registers)
    requires n <= |f.parameterSlots| && InRange(f, f.parameterSlots)
    ensures |r| == f.count
  {
    if n == 0 then seq(f.count, _ => None)
    else EntryRegisters(f, n - 1)[f.parameterSlots[n - 1] := Some(EntryFact(f, n - 1))]
  }

  function Entry(f: Subject): (s: Flow)
    requires InRange(f, f.parameterSlots)
    ensures Sized(f, s)
  {
    Flow(EntryRegisters(f, |f.parameterSlots|), seq(f.count, _ => None))
  }

  function JoinFlows(f: Subject, a: Flow, b: Flow): (c: Flow)
    requires Sized(f, a) && Sized(f, b)
    ensures Sized(f, c)
  {
    Flow(seq(f.count, k requires 0 <= k < f.count => Join(a.registers[k], b.registers[k], DeclaredFact(f, k))),
         seq(f.count, k requires 0 <= k < f.count => if a.constants[k] != b.constants[k] then None else a.constants[k]))
  }

  predicate AllSized(f: Subject, outputs: seq<Flow>) {
    forall b | 0 <= b < |outputs| :: Sized(f, outputs[b])
  }

  /** The external entry edge and the first `k` predecessors, skipping blocks not computed yet. */
  function IncomingUpTo(f: Subject, blocks: seq<Block>, outputs: seq<Flow>, computed: seq<bool>, b: nat, k: nat): (s: Option<Flow>)
    requires WellFormed(f, blocks) && |outputs| == |computed| == |blocks| && AllSized(f, outputs)
    requires b < |blocks| && k <= |blocks[b].predecessors|
    ensures s.Some? ==> Sized(f, s.value)
  {
    if k == 0 then if b == 0 then Some(Entry(f)) else None
    else
      var s := IncomingUpTo(f, blocks, outputs, computed, b, k - 1);
      var p := blocks[b].predecessors[k - 1];
      if !blocks[p].reachable || !computed[p] then s
      else if s.None? then Some(outputs[p])
      else Some(JoinFlows(f, s.value, outputs[p]))
  }

  function Incoming(f: Subject, blocks: seq<Block>, outputs: seq<Flow>, computed: seq<bool>, b: nat): (s: Option<Flow>)
    requires WellFormed(f, blocks) && |outputs| == |computed| == |blocks| && AllSized(f, outputs) && b < |blocks|
    ensures s.Some? ==> Sized(f, s.value)
  {
    IncomingUpTo(f, blocks, outputs, computed, b, |blocks[b].predecessors|)
  }

  /** The state before instruction `pc` of block `b`, given the block's incoming state. */
  function At(f: Subject, blocks: seq<Block>, b: nat, s: Flow, pc: nat): (t: Flow)
    requires WellFormed(f, blocks) && b < |blocks| && Sized(f, s) && blocks[b].start <= pc <= blocks[b].end
    ensures Sized(f, t)
  {
    TransferRange(f, s, blocks[b].start, pc)
  }
}
