/** The bounded fixpoint loop of access verification and what an accepted run of it establishes. */
module AccessVerifier {
  import opened Wrappers
  import opened AccessFacts
  import opened AccessFlow
  import opened AccessSoundness
  import opened AccessCarried

  const MAX_WORK: nat := 100_000_000
  const MAX_BYTES: nat := 64 * 1024 * 1024

  datatype Error = WorkLimit | ShapeLimit | StateLimit | Invalid

  /** A limit is only reported when it is exceeded, or a type has no bounded shape. */
  ghost predicate Explained(rules: Rules, error: Option<Error>, work: nat, bytes: nat) {
    match error
    case Some(WorkLimit) => work > MAX_WORK
    case Some(StateLimit) =>
      || bytes > MAX_BYTES
      || (exists ty :: rules.measure(ty).Some? && bytes + rules.measure(ty).value.bytes > MAX_BYTES)
      || (exists types :: rules.measureAll(types).Some? && bytes + rules.measureAll(types).value.bytes > MAX_BYTES)
    case Some(ShapeLimit) => (exists ty :: rules.measure(ty).None?) || (exists types :: rules.measureAll(types).None?)
    case _ => true
  }

  class TypeBudget {
    var work: nat
    var bytes: nat

    constructor (work: nat, bytes: nat)
      ensures this.work == work && this.bytes == bytes
    {
      this.work, this.bytes := work, bytes;
    }

    method Work(nodes: nat) returns (error: Option<Error>)
      modifies this
      ensures work == old(work) + nodes && bytes == old(bytes)
      ensures error == if work > MAX_WORK then Some(WorkLimit) else None
    {
      work := work + nodes;
      error := if work > MAX_WORK then Some(WorkLimit) else None;
    }

    method Space(more: nat) returns (error: Option<Error>)
      ensures error == if bytes + more > MAX_BYTES then Some(StateLimit) else None
    {
      error := if bytes + more > MAX_BYTES then Some(StateLimit) else None;
    }

    method Preflight(rules: Rules, children: seq<Ty>) returns (error: Option<Error>)
      modifies this
      ensures old(work) <= work && bytes == old(bytes) && error != Some(Invalid)
      ensures error.None? ==> work <= MAX_WORK && work == old(work) + ShapeNodes(rules.measureAll(children))
      ensures Explained(rules, error, work, bytes)
    {
      var shape := rules.measureAll(children);
      if shape.None? {
        return Some(ShapeLimit);
      }
      error := Work(shape.value.nodes);
      if error.None? {
        error := Space(shape.value.bytes);
      }
    }

    /** Charges a new fact once and records its size. */
    method Admit(f: Subject, fact: Fact) returns (error: Option<Error>, admitted: Fact)
      modifies this
      ensures old(work) <= work
      ensures error.None? ==> admitted == Admitted(f, fact) && (work == old(work) || work <= MAX_WORK)
      ensures error.None? ==> work == old(work) + NewNodes(f, fact)
      ensures error == Some(Invalid) ==> fact.isNew && fact.ty.Some? && !f.rules.positionValid(fact.ty.value)
      ensures Explained(f.rules, error, work, bytes)
    {
      admitted := fact;
      if !fact.isNew || fact.ty.None? {
        return None, fact;
      }
      var shape := f.rules.measure(fact.ty.value);
      if shape.None? {
        return Some(ShapeLimit), fact;
      }
      error := Work(shape.value.nodes);
      if error.Some? {
        return;
      }
      error := Space(shape.value.bytes);
      if error.Some? {
        return;
      }
      if !f.rules.positionValid(fact.ty.value) {
        return Some(Invalid), fact;
      }
      bytes := bytes + shape.value.bytes;
      admitted := fact.(nodes := shape.value.nodes, isNew := false);
    }
  }

  function ShapeNodes(shape: Option<Shape>): nat {
    if shape.Some? then shape.value.nodes else 0
  }

  /** What admitting a fact charges: its size, once. */
  function NewNodes(f: Subject, fact: Fact): nat {
    if fact.isNew && fact.ty.Some? then ShapeNodes(f.rules.measure(fact.ty.value)) else 0
  }

  // --------------------------------------------------------- one instruction

  /** What an instruction charges: its inputs, the parts of a closure type, and a new type it introduces. */
  function StepWork(f: Subject, i: Instruction, s: Flow): nat {
    InputWork(s, Inputs(i))
    + (if i.MakeClosure? then ShapeNodes(f.rules.measureAll(ClosureParts(i.target, |i.captures|, |i.captures|))) else 0)
    + (if Produced(f, i, s).Some? then NewNodes(f, Produced(f, i, s).value) else 0)
  }

  function InputWork(s: Flow, slots: seq<nat>): nat {
    if slots == [] then 0
    else (match Get(s, slots[0]) case None => 1 case Some(fact) => fact.nodes + 1) + InputWork(s, slots[1..])
  }

  /** The declared types a closure's callable type is built from. */
  function ClosureParts(target: Signature, captured: nat, k: nat): seq<Ty>
    requires captured <= k
    decreases if k < target.arity then target.arity - k else 0
  {
    if k < target.arity then
      (if k in target.params then [target.params[k]] else []) + ClosureParts(target, captured, k + 1)
    else if target.result.Some? then [target.result.value] else []
  }

  predicate HasConflict(i: Instruction, s: Flow) {
    exists k | 0 <= k < |Inputs(i)| :: Get(s, Inputs(i)[k]).Some? && Get(s, Inputs(i)[k]).value.conflict
  }

  /** The instruction introduces a type in a position the type rules forbid. */
  predicate Misplaced(f: Subject, i: Instruction, s: Flow) {
    var produced := Produced(f, i, s);
    produced.Some? && produced.value.isNew && produced.value.ty.Some? && !f.rules.positionValid(produced.value.ty.value)
  }

  method Step(f: Subject, i: Instruction, s: Flow, validate: bool, budget: TypeBudget) returns (error: Option<Error>, t: Flow)
    requires Sized(f, s) && Fits(f, i)
    modifies budget
    ensures old(budget.work) <= budget.work && (error.None? ==> budget.work <= MAX_WORK)
    ensures error.None? ==> t == Transfer(f, i, s) && (validate ==> Accepts(f, i, s))
    ensures error.None? ==> budget.work == old(budget.work) + StepWork(f, i, s)
    ensures error == Some(Invalid) ==> Misplaced(f, i, s) || (validate && !Accepts(f, i, s))
    ensures Explained(f.rules, error, budget.work, budget.bytes)
  {
    t := s;
    if validate && HasConflict(i, s) {
      return Some(Invalid), s;
    }
    error := budget.Work(InputWork(s, Inputs(i)));
    if error.Some? {
      return;
    }
    if i.MakeClosure? {
      error := budget.Preflight(f.rules, ClosureParts(i.target, |i.captures|, |i.captures|));
      if error.Some? {
        return;
      }
    }
    var produced, output := Produced(f, i, s), Output(i);
    var admitted := Unknown;
    if output.None? && produced.Some? {
      error, admitted := budget.Admit(f, produced.value);
      if error.Some? {
        return;
      }
    }
    if validate && !Checked(f, i, s) {
      return Some(Invalid), s;
    }
    if output.None? {
      return None, s;
    }
    error, t := Deposit(f, i, s, output.value, validate, budget);
  }

  /** Writes the output slot: unknown, unless the instruction produced a fact; a declared slot keeps its declared fact. */
  method Deposit(f: Subject, i: Instruction, s: Flow, dst: nat, validate: bool, budget: TypeBudget) returns (error: Option<Error>, t: Flow)
    requires Sized(f, s) && Fits(f, i) && Output(i) == Some(dst) && budget.work <= MAX_WORK
    modifies budget
    ensures old(budget.work) <= budget.work && (error.None? ==> budget.work <= MAX_WORK)
    ensures error.None? ==> t == Transfer(f, i, s)
    ensures error.None? && validate && dst in f.slots && Produced(f, i, s).Some? ==>
              Flows(Admitted(f, Produced(f, i, s).value), f.slots[dst])
    ensures error.None? ==>
              budget.work == old(budget.work) + (if Produced(f, i, s).Some? then NewNodes(f, Produced(f, i, s).value) else 0)
    ensures error == Some(Invalid) ==> Misplaced(f, i, s) || (validate && !Accepts(f, i, s))
    ensures Explained(f.rules, error, budget.work, budget.bytes)
  {
    var produced := Produced(f, i, s);
    t := Flow(s.registers[dst := Some(Unknown)], s.constants[dst := Constant(i, s)]);
    if produced.Some? {
      var admitted;
      error, admitted := budget.Admit(f, produced.value);
      if error.Some? {
        return;
      }
      if dst in f.slots {
        if validate && !Flows(admitted, f.slots[dst]) {
          return Some(Invalid), s;
        }
        admitted := DeclaredFact(f, dst).value;
      }
      t := t.(registers := t.registers[dst := Some(admitted)]);
    }
    error := None;
  }

  // --------------------------------------------------------------- one block

  /** Joins the facts of one predecessor into the incoming state, slot by slot. */
  method Merge(f: Subject, incoming: Flow, other: Flow) returns (merged: Flow)
    requires Sized(f, incoming) && Sized(f, other)
    ensures merged == JoinFlows(f, incoming, other)
  {
    var registers, constants := incoming.registers, incoming.constants;
    for slot := 0 to f.count
      invariant |registers| == |constants| == f.count
      invariant forall k | 0 <= k < slot :: registers[k] == Join(incoming.registers[k], other.registers[k], DeclaredFact(f, k))
      invariant forall k | 0 <= k < slot :: constants[k] == if incoming.constants[k] != other.constants[k] then None else incoming.constants[k]
      invariant forall k | slot <= k < f.count :: registers[k] == incoming.registers[k] && constants[k] == incoming.constants[k]
    {
      registers := registers[slot := Join(registers[slot], other.registers[slot], DeclaredFact(f, slot))];
      if constants[slot] != other.constants[slot] {
        constants := constants[slot := None];
      }
    }
    merged := Flow(registers, constants);
    assert registers == JoinFlows(f, incoming, other).registers;
    assert constants == JoinFlows(f, incoming, other).constants;
  }

  /** The stored tables have one well-sized entry per block. */
  predicate Tables(f: Subject, blocks: seq<Block>, outputs: seq<Flow>, computed: seq<bool>) {
    WellFormed(f, blocks) && |outputs| == |computed| == |blocks| && AllSized(f, outputs)
  }

  method Gather(f: Subject, blocks: seq<Block>, outputs: seq<Flow>, computed: seq<bool>, b: nat) returns (incoming: Option<Flow>)
    requires Tables(f, blocks, outputs, computed) && b < |blocks|
    ensures incoming == Incoming(f, blocks, outputs, computed, b)
  {
    incoming := if b == 0 then Some(Entry(f)) else None;
    for k := 0 to |blocks[b].predecessors|
      invariant incoming == IncomingUpTo(f, blocks, outputs, computed, b, k)
    {
      var p := blocks[b].predecessors[k];
      if blocks[p].reachable && computed[p] {
        if incoming.Some? {
          var merged := Merge(f, incoming.value, outputs[p]);
          incoming := Some(merged);
        } else {
          incoming := Some(outputs[p]);
        }
      }
    }
  }

  /** Some instruction of the block introduces a misplaced type. */
  ghost predicate BlockMisplaced(f: Subject, blocks: seq<Block>, b: nat, incoming: Flow)
    requires WellFormed(f, blocks) && b < |blocks| && Sized(f, incoming)
  {
    exists pc {:trigger MisplacedPoint(f, blocks, b, incoming, pc)} | blocks[b].start <= pc < blocks[b].end ::
      MisplacedPoint(f, blocks, b, incoming, pc)
  }

  ghost predicate MisplacedPoint(f: Subject, blocks: seq<Block>, b: nat, incoming: Flow, pc: nat)
    requires WellFormed(f, blocks) && b < |blocks| && Sized(f, incoming) && blocks[b].start <= pc < blocks[b].end
  {
    Misplaced(f, f.code[pc], At(f, blocks, b, incoming, pc))
  }

  lemma OneMoreAccepted(f: Subject, blocks: seq<Block>, b: nat, incoming: Flow, pc: nat)
    requires WellFormed(f, blocks) && b < |blocks| && Sized(f, incoming) && blocks[b].start <= pc < blocks[b].end
    requires AcceptedUpTo(f, blocks, b, incoming, pc) && AcceptedPoint(f, blocks, b, incoming, pc)
    ensures AcceptedUpTo(f, blocks, b, incoming, pc + 1)
  {
  }

  /** What the block's instructions before `to` charge. */
  function RangeWork(f: Subject, blocks: seq<Block>, b: nat, incoming: Flow, to: nat): nat
    requires WellFormed(f, blocks) && b < |blocks| && Sized(f, incoming) && blocks[b].start <= to <= blocks[b].end
  {
    if to == blocks[b].start then 0
    else RangeWork(f, blocks, b, incoming, to - 1) + StepWork(f, f.code[to - 1], At(f, blocks, b, incoming, to - 1))
  }

  lemma WorkNext(f: Subject, blocks: seq<Block>, b: nat, incoming: Flow, pc: nat)
    requires WellFormed(f, blocks) && b < |blocks| && Sized(f, incoming) && blocks[b].start <= pc < blocks[b].end
    ensures RangeWork(f, blocks, b, incoming, pc + 1)
         == RangeWork(f, blocks, b, incoming, pc) + StepWork(f, f.code[pc], At(f, blocks, b, incoming, pc))
  {
  }

  /** An instruction that introduces a misplaced type, or is not accepted, refuses its block. */
  lemma RefusedPoint(f: Subject, blocks: seq<Block>, b: nat, incoming: Flow, pc: nat)
    requires WellFormed(f, blocks) && b < |blocks| && Sized(f, incoming) && blocks[b].start <= pc < blocks[b].end
    ensures Misplaced(f, f.code[pc], At(f, blocks, b, incoming, pc)) ==> BlockMisplaced(f, blocks, b, incoming)
    ensures !Accepts(f, f.code[pc], At(f, blocks, b, incoming, pc)) ==> !BlockAccepted(f, blocks, b, incoming)
  {
    assert MisplacedPoint(f, blocks, b, incoming, pc) == Misplaced(f, f.code[pc], At(f, blocks, b, incoming, pc));
    assert AcceptedPoint(f, blocks, b, incoming, pc) == Accepts(f, f.code[pc], At(f, blocks, b, incoming, pc));
  }

  method RunBlock(f: Subject, blocks: seq<Block>, b: nat, incoming: Flow, validate: bool, budget: TypeBudget)
    returns (error: Option<Error>, out: Flow)
    requires WellFormed(f, blocks) && b < |blocks| && Sized(f, incoming)
    modifies budget
    ensures old(budget.work) <= budget.work && (error.None? ==> budget.work <= MAX_WORK)
    ensures error.None? ==> out == At(f, blocks, b, incoming, blocks[b].end)
    ensures error.None? && validate ==> BlockAccepted(f, blocks, b, incoming)
    ensures error == Some(Invalid) ==> BlockMisplaced(f, blocks, b, incoming) || (validate && !BlockAccepted(f, blocks, b, incoming))
    ensures error.None? ==> budget.work == old(budget.work) + RangeWork(f, blocks, b, incoming, blocks[b].end)
    ensures Explained(f.rules, error, budget.work, budget.bytes)
  {
    out := incoming;
    for pc := blocks[b].start to blocks[b].end
      invariant old(budget.work) <= budget.work && (blocks[b].start < pc ==> budget.work <= MAX_WORK)
      invariant out == At(f, blocks, b, incoming, pc)
      invariant budget.work == old(budget.work) + RangeWork(f, blocks, b, incoming, pc)
      invariant validate ==> AcceptedUpTo(f, blocks, b, incoming, pc)
    {
      AtNext(f, blocks, b, incoming, pc);
      WorkNext(f, blocks, b, incoming, pc);
      error, out := Step(f, f.code[pc], out, validate, budget);
      if error.None? && validate {
        OneMoreAccepted(f, blocks, b, incoming, pc);
      }
      if error.Some? {
        RefusedPoint(f, blocks, b, incoming, pc);
        return;
      }
    }
    error := None;
  }

  method Process(f: Subject, blocks: seq<Block>, outputs: seq<Flow>, computed: seq<bool>, b: nat, validate: bool, budget: TypeBudget)
    returns (error: Option<Error>, out: Option<Flow>)
    requires Tables(f, blocks, outputs, computed) && b < |blocks|
    modifies budget
    ensures old(budget.work) < budget.work && (error.None? ==> budget.work <= MAX_WORK)
    ensures error.None? ==> (out.Some? <==> Incoming(f, blocks, outputs, computed, b).Some?)
    ensures error.None? && out.Some? ==>
              out.value == At(f, blocks, b, Incoming(f, blocks, outputs, computed, b).value, blocks[b].end)
    ensures error.None? && out.Some? && validate ==> BlockAccepted(f, blocks, b, Incoming(f, blocks, outputs, computed, b).value)
    ensures error == Some(Invalid) ==>
              && Incoming(f, blocks, outputs, computed, b).Some?
              && var incoming := Incoming(f, blocks, outputs, computed, b).value;
                 BlockMisplaced(f, blocks, b, incoming) || (validate && !BlockAccepted(f, blocks, b, incoming))
    ensures error.None? ==>
              budget.work == old(budget.work) + f.count * (|blocks[b].predecessors| + 2) + (blocks[b].end - blocks[b].start)
                             + (if out.Some? then RangeWork(f, blocks, b, Incoming(f, blocks, outputs, computed, b).value, blocks[b].end) else 0)
    ensures Explained(f.rules, error, budget.work, budget.bytes)
  {
    out := None;
    assert 0 <= f.count * (|blocks[b].predecessors| + 2);
    error := budget.Work(f.count * (|blocks[b].predecessors| + 2) + (blocks[b].end - blocks[b].start));
    if error.Some? {
      return;
    }
    var incoming := Gather(f, blocks, outputs, computed, b);
    if incoming.None? {
      return;
    }
    var result;
    error, result := RunBlock(f, blocks, b, incoming.value, validate, budget);
    if error.None? {
      out := Some(result);
    }
  }

  // ------------------------------------------------------------ the fixpoint

  /** The stored output of the block is the transfer of its joined computed predecessors. */
  ghost predicate Stable(f: Subject, blocks: seq<Block>, outputs: seq<Flow>, computed: seq<bool>, b: nat)
    requires Tables(f, blocks, outputs, computed) && b < |blocks|
  {
    var incoming := Incoming(f, blocks, outputs, computed, b);
    incoming.Some? ==> computed[b] && outputs[b] == At(f, blocks, b, incoming.value, blocks[b].end)
  }

  ghost predicate AllStable(f: Subject, blocks: seq<Block>, outputs: seq<Flow>, computed: seq<bool>)
    requires Tables(f, blocks, outputs, computed)
  {
    StableUpTo(f, blocks, outputs, computed, |blocks|)
  }

  /** A computed block has facts for every slot it certainly assigned. */
  ghost predicate OutKnown(f: Subject, blocks: seq<Block>, outputs: seq<Flow>, computed: seq<bool>, b: nat)
    requires Tables(f, blocks, outputs, computed) && b < |blocks|
  {
    blocks[b].reachable && computed[b] ==> Knows(outputs[b], InitializedAt(f, blocks, b, blocks[b].end))
  }

  ghost predicate AllOutKnown(f: Subject, blocks: seq<Block>, outputs: seq<Flow>, computed: seq<bool>)
    requires Tables(f, blocks, outputs, computed)
  {
    forall b {:trigger OutKnown(f, blocks, outputs, computed, b)} | 0 <= b < |blocks| :: OutKnown(f, blocks, outputs, computed, b)
  }

  lemma JoinKnows(f: Subject, a: Flow, b: Flow, slots: set<nat>)
    requires Sized(f, a) && Sized(f, b) && Knows(a, slots) && Knows(b, slots)
    ensures Knows(JoinFlows(f, a, b), slots)
  {
  }

  lemma {:induction false} EntryKnows(f: Subject, n: nat, i: nat)
    requires n <= |f.parameterSlots| && InRange(f, f.parameterSlots) && i < n
    ensures EntryRegisters(f, n)[f.parameterSlots[i]].Some?
  {
    if i < n - 1 {
      EntryKnows(f, n - 1, i);
    }
  }

  lemma EntryKnowsParameters(f: Subject, slots: set<nat>)
    requires InRange(f, f.parameterSlots) && forall slot | slot in slots :: slot in f.parameterSlots
    ensures Knows(Entry(f), slots)
  {
    forall slot | slot in slots ensures Get(Entry(f), slot).Some? {
      var i :| 0 <= i < |f.parameterSlots| && f.parameterSlots[i] == slot;
      EntryKnows(f, |f.parameterSlots|, i);
    }
  }

  /** Joining computed predecessors never forgets a slot that is assigned on every path. */
  lemma {:induction false} IncomingKnows(f: Subject, blocks: seq<Block>, outputs: seq<Flow>, computed: seq<bool>, b: nat, k: nat)
    requires Tables(f, blocks, outputs, computed) && FlowChecked(f, blocks) && AllOutKnown(f, blocks, outputs, computed)
    requires b < |blocks| && blocks[b].reachable && k <= |blocks[b].predecessors|
    ensures var s := IncomingUpTo(f, blocks, outputs, computed, b, k); s.Some? ==> Knows(s.value, blocks[b].initialized)
  {
    if k == 0 {
      if b == 0 {
        EntryKnowsParameters(f, blocks[0].initialized);
      }
    } else {
      IncomingKnows(f, blocks, outputs, computed, b, k - 1);
      var p := blocks[b].predecessors[k - 1];
      if blocks[p].reachable && computed[p] {
        assert EdgesChecked(f, blocks, b);
        assert OutKnown(f, blocks, outputs, computed, p);
        assert Knows(outputs[p], blocks[b].initialized);
        var s := IncomingUpTo(f, blocks, outputs, computed, b, k - 1);
        if s.Some? {
          JoinKnows(f, s.value, outputs[p], blocks[b].initialized);
        }
      }
    }
  }

  /** Storing a block's transfer keeps the tables well formed and initialized slots known. */
  lemma StoreKeepsKnown(f: Subject, blocks: seq<Block>, outputs: seq<Flow>, computed: seq<bool>, b: nat, out: Flow)
    requires Tables(f, blocks, outputs, computed) && FlowChecked(f, blocks) && AllOutKnown(f, blocks, outputs, computed)
    requires b < |blocks| && blocks[b].reachable && Incoming(f, blocks, outputs, computed, b).Some?
    requires out == At(f, blocks, b, Incoming(f, blocks, outputs, computed, b).value, blocks[b].end)
    ensures Tables(f, blocks, outputs[b := out], computed[b := true])
    ensures AllOutKnown(f, blocks, outputs[b := out], computed[b := true])
  {
    IncomingKnows(f, blocks, outputs, computed, b, |blocks[b].predecessors|);
    KnownAt(f, blocks, b, Incoming(f, blocks, outputs, computed, b).value, blocks[b].end);
    var outputs', computed' := outputs[b := out], computed[b := true];
    forall k | 0 <= k < |blocks| ensures OutKnown(f, blocks, outputs', computed', k) {
      assert OutKnown(f, blocks, outputs, computed, k);
    }
  }

  /** Validation accepts the block as the tables stand. */
  ghost predicate PassedBlock(f: Subject, blocks: seq<Block>, outputs: seq<Flow>, computed: seq<bool>, b: nat)
    requires Tables(f, blocks, outputs, computed) && b < |blocks|
  {
    Incoming(f, blocks, outputs, computed, b).Some? ==>
      BlockAccepted(f, blocks, b, Incoming(f, blocks, outputs, computed, b).value)
  }

  ghost predicate AllPassed(f: Subject, blocks: seq<Block>, outputs: seq<Flow>, computed: seq<bool>, n: nat)
    requires Tables(f, blocks, outputs, computed) && n <= |blocks|
  {
    forall b {:trigger PassedBlock(f, blocks, outputs, computed, b)} | 0 <= b < n && blocks[b].reachable ::
      PassedBlock(f, blocks, outputs, computed, b)
  }

  ghost predicate RefusedBlock(f: Subject, blocks: seq<Block>, outputs: seq<Flow>, computed: seq<bool>, b: nat)
    requires Tables(f, blocks, outputs, computed) && b < |blocks|
  {
    && blocks[b].reachable && Incoming(f, blocks, outputs, computed, b).Some?
    && var incoming := Incoming(f, blocks, outputs, computed, b).value;
       BlockMisplaced(f, blocks, b, incoming) || !BlockAccepted(f, blocks, b, incoming)
  }

  /** Some reachable block is refused as the tables stand. */
  ghost predicate Refused(f: Subject, blocks: seq<Block>, outputs: seq<Flow>, computed: seq<bool>)
    requires Tables(f, blocks, outputs, computed)
  {
    exists b | 0 <= b < |blocks| :: RefusedBlock(f, blocks, outputs, computed, b)
  }

  /** The first `n` blocks are stable. */
  ghost predicate StableUpTo(f: Subject, blocks: seq<Block>, outputs: seq<Flow>, computed: seq<bool>, n: nat)
    requires Tables(f, blocks, outputs, computed) && n <= |blocks|
  {
    forall b {:trigger Stable(f, blocks, outputs, computed, b)} | 0 <= b < n && blocks[b].reachable ::
      Stable(f, blocks, outputs, computed, b)
  }

  lemma OneMorePassed(f: Subject, blocks: seq<Block>, outputs: seq<Flow>, computed: seq<bool>, n: nat)
    requires Tables(f, blocks, outputs, computed) && n < |blocks| && AllPassed(f, blocks, outputs, computed, n)
    requires blocks[n].reachable ==> PassedBlock(f, blocks, outputs, computed, n)
    ensures AllPassed(f, blocks, outputs, computed, n + 1)
  {
  }

  lemma MisplacedIsInvalid(f: Subject, blocks: seq<Block>, b: nat, incoming: Flow)
    requires WellFormed(f, blocks) && b < |blocks| && Sized(f, incoming) && BlockMisplaced(f, blocks, b, incoming)
    ensures exists ty :: !f.rules.positionValid(ty)
  {
    var pc :| blocks[b].start <= pc < blocks[b].end && MisplacedPoint(f, blocks, b, incoming, pc);
    var ty := Produced(f, f.code[pc], At(f, blocks, b, incoming, pc)).value.ty.value;
    assert !f.rules.positionValid(ty);
  }

  /** One sweep over all blocks. If it changes nothing, the tables are stable. */
  method Sweep(f: Subject, blocks: seq<Block>, before: seq<Flow>, done: seq<bool>, validate: bool, budget: TypeBudget)
    returns (error: Option<Error>, outputs: seq<Flow>, computed: seq<bool>, changed: bool)
    requires Tables(f, blocks, before, done) && FlowChecked(f, blocks) && AllOutKnown(f, blocks, before, done)
    requires validate ==> AllStable(f, blocks, before, done)
    modifies budget
    ensures old(budget.work) < budget.work && (error.None? ==> budget.work <= MAX_WORK)
    ensures error.None? ==> Tables(f, blocks, outputs, computed) && AllOutKnown(f, blocks, outputs, computed)
    ensures error.None? && !changed ==> outputs == before && computed == done && AllStable(f, blocks, before, done)
    ensures error.None? && validate ==> !changed && AllPassed(f, blocks, before, done, |blocks|)
    ensures validate && error == Some(Invalid) ==> Refused(f, blocks, before, done)
    ensures !validate && error == Some(Invalid) ==> exists ty :: !f.rules.positionValid(ty)
    ensures Explained(f.rules, error, budget.work, budget.bytes)
  {
    outputs, computed, changed, error := before, done, false, None;
    for b := 0 to |blocks|
      invariant error.None? && (b == 0 ==> budget.work == old(budget.work))
      invariant 0 < b ==> old(budget.work) < budget.work <= MAX_WORK
      invariant Tables(f, blocks, outputs, computed) && AllOutKnown(f, blocks, outputs, computed)
      invariant !changed ==> outputs == before && computed == done
      invariant !changed ==> StableUpTo(f, blocks, before, done, b)
      invariant validate ==> !changed && AllPassed(f, blocks, before, done, b)
    {
      if blocks[b].reachable {
        var out;
        assert validate ==> Stable(f, blocks, before, done, b);
        error, out := Process(f, blocks, outputs, computed, b, validate, budget);
        if error.Some? {
          assert validate && error == Some(Invalid) ==> RefusedBlock(f, blocks, before, done, b);
          if error == Some(Invalid) && !validate {
            MisplacedIsInvalid(f, blocks, b, Incoming(f, blocks, outputs, computed, b).value);
          }
          return;
        }
        assert validate ==> PassedBlock(f, blocks, before, done, b);
        if out.Some? {
          StoreKeepsKnown(f, blocks, outputs, computed, b, out.value);
          changed := changed || !computed[b] || outputs[b] != out.value;
          outputs, computed := outputs[b := out.value], computed[b := true];
        }
      }
      if validate {
        OneMorePassed(f, blocks, before, done, b);
      }
    }
  }

  // ------------------------------------------------- the solution is complete

  lemma {:induction false} IncomingFromComputed(f: Subject, blocks: seq<Block>, outputs: seq<Flow>, computed: seq<bool>, b: nat, k: nat, from: nat)
    requires Tables(f, blocks, outputs, computed) && b < |blocks| && from < k <= |blocks[b].predecessors|
    requires blocks[blocks[b].predecessors[from]].reachable && computed[blocks[b].predecessors[from]]
    ensures IncomingUpTo(f, blocks, outputs, computed, b, k).Some?
  {
    if from < k - 1 {
      IncomingFromComputed(f, blocks, outputs, computed, b, k - 1, from);
    }
  }

  lemma {:induction false} EntryIncoming(f: Subject, blocks: seq<Block>, outputs: seq<Flow>, computed: seq<bool>, k: nat)
    requires Tables(f, blocks, outputs, computed) && k <= |blocks[0].predecessors|
    ensures IncomingUpTo(f, blocks, outputs, computed, 0, k).Some?
  {
    if 0 < k {
      EntryIncoming(f, blocks, outputs, computed, k - 1);
    }
  }

  /** Along every path from the entry, stable tables have computed every block. */
  lemma {:induction false} PathComputed(f: Subject, blocks: seq<Block>, outputs: seq<Flow>, computed: seq<bool>, path: seq<nat>, b: nat, k: nat)
    requires Tables(f, blocks, outputs, computed) && FlowChecked(f, blocks) && AllStable(f, blocks, outputs, computed)
    requires IsPath(blocks, path, b) && k < |path|
    ensures blocks[path[k]].reachable && computed[path[k]]
    ensures Incoming(f, blocks, outputs, computed, path[k]).Some?
  {
    if k == 0 {
      EntryIncoming(f, blocks, outputs, computed, |blocks[0].predecessors|);
      assert Stable(f, blocks, outputs, computed, 0);
    } else {
      PathComputed(f, blocks, outputs, computed, path, b, k - 1);
      var p, n := path[k - 1], path[k - 1 + 1];
      assert EdgesChecked(f, blocks, p);
      assert n in blocks[p].successors;
      var from :| 0 <= from < |blocks[n].predecessors| && blocks[n].predecessors[from] == p;
      IncomingFromComputed(f, blocks, outputs, computed, n, |blocks[n].predecessors|, from);
      assert Stable(f, blocks, outputs, computed, n);
    }
  }

  lemma ReachableComputed(f: Subject, blocks: seq<Block>, outputs: seq<Flow>, computed: seq<bool>, b: nat)
    requires Tables(f, blocks, outputs, computed) && FlowChecked(f, blocks) && AllStable(f, blocks, outputs, computed)
    requires b < |blocks| && blocks[b].reachable
    ensures computed[b] && Incoming(f, blocks, outputs, computed, b).Some?
  {
    assert Rooted(blocks, b);
    var path :| IsPath(blocks, path, b);
    PathComputed(f, blocks, outputs, computed, path, b, |path| - 1);
  }

  /** Once every reachable block is computed, skipping uncomputed predecessors skips nothing. */
  lemma {:induction false} NothingSkipped(f: Subject, blocks: seq<Block>, outputs: seq<Flow>, computed: seq<bool>, b: nat, k: nat)
    requires Tables(f, blocks, outputs, computed) && b < |blocks| && k <= |blocks[b].predecessors|
    requires forall p | 0 <= p < |blocks| && blocks[p].reachable :: computed[p]
    ensures IncomingUpTo(f, blocks, outputs, computed, b, k) == IncomingUpTo(f, blocks, outputs, AllComputed(|blocks|), b, k)
  {
    if 0 < k {
      NothingSkipped(f, blocks, outputs, computed, b, k - 1);
    }
  }

  /** The stored output is the transfer of all its reachable predecessors, joined. */
  ghost predicate BlockInductive(f: Subject, blocks: seq<Block>, outputs: seq<Flow>, b: nat)
    requires WellFormed(f, blocks) && |outputs| == |blocks| && AllSized(f, outputs) && b < |blocks|
  {
    var incoming := Incoming(f, blocks, outputs, AllComputed(|blocks|), b);
    && incoming.Some?
    && outputs[b] == At(f, blocks, b, incoming.value, blocks[b].end)
    && Knows(incoming.value, blocks[b].initialized)
  }

  ghost predicate Inductive(f: Subject, blocks: seq<Block>, outputs: seq<Flow>)
    requires WellFormed(f, blocks)
  {
    && |outputs| == |blocks| && AllSized(f, outputs)
    && forall b {:trigger BlockInductive(f, blocks, outputs, b)} | 0 <= b < |blocks| && blocks[b].reachable ::
         BlockInductive(f, blocks, outputs, b)
  }

  lemma StableBlockInductive(f: Subject, blocks: seq<Block>, outputs: seq<Flow>, computed: seq<bool>, b: nat)
    requires Tables(f, blocks, outputs, computed) && FlowChecked(f, blocks)
    requires AllStable(f, blocks, outputs, computed) && AllOutKnown(f, blocks, outputs, computed)
    requires b < |blocks| && blocks[b].reachable
    ensures BlockInductive(f, blocks, outputs, b)
    ensures Incoming(f, blocks, outputs, computed, b) == Incoming(f, blocks, outputs, AllComputed(|blocks|), b)
  {
    forall p | 0 <= p < |blocks| && blocks[p].reachable ensures computed[p] {
      ReachableComputed(f, blocks, outputs, computed, p);
    }
    ReachableComputed(f, blocks, outputs, computed, b);
    NothingSkipped(f, blocks, outputs, computed, b, |blocks[b].predecessors|);
    assert Stable(f, blocks, outputs, computed, b);
    IncomingKnows(f, blocks, outputs, computed, b, |blocks[b].predecessors|);
  }

  /** Stable tables are a complete inductive solution, with every reachable block computed. */
  lemma StableIsInductive(f: Subject, blocks: seq<Block>, outputs: seq<Flow>, computed: seq<bool>)
    requires Tables(f, blocks, outputs, computed) && FlowChecked(f, blocks)
    requires AllStable(f, blocks, outputs, computed) && AllOutKnown(f, blocks, outputs, computed)
    ensures Inductive(f, blocks, outputs)
  {
    forall b | 0 <= b < |blocks| && blocks[b].reachable ensures BlockInductive(f, blocks, outputs, b) {
      StableBlockInductive(f, blocks, outputs, computed, b);
    }
  }

  lemma PassedIsCertified(f: Subject, blocks: seq<Block>, outputs: seq<Flow>, computed: seq<bool>)
    requires Tables(f, blocks, outputs, computed) && FlowChecked(f, blocks)
    requires AllStable(f, blocks, outputs, computed) && AllOutKnown(f, blocks, outputs, computed)
    requires AllPassed(f, blocks, outputs, computed, |blocks|)
    ensures Certified(f, blocks, outputs)
  {
    forall b | 0 <= b < |blocks| && blocks[b].reachable ensures BlockCertified(f, blocks, outputs, b) {
      StableBlockInductive(f, blocks, outputs, computed, b);
      assert PassedBlock(f, blocks, outputs, computed, b);
    }
  }

  /** A refused fixpoint: some reachable block is not accepted, or introduces a misplaced type. */
  ghost predicate RefusedSolution(f: Subject, blocks: seq<Block>, outputs: seq<Flow>)
    requires WellFormed(f, blocks) && |outputs| == |blocks| && AllSized(f, outputs)
  {
    Refused(f, blocks, outputs, AllComputed(|blocks|))
  }

  lemma RefusedIsRefusedSolution(f: Subject, blocks: seq<Block>, outputs: seq<Flow>, computed: seq<bool>)
    requires Tables(f, blocks, outputs, computed) && FlowChecked(f, blocks)
    requires AllStable(f, blocks, outputs, computed) && AllOutKnown(f, blocks, outputs, computed)
    requires Refused(f, blocks, outputs, computed)
    ensures RefusedSolution(f, blocks, outputs)
  {
    var b :| 0 <= b < |blocks| && RefusedBlock(f, blocks, outputs, computed, b);
    StableBlockInductive(f, blocks, outputs, computed, b);
    assert RefusedBlock(f, blocks, outputs, AllComputed(|blocks|), b);
  }

  // ------------------------------------------------------------ verification

  /** A type is declared for a parameter or slot that does not exist. */
  predicate Misdeclared(f: Subject) {
    (exists i | i in f.params.Keys :: i >= |f.parameterSlots|) || (exists i | i in f.slots.Keys :: i >= f.count)
  }

  /** Admits the declared types and the entry facts. */
  method AdmitDeclarations(f: Subject, budget: TypeBudget) returns (error: Option<Error>)
    modifies budget
    ensures old(budget.work) <= budget.work
    ensures error == Some(Invalid) ==> Misdeclared(f) || exists ty :: !f.rules.positionValid(ty)
    ensures error.None? ==> !Misdeclared(f)
    ensures Explained(f.rules, error, budget.work, budget.bytes)
  {
    if Misdeclared(f) {
      return Some(Invalid);
    }
    error := budget.Space(0);
    if error.Some? {
      return;
    }
    var slot := 0;
    while slot < f.count
      invariant old(budget.work) <= budget.work
    {
      if slot in f.slots {
        var admitted;
        error, admitted := budget.Admit(f, Typed(f.slots[slot]));
        if error.Some? {
          return;
        }
      }
      slot := slot + 1;
    }
    for index := 0 to |f.parameterSlots|
      invariant old(budget.work) <= budget.work
    {
      if index in f.params {
        var admitted;
        error, admitted := budget.Admit(f, Typed(f.params[index]));
        if error.Some? {
          return;
        }
      }
    }
    error := None;
  }

  /**
   * Sweeps until nothing changes, then validates once. Always ends: every sweep charges work against
   * the fixed budget. Acceptance certifies the solution, and hence every run; a refusal by validation
   * names a block that this very solution does not satisfy, and every other refusal has its reason.
   */
  method Verify(f: Subject, blocks: seq<Block>, budget: TypeBudget)
    returns (error: Option<Error>, ghost solution: seq<Flow>, ghost solved: bool)
    requires WellFormed(f, blocks) && FlowChecked(f, blocks)
    modifies budget
    ensures solved ==> Inductive(f, blocks, solution)
    ensures error.None? ==> solved && Certified(f, blocks, solution)
    ensures error.None? ==> forall run | IsRun(f, blocks, run) :: forall k | 0 <= k < |run| :: SafeNow(f, blocks, run[k])
    ensures error.None? ==> RunsRespectTypes(f, blocks, solution)
    ensures solved && error == Some(Invalid) ==> RefusedSolution(f, blocks, solution)
    ensures !solved && error == Some(Invalid) ==> Misdeclared(f) || exists ty :: !f.rules.positionValid(ty)
    ensures Explained(f.rules, error, budget.work, budget.bytes)
  {
    solution, solved := [], false;
    error := AdmitDeclarations(f, budget);
    if error.Some? {
      return;
    }
    var nothing := Flow(seq(f.count, _ => None), seq(f.count, _ => None));
    var outputs := seq(|blocks|, _ => nothing);
    var computed := seq(|blocks|, _ => false);
    var validate := false;
    while true
      invariant Tables(f, blocks, outputs, computed) && AllOutKnown(f, blocks, outputs, computed)
      invariant validate ==> AllStable(f, blocks, outputs, computed)
      invariant solved == validate && (solved ==> solution == outputs && Inductive(f, blocks, solution))
      decreases MAX_WORK - budget.work
    {
      var next, done, changed;
      error, next, done, changed := Sweep(f, blocks, outputs, computed, validate, budget);
      if error.Some? {
        if solved && error == Some(Invalid) {
          RefusedIsRefusedSolution(f, blocks, outputs, computed);
        }
        return;
      }
      if validate {
        PassedIsCertified(f, blocks, outputs, computed);
        forall run | IsRun(f, blocks, run) ensures forall k | 0 <= k < |run| :: SafeNow(f, blocks, run[k]) {
          CertifiedRunsAreSafe(f, blocks, outputs, run);
        }
        CarriedTypesAreRespected(f, blocks, outputs);
        return;
      }
      outputs, computed := next, done;
      if !changed {
        validate := true;
        StableIsInductive(f, blocks, outputs, computed);
        solution, solved := outputs, true;
      }
    }
  }
}
