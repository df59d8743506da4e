/** No scoped reference escapes on any path of a function that access verification accepts. */
module AccessSoundness {
  import opened Wrappers
  import opened AccessFacts
  import opened AccessFlow

  // ------------------------------------------------------ concrete execution

  /** Run-time values: a scoped reference, a cell, a closure or future over captured values, or other data. */
  datatype Value = Plain | ScopedReference | Cell(id: nat) | Capture(parts: seq<Value>)

  /** No scoped reference is stored anywhere inside the value. */
  predicate Owned(v: Value) {
    match v
    case Plain => true
    case ScopedReference => false
    case Cell(_) => true
    case Capture(parts) => forall i | 0 <= i < |parts| :: Owned(parts[i])
  }

  /** Module storage and heap cells. */
  datatype World = World(globals: map<nat, Value>, cells: map<nat, Value>)

  predicate Sealed(w: World) {
    && (forall g | g in w.globals :: Owned(w.globals[g]))
    && (forall c | c in w.cells :: Owned(w.cells[c]))
  }

  type Frame = seq<Option<Value>>

  function Read(frame: Frame, slot: nat): Option<Value> {
    if slot < |frame| then frame[slot] else None
  }

  predicate AreValues(frame: Frame, slots: seq<nat>, values: seq<Value>) {
    |values| == |slots| && forall k | 0 <= k < |slots| :: Read(frame, slots[k]) == Some(values[k])
  }

  /** A value handed over under a declared type is a scoped reference only if the type says so. */
  predicate Admissible(v: Value, ty: Option<Ty>) {
    Owned(v) || (v.ScopedReference? && ty.Some? && ContainsStoredReference(ty.value))
  }

  /** One executed instruction, leaving `value` in the output slot. Callees may change the world but keep it sealed. */
  ghost predicate Executes(i: Instruction, frame: Frame, w: World, value: Value, w': World) {
    match i
    case LoadConst(_, _, _) => value == Plain && w' == w
    case Operate(_, _) => value == Plain && w' == w
    case Move(_, src) => Read(frame, src) == Some(value) && w' == w
    case LoadModule(_, slot) => slot in w.globals && value == w.globals[slot] && w' == w
    case StoreModule(slot, src) => Read(frame, src).Some? && w' == w.(globals := w.globals[slot := Read(frame, src).value])
    case MakeCell(_, src) =>
      && Read(frame, src).Some? && value.Cell? && value.id !in w.cells
      && w' == w.(cells := w.cells[value.id := Read(frame, src).value])
    case ReadCell(_, cell) =>
      && Read(frame, cell).Some? && Read(frame, cell).value.Cell? && Read(frame, cell).value.id in w.cells
      && value == w.cells[Read(frame, cell).value.id] && w' == w
    case WriteCell(cell, src) =>
      && Read(frame, cell).Some? && Read(frame, cell).value.Cell? && Read(frame, src).Some?
      && w' == w.(cells := w.cells[Read(frame, cell).value.id := Read(frame, src).value])
    case MakeClosure(_, _, captures) => value.Capture? && AreValues(frame, captures, value.parts) && w' == w
    case MakeFuture(_, _, arguments, _) => value.Capture? && AreValues(frame, arguments, value.parts) && w' == w
    case Call(_, target, _) => (Sealed(w) ==> Sealed(w')) && Admissible(value, target.result)
    case _ => w' == w
  }

  function Written(i: Instruction, frame: Frame, value: Value): Frame {
    if Output(i).Some? && Output(i).value < |frame| then frame[Output(i).value := Some(value)] else frame
  }

  datatype Config = Config(block: nat, pc: nat, frame: Frame, world: World)

  /** Execute the next instruction of the block, or enter any successor from its end. */
  ghost predicate Next(f: Subject, blocks: seq<Block>, c: Config, c': Config)
    requires WellFormed(f, blocks) && c.block < |blocks|
  {
    if c.pc < blocks[c.block].end then
      && c.pc < |f.code|
      && c'.block == c.block && c'.pc == c.pc + 1
      && exists value :: Executes(f.code[c.pc], c.frame, c.world, value, c'.world) && c'.frame == Written(f.code[c.pc], c.frame, value)
    else
      && c'.block in blocks[c.block].successors && c'.block < |blocks|
      && c'.pc == blocks[c'.block].start && c'.frame == c.frame && c'.world == c.world
  }

  /** The caller supplied admissible parameters in a sealed world; nothing else is assigned. */
  ghost predicate Starts(f: Subject, blocks: seq<Block>, c: Config)
    requires WellFormed(f, blocks)
  {
    && c.block == 0 && c.pc == blocks[0].start && |c.frame| == f.count && Sealed(c.world)
    && (forall k | 0 <= k < f.count && c.frame[k].Some? ::
          exists i | 0 <= i < |f.parameterSlots| ::
            && f.parameterSlots[i] == k
            && (forall j | i < j < |f.parameterSlots| :: f.parameterSlots[j] != k)
            && Admissible(c.frame[k].value, if i in f.params then Some(f.params[i]) else None))
  }

  ghost predicate IsRun(f: Subject, blocks: seq<Block>, run: seq<Config>)
    requires WellFormed(f, blocks)
  {
    && run != [] && Starts(f, blocks, run[0])
    && (forall k | 0 <= k < |run| :: run[k].block < |blocks|)
    && (forall k | 0 <= k < |run| - 1 :: Next(f, blocks, run[k], run[k + 1]))
  }

  /** The slots whose values outlive the frame after this instruction. */
  function Retained(i: Instruction): seq<nat> {
    match i
    case StoreModule(_, src) => [src]
    case MakeCell(_, value) => [value]
    case WriteCell(_, value) => [value]
    case MakeClosure(_, _, captures) => captures
    case MakeFuture(_, _, arguments, _) => arguments
    case Return(Some(value)) => [value]
    case _ => []
  }

  /** The instruction retains no scoped reference, and passes one only to a parameter declared to hold it. */
  ghost predicate Safe(i: Instruction, frame: Frame) {
    && (forall k | 0 <= k < |Retained(i)| :: Read(frame, Retained(i)[k]).Some? ==> Owned(Read(frame, Retained(i)[k]).value))
    && (i.Call? ==> forall k | 0 <= k < |i.arguments| ::
          Read(frame, i.arguments[k]).Some? ==> Admissible(Read(frame, i.arguments[k]).value, DeclaredParameter(i.target, k)))
  }

  function DeclaredParameter(target: Signature, index: nat): Option<Ty> {
    if index in target.params then Some(target.params[index]) else None
  }

  // ------------------------------------------------ what verification leaves

  /** What the initialization pass has established about the blocks. */
  ghost predicate FlowChecked(f: Subject, blocks: seq<Block>)
    requires WellFormed(f, blocks)
  {
    && blocks[0].reachable
    && (forall slot | slot in blocks[0].initialized :: slot in f.parameterSlots)
    && (forall b {:trigger EdgesChecked(f, blocks, b)} | 0 <= b < |blocks| && blocks[b].reachable :: EdgesChecked(f, blocks, b))
    && (forall b {:trigger ReadsChecked(f, blocks, b)} | 0 <= b < |blocks| && blocks[b].reachable :: ReadsChecked(f, blocks, b))
    && (forall b {:trigger Rooted(blocks, b)} | 0 <= b < |blocks| && blocks[b].reachable :: Rooted(blocks, b))
  }

  /** A path of successor edges from the entry block. */
  ghost predicate IsPath(blocks: seq<Block>, path: seq<nat>, b: nat) {
    && path != [] && path[0] == 0 && path[|path| - 1] == b
    && (forall k | 0 <= k < |path| :: path[k] < |blocks|)
    && (forall k | 0 <= k < |path| - 1 :: path[k + 1] in blocks[path[k]].successors)
  }

  ghost predicate Rooted(blocks: seq<Block>, b: nat) {
    exists path :: IsPath(blocks, path, b)
  }

  /** Successor and predecessor lists agree, and no block relies on more than its predecessors assign. */
  ghost predicate EdgesChecked(f: Subject, blocks: seq<Block>, b: nat)
    requires WellFormed(f, blocks) && b < |blocks|
  {
    && (forall s | s in blocks[b].successors && s < |blocks| :: blocks[s].reachable && b in blocks[s].predecessors)
    && (forall k | 0 <= k < |blocks[b].predecessors| && blocks[blocks[b].predecessors[k]].reachable ::
          var p := blocks[b].predecessors[k];
          blocks[b].initialized <= InitializedAt(f, blocks, p, blocks[p].end))
  }

  /** Every read in the block is of an assigned slot. */
  ghost predicate ReadsChecked(f: Subject, blocks: seq<Block>, b: nat)
    requires WellFormed(f, blocks) && b < |blocks|
  {
    forall pc, k | blocks[b].start <= pc < blocks[b].end && 0 <= k < |Inputs(f.code[pc])| ::
      Inputs(f.code[pc])[k] in InitializedAt(f, blocks, b, pc)
  }

  /** Slots assigned on every path to instruction `pc` of block `b`. */
  ghost function InitializedAt(f: Subject, blocks: seq<Block>, b: nat, pc: nat): set<nat>
    requires WellFormed(f, blocks) && b < |blocks| && blocks[b].start <= pc <= blocks[b].end
    decreases pc
  {
    if pc == blocks[b].start then blocks[b].initialized
    else InitializedAt(f, blocks, b, pc - 1)
         + (if Output(f.code[pc - 1]).Some? then {Output(f.code[pc - 1]).value} else {})
  }

  /** Initialized slots have facts. */
  ghost predicate Knows(s: Flow, slots: set<nat>) {
    forall slot | slot in slots :: Get(s, slot).Some?
  }

  /** An inductive, validated solution of the dataflow equations. */
  ghost predicate Certified(f: Subject, blocks: seq<Block>, outputs: seq<Flow>)
    requires WellFormed(f, blocks)
  {
    && |outputs| == |blocks| && AllSized(f, outputs)
    && forall b {:trigger BlockCertified(f, blocks, outputs, b)} | 0 <= b < |blocks| && blocks[b].reachable ::
         BlockCertified(f, blocks, outputs, b)
  }

  function AllComputed(n: nat): seq<bool> {
    seq(n, _ => true)
  }

  ghost predicate BlockCertified(f: Subject, blocks: seq<Block>, outputs: seq<Flow>, b: nat)
    requires WellFormed(f, blocks) && |outputs| == |blocks| && AllSized(f, outputs) && b < |blocks|
  {
    var incoming := Incoming(f, blocks, outputs, AllComputed(|blocks|), b);
    && incoming.Some?
    && outputs[b] == At(f, blocks, b, incoming.value, blocks[b].end)
    && Knows(incoming.value, blocks[b].initialized)
    && BlockAccepted(f, blocks, b, incoming.value)
  }

  ghost predicate AcceptedPoint(f: Subject, blocks: seq<Block>, b: nat, incoming: Flow, pc: nat)
    requires WellFormed(f, blocks) && b < |blocks| && Sized(f, incoming) && blocks[b].start <= pc < blocks[b].end
  {
    Accepts(f, f.code[pc], At(f, blocks, b, incoming, pc))
  }

  /** Validation accepts the block's instructions before `to` from this incoming state. */
  ghost predicate AcceptedUpTo(f: Subject, blocks: seq<Block>, b: nat, incoming: Flow, to: nat)
    requires WellFormed(f, blocks) && b < |blocks| && Sized(f, incoming) && to <= blocks[b].end
  {
    forall pc {:trigger AcceptedPoint(f, blocks, b, incoming, pc)} | blocks[b].start <= pc < to ::
      AcceptedPoint(f, blocks, b, incoming, pc)
  }

  ghost predicate BlockAccepted(f: Subject, blocks: seq<Block>, b: nat, incoming: Flow)
    requires WellFormed(f, blocks) && b < |blocks| && Sized(f, incoming)
  {
    AcceptedUpTo(f, blocks, b, incoming, blocks[b].end)
  }

  // ----------------------------------------------------------- over-approximation

  /** A slot holding a scoped reference has a fact that says so, unless the slot is not yet known. */
  ghost predicate Covers(fact: Option<Fact>, v: Option<Value>) {
    v.Some? ==> Owned(v.value) || (v.value.ScopedReference? && (fact.Some? ==> fact.value.HoldsReference()))
  }

  ghost predicate CoversFrame(s: Flow, frame: Frame) {
    |s.registers| == |frame| && forall k | 0 <= k < |frame| :: Covers(s.registers[k], frame[k])
  }

  lemma JoinCovers(left: Option<Fact>, right: Option<Fact>, declared: Option<Fact>, v: Option<Value>)
    requires Covers(left, v) || Covers(right, v)
    ensures Covers(Join(left, right, declared), v)
  {
  }

  lemma JoinFlowsCover(f: Subject, a: Flow, b: Flow, frame: Frame)
    requires Sized(f, a) && Sized(f, b) && (CoversFrame(a, frame) || CoversFrame(b, frame))
    ensures CoversFrame(JoinFlows(f, a, b), frame)
  {
    forall k | 0 <= k < |frame| ensures Covers(JoinFlows(f, a, b).registers[k], frame[k]) {
      JoinCovers(a.registers[k], b.registers[k], DeclaredFact(f, k), frame[k]);
    }
  }

  /** Whatever predecessor the run comes from, the joined incoming state covers it. */
  lemma {:induction false} IncomingCovers(f: Subject, blocks: seq<Block>, outputs: seq<Flow>, b: nat, k: nat, from: nat, frame: Frame)
    requires WellFormed(f, blocks) && |outputs| == |blocks| && AllSized(f, outputs) && b < |blocks|
    requires from < k <= |blocks[b].predecessors| && blocks[blocks[b].predecessors[from]].reachable
    requires CoversFrame(outputs[blocks[b].predecessors[from]], frame)
    ensures IncomingUpTo(f, blocks, outputs, AllComputed(|blocks|), b, k).Some?
    ensures CoversFrame(IncomingUpTo(f, blocks, outputs, AllComputed(|blocks|), b, k).value, frame)
  {
    var p := blocks[b].predecessors[k - 1];
    var s := IncomingUpTo(f, blocks, outputs, AllComputed(|blocks|), b, k - 1);
    if from < k - 1 {
      IncomingCovers(f, blocks, outputs, b, k - 1, from, frame);
      if blocks[p].reachable {
        JoinFlowsCover(f, s.value, outputs[p], frame);
      }
    } else if s.Some? {
      JoinFlowsCover(f, s.value, outputs[p], frame);
    }
  }

  lemma {:induction false} EntryReaches(f: Subject, blocks: seq<Block>, outputs: seq<Flow>, k: nat, frame: Frame)
    requires WellFormed(f, blocks) && |outputs| == |blocks| && AllSized(f, outputs)
    requires k <= |blocks[0].predecessors| && CoversFrame(Entry(f), frame)
    ensures IncomingUpTo(f, blocks, outputs, AllComputed(|blocks|), 0, k).Some?
    ensures CoversFrame(IncomingUpTo(f, blocks, outputs, AllComputed(|blocks|), 0, k).value, frame)
  {
    if 0 < k {
      EntryReaches(f, blocks, outputs, k - 1, frame);
      var p := blocks[0].predecessors[k - 1];
      if blocks[p].reachable {
        JoinFlowsCover(f, IncomingUpTo(f, blocks, outputs, AllComputed(|blocks|), 0, k - 1).value, outputs[p], frame);
      }
    }
  }

  lemma {:induction false} EntryRegistersAt(f: Subject, n: nat, i: nat)
    requires n <= |f.parameterSlots| && InRange(f, f.parameterSlots) && i < n
    requires forall j | i < j < n :: f.parameterSlots[j] != f.parameterSlots[i]
    ensures EntryRegisters(f, n)[f.parameterSlots[i]] == Some(EntryFact(f, i))
  {
    if i < n - 1 {
      EntryRegistersAt(f, n - 1, i);
    }
  }

  lemma EntryCovers(f: Subject, blocks: seq<Block>, c: Config)
    requires WellFormed(f, blocks) && Starts(f, blocks, c)
    ensures CoversFrame(Entry(f), c.frame)
  {
    forall k | 0 <= k < f.count ensures Covers(Entry(f).registers[k], c.frame[k]) {
      if c.frame[k].Some? {
        var i :| 0 <= i < |f.parameterSlots| && f.parameterSlots[i] == k
                 && (forall j | i < j < |f.parameterSlots| :: f.parameterSlots[j] != k)
                 && Admissible(c.frame[k].value, if i in f.params then Some(f.params[i]) else None);
        EntryRegistersAt(f, |f.parameterSlots|, i);
      }
    }
  }

  // --------------------------------------------------------------- one step

  lemma ReadCovered(s: Flow, frame: Frame, slot: nat)
    requires CoversFrame(s, frame)
    ensures Covers(Get(s, slot), Read(frame, slot))
  {
  }

  /** A known slot whose fact holds no reference holds an owned value. */
  lemma OwnedByFact(s: Flow, frame: Frame, slot: nat)
    requires CoversFrame(s, frame) && Get(s, slot).Some? && !HoldsReference(Get(s, slot))
    ensures Read(frame, slot).Some? ==> Owned(Read(frame, slot).value)
  {
  }

  ghost predicate KnowsInputs(i: Instruction, s: Flow) {
    forall k | 0 <= k < |Inputs(i)| :: Get(s, Inputs(i)[k]).Some?
  }

  lemma RetainedOwned(f: Subject, i: Instruction, s: Flow, frame: Frame, k: nat)
    requires CoversFrame(s, frame) && KnowsInputs(i, s) && Checked(f, i, s) && k < |Retained(i)|
    ensures Read(frame, Retained(i)[k]).Some? ==> Owned(Read(frame, Retained(i)[k]).value)
  {
    var slot := Retained(i)[k];
    assert Get(s, slot).Some? by {
      var at := if i.WriteCell? then 1 else k;
      assert Inputs(i)[at] == slot;
    }
    assert !HoldsReference(Get(s, slot)) by {
      if i.MakeClosure? || i.MakeFuture? {
        assert Retainable(s, slot, k, i.target);
      }
    }
    OwnedByFact(s, frame, slot);
  }

  lemma ArgumentsAdmissible(f: Subject, i: Instruction, s: Flow, frame: Frame, k: nat)
    requires CoversFrame(s, frame) && KnowsInputs(i, s) && Checked(f, i, s) && i.Call? && k < |i.arguments|
    ensures Read(frame, i.arguments[k]).Some? ==> Admissible(Read(frame, i.arguments[k]).value, DeclaredParameter(i.target, k))
  {
    var slot := i.arguments[k];
    ReadCovered(s, frame, slot);
    assert AllKnown(s, i.arguments) by {
      assert Inputs(i) == i.arguments;
    }
    var fact := Get(s, slot).value;
    assert Passable(fact, k, i.target);
    if k in i.target.params {
      FlowKeepsReference(fact, i.target.params[k]);
    }
  }

  lemma SafeStep(f: Subject, i: Instruction, s: Flow, frame: Frame)
    requires CoversFrame(s, frame) && KnowsInputs(i, s) && Accepts(f, i, s)
    ensures Safe(i, frame)
  {
    forall k | 0 <= k < |Retained(i)| ensures Read(frame, Retained(i)[k]).Some? ==> Owned(Read(frame, Retained(i)[k]).value) {
      RetainedOwned(f, i, s, frame, k);
    }
    if i.Call? {
      forall k | 0 <= k < |i.arguments|
        ensures Read(frame, i.arguments[k]).Some? ==> Admissible(Read(frame, i.arguments[k]).value, DeclaredParameter(i.target, k))
      {
        ArgumentsAdmissible(f, i, s, frame, k);
      }
    }
  }

  lemma WorldStaysSealed(i: Instruction, frame: Frame, w: World, value: Value, w': World)
    requires Safe(i, frame) && Sealed(w) && Executes(i, frame, w, value, w')
    ensures Sealed(w')
  {
    if i.StoreModule? || i.MakeCell? || i.WriteCell? {
      assert Owned(Read(frame, Retained(i)[0]).value);
    }
  }

  /** The value left in the output is owned, except that moves and calls may carry a covered reference. */
  lemma ResultOwned(i: Instruction, frame: Frame, w: World, value: Value, w': World)
    requires Safe(i, frame) && Sealed(w) && Executes(i, frame, w, value, w')
    requires Output(i).Some? && !i.Move? && !i.Call?
    ensures Owned(value)
  {
    if i.MakeClosure? || i.MakeFuture? {
      forall k | 0 <= k < |value.parts| ensures Owned(value.parts[k]) {
        assert Read(frame, Retained(i)[k]) == Some(value.parts[k]);
      }
    }
  }

  lemma ResultCovered(f: Subject, i: Instruction, s: Flow, frame: Frame, w: World, value: Value, w': World)
    requires CoversFrame(s, frame) && KnowsInputs(i, s) && Accepts(f, i, s) && Safe(i, frame) && Sealed(w)
    requires Executes(i, frame, w, value, w') && Output(i).Some?
    ensures Covers(Some(OutputFact(f, i, s, Output(i).value)), Some(value))
  {
    if i.Move? {
      assert Inputs(i)[0] == i.src;
      ReadCovered(s, frame, i.src);
    } else if i.Call? {
      assert Inputs(i) == i.arguments;
    } else {
      ResultOwned(i, frame, w, value, w');
    }
    var dst := Output(i).value;
    if value.ScopedReference? {
      assert Produced(f, i, s).Some? && Produced(f, i, s).value.HoldsReference();
      if dst in f.slots {
        FlowKeepsReference(Admitted(f, Produced(f, i, s).value), f.slots[dst]);
      }
    }
  }

  lemma StepCovers(f: Subject, i: Instruction, s: Flow, frame: Frame, w: World, value: Value, w': World)
    requires Sized(f, s) && Fits(f, i) && |frame| == f.count
    requires CoversFrame(s, frame) && KnowsInputs(i, s) && Accepts(f, i, s) && Sealed(w)
    requires Executes(i, frame, w, value, w')
    ensures Safe(i, frame) && Sealed(w') && CoversFrame(Transfer(f, i, s), Written(i, frame, value))
  {
    SafeStep(f, i, s, frame);
    WorldStaysSealed(i, frame, w, value, w');
    if Output(i).Some? {
      ResultCovered(f, i, s, frame, w, value, w');
    }
  }

  // -------------------------------------------------------------- whole runs

  ghost function Solution(f: Subject, blocks: seq<Block>, outputs: seq<Flow>, b: nat): (s: Flow)
    requires WellFormed(f, blocks) && Certified(f, blocks, outputs) && b < |blocks| && blocks[b].reachable
    ensures Sized(f, s)
  {
    assert BlockCertified(f, blocks, outputs, b);
    Incoming(f, blocks, outputs, AllComputed(|blocks|), b).value
  }

  lemma {:induction false} KnownAt(f: Subject, blocks: seq<Block>, b: nat, s: Flow, pc: nat)
    requires WellFormed(f, blocks) && b < |blocks| && Sized(f, s) && blocks[b].start <= pc <= blocks[b].end
    requires Knows(s, blocks[b].initialized)
    ensures Knows(At(f, blocks, b, s, pc), InitializedAt(f, blocks, b, pc))
    decreases pc
  {
    if blocks[b].start < pc {
      KnownAt(f, blocks, b, s, pc - 1);
      assert Fits(f, f.code[pc - 1]);
    }
  }

  lemma AtNext(f: Subject, blocks: seq<Block>, b: nat, s: Flow, pc: nat)
    requires WellFormed(f, blocks) && b < |blocks| && Sized(f, s) && blocks[b].start <= pc < blocks[b].end
    ensures Fits(f, f.code[pc]) && At(f, blocks, b, s, pc + 1) == Transfer(f, f.code[pc], At(f, blocks, b, s, pc))
  {
  }

  /** The configuration is covered by the solution at its program point. */
  ghost predicate Covered(f: Subject, blocks: seq<Block>, outputs: seq<Flow>, c: Config)
    requires WellFormed(f, blocks) && Certified(f, blocks, outputs)
  {
    && c.block < |blocks| && blocks[c.block].reachable
    && blocks[c.block].start <= c.pc <= blocks[c.block].end
    && |c.frame| == f.count && Sealed(c.world)
    && CoversFrame(At(f, blocks, c.block, Solution(f, blocks, outputs, c.block), c.pc), c.frame)
  }

  ghost predicate SafeNow(f: Subject, blocks: seq<Block>, c: Config)
    requires WellFormed(f, blocks)
  {
    && Sealed(c.world)
    && (c.block < |blocks| && c.pc < blocks[c.block].end ==> Safe(f.code[c.pc], c.frame))
  }

  /** The solution accepts the next instruction and knows all its inputs. */
  lemma AcceptedAt(f: Subject, blocks: seq<Block>, outputs: seq<Flow>, b: nat, pc: nat)
    requires WellFormed(f, blocks) && FlowChecked(f, blocks) && Certified(f, blocks, outputs)
    requires b < |blocks| && blocks[b].reachable && blocks[b].start <= pc < blocks[b].end
    ensures var s := At(f, blocks, b, Solution(f, blocks, outputs, b), pc);
            Accepts(f, f.code[pc], s) && KnowsInputs(f.code[pc], s)
  {
    assert BlockCertified(f, blocks, outputs, b);
    var incoming := Solution(f, blocks, outputs, b);
    assert AcceptedPoint(f, blocks, b, incoming, pc);
    assert ReadsChecked(f, blocks, b);
    KnownAt(f, blocks, b, incoming, pc);
    var s := At(f, blocks, b, incoming, pc);
    forall k | 0 <= k < |Inputs(f.code[pc])| ensures Get(s, Inputs(f.code[pc])[k]).Some? {
      assert Inputs(f.code[pc])[k] in InitializedAt(f, blocks, b, pc);
    }
  }

  lemma CoveredIsSafe(f: Subject, blocks: seq<Block>, outputs: seq<Flow>, c: Config)
    requires WellFormed(f, blocks) && FlowChecked(f, blocks) && Certified(f, blocks, outputs)
    requires Covered(f, blocks, outputs, c)
    ensures SafeNow(f, blocks, c)
  {
    if c.pc < blocks[c.block].end {
      AcceptedAt(f, blocks, outputs, c.block, c.pc);
      SafeStep(f, f.code[c.pc], At(f, blocks, c.block, Solution(f, blocks, outputs, c.block), c.pc), c.frame);
    }
  }

  lemma StartCovered(f: Subject, blocks: seq<Block>, outputs: seq<Flow>, c: Config)
    requires WellFormed(f, blocks) && FlowChecked(f, blocks) && Certified(f, blocks, outputs) && Starts(f, blocks, c)
    ensures Covered(f, blocks, outputs, c)
  {
    EntryCovers(f, blocks, c);
    EntryReaches(f, blocks, outputs, |blocks[0].predecessors|, c.frame);
  }

  lemma StepInside(f: Subject, blocks: seq<Block>, outputs: seq<Flow>, c: Config, c': Config)
    requires WellFormed(f, blocks) && FlowChecked(f, blocks) && Certified(f, blocks, outputs)
    requires Covered(f, blocks, outputs, c) && c.pc < blocks[c.block].end && Next(f, blocks, c, c')
    ensures Covered(f, blocks, outputs, c')
  {
    var incoming := Solution(f, blocks, outputs, c.block);
    AcceptedAt(f, blocks, outputs, c.block, c.pc);
    AtNext(f, blocks, c.block, incoming, c.pc);
    NextCovers(f, f.code[c.pc], At(f, blocks, c.block, incoming, c.pc), c, c');
  }

  lemma NextCovers(f: Subject, i: Instruction, s: Flow, c: Config, c': Config)
    requires Sized(f, s) && Fits(f, i) && |c.frame| == f.count
    requires CoversFrame(s, c.frame) && KnowsInputs(i, s) && Accepts(f, i, s) && Sealed(c.world)
    requires exists value :: Executes(i, c.frame, c.world, value, c'.world) && c'.frame == Written(i, c.frame, value)
    ensures Sealed(c'.world) && |c'.frame| == f.count && CoversFrame(Transfer(f, i, s), c'.frame)
  {
    var value :| Executes(i, c.frame, c.world, value, c'.world) && c'.frame == Written(i, c.frame, value);
    StepCovers(f, i, s, c.frame, c.world, value, c'.world);
  }

  lemma StepAcross(f: Subject, blocks: seq<Block>, outputs: seq<Flow>, c: Config, c': Config)
    requires WellFormed(f, blocks) && FlowChecked(f, blocks) && Certified(f, blocks, outputs)
    requires Covered(f, blocks, outputs, c) && c.pc == blocks[c.block].end && Next(f, blocks, c, c')
    ensures Covered(f, blocks, outputs, c')
  {
    var b, t := c.block, c'.block;
    assert BlockCertified(f, blocks, outputs, b);
    assert CoversFrame(outputs[b], c.frame);
    assert EdgesChecked(f, blocks, b);
    assert blocks[t].reachable && b in blocks[t].predecessors;
    var from :| 0 <= from < |blocks[t].predecessors| && blocks[t].predecessors[from] == b;
    IncomingCovers(f, blocks, outputs, t, |blocks[t].predecessors|, from, c.frame);
  }

  lemma StepCovered(f: Subject, blocks: seq<Block>, outputs: seq<Flow>, c: Config, c': Config)
    requires WellFormed(f, blocks) && FlowChecked(f, blocks) && Certified(f, blocks, outputs)
    requires Covered(f, blocks, outputs, c) && Next(f, blocks, c, c')
    ensures Covered(f, blocks, outputs, c')
  {
    if c.pc < blocks[c.block].end {
      StepInside(f, blocks, outputs, c, c');
    } else {
      StepAcross(f, blocks, outputs, c, c');
    }
  }

  lemma {:induction false} RunCovered(f: Subject, blocks: seq<Block>, outputs: seq<Flow>, run: seq<Config>, k: nat)
    requires WellFormed(f, blocks) && FlowChecked(f, blocks) && Certified(f, blocks, outputs)
    requires IsRun(f, blocks, run) && k < |run|
    ensures Covered(f, blocks, outputs, run[k])
  {
    if k == 0 {
      StartCovered(f, blocks, outputs, run[0]);
    } else {
      RunCovered(f, blocks, outputs, run, k - 1);
      StepCovered(f, blocks, outputs, run[k - 1], run[k - 1 + 1]);
    }
  }

  /**
   * On every finite run of a certified function, no scoped reference ever reaches module storage, a
   * cell, a closure, a future or the caller, and none is passed where it was not declared.
   */
  lemma CertifiedRunsAreSafe(f: Subject, blocks: seq<Block>, outputs: seq<Flow>, run: seq<Config>)
    requires WellFormed(f, blocks) && FlowChecked(f, blocks) && Certified(f, blocks, outputs)
    requires IsRun(f, blocks, run)
    ensures forall k | 0 <= k < |run| :: SafeNow(f, blocks, run[k])
  {
    forall k | 0 <= k < |run| ensures SafeNow(f, blocks, run[k]) {
      RunCovered(f, blocks, outputs, run, k);
      CoveredIsSafe(f, blocks, outputs, run[k]);
    }
  }
}
