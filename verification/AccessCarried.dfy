/** Values keep the type they were produced under, up to giving up the outer capability, on every accepted path. */
module AccessCarried {
  import opened Wrappers
  import opened AccessFacts
  import opened AccessFlow
  import opened AccessSoundness

  // ------------------------------------------------------------ what a flow means

  /** The type without its outer capability. */
  function Erased(ty: Ty): Ty {
    match ty
    case Reference(target, _) => Reference(target, SharedRef)
    case Set(item, _) => Set(item, ReadOnly)
    case Map(key, value, _) => Map(key, value, ReadOnly)
    case _ => ty
  }

  /** The outer capability allows changes. */
  predicate Capable(ty: Ty) {
    match ty
    case Reference(_, reference) => reference == MutableRef
    case Set(_, access) => access == Mutable
    case Map(_, _, access) => access == Mutable
    case _ => false
  }

  /** `b` is `a`, or `a` with its outer capability given up. */
  predicate Weakens(a: Ty, b: Ty) {
    Erased(a) == Erased(b) && (Capable(b) ==> Capable(a))
  }

  lemma WeakensOrders(a: Ty, b: Ty, c: Ty)
    ensures Weakens(a, a)
    ensures Weakens(a, b) && Weakens(b, a) ==> a == b
    ensures Weakens(a, b) && Weakens(b, c) ==> Weakens(a, c)
  {
  }

  /** A value of a known type flows exactly into that type up to outer weakening. */
  lemma FlowsExactly(a: Ty, b: Ty)
    ensures Flows(Typed(a), b) <==> Weakens(a, b)
  {
  }

  lemma TypedFlowsExactly(fact: Fact, b: Ty)
    requires fact.ty.Some?
    ensures Flows(fact, b) <==>
              !fact.conflict && Weakens(fact.ty.value, b) && !(fact.access == Some(ReadOnly) && CollectionAccess(b) == Some(Mutable))
  {
  }

  predicate ReadOnlyCollection(ty: Ty) {
    CollectionAccess(ty) == Some(ReadOnly)
  }

  lemma ReadOnlyIsFinal(a: Ty, b: Ty)
    requires ReadOnlyCollection(a) && Weakens(a, b)
    ensures a == b
  {
  }

  // ------------------------------------------------------- facts without a type

  /** The fact is known to stand for one type, or for a conflict that no instruction may read. */
  predicate Firm(fact: Option<Fact>) {
    fact.Some? ==> fact.value.conflict || fact.value.ty.Some?
  }

  /** A fact that is not firm lets a value pass into every type but stored references and, if read-only, mutable collections. */
  lemma UnfirmFlowsExactly(fact: Fact, b: Ty)
    requires !Firm(Some(fact))
    ensures Flows(fact, b) <==> !ContainsStoredReference(b) && (fact.access == Some(ReadOnly) ==> CollectionAccess(b) != Some(Mutable))
  {
  }

  /**
   * A join forgets a known type exactly if it meets the same type with another access or size in a slot
   * whose declaration does not take both, and no reference is involved.
   */
  lemma JoinForgetsExactly(left: Fact, right: Fact, declared: Option<Fact>)
    requires left.ty.Some? && !left.conflict
    ensures !Firm(Some(JoinFacts(left, right, declared))) <==>
              && left != right && left.ty == right.ty && !right.conflict && !ContainsStoredReference(left.ty.value)
              && !(declared.Some? && declared.value.ty.Some? && Flows(left, declared.value.ty.value) && Flows(right, declared.value.ty.value))
  {
  }

  // -------------------------------------------------------------- carried types

  /** The slot's fact agrees with a value produced under `a`: nothing known yet, a conflict, or a weakening of `a`. */
  predicate Carries(fact: Option<Fact>, a: Ty) {
    fact.Some? ==>
      || fact.value.conflict
      || (fact.value.ty.Some? && Weakens(a, fact.value.ty.value) && (ReadOnlyCollection(a) ==> fact.value.access == Some(ReadOnly)))
  }

  lemma JoinCarries(left: Option<Fact>, right: Option<Fact>, declared: Option<Fact>, a: Ty)
    requires Carries(left, a) || Carries(right, a)
    requires Firm(Join(left, right, declared))
    ensures Carries(Join(left, right, declared), a)
  {
    if left.Some? && right.Some? {
      var l, r := left.value, right.value;
      JoinKeepsDanger(l, r, declared);
      var compatible := Compatible(l, r, declared);
      if compatible.Some? && !l.conflict && !r.conflict {
        var d := compatible.value.ty.value;
        if l.ty.Some? {
          TypedFlowsExactly(l, d);
          WeakensOrders(a, l.ty.value, d);
        }
        if r.ty.Some? {
          TypedFlowsExactly(r, d);
          WeakensOrders(a, r.ty.value, d);
        }
      }
    }
  }

  /** For each slot, the type its value was produced under, if it was carried from there by moves only. */
  type Origins = seq<Option<Ty>>

  /** The type under which an instruction produces its output, or passes it on. */
  function Source(i: Instruction, o: Origins): Option<Ty> {
    match i
    case LoadConst(_, builtin, _) => Some(Builtin(builtin))
    case Move(_, src) => if src < |o| then o[src] else None
    case Call(_, target, _) => target.result
    case MakeFuture(_, _, _, future) => Some(future)
    case MakeClosure(_, target, captures) => ClosureFact(target, |captures|).ty
    case _ => None
  }

  /** A closure gets the callable type of its remaining parameters exactly if these and the result are declared. */
  lemma ClosureTypeExactly(target: Signature, captured: nat)
    requires captured <= target.arity
    ensures var ty := ClosureFact(target, captured).ty;
            && (ty.Some? <==> target.result.Some? && forall k | captured <= k < target.arity :: k in target.params)
            && (ty.Some? ==> ty.value.Function? && Some(ty.value.result) == target.result
                             && |ty.value.params| == target.arity - captured
                             && forall j | 0 <= j < |ty.value.params| ::
                                  captured + j in target.params && ty.value.params[j] == target.params[captured + j])
  {
  }

  function Carry(i: Instruction, o: Origins): Origins {
    if Output(i).Some? && Output(i).value < |o| then o[Output(i).value := Source(i, o)] else o
  }

  ghost predicate Tracks(s: Flow, o: Origins) {
    |s.registers| == |o| && forall slot | 0 <= slot < |o| && o[slot].Some? :: Carries(s.registers[slot], o[slot].value)
  }

  lemma ProducedCarries(f: Subject, i: Instruction, s: Flow, o: Origins)
    requires Sized(f, s) && Fits(f, i) && Tracks(s, o) && KnowsInputs(i, s) && Accepts(f, i, s)
    requires Output(i).Some? && Source(i, o).Some?
    ensures Produced(f, i, s).Some? && Produced(f, i, s).value.ty.Some? && !Produced(f, i, s).value.conflict
    ensures Carries(Produced(f, i, s), Source(i, o).value)
  {
    WeakensOrders(Source(i, o).value, Source(i, o).value, Source(i, o).value);
    if i.Move? {
      assert Inputs(i)[0] == i.src;
    } else if i.Call? {
      assert Inputs(i) == i.arguments;
    }
  }

  lemma OutputCarries(f: Subject, i: Instruction, s: Flow, o: Origins)
    requires Sized(f, s) && Fits(f, i) && Tracks(s, o) && KnowsInputs(i, s) && Accepts(f, i, s)
    requires Output(i).Some? && Source(i, o).Some?
    ensures Carries(Some(OutputFact(f, i, s, Output(i).value)), Source(i, o).value)
  {
    ProducedCarries(f, i, s, o);
    var produced, dst, a := Admitted(f, Produced(f, i, s).value), Output(i).value, Source(i, o).value;
    if dst in f.slots {
      TypedFlowsExactly(produced, f.slots[dst]);
      WeakensOrders(a, produced.ty.value, f.slots[dst]);
    }
  }

  /** Executing an accepted instruction keeps the facts tracking the origins. */
  lemma CarryTracked(f: Subject, i: Instruction, s: Flow, o: Origins)
    requires Sized(f, s) && Fits(f, i) && Tracks(s, o) && KnowsInputs(i, s) && Accepts(f, i, s)
    ensures Tracks(Transfer(f, i, s), Carry(i, o))
  {
    if Output(i).Some? && Source(i, o).Some? {
      OutputCarries(f, i, s, o);
    }
  }

  // ------------------------------------------------------------- entering a block

  /** From the first `first` predecessors on, no partial join at the block leaves the slot with a fact that is not firm. */
  ghost predicate Stays(f: Subject, blocks: seq<Block>, outputs: seq<Flow>, b: nat, first: nat, slot: nat)
    requires WellFormed(f, blocks) && |outputs| == |blocks| && AllSized(f, outputs) && b < |blocks|
  {
    forall k {:trigger FirmAt(f, blocks, outputs, b, k, slot)} | first <= k <= |blocks[b].predecessors| ::
      FirmAt(f, blocks, outputs, b, k, slot)
  }

  ghost predicate FirmAt(f: Subject, blocks: seq<Block>, outputs: seq<Flow>, b: nat, k: nat, slot: nat)
    requires WellFormed(f, blocks) && |outputs| == |blocks| && AllSized(f, outputs) && b < |blocks|
    requires k <= |blocks[b].predecessors|
  {
    var s := IncomingUpTo(f, blocks, outputs, AllComputed(|blocks|), b, k);
    s.Some? ==> Firm(Get(s.value, slot))
  }

  lemma JoinFlowsCarry(f: Subject, a: Flow, b: Flow, slot: nat, ty: Ty)
    requires Sized(f, a) && Sized(f, b) && slot < f.count && (Carries(a.registers[slot], ty) || Carries(b.registers[slot], ty))
    requires Firm(JoinFlows(f, a, b).registers[slot])
    ensures Carries(JoinFlows(f, a, b).registers[slot], ty)
  {
    JoinCarries(a.registers[slot], b.registers[slot], DeclaredFact(f, slot), ty);
  }

  /** A carried value stays carried through the join at the block it enters. */
  lemma {:induction false} IncomingCarries(f: Subject, blocks: seq<Block>, outputs: seq<Flow>, b: nat, k: nat, from: nat, slot: nat, a: Ty)
    requires WellFormed(f, blocks) && |outputs| == |blocks| && AllSized(f, outputs) && b < |blocks| && slot < f.count
    requires from < k <= |blocks[b].predecessors| && blocks[blocks[b].predecessors[from]].reachable
    requires Carries(outputs[blocks[b].predecessors[from]].registers[slot], a) && Stays(f, blocks, outputs, b, from + 1, slot)
    ensures IncomingUpTo(f, blocks, outputs, AllComputed(|blocks|), b, k).Some?
    ensures Carries(IncomingUpTo(f, blocks, outputs, AllComputed(|blocks|), b, k).value.registers[slot], a)
  {
    var p := blocks[b].predecessors[k - 1];
    var s := IncomingUpTo(f, blocks, outputs, AllComputed(|blocks|), b, k - 1);
    assert FirmAt(f, blocks, outputs, b, k, slot);
    if from < k - 1 {
      IncomingCarries(f, blocks, outputs, b, k - 1, from, slot, a);
      if blocks[p].reachable {
        JoinFlowsCarry(f, s.value, outputs[p], slot, a);
      }
    } else if s.Some? {
      JoinFlowsCarry(f, s.value, outputs[p], slot, a);
    }
  }

  lemma {:induction false} EntryEdgeCarries(f: Subject, blocks: seq<Block>, outputs: seq<Flow>, k: nat, slot: nat, a: Ty)
    requires WellFormed(f, blocks) && |outputs| == |blocks| && AllSized(f, outputs) && slot < f.count
    requires k <= |blocks[0].predecessors| && Carries(Entry(f).registers[slot], a) && Stays(f, blocks, outputs, 0, 0, slot)
    ensures IncomingUpTo(f, blocks, outputs, AllComputed(|blocks|), 0, k).Some?
    ensures Carries(IncomingUpTo(f, blocks, outputs, AllComputed(|blocks|), 0, k).value.registers[slot], a)
  {
    assert FirmAt(f, blocks, outputs, 0, k, slot);
    if 0 < k {
      EntryEdgeCarries(f, blocks, outputs, k - 1, slot, a);
      var p := blocks[0].predecessors[k - 1];
      if blocks[p].reachable {
        JoinFlowsCarry(f, IncomingUpTo(f, blocks, outputs, AllComputed(|blocks|), 0, k - 1).value, outputs[p], slot, a);
      }
    }
  }

  /** The declared types of the parameters, in their slots. */
  function EntryOrigins(f: Subject, n: nat): (o: Origins)
    requires n <= |f.parameterSlots| && InRange(f, f.parameterSlots)
    ensures |o| == f.count
  {
    if n == 0 then seq(f.count, _ => None)
    else EntryOrigins(f, n - 1)[f.parameterSlots[n - 1] := if n - 1 in f.params then Some(f.params[n - 1]) else None]
  }

  lemma {:induction false} EntryOriginsCarried(f: Subject, n: nat)
    requires n <= |f.parameterSlots| && InRange(f, f.parameterSlots)
    ensures forall slot | 0 <= slot < f.count && EntryOrigins(f, n)[slot].Some? ::
              Carries(EntryRegisters(f, n)[slot], EntryOrigins(f, n)[slot].value)
  {
    if n != 0 {
      EntryOriginsCarried(f, n - 1);
      if n - 1 in f.params {
        var a := f.params[n - 1];
        WeakensOrders(a, a, a);
      }
    }
  }

  /** The value came in over an edge from `from` without meeting a fact that is not firm. */
  ghost predicate Enters(f: Subject, blocks: seq<Block>, outputs: seq<Flow>, from: nat, b: nat, slot: nat)
    requires WellFormed(f, blocks) && |outputs| == |blocks| && AllSized(f, outputs) && b < |blocks|
  {
    exists k {:trigger blocks[b].predecessors[k]} | 0 <= k < |blocks[b].predecessors| ::
      blocks[b].predecessors[k] == from && Stays(f, blocks, outputs, b, k + 1, slot)
  }

  /** The origins before the `k`-th step of a run. */
  ghost function OriginsAt(f: Subject, blocks: seq<Block>, outputs: seq<Flow>, run: seq<Config>, k: nat): (origins: Origins)
    requires WellFormed(f, blocks) && |outputs| == |blocks| && AllSized(f, outputs)
    requires k < |run| && forall j | 0 <= j < |run| :: run[j].block < |blocks|
    ensures |origins| == f.count
  {
    if k == 0 then
      seq(f.count, slot requires 0 <= slot < f.count =>
        if Stays(f, blocks, outputs, 0, 0, slot) then EntryOrigins(f, |f.parameterSlots|)[slot] else None)
    else
      var before, c := OriginsAt(f, blocks, outputs, run, k - 1), run[k - 1];
      if c.pc < blocks[c.block].end then Carry(f.code[c.pc], before)
      else seq(f.count, slot requires 0 <= slot < f.count =>
             if Enters(f, blocks, outputs, c.block, run[k].block, slot) then before[slot] else None)
  }

  // ------------------------------------------------------------------ whole runs

  /** The facts at a covered configuration. */
  ghost function Facts(f: Subject, blocks: seq<Block>, outputs: seq<Flow>, c: Config): (s: Flow)
    requires WellFormed(f, blocks) && Certified(f, blocks, outputs) && Covered(f, blocks, outputs, c)
    ensures Sized(f, s)
  {
    At(f, blocks, c.block, Solution(f, blocks, outputs, c.block), c.pc)
  }

  lemma StartTracked(f: Subject, blocks: seq<Block>, outputs: seq<Flow>, run: seq<Config>)
    requires WellFormed(f, blocks) && FlowChecked(f, blocks) && Certified(f, blocks, outputs)
    requires IsRun(f, blocks, run) && Covered(f, blocks, outputs, run[0])
    ensures Tracks(Facts(f, blocks, outputs, run[0]), OriginsAt(f, blocks, outputs, run, 0))
  {
    var o := OriginsAt(f, blocks, outputs, run, 0);
    EntryOriginsCarried(f, |f.parameterSlots|);
    forall slot | 0 <= slot < f.count && o[slot].Some?
      ensures Carries(Facts(f, blocks, outputs, run[0]).registers[slot], o[slot].value)
    {
      EntryEdgeCarries(f, blocks, outputs, |blocks[0].predecessors|, slot, o[slot].value);
    }
  }

  lemma InsideTracked(f: Subject, blocks: seq<Block>, outputs: seq<Flow>, c: Config, after: Config, o: Origins)
    requires WellFormed(f, blocks) && FlowChecked(f, blocks) && Certified(f, blocks, outputs)
    requires Covered(f, blocks, outputs, c) && Covered(f, blocks, outputs, after) && Tracks(Facts(f, blocks, outputs, c), o)
    requires c.pc < blocks[c.block].end && after.block == c.block && after.pc == c.pc + 1
    ensures Tracks(Facts(f, blocks, outputs, after), Carry(f.code[c.pc], o))
  {
    AcceptedAt(f, blocks, outputs, c.block, c.pc);
    AtNext(f, blocks, c.block, Solution(f, blocks, outputs, c.block), c.pc);
    CarryTracked(f, f.code[c.pc], Facts(f, blocks, outputs, c), o);
  }

  lemma AcrossCarries(f: Subject, blocks: seq<Block>, outputs: seq<Flow>, c: Config, after: Config, slot: nat, a: Ty)
    requires WellFormed(f, blocks) && FlowChecked(f, blocks) && Certified(f, blocks, outputs)
    requires Covered(f, blocks, outputs, c) && Covered(f, blocks, outputs, after)
    requires c.pc == blocks[c.block].end && after.pc == blocks[after.block].start && slot < f.count
    requires Carries(Facts(f, blocks, outputs, c).registers[slot], a) && Enters(f, blocks, outputs, c.block, after.block, slot)
    ensures Carries(Facts(f, blocks, outputs, after).registers[slot], a)
  {
    assert BlockCertified(f, blocks, outputs, c.block);
    var b := after.block;
    var k :| 0 <= k < |blocks[b].predecessors| && blocks[b].predecessors[k] == c.block && Stays(f, blocks, outputs, b, k + 1, slot);
    IncomingCarries(f, blocks, outputs, b, |blocks[b].predecessors|, k, slot, a);
  }

  /** Along every run of a certified function the facts track where the values come from. */
  lemma {:induction false} RunTracked(f: Subject, blocks: seq<Block>, outputs: seq<Flow>, run: seq<Config>, k: nat)
    requires WellFormed(f, blocks) && FlowChecked(f, blocks) && Certified(f, blocks, outputs)
    requires IsRun(f, blocks, run) && k < |run|
    ensures Covered(f, blocks, outputs, run[k])
    ensures Tracks(Facts(f, blocks, outputs, run[k]), OriginsAt(f, blocks, outputs, run, k))
  {
    RunCovered(f, blocks, outputs, run, k);
    if k == 0 {
      StartTracked(f, blocks, outputs, run);
    } else {
      RunTracked(f, blocks, outputs, run, k - 1);
      TrackedStep(f, blocks, outputs, run, k - 1);
    }
  }

  lemma TrackedStep(f: Subject, blocks: seq<Block>, outputs: seq<Flow>, run: seq<Config>, k: nat)
    requires WellFormed(f, blocks) && FlowChecked(f, blocks) && Certified(f, blocks, outputs)
    requires IsRun(f, blocks, run) && k + 1 < |run| && Covered(f, blocks, outputs, run[k]) && Covered(f, blocks, outputs, run[k + 1])
    requires Tracks(Facts(f, blocks, outputs, run[k]), OriginsAt(f, blocks, outputs, run, k))
    ensures Tracks(Facts(f, blocks, outputs, run[k + 1]), OriginsAt(f, blocks, outputs, run, k + 1))
  {
    var c, after, o := run[k], run[k + 1], OriginsAt(f, blocks, outputs, run, k);
    assert Next(f, blocks, c, after);
    if c.pc < blocks[c.block].end {
      InsideTracked(f, blocks, outputs, c, after, o);
    } else {
      var later := OriginsAt(f, blocks, outputs, run, k + 1);
      forall slot | 0 <= slot < f.count && later[slot].Some?
        ensures Carries(Facts(f, blocks, outputs, after).registers[slot], later[slot].value)
      {
        AcrossCarries(f, blocks, outputs, c, after, slot, o[slot].value);
      }
    }
  }

  /** The instruction hands the slot's value over where type `b` is declared: to a parameter, a slot, a cell or the result. */
  predicate Demands(f: Subject, i: Instruction, s: Flow, slot: nat, b: Ty) {
    match i
    case Move(dst, src) => src == slot && dst in f.slots && f.slots[dst] == b
    case WriteCell(cell, value) => value == slot && Get(s, cell).Some? && Get(s, cell).value.ty == Some(b)
    case MakeClosure(_, target, captures) => exists j | 0 <= j < |captures| && j in target.params :: captures[j] == slot && target.params[j] == b
    case MakeFuture(_, target, arguments, _) => exists j | 0 <= j < |arguments| && j in target.params :: arguments[j] == slot && target.params[j] == b
    case Call(_, target, arguments) => exists j | 0 <= j < |arguments| && j in target.params :: arguments[j] == slot && target.params[j] == b
    case Return(Some(value)) => value == slot && f.result == Some(b)
    case _ => false
  }

  lemma DemandedFlows(f: Subject, i: Instruction, s: Flow, slot: nat, b: Ty)
    requires KnowsInputs(i, s) && Accepts(f, i, s) && Demands(f, i, s, slot, b) && slot in Inputs(i)
    ensures Get(s, slot).Some? && Flows(Get(s, slot).value, b)
  {
    if i.Move? {
      assert Inputs(i)[0] == slot;
    } else if i.Call? {
      assert Inputs(i) == i.arguments;
    } else if i.WriteCell? {
      assert Inputs(i)[0] == i.cell && Inputs(i)[1] == slot;
    } else if i.MakeClosure? {
      var j :| 0 <= j < |i.captures| && j in i.target.params && i.captures[j] == slot && i.target.params[j] == b;
      assert Retainable(s, i.captures[j], j, i.target);
    } else if i.MakeFuture? {
      var j :| 0 <= j < |i.arguments| && j in i.target.params && i.arguments[j] == slot && i.target.params[j] == b;
      assert Retainable(s, i.arguments[j], j, i.target);
    }
  }

  /** The callee's parameter is undeclared: it takes nothing read-only and no reference. */
  ghost predicate TakesUndeclared(i: Instruction, s: Flow) {
    i.Call? ==> forall j | 0 <= j < |i.arguments| && j !in i.target.params ::
      Get(s, i.arguments[j]).Some? ==> Get(s, i.arguments[j]).value.access != Some(ReadOnly) && !HoldsReference(Get(s, i.arguments[j]))
  }

  /** Everything handed over where a type is declared flows into that type. */
  ghost predicate MeetsDemands(f: Subject, i: Instruction, s: Flow) {
    forall slot, b | Demands(f, i, s, slot, b) && Get(s, slot).Some? :: Flows(Get(s, slot).value, b)
  }

  ghost predicate RetainsNoReference(i: Instruction, s: Flow) {
    forall k | 0 <= k < |Retained(i)| :: !HoldsReference(Get(s, Retained(i)[k]))
  }

  ghost predicate ReadsNoConflict(i: Instruction, s: Flow) {
    forall k | 0 <= k < |Inputs(i)| :: Get(s, Inputs(i)[k]).Some? ==> !Get(s, Inputs(i)[k]).value.conflict
  }

  ghost predicate OutputFits(f: Subject, i: Instruction, s: Flow) {
    Output(i).Some? && Output(i).value in f.slots && Produced(f, i, s).Some? ==>
      Flows(Admitted(f, Produced(f, i, s).value), f.slots[Output(i).value])
  }

  /**
   * An instruction with known inputs is accepted exactly if it reads no conflict, retains no reference, meets every
   * declared type it hands a value to, passes nothing dangerous to undeclared parameters, and fits its output slot.
   */
  lemma AcceptsExactly(f: Subject, i: Instruction, s: Flow)
    requires KnowsInputs(i, s)
    ensures Accepts(f, i, s) <==>
              ReadsNoConflict(i, s) && RetainsNoReference(i, s) && MeetsDemands(f, i, s) && TakesUndeclared(i, s) && OutputFits(f, i, s)
  {
    InputsKnown(i, s);
    if Accepts(f, i, s) {
      forall slot, b | Demands(f, i, s, slot, b) && Get(s, slot).Some? ensures Flows(Get(s, slot).value, b) {
        DemandedIsInput(f, i, s, slot, b);
        DemandedFlows(f, i, s, slot, b);
      }
      forall k | 0 <= k < |Retained(i)| ensures !HoldsReference(Get(s, Retained(i)[k])) {
        if i.MakeClosure? || i.MakeFuture? {
          assert Retainable(s, Retained(i)[k], k, i.target);
        }
      }
      CheckedTakesUndeclared(f, i, s);
    }
    if ReadsNoConflict(i, s) && RetainsNoReference(i, s) && MeetsDemands(f, i, s) && TakesUndeclared(i, s) {
      ReasonsCheck(f, i, s);
    }
  }

  lemma InputsKnown(i: Instruction, s: Flow)
    requires KnowsInputs(i, s)
    ensures i.Call? ==> AllKnown(s, i.arguments)
  {
    if i.Call? {
      assert Inputs(i) == i.arguments;
    }
  }

  lemma DemandedIsInput(f: Subject, i: Instruction, s: Flow, slot: nat, b: Ty)
    requires Demands(f, i, s, slot, b)
    ensures slot in Inputs(i)
  {
    if i.Move? {
      assert Inputs(i)[0] == slot;
    } else if i.WriteCell? {
      assert Inputs(i)[1] == slot;
    } else if i.Return? {
      assert Inputs(i)[0] == slot;
    }
  }

  lemma CheckedTakesUndeclared(f: Subject, i: Instruction, s: Flow)
    requires KnowsInputs(i, s) && Checked(f, i, s)
    ensures TakesUndeclared(i, s)
  {
    if i.Call? {
      InputsKnown(i, s);
      forall j | 0 <= j < |i.arguments| && j !in i.target.params
        ensures Get(s, i.arguments[j]).value.access != Some(ReadOnly) && !HoldsReference(Get(s, i.arguments[j]))
      {
        assert Passable(Get(s, i.arguments[j]).value, j, i.target);
      }
    }
  }

  lemma ReasonsCheck(f: Subject, i: Instruction, s: Flow)
    requires KnowsInputs(i, s) && RetainsNoReference(i, s) && MeetsDemands(f, i, s) && TakesUndeclared(i, s)
    ensures Checked(f, i, s)
  {
    InputsKnown(i, s);
    match i
    case StoreModule(_, src) => assert Retained(i)[0] == src;
    case MakeCell(_, value) => assert Retained(i)[0] == value;
    case WriteCell(cell, value) =>
      assert Retained(i)[0] == value;
      if Get(s, cell).Some? && Get(s, cell).value.ty.Some? {
        assert Demands(f, i, s, value, Get(s, cell).value.ty.value);
      }
    case MakeClosure(_, target, captures) =>
      forall k | 0 <= k < |captures| ensures Retainable(s, captures[k], k, target) {
        assert Retained(i)[k] == captures[k];
        if k in target.params {
          assert Demands(f, i, s, captures[k], target.params[k]);
        }
      }
    case MakeFuture(_, target, arguments, _) =>
      forall k | 0 <= k < |arguments| ensures Retainable(s, arguments[k], k, target) {
        assert Retained(i)[k] == arguments[k];
        if k in target.params {
          assert Demands(f, i, s, arguments[k], target.params[k]);
        }
      }
    case Call(_, target, arguments) =>
      forall k | 0 <= k < |arguments| ensures Passable(Get(s, arguments[k]).value, k, target) {
        if k in target.params {
          assert Demands(f, i, s, arguments[k], target.params[k]);
        }
      }
    case Return(Some(value)) =>
      assert Retained(i)[0] == value;
      if f.result.Some? {
        assert Demands(f, i, s, value, f.result.value);
      }
    case _ =>
  }

  /**
   * What one instruction may do with a slot whose value was produced under `a`: it reads the slot only at `a` up to
   * outer weakening, hands it over only where such a type is declared, and passes it to an undeclared parameter only
   * if it is neither a read-only collection nor holds a reference. A read-only collection is only passed as itself.
   */
  ghost predicate Respects(f: Subject, i: Instruction, s: Flow, slot: nat, a: Ty) {
    && (slot in Inputs(i) ==> Get(s, slot).Some? && !Get(s, slot).value.conflict && Get(s, slot).value.ty.Some?
                              && Weakens(a, Get(s, slot).value.ty.value))
    && (forall b | slot in Inputs(i) && Demands(f, i, s, slot, b) :: Weakens(a, b) && (ReadOnlyCollection(a) ==> b == a))
    && (i.Call? ==> forall j | 0 <= j < |i.arguments| && i.arguments[j] == slot ::
          j in i.target.params || (!ReadOnlyCollection(a) && !ContainsStoredReference(a)))
  }

  lemma WeakensKeepsReferences(a: Ty, b: Ty)
    requires Weakens(a, b)
    ensures ContainsStoredReference(a) == ContainsStoredReference(b)
  {
  }

  lemma AcceptedRespects(f: Subject, i: Instruction, s: Flow, o: Origins, slot: nat)
    requires Sized(f, s) && Fits(f, i) && Tracks(s, o) && KnowsInputs(i, s) && Accepts(f, i, s)
    requires slot < |o| && o[slot].Some?
    ensures Respects(f, i, s, slot, o[slot].value)
  {
    var a := o[slot].value;
    if slot in Inputs(i) {
      var k :| 0 <= k < |Inputs(i)| && Inputs(i)[k] == slot;
      var fact := Get(s, Inputs(i)[k]).value;
      WeakensKeepsReferences(a, fact.ty.value);
      forall b | Demands(f, i, s, slot, b) ensures Weakens(a, b) && (ReadOnlyCollection(a) ==> b == a) {
        DemandedFlows(f, i, s, slot, b);
        TypedFlowsExactly(fact, b);
        WeakensOrders(a, fact.ty.value, b);
        if ReadOnlyCollection(a) {
          ReadOnlyIsFinal(a, b);
        }
      }
    }
    if i.Call? {
      assert Inputs(i) == i.arguments;
      forall j | 0 <= j < |i.arguments| && i.arguments[j] == slot
        ensures j in i.target.params || (!ReadOnlyCollection(a) && !ContainsStoredReference(a))
      {
        assert Passable(Get(s, i.arguments[j]).value, j, i.target);
      }
    }
  }

  /** Every value in the frame whose origin is known is respected by the next instruction. */
  ghost predicate RespectedNow(f: Subject, blocks: seq<Block>, outputs: seq<Flow>, run: seq<Config>, k: nat)
    requires WellFormed(f, blocks) && Certified(f, blocks, outputs) && IsRun(f, blocks, run) && k < |run|
  {
    var c, o := run[k], OriginsAt(f, blocks, outputs, run, k);
    && Covered(f, blocks, outputs, c)
    && (c.pc < blocks[c.block].end ==>
          forall slot | 0 <= slot < f.count && o[slot].Some? ::
            Respects(f, f.code[c.pc], Facts(f, blocks, outputs, c), slot, o[slot].value))
  }

  /** All runs of the function respect the types of the values they carry. */
  ghost predicate RunsRespectTypes(f: Subject, blocks: seq<Block>, outputs: seq<Flow>)
    requires WellFormed(f, blocks) && Certified(f, blocks, outputs)
  {
    forall run, k | IsRun(f, blocks, run) && 0 <= k < |run| :: RespectedNow(f, blocks, outputs, run, k)
  }

  /**
   * On every run of a certified function, a value produced under a known type and carried by moves, joins and declared
   * slots reaches a declared parameter, slot, cell or result only at that type up to outer weakening, and a read-only
   * collection carried so never reaches a mutable or undeclared parameter, unless a join on the way forgot its type.
   */
  lemma CarriedTypesAreRespected(f: Subject, blocks: seq<Block>, outputs: seq<Flow>)
    requires WellFormed(f, blocks) && FlowChecked(f, blocks) && Certified(f, blocks, outputs)
    ensures RunsRespectTypes(f, blocks, outputs)
  {
    forall run, k | IsRun(f, blocks, run) && 0 <= k < |run| ensures RespectedNow(f, blocks, outputs, run, k) {
      RunTracked(f, blocks, outputs, run, k);
      RespectedAt(f, blocks, outputs, run, k);
    }
  }

  lemma RespectedAt(f: Subject, blocks: seq<Block>, outputs: seq<Flow>, run: seq<Config>, k: nat)
    requires WellFormed(f, blocks) && FlowChecked(f, blocks) && Certified(f, blocks, outputs)
    requires IsRun(f, blocks, run) && k < |run| && Covered(f, blocks, outputs, run[k])
    requires Tracks(Facts(f, blocks, outputs, run[k]), OriginsAt(f, blocks, outputs, run, k))
    ensures RespectedNow(f, blocks, outputs, run, k)
  {
    var c, o := run[k], OriginsAt(f, blocks, outputs, run, k);
    if c.pc < blocks[c.block].end {
      AcceptedAt(f, blocks, outputs, c.block, c.pc);
      assert Fits(f, f.code[c.pc]);
      forall slot | 0 <= slot < f.count && o[slot].Some?
        ensures Respects(f, f.code[c.pc], Facts(f, blocks, outputs, c), slot, o[slot].value)
      {
        AcceptedRespects(f, f.code[c.pc], Facts(f, blocks, outputs, c), o, slot);
      }
    }
  }

  /** Wherever two runs read a slot at the same instruction, its values have one type up to the outer capability. */
  lemma OriginsAgree(f: Subject, blocks: seq<Block>, outputs: seq<Flow>, run: seq<Config>, k: nat, other: seq<Config>, j: nat, slot: nat)
    requires WellFormed(f, blocks) && FlowChecked(f, blocks) && Certified(f, blocks, outputs)
    requires IsRun(f, blocks, run) && IsRun(f, blocks, other) && k < |run| && j < |other| && slot < f.count
    requires run[k].block == other[j].block && run[k].pc == other[j].pc < blocks[run[k].block].end
    requires slot in Inputs(f.code[run[k].pc])
    ensures var a, b := OriginsAt(f, blocks, outputs, run, k)[slot], OriginsAt(f, blocks, outputs, other, j)[slot];
            a.Some? && b.Some? ==> Erased(a.value) == Erased(b.value)
  {
    CarriedTypesAreRespected(f, blocks, outputs);
    assert RespectedNow(f, blocks, outputs, run, k) && RespectedNow(f, blocks, outputs, other, j);
  }
}
