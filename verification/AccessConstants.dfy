/** The constants that access verification tracks are the ones loaded, on every accepted path. */
module AccessConstants {
  import opened Wrappers
  import opened AccessFacts
  import opened AccessFlow
  import opened AccessSoundness
  import opened AccessCarried

  /** What an instruction does to the numbers slots were loaded with, as far as these are carried by moves only. */
  function Load(i: Instruction, loaded: seq<Option<nat>>): seq<Option<nat>> {
    var output := Output(i);
    if output.None? || output.value >= |loaded| then loaded
    else if i.LoadConst? then loaded[i.dst := i.index]
    else if i.Move? && i.src < |loaded| then loaded[i.dst := loaded[i.src]]
    else loaded[output.value := None]
  }

  function NoneLoaded(n: nat): (loaded: seq<Option<nat>>)
    ensures |loaded| == n && forall slot | 0 <= slot < n :: loaded[slot] == None
  {
    seq(n, _ => None)
  }

  /** For each slot, the number its value was loaded as before the `k`-th step of a run. */
  ghost function LoadedAt(f: Subject, blocks: seq<Block>, run: seq<Config>, k: nat): (loaded: seq<Option<nat>>)
    requires WellFormed(f, blocks) && k < |run| && forall j | 0 <= j < |run| :: run[j].block < |blocks|
    ensures |loaded| == f.count
  {
    if k == 0 then NoneLoaded(f.count)
    else if run[k - 1].pc >= blocks[run[k - 1].block].end then LoadedAt(f, blocks, run, k - 1)
    else Load(f.code[run[k - 1].pc], LoadedAt(f, blocks, run, k - 1))
  }

  /** Every constant the facts claim is the one loaded. */
  ghost predicate ConstantsHold(s: Flow, loaded: seq<Option<nat>>) {
    |s.constants| == |loaded| && forall slot | 0 <= slot < |loaded| && s.constants[slot].Some? :: loaded[slot] == s.constants[slot]
  }

  lemma {:induction false} IncomingConstants(f: Subject, blocks: seq<Block>, outputs: seq<Flow>, b: nat, k: nat, from: nat, loaded: seq<Option<nat>>)
    requires WellFormed(f, blocks) && |outputs| == |blocks| && AllSized(f, outputs) && b < |blocks|
    requires from < k <= |blocks[b].predecessors| && blocks[blocks[b].predecessors[from]].reachable
    requires ConstantsHold(outputs[blocks[b].predecessors[from]], loaded)
    ensures IncomingUpTo(f, blocks, outputs, AllComputed(|blocks|), b, k).Some?
    ensures ConstantsHold(IncomingUpTo(f, blocks, outputs, AllComputed(|blocks|), b, k).value, loaded)
  {
    if from < k - 1 {
      IncomingConstants(f, blocks, outputs, b, k - 1, from, loaded);
    }
  }

  lemma {:induction false} EntryConstants(f: Subject, blocks: seq<Block>, outputs: seq<Flow>, k: nat)
    requires WellFormed(f, blocks) && |outputs| == |blocks| && AllSized(f, outputs) && k <= |blocks[0].predecessors|
    ensures IncomingUpTo(f, blocks, outputs, AllComputed(|blocks|), 0, k).Some?
    ensures ConstantsHold(IncomingUpTo(f, blocks, outputs, AllComputed(|blocks|), 0, k).value, NoneLoaded(f.count))
  {
    if 0 < k {
      EntryConstants(f, blocks, outputs, k - 1);
    }
  }

  /** A join keeps a constant exactly if both sides claim it. */
  lemma JoinedConstants(f: Subject, a: Flow, b: Flow, slot: nat, n: nat)
    requires Sized(f, a) && Sized(f, b) && slot < f.count
    ensures JoinFlows(f, a, b).constants[slot] == Some(n) <==> a.constants[slot] == Some(n) && b.constants[slot] == Some(n)
  {
  }

  /** Loads and moves pass constants on; every other output forgets them. */
  lemma LoadHolds(f: Subject, i: Instruction, s: Flow, loaded: seq<Option<nat>>)
    requires Sized(f, s) && Fits(f, i) && ConstantsHold(s, loaded)
    ensures Transfer(f, i, s).constants == Load(i, s.constants) && ConstantsHold(Transfer(f, i, s), Load(i, loaded))
  {
    if i.Move? {
      assert Inputs(i)[0] == i.src;
    }
  }

  lemma ConstantsAcross(f: Subject, blocks: seq<Block>, outputs: seq<Flow>, c: Config, after: Config, loaded: seq<Option<nat>>)
    requires WellFormed(f, blocks) && FlowChecked(f, blocks) && Certified(f, blocks, outputs)
    requires Covered(f, blocks, outputs, c) && Covered(f, blocks, outputs, after)
    requires c.pc == blocks[c.block].end && Next(f, blocks, c, after) && ConstantsHold(Facts(f, blocks, outputs, c), loaded)
    ensures ConstantsHold(Facts(f, blocks, outputs, after), loaded)
  {
    assert BlockCertified(f, blocks, outputs, c.block);
    assert EdgesChecked(f, blocks, c.block);
    var b := after.block;
    var from :| 0 <= from < |blocks[b].predecessors| && blocks[b].predecessors[from] == c.block;
    IncomingConstants(f, blocks, outputs, b, |blocks[b].predecessors|, from, loaded);
  }

  lemma ConstantsStep(f: Subject, blocks: seq<Block>, outputs: seq<Flow>, run: seq<Config>, k: nat)
    requires WellFormed(f, blocks) && FlowChecked(f, blocks) && Certified(f, blocks, outputs)
    requires IsRun(f, blocks, run) && k + 1 < |run| && Covered(f, blocks, outputs, run[k]) && Covered(f, blocks, outputs, run[k + 1])
    requires ConstantsHold(Facts(f, blocks, outputs, run[k]), LoadedAt(f, blocks, run, k))
    ensures ConstantsHold(Facts(f, blocks, outputs, run[k + 1]), LoadedAt(f, blocks, run, k + 1))
  {
    var c, after, loaded := run[k], run[k + 1], LoadedAt(f, blocks, run, k);
    assert Next(f, blocks, c, after);
    if c.pc < blocks[c.block].end {
      AtNext(f, blocks, c.block, Solution(f, blocks, outputs, c.block), c.pc);
      LoadHolds(f, f.code[c.pc], Facts(f, blocks, outputs, c), loaded);
    } else {
      ConstantsAcross(f, blocks, outputs, c, after, loaded);
    }
  }

  /** On every run of a certified function, a slot claimed to hold a constant holds exactly the number loaded there. */
  lemma {:induction false} ClaimedConstantsHold(f: Subject, blocks: seq<Block>, outputs: seq<Flow>, run: seq<Config>, k: nat)
    requires WellFormed(f, blocks) && FlowChecked(f, blocks) && Certified(f, blocks, outputs)
    requires IsRun(f, blocks, run) && k < |run|
    ensures Covered(f, blocks, outputs, run[k])
    ensures ConstantsHold(Facts(f, blocks, outputs, run[k]), LoadedAt(f, blocks, run, k))
  {
    RunCovered(f, blocks, outputs, run, k);
    if k == 0 {
      EntryConstants(f, blocks, outputs, |blocks[0].predecessors|);
    } else {
      ClaimedConstantsHold(f, blocks, outputs, run, k - 1);
      ConstantsStep(f, blocks, outputs, run, k - 1);
    }
  }
}
