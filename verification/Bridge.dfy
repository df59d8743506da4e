/** The bridge-method recogniser and the executable origin map (verifier.rs). */
module Bridge {
  import opened Wrappers

  datatype Instruction =
    | Move(dst: nat, src: nat)
    | Call(result: Option<nat>, callee: nat, args: seq<nat>)
    | Return(value: Option<nat>)
    | Other

  /** A candidate bridge: its code, its arity and the slots its parameters arrive in. */
  datatype Function = Function(code: seq<Instruction>, params: nat, homes: seq<nat>)

  ghost predicate Distinct(s: seq<nat>) {
    forall i, j | 0 <= i < j < |s| :: s[i] != s[j]
  }

  /** The retained moves: one per argument that is not read from its home, in argument order. */
  function Transport(args: seq<nat>, homes: seq<nat>, n: nat): seq<Instruction>
    requires n <= |args| == |homes|
  {
    if n == 0 then []
    else Transport(args, homes, n - 1) + (if args[n - 1] == homes[n - 1] then [] else [Move(args[n - 1], homes[n - 1])])
  }

  /** A moved argument is no parameter home and differs from every other moved argument. */
  ghost predicate Separate(args: seq<nat>, homes: seq<nat>, n: nat)
    requires n <= |args| == |homes|
  {
    && (forall i | 0 <= i < n && args[i] != homes[i] :: args[i] !in homes)
    && (forall i, j | 0 <= i < j < n && args[i] != homes[i] && args[j] != homes[j] :: args[i] != args[j])
  }

  /** The shape of an accepted bridge: transport, one call of the wanted target, return of its result. */
  ghost predicate IsBridge(f: Function, targets: nat -> bool) {
    && 2 <= |f.code|
    && var call, ret := f.code[|f.code| - 2], f.code[|f.code| - 1];
    && call.Call? && ret.Return? && call.result.Some? && ret.value == call.result
    && targets(call.callee)
    && |f.homes| == f.params && |call.args| == f.params
    && Distinct(f.homes)
    && Separate(call.args, f.homes, f.params)
    && f.code[..|f.code| - 2] == Transport(call.args, f.homes, f.params)
  }

  lemma {:induction false} TransportShort(args: seq<nat>, homes: seq<nat>, n: nat)
    requires n <= |args| == |homes|
    ensures |Transport(args, homes, n)| <= n
  {
    if 0 < n {
      TransportShort(args, homes, n - 1);
    }
  }

  lemma {:induction false} TransportPrefix(args: seq<nat>, homes: seq<nat>, m: nat, n: nat)
    requires m <= n <= |args| == |homes|
    ensures Transport(args, homes, m) <= Transport(args, homes, n)
  {
    if m < n {
      TransportPrefix(args, homes, m, n - 1);
    }
  }

  /** Compares arguments with homes, consuming one retained move per relocated argument. */
  method MatchTransport(transport: seq<Instruction>, args: seq<nat>, homes: seq<nat>) returns (ok: bool)
    requires |args| == |homes|
    ensures ok <==> Separate(args, homes, |args|) && transport == Transport(args, homes, |args|)
  {
    var destinations: set<nat> := {};
    var used := 0;
    for i := 0 to |args|
      invariant used <= |transport| && transport[..used] == Transport(args, homes, i)
      invariant Separate(args, homes, i)
      invariant forall x :: x in destinations <==> exists k | 0 <= k < i && args[k] != homes[k] :: args[k] == x
    {
      if args[i] != homes[i] {
        TransportPrefix(args, homes, i + 1, |args|);
        if args[i] in homes || args[i] in destinations || used >= |transport| || transport[used] != Move(args[i], homes[i]) {
          assert transport == Transport(args, homes, |args|) && used < |transport| ==>
            transport[used] == Transport(args, homes, i + 1)[used];
          return false;
        }
        destinations := destinations + {args[i]};
        assert transport[..used + 1] == transport[..used] + [transport[used]];
        used := used + 1;
      }
    }
    assert used == |transport| ==> transport[..used] == transport;
    return used == |transport|;
  }

  method AllDistinct(s: seq<nat>) returns (ok: bool)
    ensures ok <==> Distinct(s)
  {
    var seen: set<nat> := {};
    for i := 0 to |s|
      invariant Distinct(s[..i]) && forall x :: x in seen <==> x in s[..i]
    {
      if s[i] in seen {
        return false;
      }
      seen := seen + {s[i]};
      assert s[..i + 1] == s[..i] + [s[i]];
    }
    assert s[..|s|] == s;
    return true;
  }

  /** The recogniser accepts exactly the bridges. */
  method Recognise(f: Function, targets: nat -> bool) returns (ok: bool)
    ensures ok <==> IsBridge(f, targets)
  {
    if |f.code| < 2 {
      return false;
    }
    var call, ret := f.code[|f.code| - 2], f.code[|f.code| - 1];
    if !call.Call? || !ret.Return? || call.result.None? || ret.value.None? {
      return false;
    }
    var transport := f.code[..|f.code| - 2];
    if ret.value != call.result || |transport| > f.params || |f.homes| != f.params {
      if |f.homes| == f.params == |call.args| {
        TransportShort(call.args, f.homes, f.params);
      }
      return false;
    }
    if |call.args| != f.params || !targets(call.callee) {
      return false;
    }
    var distinct := AllDistinct(f.homes);
    if !distinct {
      return false;
    }
    ok := MatchTransport(transport, call.args, f.homes);
  }

  // ---------------------------------------------------- what a bridge computes

  /** The calls made and the value returned. */
  datatype Outcome<V> = Returned(calls: seq<(nat, seq<V>)>, value: V) | Stuck

  function Read<V>(frame: map<nat, V>, slots: seq<nat>): seq<V>
    requires forall k | 0 <= k < |slots| :: slots[k] in frame
  {
    seq(|slots|, k requires 0 <= k < |slots| => frame[slots[k]])
  }

  /** Runs straight-line code; `answer` is what the callee returns. */
  function Run<V>(code: seq<Instruction>, frame: map<nat, V>, calls: seq<(nat, seq<V>)>, answer: (nat, seq<V>) -> V): Outcome<V>
    decreases |code|
  {
    if code == [] then Stuck
    else
      match code[0]
      case Move(dst, src) => if src in frame then Run(code[1..], frame[dst := frame[src]], calls, answer) else Stuck
      case Call(result, callee, args) =>
        if forall k | 0 <= k < |args| :: args[k] in frame then
          var values := Read(frame, args);
          Run(code[1..], if result.Some? then frame[result.value := answer(callee, values)] else frame,
              calls + [(callee, values)], answer)
        else Stuck
      case Return(Some(value)) => if value in frame then Returned(calls, frame[value]) else Stuck
      case _ => Stuck
  }

  /** Parameters are in their homes, and the first `n` arguments are in place. */
  ghost predicate InPlace<V>(frame: map<nat, V>, args: seq<nat>, homes: seq<nat>, values: seq<V>, n: nat)
    requires n <= |args| == |homes| == |values|
  {
    && (forall k | 0 <= k < |homes| :: homes[k] in frame && frame[homes[k]] == values[k])
    && (forall k | 0 <= k < n :: args[k] in frame && frame[args[k]] == values[k])
  }

  /** One retained move puts its argument in place and disturbs neither a parameter nor an earlier argument. */
  lemma MoveInPlace<V>(frame: map<nat, V>, args: seq<nat>, homes: seq<nat>, values: seq<V>, n: nat)
    requires n < |args| == |homes| == |values|
    requires args[n] != homes[n] && Separate(args, homes, |args|) && InPlace(frame, args, homes, values, n)
    ensures InPlace(frame[args[n] := frame[homes[n]]], args, homes, values, n + 1)
  {
  }

  lemma MoveRuns<V>(move: Instruction, tail: seq<Instruction>, frame: map<nat, V>, answer: (nat, seq<V>) -> V)
    requires move.Move? && move.src in frame
    ensures Run([move] + tail, frame, [], answer) == Run(tail, frame[move.dst := frame[move.src]], [], answer)
  {
  }

  /** Running the transport puts every argument in place without disturbing any parameter. */
  lemma {:induction false} TransportRuns<V>(args: seq<nat>, homes: seq<nat>, values: seq<V>, n: nat, tail: seq<Instruction>,
                                            frame: map<nat, V>, answer: (nat, seq<V>) -> V) returns (after: map<nat, V>)
    requires n <= |args| == |homes| == |values|
    requires Separate(args, homes, |args|) && InPlace(frame, args, homes, values, 0)
    ensures InPlace(after, args, homes, values, n)
    ensures Run(Transport(args, homes, n) + tail, frame, [], answer) == Run(tail, after, [], answer)
  {
    if n == 0 {
      after := frame;
      assert [] + tail == tail;
    } else if args[n - 1] == homes[n - 1] {
      after := TransportRuns(args, homes, values, n - 1, tail, frame, answer);
      assert Transport(args, homes, n) == Transport(args, homes, n - 1);
    } else {
      var move := Move(args[n - 1], homes[n - 1]);
      var before := TransportRuns(args, homes, values, n - 1, [move] + tail, frame, answer);
      assert Transport(args, homes, n - 1) + ([move] + tail) == Transport(args, homes, n) + tail;
      MoveInPlace(before, args, homes, values, n - 1);
      MoveRuns(move, tail, before, answer);
      after := before[move.dst := before[move.src]];
    }
  }

  /** A call whose result is returned at once. */
  lemma CallRuns<V>(call: Instruction, ret: Instruction, values: seq<V>, frame: map<nat, V>, answer: (nat, seq<V>) -> V)
    requires call.Call? && ret.Return? && call.result.Some? && ret.value == call.result && |values| == |call.args|
    requires forall k | 0 <= k < |call.args| :: call.args[k] in frame && frame[call.args[k]] == values[k]
    ensures Run([call, ret], frame, [], answer) == Returned([(call.callee, values)], answer(call.callee, values))
  {
    var calls := [(call.callee, values)];
    var last := frame[call.result.value := answer(call.callee, values)];
    assert Read(frame, call.args) == values;
    assert [call, ret][1..] == [ret] && [] + calls == calls;
    assert Run([ret], last, calls, answer) == Returned(calls, answer(call.callee, values));
  }

  /** A recognised bridge calls its target once, with exactly its parameters in order, and returns the answer. */
  lemma BridgeForwards<V>(f: Function, targets: nat -> bool, values: seq<V>, frame: map<nat, V>, answer: (nat, seq<V>) -> V)
    requires IsBridge(f, targets) && |values| == f.params
    requires forall k | 0 <= k < f.params :: f.homes[k] in frame && frame[f.homes[k]] == values[k]
    ensures var callee := f.code[|f.code| - 2].callee;
            targets(callee) && Run(f.code, frame, [], answer) == Returned([(callee, values)], answer(callee, values))
  {
    var call, ret := f.code[|f.code| - 2], f.code[|f.code| - 1];
    var after := TransportRuns(call.args, f.homes, values, f.params, [call, ret], frame, answer);
    assert f.code == f.code[..|f.code| - 2] + [call, ret];
    CallRuns(call, ret, values, after, answer);
  }

  /** Every forwarding function built the usual way is a bridge: moves for relocated arguments, the call, the return. */
  lemma ForwarderIsBridge(args: seq<nat>, homes: seq<nat>, result: nat, callee: nat, targets: nat -> bool)
    requires |args| == |homes| && Distinct(homes) && Separate(args, homes, |args|) && targets(callee)
    ensures IsBridge(Function(Transport(args, homes, |args|) + [Call(Some(result), callee, args), Return(Some(result))], |args|, homes), targets)
  {
    var moves := Transport(args, homes, |args|);
    var code := moves + [Call(Some(result), callee, args), Return(Some(result))];
    assert code[..|code| - 2] == moves;
  }

  // -------------------------------------------------------------- origin map

  const MAX_INSTRUCTIONS: nat := 1_000_000

  /** The instruction numbers of an accepted origin table. */
  predicate OriginsOk(origins: seq<nat>, instructions: nat) {
    && origins != [] && origins[0] == 0 && origins[|origins| - 1] + 1 == instructions
    && (forall i | 0 <= i < |origins| - 1 :: origins[i] <= origins[i + 1] <= origins[i] + 1)
    && |origins| <= MAX_INSTRUCTIONS
    && (forall i | 0 <= i < |origins| :: origins[i] < instructions)
  }

  lemma {:induction false} OriginsRise(origins: seq<nat>, i: nat, j: nat)
    requires (forall k | 0 <= k < |origins| - 1 :: origins[k] <= origins[k + 1] <= origins[k] + 1) && i <= j < |origins|
    ensures origins[i] <= origins[j]
    decreases j - i
  {
    if i < j {
      OriginsRise(origins, i, j - 1);
      assert origins[j - 1] <= origins[j - 1 + 1];
    }
  }

  /** The first origin of an instruction at or below the last origin's. */
  lemma {:induction false} FirstOrigin(origins: seq<nat>, last: nat, pc: nat) returns (lo: nat)
    requires origins != [] && origins[0] == 0 && last < |origins| && pc <= origins[last]
    requires forall k | 0 <= k < |origins| - 1 :: origins[k] <= origins[k + 1] <= origins[k] + 1
    ensures lo <= last && origins[lo] == pc && forall i | 0 <= i < lo :: origins[i] < pc
    decreases last
  {
    if last == 0 {
      lo := 0;
    } else {
      assert origins[last - 1] <= origins[last - 1 + 1] <= origins[last - 1] + 1;
      if pc <= origins[last - 1] {
        lo := FirstOrigin(origins, last - 1, pc);
      } else {
        lo := last;
        forall i | 0 <= i < lo ensures origins[i] < pc {
          OriginsRise(origins, i, last - 1);
        }
      }
    }
  }

  /** Every instruction is covered by one nonempty contiguous run of origins. */
  lemma OriginsCover(origins: seq<nat>, instructions: nat, pc: nat) returns (lo: nat, hi: nat)
    requires OriginsOk(origins, instructions) && pc < instructions
    ensures lo < hi <= |origins|
    ensures forall i | 0 <= i < |origins| :: origins[i] == pc <==> lo <= i < hi
  {
    lo := FirstOrigin(origins, |origins| - 1, pc);
    if pc + 1 == instructions {
      hi := |origins|;
    } else {
      hi := FirstOrigin(origins, |origins| - 1, pc + 1);
      if hi <= lo {
        OriginsRise(origins, hi, lo);
      }
    }
    forall i | 0 <= i < |origins| ensures origins[i] == pc <==> lo <= i < hi {
      if lo <= i {
        OriginsRise(origins, lo, i);
      }
      if hi <= i < |origins| {
        OriginsRise(origins, hi, i);
      }
    }
  }

  lemma {:induction false} CoveredIsSteady(origins: seq<nat>, instructions: nat, i: nat)
    requires (forall k, j | 0 <= k <= j < |origins| :: origins[k] <= origins[j]) && i + 1 < |origins|
    requires forall pc: nat | pc < instructions :: pc in origins
    requires origins[i + 1] < instructions
    ensures origins[i + 1] <= origins[i] + 1
  {
    if 0 < origins[i + 1] {
      var pc: nat := origins[i + 1] - 1;
      assert pc in origins;
      var j :| 0 <= j < |origins| && origins[j] == pc;
      assert j <= i;
      assert origins[j] <= origins[i];
    }
  }

  /** An origin table is accepted exactly if it is nondecreasing, names only instructions, and names every one of them. */
  lemma OriginsExactly(origins: seq<nat>, instructions: nat)
    ensures OriginsOk(origins, instructions) <==>
              && 0 < |origins| <= MAX_INSTRUCTIONS
              && (forall i, j | 0 <= i <= j < |origins| :: origins[i] <= origins[j])
              && (forall i | 0 <= i < |origins| :: origins[i] < instructions)
              && (forall pc: nat | pc < instructions :: pc in origins)
  {
    if OriginsOk(origins, instructions) {
      forall i, j | 0 <= i <= j < |origins| ensures origins[i] <= origins[j] {
        OriginsRise(origins, i, j);
      }
      forall pc: nat | pc < instructions ensures pc in origins {
        var lo := FirstOrigin(origins, |origins| - 1, pc);
      }
    } else if && 0 < |origins| <= MAX_INSTRUCTIONS
              && (forall i, j | 0 <= i <= j < |origins| :: origins[i] <= origins[j])
              && (forall i | 0 <= i < |origins| :: origins[i] < instructions)
              && (forall pc: nat | pc < instructions :: pc in origins) {
      CompleteIsOk(origins, instructions);
    }
  }

  lemma CompleteIsOk(origins: seq<nat>, instructions: nat)
    requires 0 < |origins| <= MAX_INSTRUCTIONS
    requires forall i, j | 0 <= i <= j < |origins| :: origins[i] <= origins[j]
    requires forall i | 0 <= i < |origins| :: origins[i] < instructions
    requires forall pc: nat | pc < instructions :: pc in origins
    ensures OriginsOk(origins, instructions)
  {
    assert origins[0] < instructions;
    var zero: nat, final: nat := 0, instructions - 1;
    assert zero in origins && final in origins;
    var first :| 0 <= first < |origins| && origins[first] == zero;
    var last :| 0 <= last < |origins| && origins[last] == final;
    assert origins[0] <= origins[first] && origins[last] <= origins[|origins| - 1];
    forall i | 0 <= i < |origins| - 1 ensures origins[i] <= origins[i + 1] <= origins[i] + 1 {
      CoveredIsSteady(origins, instructions, i);
    }
  }
}
