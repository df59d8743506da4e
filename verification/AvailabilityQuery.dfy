/** The pruned stabbing query of the availability index against a plain filter and sort. */
module AvailabilityQuery {
  import opened Metering
  import opened Wrappers
  import opened Availability

  predicate Covers(r: Range, pc: nat) {
    r.start <= pc < r.end
  }

  // --------------------------------------------------- filtering the index

  /** The covering nodes of a slice, by a plain scan. */
  ghost function Hits(s: seq<Node>, lo: nat, hi: nat, pc: nat): seq<Node>
    requires lo <= hi <= |s|
  {
    if lo == hi then [] else
    Hits(s, lo, hi - 1, pc) + (if Covers(s[hi - 1].range, pc) then [s[hi - 1]] else [])
  }

  ghost function Slots(s: seq<Node>): seq<nat> {
    seq(|s|, i requires 0 <= i < |s| => s[i].range.slot)
  }

  lemma {:induction false} HitsSplit(s: seq<Node>, lo: nat, mid: nat, hi: nat, pc: nat)
    requires lo <= mid <= hi <= |s|
    ensures Hits(s, lo, hi, pc) == Hits(s, lo, mid, pc) + Hits(s, mid, hi, pc)
    decreases hi
  {
    if mid < hi {
      HitsSplit(s, lo, mid, hi - 1, pc);
      assert Hits(s, lo, hi, pc) == Hits(s, lo, mid, pc) + Hits(s, mid, hi, pc);
    } else {
      assert Hits(s, mid, hi, pc) == [];
    }
  }

  lemma HitsAround(s: seq<Node>, lo: nat, mid: nat, hi: nat, pc: nat)
    requires lo <= mid < hi <= |s|
    ensures Hits(s, lo, hi, pc)
         == Hits(s, lo, mid, pc) + (if Covers(s[mid].range, pc) then [s[mid]] else []) + Hits(s, mid + 1, hi, pc)
  {
    HitsSplit(s, lo, mid + 1, hi, pc);
    assert Hits(s, lo, mid + 1, pc) == Hits(s, lo, mid, pc) + (if Covers(s[mid].range, pc) then [s[mid]] else []);
  }

  lemma {:induction false} NoHits(s: seq<Node>, lo: nat, hi: nat, pc: nat)
    requires lo <= hi <= |s| && forall i | lo <= i < hi :: !Covers(s[i].range, pc)
    ensures Hits(s, lo, hi, pc) == []
  {
    if lo < hi {
      NoHits(s, lo, hi - 1, pc);
    }
  }

  lemma SomeHit(s: seq<Node>, lo: nat, i: nat, hi: nat, pc: nat)
    requires lo <= i < hi <= |s| && Covers(s[i].range, pc)
    ensures 1 <= |Hits(s, lo, hi, pc)|
  {
  }

  /** A subtree whose largest end is not beyond `pc` covers nothing. */
  lemma PruneIsSound(s: seq<Node>, lo: nat, hi: nat, pc: nat)
    requires lo < hi <= |s| && MaxEnd(s, lo, hi) <= pc
    ensures Hits(s, lo, hi, pc) == []
  {
    var best := MaxEndIsMaximum(s, lo, hi);
    NoHits(s, lo, hi, pc);
  }

  // ------------------------------------------------------------ query work

  /** Height of the implicit tree over `n` nodes. */
  function Height(n: nat): nat {
    if n == 0 then 0 else 1 + Log2(n)
  }

  lemma HeightShrinks(lo: nat, hi: nat)
    requires lo < hi
    ensures Height(Mid(lo, hi) - lo) <= Height(hi - lo) - 1
    ensures Height(hi - (Mid(lo, hi) + 1)) <= Height(hi - lo) - 1
  {
    var n := hi - lo;
    assert Mid(lo, hi) - lo == n / 2;
    if 0 < hi - (Mid(lo, hi) + 1) {
      Log2Monotone(hi - (Mid(lo, hi) + 1), n / 2);
    }
  }

  /** One if the slice reaches past `pc`: the only way to be expanded without containing a hit. */
  ghost function Beyond(s: seq<Node>, lo: nat, hi: nat, pc: nat): nat
    requires lo <= hi <= |s|
  {
    if lo < hi && pc < s[hi - 1].range.start then 1 else 0
  }

  /** Charges for `k` hits and `b` boundary paths in a tree of height `h`. */
  ghost function Work(k: nat, b: nat, h: nat): nat {
    if h == 0 then 1 + k else Work(k, b, h - 1) + 2 * (k + b)
  }

  lemma {:induction false} WorkClosed(k: nat, b: nat, h: nat)
    ensures Work(k, b, h) == 1 + 2 * ((k + b) * h) + k
  {
    if 0 < h {
      WorkClosed(k, b, h - 1);
      assert (k + b) * h == (k + b) * (h - 1) + (k + b);
    }
  }

  /** The allowance for one slice. */
  ghost function Allowance(s: seq<Node>, lo: nat, hi: nat, pc: nat): nat
    requires lo <= hi <= |s|
  {
    if lo == hi then 0 else Work(|Hits(s, lo, hi, pc)|, Beyond(s, lo, hi, pc), Height(hi - lo))
  }

  lemma {:induction false} WorkMonotone(k: nat, b: nat, h: nat, h': nat)
    requires h <= h'
    ensures 1 <= Work(k, b, h) <= Work(k, b, h')
  {
    if h < h' {
      WorkMonotone(k, b, h, h' - 1);
    } else if 0 < h {
      WorkMonotone(k, b, h - 1, h' - 1);
    }
  }

  /** An expanded node is paid for by a hit below it or by the one path along the boundary. */
  lemma {:induction false} WorkCombine(kl: nat, e: nat, kr: nat, b: nat, h: nat)
    requires 1 <= h && 1 <= kl + e + kr + b
    ensures 1 + Work(kl, 0, h - 1) + e + Work(kr, b, h - 1) <= Work(kl + e + kr, b, h)
  {
    if 1 < h {
      WorkCombine(kl, e, kr, b, h - 1);
    }
  }

  lemma {:induction false} WorkDescend(k: nat, b: nat, h: nat)
    requires 1 <= h && b <= 1
    ensures 1 + Work(k, b, h - 1) <= Work(k, 1, h)
  {
    if 1 < h {
      WorkDescend(k, b, h - 1);
    }
  }

  lemma AllowanceWithin(s: seq<Node>, lo: nat, hi: nat, pc: nat, h: nat)
    requires lo <= hi <= |s| && Height(hi - lo) <= h
    ensures Allowance(s, lo, hi, pc) <= Work(|Hits(s, lo, hi, pc)|, Beyond(s, lo, hi, pc), h)
  {
  }

  lemma LeftHits(s: seq<Node>, lo: nat, mid: nat, hi: nat, pc: nat)
    requires Sorted(s) && lo <= mid < hi <= |s| && pc < s[mid].range.start
    ensures Hits(s, lo, hi, pc) == Hits(s, lo, mid, pc) && Beyond(s, lo, hi, pc) == 1
  {
  }

  /** An expanded node starting beyond `pc` sends the query to its left part only. */
  lemma LeftOnly(s: seq<Node>, lo: nat, hi: nat, pc: nat)
    requires Sorted(s) && lo < hi <= |s| && pc < s[Mid(lo, hi)].range.start
    ensures Hits(s, lo, hi, pc) == Hits(s, lo, Mid(lo, hi), pc)
    ensures 1 + Allowance(s, lo, Mid(lo, hi), pc) <= Allowance(s, lo, hi, pc)
  {
    var mid, h := Mid(lo, hi), Height(hi - lo);
    LeftHits(s, lo, mid, hi, pc);
    HeightShrinks(lo, hi);
    AllowanceWithin(s, lo, mid, pc, h - 1);
    WorkDescend(|Hits(s, lo, mid, pc)|, Beyond(s, lo, mid, pc), h);
  }

  lemma BothHits(s: seq<Node>, lo: nat, mid: nat, hi: nat, pc: nat)
    requires Sorted(s) && lo <= mid < hi <= |s| && s[mid].range.start <= pc < MaxEnd(s, lo, hi)
    ensures |Hits(s, lo, hi, pc)| == |Hits(s, lo, mid, pc)| + (if pc < s[mid].range.end then 1 else 0) + |Hits(s, mid + 1, hi, pc)|
    ensures Beyond(s, lo, mid, pc) == 0 && Beyond(s, mid + 1, hi, pc) == Beyond(s, lo, hi, pc)
    ensures 1 <= |Hits(s, lo, hi, pc)| + Beyond(s, lo, hi, pc)
  {
    HitsAround(s, lo, mid, hi, pc);
    assert lo < mid ==> Less(s[mid - 1], s[mid]);
    if Beyond(s, lo, hi, pc) == 0 {
      var best := MaxEndIsMaximum(s, lo, hi);
      assert best < hi - 1 ==> Less(s[best], s[hi - 1]);
      SomeHit(s, lo, best, hi, pc);
    }
  }

  /** An expanded node starting at or before `pc` is answered by left part, itself and right part. */
  lemma BothSides(s: seq<Node>, lo: nat, hi: nat, pc: nat)
    requires Sorted(s) && lo < hi <= |s| && s[Mid(lo, hi)].range.start <= pc < MaxEnd(s, lo, hi)
    ensures 1 + Allowance(s, lo, Mid(lo, hi), pc) + (if pc < s[Mid(lo, hi)].range.end then 1 else 0)
              + Allowance(s, Mid(lo, hi) + 1, hi, pc)
         <= Allowance(s, lo, hi, pc)
  {
    var mid, h := Mid(lo, hi), Height(hi - lo);
    BothHits(s, lo, mid, hi, pc);
    HeightShrinks(lo, hi);
    AllowanceWithin(s, lo, mid, pc, h - 1);
    AllowanceWithin(s, mid + 1, hi, pc, h - 1);
    WorkCombine(|Hits(s, lo, mid, pc)|, if pc < s[mid].range.end then 1 else 0, |Hits(s, mid + 1, hi, pc)|,
                Beyond(s, lo, hi, pc), h);
  }

  // ------------------------------------------------------------- the query

  /** What a query may report: all hits on success, some leading hits when a charge is refused. */
  ghost predicate Reported<E>(failure: Option<E>, out: seq<nat>, hits: seq<Node>) {
    if failure.None? then out == Slots(hits) else out <= Slots(hits)
  }

  ghost function OwnSlot(node: Node, pc: nat): seq<nat> {
    if Covers(node.range, pc) then [node.range.slot] else []
  }

  lemma SlotsAround(s: seq<Node>, lo: nat, mid: nat, hi: nat, pc: nat)
    requires lo <= mid < hi <= |s|
    ensures Slots(Hits(s, lo, hi, pc)) == Slots(Hits(s, lo, mid, pc)) + OwnSlot(s[mid], pc) + Slots(Hits(s, mid + 1, hi, pc))
  {
    HitsAround(s, lo, mid, hi, pc);
  }

  /** A query refused in the left part, or at the node itself, reported leading hits only. */
  lemma ReportedEarly<E>(failure: Option<E>, out: seq<nat>, s: seq<Node>, lo: nat, mid: nat, hi: nat, pc: nat)
    requires lo <= mid < hi <= |s| && failure.Some?
    requires out <= Slots(Hits(s, lo, mid, pc))
    ensures Reported(failure, out, Hits(s, lo, hi, pc))
  {
  }

  lemma ReportedBoth<E>(failure: Option<E>, out: seq<nat>, rest: seq<nat>, s: seq<Node>, lo: nat, mid: nat, hi: nat, pc: nat)
    requires lo <= mid < hi <= |s|
    requires out == Slots(Hits(s, lo, mid, pc)) + OwnSlot(s[mid], pc)
    requires Reported(failure, rest, Hits(s, mid + 1, hi, pc))
    ensures Reported(failure, out + rest, Hits(s, lo, hi, pc))
  {
    SlotsAround(s, lo, mid, hi, pc);
  }

  /** The nodes a query looks at: a slice without a longer end is left at its midpoint, a late midpoint hides its right part. */
  ghost function Visited(s: seq<Node>, lo: nat, hi: nat, pc: nat): nat
    requires lo <= hi <= |s|
    decreases hi - lo
  {
    if lo == hi then 0
    else if MaxEnd(s, lo, hi) <= pc then 1
    else 1 + Visited(s, lo, Mid(lo, hi), pc) + (if s[Mid(lo, hi)].range.start <= pc then Visited(s, Mid(lo, hi) + 1, hi, pc) else 0)
  }

  /** What a completed query charges: one unit per node it looks at and one per hit. */
  ghost function Cost(s: seq<Node>, lo: nat, hi: nat, pc: nat): nat
    requires lo <= hi <= |s|
  {
    Visited(s, lo, hi, pc) + |Hits(s, lo, hi, pc)|
  }

  lemma CostPruned(s: seq<Node>, lo: nat, hi: nat, pc: nat)
    requires lo < hi <= |s| && MaxEnd(s, lo, hi) <= pc
    ensures Cost(s, lo, hi, pc) == 1
  {
    PruneIsSound(s, lo, hi, pc);
  }

  lemma CostLeft(s: seq<Node>, lo: nat, hi: nat, pc: nat)
    requires Sorted(s) && lo < hi <= |s| && pc < s[Mid(lo, hi)].range.start && pc < MaxEnd(s, lo, hi)
    ensures Cost(s, lo, hi, pc) == 1 + Cost(s, lo, Mid(lo, hi), pc)
  {
    LeftHits(s, lo, Mid(lo, hi), hi, pc);
  }

  lemma CostBoth(s: seq<Node>, lo: nat, hi: nat, pc: nat)
    requires Sorted(s) && lo < hi <= |s| && s[Mid(lo, hi)].range.start <= pc < MaxEnd(s, lo, hi)
    ensures Cost(s, lo, hi, pc) ==
              1 + Cost(s, lo, Mid(lo, hi), pc) + (if pc < s[Mid(lo, hi)].range.end then 1 else 0) + Cost(s, Mid(lo, hi) + 1, hi, pc)
  {
    BothHits(s, lo, Mid(lo, hi), hi, pc);
  }

  /** Every hit is at a node the query looks at. */
  lemma {:induction false} HitsAreVisited(s: seq<Node>, lo: nat, hi: nat, pc: nat)
    requires lo <= hi <= |s| && Sorted(s)
    ensures |Hits(s, lo, hi, pc)| <= Visited(s, lo, hi, pc)
    decreases hi - lo
  {
    if lo < hi {
      var mid := Mid(lo, hi);
      if MaxEnd(s, lo, hi) <= pc {
        PruneIsSound(s, lo, hi, pc);
      } else {
        HitsAreVisited(s, lo, mid, pc);
        HitsAreVisited(s, mid + 1, hi, pc);
        if s[mid].range.start <= pc {
          BothHits(s, lo, mid, hi, pc);
        } else {
          LeftHits(s, lo, mid, hi, pc);
        }
      }
    }
  }

  method Visit<E>(nodes: seq<Node>, lo: nat, hi: nat, pc: nat, meter: Meter<E>)
    returns (failure: Option<E>, out: seq<nat>, ghost depth: nat)
    requires lo <= hi <= |nodes| && Sorted(nodes) && Indexed(nodes, lo, hi)
    requires meter.Live()
    modifies meter
    ensures Reported(failure, out, Hits(nodes, lo, hi, pc))
    ensures meter.Ended(failure)
    ensures meter.spent <= old(meter.spent) + Allowance(nodes, lo, hi, pc)
    ensures failure.None? ==> meter.spent == old(meter.spent) + Cost(nodes, lo, hi, pc)
    ensures depth <= Height(hi - lo)
    decreases hi - lo, 1
  {
    failure, out, depth := None, [], 0;
    if lo == hi {
      return;
    }
    WorkMonotone(|Hits(nodes, lo, hi, pc)|, Beyond(nodes, lo, hi, pc), 0, Height(hi - lo));
    depth := 1;
    failure := meter.Charge(1);
    if failure.Some? {
      return;
    }
    var mid := Mid(lo, hi);
    if nodes[mid].maxEnd <= pc {
      PruneIsSound(nodes, lo, hi, pc);
      CostPruned(nodes, lo, hi, pc);
      return;
    }
    HeightShrinks(lo, hi);
    ghost var below;
    failure, out, below := Visit(nodes, lo, mid, pc, meter);
    depth := 1 + below;
    if nodes[mid].range.start <= pc {
      BothSides(nodes, lo, hi, pc);
      CostBoth(nodes, lo, hi, pc);
      if failure.Some? {
        ReportedEarly(failure, out, nodes, lo, mid, hi, pc);
        return;
      }
      failure, out, below := VisitRest(nodes, lo, mid, hi, pc, out, meter);
      depth := Max(depth, 1 + below);
    } else {
      LeftOnly(nodes, lo, hi, pc);
      CostLeft(nodes, lo, hi, pc);
    }
  }

  /** After the left part: the midpoint itself, if it covers `pc`, and the right part. */
  method VisitRest<E>(nodes: seq<Node>, lo: nat, mid: nat, hi: nat, pc: nat, found: seq<nat>, meter: Meter<E>)
    returns (failure: Option<E>, out: seq<nat>, ghost depth: nat)
    requires lo <= mid < hi <= |nodes| && Sorted(nodes) && Indexed(nodes, mid + 1, hi) && nodes[mid].range.start <= pc
    requires found == Slots(Hits(nodes, lo, mid, pc)) && meter.Live()
    modifies meter
    ensures Reported(failure, out, Hits(nodes, lo, hi, pc))
    ensures meter.Ended(failure)
    ensures meter.spent <= old(meter.spent) + OwnCharge(nodes[mid], pc) + Allowance(nodes, mid + 1, hi, pc)
    ensures failure.None? ==> meter.spent == old(meter.spent) + OwnCharge(nodes[mid], pc) + Cost(nodes, mid + 1, hi, pc)
    ensures depth <= Height(hi - (mid + 1))
    decreases hi - lo, 0
  {
    out, depth := found, 0;
    if pc < nodes[mid].range.end {
      failure := meter.Charge(1);
      if failure.Some? {
        ReportedEarly(failure, out, nodes, lo, mid, hi, pc);
        return;
      }
      out := out + [nodes[mid].range.slot];
    }
    var rest;
    failure, rest, depth := Visit(nodes, mid + 1, hi, pc, meter);
    ReportedBoth(failure, out, rest, nodes, lo, mid, hi, pc);
    out := out + rest;
  }

  /** The charge for reporting a node. */
  function OwnCharge(node: Node, pc: nat): nat {
    if pc < node.range.end then 1 else 0
  }

  // ------------------------------------------- the reference: filter and sort

  predicate Before(ranges: seq<Range>, i: nat, j: nat)
    requires i < |ranges| && j < |ranges|
  {
    ranges[i].start < ranges[j].start || (ranges[i].start == ranges[j].start && i < j)
  }

  /** Inserts record `i` into a list of record positions ordered by start, then position. */
  function Insert(ranges: seq<Range>, i: nat, s: seq<nat>): seq<nat>
    requires i < |ranges| && forall k | 0 <= k < |s| :: s[k] < |ranges|
  {
    if s == [] then [i]
    else if Before(ranges, i, s[0]) then [i] + s
    else [s[0]] + Insert(ranges, i, s[1..])
  }

  ghost predicate InOrder(ranges: seq<Range>, s: seq<nat>) {
    && (forall k | 0 <= k < |s| :: s[k] < |ranges|)
    && (forall a, b | 0 <= a < b < |s| :: Before(ranges, s[a], s[b]))
  }

  lemma {:induction false} InsertCorrect(ranges: seq<Range>, i: nat, s: seq<nat>)
    requires i < |ranges| && InOrder(ranges, s) && i !in s
    ensures InOrder(ranges, Insert(ranges, i, s))
    ensures forall x: nat :: x in Insert(ranges, i, s) <==> x == i || x in s
  {
    if s != [] && !Before(ranges, i, s[0]) {
      InsertCorrect(ranges, i, s[1..]);
      var t := Insert(ranges, i, s[1..]);
      assert s == [s[0]] + s[1..];
      forall b | 0 <= b < |t| ensures Before(ranges, s[0], t[b]) {
        assert t[b] in t;
        if t[b] != i {
          var k :| 0 <= k < |s[1..]| && s[1..][k] == t[b];
          assert s[k + 1] == t[b];
        }
      }
    }
  }

  /** Positions of the covering records among the first `n`, ordered by (start, position). */
  function Reference(ranges: seq<Range>, n: nat, pc: nat): (s: seq<nat>)
    requires n <= |ranges|
    ensures InOrder(ranges, s)
    ensures forall x: nat :: x in s <==> x < n && Covers(ranges[x], pc)
  {
    if n == 0 then [] else
    var s := Reference(ranges, n - 1, pc);
    if Covers(ranges[n - 1], pc) then InsertCorrect(ranges, n - 1, s); Insert(ranges, n - 1, s) else s
  }

  lemma HeadNotInTail(ranges: seq<Range>, s: seq<nat>)
    requires InOrder(ranges, s) && s != []
    ensures s[0] !in s[1..]
  {
  }

  /** An ordered list of positions is determined by its members. */
  lemma {:induction false} OrderedUnique(ranges: seq<Range>, s: seq<nat>, t: seq<nat>)
    requires InOrder(ranges, s) && InOrder(ranges, t)
    requires forall x: nat :: x in s <==> x in t
    ensures s == t
  {
    if s != [] || t != [] {
      var w := if s != [] then s[0] else t[0];
      assert w in s && w in t;
      assert s[0] in s && t[0] in t;
      assert s[0] == t[0];
      assert s == [s[0]] + s[1..] && t == [t[0]] + t[1..];
      HeadNotInTail(ranges, s);
      HeadNotInTail(ranges, t);
      forall x: nat ensures x in s[1..] <==> x in t[1..] {
        assert x in s <==> x == s[0] || x in s[1..];
        assert x in t <==> x == t[0] || x in t[1..];
      }
      OrderedUnique(ranges, s[1..], t[1..]);
    }
  }

  ghost function Ordinals(s: seq<Node>): seq<nat> {
    seq(|s|, i requires 0 <= i < |s| => s[i].ordinal)
  }

  lemma {:induction false} HitsInOrder(ranges: seq<Range>, s: seq<Node>, hi: nat, pc: nat)
    requires IsIndex(ranges, s) && hi <= |s|
    ensures forall k | 0 <= k < |Hits(s, 0, hi, pc)| ::
              var h := Hits(s, 0, hi, pc)[k]; h in s[..hi] && Records(ranges, h) && Covers(h.range, pc)
    ensures Sorted(Hits(s, 0, hi, pc))
  {
    if 0 < hi {
      HitsInOrder(ranges, s, hi - 1, pc);
      assert s[..hi] == s[..hi - 1] + [s[hi - 1]];
      var before, last := Hits(s, 0, hi - 1, pc), s[hi - 1];
      forall k | 0 <= k < |before| ensures Less(before[k], last) {
        var i :| 0 <= i < hi - 1 && s[i] == before[k];
      }
    }
  }

  lemma HitsComplete(ranges: seq<Range>, s: seq<Node>, pc: nat, x: nat)
    requires IsIndex(ranges, s) && x < |ranges| && Covers(ranges[x], pc)
    ensures x in Ordinals(Hits(s, 0, |s|, pc))
  {
    assert Present(s, x);
    var k :| 0 <= k < |s| && s[k].ordinal == x;
    assert Records(ranges, s[k]);
    HitsAround(s, 0, k, |s|, pc);
    var hits := Hits(s, 0, |s|, pc);
    var at := |Hits(s, 0, k, pc)|;
    assert hits[at] == s[k];
    assert Ordinals(hits)[at] == x;
  }

  /** The scan over the index and the filter-then-sort over the records list the same positions. */
  lemma HitsAreReference(ranges: seq<Range>, s: seq<Node>, pc: nat)
    requires IsIndex(ranges, s)
    ensures Ordinals(Hits(s, 0, |s|, pc)) == Reference(ranges, |ranges|, pc)
    ensures forall k | 0 <= k < |Hits(s, 0, |s|, pc)| :: Records(ranges, Hits(s, 0, |s|, pc)[k])
  {
    HitsInOrder(ranges, s, |s|, pc);
    var hits := Hits(s, 0, |s|, pc);
    var ords, reference := Ordinals(hits), Reference(ranges, |ranges|, pc);
    forall x: nat ensures x in ords <==> x in reference {
      if x in reference {
        HitsComplete(ranges, s, pc, x);
      }
      if x in ords {
        var k :| 0 <= k < |ords| && ords[k] == x;
        assert Records(ranges, hits[k]) && Covers(hits[k].range, pc);
      }
    }
    forall k | 0 <= k < |ords| ensures ords[k] < |ranges| {
      assert Records(ranges, hits[k]);
    }
    forall a, b | 0 <= a < b < |ords| ensures Before(ranges, ords[a], ords[b]) {
      assert Less(hits[a], hits[b]) && Records(ranges, hits[a]) && Records(ranges, hits[b]);
    }
    OrderedUnique(ranges, ords, reference);
  }

  /** The slots a query must report: filter the records, order them, project. */
  function ReferenceSlots(ranges: seq<Range>, pc: nat): seq<nat> {
    var s := Reference(ranges, |ranges|, pc);
    seq(|s|, i requires 0 <= i < |s| => ranges[s[i]].slot)
  }

  /** The public query on a published index. */
  method Query<E>(ghost ranges: seq<Range>, index: seq<Node>, pc: nat, meter: Meter<E>)
    returns (failure: Option<E>, out: seq<nat>, ghost depth: nat)
    requires IsIndex(ranges, index)
    requires meter.log == [] && meter.spent == 0
    modifies meter
    ensures failure.None? ==> out == ReferenceSlots(ranges, pc)
    ensures failure.Some? ==> out <= ReferenceSlots(ranges, pc)
    ensures meter.Ended(failure)
    ensures index == [] ==> meter.spent == 0
    ensures var k := |ReferenceSlots(ranges, pc)|; meter.spent <= 1 + 2 * ((k + 1) * Height(|index|)) + k
    ensures failure.None? && index != [] ==> var k := |ReferenceSlots(ranges, pc)|; meter.spent >= 1 + k && meter.spent >= 2 * k
    ensures failure.None? ==> meter.spent == Visited(index, 0, |index|, pc) + |ReferenceSlots(ranges, pc)|
    ensures depth <= Height(|index|)
  {
    HitsAreVisited(index, 0, |index|, pc);
    HitsAreReference(ranges, index, pc);
    ghost var hits := Hits(index, 0, |index|, pc);
    assert Slots(hits) == ReferenceSlots(ranges, pc) by {
      forall i | 0 <= i < |hits| ensures Slots(hits)[i] == ReferenceSlots(ranges, pc)[i] {
        assert Records(ranges, hits[i]) && Ordinals(hits)[i] == hits[i].ordinal;
      }
    }
    QueryAllowance(index, pc);
    failure, out, depth := Visit(index, 0, |index|, pc, meter);
  }

  lemma QueryAllowance(s: seq<Node>, pc: nat)
    ensures var k := |Hits(s, 0, |s|, pc)|; Allowance(s, 0, |s|, pc) <= 1 + 2 * ((k + 1) * Height(|s|)) + k
  {
    var k, b, h := |Hits(s, 0, |s|, pc)|, Beyond(s, 0, |s|, pc), Height(|s|);
    WorkClosed(k, b, h);
    MulMonotone(k + b, k + 1, h);
  }
}
