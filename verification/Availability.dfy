/** The function-local interval index over debug binding ranges (availability.rs). */
module Availability {
  import opened Metering
  import opened Wrappers

  datatype Range = Range(slot: nat, start: nat, end: nat)

  datatype Node = Node(range: Range, ordinal: nat, maxEnd: nat)

  // ---------------------------------------------------------------- ordering

  /** Strict order on the key (range start, original position). */
  predicate Less(a: Node, b: Node) {
    a.range.start < b.range.start || (a.range.start == b.range.start && a.ordinal < b.ordinal)
  }

  ghost predicate Sorted(s: seq<Node>) {
    forall i, j | 0 <= i < j < |s| :: Less(s[i], s[j])
  }

  /** No two nodes come from the same range record. */
  ghost predicate Distinct(s: seq<Node>) {
    forall i, j | 0 <= i < j < |s| :: s[i].ordinal != s[j].ordinal
  }

  // -------------------------------------------------------- logarithmic size

  /** floor(log2(n)), and 0 for an empty table. */
  function Log2(n: nat): nat {
    if n < 2 then 0 else 1 + Log2(n / 2)
  }

  /** How many sifting steps a descent from heap position `root` can take among `n` nodes. */
  ghost function Levels(root: nat, n: nat): nat
    decreases n - root
  {
    if root < n / 2 then 1 + Levels(2 * root + 1, n) else 0
  }

  lemma {:induction false} LevelsAntitone(r: nat, r': nat, n: nat)
    requires r <= r'
    ensures Levels(r', n) <= Levels(r, n)
    decreases n - r
  {
    if r' < n / 2 {
      LevelsAntitone(2 * r + 1, 2 * r' + 1, n);
    }
  }

  lemma {:induction false} LevelsHalve(r: nat, n: nat)
    ensures Levels(2 * r + 1, n) == Levels(r, n / 2)
    decreases n - r
  {
    if r < n / 2 / 2 {
      LevelsHalve(2 * r + 1, n);
    }
  }

  lemma {:induction false} LevelsFromRoot(n: nat)
    ensures Levels(0, n) == Log2(n)
  {
    if 2 <= n {
      LevelsHalve(0, n);
      LevelsFromRoot(n / 2);
    }
  }

  // ---------------------------------------------------------------- heapsort

  /** Every node from `lo` on dominates its children below `end`. */
  ghost predicate Heap(s: seq<Node>, lo: int, end: nat)
    requires end <= |s|
  {
    forall i, c | 0 <= lo <= i < c < end && (c == 2 * i + 1 || c == 2 * i + 2) :: !Less(s[i], s[c])
  }

  /** Like `Heap`, except that `hole` may be smaller than its children. */
  ghost predicate HeapExcept(s: seq<Node>, lo: nat, end: nat, hole: nat)
    requires end <= |s|
  {
    && (forall i, c | lo <= i < c < end && i != hole && (c == 2 * i + 1 || c == 2 * i + 2) :: !Less(s[i], s[c]))
    && (forall p, c | lo <= p < hole < c < end && (hole == 2 * p + 1 || hole == 2 * p + 2)
                      && (c == 2 * hole + 1 || c == 2 * hole + 2) :: !Less(s[p], s[c]))
  }

  lemma {:induction false} RootDominates(s: seq<Node>, end: nat, i: nat)
    requires end <= |s| && i < end && Heap(s, 0, end)
    ensures !Less(s[0], s[i])
  {
    if 0 < i {
      var p := (i - 1) / 2;
      RootDominates(s, end, p);
      assert !Less(s[p], s[i]);
    }
  }

  /** If only the front of a sequence was rearranged, the front holds the same nodes as before. */
  lemma SamePrefix(s: seq<Node>, t: seq<Node>, end: nat)
    requires |s| == |t| && end <= |s| && s[end..] == t[end..] && multiset(s) == multiset(t)
    ensures multiset(s[..end]) == multiset(t[..end])
  {
    assert s == s[..end] + s[end..] && t == t[..end] + t[end..];
    assert multiset(s) == multiset(s[..end]) + multiset(s[end..]);
    assert multiset(t) == multiset(t[..end]) + multiset(t[end..]);
    assert multiset(s[..end]) == multiset(s) - multiset(s[end..]);
    assert multiset(t[..end]) == multiset(t) - multiset(t[end..]);
  }

  lemma OccursOnce(s: seq<Node>, a: nat)
    requires Distinct(s) && a < |s|
    ensures multiset(s)[s[a]] == 1
  {
    assert s == s[..a] + [s[a]] + s[a + 1..];
    assert s[a] !in s[..a] && s[a] !in s[a + 1..];
  }

  lemma OccursTwice(t: seq<Node>, i: nat, j: nat)
    requires i < j < |t| && t[i] == t[j]
    ensures multiset(t)[t[i]] >= 2
  {
    assert t == t[..j] + [t[j]] + t[j + 1..];
    assert t[..j][i] == t[i];
  }

  /** Rearranging nodes with distinct ordinals keeps the ordinals distinct. */
  lemma DistinctPermuted(s: seq<Node>, t: seq<Node>)
    requires Distinct(s) && multiset(s) == multiset(t)
    ensures Distinct(t)
  {
    forall i, j | 0 <= i < j < |t| ensures t[i].ordinal != t[j].ordinal {
      assert t[i] in multiset(t) && t[j] in multiset(t);
      var a :| 0 <= a < |s| && s[a] == t[i];
      var b :| 0 <= b < |s| && s[b] == t[j];
      OccursOnce(s, a);
      if t[i] == t[j] {
        OccursTwice(t, i, j);
      }
    }
  }

  method Swap(nodes: array<Node>, i: nat, j: nat)
    requires i < nodes.Length && j < nodes.Length
    modifies nodes
    ensures nodes[..] == old(nodes[..])[i := old(nodes[..])[j]][j := old(nodes[..])[i]]
    ensures multiset(nodes[..]) == multiset(old(nodes[..]))
  {
    nodes[i], nodes[j] := nodes[j], nodes[i];
  }

  /** The larger of the one or two children of an inner position. */
  function LargerChild(s: seq<Node>, end: nat, root: nat): (child: nat)
    requires root < end / 2 && end <= |s|
    ensures root < child < end && (child == 2 * root + 1 || child == 2 * root + 2)
  {
    var left := 2 * root + 1;
    if left + 1 < end && Less(s[left], s[left + 1]) then left + 1 else left
  }

  /** One exchange of the hole with its larger child moves the hole down. */
  lemma SiftStep(s: seq<Node>, lo: nat, end: nat, hole: nat, child: nat, t: seq<Node>)
    requires end <= |s| && HeapExcept(s, lo, end, hole)
    requires lo <= hole < end / 2 && child == LargerChild(s, end, hole) && Less(s[hole], s[child])
    requires t == s[hole := s[child]][child := s[hole]]
    ensures HeapExcept(t, lo, end, child)
  {
    forall i, c | lo <= i < c < end && i != child && (c == 2 * i + 1 || c == 2 * i + 2)
      ensures !Less(t[i], t[c])
    {
      if i == hole {
        assert t[i] == s[child];
      } else if c == hole {
        assert !Less(s[i], s[child]);
      } else {
        assert t[i] == s[i] && t[c] == s[c];
      }
    }
  }

  /** A hole that dominates its children is no hole. */
  lemma SiftDone(s: seq<Node>, lo: nat, end: nat, hole: nat)
    requires end <= |s| && HeapExcept(s, lo, end, hole)
    requires hole < end / 2 ==> !Less(s[hole], s[LargerChild(s, end, hole)])
    ensures Heap(s, lo, end)
  {
  }

  lemma LevelsStep(s: seq<Node>, root: nat, end: nat)
    requires root < end / 2 && end <= |s|
    ensures Levels(LargerChild(s, end, root), end) + 1 <= Levels(root, end)
  {
    LevelsAntitone(2 * root + 1, LargerChild(s, end, root), end);
  }

  /** Restores the heap below `start` by moving its node down, charging three units per level. */
  method Sift<E>(nodes: array<Node>, end: nat, start: nat, meter: Meter<E>) returns (failure: Option<E>)
    requires start < end <= nodes.Length
    requires Heap(nodes[..], start + 1, end)
    requires meter.Live()
    modifies nodes, meter
    ensures nodes[..][end..] == old(nodes[..])[end..]
    ensures multiset(nodes[..]) == multiset(old(nodes[..]))
    ensures failure.None? ==> Heap(nodes[..], start, end)
    ensures meter.Ended(failure)
    ensures meter.spent <= old(meter.spent) + 3 * Log2(end)
    ensures failure.None? ==> meter.spent >= old(meter.spent) + (if start < end / 2 then 3 else 0)
  {
    LevelsFromRoot(end);
    LevelsAntitone(0, start, end);
    var root := start;
    ghost var s, steps := nodes[..], Log2(end);
    while root < end / 2
      invariant start <= root < end && nodes[..] == s
      invariant s[end..] == old(nodes[..])[end..]
      invariant multiset(s) == multiset(old(nodes[..]))
      invariant HeapExcept(s, start, end, root)
      invariant meter.Live()
      invariant Levels(root, end) <= steps && meter.spent + 3 * steps == old(meter.spent) + 3 * Log2(end)
      invariant meter.spent >= old(meter.spent) + (if start < root then 3 else 0)
      decreases end - root
    {
      LevelsStep(s, root, end);
      failure := meter.Charge(3);
      if failure.Some? {
        return;
      }
      var child := LargerChild(nodes[..], end, root);
      if !Less(nodes[root], nodes[child]) {
        SiftDone(s, start, end, root);
        return;
      }
      Swap(nodes, root, child);
      SiftStep(s, start, end, root, child, nodes[..]);
      s, steps := nodes[..], steps - 1;
      root := child;
    }
    SiftDone(s, start, end, root);
    return None;
  }

  /** Everything from `k` on is in its final place: larger than whatever precedes it. */
  ghost predicate Settled(s: seq<Node>, k: nat) {
    forall i, j | 0 <= i < j < |s| && k <= j :: Less(s[i], s[j])
  }

  /** Exchanging the root with the last heap node and sifting the rest settles one more position. */
  lemma ExtractStep(s: seq<Node>, end: nat, t: seq<Node>, u: seq<Node>)
    requires end + 1 <= |s| && Distinct(s) && Heap(s, 0, end + 1) && Settled(s, end + 1)
    requires t == s[0 := s[end]][end := s[0]]
    requires |u| == |t| && u[end..] == t[end..] && multiset(u) == multiset(t)
    ensures Settled(u, end)
  {
    SamePrefix(t, u, end);
    forall i, j | 0 <= i < j < |u| && end <= j ensures Less(u[i], u[j]) {
      assert u[j] == u[end..][j - end] == t[j];
      if end <= i {
        assert u[i] == u[end..][i - end] == t[i];
        assert i == end ==> t[i] == s[0];
        assert Less(s[if i == end then 0 else i], s[j]);
      } else {
        assert u[i] in multiset(u[..end]);
        var p :| 0 <= p < end && t[p] == u[i];
        var q := if p == 0 then end else p;
        assert s[q] == u[i];
        if j == end {
          RootDominates(s, end + 1, q);
          assert s[0].ordinal != s[q].ordinal;
        } else {
          assert Less(s[q], s[j]);
        }
      }
    }
  }

  /** Sifting an element down after the exchange is applicable: only the root is out of place. */
  lemma ExchangeKeepsHeap(s: seq<Node>, end: nat)
    requires end + 1 <= |s| && Heap(s, 0, end + 1)
    ensures Heap(s[0 := s[end]][end := s[0]], 1, end)
  {
  }

  /** `n` steps of `cost` units each. */
  ghost function Steps(n: nat, cost: nat): nat {
    if n == 0 then 0 else Steps(n - 1, cost) + cost
  }

  lemma {:induction false} StepsMonotone(m: nat, n: nat, cost: nat)
    requires m <= n
    ensures Steps(m, cost) <= Steps(n, cost)
  {
    if m < n {
      StepsMonotone(m, n - 1, cost);
    }
  }

  lemma StepsNext(k: nat, n: nat, cost: nat)
    requires k < n
    ensures Steps(k, cost) + cost == Steps(k + 1, cost) <= Steps(n, cost)
  {
    StepsMonotone(k + 1, n, cost);
  }

  lemma {:induction false} StepsProduct(n: nat, cost: nat)
    ensures Steps(n, cost) == n * cost
  {
    if 0 < n {
      StepsProduct(n - 1, cost);
      assert n * cost == (n - 1) * cost + cost;
    }
  }

  method Heapify<E>(nodes: array<Node>, meter: Meter<E>) returns (failure: Option<E>)
    requires meter.Live()
    modifies nodes, meter
    ensures multiset(nodes[..]) == multiset(old(nodes[..]))
    ensures failure.None? ==> Heap(nodes[..], 0, nodes.Length)
    ensures meter.Ended(failure)
    ensures meter.spent <= old(meter.spent) + Steps(nodes.Length / 2, 3 * Log2(nodes.Length))
    ensures failure.None? ==> meter.spent >= old(meter.spent) + 3 * (nodes.Length / 2)
  {
    var n := nodes.Length;
    ghost var level := 3 * Log2(n);
    var root := n / 2;
    while 0 < root
      invariant 0 <= root <= n / 2
      invariant multiset(nodes[..]) == multiset(old(nodes[..]))
      invariant Heap(nodes[..], root, n)
      invariant meter.Live()
      invariant meter.spent <= old(meter.spent) + Steps(n / 2 - root, level)
      invariant meter.spent >= old(meter.spent) + 3 * (n / 2 - root)
    {
      root := root - 1;
      StepsMonotone(n / 2 - root, n / 2, level);
      failure := Sift(nodes, n, root, meter);
      if failure.Some? {
        return;
      }
    }
    return None;
  }

  lemma MulMonotone(a: nat, b: nat, c: nat)
    requires a <= b
    ensures a * c <= b * c
  {
    assert b * c == a * c + (b - a) * c;
  }

  /** The least that extracting `n` nodes charges: one unit per exchange, three per sift that has a child to look at. */
  function ExtractLeast(n: nat): nat {
    if n < 2 then 0 else 4 * n - 7
  }

  /** Exchanges the root with the last heap node and sifts the rest. */
  method ExtractOne<E>(nodes: array<Node>, end: nat, meter: Meter<E>) returns (failure: Option<E>)
    requires 0 < end < nodes.Length && Heap(nodes[..], 0, end + 1) && Distinct(nodes[..]) && Settled(nodes[..], end + 1)
    requires meter.Live()
    modifies nodes, meter
    ensures multiset(nodes[..]) == multiset(old(nodes[..]))
    ensures failure.None? ==> Heap(nodes[..], 0, end) && Distinct(nodes[..]) && Settled(nodes[..], end)
    ensures meter.Ended(failure)
    ensures meter.spent <= old(meter.spent) + 1 + 3 * Log2(end)
    ensures failure.None? ==> meter.spent >= old(meter.spent) + (if 2 <= end then 4 else 1)
  {
    ghost var s := nodes[..];
    failure := meter.Charge(1);
    if failure.Some? {
      return;
    }
    Swap(nodes, 0, end);
    ExchangeKeepsHeap(s, end);
    ghost var t := nodes[..];
    failure := Sift(nodes, end, 0, meter);
    if failure.Some? {
      return;
    }
    ExtractStep(s, end, t, nodes[..]);
    DistinctPermuted(s, nodes[..]);
  }

  method Extract<E>(nodes: array<Node>, meter: Meter<E>) returns (failure: Option<E>)
    requires Heap(nodes[..], 0, nodes.Length) && Distinct(nodes[..])
    requires meter.Live()
    modifies nodes, meter
    ensures multiset(nodes[..]) == multiset(old(nodes[..]))
    ensures failure.None? ==> Sorted(nodes[..])
    ensures meter.Ended(failure)
    ensures meter.spent <= old(meter.spent) + Steps(nodes.Length, 1 + 3 * Log2(nodes.Length))
    ensures failure.None? ==> meter.spent >= old(meter.spent) + ExtractLeast(nodes.Length)
  {
    var n := nodes.Length;
    ghost var start, level := meter.spent, 1 + 3 * Log2(n);
    var heap := n;
    while 1 < heap
      invariant 0 <= heap <= n && (heap == 0 ==> n == 0)
      invariant multiset(nodes[..]) == multiset(old(nodes[..])) && Distinct(nodes[..])
      invariant Heap(nodes[..], 0, heap) && Settled(nodes[..], heap)
      invariant meter.Live() && Paid(start, meter.spent, n, heap, level)
    {
      heap := heap - 1;
      ghost var before := meter.spent;
      failure := ExtractOne(nodes, heap, meter);
      Log2Monotone(heap, n);
      PaidMore(start, before, meter.spent, n, heap, level);
      if failure.Some? {
        return;
      }
    }
    PaidAll(start, meter.spent, n, heap, level);
    SettledIsSorted(nodes[..], heap);
    return None;
  }

  /** The charges of an extraction that has `heap` of `n` nodes left, at most `level` for each. */
  ghost predicate Paid(start: nat, spent: nat, n: nat, heap: nat, level: nat)
    requires heap <= n
  {
    && spent <= start + Steps(n - heap, level)
    && spent >= start + (if heap <= 1 < n then 4 * (n - heap) - 3 else 4 * (n - heap))
  }

  lemma PaidMore(start: nat, before: nat, spent: nat, n: nat, heap: nat, level: nat)
    requires 1 <= heap < n && Paid(start, before, n, heap + 1, level) && spent <= before + level
    ensures spent <= start + Steps(n, level)
    ensures spent >= before + (if 2 <= heap then 4 else 1) ==> Paid(start, spent, n, heap, level)
  {
    StepsNext(n - heap - 1, n, level);
  }

  lemma PaidAll(start: nat, spent: nat, n: nat, heap: nat, level: nat)
    requires heap <= n && heap <= 1 && (heap == 0 ==> n == 0) && Paid(start, spent, n, heap, level)
    ensures spent <= start + Steps(n, level) && spent >= start + ExtractLeast(n)
  {
    StepsMonotone(n - heap, n, level);
  }

  lemma SettledIsSorted(s: seq<Node>, k: nat)
    requires Settled(s, k) && k <= 1
    ensures Sorted(s)
  {
  }

  lemma {:induction false} Log2Monotone(m: nat, n: nat)
    requires m <= n
    ensures Log2(m) <= Log2(n)
  {
    if 2 <= m {
      Log2Monotone(m / 2, n / 2);
    }
  }

  // ------------------------------------------------------- the max-end tree

  function Max(a: nat, b: nat): nat {
    if a < b then b else a
  }

  /** The largest range end in a slice, or zero for an empty slice. */
  ghost function MaxEnd(s: seq<Node>, lo: nat, hi: nat): nat
    requires lo <= hi <= |s|
  {
    if lo == hi then 0 else Max(MaxEnd(s, lo, hi - 1), s[hi - 1].range.end)
  }

  /** Nothing beyond the largest end is covered, and the largest end is attained. */
  lemma {:induction false} MaxEndIsMaximum(s: seq<Node>, lo: nat, hi: nat) returns (best: nat)
    requires lo < hi <= |s|
    ensures forall i | lo <= i < hi :: s[i].range.end <= MaxEnd(s, lo, hi)
    ensures lo <= best < hi && s[best].range.end == MaxEnd(s, lo, hi)
  {
    best := hi - 1;
    if lo + 1 < hi {
      var other := MaxEndIsMaximum(s, lo, hi - 1);
      if s[hi - 1].range.end < MaxEnd(s, lo, hi - 1) {
        best := other;
      }
    }
  }

  lemma {:induction false} MaxEndCombine(s: seq<Node>, lo: nat, mid: nat, hi: nat)
    requires lo <= mid < hi <= |s|
    ensures MaxEnd(s, lo, hi) == Max(Max(s[mid].range.end, MaxEnd(s, lo, mid)), MaxEnd(s, mid + 1, hi))
  {
    if mid + 1 < hi {
      MaxEndCombine(s, lo, mid, hi - 1);
    }
  }

  lemma {:induction false} MaxEndFrame(s: seq<Node>, t: seq<Node>, lo: nat, hi: nat)
    requires lo <= hi <= |s| && hi <= |t|
    requires forall i | lo <= i < hi :: s[i].range == t[i].range
    ensures MaxEnd(s, lo, hi) == MaxEnd(t, lo, hi)
  {
    if lo < hi {
      MaxEndFrame(s, t, lo, hi - 1);
    }
  }

  function Mid(lo: nat, hi: nat): (mid: nat)
    requires lo < hi
    ensures lo <= mid < hi
  {
    lo + (hi - lo) / 2
  }

  /** Every midpoint of the implicit balanced tree over the slice stores its subtree's largest end. */
  ghost predicate Indexed(s: seq<Node>, lo: nat, hi: nat)
    requires lo <= hi <= |s|
    decreases hi - lo
  {
    lo < hi ==>
      && s[Mid(lo, hi)].maxEnd == MaxEnd(s, lo, hi)
      && Indexed(s, lo, Mid(lo, hi))
      && Indexed(s, Mid(lo, hi) + 1, hi)
  }

  lemma {:induction false} IndexedFrame(s: seq<Node>, t: seq<Node>, lo: nat, hi: nat)
    requires lo <= hi <= |s| && hi <= |t| && Indexed(s, lo, hi)
    requires forall i | lo <= i < hi :: s[i] == t[i]
    ensures Indexed(t, lo, hi) && MaxEnd(t, lo, hi) == MaxEnd(s, lo, hi)
    decreases hi - lo
  {
    MaxEndFrame(s, t, lo, hi);
    if lo < hi {
      IndexedFrame(s, t, lo, Mid(lo, hi));
      IndexedFrame(s, t, Mid(lo, hi) + 1, hi);
    }
  }

  /** Only the cached ends inside the slice may differ. */
  ghost predicate SameRecords(s: seq<Node>, t: seq<Node>, lo: nat, hi: nat) {
    && |s| == |t|
    && forall i | 0 <= i < |s| :: t[i] == (if lo <= i < hi then s[i].(maxEnd := t[i].maxEnd) else s[i])
  }

  lemma RecordsTogether(s0: seq<Node>, s1: seq<Node>, s2: seq<Node>, lo: nat, mid: nat, hi: nat)
    requires SameRecords(s0, s1, lo, mid) && SameRecords(s1, s2, mid + 1, hi) && lo <= mid < hi <= |s0|
    ensures SameRecords(s0, s2, lo, hi)
  {
  }

  lemma RecordsWritten(s0: seq<Node>, s2: seq<Node>, s3: seq<Node>, lo: nat, mid: nat, hi: nat, m: nat)
    requires SameRecords(s0, s2, lo, hi) && lo <= mid < hi <= |s0| && s3 == s2[mid := s2[mid].(maxEnd := m)]
    ensures SameRecords(s0, s3, lo, hi)
  {
  }

  method Index<E>(nodes: array<Node>, lo: nat, hi: nat, meter: Meter<E>) returns (failure: Option<E>, m: nat, ghost after: seq<Node>)
    requires lo <= hi <= nodes.Length
    requires meter.Live()
    modifies nodes, meter
    ensures nodes[..] == after && SameRecords(old(nodes[..]), after, lo, hi)
    ensures failure.None? ==> Indexed(after, lo, hi) && MaxEnd(after, lo, hi) == m
    ensures meter.Ended(failure)
    ensures meter.spent <= old(meter.spent) + (hi - lo)
    ensures failure.None? ==> meter.spent == old(meter.spent) + (hi - lo)
    decreases hi - lo
  {
    m, failure, after := 0, None, nodes[..];
    if lo == hi {
      return;
    }
    failure := meter.Charge(1);
    if failure.Some? {
      return;
    }
    var mid := Mid(lo, hi);
    ghost var s0 := after;
    ghost var s1;
    var left, right;
    failure, left, s1 := Index(nodes, lo, mid, meter);
    after := s1;
    if failure.Some? {
      RecordsTogether(s0, s1, s1, lo, mid, hi);
      return;
    }
    failure, right, after := Index(nodes, mid + 1, hi, meter);
    RecordsTogether(s0, s1, after, lo, mid, hi);
    if failure.Some? {
      return;
    }
    ghost var s2 := after;
    m := Max(Max(nodes[mid].range.end, left), right);
    nodes[mid] := nodes[mid].(maxEnd := m);
    after := s2[mid := s2[mid].(maxEnd := m)];
    assert nodes[..] == after;
    IndexStep(s1, s2, after, lo, hi, m);
    RecordsWritten(s0, s2, after, lo, mid, hi, m);
  }

  lemma IndexStep(s1: seq<Node>, s2: seq<Node>, s3: seq<Node>, lo: nat, hi: nat, m: nat)
    requires lo < hi <= |s1|
    requires Indexed(s1, lo, Mid(lo, hi))
    requires SameRecords(s1, s2, Mid(lo, hi) + 1, hi) && Indexed(s2, Mid(lo, hi) + 1, hi)
    requires m == Max(Max(s2[Mid(lo, hi)].range.end, MaxEnd(s1, lo, Mid(lo, hi))), MaxEnd(s2, Mid(lo, hi) + 1, hi))
    requires s3 == s2[Mid(lo, hi) := s2[Mid(lo, hi)].(maxEnd := m)]
    ensures Indexed(s3, lo, hi) && MaxEnd(s3, lo, hi) == m
  {
    var mid := Mid(lo, hi);
    IndexedFrame(s1, s3, lo, mid);
    IndexedFrame(s2, s3, mid + 1, hi);
    MaxEndCombine(s3, lo, mid, hi);
  }

  // ------------------------------------------------------------ construction

  /** The nonempty ranges among the first `n`, as fresh nodes in original order. */
  ghost function Collected(ranges: seq<Range>, n: nat): seq<Node>
    requires n <= |ranges|
  {
    if n == 0 then [] else
    var r := ranges[n - 1];
    Collected(ranges, n - 1) + (if r.start < r.end then [Node(r, n - 1, r.end)] else [])
  }

  /** The node stands for a nonempty record of the table. */
  ghost predicate Records(ranges: seq<Range>, node: Node) {
    node.ordinal < |ranges| && node.range == ranges[node.ordinal] && node.range.start < node.range.end
  }

  ghost predicate Present(nodes: seq<Node>, ordinal: nat) {
    exists k | 0 <= k < |nodes| :: nodes[k].ordinal == ordinal
  }

  lemma {:induction false} CollectedRecords(ranges: seq<Range>, n: nat)
    requires n <= |ranges|
    ensures |Collected(ranges, n)| <= n
    ensures forall k | 0 <= k < |Collected(ranges, n)| ::
              Collected(ranges, n)[k].ordinal < n && Records(ranges, Collected(ranges, n)[k])
    ensures Distinct(Collected(ranges, n))
  {
    if 0 < n {
      CollectedRecords(ranges, n - 1);
    }
  }

  lemma {:induction false} CollectedComplete(ranges: seq<Range>, n: nat, i: nat)
    requires i < n <= |ranges| && ranges[i].start < ranges[i].end
    ensures Present(Collected(ranges, n), i)
  {
    var s, t := Collected(ranges, n), Collected(ranges, n - 1);
    if i < n - 1 {
      CollectedComplete(ranges, n - 1, i);
      var k :| 0 <= k < |t| && t[k].ordinal == i;
      assert s[k].ordinal == i;
    } else {
      assert s[|t|].ordinal == i;
    }
  }

  /** A published index: exactly the nonempty ranges, each once, strictly ordered and max-end indexed. */
  ghost predicate IsIndex(ranges: seq<Range>, nodes: seq<Node>) {
    && Sorted(nodes)
    && (forall k | 0 <= k < |nodes| :: Records(ranges, nodes[k]))
    && (forall i | 0 <= i < |ranges| && ranges[i].start < ranges[i].end :: Present(nodes, i))
    && Indexed(nodes, 0, |nodes|)
  }

  lemma RecordsKept(ranges: seq<Range>, s: seq<Node>, t: seq<Node>)
    requires multiset(s) == multiset(t) && forall k | 0 <= k < |s| :: Records(ranges, s[k])
    ensures forall k | 0 <= k < |t| :: Records(ranges, t[k])
  {
    forall k | 0 <= k < |t| ensures Records(ranges, t[k]) {
      assert t[k] in multiset(t);
      var j :| 0 <= j < |s| && s[j] == t[k];
    }
  }

  lemma PresentKept(s: seq<Node>, t: seq<Node>, u: seq<Node>, i: nat)
    requires multiset(s) == multiset(t) && Present(s, i) && SameRecords(t, u, 0, |t|)
    ensures Present(u, i)
  {
    var j :| 0 <= j < |s| && s[j].ordinal == i;
    assert s[j] in multiset(s);
    var k :| 0 <= k < |t| && t[k] == s[j];
    assert u[k].ordinal == i;
  }

  lemma CollectedIsIndex(ranges: seq<Range>, sorted: seq<Node>, nodes: seq<Node>)
    requires multiset(sorted) == multiset(Collected(ranges, |ranges|)) && Sorted(sorted)
    requires SameRecords(sorted, nodes, 0, |sorted|) && Indexed(nodes, 0, |nodes|)
    ensures IsIndex(ranges, nodes)
  {
    var all := Collected(ranges, |ranges|);
    CollectedRecords(ranges, |ranges|);
    RecordsKept(ranges, all, sorted);
    forall i | 0 <= i < |ranges| && ranges[i].start < ranges[i].end ensures Present(nodes, i) {
      CollectedComplete(ranges, |ranges|, i);
      PresentKept(all, sorted, nodes, i);
    }
  }

  method Collect<E>(ranges: seq<Range>, meter: Meter<E>) returns (failure: Option<E>, nodes: seq<Node>)
    requires meter.Live()
    modifies meter
    ensures failure.None? ==> nodes == Collected(ranges, |ranges|)
    ensures meter.Ended(failure)
    ensures meter.spent <= old(meter.spent) + 2 * |ranges|
    ensures failure.None? ==> meter.spent == old(meter.spent) + 2 * |ranges|
  {
    nodes := [];
    failure := meter.Charge(|ranges|);
    if failure.Some? {
      return;
    }
    for ordinal := 0 to |ranges|
      invariant nodes == Collected(ranges, ordinal)
      invariant meter.Live()
      invariant meter.spent == old(meter.spent) + |ranges| + ordinal
    {
      failure := meter.Charge(1);
      if failure.Some? {
        return;
      }
      var range := ranges[ordinal];
      if range.start < range.end {
        nodes := nodes + [Node(range, ordinal, range.end)];
      }
    }
    failure := None;
  }

  /** The most that sorting `n` nodes may charge. */
  ghost function SortWork(n: nat): nat {
    Steps(n / 2, 3 * Log2(n)) + Steps(n, 1 + 3 * Log2(n))
  }

  lemma SortWorkLinear(n: nat, h: nat, l: nat)
    requires 2 * h <= n
    ensures h * (3 * l) + n * (1 + 3 * l) <= n + 5 * (n * l)
  {
    var p, q := h * l, n * l;
    assert h * (3 * l) == 3 * p;
    assert n * (1 + 3 * l) == n + 3 * q;
    MulMonotone(2 * h, n, l);
    assert (2 * h) * l == 2 * p;
  }

  lemma WorkBound(d: nat, n: nat)
    requires n <= d
    ensures 2 * d + SortWork(n) + n <= Steps(d, 4 + 5 * Log2(d))
  {
    StepsProduct(d, 4 + 5 * Log2(d));
    StepsProduct(n / 2, 3 * Log2(n));
    StepsProduct(n, 1 + 3 * Log2(n));
    Log2Monotone(n, d);
    WorkTotal(d, n, n / 2, Log2(n), Log2(d), SortWork(n), Steps(d, 4 + 5 * Log2(d)));
  }

  lemma WorkTotal(d: nat, n: nat, h: nat, l: nat, m: nat, sorting: nat, total: nat)
    requires n <= d && 2 * h <= n && l <= m
    requires sorting == h * (3 * l) + n * (1 + 3 * l) && total == d * (4 + 5 * m)
    ensures 2 * d + sorting + n <= total
  {
    SortWorkLinear(n, h, l);
    WorkProduct(n, d, l, m);
  }

  lemma WorkProduct(n: nat, d: nat, l: nat, m: nat)
    requires n <= d && l <= m
    ensures 2 * n + 2 * d + 5 * (n * l) <= d * (4 + 5 * m)
  {
    MulMonotone(l, m, n);
    MulMonotone(n, d, m);
    assert n * l <= d * m;
    assert d * (4 + 5 * m) == 4 * d + 5 * (d * m);
  }

  method Sort<E>(nodes: array<Node>, meter: Meter<E>) returns (failure: Option<E>)
    requires Distinct(nodes[..])
    requires meter.Live()
    modifies nodes, meter
    ensures multiset(nodes[..]) == multiset(old(nodes[..]))
    ensures failure.None? ==> Sorted(nodes[..])
    ensures meter.Ended(failure)
    ensures meter.spent <= old(meter.spent) + SortWork(nodes.Length)
    ensures failure.None? ==> meter.spent >= old(meter.spent) + 3 * (nodes.Length / 2) + ExtractLeast(nodes.Length)
  {
    failure := Heapify(nodes, meter);
    if failure.None? {
      DistinctPermuted(old(nodes[..]), nodes[..]);
      failure := Extract(nodes, meter);
    }
  }

  /** Sorted and indexed: the same nodes in order, with their cached ends. */
  ghost predicate Arranged(items: seq<Node>, sorted: seq<Node>, nodes: seq<Node>) {
    && multiset(sorted) == multiset(items) && |sorted| == |items| == |nodes| && Sorted(sorted)
    && SameRecords(sorted, nodes, 0, |sorted|) && Indexed(nodes, 0, |nodes|)
  }

  method Arrange<E>(items: seq<Node>, meter: Meter<E>) returns (failure: Option<E>, index: seq<Node>, ghost sorted: seq<Node>)
    requires Distinct(items) && meter.Live()
    modifies meter
    ensures failure.None? ==> Arranged(items, sorted, index)
    ensures meter.Ended(failure)
    ensures meter.spent <= old(meter.spent) + SortWork(|items|) + |items|
    ensures failure.None? ==> meter.spent >= old(meter.spent) + 3 * (|items| / 2) + ExtractLeast(|items|) + |items|
  {
    index, sorted := [], [];
    var nodes := new Node[|items|](i requires 0 <= i < |items| => items[i]);
    assert nodes[..] == items;
    failure := Sort(nodes, meter);
    if failure.None? {
      sorted := nodes[..];
      var top;
      ghost var after;
      failure, top, after := Index(nodes, 0, nodes.Length, meter);
      index := nodes[..];
    }
  }

  /** Builds the index. A refused charge ends construction at once and publishes nothing. */
  method New<E>(ranges: seq<Range>, meter: Meter<E>) returns (index: Result<seq<Node>, E>)
    requires meter.log == [] && meter.spent == 0
    modifies meter
    ensures index.Ok? ==> IsIndex(ranges, index.value) && meter.Live()
    ensures index.Err? ==> meter.Ended(Some(index.error))
    ensures meter.spent <= Steps(|ranges|, 4 + 5 * Log2(|ranges|))
    ensures index.Ok? ==> var n := |index.value|; meter.spent >= 2 * |ranges| + 3 * (n / 2) + ExtractLeast(n) + n
  {
    var failure, items := Collect(ranges, meter);
    CollectedRecords(ranges, |ranges|);
    if failure.Some? {
      WorkBound(|ranges|, 0);
      return Err(failure.value);
    }
    WorkBound(|ranges|, |items|);
    var nodes;
    ghost var sorted;
    failure, nodes, sorted := Arrange(items, meter);
    if failure.Some? {
      return Err(failure.value);
    }
    CollectedIsIndex(ranges, sorted, nodes);
    return Ok(nodes);
  }
}
