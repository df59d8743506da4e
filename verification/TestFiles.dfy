/** Classification of source files into test-only and production code (rust.py). */
module TestFiles {

  /** A module declaration: the file it names, and whether it is compiled for tests only. */
  datatype Edge = Edge(target: nat, test: bool)

  /** A file together with a way in which it is compiled. */
  datatype Node = Node(file: nat, test: bool)

  /** Files are numbered in the order in which they are visited. */
  datatype Project = Project(edges: seq<seq<Edge>>, roots: seq<Node>)

  ghost predicate Valid(p: Project) {
    && (forall f, k | 0 <= f < |p.edges| && 0 <= k < |p.edges[f]| :: p.edges[f][k].target < |p.edges|)
    && Located(p, p.roots)
  }

  ghost predicate Located(p: Project, nodes: seq<Node>) {
    forall k | 0 <= k < |nodes| :: nodes[k].file < |p.edges|
  }

  // ------------------------------------------------------------- reachability

  /** Code compiled for tests only declares modules compiled for tests only. */
  function Follow(node: Node, edge: Edge): Node {
    Node(edge.target, node.test || edge.test)
  }

  ghost predicate Steps(p: Project, a: Node, b: Node) {
    a.file < |p.edges| && exists k | 0 <= k < |p.edges[a.file]| :: Follow(a, p.edges[a.file][k]) == b
  }

  ghost predicate IsWalk(p: Project, walk: seq<Node>) {
    walk != [] && forall k | 0 <= k < |walk| - 1 :: Steps(p, walk[k], walk[k + 1])
  }

  ghost predicate Leads(p: Project, seeds: seq<Node>, walk: seq<Node>, node: Node) {
    IsWalk(p, walk) && walk[0] in seeds && walk[|walk| - 1] == node
  }

  ghost predicate Reached(p: Project, seeds: seq<Node>, node: Node) {
    exists walk :: Leads(p, seeds, walk, node)
  }

  lemma SeedReached(p: Project, seeds: seq<Node>, node: Node)
    requires node in seeds
    ensures Reached(p, seeds, node)
  {
    assert Leads(p, seeds, [node], node);
  }

  lemma StepReached(p: Project, seeds: seq<Node>, a: Node, b: Node)
    requires Reached(p, seeds, a) && Steps(p, a, b)
    ensures Reached(p, seeds, b)
  {
    var walk :| Leads(p, seeds, walk, a);
    var longer := walk + [b];
    forall k | 0 <= k < |longer| - 1 ensures Steps(p, longer[k], longer[k + 1]) {
      if k < |walk| - 1 {
        assert Steps(p, walk[k], walk[k + 1]);
      }
    }
    assert Leads(p, seeds, longer, b);
  }

  lemma MoreSeeds(p: Project, seeds: seq<Node>, more: seq<Node>, node: Node)
    requires Reached(p, seeds, node) && forall s | s in seeds :: s in more
    ensures Reached(p, more, node)
  {
    var walk :| Leads(p, seeds, walk, node);
    assert Leads(p, more, walk, node);
  }

  // ------------------------------------------------------------ classification

  ghost predicate In(states: seq<set<bool>>, node: Node) {
    node.file < |states| && node.test in states[node.file]
  }

  /** `states` holds exactly what is reached from `seeds`. */
  ghost predicate Exactly(p: Project, states: seq<set<bool>>, seeds: seq<Node>) {
    |states| == |p.edges| && forall node: Node :: In(states, node) <==> Reached(p, seeds, node)
  }

  /** Every seed, and every successor of a classified node, is classified or waiting. */
  ghost predicate Covered(p: Project, states: seq<set<bool>>, seeds: seq<Node>, queue: seq<Node>) {
    && (forall node | node in seeds :: In(states, node) || node in queue)
    && (forall a, b | In(states, a) && Steps(p, a, b) :: In(states, b) || b in queue)
  }

  ghost predicate Justified(p: Project, states: seq<set<bool>>, seeds: seq<Node>, queue: seq<Node>) {
    && (forall node: Node | In(states, node) :: Reached(p, seeds, node))
    && (forall node: Node | node in queue :: Reached(p, seeds, node))
  }

  lemma {:induction false} CoveredWalk(p: Project, states: seq<set<bool>>, seeds: seq<Node>, walk: seq<Node>, k: nat)
    requires Covered(p, states, seeds, []) && IsWalk(p, walk) && walk[0] in seeds && k < |walk|
    ensures In(states, walk[k])
  {
    if k > 0 {
      CoveredWalk(p, states, seeds, walk, k - 1);
      assert Steps(p, walk[k - 1], walk[k - 1 + 1]);
    }
  }

  lemma Complete(p: Project, states: seq<set<bool>>, seeds: seq<Node>)
    requires |states| == |p.edges| && Covered(p, states, seeds, []) && Justified(p, states, seeds, [])
    ensures Exactly(p, states, seeds)
  {
    forall node | Reached(p, seeds, node) ensures In(states, node) {
      var walk :| Leads(p, seeds, walk, node);
      CoveredWalk(p, states, seeds, walk, |walk| - 1);
    }
  }

  function Missing(states: seq<set<bool>>): nat {
    if states == [] then 0 else Missing(states[1..]) + (if false in states[0] then 0 else 1) + (if true in states[0] then 0 else 1)
  }

  lemma {:induction false} MissingShrinks(states: seq<set<bool>>, node: Node)
    requires node.file < |states| && !In(states, node)
    ensures Missing(states[node.file := states[node.file] + {node.test}]) < Missing(states)
    decreases |states|
  {
    var updated := states[node.file := states[node.file] + {node.test}];
    if node.file == 0 {
      assert updated[1..] == states[1..];
    } else {
      var rest := Node(node.file - 1, node.test);
      assert states[1..][rest.file] == states[node.file];
      MissingShrinks(states[1..], rest);
      assert updated[1..] == states[1..][rest.file := states[node.file] + {node.test}];
    }
  }

  function Targets(node: Node, edges: seq<Edge>): (nodes: seq<Node>)
    ensures |nodes| == |edges| && forall k | 0 <= k < |edges| :: nodes[k] == Follow(node, edges[k])
  {
    seq(|edges|, k requires 0 <= k < |edges| => Follow(node, edges[k]))
  }

  /** Classifying the head of the queue and queueing its targets keeps every node accounted for. */
  lemma VisitKeeps(p: Project, states: seq<set<bool>>, seeds: seq<Node>, queue: seq<Node>, updated: seq<set<bool>>, longer: seq<Node>)
    requires Valid(p) && |states| == |p.edges| && queue != [] && queue[0].file < |p.edges|
    requires Covered(p, states, seeds, queue) && Justified(p, states, seeds, queue)
    requires updated == states[queue[0].file := states[queue[0].file] + {queue[0].test}]
    requires longer == queue[1..] + Targets(queue[0], p.edges[queue[0].file])
    ensures Covered(p, updated, seeds, longer) && Justified(p, updated, seeds, longer)
  {
    var head := queue[0];
    var targets := Targets(head, p.edges[head.file]);
    assert forall node: Node :: In(updated, node) <==> In(states, node) || node == head;
    assert forall node | node in queue :: node == head || node in longer;
    forall a, b | In(updated, a) && Steps(p, a, b) ensures In(updated, b) || b in longer {
      if a == head {
        var k :| 0 <= k < |p.edges[a.file]| && Follow(a, p.edges[a.file][k]) == b;
        assert targets[k] in longer;
      }
    }
    forall node | node in longer ensures Reached(p, seeds, node) {
      if node in targets {
        var k :| 0 <= k < |targets| && targets[k] == node;
        assert Follow(head, p.edges[head.file][k]) == node;
        StepReached(p, seeds, head, node);
      }
    }
  }

  // -------------------------------------------------------------- the algorithm

  class Classifier {
    const project: Project
    var states: seq<set<bool>>

    constructor (project: Project)
      ensures this.project == project && Exactly(project, states, [])
    {
      this.project := project;
      states := seq(|project.edges|, _ => {});
      new;
      assert forall node: Node :: !In(states, node);
    }

    /** Breadth-first propagation of new seeds into an exact classification. */
    method Propagate(seeds: seq<Node>, ghost earlier: seq<Node>)
      requires Valid(project) && Located(project, seeds) && Exactly(project, states, earlier)
      modifies this
      ensures Exactly(project, states, earlier + seeds)
    {
      var queue := seeds;
      ghost var all := earlier + seeds;
      StartKeeps(project, states, earlier, seeds);
      while queue != []
        invariant |states| == |project.edges| && Located(project, queue)
        invariant Covered(project, states, all, queue) && Justified(project, states, all, queue)
        decreases Missing(states), |queue|
      {
        ghost var before, waiting := states, queue;
        var node := queue[0];
        queue := queue[1..];
        if node.test in states[node.file] {
          SkipKeeps(project, states, all, waiting);
          continue;
        }
        MissingShrinks(states, node);
        states := states[node.file := states[node.file] + {node.test}];
        ghost var rest := queue;
        var edges := project.edges[node.file];
        for i := 0 to |edges|
          invariant queue == rest + Targets(node, edges)[..i]
          invariant states == before[node.file := before[node.file] + {node.test}]
        {
          queue := queue + [Follow(node, edges[i])];
        }
        assert queue == rest + Targets(node, edges);
        VisitKeeps(project, before, all, waiting, states, queue);
      }
      Complete(project, states, all);
    }
  }

  lemma StartKeeps(p: Project, states: seq<set<bool>>, earlier: seq<Node>, seeds: seq<Node>)
    requires Exactly(p, states, earlier)
    ensures Covered(p, states, earlier + seeds, seeds) && Justified(p, states, earlier + seeds, seeds)
  {
    var all := earlier + seeds;
    forall node | node in all ensures In(states, node) || node in seeds {
      if node in earlier {
        SeedReached(p, earlier, node);
      }
    }
    forall a, b | In(states, a) && Steps(p, a, b) ensures In(states, b) {
      StepReached(p, earlier, a, b);
    }
    forall node: Node | In(states, node) ensures Reached(p, all, node) {
      MoreSeeds(p, earlier, all, node);
    }
    forall node | node in seeds ensures Reached(p, all, node) {
      SeedReached(p, all, node);
    }
  }

  lemma SkipKeeps(p: Project, states: seq<set<bool>>, seeds: seq<Node>, queue: seq<Node>)
    requires queue != [] && In(states, queue[0])
    requires Covered(p, states, seeds, queue) && Justified(p, states, seeds, queue)
    ensures Covered(p, states, seeds, queue[1..]) && Justified(p, states, seeds, queue[1..])
  {
  }

  // ------------------------------------------------------------------ the seeds

  ghost predicate Touched(p: Project, seeds: seq<Node>, file: nat) {
    Reached(p, seeds, Node(file, false)) || Reached(p, seeds, Node(file, true))
  }

  ghost predicate Declared(p: Project, file: nat) {
    exists f: nat, k: nat | f < |p.edges| && k < |p.edges[f]| :: p.edges[f][k].target == file
  }

  /** Second phase: files below `n` that no root touches and no file declares. */
  ghost function EntrySeeds(p: Project, n: nat): seq<Node> {
    if n == 0 then []
    else EntrySeeds(p, n - 1) + if Touched(p, p.roots, n - 1) || Declared(p, n - 1) then [] else [Node(n - 1, false)]
  }

  /** Third phase: in file order, each file that no seed before it touches. */
  ghost function CycleSeeds(p: Project, n: nat): seq<Node> {
    if n == 0 then p.roots + EntrySeeds(p, |p.edges|)
    else
      var seeds := CycleSeeds(p, n - 1);
      if Touched(p, seeds, n - 1) then seeds else seeds + [Node(n - 1, false)]
  }

  ghost function Seeds(p: Project): seq<Node> {
    CycleSeeds(p, |p.edges|)
  }

  /** A file walk along declarations that are not compiled for tests only. */
  ghost predicate IsProductionWalk(p: Project, walk: seq<nat>) {
    walk != [] && forall k | 0 <= k < |walk| - 1 :: Declares(p, walk[k], walk[k + 1])
  }

  ghost predicate Declares(p: Project, a: nat, b: nat) {
    a < |p.edges| && Edge(b, false) in p.edges[a]
  }

  ghost predicate InProduction(p: Project, seeds: seq<Node>, file: nat) {
    exists walk: seq<nat> :: IsProductionWalk(p, walk) && Node(walk[0], false) in seeds && walk[|walk| - 1] == file
  }

  /** Production flags travel along production declarations only. */
  lemma ReachedInProduction(p: Project, seeds: seq<Node>, file: nat)
    ensures Reached(p, seeds, Node(file, false)) <==> InProduction(p, seeds, file)
  {
    if Reached(p, seeds, Node(file, false)) {
      var walk: seq<Node> :| Leads(p, seeds, walk, Node(file, false));
      var files := seq(|walk|, k requires 0 <= k < |walk| => walk[k].file);
      WalkIsProduction(p, walk, 0);
      forall k | 0 <= k < |files| - 1 ensures Declares(p, files[k], files[k + 1]) {
        WalkIsProduction(p, walk, k);
        assert Steps(p, walk[k], walk[k + 1]);
      }
      assert IsProductionWalk(p, files);
      assert walk[0] == Node(files[0], false);
    }
    if InProduction(p, seeds, file) {
      var files :| IsProductionWalk(p, files) && Node(files[0], false) in seeds && files[|files| - 1] == file;
      ProductionReached(p, seeds, files, |files| - 1);
    }
  }

  lemma {:induction false} WalkIsProduction(p: Project, walk: seq<Node>, k: nat)
    requires IsWalk(p, walk) && !walk[|walk| - 1].test && k < |walk|
    ensures forall i | k <= i < |walk| :: !walk[i].test
    decreases |walk| - k
  {
    if k < |walk| - 1 {
      WalkIsProduction(p, walk, k + 1);
      assert Steps(p, walk[k], walk[k + 1]);
    }
  }

  lemma {:induction false} ProductionReached(p: Project, seeds: seq<Node>, files: seq<nat>, k: nat)
    requires IsProductionWalk(p, files) && Node(files[0], false) in seeds && k < |files|
    ensures Reached(p, seeds, Node(files[k], false))
  {
    if k == 0 {
      SeedReached(p, seeds, Node(files[0], false));
    } else {
      ProductionReached(p, seeds, files, k - 1);
      assert Declares(p, files[k - 1], files[k - 1 + 1]);
      var a, b := Node(files[k - 1], false), Node(files[k], false);
      var edges := p.edges[a.file];
      var i :| 0 <= i < |edges| && edges[i] == Edge(b.file, false);
      assert Follow(a, edges[i]) == b;
      StepReached(p, seeds, a, b);
    }
  }

  lemma FlagSets(flags: set<bool>)
    ensures flags == {} <==> true !in flags && false !in flags
    ensures flags == {true} <==> true in flags && false !in flags
  {
    assert flags == (if true in flags then {true} else {}) + (if false in flags then {false} else {}) by {
      assert forall flag: bool | flag in flags :: flag == true || flag == false;
    }
  }

  lemma ClassifiedIsTouched(p: Project, states: seq<set<bool>>, seeds: seq<Node>, file: nat)
    requires Exactly(p, states, seeds) && file < |states|
    ensures states[file] != {} <==> Touched(p, seeds, file)
    ensures states[file] == {true} <==> Touched(p, seeds, file) && !Reached(p, seeds, Node(file, false))
  {
    assert In(states, Node(file, false)) <==> Reached(p, seeds, Node(file, false));
    assert In(states, Node(file, true)) <==> Reached(p, seeds, Node(file, true));
    FlagSets(states[file]);
  }

  /** All files that some file declares. */
  method Incoming(p: Project) returns (incoming: set<nat>)
    ensures forall file :: file in incoming <==> Declared(p, file)
  {
    incoming := {};
    for f := 0 to |p.edges|
      invariant forall file :: file in incoming <==>
        exists g: nat, k: nat | g < f && k < |p.edges[g]| :: p.edges[g][k].target == file
    {
      var targets := set k: nat | k < |p.edges[f]| :: p.edges[f][k].target;
      incoming := incoming + targets;
    }
  }

  lemma {:induction false} EntrySeedsLocated(p: Project, n: nat)
    requires n <= |p.edges|
    ensures Located(p, EntrySeeds(p, n))
  {
    if n > 0 {
      EntrySeedsLocated(p, n - 1);
    }
  }

  /**
   * The test-only files are exactly those that no production seed reaches along production
   * declarations, and every file is reached by some seed.
   */
  method FindTestFiles(p: Project) returns (files: set<nat>)
    requires Valid(p)
    ensures forall f: nat :: f in files <==> f < |p.edges| && !InProduction(p, Seeds(p), f)
    ensures forall f | 0 <= f < |p.edges| :: Touched(p, Seeds(p), f)
  {
    var classifier := new Classifier(p);
    classifier.Propagate(p.roots, []);
    assert [] + p.roots == p.roots;
    var incoming := Incoming(p);
    var entries: seq<Node> := [];
    for f := 0 to |p.edges|
      invariant entries == EntrySeeds(p, f) && classifier.project == p && Exactly(p, classifier.states, p.roots)
    {
      ClassifiedIsTouched(p, classifier.states, p.roots, f);
      if classifier.states[f] == {} && f !in incoming {
        entries := entries + [Node(f, false)];
      }
    }
    EntrySeedsLocated(p, |p.edges|);
    classifier.Propagate(entries, p.roots);
    ghost var seeds := CycleSeeds(p, 0);
    for f := 0 to |p.edges|
      invariant seeds == CycleSeeds(p, f) && Exactly(p, classifier.states, seeds)
      invariant forall g | 0 <= g < f :: Touched(p, seeds, g)
    {
      ClassifiedIsTouched(p, classifier.states, seeds, f);
      if classifier.states[f] == {} {
        classifier.Propagate([Node(f, false)], seeds);
        OneMoreSeed(p, seeds, f);
        seeds := seeds + [Node(f, false)];
      }
    }
    forall f | 0 <= f < |p.edges| ensures classifier.states[f] == {true} <==> !InProduction(p, seeds, f) {
      ClassifiedIsTouched(p, classifier.states, seeds, f);
      ReachedInProduction(p, seeds, f);
    }
    files := set f | 0 <= f < |p.edges| && classifier.states[f] == {true};
  }

  lemma OneMoreSeed(p: Project, seeds: seq<Node>, file: nat)
    ensures Touched(p, seeds + [Node(file, false)], file)
    ensures forall g | 0 <= g && Touched(p, seeds, g) :: Touched(p, seeds + [Node(file, false)], g)
  {
    var more := seeds + [Node(file, false)];
    SeedReached(p, more, Node(file, false));
    forall g: nat, test: bool | 0 <= g && Reached(p, seeds, Node(g, test)) ensures Reached(p, more, Node(g, test)) {
      MoreSeeds(p, seeds, more, Node(g, test));
    }
  }

  /** The second phase seeds exactly the files that no root touches and no file declares. */
  lemma {:induction false} EntrySeedsExactly(p: Project, n: nat, node: Node)
    ensures node in EntrySeeds(p, n) <==> !node.test && node.file < n && !Touched(p, p.roots, node.file) && !Declared(p, node.file)
  {
    if n > 0 {
      EntrySeedsExactly(p, n - 1, node);
    }
  }

  lemma {:induction false} LateSeedIsNew(p: Project, n: nat, node: Node)
    requires node in CycleSeeds(p, n) && node !in CycleSeeds(p, 0)
    ensures !node.test && node.file < n && !Touched(p, CycleSeeds(p, 0), node.file)
  {
    if node !in CycleSeeds(p, n - 1) {
      SeedsGrow(p, n - 1);
      if Reached(p, CycleSeeds(p, 0), Node(n - 1, false)) {
        MoreSeeds(p, CycleSeeds(p, 0), CycleSeeds(p, n - 1), Node(n - 1, false));
      }
      if Reached(p, CycleSeeds(p, 0), Node(n - 1, true)) {
        MoreSeeds(p, CycleSeeds(p, 0), CycleSeeds(p, n - 1), Node(n - 1, true));
      }
    } else {
      LateSeedIsNew(p, n - 1, node);
    }
  }

  lemma {:induction false} SeedsGrow(p: Project, n: nat)
    ensures forall s | s in CycleSeeds(p, 0) :: s in CycleSeeds(p, n)
  {
    if n > 0 {
      SeedsGrow(p, n - 1);
    }
  }

  /**
   * The third phase seeds only files behind cycles: each is declared, and every file that declares it is
   * itself touched by no root and no entry file.
   */
  lemma LateSeedsBehindCycles(p: Project, node: Node, f: nat, k: nat)
    requires node in Seeds(p) && node !in CycleSeeds(p, 0)
    ensures Declared(p, node.file)
    ensures f < |p.edges| && k < |p.edges[f]| && p.edges[f][k].target == node.file ==> !Touched(p, CycleSeeds(p, 0), f)
  {
    var early, n := CycleSeeds(p, 0), |p.edges|;
    LateSeedIsNew(p, n, node);
    if !Declared(p, node.file) {
      if Touched(p, p.roots, node.file) {
        TouchedByMore(p, p.roots, early, node.file);
      }
      EntrySeedsExactly(p, n, node);
      SeedReached(p, early, node);
    }
    if f < n && k < |p.edges[f]| && p.edges[f][k].target == node.file && Touched(p, early, f) {
      var test := if Reached(p, early, Node(f, false)) then false else true;
      var a := Node(f, test);
      var b := Follow(a, p.edges[f][k]);
      assert Steps(p, a, b);
      StepReached(p, early, a, b);
    }
  }

  lemma TouchedByMore(p: Project, seeds: seq<Node>, more: seq<Node>, file: nat)
    requires Touched(p, seeds, file) && forall s | s in seeds :: s in more
    ensures Touched(p, more, file)
  {
    if Reached(p, seeds, Node(file, false)) {
      MoreSeeds(p, seeds, more, Node(file, false));
    } else {
      MoreSeeds(p, seeds, more, Node(file, true));
    }
  }
}
