/** Whole-program checks over a possibly cyclic module graph (program.rs). */
module ProgramGraph {
  import opened Wrappers

  /** A struct or enum layout, identified by its declaration and type arguments. */
  datatype Layout = Layout(declaration: nat, arguments: seq<nat>, body: nat)

  datatype Module = Module(
    identity: nat,
    dependencies: seq<nat>,
    targets: seq<nat>,       // modules named by cross-module calls and interface tables
    origins: seq<nat>,       // modules named as debug sources
    structures: seq<Layout>,
    enumerations: seq<Layout>)

  datatype Program = Program(root: nat, modules: seq<Module>)

  datatype Error = InvalidProgramGraph | InvalidStructLayout | InvalidEnumLayout | Cancelled

  /** The caller's cancellation token: an arbitrary answer to each check. */
  class Token {
    const answers: nat -> bool
    var checks: nat

    constructor (answers: nat -> bool)
      ensures this.answers == answers && checks == 0
    {
      this.answers, checks := answers, 0;
    }

    method Check() returns (cancelled: bool)
      modifies this
      ensures checks == old(checks) + 1 && cancelled == answers(old(checks))
    {
      cancelled := answers(checks);
      checks := checks + 1;
    }
  }

  /** The token never reports a cancellation. */
  ghost predicate Quiet(token: Token) {
    forall k: nat :: !token.answers(k)
  }

  // ------------------------------------------------------------ reachability

  ghost predicate Closed(p: Program) {
    forall m, k | 0 <= m < |p.modules| && 0 <= k < |p.modules[m].dependencies| :: p.modules[m].dependencies[k] < |p.modules|
  }

  ghost predicate Edge(p: Program, a: nat, b: nat) {
    a < |p.modules| && b in p.modules[a].dependencies
  }

  ghost predicate IsPath(p: Program, path: seq<nat>) {
    path != [] && forall k | 0 <= k < |path| - 1 :: Edge(p, path[k], path[k + 1])
  }

  ghost predicate Connects(p: Program, path: seq<nat>, a: nat, b: nat) {
    IsPath(p, path) && path[0] == a && path[|path| - 1] == b
  }

  /** `b` is in `start`, or follows from it by dependency edges. */
  ghost predicate ReachedFrom(p: Program, start: seq<nat>, b: nat) {
    exists path :: IsPath(p, path) && path[0] in start && path[|path| - 1] == b
  }

  /** `b` follows from `a` by one or more dependency edges. */
  ghost predicate DependsOn(p: Program, a: nat, b: nat) {
    exists path :: Connects(p, path, a, b) && 2 <= |path|
  }

  lemma ReachedStart(p: Program, start: seq<nat>, b: nat)
    requires b in start
    ensures ReachedFrom(p, start, b)
  {
    assert IsPath(p, [b]);
  }

  lemma ReachedEdge(p: Program, start: seq<nat>, a: nat, b: nat)
    requires ReachedFrom(p, start, a) && Edge(p, a, b)
    ensures ReachedFrom(p, start, b)
  {
    var path :| IsPath(p, path) && path[0] in start && path[|path| - 1] == a;
    assert IsPath(p, path + [b]);
  }

  /** A set that contains the start and is closed under dependencies contains all that is reached. */
  lemma {:induction false} ClosedContains(p: Program, start: seq<nat>, found: set<nat>, path: seq<nat>, k: nat)
    requires IsPath(p, path) && path[0] in start && k < |path|
    requires forall a | a in start :: a in found
    requires forall a, b | a in found && Edge(p, a, b) :: b in found
    ensures path[k] in found
  {
    if 0 < k {
      ClosedContains(p, start, found, path, k - 1);
      assert Edge(p, path[k - 1], path[k - 1 + 1]);
    }
  }

  /** Starting from a module's own dependencies reaches exactly what it depends on. */
  lemma DependenciesReach(p: Program, m: nat, b: nat)
    requires m < |p.modules|
    ensures ReachedFrom(p, p.modules[m].dependencies, b) <==> DependsOn(p, m, b)
  {
    if ReachedFrom(p, p.modules[m].dependencies, b) {
      var path :| IsPath(p, path) && path[0] in p.modules[m].dependencies && path[|path| - 1] == b;
      var longer := [m] + path;
      assert Edge(p, m, path[0]);
      assert forall k | 0 <= k < |longer| - 1 :: Edge(p, longer[k], longer[k + 1]);
      assert Connects(p, longer, m, b);
    }
    if DependsOn(p, m, b) {
      var path :| Connects(p, path, m, b) && 2 <= |path|;
      assert Edge(p, path[0], path[0 + 1]);
      var rest := path[1..];
      forall k | 0 <= k < |rest| - 1 ensures Edge(p, rest[k], rest[k + 1]) {
        assert Edge(p, path[k + 1], path[k + 1 + 1]);
      }
      assert IsPath(p, rest);
    }
  }

  // ---------------------------------------------------------------- worklist

  /** What the worklist loop keeps: found modules are reached, and their dependencies found or pending. */
  ghost predicate Progress(p: Program, start: seq<nat>, found: set<nat>, pending: seq<nat>) {
    && (forall a | a in found :: a < |p.modules| && ReachedFrom(p, start, a))
    && (forall a | a in pending :: a < |p.modules| && ReachedFrom(p, start, a))
    && (forall a | a in start :: a in found || a in pending)
    && (forall a, b | a in found && Edge(p, a, b) :: b in found || b in pending)
  }

  lemma ProgressPop(p: Program, start: seq<nat>, found: set<nat>, pending: seq<nat>)
    requires Closed(p) && pending != [] && Progress(p, start, found, pending)
    ensures var m, rest := pending[|pending| - 1], pending[..|pending| - 1];
            && m < |p.modules|
            && (m in found ==> Progress(p, start, found, rest))
            && (m !in found ==> Progress(p, start, found + {m}, rest + p.modules[m].dependencies))
  {
    var m, rest := pending[|pending| - 1], pending[..|pending| - 1];
    assert pending == rest + [m];
    assert forall b | b in pending :: b in rest || b == m;
    if m !in found {
      var more := rest + p.modules[m].dependencies;
      forall b | b in more ensures b < |p.modules| && ReachedFrom(p, start, b) {
        if b in rest {
          assert b in pending;
        } else {
          var k :| 0 <= k < |p.modules[m].dependencies| && p.modules[m].dependencies[k] == b;
          ReachedEdge(p, start, m, b);
        }
      }
    }
  }

  lemma {:induction false} FoundBounded(found: set<nat>, n: nat)
    requires forall a | a in found :: a < n
    ensures |found| <= n
  {
    if 0 < n {
      FoundBounded(found - {n - 1}, n - 1);
    } else {
      assert found == {};
    }
  }

  /** Depth-first closure; cycles are cut by the found set. */
  method Closure(p: Program, start: seq<nat>, token: Token) returns (r: Result<set<nat>, Error>)
    requires Closed(p) && forall a | a in start :: a < |p.modules|
    modifies token
    ensures r.Ok? ==> forall b: nat :: b in r.value <==> ReachedFrom(p, start, b)
    ensures r.Err? ==> r.error == Cancelled && !Quiet(token)
  {
    var found: set<nat> := {};
    var pending := start;
    forall a | a in start ensures ReachedFrom(p, start, a) {
      ReachedStart(p, start, a);
    }
    while pending != []
      invariant Progress(p, start, found, pending)
      decreases |p.modules| - |found|, |pending|
    {
      var m := pending[|pending| - 1];
      ProgressPop(p, start, found, pending);
      pending := pending[..|pending| - 1];
      var cancelled := token.Check();
      if cancelled {
        return Err(Cancelled);
      }
      if m !in found {
        FoundBounded(found + {m}, |p.modules|);
        found := found + {m};
        pending := pending + p.modules[m].dependencies;
      }
    }
    forall b: nat | ReachedFrom(p, start, b) ensures b in found {
      var path :| IsPath(p, path) && path[0] in start && path[|path| - 1] == b;
      ClosedContains(p, start, found, path, |path| - 1);
    }
    return Ok(found);
  }

  // ---------------------------------------------------- what must be accepted

  const MAX_MODULES: nat := 0xffff_ffff

  ghost predicate Distinct(s: seq<nat>) {
    forall i, j | 0 <= i < j < |s| :: s[i] != s[j]
  }

  /** Dependencies name modules of the program, each once. */
  ghost predicate DependenciesOk(p: Program, m: nat)
    requires m < |p.modules|
  {
    var d := p.modules[m].dependencies;
    (forall k | 0 <= k < |d| :: d[k] < |p.modules|) && Distinct(d)
  }

  ghost predicate IdentitiesOk(p: Program) {
    forall a, b | 0 <= a < b < |p.modules| :: p.modules[a].identity != p.modules[b].identity
  }

  /** Equal declarations and type arguments have equal layouts. */
  ghost predicate Coherent(all: seq<Layout>) {
    forall i, j | 0 <= i < |all| && 0 <= j < |all| && all[i].declaration == all[j].declaration && all[i].arguments == all[j].arguments ::
      all[i] == all[j]
  }

  function Key(l: Layout): (nat, seq<nat>) {
    (l.declaration, l.arguments)
  }

  ghost function Structures(p: Program, n: nat): seq<Layout>
    requires n <= |p.modules|
  {
    if n == 0 then [] else Structures(p, n - 1) + p.modules[n - 1].structures
  }

  ghost function Enumerations(p: Program, n: nat): seq<Layout>
    requires n <= |p.modules|
  {
    if n == 0 then [] else Enumerations(p, n - 1) + p.modules[n - 1].enumerations
  }

  /** The module names only itself and what it depends on. */
  ghost predicate VisibleOk(p: Program, m: nat)
    requires m < |p.modules|
  {
    && (forall t | t in p.modules[m].targets :: t == m || DependsOn(p, m, t))
    && (forall t | t in p.modules[m].origins :: t == m || DependsOn(p, m, t))
  }

  /** The first `n` modules name only what they may. */
  ghost predicate AllVisible(p: Program, n: nat)
    requires n <= |p.modules|
  {
    forall m {:trigger VisibleOk(p, m)} | 0 <= m < n :: VisibleOk(p, m)
  }

  ghost predicate GraphOk(p: Program) {
    && |p.modules| <= MAX_MODULES && p.root < |p.modules|
    && (forall m {:trigger DependenciesOk(p, m)} | 0 <= m < |p.modules| :: DependenciesOk(p, m))
    && IdentitiesOk(p)
    && Coherent(Structures(p, |p.modules|)) && Coherent(Enumerations(p, |p.modules|))
    && AllVisible(p, |p.modules|)
    && (forall m: nat | m < |p.modules| :: ReachedFrom(p, [p.root], m))
  }

  // ------------------------------------------------------------- the checks

  method CheckDependencies(p: Program) returns (ok: bool)
    ensures ok <==> forall m {:trigger DependenciesOk(p, m)} | 0 <= m < |p.modules| :: DependenciesOk(p, m)
  {
    for m := 0 to |p.modules|
      invariant forall k {:trigger DependenciesOk(p, k)} | 0 <= k < m :: DependenciesOk(p, k)
    {
      var one := DistinctDependencies(p, m);
      if !one {
        assert !DependenciesOk(p, m);
        return false;
      }
    }
    return true;
  }

  method DistinctDependencies(p: Program, m: nat) returns (ok: bool)
    requires m < |p.modules|
    ensures ok <==> DependenciesOk(p, m)
  {
    var d := p.modules[m].dependencies;
    var seen: set<nat> := {};
    for k := 0 to |d|
      invariant forall x :: x in seen <==> x in d[..k]
      invariant Distinct(d[..k]) && forall i | 0 <= i < k :: d[i] < |p.modules|
    {
      if d[k] >= |p.modules| || d[k] in seen {
        return false;
      }
      seen := seen + {d[k]};
      assert d[..k + 1] == d[..k] + [d[k]];
    }
    assert d[..|d|] == d;
    return true;
  }

  method CheckIdentities(p: Program, token: Token) returns (error: Option<Error>)
    modifies token
    ensures error.None? ==> IdentitiesOk(p)
    ensures error == Some(InvalidProgramGraph) ==> !IdentitiesOk(p)
    ensures error.None? || error == Some(InvalidProgramGraph) || (error == Some(Cancelled) && !Quiet(token))
  {
    var seen: set<nat> := {};
    for m := 0 to |p.modules|
      invariant forall x :: x in seen <==> exists a | 0 <= a < m :: p.modules[a].identity == x
      invariant forall a, b | 0 <= a < b < m :: p.modules[a].identity != p.modules[b].identity
    {
      var cancelled := token.Check();
      if cancelled {
        return Some(Cancelled);
      }
      if p.modules[m].identity in seen {
        return Some(InvalidProgramGraph);
      }
      seen := seen + {p.modules[m].identity};
    }
    return None;
  }

  /** The map holds exactly the layouts seen so far, one per key. */
  ghost predicate Tracks(seen: map<(nat, seq<nat>), Layout>, all: seq<Layout>) {
    && (forall i | 0 <= i < |all| :: Key(all[i]) in seen && seen[Key(all[i])] == all[i])
    && (forall k | k in seen :: exists i | 0 <= i < |all| :: all[i] == seen[k] && Key(all[i]) == k)
  }

  lemma TracksOne(seen: map<(nat, seq<nat>), Layout>, all: seq<Layout>, l: Layout)
    requires Tracks(seen, all)
    ensures Key(l) in seen && seen[Key(l)] != l ==> !Coherent(all + [l])
    ensures Key(l) !in seen || seen[Key(l)] == l ==> Tracks(seen[Key(l) := l], all + [l])
  {
    var more := all + [l];
    assert more[|all|] == l;
    if Key(l) in seen && seen[Key(l)] != l {
      var i :| 0 <= i < |all| && all[i] == seen[Key(l)] && Key(all[i]) == Key(l);
      assert more[i] == all[i];
    } else {
      var seen' := seen[Key(l) := l];
      forall k | k in seen' ensures exists i | 0 <= i < |more| :: more[i] == seen'[k] && Key(more[i]) == k {
        if k == Key(l) {
          assert more[|all|] == seen'[k];
        } else {
          var i :| 0 <= i < |all| && all[i] == seen[k] && Key(all[i]) == k;
          assert more[i] == seen'[k];
        }
      }
    }
  }

  lemma TracksCoherent(seen: map<(nat, seq<nat>), Layout>, all: seq<Layout>)
    requires Tracks(seen, all)
    ensures Coherent(all)
  {
  }

  lemma CoherentPrefix(a: seq<Layout>, b: seq<Layout>)
    requires Coherent(a + b)
    ensures Coherent(a)
  {
    assert forall i | 0 <= i < |a| :: (a + b)[i] == a[i];
  }

  /** Adds one module's layouts; stops at the first that contradicts an earlier one. */
  method AddLayouts(seen: map<(nat, seq<nat>), Layout>, layouts: seq<Layout>, ghost all: seq<Layout>)
    returns (ok: bool, more: map<(nat, seq<nat>), Layout>)
    requires Tracks(seen, all)
    ensures ok ==> Tracks(more, all + layouts)
    ensures !ok ==> !Coherent(all + layouts)
  {
    more := seen;
    ghost var done := all;
    for k := 0 to |layouts|
      invariant done == all + layouts[..k] && Tracks(more, done)
    {
      var l := layouts[k];
      TracksOne(more, done, l);
      assert done + [l] == all + layouts[..k + 1];
      if Key(l) in more && more[Key(l)] != l {
        StaysIncoherent(done + [l], layouts[k + 1..], all + layouts);
        return false, more;
      }
      more, done := more[Key(l) := l], done + [l];
    }
    assert done == all + layouts;
    return true, more;
  }

  lemma StaysIncoherent(a: seq<Layout>, b: seq<Layout>, all: seq<Layout>)
    requires !Coherent(a) && all == a + b
    ensures !Coherent(all)
  {
    if Coherent(all) {
      CoherentPrefix(a, b);
    }
  }

  method CheckVisible(p: Program, m: nat, reachable: set<nat>) returns (ok: bool)
    requires m < |p.modules| && forall b: nat :: b in reachable <==> DependsOn(p, m, b)
    ensures ok <==> VisibleOk(p, m)
  {
    var names := p.modules[m].targets + p.modules[m].origins;
    for k := 0 to |names|
      invariant forall i | 0 <= i < k :: names[i] == m || names[i] in reachable
    {
      if names[k] != m && names[k] !in reachable {
        assert names[k] in p.modules[m].targets || names[k] in p.modules[m].origins;
        return false;
      }
    }
    forall t | t in p.modules[m].targets || t in p.modules[m].origins ensures t == m || DependsOn(p, m, t) {
      assert t in names;
    }
    return true;
  }

  /** A set of `n` numbers below `n` is all of them. */
  lemma {:induction false} FullCount(found: set<nat>, n: nat, m: nat)
    requires (forall a | a in found :: a < n) && |found| == n && m < n
    ensures m in found
  {
    FoundBounded(found - {n - 1}, n - 1);
    if m < n - 1 {
      FullCount(found - {n - 1}, n - 1, m);
    }
  }

  lemma {:induction false} CountAll(found: set<nat>, n: nat)
    requires forall m: nat | m < n :: m in found
    ensures n <= |found|
  {
    if 0 < n {
      var rest := found - {n - 1};
      assert forall m: nat | m < n - 1 :: m in rest;
      CountAll(rest, n - 1);
    }
  }

  lemma ReachedInRange(p: Program, start: seq<nat>, b: nat)
    requires Closed(p) && (forall a | a in start :: a < |p.modules|) && ReachedFrom(p, start, b)
    ensures b < |p.modules|
  {
    var path :| IsPath(p, path) && path[0] in start && path[|path| - 1] == b;
    if 1 < |path| {
      assert Edge(p, path[|path| - 2], path[|path| - 2 + 1]);
    }
  }

  method CheckRoot(p: Program, token: Token) returns (error: Option<Error>)
    requires Closed(p) && p.root < |p.modules|
    modifies token
    ensures error.None? ==> forall m: nat | m < |p.modules| :: ReachedFrom(p, [p.root], m)
    ensures error == Some(InvalidProgramGraph) ==> !(forall m: nat | m < |p.modules| :: ReachedFrom(p, [p.root], m))
    ensures error.None? || error == Some(InvalidProgramGraph) || (error == Some(Cancelled) && !Quiet(token))
  {
    var r := Closure(p, [p.root], token);
    if r.Err? {
      return Some(r.error);
    }
    var found := r.value;
    forall a | a in found ensures a < |p.modules| {
      ReachedInRange(p, [p.root], a);
    }
    if |found| != |p.modules| {
      FoundBounded(found, |p.modules|);
      if forall m: nat | m < |p.modules| :: ReachedFrom(p, [p.root], m) {
        CountAll(found, |p.modules|);
      }
      return Some(InvalidProgramGraph);
    }
    forall m: nat | m < |p.modules| ensures ReachedFrom(p, [p.root], m) {
      FullCount(found, |p.modules|, m);
    }
    return None;
  }

  lemma LayoutPrefix(p: Program, n: nat)
    requires n <= |p.modules|
    ensures Coherent(Structures(p, |p.modules|)) ==> Coherent(Structures(p, n))
    ensures Coherent(Enumerations(p, |p.modules|)) ==> Coherent(Enumerations(p, n))
    decreases |p.modules| - n
  {
    if n < |p.modules| {
      LayoutPrefix(p, n + 1);
      if Coherent(Structures(p, n + 1)) {
        CoherentPrefix(Structures(p, n), p.modules[n].structures);
      }
      if Coherent(Enumerations(p, n + 1)) {
        CoherentPrefix(Enumerations(p, n), p.modules[n].enumerations);
      }
    }
  }

  /** The names a module uses, against the closure of its dependencies. */
  method CheckNames(p: Program, m: nat, token: Token) returns (error: Option<Error>)
    requires Closed(p) && m < |p.modules|
    modifies token
    ensures error.None? ==> VisibleOk(p, m)
    ensures error == Some(InvalidProgramGraph) ==> !VisibleOk(p, m)
    ensures error.None? || error == Some(InvalidProgramGraph) || (error == Some(Cancelled) && !Quiet(token))
  {
    var r := Closure(p, p.modules[m].dependencies, token);
    if r.Err? {
      return Some(Cancelled);
    }
    forall b: nat ensures b in r.value <==> DependsOn(p, m, b) {
      DependenciesReach(p, m, b);
    }
    var ok := CheckVisible(p, m, r.value);
    return if ok then None else Some(InvalidProgramGraph);
  }

  lemma OneMoreVisible(p: Program, n: nat)
    requires n < |p.modules| && AllVisible(p, n) && VisibleOk(p, n)
    ensures AllVisible(p, n + 1)
  {
  }

  /** Layouts, dependency closure and visible names of every module. */
  method CheckModules(p: Program, token: Token) returns (error: Option<Error>)
    requires Closed(p)
    modifies token
    ensures error.None? ==> Coherent(Structures(p, |p.modules|)) && Coherent(Enumerations(p, |p.modules|))
    ensures error.None? ==> AllVisible(p, |p.modules|)
    ensures error == Some(InvalidStructLayout) ==> !Coherent(Structures(p, |p.modules|))
    ensures error == Some(InvalidEnumLayout) ==> !Coherent(Enumerations(p, |p.modules|))
    ensures error == Some(InvalidProgramGraph) ==> !AllVisible(p, |p.modules|)
    ensures error == Some(Cancelled) ==> !Quiet(token)
  {
    var structures: map<(nat, seq<nat>), Layout> := map[];
    var enumerations: map<(nat, seq<nat>), Layout> := map[];
    for m := 0 to |p.modules|
      invariant Tracks(structures, Structures(p, m)) && Tracks(enumerations, Enumerations(p, m))
      invariant AllVisible(p, m)
    {
      var cancelled := token.Check();
      if cancelled {
        return Some(Cancelled);
      }
      LayoutPrefix(p, m + 1);
      var ok, more := AddLayouts(structures, p.modules[m].structures, Structures(p, m));
      if !ok {
        return Some(InvalidStructLayout);
      }
      structures := more;
      ok, more := AddLayouts(enumerations, p.modules[m].enumerations, Enumerations(p, m));
      if !ok {
        return Some(InvalidEnumLayout);
      }
      enumerations := more;
      error := CheckNames(p, m, token);
      if error.Some? {
        return;
      }
      OneMoreVisible(p, m);
    }
    TracksCoherent(structures, Structures(p, |p.modules|));
    TracksCoherent(enumerations, Enumerations(p, |p.modules|));
    return None;
  }

  /** Accepts exactly the coherent graphs, unless cancelled. */
  method VerifyGraph(p: Program, token: Token) returns (error: Option<Error>)
    modifies token
    ensures error.None? ==> GraphOk(p)
    ensures error.Some? && error != Some(Cancelled) ==> !GraphOk(p)
    ensures error == Some(Cancelled) ==> !Quiet(token)
  {
    var cancelled := token.Check();
    if cancelled {
      return Some(Cancelled);
    }
    if |p.modules| > MAX_MODULES || p.root >= |p.modules| {
      return Some(InvalidProgramGraph);
    }
    var ok := CheckDependencies(p);
    if !ok {
      return Some(InvalidProgramGraph);
    }
    assert Closed(p) by {
      forall m, k | 0 <= m < |p.modules| && 0 <= k < |p.modules[m].dependencies|
        ensures p.modules[m].dependencies[k] < |p.modules|
      {
        assert DependenciesOk(p, m);
      }
    }
    error := CheckIdentities(p, token);
    if error.Some? {
      return;
    }
    error := CheckModules(p, token);
    if error.Some? {
      assert error.value.InvalidProgramGraph? || error.value.InvalidStructLayout? || error.value.InvalidEnumLayout? || error.value.Cancelled?;
      return;
    }
    error := CheckRoot(p, token);
  }

  lemma {:induction false} LayoutMembers(p: Program, n: nat)
    requires n <= |p.modules|
    ensures forall m, i | 0 <= m < n && 0 <= i < |p.modules[m].structures| :: p.modules[m].structures[i] in Structures(p, n)
    ensures forall m, i | 0 <= m < n && 0 <= i < |p.modules[m].enumerations| :: p.modules[m].enumerations[i] in Enumerations(p, n)
  {
    if n > 0 {
      LayoutMembers(p, n - 1);
    }
  }

  /** In an accepted program, any two modules agree on every struct and every enum layout they share. */
  lemma LayoutsAgree(p: Program, a: nat, i: nat, b: nat, j: nat)
    requires GraphOk(p) && a < |p.modules| && b < |p.modules|
    ensures i < |p.modules[a].structures| && j < |p.modules[b].structures| ==>
              var x, y := p.modules[a].structures[i], p.modules[b].structures[j];
              x.declaration == y.declaration && x.arguments == y.arguments ==> x.body == y.body
    ensures i < |p.modules[a].enumerations| && j < |p.modules[b].enumerations| ==>
              var x, y := p.modules[a].enumerations[i], p.modules[b].enumerations[j];
              x.declaration == y.declaration && x.arguments == y.arguments ==> x.body == y.body
  {
    LayoutMembers(p, |p.modules|);
    if i < |p.modules[a].structures| && j < |p.modules[b].structures| {
      CoherentPair(Structures(p, |p.modules|), p.modules[a].structures[i], p.modules[b].structures[j]);
    }
    if i < |p.modules[a].enumerations| && j < |p.modules[b].enumerations| {
      CoherentPair(Enumerations(p, |p.modules|), p.modules[a].enumerations[i], p.modules[b].enumerations[j]);
    }
  }

  lemma CoherentPair(all: seq<Layout>, x: Layout, y: Layout)
    requires Coherent(all) && x in all && y in all
    ensures x.declaration == y.declaration && x.arguments == y.arguments ==> x == y
  {
    var i :| 0 <= i < |all| && all[i] == x;
    var j :| 0 <= j < |all| && all[j] == y;
  }
}
