/** Types, abstract facts and their join in the access-flow verifier (access.rs). */
module AccessFacts {
  import opened Wrappers

  datatype Access = Mutable | ReadOnly

  datatype ReferenceAccess = SharedRef | MutableRef

  datatype NominalKind = StructKind | NativeObjectKind | EnumKind | TraitKind

  datatype Ty =
    | Builtin(kind: nat)
    | Host(id: nat)
    | SelfType(id: nat)
    | Parameter(id: nat, position: nat)
    | Projection(parts: seq<Ty>, id: nat)
    | Tuple(items: seq<Ty>)
    | Function(params: seq<Ty>, result: Ty)
    | Iter(item: Ty)
    | Range(item: Ty, bounds: nat)
    | Array(item: Ty)
    | Set(item: Ty, access: Access)
    | Map(key: Ty, value: Ty, access: Access)
    | Nominal(nominal: NominalKind, id: nat, arguments: seq<Ty>, associated: seq<Ty>)
    | Reference(target: Ty, reference: ReferenceAccess)

  /** A reference is stored in the value itself; callable signatures only describe future inputs. */
  predicate ContainsStoredReference(ty: Ty) {
    match ty
    case Reference(_, _) => true
    case Nominal(_, _, arguments, associated) =>
      (exists i | 0 <= i < |arguments| :: ContainsStoredReference(arguments[i]))
      || (exists i | 0 <= i < |associated| :: ContainsStoredReference(associated[i]))
    case Projection(parts, _) => exists i | 0 <= i < |parts| :: ContainsStoredReference(parts[i])
    case Tuple(items) => exists i | 0 <= i < |items| :: ContainsStoredReference(items[i])
    case Function(_, _) => false
    case Iter(item) => ContainsStoredReference(item)
    case Range(item, _) => ContainsStoredReference(item)
    case Array(item) => ContainsStoredReference(item)
    case Set(item, _) => ContainsStoredReference(item)
    case Map(key, value, _) => ContainsStoredReference(key) || ContainsStoredReference(value)
    case _ => false
  }

  /** The types directly inside a type, without callable signatures. */
  function Parts(ty: Ty): seq<Ty> {
    match ty
    case Nominal(_, _, arguments, associated) => arguments + associated
    case Projection(parts, _) => parts
    case Tuple(items) => items
    case Iter(item) => [item]
    case Range(item, _) => [item]
    case Array(item) => [item]
    case Set(item, _) => [item]
    case Map(key, value, _) => [key, value]
    case _ => []
  }

  ghost predicate SomeStored(types: seq<Ty>) {
    exists k | 0 <= k < |types| :: ContainsStoredReference(types[k])
  }

  lemma SomeStoredAppend(a: seq<Ty>, b: seq<Ty>)
    ensures SomeStored(a + b) <==> SomeStored(a) || SomeStored(b)
  {
    var all := a + b;
    if k :| 0 <= k < |a| && ContainsStoredReference(a[k]) {
      assert all[k] == a[k];
    }
    if k :| 0 <= k < |b| && ContainsStoredReference(b[k]) {
      assert all[|a| + k] == b[k];
    }
  }

  lemma PartsDecide(ty: Ty)
    ensures ContainsStoredReference(ty) <==> ty.Reference? || SomeStored(Parts(ty))
  {
    match ty
    case Nominal(_, _, arguments, associated) => SomeStoredAppend(arguments, associated);
    case Iter(item) => assert Parts(ty)[0] == item;
    case Range(item, _) => assert Parts(ty)[0] == item;
    case Array(item) => assert Parts(ty)[0] == item;
    case Set(item, _) => assert Parts(ty)[0] == item;
    case Map(key, value, _) => assert Parts(ty)[0] == key && Parts(ty)[1] == value;
    case _ =>
  }

  function Weight(ty: Ty): nat {
    match ty
    case Nominal(_, _, arguments, associated) => 1 + WeightAll(arguments) + WeightAll(associated)
    case Projection(parts, _) => 1 + WeightAll(parts)
    case Tuple(items) => 1 + WeightAll(items)
    case Iter(item) => 1 + Weight(item)
    case Range(item, _) => 1 + Weight(item)
    case Array(item) => 1 + Weight(item)
    case Set(item, _) => 1 + Weight(item)
    case Map(key, value, _) => 1 + Weight(key) + Weight(value)
    case _ => 1
  }

  function WeightAll(types: seq<Ty>): nat {
    if types == [] then 0 else Weight(types[0]) + WeightAll(types[1..])
  }

  lemma {:induction false} WeightAppend(a: seq<Ty>, b: seq<Ty>)
    ensures WeightAll(a + b) == WeightAll(a) + WeightAll(b)
  {
    if a == [] {
      assert a + b == b;
    } else {
      WeightAppend(a[1..], b);
      assert (a + b)[1..] == a[1..] + b;
    }
  }

  lemma PartsWeigh(ty: Ty)
    ensures WeightAll(Parts(ty)) < Weight(ty)
  {
    match ty
    case Nominal(_, _, arguments, associated) => WeightAppend(arguments, associated);
    case Map(key, value, _) =>
      assert [key, value][1..] == [value] && [value][1..] == [];
      assert WeightAll([value]) == Weight(value) + WeightAll([]);
    case Iter(item) => assert [item][1..] == [];
    case Range(item, _) => assert [item][1..] == [];
    case Array(item) => assert [item][1..] == [];
    case Set(item, _) => assert [item][1..] == [];
    case _ =>
  }

  /** The worklist search for a stored reference; it ends on every type and finds one exactly if there is one. */
  method FindStoredReference(ty: Ty) returns (found: bool)
    ensures found <==> ContainsStoredReference(ty)
  {
    var pending := [ty];
    while pending != []
      invariant SomeStored(pending) <==> ContainsStoredReference(ty)
      decreases WeightAll(pending)
    {
      var last := |pending| - 1;
      var next, rest := pending[last], pending[..last];
      assert pending == rest + [next];
      SomeStoredAppend(rest, [next]);
      SomeStoredAppend(rest, Parts(next));
      SomeStoredOne(next);
      PartsDecide(next);
      WeightAppend(rest, [next]);
      WeightAppend(rest, Parts(next));
      PartsWeigh(next);
      if next.Reference? {
        return true;
      }
      pending := rest + Parts(next);
    }
    return false;
  }

  lemma SomeStoredOne(ty: Ty)
    ensures SomeStored([ty]) <==> ContainsStoredReference(ty)
    ensures WeightAll([ty]) == Weight(ty)
  {
    assert [ty][0] == ty && [ty][1..] == [];
  }

  function CollectionAccess(ty: Ty): Option<Access> {
    match ty
    case Set(_, access) => Some(access)
    case Map(_, _, access) => Some(access)
    case _ => None
  }

  /** Only the outer capability of a reference, set or map may be given up. */
  predicate CanWeakenTo(source: Ty, target: Ty) {
    match (source, target)
    case (Reference(a, MutableRef), Reference(b, SharedRef)) => a == b
    case (Set(a, Mutable), Set(b, ReadOnly)) => a == b
    case (Map(ak, av, Mutable), Map(bk, bv, ReadOnly)) => ak == bk && av == bv
    case _ => false
  }

  lemma WeakeningKeepsReferences(source: Ty, target: Ty)
    requires CanWeakenTo(source, target)
    ensures ContainsStoredReference(source) == ContainsStoredReference(target)
  {
  }

  datatype Fact = Fact(ty: Option<Ty>, access: Option<Access>, conflict: bool, nodes: nat, isNew: bool) {
    predicate HoldsReference() {
      ty.Some? && ContainsStoredReference(ty.value)
    }
  }

  const Unknown: Fact := Fact(None, None, false, 0, false)

  function Typed(ty: Ty): Fact {
    Fact(Some(ty), CollectionAccess(ty), false, 0, true)
  }

  predicate Flows(source: Fact, target: Ty) {
    && !source.conflict
    && !(source.access == Some(ReadOnly) && CollectionAccess(target) == Some(Mutable))
    && match source.ty
       case Some(ty) => ty == target || CanWeakenTo(ty, target)
       case None => !ContainsStoredReference(target)
  }

  /** A fact that holds a reference can only flow into a type that does. */
  lemma FlowKeepsReference(source: Fact, target: Ty)
    requires Flows(source, target)
    ensures source.HoldsReference() ==> ContainsStoredReference(target)
  {
  }

  function JoinAccess(left: Option<Access>, right: Option<Access>): Option<Access> {
    if left == Some(ReadOnly) || right == Some(ReadOnly) then Some(ReadOnly)
    else if left == right then left
    else None
  }

  /** The declared fact of the slot, if both inputs flow into its type. */
  function Compatible(left: Fact, right: Fact, declared: Option<Fact>): Option<Fact> {
    if declared.Some? && declared.value.ty.Some?
       && Flows(left, declared.value.ty.value) && Flows(right, declared.value.ty.value)
    then declared else None
  }

  function JoinFacts(left: Fact, right: Fact, declared: Option<Fact>): Fact {
    if left == right then left
    else
      var compatible := Compatible(left, right, declared);
      var base := if compatible.Some? then compatible.value
                  else if left.HoldsReference() then left
                  else if right.HoldsReference() then right
                  else Unknown;
      base.(access := JoinAccess(left.access, right.access),
            conflict := left.conflict || right.conflict || (left.ty != right.ty && compatible.None?))
  }

  /** An uninitialized input makes the result uninitialized. */
  function Join(left: Option<Fact>, right: Option<Fact>, declared: Option<Fact>): Option<Fact> {
    if left.Some? && right.Some? then Some(JoinFacts(left.value, right.value, declared)) else None
  }

  /** The chain Mutable < unknown < ReadOnly. */
  function Rank(access: Option<Access>): nat {
    match access
    case Some(Mutable) => 0
    case None => 1
    case Some(ReadOnly) => 2
  }

  function Max(a: nat, b: nat): nat {
    if a < b then b else a
  }

  lemma JoinKeepsDanger(left: Fact, right: Fact, declared: Option<Fact>)
    ensures Rank(JoinFacts(left, right, declared).access) == Max(Rank(left.access), Rank(right.access))
    ensures left.conflict || right.conflict ==> JoinFacts(left, right, declared).conflict
    ensures left.HoldsReference() || right.HoldsReference() ==> JoinFacts(left, right, declared).HoldsReference()
  {
    var compatible := Compatible(left, right, declared);
    if compatible.Some? {
      FlowKeepsReference(left, compatible.value.ty.value);
      FlowKeepsReference(right, compatible.value.ty.value);
    }
  }

  /** Joining a list of incoming facts from the left, as the fixpoint loop does. */
  function JoinAll(facts: seq<Fact>, declared: Option<Fact>): Fact
    requires facts != []
  {
    if |facts| == 1 then facts[0]
    else JoinFacts(JoinAll(facts[..|facts| - 1], declared), facts[|facts| - 1], declared)
  }

  ghost function MaxRank(facts: seq<Fact>): nat {
    if facts == [] then 0 else Max(MaxRank(facts[..|facts| - 1]), Rank(facts[|facts| - 1].access))
  }

  /** However many facts meet, no danger is lost: access is the maximum, conflicts and references stay. */
  lemma {:induction false} JoinAllKeepsDanger(facts: seq<Fact>, declared: Option<Fact>)
    requires facts != []
    ensures Rank(JoinAll(facts, declared).access) == MaxRank(facts)
    ensures (exists i | 0 <= i < |facts| :: facts[i].conflict) ==> JoinAll(facts, declared).conflict
    ensures (exists i | 0 <= i < |facts| :: facts[i].HoldsReference()) ==> JoinAll(facts, declared).HoldsReference()
  {
    if |facts| == 1 {
      assert MaxRank(facts[..0]) == 0;
    } else {
      var front := facts[..|facts| - 1];
      JoinAllKeepsDanger(front, declared);
      JoinKeepsDanger(JoinAll(front, declared), facts[|facts| - 1], declared);
      assert forall i | 0 <= i < |front| :: facts[i] == front[i];
    }
  }

  lemma {:induction false} MaxRankBounds(facts: seq<Fact>)
    ensures forall i | 0 <= i < |facts| :: Rank(facts[i].access) <= MaxRank(facts)
    ensures facts != [] ==> exists i | 0 <= i < |facts| :: Rank(facts[i].access) == MaxRank(facts)
  {
    if facts != [] {
      var n := |facts| - 1;
      var front := facts[..n];
      MaxRankBounds(front);
      assert forall i | 0 <= i < n :: facts[i] == front[i];
      if front == [] || MaxRank(front) <= Rank(facts[n].access) {
        assert Rank(facts[n].access) == MaxRank(facts);
      } else {
        var i :| 0 <= i < n && Rank(front[i].access) == MaxRank(front);
        assert Rank(facts[i].access) == MaxRank(facts);
      }
    }
  }

  /** The joined access does not depend on the order in which predecessors are visited. */
  lemma JoinedAccessIgnoresOrder(a: seq<Fact>, b: seq<Fact>, declared: Option<Fact>, declared': Option<Fact>)
    requires a != [] && multiset(a) == multiset(b)
    ensures b != [] && JoinAll(a, declared).access == JoinAll(b, declared').access
  {
    assert |a| == |multiset(a)| == |multiset(b)| == |b|;
    JoinAllKeepsDanger(a, declared);
    JoinAllKeepsDanger(b, declared');
    MaxRankBounds(a);
    MaxRankBounds(b);
    MaxRankWithin(a, b);
    MaxRankWithin(b, a);
  }

  lemma MaxRankWithin(a: seq<Fact>, b: seq<Fact>)
    requires a != [] && multiset(a) == multiset(b)
    ensures MaxRank(a) <= MaxRank(b)
  {
    MaxRankBounds(a);
    MaxRankBounds(b);
    var i :| 0 <= i < |a| && Rank(a[i].access) == MaxRank(a);
    assert a[i] in multiset(a);
    var j :| 0 <= j < |b| && b[j] == a[i];
  }
}
