/** A function on which access verification forgets the type of a value at a join, and accepts its misuse. */
module AccessForgotten {
  import opened Wrappers
  import opened AccessFacts
  import opened AccessFlow
  import opened AccessSoundness
  import opened AccessCarried

  /** A mutable set. */
  function Items(): Ty {
    Set(Builtin(0), Mutable)
  }

  /**
   * A loop with two parameters: slot 0, of type `Items`, and slot 1, an undeclared parameter in a slot declared
   * `Items`. Each round passes slot 0 where `Builtin(1)` is declared, moves slot 1 there, and refills slot 1.
   */
  function Launderer(): Subject {
    Subject(Rules(_ => Some(Shape(1, 1)), _ => Some(Shape(1, 1)), _ => true), 2, map[1 := Items()], map[0 := Items()], [0, 1], None,
            [Call(None, Signature(1, map[0 := Builtin(1)], None), [0]),
             Move(0, 1),
             Call(Some(1), Signature(0, map[], Some(Items())), []),
             Jump])
  }

  function Round(): seq<Block> {
    [Block(0, 4, [0], [0], true, {0, 1})]
  }

  /** The declared fact, and the same type with unknown access. */
  function Declared(): Fact {
    Fact(Some(Items()), Some(Mutable), false, 1, false)
  }

  function Vague(): Fact {
    Fact(Some(Items()), None, false, 1, false)
  }

  function Solved(): seq<Flow> {
    [Flow([Some(Vague()), Some(Declared())], [None, None])]
  }

  function Joined(): Flow {
    Flow([Some(Unknown), Some(Vague())], [None, None])
  }

  lemma LaundererFits()
    ensures WellFormed(Launderer(), Round()) && AllSized(Launderer(), Solved())
  {
    var f := Launderer();
    forall pc | 0 <= pc < |f.code| ensures Fits(f, f.code[pc]) {
      assert pc == 0 || pc == 1 || pc == 2 || pc == 3;
    }
  }

  lemma LaundererFacts(f: Subject)
    requires f == Launderer()
    ensures DeclaredFact(f, 1) == Some(Declared()) && DeclaredFact(f, 0) == None
    ensures EntryFact(f, 0) == Declared() && EntryFact(f, 1) == Unknown
  {
  }

  lemma LaundererEntry(f: Subject)
    requires f == Launderer()
    ensures Entry(f) == Flow([Some(Declared()), Some(Unknown)], [None, None])
  {
    LaundererFacts(f);
    assert EntryRegisters(f, 0) == [None, None];
    assert EntryRegisters(f, 1) == [Some(Declared()), None];
    assert EntryRegisters(f, 2) == [Some(Declared()), Some(Unknown)];
  }

  lemma LaundererJoins()
    ensures Join(Some(Declared()), Some(Vague()), None) == Some(Unknown)
    ensures Join(Some(Unknown), Some(Declared()), Some(Declared())) == Some(Vague())
  {
  }

  lemma LaundererJoined(f: Subject, entry: Flow, out: Flow)
    requires f == Launderer() && entry == Flow([Some(Declared()), Some(Unknown)], [None, None]) && out == Solved()[0]
    ensures JoinFlows(f, entry, out) == Joined()
  {
    LaundererFacts(f);
    LaundererJoins();
    var joined := JoinFlows(f, entry, out);
    assert joined.registers == [Some(Unknown), Some(Vague())];
    assert joined.constants == [None, None];
  }

  lemma LaundererIncoming(f: Subject, blocks: seq<Block>, outputs: seq<Flow>, computed: seq<bool>)
    requires f == Launderer() && blocks == Round() && outputs == Solved() && computed == [true]
    requires WellFormed(f, blocks) && AllSized(f, outputs)
    ensures Incoming(f, blocks, outputs, computed, 0) == Some(Joined())
  {
    LaundererEntry(f);
    LaundererJoined(f, Entry(f), outputs[0]);
    assert IncomingUpTo(f, blocks, outputs, computed, 0, 0) == Some(Entry(f));
  }

  lemma LaundererSteps(f: Subject)
    requires f == Launderer() && WellFormed(f, Round())
    ensures Sized(f, Joined()) && Sized(f, Solved()[0]) && Sized(f, Moved())
    ensures Transfer(f, f.code[0], Joined()) == Joined() && Accepts(f, f.code[0], Joined())
    ensures Transfer(f, f.code[1], Joined()) == Moved() && Accepts(f, f.code[1], Joined())
    ensures Transfer(f, f.code[2], Moved()) == Solved()[0] && Accepts(f, f.code[2], Moved())
    ensures Transfer(f, f.code[3], Solved()[0]) == Solved()[0] && Accepts(f, f.code[3], Solved()[0])
  {
    LaundererFacts(f);
    assert Passable(Unknown, 0, f.code[0].target);
    assert OutputFact(f, f.code[1], Joined(), 0) == Vague();
    assert OutputFact(f, f.code[2], Moved(), 1) == Declared();
  }

  /** The state between the move and the refill. */
  function Moved(): Flow {
    Flow([Some(Vague()), Some(Vague())], [None, None])
  }

  lemma LaundererAt(f: Subject, blocks: seq<Block>)
    requires f == Launderer() && blocks == Round() && WellFormed(f, blocks) && Sized(f, Joined())
    ensures At(f, blocks, 0, Joined(), 0) == Joined() && At(f, blocks, 0, Joined(), 1) == Joined()
    ensures At(f, blocks, 0, Joined(), 2) == Moved() && At(f, blocks, 0, Joined(), 3) == Solved()[0]
    ensures At(f, blocks, 0, Joined(), 4) == Solved()[0]
  {
    LaundererSteps(f);
  }

  lemma LaundererChecked(f: Subject, blocks: seq<Block>)
    requires f == Launderer() && blocks == Round() && WellFormed(f, blocks)
    ensures FlowChecked(f, blocks)
  {
    assert InitializedAt(f, blocks, 0, 0) == {0, 1};
    assert InitializedAt(f, blocks, 0, 1) == {0, 1};
    assert InitializedAt(f, blocks, 0, 2) == {0, 1};
    assert InitializedAt(f, blocks, 0, 3) == {0, 1};
    assert InitializedAt(f, blocks, 0, 4) == {0, 1};
    assert EdgesChecked(f, blocks, 0);
    forall pc, k | 0 <= pc < 4 && 0 <= k < |Inputs(f.code[pc])| ensures Inputs(f.code[pc])[k] in InitializedAt(f, blocks, 0, pc) {
      assert pc == 0 || pc == 1 || pc == 2 || pc == 3;
    }
    assert ReadsChecked(f, blocks, 0);
    assert IsPath(blocks, [0], 0);
    assert Rooted(blocks, 0);
  }

  lemma LaundererCertified(f: Subject, blocks: seq<Block>, outputs: seq<Flow>)
    requires f == Launderer() && blocks == Round() && outputs == Solved() && WellFormed(f, blocks) && AllSized(f, outputs)
    ensures Certified(f, blocks, outputs)
  {
    assert AllComputed(|blocks|) == [true];
    LaundererIncoming(f, blocks, outputs, AllComputed(|blocks|));
    LaundererSteps(f);
    LaundererAt(f, blocks);
    forall pc | 0 <= pc < 4 ensures AcceptedPoint(f, blocks, 0, Joined(), pc) {
      assert pc == 0 || pc == 1 || pc == 2 || pc == 3;
    }
    assert BlockAccepted(f, blocks, 0, Joined());
    assert BlockCertified(f, blocks, outputs, 0);
  }

  /**
   * Without its exception the theorem fails: this function has an inductive, validated solution, and yet its first
   * instruction passes the parameter of type `Items` where `Builtin(1)` is declared.
   */
  lemma TypeCanBeForgotten()
    ensures var f, blocks, outputs := Launderer(), Round(), Solved();
            && WellFormed(f, blocks) && FlowChecked(f, blocks) && Certified(f, blocks, outputs)
            && Starts(f, blocks, Config(0, 0, [Some(Plain), Some(Plain)], World(map[], map[])))
            && EntryOrigins(f, 2)[0] == Some(Items())
            && Demands(f, f.code[0], Joined(), 0, Builtin(1)) && !Weakens(Items(), Builtin(1))
  {
    var f := Launderer();
    LaundererFits();
    LaundererChecked(f, Round());
    LaundererCertified(f, Round(), Solved());
    assert EntryOrigins(f, 1)[0] == Some(Items());
    assert f.code[0].arguments[0] == 0 && 0 in f.code[0].target.params && f.code[0].target.params[0] == Builtin(1);
    LaundererStarts(f, Round());
  }

  lemma LaundererStarts(f: Subject, blocks: seq<Block>)
    requires f == Launderer() && blocks == Round() && WellFormed(f, blocks)
    ensures Starts(f, blocks, Config(0, 0, [Some(Plain), Some(Plain)], World(map[], map[])))
  {
    var frame: Frame := [Some(Plain), Some(Plain)];
    forall k | 0 <= k < f.count && frame[k].Some?
      ensures exists i | 0 <= i < |f.parameterSlots| ::
                && f.parameterSlots[i] == k
                && (forall j | i < j < |f.parameterSlots| :: f.parameterSlots[j] != k)
                && Admissible(frame[k].value, if i in f.params then Some(f.params[i]) else None)
    {
      assert f.parameterSlots[k] == k;
    }
  }
}
