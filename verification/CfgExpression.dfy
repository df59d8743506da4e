/** Conservative evaluation of conditional-compilation predicates with test = false (rust.py). */
module CfgExpression {
  import opened Wrappers

  /** A token of the source text: punctuation, or an identifier or quoted string. */
  datatype Token = Open | Close | Comma | Equals | Word(text: string)

  // ------------------------------------------- what an expression means to the compiler

  /** A predicate as the compiler accepts it; `comma` is a trailing comma in a nonempty operand list. */
  datatype Cfg =
    | Flag(name: string)
    | Setting(key: string, value: string)
    | Apply(operator: string, operands: seq<Cfg>, comma: bool)

  /** One build: which flags and settings hold, and how operators other than not, all and any come out. */
  datatype Build = Build(flags: string -> bool, settings: (string, string) -> bool, others: Cfg -> bool)

  predicate WellFormed(e: Cfg) {
    e.Apply? ==> (e.operator == "not" ==> |e.operands| == 1) && forall k | 0 <= k < |e.operands| :: WellFormed(e.operands[k])
  }

  predicate Holds(e: Cfg, build: Build) {
    match e
    case Flag(name) => build.flags(name)
    case Setting(key, value) => build.settings(key, value)
    case Apply(operator, operands, _) =>
      if operator == "not" then |operands| == 1 && !Holds(operands[0], build)
      else if operator == "all" then forall k | 0 <= k < |operands| :: Holds(operands[k], build)
      else if operator == "any" then exists k | 0 <= k < |operands| :: Holds(operands[k], build)
      else build.others(e)
  }

  function Print(e: Cfg): (tokens: seq<Token>)
    ensures tokens != []
  {
    match e
    case Flag(name) => [Word(name)]
    case Setting(key, value) => [Word(key), Equals, Word(value)]
    case Apply(operator, operands, comma) => [Word(operator), Open] + PrintList(operands, comma)
  }

  /** The rest of an argument list, with its closing parenthesis. */
  function PrintList(operands: seq<Cfg>, comma: bool): (tokens: seq<Token>)
    ensures tokens != []
  {
    if operands == [] then [Close]
    else Print(operands[0]) + (if |operands| > 1 || comma then [Comma] else []) + PrintList(operands[1..], comma)
  }

  // --------------------------------------------------------- the reader, on values

  const Unknown: set<bool> := {false, true}

  function Negated(values: set<bool>): set<bool> {
    set v | v in values :: !v
  }

  function Both(left: set<bool>, right: set<bool>): set<bool> {
    set a, b | a in left && b in right :: a && b
  }

  function Either(left: set<bool>, right: set<bool>): set<bool> {
    set a, b | a in left && b in right :: a || b
  }

  function Conjunction(values: seq<set<bool>>): set<bool> {
    if values == [] then {true} else Both(Conjunction(values[..|values| - 1]), values[|values| - 1])
  }

  function Disjunction(values: seq<set<bool>>): set<bool> {
    if values == [] then {false} else Either(Disjunction(values[..|values| - 1]), values[|values| - 1])
  }

  function Combine(name: string, values: seq<set<bool>>): set<bool> {
    if name == "not" && |values| == 1 then Negated(values[0])
    else if name == "all" then Conjunction(values)
    else if name == "any" then Disjunction(values)
    else Unknown
  }

  /** The token as text. */
  function Text(token: Token): string {
    match token
    case Open => "("
    case Close => ")"
    case Comma => ","
    case Equals => "="
    case Word(text) => text
  }

  function Left(tokens: seq<Token>, at: nat): nat {
    if at <= |tokens| then |tokens| - at else 0
  }

  /** Where an argument list continues: after an optional comma. */
  function SkipComma(tokens: seq<Token>, at: nat): nat {
    if at < |tokens| && tokens[at] == Comma then at + 1 else at
  }

  /** The possible values of the expression starting at `at`, and where reading stopped. */
  function ReadAt(tokens: seq<Token>, at: nat): (r: (set<bool>, nat))
    ensures at < |tokens| ==> at < r.1
    decreases Left(tokens, at), 0
  {
    if at >= |tokens| then (Unknown, at)
    else if at + 1 < |tokens| && tokens[at + 1] == Equals then (Unknown, at + 3)
    else if at + 1 < |tokens| && tokens[at + 1] == Open then
      var (values, end) := ReadList(tokens, at + 2);
      if end >= |tokens| then (Unknown, end) else (Combine(Text(tokens[at]), values), end + 1)
    else (if tokens[at] == Word("test") then {false} else Unknown, at + 1)
  }

  function ReadList(tokens: seq<Token>, at: nat): (r: (seq<set<bool>>, nat))
    ensures at <= r.1
    decreases Left(tokens, at), 1
  {
    if at >= |tokens| || tokens[at] == Close then ([], at)
    else
      var (value, next) := ReadAt(tokens, at);
      var (values, end) := ReadList(tokens, SkipComma(tokens, next));
      ([value] + values, end)
  }

  lemma ListStep(tokens: seq<Token>, at: nat, value: set<bool>, next: nat, values: seq<set<bool>>)
    requires at < |tokens| && tokens[at] != Close && ReadAt(tokens, at) == (value, next)
    requires ReadList(tokens, SkipComma(tokens, next)).0 == values
    ensures ReadList(tokens, at) == ([value] + values, ReadList(tokens, SkipComma(tokens, next)).1)
  {
  }

  /** An operand list of which `done` was read already. */
  ghost function Resumed(done: seq<set<bool>>, tokens: seq<Token>, at: nat): (seq<set<bool>>, nat) {
    (done + ReadList(tokens, at).0, ReadList(tokens, at).1)
  }

  lemma ResumedStep(done: seq<set<bool>>, tokens: seq<Token>, at: nat)
    requires at < |tokens| && tokens[at] != Close
    ensures var (value, next) := ReadAt(tokens, at);
            Resumed(done, tokens, at) == Resumed(done + [value], tokens, SkipComma(tokens, next))
  {
    var (value, next) := ReadAt(tokens, at);
    var rest := ReadList(tokens, SkipComma(tokens, next));
    assert done + ([value] + rest.0) == (done + [value]) + rest.0;
  }

  lemma ResumedEnd(done: seq<set<bool>>, tokens: seq<Token>, at: nat)
    requires at >= |tokens| || tokens[at] == Close
    ensures Resumed(done, tokens, at) == (done, at)
  {
    assert done + [] == done;
  }

  function Possibilities(tokens: seq<Token>): set<bool> {
    var (values, end) := ReadAt(tokens, 0);
    if end == |tokens| then values else Unknown
  }

  // ----------------------------------------------------------- the reader, in place

  class Reader {
    const tokens: seq<Token>
    var index: nat

    constructor (tokens: seq<Token>)
      ensures this.tokens == tokens && index == 0
    {
      this.tokens, index := tokens, 0;
    }

    method Read() returns (values: set<bool>)
      modifies this
      ensures (values, index) == ReadAt(tokens, old(index))
      decreases Left(tokens, index), 0
    {
      if index >= |tokens| {
        return Unknown;
      }
      var name := Text(tokens[index]);
      index := index + 1;
      if index < |tokens| && tokens[index] == Equals {
        index := index + 2;
        return Unknown;
      }
      if index < |tokens| && tokens[index] == Open {
        index := index + 1;
        var operands := ReadOperands();
        if index >= |tokens| {
          return Unknown;
        }
        index := index + 1;
        values := Combined(name, operands);
        return;
      }
      return if name == "test" then {false} else Unknown;
    }

    /** The operand loop: reads up to a closing parenthesis or the end, skipping commas. */
    method ReadOperands() returns (operands: seq<set<bool>>)
      modifies this
      ensures (operands, index) == ReadList(tokens, old(index))
      decreases Left(tokens, index), 1
    {
      operands := [];
      assert [] + ReadList(tokens, index).0 == ReadList(tokens, index).0;
      while index < |tokens| && tokens[index] != Close
        invariant old(index) <= index && Resumed(operands, tokens, index) == ReadList(tokens, old(index))
        decreases Left(tokens, index)
      {
        ResumedStep(operands, tokens, index);
        var value := Read();
        if index < |tokens| && tokens[index] == Comma {
          index := index + 1;
        }
        operands := operands + [value];
      }
      ResumedEnd(operands, tokens, index);
    }
  }

  /** What a named operator makes of its operands. */
  method Combined(name: string, operands: seq<set<bool>>) returns (values: set<bool>)
    ensures values == Combine(name, operands)
  {
    if name == "not" && |operands| == 1 {
      return Negated(operands[0]);
    }
    if name != "all" && name != "any" {
      return Unknown;
    }
    values := {name == "all"};
    for i := 0 to |operands|
      invariant values == if name == "all" then Conjunction(operands[..i]) else Disjunction(operands[..i])
    {
      assert operands[..i + 1][..i] == operands[..i];
      values := if name == "all" then Both(values, operands[i]) else Either(values, operands[i]);
    }
    assert operands[..|operands|] == operands;
  }

  /** `cfg_possibilities` on a token list. */
  method CfgPossibilities(tokens: seq<Token>) returns (values: set<bool>)
    ensures values == Possibilities(tokens)
  {
    var reader := new Reader(tokens);
    values := reader.Read();
    if reader.index != |tokens| {
      values := Unknown;
    }
  }

  // ------------------------------------------------------------------- soundness

  /** The possibilities of an expression, computed on its syntax. */
  function Possible(e: Cfg): set<bool> {
    match e
    case Flag(name) => if name == "test" then {false} else Unknown
    case Setting(_, _) => Unknown
    case Apply(operator, operands, _) => Combine(operator, PossibleEach(operands))
  }

  function PossibleEach(operands: seq<Cfg>): (values: seq<set<bool>>)
    ensures |values| == |operands| && forall k | 0 <= k < |operands| :: values[k] == Possible(operands[k])
  {
    if operands == [] then [] else [Possible(operands[0])] + PossibleEach(operands[1..])
  }

  /** The printed tokens stand at `at`. */
  ghost predicate Stands(tokens: seq<Token>, at: nat, text: seq<Token>) {
    at + |text| <= |tokens| && tokens[at..at + |text|] == text
  }

  /** What may follow an expression: the end, a comma or a closing parenthesis. */
  predicate Ends(tokens: seq<Token>, at: nat) {
    at < |tokens| ==> tokens[at] == Comma || tokens[at] == Close
  }

  lemma StandsSplit(tokens: seq<Token>, at: nat, a: seq<Token>, b: seq<Token>)
    requires Stands(tokens, at, a + b)
    ensures Stands(tokens, at, a) && Stands(tokens, at + |a|, b)
  {
    var whole := tokens[at..at + |a + b|];
    assert whole[..|a|] == a && whole[|a|..] == b;
    assert tokens[at..at + |a|] == whole[..|a|];
    assert tokens[at + |a|..at + |a| + |b|] == whole[|a|..];
  }

  lemma StandsAt(tokens: seq<Token>, at: nat, text: seq<Token>, k: nat)
    requires Stands(tokens, at, text) && k < |text|
    ensures tokens[at + k] == text[k]
  {
  }

  /** Reading a printed expression consumes exactly its tokens and yields its possibilities. */
  lemma {:induction false} ReadPrinted(tokens: seq<Token>, at: nat, e: Cfg)
    requires WellFormed(e) && Stands(tokens, at, Print(e)) && Ends(tokens, at + |Print(e)|)
    ensures ReadAt(tokens, at) == (Possible(e), at + |Print(e)|)
    decreases e
  {
    if e.Apply? {
      ApplyLayout(tokens, at, e);
      ReadPrintedList(tokens, at + 2, e.operands, e.comma);
    } else {
      ReadLeaf(tokens, at, e);
    }
  }

  lemma ReadLeaf(tokens: seq<Token>, at: nat, e: Cfg)
    requires !e.Apply? && Stands(tokens, at, Print(e)) && Ends(tokens, at + |Print(e)|)
    ensures ReadAt(tokens, at) == (Possible(e), at + |Print(e)|)
  {
    StandsAt(tokens, at, Print(e), 0);
    if e.Setting? {
      StandsAt(tokens, at, Print(e), 1);
    }
  }

  lemma ApplyLayout(tokens: seq<Token>, at: nat, e: Cfg)
    requires e.Apply? && Stands(tokens, at, Print(e))
    ensures at + 2 + |PrintList(e.operands, e.comma)| == at + |Print(e)| <= |tokens|
    ensures tokens[at] == Word(e.operator) && tokens[at + 1] == Open && Stands(tokens, at + 2, PrintList(e.operands, e.comma))
  {
    StandsSplit(tokens, at, [Word(e.operator), Open], PrintList(e.operands, e.comma));
    StandsAt(tokens, at, [Word(e.operator), Open], 0);
    StandsAt(tokens, at, [Word(e.operator), Open], 1);
  }

  /** How a nonempty operand list lies in the tokens: an operand, an optional comma, the rest. */
  lemma ListLayout(tokens: seq<Token>, at: nat, operands: seq<Cfg>, comma: bool) returns (next: nat)
    requires operands != [] && WellFormed(operands[0]) && Stands(tokens, at, PrintList(operands, comma))
    ensures Stands(tokens, at, Print(operands[0])) && tokens[at] != Close && Ends(tokens, at + |Print(operands[0])|)
    ensures next == SkipComma(tokens, at + |Print(operands[0])|)
    ensures Stands(tokens, next, PrintList(operands[1..], comma))
    ensures next + |PrintList(operands[1..], comma)| == at + |PrintList(operands, comma)|
  {
    var first, rest := Print(operands[0]), PrintList(operands[1..], comma);
    var separator := if |operands| > 1 || comma then [Comma] else [];
    next := at + |first| + |separator|;
    OperandLayout(tokens, at, first, separator, rest);
  }

  lemma OperandLayout(tokens: seq<Token>, at: nat, first: seq<Token>, separator: seq<Token>, rest: seq<Token>)
    requires Stands(tokens, at, first + separator + rest) && first != [] && rest != []
    requires first[0].Word? && (separator == [Comma] || (separator == [] && rest[0] == Close))
    ensures Stands(tokens, at, first) && tokens[at] != Close && Ends(tokens, at + |first|)
    ensures SkipComma(tokens, at + |first|) == at + |first| + |separator|
    ensures Stands(tokens, at + |first| + |separator|, rest)
  {
    StandsSplit(tokens, at, first + separator, rest);
    StandsSplit(tokens, at, first, separator);
    StandsAt(tokens, at, first, 0);
    if separator == [] {
      StandsAt(tokens, at + |first|, rest, 0);
    } else {
      StandsAt(tokens, at + |first|, separator, 0);
    }
  }

  lemma {:induction false} ReadPrintedList(tokens: seq<Token>, at: nat, operands: seq<Cfg>, comma: bool)
    requires (forall k | 0 <= k < |operands| :: WellFormed(operands[k])) && Stands(tokens, at, PrintList(operands, comma))
    ensures ReadList(tokens, at).0 == PossibleEach(operands)
    ensures ReadList(tokens, at).1 == at + |PrintList(operands, comma)| - 1
    decreases operands
  {
    if operands == [] {
      StandsAt(tokens, at, [Close], 0);
    } else {
      var next := ListLayout(tokens, at, operands, comma);
      ghost var end := at + |PrintList(operands, comma)| - 1;
      ReadPrinted(tokens, at, operands[0]);
      ReadPrintedList(tokens, next, operands[1..], comma);
      assert ReadList(tokens, next).1 == end;
      ListResumes(tokens, at, operands, at + |Print(operands[0])|);
    }
  }

  lemma ListResumes(tokens: seq<Token>, at: nat, operands: seq<Cfg>, end: nat)
    requires operands != [] && at < |tokens| && tokens[at] != Close
    requires ReadAt(tokens, at) == (Possible(operands[0]), end)
    requires ReadList(tokens, SkipComma(tokens, end)).0 == PossibleEach(operands[1..])
    ensures ReadList(tokens, at).0 == PossibleEach(operands)
    ensures ReadList(tokens, at).1 == ReadList(tokens, SkipComma(tokens, end)).1
  {
    ListStep(tokens, at, Possible(operands[0]), end, PossibleEach(operands[1..]));
    assert PossibleEach(operands) == [Possible(operands[0])] + PossibleEach(operands[1..]);
  }

  /** In every build without the test flag, the truth value is one of the possibilities. */
  lemma {:induction false} PossibleCovers(e: Cfg, build: Build)
    requires WellFormed(e) && !build.flags("test")
    ensures Holds(e, build) in Possible(e)
    decreases e
  {
    if e.Apply? {
      var values := PossibleEach(e.operands);
      forall k | 0 <= k < |e.operands| ensures Holds(e.operands[k], build) in values[k] {
        PossibleCovers(e.operands[k], build);
      }
      var truths := seq(|e.operands|, k requires 0 <= k < |e.operands| => Holds(e.operands[k], build));
      ConjunctionCovers(truths, values);
      DisjunctionCovers(truths, values);
      assert e.operator == "all" ==> Holds(e, build) == AllTrue(truths);
      assert e.operator == "any" ==> Holds(e, build) == SomeTrue(truths);
    }
  }

  predicate AllTrue(truths: seq<bool>) {
    forall k | 0 <= k < |truths| :: truths[k]
  }

  predicate SomeTrue(truths: seq<bool>) {
    exists k | 0 <= k < |truths| :: truths[k]
  }

  lemma {:induction false} ConjunctionCovers(truths: seq<bool>, values: seq<set<bool>>)
    requires |truths| == |values| && forall k | 0 <= k < |truths| :: truths[k] in values[k]
    ensures AllTrue(truths) in Conjunction(values)
  {
    if truths != [] {
      var n := |truths| - 1;
      ConjunctionCovers(truths[..n], values[..n]);
      AllTrueAppend(truths[..n], truths[n]);
      assert truths == truths[..n] + [truths[n]];
      var a, b := AllTrue(truths[..n]), truths[n];
      assert a in Conjunction(values[..n]) && b in values[n];
      assert (a && b) in Both(Conjunction(values[..n]), values[n]);
    }
  }

  lemma {:induction false} DisjunctionCovers(truths: seq<bool>, values: seq<set<bool>>)
    requires |truths| == |values| && forall k | 0 <= k < |truths| :: truths[k] in values[k]
    ensures SomeTrue(truths) in Disjunction(values)
  {
    if truths != [] {
      var n := |truths| - 1;
      DisjunctionCovers(truths[..n], values[..n]);
      SomeTrueAppend(truths[..n], truths[n]);
      assert truths == truths[..n] + [truths[n]];
      var a, b := SomeTrue(truths[..n]), truths[n];
      assert a in Disjunction(values[..n]) && b in values[n];
      assert (a || b) in Either(Disjunction(values[..n]), values[n]);
    }
  }

  /** The evaluator is sound: on the tokens of a well-formed predicate no non-test build escapes it. */
  lemma PossibilitiesSound(e: Cfg, build: Build)
    requires WellFormed(e) && !build.flags("test")
    ensures Holds(e, build) in Possibilities(Print(e))
  {
    ReadPrinted(Print(e), 0, e);
    PossibleCovers(e, build);
  }

  /** Anything left behind a predicate makes the whole unknown. */
  lemma TrailingIsUnknown(e: Cfg, rest: seq<Token>)
    requires WellFormed(e) && rest != [] && (rest[0] == Comma || rest[0] == Close)
    ensures Possibilities(Print(e) + rest) == Unknown
  {
    var tokens := Print(e) + rest;
    assert tokens[0..0 + |Print(e)|] == Print(e) && tokens[|Print(e)|] == rest[0];
    ReadPrinted(tokens, 0, e);
  }

  // ------------------------------------------------------------------- precision

  lemma AllTrueAppend(front: seq<bool>, b: bool)
    ensures AllTrue(front + [b]) == (AllTrue(front) && b)
  {
    var all := front + [b];
    assert forall k | 0 <= k < |front| :: all[k] == front[k];
    assert all[|front|] == b;
  }

  lemma SomeTrueAppend(front: seq<bool>, b: bool)
    ensures SomeTrue(front + [b]) == (SomeTrue(front) || b)
  {
    var all := front + [b];
    assert forall k | 0 <= k < |front| :: all[k] == front[k];
    assert all[|front|] == b;
    if k :| 0 <= k < |front| && front[k] {
      assert all[k];
    }
  }

  /** A value is in the combined set for "all" only if some choice of operand values gives it. */
  lemma {:induction false} ConjunctionChoice(values: seq<set<bool>>, v: bool) returns (truths: seq<bool>)
    requires v in Conjunction(values)
    ensures |truths| == |values| && (forall k | 0 <= k < |truths| :: truths[k] in values[k]) && AllTrue(truths) == v
  {
    if values == [] {
      truths := [];
    } else {
      var n := |values| - 1;
      var a: bool, b: bool :| a in Conjunction(values[..n]) && b in values[n] && (a && b) == v;
      var front := ConjunctionChoice(values[..n], a);
      truths := front + [b];
      AllTrueAppend(front, b);
    }
  }

  /** A value is in the combined set for "any" only if some choice of operand values gives it. */
  lemma {:induction false} DisjunctionChoice(values: seq<set<bool>>, v: bool) returns (truths: seq<bool>)
    requires v in Disjunction(values)
    ensures |truths| == |values| && (forall k | 0 <= k < |truths| :: truths[k] in values[k]) && SomeTrue(truths) == v
  {
    if values == [] {
      truths := [];
    } else {
      var n := |values| - 1;
      var a: bool, b: bool :| a in Disjunction(values[..n]) && b in values[n] && (a || b) == v;
      var front := DisjunctionChoice(values[..n], a);
      truths := front + [b];
      SomeTrueAppend(front, b);
    }
  }

  predicate Logical(operator: string) {
    operator == "not" || operator == "all" || operator == "any"
  }

  /** The parts of a predicate that a build decides freely: everything but the test flag and the logical operators. */
  function Atoms(e: Cfg): seq<Cfg> {
    match e
    case Flag(name) => if name == "test" then [] else [e]
    case Setting(_, _) => [e]
    case Apply(operator, operands, _) => if Logical(operator) then AtomsOf(operands) else [e]
  }

  function AtomsOf(operands: seq<Cfg>): seq<Cfg> {
    if operands == [] then [] else Atoms(operands[0]) + AtomsOf(operands[1..])
  }

  ghost predicate NoRepeats(atoms: seq<Cfg>) {
    forall i, j | 0 <= i < j < |atoms| :: atoms[i] != atoms[j]
  }

  lemma NoRepeatsSplit(a: seq<Cfg>, b: seq<Cfg>)
    requires NoRepeats(a + b)
    ensures NoRepeats(a) && NoRepeats(b) && forall x | x in a :: x !in b
  {
    var all := a + b;
    assert forall i | 0 <= i < |a| :: all[i] == a[i];
    assert forall i | 0 <= i < |b| :: all[|a| + i] == b[i];
    forall i, j | 0 <= i < j < |b| ensures b[i] != b[j] {
      assert all[|a| + i] != all[|a| + j];
    }
    forall i, j | 0 <= i < |a| && 0 <= j < |b| ensures a[i] != b[j] {
      assert all[i] != all[|a| + j];
    }
  }

  /** The build without the test flag in which exactly these atoms hold. */
  function BuildOf(holding: set<Cfg>): Build {
    Build((name: string) => name != "test" && Flag(name) in holding,
          (key: string, value: string) => Setting(key, value) in holding,
          (e: Cfg) => e in holding)
  }

  /** The value of a predicate depends on its own atoms only. */
  lemma {:induction false} OwnAtomsDecide(e: Cfg, s: set<Cfg>, t: set<Cfg>)
    requires forall a | a in Atoms(e) :: a in s <==> a in t
    ensures Holds(e, BuildOf(s)) == Holds(e, BuildOf(t))
    decreases e
  {
    match e
    case Flag(name) => assert name != "test" ==> e in Atoms(e);
    case Setting(_, _) => assert e in Atoms(e);
    case Apply(operator, operands, _) =>
      if Logical(operator) {
        forall k | 0 <= k < |operands| ensures Holds(operands[k], BuildOf(s)) == Holds(operands[k], BuildOf(t)) {
          AtomsOfMember(operands, k);
          OwnAtomsDecide(operands[k], s, t);
        }
      } else {
        assert e in Atoms(e);
      }
  }

  lemma {:induction false} AtomsOfMember(operands: seq<Cfg>, k: nat)
    requires k < |operands|
    ensures forall a | a in Atoms(operands[k]) :: a in AtomsOf(operands)
  {
    if k != 0 {
      AtomsOfMember(operands[1..], k - 1);
    }
  }

  /** Every possibility of a predicate without repeated atoms is the value in some build without the test flag. */
  lemma {:induction false} PossibleAttained(e: Cfg, v: bool) returns (holding: set<Cfg>)
    requires WellFormed(e) && NoRepeats(Atoms(e)) && v in Possible(e)
    ensures Holds(e, BuildOf(holding)) == v && forall a | a in holding :: a in Atoms(e)
    decreases e
  {
    match e
    case Flag(name) => holding := if v then {e} else {};
    case Setting(_, _) => holding := if v then {e} else {};
    case Apply(operator, operands, _) =>
      var values := PossibleEach(operands);
      if operator == "not" {
        assert !v in values[0];
        holding := EachAttained(operands, [!v]);
        assert Holds(operands[0], BuildOf(holding)) == [!v][0];
      } else if operator == "all" {
        var truths := ConjunctionChoice(values, v);
        holding := EachAttained(operands, truths);
        assert Holds(e, BuildOf(holding)) == AllTrue(truths);
      } else if operator == "any" {
        var truths := DisjunctionChoice(values, v);
        holding := EachAttained(operands, truths);
        SomeHolds(e, BuildOf(holding), truths);
      } else {
        holding := if v then {e} else {};
      }
  }

  lemma SomeHolds(e: Cfg, build: Build, truths: seq<bool>)
    requires e.Apply? && e.operator == "any" && |truths| == |e.operands|
    requires forall k | 0 <= k < |truths| :: Holds(e.operands[k], build) == truths[k]
    ensures Holds(e, build) == SomeTrue(truths)
  {
  }

  /** Operands without repeated atoms take any values possible for them, independently of each other. */
  lemma {:induction false} EachAttained(operands: seq<Cfg>, truths: seq<bool>) returns (holding: set<Cfg>)
    requires NoRepeats(AtomsOf(operands)) && |truths| == |operands|
    requires forall k | 0 <= k < |operands| :: WellFormed(operands[k]) && truths[k] in Possible(operands[k])
    ensures forall k | 0 <= k < |operands| :: Holds(operands[k], BuildOf(holding)) == truths[k]
    ensures forall a | a in holding :: a in AtomsOf(operands)
    decreases operands
  {
    if operands == [] {
      holding := {};
    } else {
      NoRepeatsSplit(Atoms(operands[0]), AtomsOf(operands[1..]));
      var first := PossibleAttained(operands[0], truths[0]);
      var rest := EachAttained(operands[1..], truths[1..]);
      holding := first + rest;
      OwnAtomsDecide(operands[0], first, holding);
      forall k | 1 <= k < |operands| ensures Holds(operands[k], BuildOf(holding)) == truths[k] {
        assert operands[1..][k - 1] == operands[k] && truths[1..][k - 1] == truths[k];
        AtomsOfMember(operands[1..], k - 1);
        OwnAtomsDecide(operands[k], rest, holding);
      }
    }
  }

  /**
   * The evaluator is exact on predicates in which no flag, setting or foreign operator occurs twice: its
   * possibilities are the values in the builds without the test flag.
   */
  lemma PossibilitiesExact(e: Cfg, v: bool)
    requires WellFormed(e) && NoRepeats(Atoms(e))
    ensures v in Possibilities(Print(e)) <==> exists build: Build :: !build.flags("test") && Holds(e, build) == v
  {
    ReadPrinted(Print(e), 0, e);
    if v in Possible(e) {
      var holding := PossibleAttained(e, v);
      assert !BuildOf(holding).flags("test") && Holds(e, BuildOf(holding)) == v;
    }
    forall build: Build | !build.flags("test") ensures Holds(e, build) in Possible(e) {
      PossibleCovers(e, build);
    }
  }

  /** Two occurrences of one flag are taken as independent: this predicate holds nowhere, yet counts as possible. */
  lemma RepeatedFlagIsImprecise(build: Build)
    ensures var e := Apply("all", [Flag("unix"), Apply("not", [Flag("unix")], false)], false);
            WellFormed(e) && true in Possible(e) && !Holds(e, build)
  {
    var unix, absent := Flag("unix"), Apply("not", [Flag("unix")], false);
    var e := Apply("all", [unix, absent], false);
    assert true in Possible(unix) && false in Possible(unix);
    assert !false in Possible(absent) by {
      assert PossibleEach([unix])[0] == Possible(unix);
    }
    var values := PossibleEach([unix, absent]);
    ConjunctionCovers([true, true], values);
    assert Holds(e.operands[0], build) == build.flags("unix") && Holds(e.operands[1], build) == !build.flags("unix");
  }

  // ---------------------------------------------------------------- attributes

  /** The attributes of an item: `None` for one that is not a cfg attribute, else the tokens of its predicate. */
  method CfgOnlyTest(attributes: seq<Option<seq<Token>>>) returns (only: bool)
    ensures only <==> exists k | 0 <= k < |attributes| :: attributes[k].Some? && true !in Possibilities(attributes[k].value)
  {
    for i := 0 to |attributes|
      invariant forall k | 0 <= k < i :: attributes[k].Some? ==> true in Possibilities(attributes[k].value)
    {
      if attributes[i].Some? {
        var values := CfgPossibilities(attributes[i].value);
        if true !in values {
          return true;
        }
      }
    }
    return false;
  }

  /** An item whose predicates are `predicates` is compiled exactly when all of them hold. */
  predicate Present(predicates: seq<Option<Cfg>>, build: Build) {
    forall k | 0 <= k < |predicates| :: predicates[k].Some? ==> Holds(predicates[k].value, build)
  }

  function Printed(predicate_: Option<Cfg>): Option<seq<Token>> {
    match predicate_
    case None => None
    case Some(e) => Some(Print(e))
  }

  /** The predicates of an item, in order. */
  function Given(predicates: seq<Option<Cfg>>): seq<Cfg> {
    if predicates == [] then []
    else (if predicates[0].Some? then [predicates[0].value] else []) + Given(predicates[1..])
  }

  lemma {:induction false} GivenMembers(predicates: seq<Option<Cfg>>)
    ensures forall e :: e in Given(predicates) <==> Some(e) in predicates
  {
    if predicates != [] {
      GivenMembers(predicates[1..]);
      assert predicates == [predicates[0]] + predicates[1..];
    }
  }

  /** If every predicate of an item can hold, and no atom occurs twice, some build without the test flag has it. */
  lemma PresentSomewhere(predicates: seq<Option<Cfg>>) returns (build: Build)
    requires forall k | 0 <= k < |predicates| :: predicates[k].Some? ==> WellFormed(predicates[k].value) && true in Possible(predicates[k].value)
    requires NoRepeats(AtomsOf(Given(predicates)))
    ensures !build.flags("test") && Present(predicates, build)
  {
    var given := Given(predicates);
    GivenMembers(predicates);
    forall k | 0 <= k < |given| ensures WellFormed(given[k]) && true in Possible(given[k]) {
      assert given[k] in given;
    }
    var truths := seq(|given|, _ => true);
    var holding := EachAttained(given, truths);
    build := BuildOf(holding);
    forall k | 0 <= k < |predicates| && predicates[k].Some? ensures Holds(predicates[k].value, build) {
      assert Some(predicates[k].value) in predicates;
      var j :| 0 <= j < |given| && given[j] == predicates[k].value;
      assert Holds(given[j], build) == truths[j];
    }
  }

  /**
   * An item reported as test-only is absent from every build without the test flag; if no atom occurs
   * twice in its predicates, every such item is reported.
   */
  method OnlyTestItem(predicates: seq<Option<Cfg>>) returns (only: bool)
    requires forall k | 0 <= k < |predicates| :: predicates[k].Some? ==> WellFormed(predicates[k].value)
    ensures only ==> forall build: Build | !build.flags("test") :: !Present(predicates, build)
    ensures NoRepeats(AtomsOf(Given(predicates))) ==>
              (only <==> forall build: Build | !build.flags("test") :: !Present(predicates, build))
  {
    var attributes := seq(|predicates|, k requires 0 <= k < |predicates| => Printed(predicates[k]));
    only := CfgOnlyTest(attributes);
    forall k | 0 <= k < |predicates| && predicates[k].Some?
      ensures Possibilities(attributes[k].value) == Possible(predicates[k].value)
    {
      ReadPrinted(attributes[k].value, 0, predicates[k].value);
    }
    if only {
      ghost var k :| 0 <= k < |attributes| && attributes[k].Some? && true !in Possibilities(attributes[k].value);
      forall build: Build | !build.flags("test") ensures !Present(predicates, build) {
        PossibleCovers(predicates[k].value, build);
      }
    } else if NoRepeats(AtomsOf(Given(predicates))) {
      assert forall k | 0 <= k < |attributes| :: attributes[k].Some? ==> true in Possibilities(attributes[k].value);
      ghost var build := PresentSomewhere(predicates);
    }
  }
}
