/** Worked runs of the conversion on the formula `p cnf 2 2` with clauses
    `1 2 0` and `-1 -2 0`. */
module Scenarios {
  import opened Wrappers
  import opened Input
  import opened Literals
  import opened Directives
  import opened ClauseGraph
  import opened Solutions
  import opened Header
  import opened LightSwitch

  function Formula(): seq<Line>
  {
    [ Line("p cnf 2 2", [None, None, Some(2), Some(2)]),
      Line("1 2 0", [Some(1), Some(2), Some(0)]),
      Line("-1 -2 0", [Some(-1), Some(-2), Some(0)]) ]
  }

  function Clauses(): seq<seq<int>>
  {
    [[1, 2, 0], [-1, -2, 0]]
  }

  lemma ExampleParses()
    ensures ParseHeader(Formula()) == Success(Problem(2, 2, Formula()[1..]))
    ensures forall k :: 0 <= k < 2 ==> AllNumbers(Formula()[1..][k].tokens)
    ensures ClauseValues(Formula()[1..]) == Clauses()
  {
    assert Formula()[0].text[..2] == "p ";
    assert Formula()[0].text[..5] == "p cnf";
    assert CommentCount(Formula()) == 0;
    var body := Formula()[1..];
    assert Values(body[0].tokens) == [1, 2, 0];
    assert Values(body[1].tokens) == [-1, -2, 0];
  }

  /** What Describes says of layer k, for the example formula. */
  lemma ExampleLayer(s: Slides, solver: seq<Line>, k: int)
    requires Diagnose(Formula(), solver).None? && Describes(s, Formula(), solver)
    requires 0 <= k < |SolutionLines(solver)|
    ensures |s.layers| == |SolutionLines(solver)|
    ensures LineFits(SolutionLines(solver)[k].tokens, BucketCount(2))
    ensures FitsAll(Clauses(), BucketCount(2))
    ensures Renders(s.layers[k], Asserted(SolutionLines(solver)[k].tokens), k + 2, 2, Adjacency(2, Clauses()))
  {
    ExampleParses();
    DescribedLayer(s, Formula(), solver, Problem(2, 2, Formula()[1..]), Clauses(), k);
  }

  function OnlyAnswer(): Line
  {
    Line("v 1 -2 0", [None, Some(1), Some(-2), Some(0)])
  }

  lemma OnlyAnswerRead()
    ensures Diagnose(Formula(), [OnlyAnswer()]).None?
    ensures SolutionLines([OnlyAnswer()]) == [OnlyAnswer()]
    ensures Asserted(OnlyAnswer().tokens) == [1, -2, 0]
  {
    var a := OnlyAnswer();
    ExampleParses();
    assert a.text[..2] == "v ";
    assert [a][..0] == [];
    assert Values(AfterMarker(a.tokens)) == [1, -2, 0];
    assert TokenFailure(AfterMarker(a.tokens), BucketCount(2)).None?;
    assert SolutionFailure([a], BucketCount(2)).None?;
  }

  lemma OneAnswerSwitches()
    ensures SwitchStates([1, -2, 0], 2) == [SwitchState(1, true, 2), SwitchState(2, false, 2)]
  {
    var lits := [1, -2, 0];
    assert lits[..2] == [1, -2] && [1, -2][..1] == [1] && [1][..0] == [];
    assert SwitchStates([1], 2) == [SwitchState(1, true, 2)];
    assert SwitchStates([1, -2], 2) == [SwitchState(1, true, 2), SwitchState(2, false, 2)];
  }

  /** Light c of the example formula is lit by a solution line exactly when
      the line asserts a literal of clause c. */
  lemma ExampleLit(lits: seq<int>, c: int, l: int)
    requires Fits(lits, BucketCount(2)) && c in {1, 2}
    requires l in lits && l != 0 && l in Clauses()[c - 1]
    ensures c in Satisfied(Adjacency(2, Clauses()), lits)
  {
    LitIffClauseSatisfied(2, Clauses(), lits, c);
  }

  lemma ExampleUnlit(lits: seq<int>, c: int)
    requires Fits(lits, BucketCount(2))
    requires c in {1, 2} ==> forall l :: l in lits && l != 0 ==> l !in Clauses()[c - 1]
    ensures c !in Satisfied(Adjacency(2, Clauses()), lits)
  {
    LitIffClauseSatisfied(2, Clauses(), lits, c);
  }

  lemma OneAnswerLights()
    ensures forall c :: c in Satisfied(Adjacency(2, Clauses()), [1, -2, 0]) <==> c == 1 || c == 2
  {
    var lits := [1, -2, 0];
    ExampleLit(lits, 1, 1);
    ExampleLit(lits, 2, -2);
    forall c | c != 1 && c != 2
      ensures c !in Satisfied(Adjacency(2, Clauses()), lits)
    {
      ExampleUnlit(lits, c);
    }
  }

  lemma OneSolutionLayer(y: Layer)
    requires Fits([1, -2, 0], BucketCount(2))
    requires Renders(y, [1, -2, 0], 2, 2, Adjacency(2, Clauses()))
    ensures y.ordinal == 2
    ensures y.switches == [SwitchState(1, true, 2), SwitchState(2, false, 2)]
    ensures forall c :: c in y.lit <==> c == 1 || c == 2
    ensures forall c :: c !in y.unlit
  {
    OneAnswerSwitches();
    OneAnswerLights();
  }

  /** `v 1 -2 0`: switch 1 on and switch 2 off on slide 2, and both lights
      on, since -2 satisfies the clause `-1 -2`. */
  lemma OneSolution()
    ensures Diagnose(Formula(), [OnlyAnswer()]).None?
    ensures forall s :: Describes(s, Formula(), [OnlyAnswer()]) ==>
              && |s.layers| == 1
              && s.layers[0].ordinal == 2
              && s.layers[0].switches == [SwitchState(1, true, 2), SwitchState(2, false, 2)]
              && (forall c :: c in s.layers[0].lit <==> c == 1 || c == 2)
              && (forall c :: c !in s.layers[0].unlit)
  {
    OnlyAnswerRead();
    forall s | Describes(s, Formula(), [OnlyAnswer()])
      ensures |s.layers| == 1 && s.layers[0].ordinal == 2
      ensures s.layers[0].switches == [SwitchState(1, true, 2), SwitchState(2, false, 2)]
      ensures forall c :: c in s.layers[0].lit <==> c == 1 || c == 2
      ensures forall c :: c !in s.layers[0].unlit
    {
      ExampleLayer(s, [OnlyAnswer()], 0);
      OneSolutionLayer(s.layers[0]);
    }
  }

  function FirstAnswer(): Line
  {
    Line("v 1 2 0", [None, Some(1), Some(2), Some(0)])
  }

  function SecondAnswer(): Line
  {
    Line("v -1 -2 0", [None, Some(-1), Some(-2), Some(0)])
  }

  lemma TwoAnswersValues()
    ensures AllNumbers(AfterMarker(FirstAnswer().tokens)) && Asserted(FirstAnswer().tokens) == [1, 2, 0]
    ensures AllNumbers(AfterMarker(SecondAnswer().tokens)) && Asserted(SecondAnswer().tokens) == [-1, -2, 0]
  {
    assert Values(AfterMarker(FirstAnswer().tokens)) == [1, 2, 0];
    assert Values(AfterMarker(SecondAnswer().tokens)) == [-1, -2, 0];
  }

  lemma TwoAnswersRead()
    ensures Diagnose(Formula(), [FirstAnswer(), SecondAnswer()]).None?
    ensures SolutionLines([FirstAnswer(), SecondAnswer()]) == [FirstAnswer(), SecondAnswer()]
  {
    var a, b := FirstAnswer(), SecondAnswer();
    var solver := [a, b];
    ExampleParses();
    TwoAnswersValues();
    assert a.text[..2] == "v " && b.text[..2] == "v ";
    assert solver[..1] == [a] && [a][..0] == [];
    assert TokenFailure(AfterMarker(a.tokens), BucketCount(2)).None?;
    assert TokenFailure(AfterMarker(b.tokens), BucketCount(2)).None?;
    assert SolutionFailure(solver, BucketCount(2)).None?;
  }

  lemma TwoAnswersLights()
    ensures forall c :: c in Satisfied(Adjacency(2, Clauses()), [1, 2, 0]) <==> c == 1
    ensures forall c :: c in Satisfied(Adjacency(2, Clauses()), [-1, -2, 0]) <==> c == 2
  {
    var litsA, litsB := [1, 2, 0], [-1, -2, 0];
    ExampleLit(litsA, 1, 1);
    ExampleLit(litsB, 2, -1);
    forall c | c != 1
      ensures c !in Satisfied(Adjacency(2, Clauses()), litsA)
    {
      ExampleUnlit(litsA, c);
    }
    forall c | c != 2
      ensures c !in Satisfied(Adjacency(2, Clauses()), litsB)
    {
      ExampleUnlit(litsB, c);
    }
  }

  /** A layer over the example formula whose literals light exactly clause
      `on` shows `on` lit and the other clause `off` unlit. */
  lemma OneOfTwoLit(y: Layer, lits: seq<int>, ordinal: int, on: int, off: int)
    requires Fits(lits, BucketCount(2))
    requires Renders(y, lits, ordinal, 2, Adjacency(2, Clauses()))
    requires forall c :: c in Satisfied(Adjacency(2, Clauses()), lits) <==> c == on
    requires (on == 1 && off == 2) || (on == 2 && off == 1)
    ensures y.ordinal == ordinal
    ensures forall c :: c in y.lit <==> c == on
    ensures forall c :: c in y.unlit <==> c == off
  {
  }

  /** `v 1 2 0` then `v -1 -2 0`: slide 2 lights clause 1 only, slide 3
      lights clause 2 only. */
  lemma TwoSolutions()
    ensures Diagnose(Formula(), [FirstAnswer(), SecondAnswer()]).None?
    ensures forall s :: Describes(s, Formula(), [FirstAnswer(), SecondAnswer()]) ==>
              && |s.layers| == 2
              && s.layers[0].ordinal == 2 && s.layers[1].ordinal == 3
              && (forall c :: c in s.layers[0].lit <==> c == 1)
              && (forall c :: c in s.layers[0].unlit <==> c == 2)
              && (forall c :: c in s.layers[1].lit <==> c == 2)
              && (forall c :: c in s.layers[1].unlit <==> c == 1)
  {
    TwoAnswersRead();
    TwoAnswersValues();
    TwoAnswersLights();
    var solver := [FirstAnswer(), SecondAnswer()];
    forall s | Describes(s, Formula(), solver)
      ensures |s.layers| == 2
      ensures s.layers[0].ordinal == 2 && s.layers[1].ordinal == 3
      ensures forall c :: c in s.layers[0].lit <==> c == 1
      ensures forall c :: c in s.layers[0].unlit <==> c == 2
      ensures forall c :: c in s.layers[1].lit <==> c == 2
      ensures forall c :: c in s.layers[1].unlit <==> c == 1
    {
      ExampleLayer(s, solver, 0);
      ExampleLayer(s, solver, 1);
      OneOfTwoLit(s.layers[0], [1, 2, 0], 2, 1, 2);
      OneOfTwoLit(s.layers[1], [-1, -2, 0], 3, 2, 1);
    }
  }

  /** Solver output without a "v " line yields no solution lines. */
  lemma {:induction false} NoSolutionLines(lines: seq<Line>)
    requires forall k :: 0 <= k < |lines| ==> !IsSolutionLine(lines[k])
    ensures SolutionLines(lines) == []
  {
    if lines != [] {
      NoSolutionLines(lines[..|lines| - 1]);
    }
  }

  /** Without solution lines only the first slide is drawn: n switches,
      m lights and the wires, and no layer. */
  lemma NoSolutionsOnlyCircuit(formula: seq<Line>, solver: seq<Line>, s: Slides)
    requires forall k :: 0 <= k < |solver| ==> !IsSolutionLine(solver[k])
    requires Diagnose(formula, solver).None? && Describes(s, formula, solver)
    ensures s.layers == []
  {
    NoSolutionLines(solver);
  }
}
