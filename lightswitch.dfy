/** The whole conversion: header, clause lines, then the solver's lines,
    as the script runs them, with the first error aborting it. */
module LightSwitch {
  import opened Wrappers
  import opened Input
  import opened Literals
  import opened Directives
  import opened ClauseGraph
  import opened Solutions
  import opened Header

  /** Everything the slides show, apart from the markup. */
  datatype Slides = Slides(scale: Scale, declarations: seq<Directive>, wires: seq<Directive>, layers: seq<Layer>)

  /** The first field of a line that aborts the script: one int() refuses,
      or a non-zero literal past the last of `size` buckets. */
  function TokenFailure(tokens: seq<Option<int>>, size: int): (r: Option<Error>)
    ensures r.None? <==> AllNumbers(tokens) && Fits(Values(tokens), size)
    ensures r == None || r == Some(NotANumber) || r == Some(LiteralOutOfRange)
  {
    if tokens == [] then None
    else match tokens[0]
      case None => Some(NotANumber)
      case Some(l) =>
        if l != 0 && Index(l) >= size then Some(LiteralOutOfRange)
        else
          var r := TokenFailure(tokens[1..], size);
          assert AllNumbers(tokens) ==> Values(tokens) == [l] + Values(tokens[1..]);
          r
  }

  /** A field that `int()` converts and, when non-zero, indexes the buckets. */
  predicate FieldPasses(t: Option<int>, size: int)
  {
    t.Some? && (t.value == 0 || Index(t.value) < size)
  }

  /** The error of the first clause line that aborts the script. */
  function ClauseFailure(lines: seq<Line>, size: int): (r: Option<Error>)
    ensures r.None? <==> forall k :: 0 <= k < |lines| ==> TokenFailure(lines[k].tokens, size).None?
  {
    if lines == [] then None
    else if TokenFailure(lines[0].tokens, size).Some? then TokenFailure(lines[0].tokens, size)
    else
      var r := ClauseFailure(lines[1..], size);
      assert forall k :: 1 <= k < |lines| ==> lines[k] == lines[1..][k - 1];
      r
  }

  /** The error of the first solution line that aborts the script; the
      other lines are never converted. */
  function SolutionFailure(lines: seq<Line>, size: int): (r: Option<Error>)
    ensures r.None? <==> SolutionsFit(lines, size)
  {
    if lines == [] then None
    else if IsSolutionLine(lines[0]) && TokenFailure(AfterMarker(lines[0].tokens), size).Some? then
      TokenFailure(AfterMarker(lines[0].tokens), size)
    else
      var r := SolutionFailure(lines[1..], size);
      assert forall k :: 1 <= k < |lines| ==> lines[k] == lines[1..][k - 1];
      r
  }

  /** The clause lines as integers. */
  function ClauseValues(lines: seq<Line>): (clauses: seq<seq<int>>)
    requires forall k :: 0 <= k < |lines| ==> AllNumbers(lines[k].tokens)
    ensures |clauses| == |lines|
    ensures forall k :: 0 <= k < |lines| ==> clauses[k] == Values(lines[k].tokens)
  {
    seq(|lines|, k requires 0 <= k < |lines| => Values(lines[k].tokens))
  }

  /** Whether, and why, the script aborts on these inputs. */
  function Diagnose(formula: seq<Line>, solver: seq<Line>): (r: Option<Error>)
    ensures r.Some? && ParseHeader(formula).Failure? ==> r.value == ParseHeader(formula).error
    ensures r.None? ==> ParseHeader(formula).Success?
    ensures r.None? ==> SolutionsFit(solver, BucketCount(ParseHeader(formula).value.variables))
    ensures r.None? <==>
              ParseHeader(formula).Success? &&
              var p := ParseHeader(formula).value;
              (forall k :: 0 <= k < |p.body| ==> TokenFailure(p.body[k].tokens, BucketCount(p.variables)).None?) &&
              SolutionsFit(solver, BucketCount(p.variables))
    ensures ParseHeader(formula).Success? &&
            ClauseFailure(ParseHeader(formula).value.body, BucketCount(ParseHeader(formula).value.variables)).Some? ==>
              r == ClauseFailure(ParseHeader(formula).value.body, BucketCount(ParseHeader(formula).value.variables))
    ensures ParseHeader(formula).Success? &&
            ClauseFailure(ParseHeader(formula).value.body, BucketCount(ParseHeader(formula).value.variables)).None? ==>
              r == SolutionFailure(solver, BucketCount(ParseHeader(formula).value.variables))
  {
    match ParseHeader(formula)
    case Failure(e) => Some(e)
    case Success(p) =>
      var size := BucketCount(p.variables);
      if ClauseFailure(p.body, size).Some? then ClauseFailure(p.body, size)
      else SolutionFailure(solver, size)
  }

  /** `s` is what the script draws for a formula and solver output that do
      not abort it. */
  predicate Describes(s: Slides, formula: seq<Line>, solver: seq<Line>)
    requires Diagnose(formula, solver).None?
    ensures Describes(s, formula, solver) ==>
              forall k :: 0 <= k < |s.layers| ==> s.layers[k].ordinal == k + 2
  {
    var p := ParseHeader(formula).value;
    var size := BucketCount(p.variables);
    assert forall k :: 0 <= k < |p.body| ==> TokenFailure(p.body[k].tokens, size).None?;
    var clauses := ClauseValues(p.body);
    assert FitsAll(clauses, size);
    var buckets := Adjacency(p.variables, clauses);
    var answers := SolutionLines(solver);
    && s.scale == ScaleFor(p.variables, p.clauses)
    && s.declarations == DeclareVariables(p.variables) + DeclareClauses(p.clauses)
    && s.wires == AllWires(clauses)
    && |s.layers| == |answers|
    && forall k :: 0 <= k < |answers| ==>
         LineFits(answers[k].tokens, size) &&
         Renders(s.layers[k], Asserted(answers[k].tokens), k + 2, p.clauses, buckets)
  }

  /** Layer k of slides that describe a run: solution line k converts and
      fits the buckets, the layer renders it on slide k + 2, and its printed
      stream belongs to that slide and draws every light 1..m. */
  lemma DescribedLayer(s: Slides, formula: seq<Line>, solver: seq<Line>, p: Problem, clauses: seq<seq<int>>, k: int)
    requires Diagnose(formula, solver).None? && Describes(s, formula, solver)
    requires ParseHeader(formula) == Success(p) && 0 <= k < |SolutionLines(solver)|
    requires forall j :: 0 <= j < |p.body| ==> AllNumbers(p.body[j].tokens)
    requires clauses == ClauseValues(p.body)
    ensures FitsAll(clauses, BucketCount(p.variables))
    ensures k < |s.layers| && LineFits(SolutionLines(solver)[k].tokens, BucketCount(p.variables))
    ensures Renders(s.layers[k], Asserted(SolutionLines(solver)[k].tokens), k + 2, p.clauses,
                    Adjacency(p.variables, clauses))
    ensures forall j :: 0 <= j < |LayerDirectives(s.layers[k])| ==>
              (LayerDirectives(s.layers[k])[j].SwitchState? || LayerDirectives(s.layers[k])[j].LightState?) &&
              LayerDirectives(s.layers[k])[j].layer == k + 2
    ensures forall c :: c in Lights(p.clauses) ==>
              LightState(c, true, k + 2) in LayerDirectives(s.layers[k]) ||
              LightState(c, false, k + 2) in LayerDirectives(s.layers[k])
  {
    var size := BucketCount(p.variables);
    assert forall j :: 0 <= j < |p.body| ==> TokenFailure(p.body[j].tokens, size).None?;
    RenderedDirectives(s.layers[k], Asserted(SolutionLines(solver)[k].tokens), k + 2, p.clauses,
                       Adjacency(p.variables, clauses));
  }

  /** A failing line fails at its first bad field: a field int() refuses
      raises ValueError, a non-zero literal past the buckets IndexError. */
  lemma {:induction false} TokenFailureFirst(tokens: seq<Option<int>>, size: int)
    ensures TokenFailure(tokens, size).Some? ==>
              exists k :: 0 <= k < |tokens| && !FieldPasses(tokens[k], size) &&
                (forall j :: 0 <= j < k ==> FieldPasses(tokens[j], size)) &&
                TokenFailure(tokens, size) == (if tokens[k].None? then Some(NotANumber) else Some(LiteralOutOfRange))
  {
    if tokens != [] && TokenFailure(tokens, size).Some? {
      if !FieldPasses(tokens[0], size) {
        assert TokenFailure(tokens, size) == (if tokens[0].None? then Some(NotANumber) else Some(LiteralOutOfRange));
      } else {
        var rest := tokens[1..];
        TokenFailureFirst(rest, size);
        var k :| 0 <= k < |rest| && !FieldPasses(rest[k], size) &&
                 (forall j :: 0 <= j < k ==> FieldPasses(rest[j], size)) &&
                 TokenFailure(rest, size) == (if rest[k].None? then Some(NotANumber) else Some(LiteralOutOfRange));
        assert rest[k] == tokens[k + 1];
        assert forall j :: 1 <= j < k + 1 ==> tokens[j] == rest[j - 1];
      }
    }
  }

  /** The clause lines fail with the error of the first line that fails. */
  lemma {:induction false} ClauseFailureFirst(lines: seq<Line>, size: int)
    ensures ClauseFailure(lines, size).Some? ==>
              exists k :: 0 <= k < |lines| && TokenFailure(lines[k].tokens, size).Some? &&
                (forall j :: 0 <= j < k ==> TokenFailure(lines[j].tokens, size).None?) &&
                ClauseFailure(lines, size) == TokenFailure(lines[k].tokens, size)
  {
    if lines != [] && ClauseFailure(lines, size).Some? && TokenFailure(lines[0].tokens, size).None? {
      var rest := lines[1..];
      ClauseFailureFirst(rest, size);
      var k :| 0 <= k < |rest| && TokenFailure(rest[k].tokens, size).Some? &&
               (forall j :: 0 <= j < k ==> TokenFailure(rest[j].tokens, size).None?) &&
               ClauseFailure(rest, size) == TokenFailure(rest[k].tokens, size);
      assert rest[k] == lines[k + 1];
      assert forall j :: 1 <= j < k + 1 ==> lines[j] == rest[j - 1];
    }
  }

  /** A "v " line whose fields after the marker abort the script. */
  predicate FailingAnswer(line: Line, size: int)
  {
    IsSolutionLine(line) && TokenFailure(AfterMarker(line.tokens), size).Some?
  }

  /** The solver output fails with the error of the first "v " line whose
      fields after the marker fail; other lines are never converted. */
  lemma {:induction false} SolutionFailureFirst(lines: seq<Line>, size: int)
    ensures SolutionFailure(lines, size).Some? ==>
              exists k :: 0 <= k < |lines| && FailingAnswer(lines[k], size) &&
                (forall j :: 0 <= j < k ==> !FailingAnswer(lines[j], size)) &&
                SolutionFailure(lines, size) == TokenFailure(AfterMarker(lines[k].tokens), size)
  {
    if lines != [] && SolutionFailure(lines, size).Some? {
      if FailingAnswer(lines[0], size) {
        assert SolutionFailure(lines, size) == TokenFailure(AfterMarker(lines[0].tokens), size);
      } else {
        var rest := lines[1..];
        assert SolutionFailure(lines, size) == SolutionFailure(rest, size);
        SolutionFailureFirst(rest, size);
        var k :| 0 <= k < |rest| && FailingAnswer(rest[k], size) &&
                 (forall j :: 0 <= j < k ==> !FailingAnswer(rest[j], size)) &&
                 SolutionFailure(rest, size) == TokenFailure(AfterMarker(rest[k].tokens), size);
        FirstFailingShift(lines, size, k);
      }
    }
  }

  /** The first failing "v " line of the tail is the first of the whole
      output when the head line does not fail. */
  lemma FirstFailingShift(lines: seq<Line>, size: int, k: int)
    requires lines != [] && !FailingAnswer(lines[0], size) && 0 <= k < |lines| - 1
    requires FailingAnswer(lines[1..][k], size)
    requires forall j :: 0 <= j < k ==> !FailingAnswer(lines[1..][j], size)
    ensures lines[k + 1] == lines[1..][k] && FailingAnswer(lines[k + 1], size)
    ensures forall j :: 0 <= j < k + 1 ==> !FailingAnswer(lines[j], size)
  {
    assert forall j :: 1 <= j < k + 1 ==> lines[j] == lines[1..][j - 1];
  }

  /** The script: read the header, build the buckets and wires from the
      clause lines, then draw one layer per solution line. */
  method Convert(formula: seq<Line>, solver: seq<Line>) returns (r: Result<Slides, Error>)
    ensures Diagnose(formula, solver).Some? ==> r == Failure(Diagnose(formula, solver).value)
    ensures Diagnose(formula, solver).None? ==> r.Success? && Describes(r.value, formula, solver)
  {
    var header := ReadHeader(formula);
    if header.Failure? {
      return Failure(header.error);
    }
    var n, m, body := header.value.variables, header.value.clauses, header.value.body;
    var size := BucketCount(n);
    var failure := ClauseFailure(body, size);
    if failure.Some? {
      return Failure(failure.value);
    }
    var clauses := ClauseValues(body);
    var buckets, wires := BuildAdjacency(n, clauses);
    failure := SolutionFailure(solver, size);
    if failure.Some? {
      return Failure(failure.value);
    }
    var layers := WaitForSolution(solver, m, buckets);
    r := Success(Slides(ScaleFor(n, m), DeclareVariables(n) + DeclareClauses(m), wires, layers));
  }
}
