/** Reading the DIMACS problem line (`p cnf n m`) after the leading
    comment lines, and what n and m decide about the layout. */
module Header {
  import opened Wrappers
  import opened Input
  import opened Directives

  /** The declared counts and the lines after the problem line. */
  datatype Problem = Problem(variables: int, clauses: int, body: seq<Line>)

  /** A comment line as the reader recognises it: text starting with "c ". */
  predicate IsComment(line: Line)
  {
    StartsWith(line.text, "c ")
  }

  /** What readline() returns for line k: the line, or "" past the end. */
  function ReadLine(lines: seq<Line>, k: nat): (line: Line)
    ensures k < |lines| ==> line in lines
    ensures k >= |lines| ==> !IsComment(line) && !StartsWith(line.text, "p cnf")
  {
    if k < |lines| then lines[k] else Line("", [])
  }

  /** The number of leading comment lines. */
  function CommentCount(lines: seq<Line>): (k: nat)
    ensures k <= |lines|
    ensures forall j :: 0 <= j < k ==> IsComment(lines[j])
    ensures k < |lines| ==> !IsComment(lines[k])
  {
    if lines == [] || !IsComment(lines[0]) then 0 else 1 + CommentCount(lines[1..])
  }

  /** The outcome of reading the header: skip the comment lines, assert the
      problem line, then `n = int(header[2])` and `m = int(header[3])`. */
  function ParseHeader(lines: seq<Line>): (r: Result<Problem, Error>)
    ensures r == Failure(MissingProblemLine) <==>
            CommentCount(lines) == |lines| || !StartsWith(lines[CommentCount(lines)].text, "p cnf")
    ensures r.Success? ==>
              var t := lines[CommentCount(lines)].tokens;
              |t| >= 4 && t[2] == Some(r.value.variables) && t[3] == Some(r.value.clauses)
    ensures r.Success? ==> r.value.body == lines[CommentCount(lines) + 1..]
    ensures r.Success? <==>
              CommentCount(lines) < |lines| && StartsWith(lines[CommentCount(lines)].text, "p cnf") &&
              var t := lines[CommentCount(lines)].tokens;
              |t| >= 4 && t[2].Some? && t[3].Some?
    ensures r == Failure(ShortHeader) <==>
              CommentCount(lines) < |lines| && StartsWith(lines[CommentCount(lines)].text, "p cnf") &&
              var t := lines[CommentCount(lines)].tokens;
              |t| < 3 || (t[2].Some? && |t| == 3)
    ensures r == Failure(NotANumber) <==>
              CommentCount(lines) < |lines| && StartsWith(lines[CommentCount(lines)].text, "p cnf") &&
              var t := lines[CommentCount(lines)].tokens;
              |t| >= 3 && (t[2].None? || (|t| >= 4 && t[3].None?))
  {
    var line := ReadLine(lines, CommentCount(lines));
    var t := line.tokens;
    if !StartsWith(line.text, "p cnf") then Failure(MissingProblemLine)
    else if |t| < 3 then Failure(ShortHeader)
    else if t[2].None? then Failure(NotANumber)
    else if |t| < 4 then Failure(ShortHeader)
    else if t[3].None? then Failure(NotANumber)
    else Success(Problem(t[2].value, t[3].value, lines[CommentCount(lines) + 1..]))
  }

  /** The slide scale: 1 for a circuit of at most 5 switches and 5 lights,
      otherwise 5 / max(n, m). */
  datatype Scale = Unit | Fraction(numerator: int, denominator: int)

  function ScaleFor(n: int, m: int): (s: Scale)
    ensures s == Unit <==> n <= 5 && m <= 5
    ensures s.Fraction? ==> s.numerator == 5 && s.denominator > 5
    ensures s.Fraction? ==> s.denominator >= n && s.denominator >= m
    ensures s.Fraction? ==> s.denominator == n || s.denominator == m
  {
    if n <= 5 && m <= 5 then Unit
    else Fraction(5, if n < m then m else n)
  }

  /** declare_variables: switch 1, then switches 2..n (so at least one). */
  function DeclareVariables(n: int): (ds: seq<Directive>)
    ensures |ds| == if n < 1 then 1 else n
    ensures forall k :: 0 <= k < |ds| ==> ds[k] == DeclareSwitch(k + 1)
  {
    [DeclareSwitch(1)] + seq(if n < 2 then 0 else n - 1, k => DeclareSwitch(k + 2))
  }

  /** declare_clauses: light 1, then lights 2..m (so at least one). */
  function DeclareClauses(m: int): (ds: seq<Directive>)
    ensures |ds| == if m < 1 then 1 else m
    ensures forall k :: 0 <= k < |ds| ==> ds[k] == DeclareLight(k + 1)
  {
    [DeclareLight(1)] + seq(if m < 2 then 0 else m - 1, k => DeclareLight(k + 2))
  }

  // ---------------------------------------------------------------- lemmas

  /** A comment line in front of the file changes nothing. */
  lemma HeaderSkipsComment(c: Line, lines: seq<Line>)
    requires IsComment(c)
    ensures ParseHeader([c] + lines) == ParseHeader(lines)
  {
    assert ([c] + lines)[1..] == lines;
    var k := CommentCount(lines);
    assert CommentCount([c] + lines) == k + 1;
    assert ReadLine([c] + lines, k + 1) == ReadLine(lines, k);
    if k < |lines| {
      assert ([c] + lines)[k + 2..] == lines[k + 1..];
    }
  }

  /** A successful parse found, after comment lines only, a problem line
      whose third and fourth fields are n and m; the clause lines follow it. */
  lemma ParsedProblemLine(lines: seq<Line>, p: Problem)
    requires ParseHeader(lines) == Success(p)
    ensures exists k :: 0 <= k < |lines| && (forall j :: 0 <= j < k ==> IsComment(lines[j]))
              && StartsWith(lines[k].text, "p cnf") && |lines[k].tokens| >= 4
              && lines[k].tokens[2] == Some(p.variables) && lines[k].tokens[3] == Some(p.clauses)
              && p.body == lines[k + 1..]
  {
    var k := CommentCount(lines);
    assert k < |lines|;
  }

  /** A file whose first line that is not a comment does not start with
      "p cnf" (or that has no such line) fails the assertion. */
  lemma NoProblemLine(lines: seq<Line>)
    requires CommentCount(lines) == |lines| || !StartsWith(lines[CommentCount(lines)].text, "p cnf")
    ensures ParseHeader(lines) == Failure(MissingProblemLine)
  {
    var k := CommentCount(lines);
    if k == |lines| {
      assert !StartsWith(ReadLine(lines, k).text, "p cnf");
    }
  }

  /** A problem line after a line that is neither a comment nor a problem
      line is never reached: the file `x`, `p cnf 1 1` fails the assertion. */
  lemma ProblemLineMustComeFirst()
    ensures ParseHeader([Line("x", []), Line("p cnf 1 1", [None, None, Some(1), Some(1)])])
            == Failure(MissingProblemLine)
  {
    var lines := [Line("x", []), Line("p cnf 1 1", [None, None, Some(1), Some(1)])];
    assert !StartsWith(lines[0].text, "c ");
    assert CommentCount(lines) == 0;
    NoProblemLine(lines);
  }

  /** The two cases named for the scale: 3 x 3 draws at 1, 10 x 4 at 5/10. */
  lemma ScaleExamples()
    ensures ScaleFor(3, 3) == Unit
    ensures ScaleFor(10, 4) == Fraction(5, 10)
  {
  }

  // ---------------------------------------------------------------- methods

  /** The header step of the script, as a loop over readline(). */
  method ReadHeader(lines: seq<Line>) returns (r: Result<Problem, Error>)
    ensures r == ParseHeader(lines)
  {
    var k := 0;
    var line := ReadLine(lines, 0);
    while IsComment(line)
      invariant k <= |lines|
      invariant line == ReadLine(lines, k)
      invariant forall j :: 0 <= j < k ==> IsComment(lines[j])
      decreases |lines| - k
    {
      k := k + 1;
      line := ReadLine(lines, k);
    }
    assert k == CommentCount(lines);
    if !StartsWith(line.text, "p cnf") {
      return Failure(MissingProblemLine);
    }
    var header := line.tokens;
    if |header| < 3 {
      return Failure(ShortHeader);
    }
    if header[2].None? {
      return Failure(NotANumber);
    }
    var n := header[2].value;
    if |header| < 4 {
      return Failure(ShortHeader);
    }
    if header[3].None? {
      return Failure(NotANumber);
    }
    var m := header[3].value;
    r := Success(Problem(n, m, lines[k + 1..]));
  }
}
