/** handle_solution_line and wait_for_solution: one slide layer per solver
    line starting with "v ", showing the switches it sets and the lights
    they turn on. */
module Solutions {
  import opened Wrappers
  import opened Input
  import opened Literals
  import opened Directives
  import opened ClauseGraph

  /** What one solution line draws on slide `ordinal`: the switch states in
      literal order, then the lights on, then the lights off of 1..m (each
      set listed in whatever order the Python set iterates). */
  datatype Layer = Layer(ordinal: int, switches: seq<Directive>, lit: seq<int>, unlit: seq<int>)

  /** The clauses reached from the non-zero literals of `lits` through the
      buckets: `satisfied_clauses` after the update loop. */
  function Satisfied(buckets: seq<seq<int>>, lits: seq<int>): (r: set<int>)
    requires Fits(lits, |buckets|)
    ensures forall c :: c in r ==> exists j :: 0 <= j < |buckets| && c in buckets[j]
  {
    if lits == [] then {}
    else
      var l := lits[|lits| - 1];
      Satisfied(buckets, lits[..|lits| - 1]) + (if l == 0 then {} else set c | c in buckets[Index(l)])
  }

  /** The switch directives of a line, one per non-zero literal. */
  function SwitchStates(lits: seq<int>, layer: int): (ds: seq<Directive>)
    ensures |ds| <= |lits|
    ensures forall k :: 0 <= k < |ds| ==> ds[k].SwitchState? && ds[k].layer == layer && ds[k].variable >= 1
  {
    if lits == [] then []
    else
      var l := lits[|lits| - 1];
      SwitchStates(lits[..|lits| - 1], layer) + (if l == 0 then [] else [SwitchState(Abs(l), l > 0, layer)])
  }

  /** The lights 1..m: `set(range(1, m+1))`. */
  function Lights(m: int): (r: set<int>)
    ensures forall c :: c in r <==> 1 <= c <= m
  {
    if m < 1 then {} else Lights(m - 1) + {m}
  }

  /** `order` lists each member of `s` exactly once: an iteration over `s`. */
  predicate Enumerates(order: seq<int>, s: set<int>)
  {
    && (forall a, b :: 0 <= a < b < |order| ==> order[a] != order[b])
    && (forall c :: c in order ==> c in s)
    && (forall c :: c in s ==> c in order)
  }

  /** The literals of a solution line: the fields after its "v" marker. */
  predicate LineFits(tokens: seq<Option<int>>, size: int)
  {
    AllNumbers(AfterMarker(tokens)) && Fits(Values(AfterMarker(tokens)), size)
  }

  function Asserted(tokens: seq<Option<int>>): seq<int>
    requires AllNumbers(AfterMarker(tokens))
  {
    Values(AfterMarker(tokens))
  }

  /** `y` is what handle_solution_line draws for literals `lits` on slide
      `ordinal`, given the buckets and the clause count m. */
  predicate Renders(y: Layer, lits: seq<int>, ordinal: int, m: int, buckets: seq<seq<int>>)
    requires Fits(lits, |buckets|)
    ensures Renders(y, lits, ordinal, m, buckets) ==>
              forall k :: 0 <= k < |y.switches| ==> y.switches[k].SwitchState? && y.switches[k].layer == ordinal
    ensures Renders(y, lits, ordinal, m, buckets) ==> forall c :: c in y.lit ==> c !in y.unlit
  {
    && y.ordinal == ordinal
    && y.switches == SwitchStates(lits, ordinal)
    && Enumerates(y.lit, Satisfied(buckets, lits))
    && Enumerates(y.unlit, Lights(m) - Satisfied(buckets, lits))
  }

  /** The directive stream of a layer, in the order the source prints it. */
  function LayerDirectives(y: Layer): (ds: seq<Directive>)
    ensures |ds| == |y.switches| + |y.lit| + |y.unlit|
    ensures ds[..|y.switches|] == y.switches
    ensures forall k :: 0 <= k < |y.lit| ==> ds[|y.switches| + k] == LightState(y.lit[k], true, y.ordinal)
    ensures forall k :: 0 <= k < |y.unlit| ==>
              ds[|y.switches| + |y.lit| + k] == LightState(y.unlit[k], false, y.ordinal)
  {
    y.switches
      + seq(|y.lit|, k requires 0 <= k < |y.lit| => LightState(y.lit[k], true, y.ordinal))
      + seq(|y.unlit|, k requires 0 <= k < |y.unlit| => LightState(y.unlit[k], false, y.ordinal))
  }

  /** A line starting with "v " is a solution line. */
  predicate IsSolutionLine(line: Line)
  {
    StartsWith(line.text, "v ")
  }

  /** The solution lines of the solver output, in order. */
  function SolutionLines(lines: seq<Line>): (r: seq<Line>)
    ensures forall k :: 0 <= k < |r| ==> r[k] in lines && IsSolutionLine(r[k])
    ensures |r| <= |lines|
  {
    if lines == [] then []
    else
      var line := lines[|lines| - 1];
      SolutionLines(lines[..|lines| - 1]) + (if IsSolutionLine(line) then [line] else [])
  }

  /** Every line starting with "v " is kept. */
  lemma {:induction false} SolutionLinesComplete(lines: seq<Line>, j: int)
    requires 0 <= j < |lines| && IsSolutionLine(lines[j])
    ensures lines[j] in SolutionLines(lines)
  {
    var pre := lines[..|lines| - 1];
    if j < |lines| - 1 {
      SolutionLinesComplete(pre, j);
      assert pre[j] == lines[j];
    }
  }

  /** Filtering keeps input order: the solution lines of a concatenation are
      those of its first part followed by those of its second part. */
  lemma {:induction false} SolutionLinesAppend(a: seq<Line>, b: seq<Line>)
    ensures SolutionLines(a + b) == SolutionLines(a) + SolutionLines(b)
  {
    if b != [] {
      var pre := b[..|b| - 1];
      assert (a + b)[..|a + b| - 1] == a + pre;
      SolutionLinesAppend(a, pre);
    } else {
      assert a + b == a;
    }
  }

  /** The printed stream of a rendered layer: every directive is shown only on
      slide `ordinal`, and each light 1..m is drawn there, on exactly when its
      clause is satisfied. */
  lemma RenderedDirectives(y: Layer, lits: seq<int>, ordinal: int, m: int, buckets: seq<seq<int>>)
    requires Fits(lits, |buckets|) && Renders(y, lits, ordinal, m, buckets)
    ensures forall j :: 0 <= j < |LayerDirectives(y)| ==>
              (LayerDirectives(y)[j].SwitchState? || LayerDirectives(y)[j].LightState?) &&
              LayerDirectives(y)[j].layer == ordinal
    ensures forall c :: c in Lights(m) ==>
              LightState(c, c in Satisfied(buckets, lits), ordinal) in LayerDirectives(y)
  {
    forall c | c in Lights(m)
      ensures LightState(c, c in Satisfied(buckets, lits), ordinal) in LayerDirectives(y)
    {
      RenderedLight(y, lits, ordinal, m, buckets, c);
    }
  }

  /** Light c of 1..m appears in a rendered layer's stream, on exactly when
      its clause is satisfied. */
  lemma RenderedLight(y: Layer, lits: seq<int>, ordinal: int, m: int, buckets: seq<seq<int>>, c: int)
    requires Fits(lits, |buckets|) && Renders(y, lits, ordinal, m, buckets) && c in Lights(m)
    ensures LightState(c, c in Satisfied(buckets, lits), ordinal) in LayerDirectives(y)
  {
    var ds := LayerDirectives(y);
    if c in Satisfied(buckets, lits) {
      var a :| 0 <= a < |y.lit| && y.lit[a] == c;
      assert ds[|y.switches| + a] == LightState(c, true, ordinal);
    } else {
      assert c in Lights(m) - Satisfied(buckets, lits);
      var a :| 0 <= a < |y.unlit| && y.unlit[a] == c;
      assert ds[|y.switches| + |y.lit| + a] == LightState(c, false, ordinal);
    }
  }

  /** `layers` are the layers drawn for the solution lines among `lines`:
      the k-th one renders the k-th solution line on slide k + 2. */
  predicate Drawn(layers: seq<Layer>, lines: seq<Line>, m: int, buckets: seq<seq<int>>)
  {
    && |layers| == |SolutionLines(lines)|
    && forall k :: 0 <= k < |layers| ==>
         LineFits(SolutionLines(lines)[k].tokens, |buckets|) &&
         Renders(layers[k], Asserted(SolutionLines(lines)[k].tokens), k + 2, m, buckets)
  }

  /** A line that does not start with "v " draws nothing. */
  lemma DrawnSkip(layers: seq<Layer>, lines: seq<Line>, m: int, buckets: seq<seq<int>>)
    requires lines != [] && !IsSolutionLine(lines[|lines| - 1])
    requires Drawn(layers, lines[..|lines| - 1], m, buckets)
    ensures Drawn(layers, lines, m, buckets)
  {
  }

  /** A solution line draws one more layer, on the next slide. */
  lemma DrawnExtend(layers: seq<Layer>, lines: seq<Line>, m: int, buckets: seq<seq<int>>, y: Layer)
    requires lines != [] && IsSolutionLine(lines[|lines| - 1])
    requires Drawn(layers, lines[..|lines| - 1], m, buckets)
    requires LineFits(lines[|lines| - 1].tokens, |buckets|)
    requires Renders(y, Asserted(lines[|lines| - 1].tokens), |layers| + 2, m, buckets)
    ensures Drawn(layers + [y], lines, m, buckets)
  {
    var before := SolutionLines(lines[..|lines| - 1]);
    assert SolutionLines(lines) == before + [lines[|lines| - 1]];
  }

  /** Every solution line converts with int() and fits the buckets. */
  predicate SolutionsFit(lines: seq<Line>, size: int)
  {
    forall k :: 0 <= k < |lines| && IsSolutionLine(lines[k]) ==> LineFits(lines[k].tokens, size)
  }

  // ---------------------------------------------------------------- lemmas

  /** A clause is satisfied exactly when it is in the bucket of some non-zero
      literal of the line. */
  lemma {:induction false} SatisfiedMembers(buckets: seq<seq<int>>, lits: seq<int>, c: int)
    requires Fits(lits, |buckets|)
    ensures c in Satisfied(buckets, lits) <==>
            exists k :: 0 <= k < |lits| && lits[k] != 0 && c in buckets[Index(lits[k])]
  {
    if lits != [] {
      var pre := lits[..|lits| - 1];
      SatisfiedMembers(buckets, pre, c);
      if c in Satisfied(buckets, pre) {
        var k :| 0 <= k < |pre| && pre[k] != 0 && c in buckets[Index(pre[k])];
        assert lits[k] == pre[k];
      }
      if exists k :: 0 <= k < |lits| && lits[k] != 0 && c in buckets[Index(lits[k])] {
        var k :| 0 <= k < |lits| && lits[k] != 0 && c in buckets[Index(lits[k])];
        if k < |pre| {
          assert pre[k] == lits[k];
        }
      }
    }
  }

  /** Repeating or reordering the literals of a line does not change the
      satisfied clauses. */
  lemma SatisfiedIgnoresRepetition(buckets: seq<seq<int>>, a: seq<int>, b: seq<int>)
    requires Fits(a, |buckets|) && Fits(b, |buckets|)
    requires forall l :: l in a <==> l in b
    ensures Satisfied(buckets, a) == Satisfied(buckets, b)
  {
    forall c | c in Satisfied(buckets, a)
      ensures c in Satisfied(buckets, b)
    {
      SatisfiedMembers(buckets, a, c);
      var k :| 0 <= k < |a| && a[k] != 0 && c in buckets[Index(a[k])];
      assert a[k] in b;
      var j :| 0 <= j < |b| && b[j] == a[k];
      SatisfiedMembers(buckets, b, c);
    }
    forall c | c in Satisfied(buckets, b)
      ensures c in Satisfied(buckets, a)
    {
      SatisfiedMembers(buckets, b, c);
      var k :| 0 <= k < |b| && b[k] != 0 && c in buckets[Index(b[k])];
      assert b[k] in a;
      var j :| 0 <= j < |a| && a[j] == b[k];
      SatisfiedMembers(buckets, a, c);
    }
  }

  /** Over the buckets built from the clause lines, light c is lit exactly
      when clause line c contains a non-zero literal of the solution line. */
  lemma LitIffClauseSatisfied(n: int, clauses: seq<seq<int>>, lits: seq<int>, c: int)
    requires FitsAll(clauses, BucketCount(n)) && Fits(lits, BucketCount(n))
    ensures c in Satisfied(Adjacency(n, clauses), lits) <==>
            1 <= c <= |clauses| && exists l :: l in lits && l != 0 && l in clauses[c - 1]
  {
    if c in Satisfied(Adjacency(n, clauses), lits) {
      LitOnlyIfSatisfied(n, clauses, lits, c);
    }
    if 1 <= c <= |clauses| && exists l :: l in lits && l != 0 && l in clauses[c - 1] {
      var l :| l in lits && l != 0 && l in clauses[c - 1];
      LitIfSatisfied(n, clauses, lits, l, c);
    }
  }

  lemma LitOnlyIfSatisfied(n: int, clauses: seq<seq<int>>, lits: seq<int>, c: int)
    requires FitsAll(clauses, BucketCount(n)) && Fits(lits, BucketCount(n))
    requires c in Satisfied(Adjacency(n, clauses), lits)
    ensures 1 <= c <= |clauses| && exists l :: l in lits && l != 0 && l in clauses[c - 1]
  {
    var buckets := Adjacency(n, clauses);
    SatisfiedMembers(buckets, lits, c);
    var k :| 0 <= k < |lits| && lits[k] != 0 && c in buckets[Index(lits[k])];
    var l := lits[k];
    assert Index(l) < BucketCount(n);
    assert Abs(l) <= n;
    AdjacencyMembership(n, clauses, l, c);
    assert l in lits;
  }

  lemma LitIfSatisfied(n: int, clauses: seq<seq<int>>, lits: seq<int>, l: int, c: int)
    requires FitsAll(clauses, BucketCount(n)) && Fits(lits, BucketCount(n))
    requires 1 <= c <= |clauses| && l in lits && l != 0 && l in clauses[c - 1]
    ensures c in Satisfied(Adjacency(n, clauses), lits)
  {
    var buckets := Adjacency(n, clauses);
    var k :| 0 <= k < |lits| && lits[k] == l;
    assert Index(l) < BucketCount(n);
    assert Abs(l) <= n;
    AdjacencyMembership(n, clauses, l, c);
    SatisfiedMembers(buckets, lits, c);
  }

  /** One switch directive per non-zero literal, in order: switch |l|, on
      exactly when l is positive. */
  lemma {:induction false} SwitchStatesShape(lits: seq<int>, layer: int)
    ensures |SwitchStates(lits, layer)| == |NonZero(lits)|
    ensures forall k :: 0 <= k < |NonZero(lits)| ==>
              SwitchStates(lits, layer)[k] == SwitchState(Abs(NonZero(lits)[k]), NonZero(lits)[k] > 0, layer)
  {
    if lits != [] {
      SwitchStatesShape(lits[..|lits| - 1], layer);
    }
  }

  /** In a rendered layer every light 1..m is drawn exactly once, on or off;
      lights drawn off are all in 1..m. */
  lemma LightsPartition(y: Layer, lits: seq<int>, ordinal: int, m: int, buckets: seq<seq<int>>, c: int)
    requires Fits(lits, |buckets|) && Renders(y, lits, ordinal, m, buckets)
    ensures 1 <= c <= m ==> (c in y.lit <==> c !in y.unlit)
    ensures c in y.unlit ==> 1 <= c <= m
    ensures c in y.lit <==> c in Satisfied(buckets, lits)
  {
  }

  // ---------------------------------------------------------------- methods

  /** Some member of a non-empty set. */
  method PickFrom(s: set<int>) returns (c: int)
    requires s != {}
    ensures c in s
  {
    if forall x :: x !in s {
      assert false;
    }
    c :| c in s;
  }

  /** One `for c in s` iteration over a Python set, in some order. */
  method EnumerateSet(s: set<int>) returns (order: seq<int>)
    ensures Enumerates(order, s)
  {
    order := [];
    var pending := s;
    while pending != {}
      invariant pending <= s
      invariant Enumerates(order, s - pending)
      decreases |pending|
    {
      var c := PickFrom(pending);
      order := order + [c];
      pending := pending - {c};
    }
  }

  /** handle_solution_line: skip the marker, gather the clauses reached from
      each non-zero literal while drawing its switch, then list the lights
      on and the lights of 1..m that stay off. */
  method HandleSolutionLine(tokens: seq<Option<int>>, i: int, m: int, buckets: array<seq<int>>) returns (y: Layer)
    requires LineFits(tokens, buckets.Length)
    ensures Renders(y, Asserted(tokens), i, m, buckets[..])
  {
    var fields := AfterMarker(tokens);
    ghost var lits := Values(fields);
    var satisfied: set<int> := {};
    var switches: seq<Directive> := [];
    for j := 0 to |fields|
      invariant satisfied == Satisfied(buckets[..], lits[..j])
      invariant switches == SwitchStates(lits[..j], i)
    {
      assert lits[..j + 1][..j] == lits[..j];
      var l := fields[j].value;
      if l != 0 {
        satisfied := satisfied + set c | c in buckets[Index(l)];
        switches := switches + [SwitchState(Abs(l), l > 0, i)];
      }
    }
    assert lits[..|fields|] == lits;
    var lit := EnumerateSet(satisfied);
    var unlit := EnumerateSet(Lights(m) - satisfied);
    y := Layer(i, switches, lit, unlit);
  }

  /** wait_for_solution: the k-th solution line (from 0) is drawn on slide
      k + 2; other lines are skipped and do not advance the count. */
  method WaitForSolution(lines: seq<Line>, m: int, buckets: array<seq<int>>) returns (layers: seq<Layer>)
    requires SolutionsFit(lines, buckets.Length)
    ensures |layers| == |SolutionLines(lines)|
    ensures forall k :: 0 <= k < |layers| ==>
              LineFits(SolutionLines(lines)[k].tokens, buckets.Length) &&
              Renders(layers[k], Asserted(SolutionLines(lines)[k].tokens), k + 2, m, buckets[..])
  {
    layers := [];
    var i := 2;
    for j := 0 to |lines|
      invariant i == |layers| + 2
      invariant Drawn(layers, lines[..j], m, buckets[..])
    {
      assert lines[..j + 1][..j] == lines[..j];
      var line := lines[j];
      if IsSolutionLine(line) {
        var y := HandleSolutionLine(line.tokens, i, m, buckets);
        DrawnExtend(layers, lines[..j + 1], m, buckets[..], y);
        layers := layers + [y];
        i := i + 1;
      } else {
        DrawnSkip(layers, lines[..j + 1], m, buckets[..]);
      }
    }
    assert lines[..|lines|] == lines;
  }
}
