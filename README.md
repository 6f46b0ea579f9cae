# cnf2lightswitch, modelled in Dafny

`cnf2lightswitch.py` reads a DIMACS CNF formula: comment lines, a
`p cnf n m` problem line, then clause lines of signed literals ending in `0`.
It writes Beamer/TikZ slides of a "lights and switches" circuit. Each
variable is a switch, each clause is a light, and each literal occurrence is a
wire from its clause's light to its variable's switch. Every line of solver
output that starts with `v ` becomes one more slide (a layer). That layer
shows the switches the line sets and the lights those switches turn on.

The model keeps the script's computation and replaces its printed markup by
abstract directives (`DeclareSwitch`, `DeclareLight`, `Edge`, `SwitchState`,
`LightState`):

- `Literals`: `dimacs2index` (`Index`) and its inverse (`Literal`). It also
  fixes the bucket count `2n+2` and the "fits the buckets" condition under
  which indexing `lit_to_clauses` does not raise.
- `Wiring`: `link_literal_to_clause`. It gives the bend side, the attachment
  face and the wire directive.
- `ClauseGraph`: `handle_clause` as a method that appends in place to an
  `array<seq<int>>`, and the driver loop (`BuildAdjacency`) that numbers the
  clause lines 1, 2, 3, …. Each is proved against a specification function
  (`AddClause`, `Adjacency`). Lemmas then prove what the buckets mean.
- `Solutions`: `handle_solution_line` and `wait_for_solution` as loops. The
  satisfied set is a union, built with `update`, over the buckets of the
  asserted literals. Python's iteration over a set comes in no fixed order. It
  is modelled as an enumeration: every member exactly once, in some order.
- `Header`: the comment-skipping loop and the `p cnf` problem line, the
  choice of scale, and the declaration of switches and lights.
- `LightSwitch`: the whole script as `Convert`. It fails with the first
  error the script would raise, or returns the slides as `Describes` states
  them.
- `Scenarios`: worked runs on the formula `p cnf 2 2` with clauses `1 2 0` and
  `-1 -2 0`.

Splitting a line on white space and converting with `int()` are library
calls. An input line is given as its text, which is used for the
`startswith` tests, plus its fields, each already converted (`Some(v)`) or
refused by `int()` (`None`, a `ValueError`).

Behaviour of the script worth knowing:

- A literal repeated within one clause line puts that clause's index into
  the literal's bucket once per occurrence (`AdjacencyMultiplicity`). Only
  bucket membership, and therefore the satisfied set, ignores repetition
  (`AdjacencyMembership`, `SatisfiedIgnoresRepetition`).
- The driver reads every remaining line as a clause, not exactly `m` lines.
  So bucket entries range over 1..(number of lines read), and the lit lights
  can include indices above `m`. The unlit lights are always within `1..m`.
- A clause is a disjunction. Under `v 1 -2 0`, the clause `-1 -2` is
  satisfied by `-2`, so its light is on (`Scenarios.OneSolution`). Under
  `v 1 2 0` only light 1 is on (`Scenarios.TwoSolutions`).
- `declare_variables` and `declare_clauses` always declare switch 1 and
  light 1, even when `n < 1` or `m < 1`.
- A comment line that is exactly `c`, with no following space, is not
  skipped. It fails the `p cnf` assertion.

## Model

| member | source | states |
|---|---|---|
| `Literals.Index` | cnf2lightswitch.py:16-43 | half the slot is the literal's variable; the slot is odd exactly for a negative literal; 0 has slot 0 |
| `Literals.IndexExamples` | cnf2lightswitch.py:30-35 | the doctests: 1 goes to 2, -1 to 3, 0 to 0 |
| `Literals.IndexRoundTrip` | cnf2lightswitch.py:37-43 | `Literal` inverts `Index` on every integer |
| `Literals.SlotRoundTrip` | cnf2lightswitch.py:37-43 | `Index` inverts `Literal` on every slot except 1, which no literal uses |
| `Literals.IndexInjective` | cnf2lightswitch.py:37-43 | distinct literals never share a bucket |
| `Literals.OppositeLiterals` | cnf2lightswitch.py:37-43 | l and -l have slots of opposite parity; positive literals use even slots from 2, negative ones odd slots from 3 |
| `Literals.SlotInBuckets` | cnf2lightswitch.py:181 | a literal over a declared variable (1 <= abs(l) <= n) has a slot in [2, 2n+1], inside the 2n+2 buckets |
| `Literals.FitsIffDeclared` | cnf2lightswitch.py:104 | a line indexes the buckets without IndexError exactly when each of its non-zero literals names a variable in 1..n |
| `Literals.BucketCount` | cnf2lightswitch.py:181 | `range(2*n+2)` gives an even number of buckets, at least two exactly when n >= 0, with n recovered as half the count minus one |
| `Literals.NonZero` | cnf2lightswitch.py:101-103 | the non-zero fields of a line: no 0, and every non-zero literal with its multiplicity |
| `Wiring.Bend` | cnf2lightswitch.py:107-119 | a positive wire bends right exactly when the light is at least two places right of its switch; a negative wire bends left exactly when the light is at least three places left |
| `Wiring.Attachment` | cnf2lightswitch.py:113-120 | positive literals attach at the east face, negative ones at the west face |
| `Wiring.Wire` | cnf2lightswitch.py:107-120 | the wire joins light i to switch abs(l) >= 1, with polarity l > 0, face East exactly for positive wires, and side `Bend(l, i)` |
| `Wiring.BendMonotone` | cnf2lightswitch.py:109-116 | moving the light right keeps a right-bending positive wire right; moving it left keeps a left-bending negative wire left |
| `Wiring.BendStraightAbove` | cnf2lightswitch.py:109-119 | a light straight above its switch bends the positive wire left and the negative wire right |
| `ClauseGraph.AddClause` | cnf2lightswitch.py:101-104 | handling a line leaves the number of buckets unchanged |
| `ClauseGraph.AddClauseBucket` | cnf2lightswitch.py:96-105 | bucket k keeps its old contents as a prefix and gains i once per occurrence of its literal; other buckets gain nothing |
| `ClauseGraph.CountOccurrences` | cnf2lightswitch.py:101-104 | the number of appends to a literal's bucket is the number of occurrences of that literal in the line |
| `ClauseGraph.HandleClause` | cnf2lightswitch.py:96-105 | in place, the buckets become `AddClause` of the old buckets; one wire is returned per non-zero literal, in order |
| `ClauseGraph.ClauseWires` | cnf2lightswitch.py:101-105 | a line draws at most one wire per field, each an edge from light i to a switch numbered from 1 |
| `ClauseGraph.AllWires` | cnf2lightswitch.py:183-186 | every wire drawn while reading the clause lines leaves a light numbered 1..number of lines read |
| `ClauseGraph.ClauseWiresMembership` | cnf2lightswitch.py:101-105 | line i draws the wire of a non-zero l exactly when l is one of its fields |
| `ClauseGraph.AllWiresMembership` | cnf2lightswitch.py:183-186 | the file's wires contain `Wire(l, i)` exactly when clause line i (counted from 1) contains the non-zero literal l |
| `ClauseGraph.ClauseWiresShape` | cnf2lightswitch.py:101-105 | the k-th wire of a line is `Wire` of its k-th non-zero literal, and there are exactly as many wires as non-zero literals |
| `ClauseGraph.Adjacency` | cnf2lightswitch.py:181-186 | the buckets built from the clause lines number 2n+2 (none when 2n+2 <= 0) |
| `ClauseGraph.BuildAdjacency` | cnf2lightswitch.py:181-186 | the fresh bucket array equals `Adjacency(n, clauses)`, and the wires are the lines' wires in reading order |
| `ClauseGraph.AdjacencyColumn` | cnf2lightswitch.py:183-186 | each bucket lists, line by line, clause i once per occurrence of the bucket's literal in line i |
| `ClauseGraph.ColumnMultiplicity` | cnf2lightswitch.py:183-186 | clause i appears in a column as often as line i holds the slot, and never when i is not a line number |
| `ClauseGraph.RepeatMultiplicity` | cnf2lightswitch.py:104 | k appends of x add k copies of x and nothing else |
| `ClauseGraph.ColumnOrdered` | cnf2lightswitch.py:183-186 | a column is non-decreasing and holds only line numbers 1..number of lines |
| `ClauseGraph.AdjacencyMultiplicity` | cnf2lightswitch.py:181-186 | clause i is in the bucket of l as many times as l occurs in clause line i (duplicates kept) |
| `ClauseGraph.AdjacencyMembership` | cnf2lightswitch.py:181-186 | i is in the bucket of l exactly when clause line i contains l |
| `ClauseGraph.AdjacencyOrdered` | cnf2lightswitch.py:181-186 | every bucket is non-decreasing, with entries in 1..number of lines read |
| `ClauseGraph.ReservedSlotsEmpty` | cnf2lightswitch.py:37-38 | slot 0 (the terminator) and slot 1 (no literal) stay empty |
| `ClauseGraph.CountReserved` | cnf2lightswitch.py:103 | no literal of a line counts towards slot 0 or slot 1 |
| `Solutions.Satisfied` | cnf2lightswitch.py:127-132 | every satisfied clause was found in one of the buckets |
| `Solutions.SwitchStates` | cnf2lightswitch.py:129-137 | at most one switch directive per field, each for a switch numbered from 1 and shown only on this slide |
| `Solutions.Renders` | cnf2lightswitch.py:122-141 | a rendered layer shows its switches only on its own slide, and no light is both on and off |
| `Solutions.SatisfiedMembers` | cnf2lightswitch.py:127-132 | a clause is satisfied exactly when it lies in the bucket of some non-zero literal of the line |
| `Solutions.SatisfiedIgnoresRepetition` | cnf2lightswitch.py:129-132 | two literal lists with the same members satisfy the same clauses (duplicates and order do not matter) |
| `Solutions.LitIffClauseSatisfied` | cnf2lightswitch.py:127-141 | over the buckets of the clause lines, light c is lit exactly when clause line c contains a literal the solution line asserts |
| `Solutions.LitOnlyIfSatisfied` | cnf2lightswitch.py:132 | a lit light's clause line contains an asserted literal |
| `Solutions.LitIfSatisfied` | cnf2lightswitch.py:132 | a clause line containing an asserted literal has its light lit |
| `Solutions.SwitchStatesShape` | cnf2lightswitch.py:129-137 | one switch directive per non-zero literal, in order, for switch abs(l), on exactly when l > 0 |
| `Solutions.LightsPartition` | cnf2lightswitch.py:138-141 | in a layer each light 1..m is drawn exactly once, on or off; lights drawn off lie in 1..m; the lit lights are the satisfied clauses |
| `Solutions.Lights` | cnf2lightswitch.py:140 | `set(range(1, m+1))` holds exactly 1..m |
| `Solutions.PickFrom` | cnf2lightswitch.py:138 | a member of a non-empty set |
| `Solutions.EnumerateSet` | cnf2lightswitch.py:138-141 | iterating a set visits each member exactly once |
| `Solutions.HandleSolutionLine` | cnf2lightswitch.py:122-141 | the layer drawn for a line skips its first field; its switches are `SwitchStates` of the asserted literals; its lit lights enumerate the satisfied clauses and its unlit lights enumerate 1..m minus them |
| `Solutions.SolutionLines` | cnf2lightswitch.py:151-152 | the solution lines are lines of the input that start with "v " |
| `Solutions.SolutionLinesComplete` | cnf2lightswitch.py:151-152 | every input line that starts with "v " is a solution line |
| `Solutions.SolutionLinesAppend` | cnf2lightswitch.py:151-154 | the solution lines keep input order: those of a concatenation are those of its first part followed by those of its second |
| `Solutions.WaitForSolution` | cnf2lightswitch.py:143-154 | one layer per line starting with "v "; the k-th one (from 0) is drawn on slide k + 2; other lines do not advance the count |
| `Solutions.RenderedDirectives` | cnf2lightswitch.py:128-141 | the printed stream of a rendered layer holds only switch and light directives for its own slide, and draws each light 1..m, on exactly when its clause is satisfied |
| `Solutions.RenderedLight` | cnf2lightswitch.py:138-141 | one light 1..m appears in a rendered layer's stream, on exactly when its clause is satisfied |
| `Solutions.DrawnSkip` | cnf2lightswitch.py:151-152 | a line not starting with "v " draws no layer |
| `Solutions.DrawnExtend` | cnf2lightswitch.py:151-154 | a "v " line draws one more layer, rendered on the next slide number |
| `Solutions.LayerDirectives` | cnf2lightswitch.py:128-141 | a layer prints its switch directives unchanged, then `LightState(c, on, slide)` for each lit light in order, then `LightState(c, off, slide)` for each unlit light in order, and nothing else |
| `Input.AfterMarker` | cnf2lightswitch.py:129 | `split()[1:]`: the fields after the first, none for an empty line |
| `Header.ReadLine` | cnf2lightswitch.py:164-168 | within the file readline() returns one of its lines; past the end it returns a line that neither continues the comment loop nor passes the "p cnf" assertion |
| `Header.CommentCount` | cnf2lightswitch.py:164-166 | the leading lines starting with "c " are skipped, up to the first line that does not |
| `Header.ParseHeader` | cnf2lightswitch.py:164-171 | the header parses exactly when the first line after the comments starts with "p cnf" and its third and fourth fields convert with int(); it fails the assertion exactly when that line is missing or is not a "p cnf" line; it stops at a missing field (`ShortHeader`) or an unconvertible one (`NotANumber`) exactly as the two reads in order give; on success n and m are those fields and the clause lines are all lines after it |
| `Header.ReadHeader` | cnf2lightswitch.py:164-171 | the readline loop yields `ParseHeader` of the lines |
| `Header.HeaderSkipsComment` | cnf2lightswitch.py:165-166 | putting a comment line in front of the file changes neither the counts nor the error |
| `Header.ParsedProblemLine` | cnf2lightswitch.py:168-171 | a successful parse found, after comments only, a "p cnf" line whose third and fourth fields are n and m; the clause lines are the lines after it |
| `Header.NoProblemLine` | cnf2lightswitch.py:164-168 | when the first line after the comments is missing (an empty or all-comment file) or does not start with "p cnf", the assertion fails |
| `Header.ProblemLineMustComeFirst` | cnf2lightswitch.py:164-168 | a "p cnf" line after a line that is neither a comment nor a problem line is never reached: that file fails the assertion |
| `Header.ScaleFor` | cnf2lightswitch.py:172-175 | scale 1 exactly when n <= 5 and m <= 5; otherwise 5 over max(n, m), with a denominator above 5 |
| `Header.ScaleExamples` | cnf2lightswitch.py:172-175 | 3 by 3 draws at scale 1; 10 by 4 draws at 5/10 |
| `Header.DeclareVariables` | cnf2lightswitch.py:66-80 | switches 1..n are declared in order, and at least switch 1 |
| `Header.DeclareClauses` | cnf2lightswitch.py:82-94 | lights 1..m are declared in order, and at least light 1 |
| `LightSwitch.TokenFailure` | cnf2lightswitch.py:101-104 | a line aborts exactly when one of its fields is refused by int() or is a non-zero literal beyond the buckets |
| `LightSwitch.ClauseFailure` | cnf2lightswitch.py:184-186 | the clause lines abort exactly when one of them does |
| `LightSwitch.SolutionFailure` | cnf2lightswitch.py:129-132 | the solver output aborts exactly when a line starting with "v " does; other lines are never converted |
| `LightSwitch.TokenFailureFirst` | cnf2lightswitch.py:101-104 | a failing line fails at its first bad field: `NotANumber` when int() refuses it (ValueError), `LiteralOutOfRange` when it is a non-zero literal past the buckets (IndexError), with every earlier field converting and fitting |
| `LightSwitch.ClauseFailureFirst` | cnf2lightswitch.py:183-186 | failing clause lines fail with the error of the first clause line that fails; every earlier line passes |
| `LightSwitch.SolutionFailureFirst` | cnf2lightswitch.py:129-132 | failing solver output fails with the error of the first "v " line whose fields after the marker fail; every earlier "v " line passes and other lines are never converted |
| `LightSwitch.ClauseValues` | cnf2lightswitch.py:101-102 | the clause lines as integer lists, field by field |
| `LightSwitch.Diagnose` | cnf2lightswitch.py:162-191 | a run has no error exactly when the header parses, every clause line converts and fits the buckets, and every "v " line does too; a header error is the error of the run, a clause-line error comes before any solution-line error, and with header and clause lines passing the error is that of the solver output |
| `LightSwitch.Describes` | cnf2lightswitch.py:162-191 | described slides number their layers consecutively from slide 2 |
| `LightSwitch.DescribedLayer` | cnf2lightswitch.py:181-189 | in described slides the clause lines fit the buckets; layer k renders solution line k on slide k + 2 over the buckets of the clause lines; its printed stream holds only directives for slide k + 2 and draws every light 1..m on or off |
| `LightSwitch.Convert` | cnf2lightswitch.py:162-191 | the script fails with the first error it would raise; otherwise it returns the scale, the declarations, all wires and one correctly numbered layer per solution line, as `Describes` states |
| `Scenarios.OneSolution` | cnf2lightswitch.py:122-141 | `v 1 -2 0` on clauses `1 2 0` and `-1 -2 0`: switch 1 on and switch 2 off on slide 2, both lights on |
| `Scenarios.TwoSolutions` | cnf2lightswitch.py:143-154 | `v 1 2 0` then `v -1 -2 0`: slide 2 lights only clause 1, slide 3 lights only clause 2 |
| `Scenarios.NoSolutionLines` | cnf2lightswitch.py:151-152 | solver output without a "v " line gives no solution lines |
| `Scenarios.NoSolutionsOnlyCircuit` | cnf2lightswitch.py:150-154 | without solution lines the slides have no layer beyond the first |

## Left out

- Command-line handling and the usage message (lines 156-159), opening and
  closing the formula file (162, 187), and reading standard input (151). The
  model takes both inputs as sequences of lines.
- The LaTeX/TikZ text of every `print`, in `latex_header`, `latex_footer`,
  the declarations, the wires and the layers. The model emits abstract
  directives instead.
- The floating-point value `5./max(n,m)` and its `%.2f` rendering. The model
  gives the scale as the fraction 5 / max(n, m).
- How `str.split` splits a line and how `int()` reads a field. These are
  library calls. A line comes with its fields already converted, and the
  model does not relate the fields to the line's text.
- The partial output printed before an exception. A run that raises is
  modelled as a `Failure` carrying the error, with no slides.
- `HandleClause` and `BuildAdjacency` require every non-zero literal to fit
  the 2n+2 buckets. The script raises IndexError there instead. `Convert`
  reports that case as the `LiteralOutOfRange` failure.
- `HandleSolutionLine` and `WaitForSolution` require every field after the
  `v` marker to convert with int() and every non-zero literal to fit the
  buckets. The script raises ValueError or IndexError there instead.
  `Convert` reports those cases through `SolutionFailure`, as the
  `NotANumber` or `LiteralOutOfRange` failure.
- The iteration order of Python sets. The lit and unlit lights are each
  stated as an enumeration of the right set, in some order.
