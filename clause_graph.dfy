/** handle_clause and the driver loop that reads the clause lines: the
    literal-to-clause buckets `lit_to_clauses` and the wires drawn. */
module ClauseGraph {
  import opened Literals
  import opened Directives
  import opened Wiring

  /** `k` copies of `x`. */
  function Repeat(x: int, k: nat): (r: seq<int>)
    ensures |r| == k
    ensures forall j :: 0 <= j < k ==> r[j] == x
  {
    if k == 0 then [] else Repeat(x, k - 1) + [x]
  }

  /** Number of non-zero literals of `clause` whose slot is `slot`. */
  function Count(clause: seq<int>, slot: int): nat
  {
    if clause == [] then 0
    else
      var l := clause[|clause| - 1];
      Count(clause[..|clause| - 1], slot) + (if l != 0 && Index(l) == slot then 1 else 0)
  }

  /** The buckets after handle_clause appended `i` once per non-zero
      literal of `clause`, left to right. */
  function AddClause(buckets: seq<seq<int>>, clause: seq<int>, i: int): (r: seq<seq<int>>)
    requires Fits(clause, |buckets|)
    ensures |r| == |buckets|
  {
    if clause == [] then buckets
    else
      var before := AddClause(buckets, clause[..|clause| - 1], i);
      var l := clause[|clause| - 1];
      if l == 0 then before else before[Index(l) := before[Index(l)] + [i]]
  }

  /** Every clause line fits the buckets. */
  predicate FitsAll(clauses: seq<seq<int>>, size: int)
  {
    forall j :: 0 <= j < |clauses| ==> Fits(clauses[j], size)
  }

  /** `lit_to_clauses` after the driver loop has handled `clauses`, the
      j-th line (0-based) as clause j + 1. */
  function Adjacency(n: int, clauses: seq<seq<int>>): (buckets: seq<seq<int>>)
    requires FitsAll(clauses, BucketCount(n))
    ensures |buckets| == BucketCount(n)
  {
    if clauses == [] then seq(BucketCount(n), _ => [])
    else
      AddClause(Adjacency(n, clauses[..|clauses| - 1]), clauses[|clauses| - 1], |clauses|)
  }

  /** The bucket of `slot` described line by line: clause i contributes
      one copy of i per occurrence of the slot's literal. */
  function Column(clauses: seq<seq<int>>, slot: int): seq<int>
  {
    if clauses == [] then []
    else Column(clauses[..|clauses| - 1], slot) + Repeat(|clauses|, Count(clauses[|clauses| - 1], slot))
  }

  /** The wires drawn for clause line `i`, one per non-zero literal. */
  function ClauseWires(clause: seq<int>, i: int): (ds: seq<Directive>)
    ensures |ds| <= |clause|
    ensures forall k :: 0 <= k < |ds| ==> ds[k].Edge? && ds[k].clause == i && ds[k].variable >= 1
  {
    if clause == [] then []
    else
      var l := clause[|clause| - 1];
      ClauseWires(clause[..|clause| - 1], i) + (if l == 0 then [] else [Wire(l, i)])
  }

  /** The wires drawn for all clause lines, in reading order. */
  function AllWires(clauses: seq<seq<int>>): (ds: seq<Directive>)
    ensures forall k :: 0 <= k < |ds| ==> ds[k].Edge? && 1 <= ds[k].clause <= |clauses|
  {
    if clauses == [] then []
    else AllWires(clauses[..|clauses| - 1]) + ClauseWires(clauses[|clauses| - 1], |clauses|)
  }

  // ---------------------------------------------------------------- lemmas

  /** Count of a literal's slot is the number of occurrences of the literal. */
  lemma {:induction false} CountOccurrences(clause: seq<int>, l: int)
    requires l != 0
    ensures Count(clause, Index(l)) == multiset(clause)[l]
  {
    if clause != [] {
      var pre, last := clause[..|clause| - 1], clause[|clause| - 1];
      assert clause == pre + [last];
      CountOccurrences(pre, l);
      if last != 0 && Index(last) == Index(l) {
        IndexInjective(last, l);
      }
    }
  }

  /** handle_clause only appends: bucket k gains exactly Count(clause, k)
      copies of i after its old contents, which it keeps as a prefix. */
  lemma {:induction false} AddClauseBucket(buckets: seq<seq<int>>, clause: seq<int>, i: int, k: int)
    requires Fits(clause, |buckets|) && 0 <= k < |buckets|
    ensures AddClause(buckets, clause, i)[k] == buckets[k] + Repeat(i, Count(clause, k))
  {
    if clause != [] {
      var pre, l := clause[..|clause| - 1], clause[|clause| - 1];
      AddClauseBucket(buckets, pre, i, k);
      if l != 0 && Index(l) == k {
        assert Repeat(i, Count(pre, k)) + [i] == Repeat(i, Count(clause, k));
      }
    }
  }

  /** Each bucket of the adjacency is its column. */
  lemma {:induction false} AdjacencyColumn(n: int, clauses: seq<seq<int>>, slot: int)
    requires FitsAll(clauses, BucketCount(n)) && 0 <= slot < BucketCount(n)
    ensures Adjacency(n, clauses)[slot] == Column(clauses, slot)
  {
    if clauses != [] {
      var pre := clauses[..|clauses| - 1];
      AdjacencyColumn(n, pre, slot);
      AddClauseBucket(Adjacency(n, pre), clauses[|clauses| - 1], |clauses|, slot);
    }
  }

  /** Clause i occurs in a column as often as clause line i has the slot. */
  lemma {:induction false} ColumnMultiplicity(clauses: seq<seq<int>>, slot: int, i: int)
    ensures multiset(Column(clauses, slot))[i] ==
            if 1 <= i <= |clauses| then Count(clauses[i - 1], slot) else 0
  {
    if clauses != [] {
      var pre := clauses[..|clauses| - 1];
      var c := Count(clauses[|clauses| - 1], slot);
      ColumnMultiplicity(pre, slot, i);
      RepeatMultiplicity(|clauses|, c, i);
      assert multiset(Column(clauses, slot)) == multiset(Column(pre, slot)) + multiset(Repeat(|clauses|, c));
      if 1 <= i < |clauses| {
        assert clauses[i - 1] == pre[i - 1];
      }
    }
  }

  lemma {:induction false} RepeatMultiplicity(x: int, k: nat, i: int)
    ensures multiset(Repeat(x, k))[i] == if i == x then k else 0
  {
    if k > 0 {
      RepeatMultiplicity(x, k - 1, i);
    }
  }

  /** A column lists clause indices in non-decreasing order, all in
      1..|clauses|. */
  lemma {:induction false} ColumnOrdered(clauses: seq<seq<int>>, slot: int)
    ensures forall a, b :: 0 <= a < b < |Column(clauses, slot)| ==>
              Column(clauses, slot)[a] <= Column(clauses, slot)[b]
    ensures forall a :: 0 <= a < |Column(clauses, slot)| ==> 1 <= Column(clauses, slot)[a] <= |clauses|
  {
    if clauses != [] {
      ColumnOrdered(clauses[..|clauses| - 1], slot);
    }
  }

  /** Clause i is listed in the bucket of literal l as many times as l occurs
      in clause line i: duplicates in a line are kept. */
  lemma AdjacencyMultiplicity(n: int, clauses: seq<seq<int>>, l: int, i: int)
    requires FitsAll(clauses, BucketCount(n))
    requires l != 0 && Abs(l) <= n
    ensures multiset(Adjacency(n, clauses)[Index(l)])[i] ==
            if 1 <= i <= |clauses| then multiset(clauses[i - 1])[l] else 0
  {
    SlotInBuckets(l, n);
    AdjacencyColumn(n, clauses, Index(l));
    ColumnMultiplicity(clauses, Index(l), i);
    if 1 <= i <= |clauses| {
      CountOccurrences(clauses[i - 1], l);
    }
  }

  /** Clause i is in the bucket of literal l exactly when clause line i
      contains l. */
  lemma AdjacencyMembership(n: int, clauses: seq<seq<int>>, l: int, i: int)
    requires FitsAll(clauses, BucketCount(n))
    requires l != 0 && Abs(l) <= n
    ensures i in Adjacency(n, clauses)[Index(l)] <==> 1 <= i <= |clauses| && l in clauses[i - 1]
  {
    AdjacencyMultiplicity(n, clauses, l, i);
  }

  /** Each bucket is non-decreasing and holds only indices of lines read
      (which exceed m when the file has more than m clause lines). */
  lemma AdjacencyOrdered(n: int, clauses: seq<seq<int>>, slot: int)
    requires FitsAll(clauses, BucketCount(n)) && 0 <= slot < BucketCount(n)
    ensures forall a, b :: 0 <= a < b < |Adjacency(n, clauses)[slot]| ==>
              Adjacency(n, clauses)[slot][a] <= Adjacency(n, clauses)[slot][b]
    ensures forall c :: c in Adjacency(n, clauses)[slot] ==> 1 <= c <= |clauses|
  {
    AdjacencyColumn(n, clauses, slot);
    ColumnOrdered(clauses, slot);
  }

  /** Slot 0 (the terminator 0) and slot 1 (no literal) stay empty. */
  lemma {:induction false} ReservedSlotsEmpty(n: int, clauses: seq<seq<int>>)
    requires FitsAll(clauses, BucketCount(n)) && n >= 0
    ensures Adjacency(n, clauses)[0] == [] && Adjacency(n, clauses)[1] == []
  {
    if clauses != [] {
      var pre := clauses[..|clauses| - 1];
      ReservedSlotsEmpty(n, pre);
      AddClauseBucket(Adjacency(n, pre), clauses[|clauses| - 1], |clauses|, 0);
      AddClauseBucket(Adjacency(n, pre), clauses[|clauses| - 1], |clauses|, 1);
      CountReserved(clauses[|clauses| - 1]);
    }
  }

  lemma {:induction false} CountReserved(clause: seq<int>)
    ensures Count(clause, 0) == 0 && Count(clause, 1) == 0
  {
    if clause != [] {
      CountReserved(clause[..|clause| - 1]);
    }
  }

  /** One wire per non-zero literal of the line, in order, each joining
      light i to that literal's switch. */
  lemma {:induction false} ClauseWiresShape(clause: seq<int>, i: int)
    ensures |ClauseWires(clause, i)| == |NonZero(clause)|
    ensures forall k :: 0 <= k < |NonZero(clause)| ==> ClauseWires(clause, i)[k] == Wire(NonZero(clause)[k], i)
  {
    if clause != [] {
      ClauseWiresShape(clause[..|clause| - 1], i);
    }
  }

  /** Line i draws the wire of l exactly when l is one of its fields. */
  lemma {:induction false} ClauseWiresMembership(clause: seq<int>, i: int, l: int)
    requires l != 0
    ensures Wire(l, i) in ClauseWires(clause, i) <==> l in clause
  {
    if clause != [] {
      var pre, last := clause[..|clause| - 1], clause[|clause| - 1];
      ClauseWiresMembership(pre, i, l);
      assert clause == pre + [last];
      if last != 0 && Wire(l, i) == Wire(last, i) {
        assert Abs(l) == Abs(last) && (l > 0 <==> last > 0);
      }
    }
  }

  /** The file's wires contain `Wire(l, i)` exactly when clause line i
      (counted from 1) contains l. */
  lemma {:induction false} AllWiresMembership(clauses: seq<seq<int>>, i: int, l: int)
    requires l != 0
    ensures Wire(l, i) in AllWires(clauses) <==> 1 <= i <= |clauses| && l in clauses[i - 1]
  {
    if clauses != [] {
      var pre := clauses[..|clauses| - 1];
      AllWiresMembership(pre, i, l);
      ClauseWiresMembership(clauses[|clauses| - 1], |clauses|, l);
      if 1 <= i < |clauses| {
        assert pre[i - 1] == clauses[i - 1];
      }
    }
  }

  // ---------------------------------------------------------------- methods

  /** handle_clause: append `i` to the bucket of each non-zero literal of the
      line and draw its wire. */
  method HandleClause(clause: seq<int>, i: int, buckets: array<seq<int>>) returns (wires: seq<Directive>)
    requires Fits(clause, buckets.Length)
    modifies buckets
    ensures buckets[..] == AddClause(old(buckets[..]), clause, i)
    ensures wires == ClauseWires(clause, i)
  {
    wires := [];
    for j := 0 to |clause|
      invariant buckets[..] == AddClause(old(buckets[..]), clause[..j], i)
      invariant wires == ClauseWires(clause[..j], i)
    {
      assert clause[..j + 1][..j] == clause[..j];
      var l := clause[j];
      if l != 0 {
        buckets[Index(l)] := buckets[Index(l)] + [i];
        wires := wires + [Wire(l, i)];
      }
    }
    assert clause[..|clause|] == clause;
  }

  /** The driver: allocate 2n+2 empty buckets, then hand the clause lines to
      handle_clause numbered 1, 2, 3, ... in reading order. */
  method BuildAdjacency(n: int, clauses: seq<seq<int>>) returns (buckets: array<seq<int>>, wires: seq<Directive>)
    requires FitsAll(clauses, BucketCount(n))
    ensures fresh(buckets)
    ensures buckets[..] == Adjacency(n, clauses)
    ensures wires == AllWires(clauses)
  {
    buckets := new seq<int>[BucketCount(n)](_ => []);
    wires := [];
    assert buckets[..] == Adjacency(n, clauses[..0]);
    var i := 1;
    while i <= |clauses|
      invariant 1 <= i <= |clauses| + 1
      invariant buckets[..] == Adjacency(n, clauses[..i - 1])
      invariant wires == AllWires(clauses[..i - 1])
    {
      assert clauses[..i][..i - 1] == clauses[..i - 1];
      var w := HandleClause(clauses[i - 1], i, buckets);
      wires := wires + w;
      i := i + 1;
    }
    assert clauses[..|clauses|] == clauses;
  }
}
