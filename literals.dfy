/** DIMACS literals and the bucket slots dimacs2index gives them. */
module Literals {

  /** The variable a literal speaks about (its absolute value). */
  function Abs(x: int): nat
  {
    if x < 0 then -x else x
  }

  /** dimacs2index: the slot of a signed literal.  Half the slot is the
      variable, and the slot is odd exactly for a negative literal; 0 goes
      to the reserved slot 0. */
  function Index(l: int): (slot: nat)
    ensures slot / 2 == Abs(l)
    ensures slot % 2 == (if l < 0 then 1 else 0)
  {
    if l == 0 then 0
    else if l > 0 then l * 2
    else -l * 2 + 1
  }

  /** The literal a slot belongs to: the inverse of Index. */
  function Literal(slot: nat): int
  {
    if slot % 2 == 0 then slot / 2 else -(slot / 2)
  }

  /** Number of buckets in `[[] for i in range(2*n+2)]` (none when 2n+2 <= 0). */
  function BucketCount(n: int): (size: nat)
    ensures size % 2 == 0
    ensures size >= 2 <==> n >= 0
    ensures n >= 0 ==> size / 2 - 1 == n
  {
    if n < 0 then 0 else 2 * n + 2
  }

  /** Every non-zero literal of `lits` has a slot below `size`, so that
      indexing a list of `size` buckets with it does not raise IndexError. */
  predicate Fits(lits: seq<int>, size: int)
  {
    forall k :: 0 <= k < |lits| && lits[k] != 0 ==> Index(lits[k]) < size
  }

  /** The non-zero literals of a line, in order. */
  function NonZero(lits: seq<int>): (r: seq<int>)
    ensures 0 !in r
    ensures forall l :: l != 0 ==> multiset(r)[l] == multiset(lits)[l]
  {
    if lits == [] then []
    else
      var l := lits[|lits| - 1];
      assert lits == lits[..|lits| - 1] + [l];
      NonZero(lits[..|lits| - 1]) + (if l == 0 then [] else [l])
  }

  /** The doctests of dimacs2index. */
  lemma IndexExamples()
    ensures Index(1) == 2 && Index(-1) == 3 && Index(0) == 0
  {
  }

  /** Literal undoes Index on every integer. */
  lemma IndexRoundTrip(l: int)
    ensures Literal(Index(l)) == l
  {
  }

  /** Index undoes Literal on every slot except 1, which no literal uses. */
  lemma SlotRoundTrip(slot: nat)
    requires slot != 1
    ensures Index(Literal(slot)) == slot
  {
  }

  /** Index is injective: distinct literals never share a bucket. */
  lemma IndexInjective(a: int, b: int)
    requires Index(a) == Index(b)
    ensures a == b
  {
    IndexRoundTrip(a);
    IndexRoundTrip(b);
  }

  /** A literal and its negation land in slots of opposite parity; positive
      literals use even slots from 2 and negative ones odd slots from 3. */
  lemma OppositeLiterals(l: int)
    requires l != 0
    ensures Index(l) != Index(-l)
    ensures l > 0 ==> Index(l) % 2 == 0 && Index(l) >= 2
    ensures l < 0 ==> Index(l) % 2 == 1 && Index(l) >= 3
  {
  }

  /** A literal over a declared variable has a slot in [2, 2n+1], inside the
      2n+2 buckets. */
  lemma SlotInBuckets(l: int, n: int)
    requires 1 <= Abs(l) <= n
    ensures 2 <= Index(l) <= 2 * n + 1
    ensures Index(l) < BucketCount(n)
  {
  }

  /** A line fits the 2n+2 buckets exactly when each of its non-zero
      literals names a variable in 1..n. */
  lemma FitsIffDeclared(lits: seq<int>, n: int)
    ensures Fits(lits, BucketCount(n)) <==>
            forall k :: 0 <= k < |lits| && lits[k] != 0 ==> Abs(lits[k]) <= n
  {
  }
}
