/** The text lines the converter reads.  Splitting a line on white space and
    converting a field with int() are library calls; a line is therefore given
    together with its fields, each already converted (or refused) by int(). */
module Input {
  import opened Wrappers

  /** Why a conversion aborts: the failed `p cnf` assertion, an IndexError
      on a header too short, a ValueError from int(), or an IndexError from a
      literal whose variable exceeds n. */
  datatype Error = MissingProblemLine | ShortHeader | NotANumber | LiteralOutOfRange

  /** A line of text and its white-space separated fields: Some(v) where int()
      yields v, None where int() raises ValueError. */
  datatype Line = Line(text: string, tokens: seq<Option<int>>)

  /** str.startswith */
  predicate StartsWith(s: string, prefix: string)
  {
    |prefix| <= |s| && s[..|prefix|] == prefix
  }

  /** Every field converts with int(). */
  predicate AllNumbers(tokens: seq<Option<int>>)
  {
    forall k :: 0 <= k < |tokens| ==> tokens[k].Some?
  }

  /** The integers of fields that all convert, in order. */
  function Values(tokens: seq<Option<int>>): (values: seq<int>)
    requires AllNumbers(tokens)
    ensures |values| == |tokens|
    ensures forall k :: 0 <= k < |tokens| ==> tokens[k] == Some(values[k])
  {
    if tokens == [] then [] else [tokens[0].value] + Values(tokens[1..])
  }

  /** The fields after the first one, as Python's `fields[1:]` (empty when
      there are no fields at all). */
  function AfterMarker(tokens: seq<Option<int>>): (rest: seq<Option<int>>)
    ensures tokens == [] ==> rest == []
    ensures tokens != [] ==> tokens == [tokens[0]] + rest
  {
    if tokens == [] then [] else tokens[1..]
  }
}
