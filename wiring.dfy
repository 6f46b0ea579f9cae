/** link_literal_to_clause: how the wire of one literal occurrence is drawn. */
module Wiring {
  import opened Literals
  import opened Directives

  /** The bend of the wire from light `i` to the switch of literal `l`.  Lights
      and switches are laid out left to right at the same spacing, so
      `i - Abs(l)` is how far right of its switch the light sits. */
  function Bend(l: int, i: int): (side: Side)
    requires l != 0
    ensures l > 0 ==> (side == Right <==> i - Abs(l) >= 2)
    ensures l < 0 ==> (side == Left <==> Abs(l) - i >= 3)
  {
    if l > 0 then
      if l + 1 < i then Right else Left
    else
      if -l > i + 2 then Left else Right
  }

  /** Positive literals attach to the east face of the switch, negative ones
      to the west face. */
  function Attachment(l: int): (face: Face)
    requires l != 0
    ensures face == East <==> l > 0
  {
    if l > 0 then East else West
  }

  /** The wire drawn for one occurrence of literal `l` in clause line `i`. */
  function Wire(l: int, i: int): (d: Directive)
    requires l != 0
    ensures d.Edge? && d.clause == i && d.variable == Abs(l) >= 1
    ensures d.positive <==> l > 0
    ensures d.face == East <==> d.positive
    ensures d.side == Bend(l, i)
  {
    Edge(i, Abs(l), l > 0, Bend(l, i), Attachment(l))
  }

  /** Moving a light further right never turns a right-bending positive wire
      into a left-bending one, nor a left-bending negative wire into a
      right-bending one when the light moves left. */
  lemma BendMonotone(l: int, i: int, j: int)
    requires l != 0 && i <= j
    ensures l > 0 && Bend(l, i) == Right ==> Bend(l, j) == Right
    ensures l < 0 && Bend(l, j) == Left ==> Bend(l, i) == Left
  {
  }

  /** A light straight above its own switch bends its positive wire left and
      its negative wire right. */
  lemma BendStraightAbove(v: int)
    requires v >= 1
    ensures Bend(v, v) == Left && Bend(-v, v) == Right
  {
  }
}
