/** The abstract drawing directives the converter emits, in place of the
    Beamer/TikZ text it prints. */
module Directives {

  /** `bend left` / `bend right` of a wire. */
  datatype Side = Left | Right

  /** The face of the switch glyph a wire attaches to. */
  datatype Face = East | West

  datatype Directive =
    | DeclareSwitch(variable: int)
      // a switch, drawn off, visible on the first slide
    | DeclareLight(clause: int)
      // a light, drawn off, visible on the first slide
    | Edge(clause: int, variable: int, positive: bool, side: Side, face: Face)
      // a wire from the south of light `clause` to switch `variable`
    | SwitchState(variable: int, on: bool, layer: int)
      // switch `variable` drawn on or off, only on slide `layer`
    | LightState(clause: int, on: bool, layer: int)
      // light `clause` drawn on or off, only on slide `layer`
}
