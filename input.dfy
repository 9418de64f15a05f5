/** One tick's raw input: a trackball sample, the chassis buttons and the clock,
    and the single pointer intent the sample resolves to. */
module Input {
  import opened Config

  /** A trackball reading: the select switch and the four directional magnitudes. */
  datatype Sample = Sample(pressed: bool, left: real, right: real, up: real, down: real)

  /** The chassis buttons: A clears, B toggles erase mode, and the two brightness buttons. */
  datatype Buttons = Buttons(clear: bool, erase: bool, brighter: bool, dimmer: bool)

  /** Everything one pass of the loop reads: the sample, the buttons and `ticks_ms()`. */
  datatype TickInput = TickInput(sample: Sample, buttons: Buttons, now: int)

  datatype Direction = Left | Right | Up | Down

  /** What the trackball asks for in one tick; at most one of these acts. */
  datatype Intent = CycleColour | Move(dir: Direction) | NoIntent

  /** Position of an intent in the order in which the loop tests them. */
  function Rank(i: Intent): nat
  {
    match i
    case CycleColour => 0
    case Move(Left) => 1
    case Move(Right) => 2
    case Move(Up) => 3
    case Move(Down) => 4
    case NoIntent => 5
  }

  /** Whether the sample, taken on its own, asks for intent `i`. */
  predicate Triggered(s: Sample, i: Intent)
  {
    match i
    case CycleColour => s.pressed
    case Move(Left) => s.left > TRACKBALL_SENSITIVITY_H
    case Move(Right) => s.right > TRACKBALL_SENSITIVITY_H
    case Move(Up) => s.up > TRACKBALL_SENSITIVITY_V
    case Move(Down) => s.down > TRACKBALL_SENSITIVITY_V
    case NoIntent => false
  }

  /** The intent the if/elif chain of the loop acts on: the first triggered one,
      in the order select, left, right, up, down. */
  function PointerIntent(s: Sample): (i: Intent)
    ensures i != NoIntent ==> Triggered(s, i)
    ensures forall j :: Rank(j) < Rank(i) ==> !Triggered(s, j)
  {
    if s.pressed then CycleColour
    else if s.left > TRACKBALL_SENSITIVITY_H then Move(Left)
    else if s.right > TRACKBALL_SENSITIVITY_H then Move(Right)
    else if s.up > TRACKBALL_SENSITIVITY_V then Move(Up)
    else if s.down > TRACKBALL_SENSITIVITY_V then Move(Down)
    else NoIntent
  }

  /** A tick in which nothing is pressed or moved far enough to act. */
  predicate Idle(t: TickInput)
  {
    PointerIntent(t.sample) == NoIntent &&
    !t.buttons.clear && !t.buttons.erase && !t.buttons.brighter && !t.buttons.dimmer
  }

  /** The cell one step from (x, y) in direction `d`; up is towards row 0. */
  function Offset(x: int, y: int, d: Direction): (c: (int, int))
    ensures (c.0 - x) * (c.0 - x) + (c.1 - y) * (c.1 - y) == 1
  {
    match d
    case Left => (x - 1, y)
    case Right => (x + 1, y)
    case Up => (x, y - 1)
    case Down => (x, y + 1)
  }
}
