/** Startup constants of the trackball drawing program: debounce and blink
    windows, pointer sensitivities, the palette and the canvas geometry. */
module Config {

  /** One entry of the trackball palette, as passed to the trackball's RGBW LED. */
  datatype Colour = Colour(r: int, g: int, b: int, w: int)

  /** Minimum time (ms) between two accepted colour cycles, and between two erase toggles. */
  const BUTTON_DEBOUNCE_TIME: int := 400

  /** Pointer magnitudes must exceed these to count as a move (horizontal, vertical). */
  const TRACKBALL_SENSITIVITY_H: real := 1.5
  const TRACKBALL_SENSITIVITY_V: real := 1.8

  /** Idle time (ms) between two blinks of the cursor cell. */
  const BLINK_IDLE_TIME: int := 500

  /** The palette the select button cycles through; pen `i` draws `TRACKBALL_COLOURS[i]`. */
  const TRACKBALL_COLOURS: seq<Colour> := [
    Colour(255, 0, 0, 0),
    Colour(250, 108, 0, 0),
    Colour(255, 247, 0, 0),
    Colour(0, 255, 0, 0),
    Colour(13, 255, 159, 0),
    Colour(0, 0, 255, 0),
    Colour(94, 13, 255, 0)
  ]

  /** Display brightness in hundredths: the start value and the two saturation bounds. */
  const INITIAL_BRIGHTNESS: int := 40
  const MAX_BRIGHTNESS: int := 100
  const MIN_BRIGHTNESS: int := 10

  /** The canvas size reported by the graphics library for the attached display. */
  datatype Bounds = Bounds(width: int, height: int) {
    predicate Valid() { width > 0 && height > 0 }
    predicate Contains(x: int, y: int) { 0 <= x < width && 0 <= y < height }
  }

  /** The cursor's home cell, the centre of the canvas (integer halves of the bounds). */
  function Home(b: Bounds): (c: (int, int))
    requires b.Valid()
    ensures b.Contains(c.0, c.1)
    ensures 2 * c.0 <= b.width < 2 * c.0 + 2 && 2 * c.1 <= b.height < 2 * c.1 + 2
  {
    (b.width / 2, b.height / 2)
  }
}
