/** The per-tick state machine of the drawing loop, as functions on values:
    the pointer intent, clear, erase toggle and brightness phases, the
    render/blink decision, and `Step`, one whole pass of the loop. */
module Drawing {
  import opened Config
  import opened Input

  datatype Option<T> = None | Some(value: T)

  /** A pen of the graphics library: black, the white eraser pen, or the pen of palette entry `index`. */
  datatype Pen = BlackPen | EraserPen | ColouredPen(index: int)

  type Cell = (int, int)

  /** A pixel buffer; a cell that is not in the map is black, as after `clear`. */
  type Canvas = map<Cell, Pen>

  /** The graphics library's in-memory buffer and what the last push put on the LEDs. */
  datatype Screen = Screen(canvas: Canvas, display: Canvas)

  /** The loop's globals, plus the graphics library's selected pen and its screen.
      Brightness is in hundredths. */
  datatype State = State(
    cursorX: int,
    cursorY: int,
    currentColour: int,
    eraseMode: bool,
    eraseModeToggleTime: int,
    lastPressedTime: int,
    brightness: int,
    blinkSetOff: bool,
    lastBlinkedTime: int,
    pen: Pen,
    screen: Screen)

  /** What one tick did towards the outside world. `lit` is the colour sent to the
      trackball LED, `cleared` says the clear button blanked and pushed the screen,
      `pushed` says the frame was pushed by the render decision, and `applied`
      is the pen left in the cursor cell. */
  datatype Report = Report(
    intent: Intent,
    beeped: bool,
    lit: Option<Colour>,
    cleared: bool,
    changed: bool,
    blinked: bool,
    pushed: bool,
    applied: Pen)

  predicate PenValid(p: Pen)
  {
    p.ColouredPen? ==> 0 <= p.index < |TRACKBALL_COLOURS|
  }

  /** The invariant every tick keeps: cursor on the canvas, a palette index,
      brightness within its bounds, and a palette pen selected. */
  predicate Valid(b: Bounds, s: State)
  {
    b.Contains(s.cursorX, s.cursorY) &&
    0 <= s.currentColour < |TRACKBALL_COLOURS| &&
    MIN_BRIGHTNESS <= s.brightness <= MAX_BRIGHTNESS &&
    PenValid(s.pen)
  }

  /** The pen the idle path leaves selected: black in erase mode, else the current colour. */
  function IdlePen(s: State): Pen
  {
    if s.eraseMode then BlackPen else ColouredPen(s.currentColour)
  }

  /** The pen a blink uses to light the cursor cell: the white eraser pen in erase mode. */
  function BlinkOnPen(s: State): Pen
  {
    if s.eraseMode then EraserPen else ColouredPen(s.currentColour)
  }

  /** The state after start-up: screen cleared, colour 0 drawn at home and pushed. */
  function Initial(b: Bounds): (s: State)
    requires b.Valid()
    ensures Valid(b, s)
    ensures (s.cursorX, s.cursorY) == Home(b) && s.currentColour == 0 && !s.eraseMode
    ensures s.brightness == INITIAL_BRIGHTNESS && s.blinkSetOff
    ensures s.lastPressedTime == 0 && s.eraseModeToggleTime == 0 && s.lastBlinkedTime == 0
    ensures s.pen == ColouredPen(0)
    ensures s.screen.canvas == map[Home(b) := ColouredPen(0)] && s.screen.display == s.screen.canvas
  {
    var home := Home(b);
    State(home.0, home.1, 0, false, 0, 0, INITIAL_BRIGHTNESS, true, 0,
          ColouredPen(0), Screen(map[home := ColouredPen(0)], map[home := ColouredPen(0)]))
  }

  /** The palette index after one cycle: the next entry, wrapping after the last. */
  function NextColour(c: int): (r: int)
    requires 0 <= c < |TRACKBALL_COLOURS|
    ensures r == (c + 1) % |TRACKBALL_COLOURS|
  {
    if c < |TRACKBALL_COLOURS| - 1 then c + 1 else 0
  }

  /** The cursor after a one-cell move, or None where the loop refuses the move and beeps.
      From a cell on the canvas, a move is refused exactly when it would leave the canvas. */
  function MoveCursor(b: Bounds, x: int, y: int, d: Direction): (r: Option<Cell>)
    ensures r.Some? ==> r.value == Offset(x, y, d)
    ensures b.Contains(x, y) ==> (r.Some? <==> b.Contains(Offset(x, y, d).0, Offset(x, y, d).1))
  {
    match d
    case Left => if x > 0 then Some((x - 1, y)) else None
    case Right => if x < b.width - 1 then Some((x + 1, y)) else None
    case Up => if y > 0 then Some((x, y - 1)) else None
    case Down => if y < b.height - 1 then Some((x, y + 1)) else None
  }

  datatype PointerOutcome = PointerOutcome(state: State, changed: bool, beeped: bool, lit: Option<Colour>)

  /** The if/elif chain on the trackball sample: a debounced colour cycle or a
      guarded one-cell move. Nothing but the cursor, the colour, its debounce
      stamp and the selected pen can change. */
  function ApplyIntent(b: Bounds, s: State, i: Intent, now: int): (o: PointerOutcome)
    requires Valid(b, s)
    ensures Valid(b, o.state)
    ensures o.state.eraseMode == s.eraseMode && o.state.eraseModeToggleTime == s.eraseModeToggleTime
    ensures o.state.brightness == s.brightness
    ensures o.state.blinkSetOff == s.blinkSetOff && o.state.lastBlinkedTime == s.lastBlinkedTime
    ensures o.state.screen == s.screen
  {
    match i
    case CycleColour =>
      if now - s.lastPressedTime >= BUTTON_DEBOUNCE_TIME then
        var c := NextColour(s.currentColour);
        PointerOutcome(s.(lastPressedTime := now, currentColour := c, pen := ColouredPen(c)),
                       true, false, Some(TRACKBALL_COLOURS[c]))
      else
        PointerOutcome(s, false, false, None)
    case Move(d) =>
      (match MoveCursor(b, s.cursorX, s.cursorY, d)
       case Some(cell) => PointerOutcome(s.(cursorX := cell.0, cursorY := cell.1), true, false, None)
       case None => PointerOutcome(s, false, true, None))
    case NoIntent =>
      PointerOutcome(s, false, false, None)
  }

  /** The pointer chain on its own: a select press cycles the colour (wrapping),
      stamps the press and lights the trackball exactly when debounced, and never
      beeps; a move goes one cell exactly when the target is on the canvas, and
      beeps otherwise; with no intent nothing happens. */
  lemma ApplyIntentSpec(b: Bounds, s: State, i: Intent, now: int)
    requires Valid(b, s)
    ensures var o := ApplyIntent(b, s, i, now);
      (i == CycleColour ==>
         !o.beeped && (o.changed <==> now - s.lastPressedTime >= BUTTON_DEBOUNCE_TIME)) &&
      (i == CycleColour && o.changed ==>
         o.state.currentColour == (s.currentColour + 1) % |TRACKBALL_COLOURS| &&
         o.state.lastPressedTime == now && o.state.pen == ColouredPen(o.state.currentColour) &&
         o.lit == Some(TRACKBALL_COLOURS[o.state.currentColour])) &&
      (!(i == CycleColour && o.changed) ==>
         o.lit == None && o.state.currentColour == s.currentColour &&
         o.state.lastPressedTime == s.lastPressedTime && o.state.pen == s.pen) &&
      (i.Move? ==>
         var target := Offset(s.cursorX, s.cursorY, i.dir);
         (o.changed <==> b.Contains(target.0, target.1)) && o.beeped == !o.changed &&
         o.state.cursorX == (if o.changed then target.0 else s.cursorX) &&
         o.state.cursorY == (if o.changed then target.1 else s.cursorY)) &&
      (!i.Move? ==> o.state.cursorX == s.cursorX && o.state.cursorY == s.cursorY) &&
      (i == NoIntent ==> !o.changed && !o.beeped)
  {
  }

  /** Button A: blank and push the screen, send the cursor home, keep the colour
      (selecting its pen again) and leave erase mode. */
  function Clear(b: Bounds, s: State): (r: State)
    requires b.Valid() && Valid(b, s)
    ensures Valid(b, r)
    ensures (r.cursorX, r.cursorY) == Home(b) && !r.eraseMode
    ensures r.currentColour == s.currentColour && r.pen == ColouredPen(s.currentColour)
    ensures r.screen == Screen(map[], map[])
  {
    var home := Home(b);
    s.(screen := Screen(map[], map[]), cursorX := home.0, cursorY := home.1,
       pen := ColouredPen(s.currentColour), eraseMode := false)
  }

  /** The two brightness buttons, brighter tested first, each un-debounced and
      saturating: the new level and whether either button moved it. */
  function AdjustBrightness(level: int, brighter: bool, dimmer: bool): (r: (int, bool))
    ensures MIN_BRIGHTNESS <= level <= MAX_BRIGHTNESS ==> MIN_BRIGHTNESS <= r.0 <= MAX_BRIGHTNESS
    ensures !brighter && !dimmer ==> r == (level, false)
    ensures brighter && !dimmer ==>
              r.0 == (if level < MAX_BRIGHTNESS then level + 1 else level) && (r.1 <==> level < MAX_BRIGHTNESS)
    ensures dimmer && !brighter ==>
              r.0 == (if level > MIN_BRIGHTNESS then level - 1 else level) && (r.1 <==> level > MIN_BRIGHTNESS)
    ensures brighter && dimmer && MIN_BRIGHTNESS <= level <= MAX_BRIGHTNESS ==>
              r.1 && r.0 == (if level == MAX_BRIGHTNESS then level - 1 else level)
  {
    var up := brighter && level < MAX_BRIGHTNESS;
    var level' := if up then level + 1 else level;
    var down := dimmer && level' > MIN_BRIGHTNESS;
    (if down then level' - 1 else level', up || down)
  }

  /** The chassis buttons, in the loop's order: A clears (always a change),
      B toggles erase mode on its own debounce stamp (never a change, and after
      a clear in the same tick), then the brightness buttons. The second
      component says whether the buttons changed the state. */
  function PressButtons(b: Bounds, s: State, k: Buttons, now: int): (r: (State, bool))
    requires b.Valid() && Valid(b, s)
    ensures Valid(b, r.0)
    ensures r.1 == (k.clear || AdjustBrightness(s.brightness, k.brighter, k.dimmer).1)
    ensures (r.0.cursorX, r.0.cursorY) == if k.clear then Home(b) else (s.cursorX, s.cursorY)
    ensures r.0.eraseMode ==
              ((k.erase && now - s.eraseModeToggleTime >= BUTTON_DEBOUNCE_TIME) != (s.eraseMode && !k.clear))
    ensures r.0.eraseModeToggleTime ==
              if k.erase && now - s.eraseModeToggleTime >= BUTTON_DEBOUNCE_TIME then now else s.eraseModeToggleTime
    ensures r.0.brightness == AdjustBrightness(s.brightness, k.brighter, k.dimmer).0
    ensures r.0.currentColour == s.currentColour && r.0.lastPressedTime == s.lastPressedTime
    ensures r.0.blinkSetOff == s.blinkSetOff && r.0.lastBlinkedTime == s.lastBlinkedTime
    ensures r.0.pen == if k.clear then ColouredPen(s.currentColour) else s.pen
    ensures r.0.screen == if k.clear then Screen(map[], map[]) else s.screen
  {
    var s1 := if k.clear then Clear(b, s) else s;
    var s2 :=
      if k.erase && now - s1.eraseModeToggleTime >= BUTTON_DEBOUNCE_TIME
      then s1.(eraseMode := !s1.eraseMode, eraseModeToggleTime := now)
      else s1;
    var adjusted := AdjustBrightness(s2.brightness, k.brighter, k.dimmer);
    (s2.(brightness := adjusted.0), k.clear || adjusted.1)
  }

  /** The end of a tick: paint the cursor cell with the selected pen, then either
      push the frame (state changed), or, when idle, blink the cursor cell once
      the blink interval has passed and select and paint the idle pen again.
      The second component says whether a blink happened. */
  function Render(s: State, changed: bool, now: int): (r: (State, bool))
  {
    var cell := (s.cursorX, s.cursorY);
    var drawn := s.screen.canvas[cell := s.pen];
    if changed then
      (s.(screen := Screen(drawn, drawn)), false)
    else
      var blinked := now - s.lastBlinkedTime >= BLINK_IDLE_TIME;
      if blinked then
        var p := if s.blinkSetOff then BlackPen else BlinkOnPen(s);
        var c := drawn[cell := p];
        (s.(pen := IdlePen(s), screen := Screen(c[cell := IdlePen(s)], c),
            blinkSetOff := !s.blinkSetOff, lastBlinkedTime := now), true)
      else
        (s.(pen := IdlePen(s), screen := Screen(drawn[cell := IdlePen(s)], s.screen.display)), false)
  }

  /** The render decision on its own: a blink happens exactly on an unchanged
      tick once the interval has passed, and only a blink flips the phase and
      stamps the time; the cursor cell ends with the selected pen on a change and
      with the idle pen otherwise, which is then selected; a change pushes the
      buffer, a blink pushes it with the cursor cell black or lit, and otherwise
      the LEDs keep the last frame. Nothing else in the state changes. */
  lemma RenderSpec(s: State, changed: bool, now: int)
    ensures var r := Render(s, changed, now);
      var cell := (s.cursorX, s.cursorY);
      (r.1 <==> !changed && now - s.lastBlinkedTime >= BLINK_IDLE_TIME) &&
      r.0.blinkSetOff == (s.blinkSetOff != r.1) &&
      r.0.lastBlinkedTime == (if r.1 then now else s.lastBlinkedTime) &&
      r.0.pen == (if changed then s.pen else IdlePen(s)) &&
      r.0.screen.canvas == s.screen.canvas[cell := r.0.pen] &&
      (changed ==> r.0.screen.display == s.screen.canvas[cell := s.pen]) &&
      (r.1 ==> r.0.screen.display == s.screen.canvas[cell := if s.blinkSetOff then BlackPen else BlinkOnPen(s)]) &&
      (!changed && !r.1 ==> r.0.screen.display == s.screen.display) &&
      r.0.cursorX == s.cursorX && r.0.cursorY == s.cursorY && r.0.currentColour == s.currentColour &&
      r.0.eraseMode == s.eraseMode && r.0.eraseModeToggleTime == s.eraseModeToggleTime &&
      r.0.lastPressedTime == s.lastPressedTime && r.0.brightness == s.brightness
  {
  }

  /** A select press that the debounce window lets through. */
  predicate CycleAccepted(s: State, t: TickInput)
  {
    PointerIntent(t.sample) == CycleColour && t.now - s.lastPressedTime >= BUTTON_DEBOUNCE_TIME
  }

  /** A pointer move whose target cell is on the canvas. */
  predicate MoveAccepted(b: Bounds, s: State, t: TickInput)
  {
    var i := PointerIntent(t.sample);
    i.Move? && b.Contains(Offset(s.cursorX, s.cursorY, i.dir).0, Offset(s.cursorX, s.cursorY, i.dir).1)
  }

  /** A press of button B that its own debounce window lets through. */
  predicate EraseAccepted(s: State, t: TickInput)
  {
    t.buttons.erase && t.now - s.eraseModeToggleTime >= BUTTON_DEBOUNCE_TIME
  }

  predicate BlinkDue(s: State, now: int)
  {
    now - s.lastBlinkedTime >= BLINK_IDLE_TIME
  }

  /** One pass of the loop body. Its contract is what a tick promises: at most one
      pointer intent acts, the cursor stays on the canvas, the colour cycles only
      when debounced, clear sends the cursor home, the erase toggle never counts as
      a change, the frame is pushed exactly on a change or a due blink, and the
      buffer changes only in the cursor cell (apart from a clear). */
  function Step(b: Bounds, s: State, t: TickInput): (r: (State, Report))
    requires b.Valid() && Valid(b, s)
    ensures Valid(b, r.0)
  {
    var intent := PointerIntent(t.sample);
    var p := ApplyIntent(b, s, intent, t.now);
    var q := PressButtons(b, p.state, t.buttons, t.now);
    var changed := p.changed || q.1;
    var rendered := Render(q.0, changed, t.now);
    var s4 := rendered.0;
    (s4, Report(intent, p.beeped, p.lit, t.buttons.clear, changed, rendered.1, changed || rendered.1,
                s4.screen.canvas[(s4.cursorX, s4.cursorY)]))
  }

  /** The colour half of a tick: the intent acted on is the sample's first
      triggered one; the colour advances (wrapping) and its stamp moves only on a
      debounced press, which also lights the trackball in the new colour. */
  lemma StepColour(b: Bounds, s: State, t: TickInput)
    requires b.Valid() && Valid(b, s)
    ensures var r := Step(b, s, t);
      r.1.intent == PointerIntent(t.sample) &&
      r.0.currentColour == (if CycleAccepted(s, t) then (s.currentColour + 1) % |TRACKBALL_COLOURS| else s.currentColour) &&
      r.0.lastPressedTime == (if CycleAccepted(s, t) then t.now else s.lastPressedTime) &&
      r.1.lit == (if CycleAccepted(s, t) then Some(TRACKBALL_COLOURS[r.0.currentColour]) else None)
  {
  }

  /** The cursor half of a tick: it moves one cell only onto the canvas, else
      stays and beeps; clear overrides both with the home cell. */
  lemma StepCursor(b: Bounds, s: State, t: TickInput)
    requires b.Valid() && Valid(b, s)
    ensures var r := Step(b, s, t);
      (r.0.cursorX, r.0.cursorY) ==
        (if t.buttons.clear then Home(b)
         else if MoveAccepted(b, s, t) then Offset(s.cursorX, s.cursorY, r.1.intent.dir)
         else (s.cursorX, s.cursorY)) &&
      (r.1.beeped <==> r.1.intent.Move? && !MoveAccepted(b, s, t))
  {
  }

  /** The button half of a tick: clear leaves erase mode, but an accepted erase
      toggle in the same tick runs after it and flips the mode back on; the toggle
      stamp moves only when the toggle is accepted; brightness saturates. */
  lemma StepModes(b: Bounds, s: State, t: TickInput)
    requires b.Valid() && Valid(b, s)
    ensures var r := Step(b, s, t);
      r.0.eraseMode == (EraseAccepted(s, t) != (s.eraseMode && !t.buttons.clear)) &&
      r.0.eraseModeToggleTime == (if EraseAccepted(s, t) then t.now else s.eraseModeToggleTime) &&
      r.0.brightness == AdjustBrightness(s.brightness, t.buttons.brighter, t.buttons.dimmer).0 &&
      r.1.cleared == t.buttons.clear
  {
  }

  /** The render decision: a tick counts as changed exactly on an accepted cycle,
      an accepted move, clear or a brightness step (never on an erase toggle);
      it pushes exactly when changed or when a blink is due; only a blink moves
      the blink phase and its stamp; the buffer changes only in the cursor cell. */
  lemma StepRender(b: Bounds, s: State, t: TickInput)
    requires b.Valid() && Valid(b, s)
    ensures var r := Step(b, s, t);
      (r.1.changed <==>
         CycleAccepted(s, t) || MoveAccepted(b, s, t) || t.buttons.clear ||
         AdjustBrightness(s.brightness, t.buttons.brighter, t.buttons.dimmer).1) &&
      (r.1.pushed <==> r.1.changed || BlinkDue(s, t.now)) &&
      (r.1.blinked <==> !r.1.changed && BlinkDue(s, t.now)) &&
      r.0.blinkSetOff == (s.blinkSetOff != r.1.blinked) &&
      r.0.lastBlinkedTime == (if r.1.blinked then t.now else s.lastBlinkedTime)
  {
  }

  /** A tick with no input changes nothing, so it pushes exactly when a blink
      is due, and then flips the phase and stamps the blink time. */
  lemma StepIdle(b: Bounds, s: State, t: TickInput)
    requires b.Valid() && Valid(b, s) && Idle(t)
    ensures var r := Step(b, s, t);
      !r.1.changed && r.1.pushed == r.1.blinked == BlinkDue(s, t.now) &&
      r.0.blinkSetOff == (s.blinkSetOff != r.1.blinked) &&
      r.0.lastBlinkedTime == (if r.1.blinked then t.now else s.lastBlinkedTime)
  {
    StepRender(b, s, t);
  }

  /** What a tick leaves in the buffer and on the LEDs: exactly the cursor cell
      is repainted (on a blank buffer after clear); an idle tick leaves the idle
      pen there and selected; a change pushes the buffer; a blink pushes the
      buffer with the cursor cell black or lit, and no push keeps the LEDs. */
  lemma StepCanvas(b: Bounds, s: State, t: TickInput)
    requires b.Valid() && Valid(b, s)
    ensures var r := Step(b, s, t);
      var cell := (r.0.cursorX, r.0.cursorY);
      r.1.applied == r.0.screen.canvas[cell] &&
      r.0.screen.canvas == (if t.buttons.clear then map[] else s.screen.canvas)[cell := r.1.applied] &&
      (!r.1.changed ==> r.1.applied == IdlePen(r.0) && r.0.pen == IdlePen(r.0)) &&
      (r.1.changed ==> r.0.screen.display == r.0.screen.canvas) &&
      (r.1.blinked ==>
         r.0.screen.display == r.0.screen.canvas[cell := if s.blinkSetOff then BlackPen else BlinkOnPen(r.0)]) &&
      (!r.1.pushed ==> r.0.screen.display == s.screen.display)
  {
  }

  /** Erase mode draws with the pen an idle tick left selected, which is black:
      after an idle tick in erase mode, an accepted move paints the new cursor
      cell black, leaves every other cell alone and pushes the frame. */
  lemma EraseModeMoveErases(b: Bounds, s: State, t: TickInput)
    requires b.Valid() && Valid(b, s) && s.eraseMode && s.pen == BlackPen
    requires MoveAccepted(b, s, t) && t.buttons == Buttons(false, false, false, false)
    ensures var r := Step(b, s, t);
      r.0.eraseMode && r.1.pushed && r.1.applied == BlackPen &&
      r.0.screen.canvas == s.screen.canvas[(r.0.cursorX, r.0.cursorY) := BlackPen] &&
      r.0.screen.display == r.0.screen.canvas
  {
    StepCursor(b, s, t);
    StepRender(b, s, t);
    StepCanvas(b, s, t);
  }

  /** A colour cycle does not look at erase mode: in erase mode an accepted press
      selects the new colour's pen and paints the cursor cell with it, and erase
      mode stays on; the next idle tick selects black again. */
  lemma CycleInEraseModePaints(b: Bounds, s: State, t: TickInput)
    requires b.Valid() && Valid(b, s) && s.eraseMode
    requires CycleAccepted(s, t) && t.buttons == Buttons(false, false, false, false)
    ensures var r := Step(b, s, t);
      r.0.eraseMode && r.1.pushed &&
      r.0.pen == ColouredPen(r.0.currentColour) && r.1.applied == r.0.pen
  {
    StepColour(b, s, t);
    StepModes(b, s, t);
    StepRender(b, s, t);
  }
}
