/** The drawing program as it runs: one session object holding the loop's
    globals and the graphics buffer, built by the start-up code and advanced by
    one pass of the `while True` body per call of `Tick`. */
module Loop {
  import opened Config
  import opened Input
  import opened Drawing

  class Session {
    const bounds: Bounds

    var cursorX: int
    var cursorY: int
    var currentColour: int
    var eraseMode: bool
    var eraseModeToggleTime: int
    var lastPressedTime: int
    var brightness: int
    var blinkSetOff: bool
    var lastBlinkedTime: int

    // The graphics library's selected pen, in-memory buffer and last pushed frame.
    var pen: Pen
    var canvas: Canvas
    var display: Canvas

    /** The session's fields as a value of the specification. */
    function Snapshot(): State
      reads this
    {
      State(cursorX, cursorY, currentColour, eraseMode, eraseModeToggleTime, lastPressedTime,
            brightness, blinkSetOff, lastBlinkedTime, pen, Screen(canvas, display))
    }

    ghost predicate Valid()
      reads this
    {
      bounds.Valid() && Drawing.Valid(bounds, Snapshot())
    }

    /** Start-up: clear the screen, select colour 0, put the cursor at home,
        draw it and push the frame. */
    constructor (b: Bounds)
      requires b.Valid()
      ensures Valid() && bounds == b
      ensures Snapshot() == Initial(b)
    {
      bounds := b;
      pen := BlackPen;
      canvas := map[];
      display := map[];
      lastPressedTime := 0;
      lastBlinkedTime := 0;
      currentColour := 0;
      blinkSetOff := true;
      eraseMode := false;
      eraseModeToggleTime := 0;
      brightness := INITIAL_BRIGHTNESS;
      var home := Home(b);
      cursorX := home.0;
      cursorY := home.1;
      new;
      pen := ColouredPen(currentColour);
      canvas := canvas[(cursorX, cursorY) := pen];
      display := canvas;
    }

    /** One pass of the loop on the trackball sample, the buttons and the time
        `timeNow`: the new state and the report are exactly those of `Step`. */
    method Tick(sample: Sample, buttons: Buttons, timeNow: int) returns (report: Report)
      requires Valid()
      modifies this
      ensures Valid()
      ensures Snapshot() == Step(bounds, old(Snapshot()), TickInput(sample, buttons, timeNow)).0
      ensures report == Step(bounds, old(Snapshot()), TickInput(sample, buttons, timeNow)).1
    {
      var intent, stateChanged, beeped, lit := HandlePointer(sample, timeNow);
      var pressed := HandleButtons(buttons, timeNow);
      stateChanged := stateChanged || pressed;
      var blinked := DrawAndRefresh(stateChanged, timeNow);
      report := Report(intent, beeped, lit, buttons.clear, stateChanged, blinked,
                       stateChanged || blinked, canvas[(cursorX, cursorY)]);
    }

    /** The if/elif chain on the trackball sample: select cycles the colour
        (debounced), otherwise the first direction past its threshold moves the
        cursor one cell if the canvas edge allows it, and beeps if it does not. */
    method HandlePointer(sample: Sample, timeNow: int)
      returns (intent: Intent, stateChanged: bool, beeped: bool, lit: Option<Colour>)
      requires Valid()
      modifies this
      ensures Valid()
      ensures intent == PointerIntent(sample)
      ensures Snapshot() == ApplyIntent(bounds, old(Snapshot()), intent, timeNow).state
      ensures stateChanged == ApplyIntent(bounds, old(Snapshot()), intent, timeNow).changed
      ensures beeped == ApplyIntent(bounds, old(Snapshot()), intent, timeNow).beeped
      ensures lit == ApplyIntent(bounds, old(Snapshot()), intent, timeNow).lit
    {
      stateChanged, beeped, lit, intent := false, false, None, NoIntent;
      if sample.pressed {
        intent := CycleColour;
        var timeDiff := timeNow - lastPressedTime;
        if timeDiff >= BUTTON_DEBOUNCE_TIME {
          lastPressedTime := timeNow;
          currentColour := NextColour(currentColour);
          lit := Some(TRACKBALL_COLOURS[currentColour]);
          pen := ColouredPen(currentColour);
          stateChanged := true;
        }
      } else if sample.left > TRACKBALL_SENSITIVITY_H {
        intent := Move(Left);
        if cursorX > 0 {
          cursorX := cursorX - 1;
          stateChanged := true;
        } else {
          beeped := true;
        }
      } else if sample.right > TRACKBALL_SENSITIVITY_H {
        intent := Move(Right);
        if cursorX < bounds.width - 1 {
          cursorX := cursorX + 1;
          stateChanged := true;
        } else {
          beeped := true;
        }
      } else if sample.up > TRACKBALL_SENSITIVITY_V {
        intent := Move(Up);
        if cursorY > 0 {
          cursorY := cursorY - 1;
          stateChanged := true;
        } else {
          beeped := true;
        }
      } else if sample.down > TRACKBALL_SENSITIVITY_V {
        intent := Move(Down);
        if cursorY < bounds.height - 1 {
          cursorY := cursorY + 1;
          stateChanged := true;
        } else {
          beeped := true;
        }
      }
    }

    /** The chassis buttons. A: `clear_screen()` (blank buffer, pushed), cursor
        home, the current colour's pen selected again, erase mode off. B: flip
        erase mode if its own debounce window has passed, without counting as a
        state change. Then the brightness buttons, one saturating step each. */
    method HandleButtons(buttons: Buttons, timeNow: int) returns (stateChanged: bool)
      requires Valid()
      modifies this
      ensures Valid()
      ensures Snapshot() == PressButtons(bounds, old(Snapshot()), buttons, timeNow).0
      ensures stateChanged == PressButtons(bounds, old(Snapshot()), buttons, timeNow).1
    {
      stateChanged := false;
      if buttons.clear {
        ClearScreen();
        stateChanged := true;
      }
      if buttons.erase {
        ToggleErase(timeNow);
      }
      var brightened := AdjustBrightnessLevel(buttons.brighter, buttons.dimmer);
      stateChanged := stateChanged || brightened;
    }

    /** Button A: `clear_screen()` (blank buffer, pushed), cursor home, the
        current colour's pen selected again, erase mode off. */
    method ClearScreen()
      requires Valid()
      modifies this
      ensures Valid()
      ensures Snapshot() == Clear(bounds, old(Snapshot()))
    {
      pen := BlackPen;
      canvas := map[];
      display := canvas;
      var home := Home(bounds);
      cursorX := home.0;
      cursorY := home.1;
      pen := ColouredPen(currentColour);
      eraseMode := false;
    }

    /** Button B: flip erase mode if its own debounce window has passed. */
    method ToggleErase(timeNow: int)
      requires Valid()
      modifies this
      ensures Valid()
      ensures Snapshot() ==
                if timeNow - old(eraseModeToggleTime) >= BUTTON_DEBOUNCE_TIME
                then old(Snapshot()).(eraseMode := !old(eraseMode), eraseModeToggleTime := timeNow)
                else old(Snapshot())
    {
      var timeDiff := timeNow - eraseModeToggleTime;
      if timeDiff >= BUTTON_DEBOUNCE_TIME {
        eraseMode := !eraseMode;
        eraseModeToggleTime := timeNow;
      }
    }

    /** The brightness buttons, one saturating step each per tick while held. */
    method AdjustBrightnessLevel(brighter: bool, dimmer: bool) returns (stateChanged: bool)
      requires Valid()
      modifies this
      ensures Valid()
      ensures brightness == AdjustBrightness(old(brightness), brighter, dimmer).0
      ensures stateChanged == AdjustBrightness(old(brightness), brighter, dimmer).1
      ensures Snapshot() == old(Snapshot()).(brightness := brightness)
    {
      stateChanged := false;
      if brighter {
        if brightness < MAX_BRIGHTNESS {
          brightness := brightness + 1;
          stateChanged := true;
        }
      }
      if dimmer {
        if brightness > MIN_BRIGHTNESS {
          brightness := brightness - 1;
          stateChanged := true;
        }
      }
    }

    /** Paint the cursor cell with the selected pen; push on a change, otherwise
        blink when due and re-select and repaint the idle pen. */
    method DrawAndRefresh(stateChanged: bool, timeNow: int) returns (blinked: bool)
      requires Valid()
      modifies this
      ensures Valid()
      ensures Snapshot() == Render(old(Snapshot()), stateChanged, timeNow).0
      ensures blinked == Render(old(Snapshot()), stateChanged, timeNow).1
    {
      canvas := canvas[(cursorX, cursorY) := pen];
      blinked := false;
      if stateChanged {
        display := canvas;
      } else {
        var timeDiff := timeNow - lastBlinkedTime;
        if timeDiff >= BLINK_IDLE_TIME {
          pen := if blinkSetOff then BlackPen else BlinkOnPen(Snapshot());
          canvas := canvas[(cursorX, cursorY) := pen];
          blinkSetOff := !blinkSetOff;
          lastBlinkedTime := timeNow;
          display := canvas;
          blinked := true;
        }
        pen := IdlePen(Snapshot());
        canvas := canvas[(cursorX, cursorY) := pen];
      }
    }
  }
}
