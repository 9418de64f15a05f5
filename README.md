# Trackball drawing loop

A model of the drawing program in `main.py`: a trackball moves a one-pixel
cursor over an LED matrix, the select switch cycles through a palette of seven
colours, and four chassis buttons clear the screen, toggle erase mode and step
the brightness. The state lives in module globals, which the `while True` body
updates once per pass. That body has four parts:

- a pointer intent chosen in priority order (select, left, right, up, down);
- the clear, erase and brightness buttons;
- painting the cursor cell;
- the render decision: push the frame when something changed, or else blink
  the cursor cell every 500 ms.

The project has five modules:

- `Config` (`config.dfy`) holds the start-up constants and the cursor's home cell.
- `Input` (`input.dfy`) holds one tick's raw input and the pointer intent it
  resolves to.
- `Drawing` (`drawing.dfy`) is the specification. It contains:
  - the loop's globals as a `State` value;
  - each phase of the loop body as a function;
  - `Step`, one whole pass;
  - lemmas stating what a pass promises.
- `Runs` (`runs.dfy`) holds finite sequences of ticks (`Run`, `Pushes`) and
  properties that span several ticks:
  - debounced colour cycling;
  - blink cadence.
- `Loop` (`loop.dfy`) is the program as it runs. The class `Session` has one
  field per global, plus the selected pen, the pixel buffer and the last
  pushed frame.
  - Its constructor is the start-up code.
  - `Tick(sample, buttons, now)` is one pass of the loop, written statement
    by statement as in the source.
  - Each method is proved to leave exactly the state of its phase function
    (`ApplyIntent`, `PressButtons`, `Clear`, `AdjustBrightness`, `Render`),
    and `Tick` exactly the state and report of `Step`. The report says whether
    the frame was pushed and which pen the cursor cell was left with.

Pens are abstract: black, the white eraser pen, or the pen of a palette
entry. The buffer is a map from cells to pens, and a missing cell is black.
The LEDs show the buffer as it was at the last push.

Some behaviours of the loop are easy to misread; the model keeps them as written:

- A tick that changes state does not reset the blink phase or the blink
  time.
- The erase toggle never counts as a state change.
- Clear leaves erase mode, but an accepted erase toggle in the same tick runs
  after the clear and turns erase mode back on (`Drawing.StepModes`).
- A colour cycle in erase mode selects the new colour's pen and paints the
  cursor cell with it (`Drawing.CycleInEraseModePaints`).
- In erase mode there is no dedicated erase pen for drawing. An idle tick
  selects black (line 172), so a later move paints black
  (`Drawing.EraseModeMoveErases`). The white eraser pen is only used to
  light the cursor during a blink.

## Model

| member | source | states |
|---|---|---|
| Config.Home | main.py:36-38 | The home cell is on every non-empty canvas and is the integer half of each dimension. |
| Input.PointerIntent | main.py:81-117 | The intent acted on is triggered by the sample. No intent earlier in the order select, left, right, up, down is triggered. At most one intent acts per tick. |
| Input.Offset | main.py:91-117 | A move goes to a cell at distance exactly one from the cursor. |
| Drawing.Initial | main.py:61-74 | After start-up the invariant holds. The cursor is at home with colour 0, erase mode is off, brightness is 40 hundredths, `blink_set_off` is true, the three timestamps are 0 (lines 19, 40 and 65) and the colour-0 pen is selected. The buffer holds only the colour-0 home pixel, and that buffer is what was pushed. |
| Drawing.NextColour | main.py:86 | Cycling advances the palette index by one modulo the palette length, so it wraps to 0 after the last entry. |
| Drawing.MoveCursor | main.py:91-117 | A granted move lands on the neighbouring cell in that direction. From a cell on the canvas, a move is refused exactly when its target is off the canvas. |
| Drawing.ApplyIntent | main.py:81-117 | The pointer chain keeps the invariant: the cursor stays on the canvas and the colour stays a palette index. It never touches erase mode, brightness, the blink fields, the buffer or the LEDs. |
| Drawing.ApplyIntentSpec | main.py:81-117 | A press cycles the colour exactly when 400 ms have passed since the last accepted press. It then stamps the press time, selects the colour's pen and lights the trackball; otherwise the index, stamp and pen are unchanged, and a press never beeps. A move changes state exactly when its target is on the canvas, and otherwise leaves the cursor and beeps. No intent does nothing. |
| Drawing.Clear | main.py:120-127 | Clear blanks the buffer and the LEDs and sends the cursor home. It keeps the colour index, selects its pen and turns erase mode off. |
| Drawing.AdjustBrightness | main.py:137-146 | Each brightness button steps the level by one hundredth while the level is inside [10, 100], and the level never leaves that range. The change flag says whether a step happened. With both buttons held, brighter acts first. |
| Drawing.PressButtons | main.py:119-146 | The button phase runs in the order clear, erase toggle, brightness, and keeps the invariant. Clear always counts as a change; the toggle never does. The toggle flips erase mode and stamps its time only when its own 400 ms window has passed, and it runs after clear. The colour and the blink fields are untouched. |
| Drawing.RenderSpec | main.py:148-173 | A blink happens exactly on an unchanged tick at least 500 ms after the last blink. Only a blink flips the phase and stamps the time. A change pushes the buffer with the cursor cell in the selected pen. A blink pushes it with the cell black or lit (the eraser pen in erase mode). An idle tick ends with the idle pen selected and painted, which is black in erase mode. No push keeps the LEDs as they were. |
| Drawing.Step | main.py:76-175 | One pass of the loop keeps the invariant: the cursor is on the canvas, the colour is a palette index, brightness is in [10, 100] and the selected pen is valid. |
| Drawing.StepColour | main.py:81-89 | Over a whole tick, the colour advances (wrapping) and its stamp moves only on a debounced press. That press lights the trackball in the new colour. |
| Drawing.StepCursor | main.py:91-127 | Over a whole tick, the cursor moves one cell exactly when the move is accepted, and otherwise stays and beeps on a blocked move. Clear overrides both with the home cell. |
| Drawing.StepModes | main.py:119-146 | Over a whole tick, erase mode ends as the accepted toggle applied after clear. The toggle stamp moves only on an accepted toggle. Brightness takes its saturating step. |
| Drawing.StepRender | main.py:151-168 | A tick counts as changed exactly on an accepted cycle, an accepted move, clear or a brightness step, and never on an erase toggle. It pushes exactly when changed or when a blink is due. It blinks exactly when unchanged and due, and only a blink moves the phase and its stamp. |
| Drawing.StepIdle | main.py:151-173 | A tick with no input is unchanged and pushes exactly when a blink is due; then it flips the phase and stamps the time. |
| Drawing.StepCanvas | main.py:148-173 | A tick repaints only the cursor cell (on a blank buffer after clear). An unchanged tick leaves the idle pen there and selected. A change pushes the buffer, a blink pushes it with the cursor cell black or lit, and no push keeps the LEDs. |
| Drawing.EraseModeMoveErases | main.py:91-173 | In erase mode after an idle tick, an accepted move paints the new cursor cell black, leaves every other cell alone, and pushes the frame. |
| Drawing.CycleInEraseModePaints | main.py:81-153 | In erase mode an accepted press selects the new colour's pen and paints the cursor cell with it. Erase mode stays on and the frame is pushed. |
| Runs.Run | main.py:76-175 | Over any finite sequence of ticks, the invariant holds: the cursor never leaves the canvas, the colour stays a palette index and brightness stays in range. |
| Runs.Pushes | main.py:151-168 | The number of render-decision pushes over a run (line 153 or 168, at most one per tick); it is the count that `IdleBlinkCadence`, `IdlePushesBound` and `BlinkTwicePerSecond` bound. |
| Runs.CycleHead | main.py:81-89 | A debounced press at the head of a run advances the colour by one, stamps the press and hands the rest of the run its state. |
| Runs.SpacedPressesCycle | main.py:81-89 | A run of presses, each at least 400 ms after the previous accepted one, advances the colour by the number of presses modulo the palette length. |
| Runs.FullCycleReturns | main.py:86 | As many accepted presses as there are palette entries bring back the starting colour. |
| Runs.DebouncedPair | main.py:81-89 | Of two presses less than 400 ms apart, only the first is accepted. Two presses at least 400 ms apart both are. |
| Runs.IdleHead | main.py:151-168 | An idle tick at the head of a run pushes exactly when a blink is due, and then flips the phase and stamps the time. |
| Runs.IdleBlinkCadence | main.py:157-168 | With no input, every push is a blink. The phase flips once per push. The blink stamp moves forward by at least 500 ms per push, to the time of one of the ticks. |
| Runs.IdlePushesBound | main.py:157-168 | With no input up to time T, at most one push happens per 500 ms elapsed since the last blink. |
| Runs.BlinkTwicePerSecond | main.py:157-168 | With no input for a second after a blink, sampled every 250 ms, the cursor blinks exactly twice with one push each. The phase ends where it started. |
| Loop.Session.constructor | main.py:61-74 | Start-up leaves the session in the state `Initial` describes, with the invariant established. |
| Loop.Session.Tick | main.py:76-175 | One pass of the loop keeps the invariant. It leaves the fields in the state `Step` gives and returns `Step`'s report: intent, beep, trackball colour, clear, change, blink, push and the pen applied at the cursor. |
| Loop.Session.HandlePointer | main.py:81-117 | The if/elif chain on the sample picks `PointerIntent` and performs exactly `ApplyIntent` on the fields. |
| Loop.Session.HandleButtons | main.py:119-146 | The three button checks perform exactly `PressButtons` on the fields. |
| Loop.Session.ClearScreen | main.py:120-127 | Button A performs exactly `Clear` on the fields. |
| Loop.Session.ToggleErase | main.py:130-135 | Button B flips erase mode and stamps the time when its window has passed. Otherwise nothing changes. |
| Loop.Session.AdjustBrightnessLevel | main.py:138-146 | The brightness buttons move the level as `AdjustBrightness` says, and nothing else changes. |
| Loop.Session.DrawAndRefresh | main.py:148-173 | Painting the cursor and the push/blink branch perform exactly `Render` on the fields. |

## Left out

- The device and platform selection at main.py:1-13 is not modelled. It only picks library modules.
- The I2C bus and the trackball driver are not modelled. The sample is an input of `Tick`, and the colour sent to the trackball LED is the report's `lit` field. The start-up `set_rgbw` for colour 0 (line 67) has no output in the model.
- The graphics library is not modelled. Pens are an enumeration, the buffer is a map and `unicorn.update` is the report's `pushed` flag together with the `display` snapshot. `unicorn.set_brightness`, called every tick at line 148, is not an output; the level is kept in the state.
- Clear pushes the blank buffer at once (line 54), so a clear tick pushes twice. The report's `cleared` flag records this first push; `pushed` and `Pushes` count only the render decision's push.
- AdjustBrightness: brightness is exact integer hundredths (start 40, raise only below 100, lower only above 10). The source adds and subtracts 0.01 in floating point, whose rounding drift could allow one step past 1.0 or below 0.1; that drift is not modelled.
- `ticks_ms` and `ticks_diff` are not modelled as a clock. The time is a parameter, and differences are plain integer subtraction without the wraparound of the millisecond counter.
- The `while True` loop and `sleep(0.01)` (line 175) are not modelled. `Tick` is one pass and `Run` a finite sequence of passes.
- `beep()` is a no-op in the source; the model only reports it, as the `beeped` flag.
