/** Bounded sequences of ticks: the state after running them, the number of
    frames they push, and the properties that span several ticks. */
module Runs {
  import opened Config
  import opened Input
  import opened Drawing

  /** The state after the loop has processed `ts`, in order. Whatever the inputs,
      the invariant holds throughout: the cursor never leaves the canvas, the
      colour stays a palette index and brightness stays within its bounds. */
  function Run(b: Bounds, s: State, ts: seq<TickInput>): (r: State)
    requires b.Valid() && Valid(b, s)
    ensures Valid(b, r)
    decreases |ts|
  {
    if ts == [] then s else Run(b, Step(b, s, ts[0]).0, ts[1..])
  }

  /** How many frames the render decision pushes while the loop processes `ts`. */
  function Pushes(b: Bounds, s: State, ts: seq<TickInput>): (n: nat)
    requires b.Valid() && Valid(b, s)
    ensures n <= |ts|
    decreases |ts|
  {
    if ts == [] then 0
    else
      var r := Step(b, s, ts[0]);
      (if r.1.pushed then 1 else 0) + Pushes(b, r.0, ts[1..])
  }

  /** Select presses, each at least the debounce window after the previous one
      (the first one after `last`). */
  predicate PressesSpaced(last: int, ts: seq<TickInput>)
    decreases |ts|
  {
    ts == [] ||
    (ts[0].sample.pressed && ts[0].now - last >= BUTTON_DEBOUNCE_TIME && PressesSpaced(ts[0].now, ts[1..]))
  }

  /** Every accepted press advances the colour by one entry, wrapping at the end
      of the palette, whatever else the buttons do in those ticks. */
  lemma {:induction false} SpacedPressesCycle(b: Bounds, s: State, ts: seq<TickInput>)
    requires b.Valid() && Valid(b, s) && PressesSpaced(s.lastPressedTime, ts)
    ensures Run(b, s, ts).currentColour == (s.currentColour + |ts|) % |TRACKBALL_COLOURS|
    decreases |ts|
  {
    if ts != [] {
      CycleHead(b, s, ts);
      var s' := Step(b, s, ts[0]).0;
      SpacedPressesCycle(b, s', ts[1..]);
      ModAfterStep(s.currentColour, |ts[1..]|, |ts|);
    }
  }

  /** One accepted press in a run: the rest of the run starts from a state whose
      colour is the next one and whose press stamp is this tick. */
  lemma CycleHead(b: Bounds, s: State, ts: seq<TickInput>)
    requires b.Valid() && Valid(b, s) && ts != [] && CycleAccepted(s, ts[0])
    ensures var r := Step(b, s, ts[0]);
      Run(b, s, ts) == Run(b, r.0, ts[1..]) &&
      r.0.currentColour == (s.currentColour + 1) % |TRACKBALL_COLOURS| &&
      r.0.lastPressedTime == ts[0].now
  {
    StepColour(b, s, ts[0]);
  }

  /** As many accepted presses as the palette has entries bring back the starting colour. */
  lemma FullCycleReturns(b: Bounds, s: State, ts: seq<TickInput>)
    requires b.Valid() && Valid(b, s) && PressesSpaced(s.lastPressedTime, ts)
    requires |ts| == |TRACKBALL_COLOURS|
    ensures Run(b, s, ts).currentColour == s.currentColour
  {
    SpacedPressesCycle(b, s, ts);
    ModWhole(s.currentColour, |TRACKBALL_COLOURS|);
  }

  /** One idle tick in a run: the rest of the run starts from its state, and it
      pushes exactly when the blink is due. */
  lemma {:induction false} IdleHead(b: Bounds, s: State, ts: seq<TickInput>)
    requires b.Valid() && Valid(b, s) && ts != [] && Idle(ts[0])
    ensures var r := Step(b, s, ts[0]);
      Run(b, s, ts) == Run(b, r.0, ts[1..]) &&
      Pushes(b, s, ts) == (if BlinkDue(s, ts[0].now) then 1 else 0) + Pushes(b, r.0, ts[1..]) &&
      r.0.blinkSetOff == (s.blinkSetOff != BlinkDue(s, ts[0].now)) &&
      r.0.lastBlinkedTime == (if BlinkDue(s, ts[0].now) then ts[0].now else s.lastBlinkedTime)
  {
    StepIdle(b, s, ts[0]);
  }

  /** With no input for a second, sampled every quarter of a second after a
      blink, the cursor blinks exactly twice, each time with one push and none in
      between, and the phase is back where it started. */
  lemma BlinkTwicePerSecond(b: Bounds, s: State, ts: seq<TickInput>)
    requires b.Valid() && Valid(b, s) && |ts| == 4
    requires forall i :: 0 <= i < 4 ==> Idle(ts[i]) && ts[i].now == s.lastBlinkedTime + 250 * (i + 1)
    ensures Pushes(b, s, ts) == 2
    ensures Run(b, s, ts).blinkSetOff == s.blinkSetOff
    ensures Run(b, s, ts).lastBlinkedTime == s.lastBlinkedTime + 1000
  {
    IdleHead(b, s, ts);
    var s1 := Step(b, s, ts[0]).0;
    assert ts[1..][0] == ts[1];
    IdleHead(b, s1, ts[1..]);
    var s2 := Step(b, s1, ts[1]).0;
    assert ts[1..][1..] == ts[2..] && ts[2..][0] == ts[2];
    IdleHead(b, s2, ts[2..]);
    var s3 := Step(b, s2, ts[2]).0;
    assert ts[2..][1..] == ts[3..] && ts[3..][0] == ts[3];
    IdleHead(b, s3, ts[3..]);
    assert ts[3..][1..] == [];
  }

  /** Wrapping once and then adding `k` is the same as adding one more before wrapping. */
  lemma ModAfterStep(c: int, k: nat, n: int)
    requires 0 <= c < |TRACKBALL_COLOURS| && k == n - 1
    ensures ((c + 1) % |TRACKBALL_COLOURS| + k) % |TRACKBALL_COLOURS| == (c + n) % |TRACKBALL_COLOURS|
  {
    assert |TRACKBALL_COLOURS| == 7;
  }

  /** Adding a whole turn to an index of the palette leaves it unchanged. */
  lemma ModWhole(c: int, n: int)
    requires 0 <= c < n
    ensures (c + n) % n == c
  {
  }

  /** Two accepted-looking presses: closer than the debounce window they change the
      colour once, at least the window apart they change it twice. */
  lemma {:induction false} DebouncedPair(b: Bounds, s: State, t1: TickInput, t2: TickInput)
    requires b.Valid() && Valid(b, s)
    requires t1.sample.pressed && t2.sample.pressed
    requires t1.now - s.lastPressedTime >= BUTTON_DEBOUNCE_TIME
    ensures t2.now - t1.now < BUTTON_DEBOUNCE_TIME ==>
              Run(b, s, [t1, t2]).currentColour == (s.currentColour + 1) % |TRACKBALL_COLOURS|
    ensures t2.now - t1.now >= BUTTON_DEBOUNCE_TIME ==>
              Run(b, s, [t1, t2]).currentColour == (s.currentColour + 2) % |TRACKBALL_COLOURS|
  {
    var s1 := Step(b, s, t1).0;
    StepColour(b, s, t1);
    var s2 := Step(b, s1, t2).0;
    StepColour(b, s1, t2);
    assert [t1, t2][1..] == [t2];
    assert Run(b, s1, [t2]) == s2 by {
      assert [t2][1..] == [];
    }
  }

  /** In idle ticks every push is a blink: the phase flips once per push and the
      blink stamp moves forward by at least the blink interval per push, to the
      time of one of the ticks. No ordering of the tick times is needed. */
  lemma {:induction false} IdleBlinkCadence(b: Bounds, s: State, ts: seq<TickInput>)
    requires b.Valid() && Valid(b, s)
    requires forall i :: 0 <= i < |ts| ==> Idle(ts[i])
    ensures var r := Run(b, s, ts);
      var n := Pushes(b, s, ts);
      r.lastBlinkedTime >= s.lastBlinkedTime + BLINK_IDLE_TIME * n &&
      r.blinkSetOff == (s.blinkSetOff != (n % 2 == 1)) &&
      (n == 0 ==> r.lastBlinkedTime == s.lastBlinkedTime) &&
      (n > 0 ==> exists i :: 0 <= i < |ts| && r.lastBlinkedTime == ts[i].now)
    decreases |ts|
  {
    if ts != [] {
      IdleHead(b, s, ts);
      var s' := Step(b, s, ts[0]).0;
      forall i | 0 <= i < |ts[1..]| ensures Idle(ts[1..][i]) {
        assert ts[1..][i] == ts[i + 1];
      }
      IdleBlinkCadence(b, s', ts[1..]);
      if Pushes(b, s', ts[1..]) > 0 {
        var j :| 0 <= j < |ts[1..]| && Run(b, s', ts[1..]).lastBlinkedTime == ts[1..][j].now;
        assert ts[1..][j] == ts[j + 1];
      }
    }
  }

  /** With no input, a run whose ticks all fall within `T` pushes at most one frame
      per blink interval elapsed since the last blink. */
  lemma IdlePushesBound(b: Bounds, s: State, ts: seq<TickInput>, T: int)
    requires b.Valid() && Valid(b, s)
    requires forall i :: 0 <= i < |ts| ==> Idle(ts[i]) && ts[i].now <= T
    ensures BLINK_IDLE_TIME * Pushes(b, s, ts) <= if Pushes(b, s, ts) == 0 then 0 else T - s.lastBlinkedTime
  {
    IdleBlinkCadence(b, s, ts);
  }
}
