/** The firmware's control loop: one call of `loop()` takes one sensor
    reading, stores it in the ring buffer, recomputes the rolling average
    and runs the hysteresis rule on the relay (active low on its pin).
    A failed read (NaN) only raises the error flag. */
module Controller {
  import opened Optional
  import opened SampleStore
  import opened Hysteresis

  /** Target temperature of the cooler, in degrees Celsius. */
  const DESIRED_TEMPERATURE: real := 6.0
  /** Half-width of the dead band around the target, in degrees Celsius. */
  const PRECISION_TEMPERATURE: real := 1.0

  /** The controller's observable state. `readings` is every valid reading
      so far, in arrival order; the firmware keeps only the last
      NUM_SAMPLES of them. */
  datatype State = State(
    readings: seq<real>,
    avgTemp: real,
    relayOn: bool,
    starting: bool,
    lastSwitched: nat,
    error: bool)

  /** One pass of the loop: the sensor's answer and the clock at that time. */
  datatype Tick = Tick(reading: Option<real>, now: nat)

  /** State at power-up: relay OFF, cold start pending, clock at `now`. */
  function Init(now: nat): State
  {
    State([], 0.0, false, true, now, false)
  }

  /** The effect of one loop pass on the state. */
  function Next(s: State, reading: Option<real>, now: nat): State
  {
    match reading
    case None => s.(error := true)
    case Some(v) =>
      var readings := s.readings + [v];
      var avg := Mean(Window(readings));
      var sw := Decide(avg, s.relayOn, s.starting, DESIRED_TEMPERATURE, PRECISION_TEMPERATURE);
      State(readings, avg, RelayAfter(sw, s.relayOn), false,
            if sw == Keep then s.lastSwitched else now, false)
  }

  /** The state after a sequence of loop passes. */
  function Run(s: State, ticks: seq<Tick>): State
    decreases |ticks|
  {
    if ticks == [] then s
    else
      var last := ticks[|ticks| - 1];
      Next(Run(s, ticks[..|ticks| - 1]), last.reading, last.now)
  }

  /** The valid readings among the ticks, in order. */
  function ValidReadings(ticks: seq<Tick>): seq<real>
    decreases |ticks|
  {
    if ticks == [] then []
    else
      var last := ticks[|ticks| - 1];
      ValidReadings(ticks[..|ticks| - 1]) + (if last.reading.Some? then [last.reading.value] else [])
  }

  /** A failed read sets the error flag and changes nothing else: the
      readings, the average, the relay, the cold-start flag and the time of
      the last switch are all kept. */
  lemma FailedReadOnlyFlagsError(s: State, now: nat)
    ensures Next(s, None, now) == s.(error := true)
  {
  }

  /** A valid read clears the error flag, ends the cold start, records the
      reading and sets the average to the mean of the window. */
  lemma ValidReadUpdatesAverage(s: State, v: real, now: nat)
    ensures var t := Next(s, Some(v), now);
      !t.error && !t.starting && t.readings == s.readings + [v] &&
      t.avgTemp == Mean(Window(t.readings))
  {
  }

  /** Every change of the relay is stamped with the time of its pass. After
      the cold start the converse holds too: the time changes only when the
      relay does. (On the cold start the OFF branch may stamp the time while
      an OFF relay stays OFF.) */
  lemma SwitchStampsTime(s: State, reading: Option<real>, now: nat)
    ensures var t := Next(s, reading, now);
      t.relayOn != s.relayOn ==> t.lastSwitched == now
    ensures var t := Next(s, reading, now);
      !s.starting && t.lastSwitched != s.lastSwitched ==> t.relayOn != s.relayOn
  {
  }

  /** An average inside the dead band keeps the relay and its switching
      time: no chatter. With the relay OFF, an average of exactly 7.0
      (the upper bound) leaves it OFF. */
  lemma DeadBandKeepsRelay(s: State, v: real, now: nat)
    ensures var t := Next(s, Some(v), now);
      DESIRED_TEMPERATURE - PRECISION_TEMPERATURE <= t.avgTemp <= DESIRED_TEMPERATURE + PRECISION_TEMPERATURE ==>
        t.relayOn == s.relayOn && t.lastSwitched == s.lastSwitched
  {
  }

  /** The loop passes record exactly the valid readings, in order. */
  lemma {:induction false} RunRecordsValidReadings(s: State, ticks: seq<Tick>)
    ensures Run(s, ticks).readings == s.readings + ValidReadings(ticks)
    decreases |ticks|
  {
    if ticks != [] {
      RunRecordsValidReadings(s, ticks[..|ticks| - 1]);
    }
  }

  /** Once the cold start is over it never comes back, and it is over as
      soon as one valid reading has been recorded. */
  lemma {:induction false} RunStartingFalls(s: State, ticks: seq<Tick>)
    ensures Run(s, ticks).starting == (s.starting && ValidReadings(ticks) == [])
    decreases |ticks|
  {
    if ticks != [] {
      RunStartingFalls(s, ticks[..|ticks| - 1]);
    }
  }

  /** NUM_SAMPLES valid readings all equal to v, in any state: the average
      becomes v and the relay ends ON if v is above the band, OFF if below. */
  lemma ConstantBurst(s: State, ticks: seq<Tick>, v: real)
    requires |ticks| == NUM_SAMPLES
    requires forall i :: 0 <= i < |ticks| ==> ticks[i].reading == Some(v)
    ensures Run(s, ticks).avgTemp == v && !Run(s, ticks).starting
    ensures AllWithin(Window(Run(s, ticks).readings), v, v)
    ensures v > DESIRED_TEMPERATURE + PRECISION_TEMPERATURE ==> Run(s, ticks).relayOn
    ensures v < DESIRED_TEMPERATURE - PRECISION_TEMPERATURE ==> !Run(s, ticks).relayOn
  {
    var before := Run(s, ticks[..|ticks| - 1]);
    var t := Run(s, ticks);
    RunRecordsValidReadings(s, ticks);
    AllValid(ticks, v);
    var r := t.readings;
    assert forall i :: |r| - NUM_SAMPLES <= i < |r| ==> r[i] == v by {
      forall i | |r| - NUM_SAMPLES <= i < |r| ensures r[i] == v {
        assert r[i] == ValidReadings(ticks)[i - |s.readings|];
      }
    }
    WindowOfConstantTail(r, v);
    MeanOfConstant(Window(r), v);
    SettlesOutsideBand(v, before.relayOn, before.starting, DESIRED_TEMPERATURE, PRECISION_TEMPERATURE);
  }

  /** Ticks that all carry Some(v) contribute one v per tick. */
  lemma {:induction false} AllValid(ticks: seq<Tick>, v: real)
    requires forall i :: 0 <= i < |ticks| ==> ticks[i].reading == Some(v)
    ensures |ValidReadings(ticks)| == |ticks|
    ensures forall i :: 0 <= i < |ticks| ==> ValidReadings(ticks)[i] == v
    decreases |ticks|
  {
    if ticks != [] {
      AllValid(ticks[..|ticks| - 1], v);
    }
  }

  /** When a run of averages cannot make the rule switch the relay: every
      average stays inside the dead band, or the relay is ON and no
      average can fall below the band, or it is OFF and none can rise
      above it (the cold start being over in the last two cases). */
  predicate Holds(s: State, lo: real, hi: real)
  {
    var inBand := lo >= DESIRED_TEMPERATURE - PRECISION_TEMPERATURE;
    var belowTop := hi <= DESIRED_TEMPERATURE + PRECISION_TEMPERATURE;
    (inBand && belowTop) || (!s.starting && s.relayOn && inBand) || (!s.starting && !s.relayOn && belowTop)
  }

  /** No chatter over any run: while every sample in the window and every
      new valid reading lies in [lo, hi] and that range cannot trigger the
      rule, the relay and the time of its last switch never change. */
  lemma {:induction false} RunHoldsRelay(s: State, ticks: seq<Tick>, lo: real, hi: real)
    requires Holds(s, lo, hi)
    requires AllWithin(Window(s.readings), lo, hi)
    requires forall i :: 0 <= i < |ticks| && ticks[i].reading.Some? ==>
      lo <= ticks[i].reading.value <= hi
    ensures Run(s, ticks).relayOn == s.relayOn
    ensures Run(s, ticks).lastSwitched == s.lastSwitched
    ensures AllWithin(Window(Run(s, ticks).readings), lo, hi)
    decreases |ticks|
  {
    if ticks != [] {
      var prefix := ticks[..|ticks| - 1];
      var last := ticks[|ticks| - 1];
      RunHoldsRelay(s, prefix, lo, hi);
      RunStartingFalls(s, prefix);
      var before := Run(s, prefix);
      if last.reading.Some? {
        var v := last.reading.value;
        WindowPushWithin(before.readings, v, lo, hi);
        MeanWithin(Window(before.readings + [v]), lo, hi);
      }
    }
  }

  /** NUM_SAMPLES identical valid readings. */
  function Burst(v: real, start: nat): (ticks: seq<Tick>)
  {
    seq(NUM_SAMPLES, i requires 0 <= i => Tick(Some(v), start + 2000 * i))
  }

  /** From power-up, 30 readings of 10.0 give an average of 10.0 and the
      relay ON. 30 further readings of 5.0 give 5.0, which is the lower
      bound itself, so the relay stays ON; 30 readings of 4.0 then turn it
      OFF. */
  lemma WarmThenCold(now: nat)
    ensures var a := Run(Init(now), Burst(10.0, now));
      a.avgTemp == 10.0 && a.relayOn &&
      var b := Run(a, Burst(5.0, now + 60000));
      b.avgTemp == 5.0 && b.relayOn &&
      var c := Run(b, Burst(4.0, now + 120000));
      c.avgTemp == 4.0 && !c.relayOn
  {
    var a := Run(Init(now), Burst(10.0, now));
    ConstantBurst(Init(now), Burst(10.0, now), 10.0);
    var b := Run(a, Burst(5.0, now + 60000));
    ConstantBurst(a, Burst(5.0, now + 60000), 5.0);
    RunHoldsRelay(a, Burst(5.0, now + 60000), 5.0, 10.0);
    ConstantBurst(b, Burst(4.0, now + 120000), 4.0);
  }

  /** Sums the first `count` slots of the buffer. */
  method SumSlots(samples: array<real>, count: nat) returns (sum: real)
    requires count <= samples.Length
    ensures sum == Sum(samples[..count])
  {
    sum := 0.0;
    for i := 0 to count
      invariant sum == Sum(samples[..i])
    {
      assert samples[..i + 1][..i] == samples[..i];
      sum := sum + samples[i];
    }
  }

  /** The ring buffer's layout, on plain sequences: before the buffer is
      full, slots [0, idx) hold all readings in arrival order; once it is
      full, the oldest sample is at idx and the slots read from there round
      to it give the last NUM_SAMPLES readings. */
  ghost predicate RingHolds(slots: seq<real>, idx: nat, filled: bool, readings: seq<real>)
  {
    |slots| == NUM_SAMPLES && idx < NUM_SAMPLES &&
    filled == (|readings| >= NUM_SAMPLES) &&
    (!filled ==> idx == |readings| && slots[..idx] == readings) &&
    (filled ==> slots[idx..] + slots[..idx] == Window(readings))
  }

  /** The slots the average loop reads: all of them once the buffer is
      full, the first idx before. */
  function Count(idx: nat, filled: bool): nat
  {
    if filled then NUM_SAMPLES else idx
  }

  /** Writing v into slot idx of a full ring whose oldest sample sits at idx
      and moving idx on by one (wrapping) evicts the oldest sample. */
  lemma RingRotate(a: seq<real>, idx: nat, v: real)
    requires idx < |a|
    ensures var b := a[idx := v];
      var next := if idx + 1 == |a| then 0 else idx + 1;
      b[next..] + b[..next] == (a[idx..] + a[..idx])[1..] + [v]
  {
  }

  /** The write-and-advance of `loop()` keeps the ring layout, and the
      slots the average loop then reads sum to the sum of the new window,
      which is never empty. */
  lemma RingPush(a: seq<real>, idx: nat, filled: bool, readings: seq<real>, v: real)
    requires RingHolds(a, idx, filled, readings)
    ensures var next := if idx + 1 == NUM_SAMPLES then 0 else idx + 1;
      var filled' := filled || idx + 1 == NUM_SAMPLES;
      var b := a[idx := v];
      RingHolds(b, next, filled', readings + [v]) &&
      Count(next, filled') == |Window(readings + [v])| &&
      Sum(b[..Count(next, filled')]) == Sum(Window(readings + [v]))
  {
    var next := if idx + 1 == NUM_SAMPLES then 0 else idx + 1;
    var filled' := filled || idx + 1 == NUM_SAMPLES;
    var b := a[idx := v];
    var r := readings + [v];
    WindowPush(readings, v);
    if filled {
      RingRotate(a, idx, v);
    } else if idx + 1 == NUM_SAMPLES {
      assert b == a[..idx] + [v];
    } else {
      assert b[..next] == a[..idx] + [v];
    }
    if filled' {
      assert b[..NUM_SAMPLES] == b[..next] + b[next..];
      SumAppend(b[..next], b[next..]);
      SumAppend(b[next..], b[..next]);
    }
  }

  /** The firmware's global state: the ring buffer `tempSamples` with its
      write position `sampleIndex` and `bufferFilled` flag, the rolling
      average, the relay flag and the level of its (active-low) pin, the
      cold-start flag, the time of the last switch and the error flag. */
  class ControllerState {
    var tempSamples: array<real>
    var sampleIndex: nat
    var bufferFilled: bool
    var relayState: bool
    var starting: bool
    var avgTemp: real
    var lastSwitched: nat
    var error: bool
    var pinHigh: bool
    /** Every valid reading so far, in arrival order. */
    ghost var readings: seq<real>

    /** The buffer has the ring layout over the valid readings, the average
        is that of the window, the cold start lasts until the first valid
        reading, and the pin is HIGH exactly when the relay is OFF. */
    ghost predicate Valid()
      reads this, tempSamples
    {
      RingHolds(tempSamples[..], sampleIndex, bufferFilled, readings) &&
      starting == (readings == []) &&
      avgTemp == (if readings == [] then 0.0 else Mean(Window(readings))) &&
      pinHigh == !relayState
    }

    ghost function Abs(): State
      reads this
    {
      State(readings, avgTemp, relayState, starting, lastSwitched, error)
    }

    /** Static initialisation and `setup()`: an all-zero buffer, relay OFF
        with its pin driven HIGH, cold start pending, `lastSwitched` at the
        clock's value `now`. */
    constructor (now: nat)
      ensures Valid() && fresh(tempSamples)
      ensures Abs() == Init(now)
      ensures tempSamples[..] == seq(NUM_SAMPLES, _ => 0.0)
      ensures sampleIndex == 0 && !bufferFilled && pinHigh
    {
      tempSamples := new real[NUM_SAMPLES](_ => 0.0);
      sampleIndex := 0;
      bufferFilled := false;
      relayState := false;
      starting := true;
      avgTemp := 0.0;
      lastSwitched := now;
      error := false;
      pinHigh := true;
      readings := [];
    }

    /** The valid-reading half of `loop()` up to the average: write the
        reading at sampleIndex, advance and wrap the index (the buffer
        counts as filled from the first wrap on), then average the slots
        in use. */
    method AddSample(currentTemp: real)
      requires Valid()
      modifies this`sampleIndex, this`bufferFilled, this`readings, this`avgTemp, tempSamples
      ensures tempSamples == old(tempSamples)
      ensures RingHolds(tempSamples[..], sampleIndex, bufferFilled, readings)
      ensures readings == old(readings) + [currentTemp]
      ensures avgTemp == Mean(Window(readings))
      ensures tempSamples[..] == old(tempSamples[..])[old(sampleIndex) := currentTemp]
      ensures sampleIndex == (if old(sampleIndex) + 1 == NUM_SAMPLES then 0 else old(sampleIndex) + 1)
      ensures bufferFilled == (old(bufferFilled) || old(sampleIndex) + 1 == NUM_SAMPLES)
    {
      ghost var slots := tempSamples[..];
      RingPush(slots, sampleIndex, bufferFilled, readings, currentTemp);
      tempSamples[sampleIndex] := currentTemp;
      var next := sampleIndex + 1;
      var filled := bufferFilled;
      if next >= NUM_SAMPLES {
        next := 0;
        filled := true;
      }
      sampleIndex, bufferFilled := next, filled;
      readings := readings + [currentTemp];

      // calculate the average temperature
      var count := if filled then NUM_SAMPLES else next;
      assert count == Count(next, filled);
      var sum := SumSlots(tempSamples, count);
      avgTemp := sum / count as real;
    }

    /** The hysteresis half of `loop()`: the ON branch first, then the OFF
        branch, each driving the pin (LOW for ON) and stamping the time;
        the cold start ends whether or not the relay switched. */
    method Regulate(now: nat)
      modifies this`relayState, this`pinHigh, this`lastSwitched, this`starting
      ensures relayState ==
        RelayAfter(Decide(avgTemp, old(relayState), old(starting), DESIRED_TEMPERATURE, PRECISION_TEMPERATURE), old(relayState))
      ensures lastSwitched ==
        if Decide(avgTemp, old(relayState), old(starting), DESIRED_TEMPERATURE, PRECISION_TEMPERATURE) == Keep
        then old(lastSwitched) else now
      ensures pinHigh ==
        if Decide(avgTemp, old(relayState), old(starting), DESIRED_TEMPERATURE, PRECISION_TEMPERATURE) == Keep
        then old(pinHigh) else !relayState
      ensures !starting
    {
      if (starting || !relayState) && avgTemp > DESIRED_TEMPERATURE + PRECISION_TEMPERATURE {
        relayState := true;
        pinHigh := false;   // relay ON
        lastSwitched := now;
      } else if (starting || relayState) && avgTemp < DESIRED_TEMPERATURE - PRECISION_TEMPERATURE {
        relayState := false;
        pinHigh := true;    // relay OFF
        lastSwitched := now;
      }
      starting := false;
    }

    /** One pass of `loop()`: `reading` is the sensor's answer (None for
        NaN), `now` the clock. */
    method Step(reading: Option<real>, now: nat)
      requires Valid()
      modifies this, tempSamples
      ensures Valid() && tempSamples == old(tempSamples)
      ensures Abs() == Next(old(Abs()), reading, now)
      ensures reading.None? ==>
        tempSamples[..] == old(tempSamples[..]) && sampleIndex == old(sampleIndex) &&
        bufferFilled == old(bufferFilled) && pinHigh == old(pinHigh)
      ensures reading.Some? ==>
        tempSamples[..] == old(tempSamples[..])[old(sampleIndex) := reading.value] &&
        sampleIndex == (if old(sampleIndex) + 1 == NUM_SAMPLES then 0 else old(sampleIndex) + 1) &&
        bufferFilled == (old(bufferFilled) || old(sampleIndex) + 1 == NUM_SAMPLES)
    {
      match reading
      case None =>
        error := true;
      case Some(currentTemp) =>
        error := false;
        AddSample(currentTemp);
        Regulate(now);
    }
  }
}
