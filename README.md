# FrostByte cooler controller — a Dafny model

FrostByte is an ESP8266 firmware that keeps a cooler near 6 °C. Every pass of
its `loop()` reads a DHT22 sensor. It stores each valid reading in a 30-slot
ring buffer and recomputes the rolling average. It then switches a relay
(active low on GPIO0) with an on/off rule that has a dead band of ±1 °C. A
failed read (NaN) only raises an error flag shown on the status page. The page
shows how long ago the relay last switched, split into days, hours, minutes
and seconds by `msToDhms`.

The model has five modules:

- `Optional` (optional.dfy): the sensor's answer, `Some(temperature)` or
  `None` for NaN.
- `SampleStore` (sample_store.dfy): the averaging arithmetic. It defines
  `Sum`, the `Window` of readings the average is taken over (every reading
  until 30 have arrived, then the last 30), `Mean`, and lemmas about them.
- `Hysteresis` (hysteresis.dfy): the relay rule `Decide`, with the ON branch
  tried first, and its properties.
- `Controller` (controller.dfy): the loop itself. It has two layers.
  - An abstract layer: the datatype `State`, with the ghost list of all valid
    readings, and the pure transition `Next` with its iteration `Run`.
  - The firmware's globals: the class `ControllerState`. It holds an
    `array<real>` of 30 slots, `sampleIndex`, `bufferFilled`, `avgTemp`,
    `relayState`, `starting`, `lastSwitched`, `error`, and `pinHigh` for the
    relay pin. Its method `Step` models one pass of `loop()`. Its contract
    ties the new state to `Next` of the old one and keeps the class invariant
    `Valid()`.
- `Duration` (duration.dfy): `msToDhms`. The arithmetic is `Split`; the text
  is `Format`. A parser `ParseDhms` reads the text back, to show that the
  text and the numbers agree.

Temperatures are `real`. The sensor result, the clock `millis()` and the
relay pin become the parameters `reading` and `now` of `Step` and the field
`pinHigh`.

Some consequences of the code are worth knowing:

- Thirty readings of 5.0 °C do not turn the relay OFF. 5.0 is exactly
  `desired - precision`, and the OFF test `<` excludes it, so an ON relay
  stays ON (`Controller.WarmThenCold`). 30 readings of 4.0 °C do turn it OFF.
- On a cold start with the relay OFF and the average below the band, the OFF
  branch still fires. The relay stays OFF, but `lastSwitched` is set to the
  current time (`Hysteresis.ColdStartOverride`, `Controller.SwitchStampsTime`).
- The sample store is a ring buffer with an index and a "filled" flag, not a
  shift-left array. Once 30 readings have arrived, its slots hold a rotation
  of the last 30 readings, so the average is the mean of those readings
  (`Controller.RingPush`).
- A reading counts as failed only when it is NaN (src/main.cpp:137). Any
  other value, however implausible, is stored and averaged; the model's
  `Some(v)` accepts every real `v` for the same reason.

## Model

| member | source | states |
|---|---|---|
| `SampleStore.Window` | src/main.cpp:149-150 | The averaged samples are never more than NUM_SAMPLES, and never none once a reading has arrived, so the count the loop divides by is in 1..30 |
| `SampleStore.SumAppend` | src/main.cpp:152-154 | The loop's sum splits over any split of the slots; this is why a rotated buffer sums like the window |
| `SampleStore.MeanWithin` | src/main.cpp:149-156 | If every sample is in [lo, hi], the average is in [lo, hi] |
| `SampleStore.MeanOfConstant` | src/main.cpp:149-156 | The average of samples that are all equal to v is v |
| `SampleStore.Sum` | src/main.cpp:149-154 | The running sum of the averaging loop, taken from the first slot to the last. It has no ensures of its own; SumAppend and SumWithin state its properties, and SumSlots proves the loop computes it |
| `SampleStore.Mean` | src/main.cpp:156 | `sum / count` over the averaged samples, defined only for a non-empty window. It has no ensures of its own; MeanWithin and MeanOfConstant state its properties |
| `SampleStore.WindowPush` | src/main.cpp:140-147 | A new reading is appended while fewer than 30 have arrived; afterwards it evicts the oldest (FIFO) |
| `SampleStore.WindowPushWithin` | src/main.cpp:140-147 | A reading inside [lo, hi] keeps the whole window inside [lo, hi] |
| `SampleStore.WindowOfConstantTail` | src/main.cpp:140-150 | When the last 30 readings all equal v, the window is 30 copies of v |
| `Hysteresis.Decide` | src/main.cpp:159-167 | Turns ON only when the relay is OFF (or on a cold start) and the average is strictly above desired + precision. Turns OFF only when the relay is ON (or on a cold start) and the average is strictly below desired - precision. Never switches inside the closed band |
| `Hysteresis.OnGuard` | src/main.cpp:159 | The ON test: relay OFF or cold start, and the average strictly above desired + precision. It has no ensures of its own; GuardsExclusive, SettlesOutsideBand and ColdStartOverride state its properties |
| `Hysteresis.OffGuard` | src/main.cpp:163 | The OFF test: relay ON or cold start, and the average strictly below desired - precision. It has no ensures of its own; GuardsExclusive, SettlesOutsideBand and ColdStartOverride state its properties |
| `Hysteresis.RelayAfter` | src/main.cpp:160-165 | The relay flag after a decision: set by TurnOn, cleared by TurnOff, kept otherwise. It has no ensures of its own; SettlesOutsideBand and SwitchChangesRelay state its properties |
| `Hysteresis.GuardsExclusive` | src/main.cpp:159-163 | With precision > 0 the ON and OFF guards never hold together |
| `Hysteresis.SettlesOutsideBand` | src/main.cpp:159-167 | With precision > 0, the relay ends ON after an average above the band and OFF after one below it, whatever its previous state |
| `Hysteresis.SwitchChangesRelay` | src/main.cpp:159-167 | After the cold start, every switch flips the relay |
| `Hysteresis.ColdStartOverride` | src/main.cpp:159-168 | On the first evaluation the rule ignores the relay state: ON above the band, OFF below it, even when the relay is already OFF |
| `Controller.Init` | src/main.cpp:107-126 | The power-up values of the globals: no readings, average 0.0, relay OFF, cold start pending, no error, `lastSwitched` at the current clock. It has no ensures of its own; the constructor of ControllerState establishes it, and WarmThenCold starts from it |
| `Controller.Next` | src/main.cpp:133-172 | One pass of `loop()` on the abstract state. It has no ensures of its own; FailedReadOnlyFlagsError, ValidReadUpdatesAverage, SwitchStampsTime and DeadBandKeepsRelay state its properties, and Step is proved equal to it |
| `Controller.FailedReadOnlyFlagsError` | src/main.cpp:169-172 | A NaN reading sets the error flag and leaves the readings, the average, the relay, the cold-start flag and the switching time unchanged |
| `Controller.ValidReadUpdatesAverage` | src/main.cpp:137-156 | A valid reading clears the error flag and ends the cold start. It is appended to the readings, and the average becomes the mean of the last (up to 30) readings |
| `Controller.SwitchStampsTime` | src/main.cpp:159-168 | Whenever the relay changes, `lastSwitched` is the time of that pass. After the cold start, `lastSwitched` changes only when the relay does; on the cold start the OFF branch may stamp the time with the relay staying OFF |
| `Controller.DeadBandKeepsRelay` | src/main.cpp:159-167 | An average in [5.0, 7.0] keeps the relay and `lastSwitched`. With the relay OFF, 7.0 does not turn it ON |
| `Controller.RunRecordsValidReadings` | src/main.cpp:137-141 | Over any run, the recorded readings are exactly the valid ones, in arrival order |
| `Controller.RunStartingFalls` | src/main.cpp:112-172 | The cold-start flag is still set after a run exactly when it was set before and the run had no valid reading. Once cleared it never comes back |
| `Controller.ConstantBurst` | src/main.cpp:137-168 | From any state, 30 valid readings of v give the average v. The relay ends ON if v is above the band and OFF if v is below it |
| `Controller.RunHoldsRelay` | src/main.cpp:149-167 | No chatter. While the window and the new readings stay in a range that cannot trigger the rule, the relay and `lastSwitched` never change. That holds for a range inside the dead band, for an ON relay while nothing is below the band, and for an OFF relay while nothing is above it |
| `Controller.WarmThenCold` | src/main.cpp:133-175 | From power-up: 30 × 10.0 give average 10.0 and relay ON; then 30 × 5.0 give 5.0 with the relay still ON; then 30 × 4.0 give 4.0 and relay OFF |
| `Controller.SumSlots` | src/main.cpp:149-155 | The averaging loop returns the sum of the first `count` slots |
| `Controller.RingRotate` | src/main.cpp:140-147 | Writing at the oldest slot of a full ring and advancing the index with wrap-around leaves the slots, read from the new index round, as the old window minus its oldest sample plus the new one |
| `Controller.RingPush` | src/main.cpp:140-156 | The write-and-advance keeps the ring layout. The slot count the loop averages equals the window length, and those slots sum to the window's sum |
| `Controller.ControllerState.constructor` | src/main.cpp:107-131 | Power-up state: zeroed buffer, index 0, not filled, relay OFF with its pin HIGH, cold start pending, no error, `lastSwitched` at the current clock |
| `Controller.ControllerState.AddSample` | src/main.cpp:140-156 | Writes the reading at `sampleIndex` and advances the index with wrap-around. `bufferFilled` is set at the first wrap and then stays set. Records the reading, and sets `avgTemp` to the mean of the window |
| `Controller.ControllerState.Regulate` | src/main.cpp:159-168 | The relay, the pin level and `lastSwitched` follow `Decide` on the new average; `starting` becomes false |
| `Controller.ControllerState.Step` | src/main.cpp:133-175 | One pass of `loop()` is `Next` of the old state. It keeps `Valid()`: index in [0, 30), slots [0, sampleIndex) hold the readings in order until the buffer fills, pin HIGH exactly when the relay is OFF. A NaN leaves the buffer, index, flag and pin unchanged |
| `Duration.Split` | src/main.cpp:225-235 | Hours < 24, minutes < 60 and seconds < 60. The fields account for the count to within less than one second |
| `Duration.SplitUnique` | src/main.cpp:231-234 | Any days/hours/minutes/seconds with those bounds and that decomposition is the result of `Split` |
| `Duration.NatToDecimal` | src/main.cpp:242-245 | The decimal text of a number is non-empty, all digits, and has no leading zero |
| `Duration.DecimalRoundTrip` | src/main.cpp:242-245 | Reading the decimal text back gives the number |
| `Duration.Format` | src/main.cpp:239-247 | The four numbers in decimal, each followed by "d ", "h ", "m " or "s". It has no ensures of its own; FormatParses states that the text reads back as the same numbers |
| `Duration.FormatParses` | src/main.cpp:240-247 | The text "<d>d <h>h <m>m <s>s" reads back as the same four numbers |
| `Duration.MsToDhms` | src/main.cpp:225-248 | The text `msToDhms` returns reads back as exactly the split of its argument |

## Left out

- The WiFi access point, the web server and its `/` route (src/main.cpp:180-202) are network and library calls. The route only reads the globals.
- `buildPage`/`respondPage` (src/main.cpp:204-223) load PROGMEM strings, allocate and send an HTTP response. They only concatenate.
- The HTML template (src/main.cpp:18-102) and the float-to-text formatting `String(x, 2)` are left out. That formatting depends on a library the model does not include.
- The elapsed time `millis() - lastSwitched` is computed in the route, with 32-bit unsigned wrap-around after about 49.7 days. It is not modelled; `MsToDhms` takes any natural number. Its own arithmetic is only division and remainder, so it cannot overflow.
- The DHT22 driver, `millis()`, `digitalWrite`, `pinMode` and `dht.begin()` are replaced by the `reading` and `now` parameters and the `pinHigh` field.
- `delay(2000)` is left out: the pause has no effect on the state.
- IEEE single-precision rounding of the running sum and the division is not modelled. Temperatures are exact reals.
- The unused global `temperature` (src/main.cpp:177) is not modelled.
- `desiredTemperature` and `precisionTemperature` are mutable globals in the firmware but never assigned after initialisation. They are constants here, and the lemmas of `Hysteresis` take them as parameters.
