# turbo-lights: zone colour tables and sensor arbitration, in Dafny

turbo-lights lights an LED strip in the colour of the effort zone that a
cyclist's live power or heart-rate reading falls in. This project models its
two pieces of real logic and proves properties of them.

- **The zone-to-colour tables** (`get_zone_colormapping`). The builder is given
  an ascending list of integer zone boundaries. It returns a dictionary that
  maps every integer raw value of each band `[zones[i], zones[i+1])` to what the
  strip shows. It builds one dictionary per band and merges it into the table
  with `dict.update`. There are two variants:
  - The *discrete* table of `led_control.py` maps every value of band `i` to
    colour `i` of a seven-colour palette. `led_control_testing_power_values.py`
    has the same function, so one model (`DiscreteZones`) covers both.
  - The *interpolated* table of `color_setting.py` splits a strip of `n` LEDs.
    It gives `k` LEDs to the band's high colour, `palette[i+1]`, and `n - k` to
    its low colour, `palette[i]`. Here `k = floor((x - zones[i]) * n / (zones[i+1] - zones[i]))`
    and the palette has eight colours (`InterpolatedZones`).
  - `ZoneBands` holds what the two share: bands, Python's `range`, and the
    merge of per-band results. In that merge a later band overwrites an
    earlier one, and the first band that raises stops the build.
  - Each builder is a method with a loop, proved equal to a specification
    function (`Table`). The properties are proved about that function.
- **The sensor arbitration of `Monitor`** (`Arbitration`). `on_power_data`
  and `on_hr_data` are the methods of class `Monitor`. They change the mode
  flag `power`, the two last-update timestamps and a log of the LED callback's
  calls. Each method is proved equal to a pure step function (`PowerStep`,
  `HeartRateStep`). Lemmas about delivering a sequence of readings (`Run`)
  state what holds across many callbacks.

Modelling choices:
- Python exceptions become an `Error` value: `IndexError`, `KeyError`,
  `TypeError` or `ZeroDivisionError`. The tables return a `Result`; the
  callbacks return an `Outcome`.
- The wall clock `dt.datetime.now()` becomes an integer argument `now`, in
  whole seconds.
- The LED callback `update_led(color, flash)` becomes an `Emission` appended
  to the monitor's `emitted` log.
- `led_control.py` never assigns `self.power` in `Monitor.__init__`, so as
  written the first callback to read it would raise `AttributeError`. The
  model starts in power mode, the value that
  `led_control_testing_power_values.py:162` assigns.
- `power_last_update` starts as `None`. So a heart-rate reading in power mode
  before any power reading raises `TypeError`, after it has already stored
  `hr_last_update`. The model keeps that behaviour. `DarkWithoutPower` shows
  what follows from it: a monitor that never hears its power meter never
  lights the strip.
- Some behaviour is described for this system but is not in the code. There
  is no rolling average of power readings and no "no data" start state. There
  is also no hysteresis: a power reading emits every time, even when its
  colour is the same as the last one. The model follows the code.
- `Run` models delivery of readings to the callbacks one at a time. When a
  callback raises, `Run` drops that reading and goes on with the next one.

## Model

| member | source | states |
|---|---|---|
| ZoneBands.Range | color_setting.py:128 | `range(lo, hi)` holds exactly the integers `lo <= x < hi` |
| ZoneBands.RangeSize | unittests/test_led_control.py:70 | `range(lo, hi)` has `hi - lo` elements, which is where a table's size comes from |
| ZoneBands.Merge | color_setting.py:119-130 | the update loop finishes exactly when no band raises; a failed build's error is the error of one of the bands |
| ZoneBands.MergeFirstError | color_setting.py:119-130 | the loop raises the error of the first band that raises |
| ZoneBands.MergeKeys | led_control.py:110-114 | the merged table holds exactly the keys that some band's dictionary holds |
| ZoneBands.MergeLastWins | led_control.py:114 | `update` keeps a key's value from the last band that holds it |
| ZoneBands.BandOf | led_control.py:110-112 | every value from the first boundary up to the last lies in some band, whatever the order of the boundaries |
| ZoneBands.LastBandExists | led_control.py:110-114 | a value that some band holds has a last band holding it, the one whose entry `update` keeps |
| ZoneBands.OnlyBand | color_setting.py:119-128 | with strictly increasing boundaries a value lies in one band only, so no later band overwrites it |
| DiscreteZones.Band | led_control.py:112 | band `i` maps exactly its values to colour `i`; it raises IndexError only when it holds a value and `i >= 7` |
| DiscreteZones.Table | led_control.py:108-116 | the only exception the discrete builder can raise is the IndexError of a palette lookup |
| DiscreteZones.BuildTable | led_control.py:108-116 | the loop's table, or the exception it raises, equals the specification `Table` |
| DiscreteZones.TableFails | led_control.py:106-112 | the build raises exactly when some band from the eighth on holds a value |
| DiscreteZones.TableShape | led_control_testing_power_values.py:124-128 | for any boundaries: keys are the values of the non-empty bands; empty or inverted bands add nothing; a value takes the colour of the last band holding it |
| DiscreteZones.IncreasingTable | led_control_testing_power_values.py:122-128 | for 1 to 8 strictly increasing boundaries: the build succeeds; keys are exactly `[zones[0], zones[-1])`; size is `zones[-1] - zones[0]`; band `i` maps to colour `i` |
| DiscreteZones.TooManyBoundaries | led_control_testing_power_values.py:120-126 | more than 8 strictly increasing boundaries raise IndexError on the seven-colour palette |
| InterpolatedZones.HighCount | color_setting.py:121-127 | the high count `k` is the floor of `(x - lo) * n / (hi - lo)`: `k * (hi - lo) <= (x - lo) * n < (k + 1) * (hi - lo)` |
| InterpolatedZones.Cell | color_setting.py:125-127 | a value's split gives the low part `palette[i]` and the high part `palette[i+1]`, and the two counts add up to `n` |
| InterpolatedZones.HighCountBounds | color_setting.py:126-127 | within a band, for `n >= 0`, the high count lies in `[0, n]`, and in `[0, n)` when `n > 0` |
| InterpolatedZones.HighCountMonotone | color_setting.py:121-127 | the high count never decreases as the value moves up a band |
| InterpolatedZones.BandSplits | color_setting.py:124-128 | the band comprehension holds exactly the band's values, each mapped to its split |
| InterpolatedZones.Band | color_setting.py:121-128 | equal boundaries raise ZeroDivisionError even for an empty band; an inverted band adds nothing; a non-empty band from the eighth on raises IndexError on `colormapping[i+1]` |
| InterpolatedZones.Table | color_setting.py:117-132 | the only exceptions the interpolated builder can raise are ZeroDivisionError and IndexError |
| InterpolatedZones.BuildTable | color_setting.py:117-132 | the loop's table, or the exception it raises, equals the specification `Table` |
| InterpolatedZones.TableFails | color_setting.py:115-130 | the build raises exactly when two adjacent boundaries are equal or a band from the eighth on holds a value; the error kind names its cause |
| InterpolatedZones.EqualBoundaries | color_setting.py:121 | two equal adjacent boundaries make the build fail; when every earlier band succeeds, it fails with that band's ZeroDivisionError, whatever its index |
| InterpolatedZones.TableShape | color_setting.py:124-130 | for any boundaries: keys are the values of the non-empty bands; inverted bands add nothing; a value takes the split of the last band holding it |
| InterpolatedZones.TableCounts | color_setting.py:124-130 | for any boundaries, every entry of a table that is built splits exactly `n` LEDs between its two colours |
| InterpolatedZones.IncreasingTable | color_setting.py:119-130 | for 1 to 8 strictly increasing boundaries: the build succeeds; keys are exactly `[zones[0], zones[-1])`; size is `zones[-1] - zones[0]` |
| InterpolatedZones.IncreasingTableAt | color_setting.py:124-128 | for strictly increasing boundaries, a value of band `i` maps to band `i`'s split |
| InterpolatedZones.TooManyBoundaries | color_setting.py:115-127 | more than 8 strictly increasing boundaries raise IndexError: the eighth band has no high colour |
| InterpolatedZones.CellSplit | color_setting.py:126-127 | the high count is the floor quotient; at the lower edge the split is `(n, 0)`; the low part keeps at least one LED when `n > 0` |
| InterpolatedZones.CellMonotone | color_setting.py:126-127 | across a band the high part only grows and the low part only shrinks |
| InterpolatedZones.ZeroBasedTable | unittests/test_led_control.py:64-75 | for 2 to 8 strictly increasing boundaries starting at 0: size `max(zones)`; keys from 0 to `max(zones) - 1`; value 0 is all grey |
| InterpolatedZones.UnitTestHeartRateTable | unittests/test_led_control.py:61-75 | the unit test's heart-rate table: 255 entries, keys 0..254, value 0 is `((100, grey), (0, blue))` |
| InterpolatedZones.UnitTestPowerTable | unittests/test_led_control.py:77-88 | the unit test's power table: 3000 entries, keys 0..2999, value 0 is `((100, grey), (0, blue))` |
| Arbitration.DecodePower | led_control.py:213 | the power value is the 16-bit number with byte 8 high and byte 7 low, in 0..65535; a payload shorter than 9 bytes raises IndexError |
| Arbitration.DecodeHeartRate | led_control.py:229 | the heart rate is byte 7, in 0..255; a payload shorter than 8 bytes raises IndexError |
| Arbitration.Lookup | led_control.py:214 | a decoded reading in the table gives its colour; a reading missing from the table raises KeyError; a payload that did not decode keeps its IndexError |
| Arbitration.PowerStep | led_control.py:210-224 | a miss changes nothing; otherwise one emission, with flash exactly when leaving heart-rate mode; then power mode is on and the last power update is `now` |
| Arbitration.HeartRateStep | led_control.py:226-241 | a miss changes nothing; otherwise the HR time is recorded; HR mode emits once without flash; power mode raises TypeError before any power reading; takeover with flash happens exactly when `now - last power > time_delay` (strict); a heart-rate reading never turns power mode on |
| Arbitration.Deliver | led_control.py:190-201 | a callback emits at most once and never on failure; the mode changes exactly when it emits with flash; only a power reading turns power mode on; the colour comes from that channel's table |
| Arbitration.Run | led_control.py:190-201 | readings delivered one at a time to their channel's callback only append to the LED log, at most one entry per reading |
| Arbitration.RunFromTables | led_control.py:214-230 | every colour sent to the LEDs comes from the power or the heart-rate table |
| Arbitration.HeartRateModeHolds | led_control.py:219-241 | only a power reading restores power mode; no amount of elapsed time does, and nothing emitted meanwhile flashes |
| Arbitration.DarkWithoutPower | led_control.py:236-237 | in power mode with no power update yet, and with no power reading that reaches its table: each heart-rate reading that decodes and is in its table raises TypeError; the strip is never lit; power mode and the unset timestamp remain |
| Arbitration.Monitor.constructor | led_control_testing_power_values.py:150-162 | a new monitor is in power mode with both timestamps unset and nothing emitted |
| Arbitration.Monitor.OnPowerData | led_control.py:210-224 | the callback's new state and outcome are exactly `PowerStep` of the old state |
| Arbitration.Monitor.OnHeartRateData | led_control.py:226-241 | the callback's new state and outcome are exactly `HeartRateStep` of the old state |
| Arbitration.NewMonitor | led_control.py:149-154 | builds both discrete tables; raises IndexError exactly when one of them cannot be built; otherwise returns a fresh monitor in the initial state |

## Left out

- Configuration loading: `get_zones`, `get_ant_constants` and the YAML file are file I/O. The zone boundaries, the LED count and `time_delay` are parameters.
- `LEDController` and `color_wipe` are hardware drivers that sleep. The LED callback is modelled by the log of its calls, not by what the strip shows.
- ANT node and channel setup, `stop`, the context-manager methods and the `__main__` blocks are radio transport and process lifecycle.
- The `Monitor` fields `serial`, `netkey`, `antnode`, `channel` and `paired` are used only by that transport.
- The callbacks in `led_control_testing_power_values.py` only print; their logic is commented out.
- `number_of_leds_calc` is unfinished: it computes two limits and returns nothing.
- InterpolatedZones.HighCount: the source computes `led_step` as a float and floors `(x - zones[i]) * led_step`. The model uses the exact integer floor. IEEE rounding could, rarely, make the float result differ by one from the exact one.
- Arbitration.HeartRateStep: timestamps are whole seconds. The fractional part of `total_seconds()` is not modelled.
- `POWER_AVERAGING` is read from the configuration but never used, and no rolling average exists in the code.
- `AttributeError` from the unset `self.power` in `led_control.py`: the model starts with `power` true instead.
- Arbitration.Run: it is not modelled whether the radio library keeps delivering readings after a callback raises. `Run` assumes it does.
