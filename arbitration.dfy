/** The sensor arbitration of led_control.py's Monitor: power and heart-rate
    readings arrive through two callbacks; power readings always drive the LEDs
    and claim power mode, heart-rate readings drive them only in heart-rate
    mode, or take over once the last power reading is more than time_delay
    seconds old. */
module Arbitration {
  import opened Errors
  import opened Colours
  import DiscreteZones

  /** One call of the LED callback: the colour to show and whether to flash. */
  datatype Emission = Emission(colour: Colour, flash: bool)

  /** How a data callback ends: normally, or by raising. */
  datatype Outcome = Handled | Raised(error: Error)

  /** The monitor's changing state: the mode flag (true while power readings
      drive the LEDs), the times of the last power and heart-rate readings
      (None until one arrives), and every LED callback made so far. */
  datatype State = State(
    power: bool,
    powerLastUpdate: Option<int>,
    hrLastUpdate: Option<int>,
    emitted: seq<Emission>)

  /** What the monitor is built with and never changes: the two colour tables
      and the number of seconds power readings may be absent before heart-rate
      readings take over. */
  datatype Config = Config(powerColours: map<int, Colour>, hrColours: map<int, Colour>, timeDelay: int)

  /** What one callback does: how it ends and the state it leaves. */
  datatype Step = Step(outcome: Outcome, next: State)

  /** A reading as the radio delivers it: the payload bytes and the time of
      arrival in whole seconds. */
  datatype Reading =
    | PowerData(data: seq<Byte>, at: int)
    | HeartRateData(data: seq<Byte>, at: int)

  /** A new monitor is in power mode, has seen no reading and lit nothing. */
  const Initial: State := State(true, None, None, [])

  /** The power value of a payload: byte 8 is the high byte and byte 7 the low
      byte of an unsigned 16-bit number; a payload too short for byte 8 raises
      IndexError. */
  function DecodePower(data: seq<Byte>): (r: Result<int>)
    ensures r.Ok? <==> 9 <= |data|
    ensures r.Err? ==> r.error == IndexError
    ensures r.Ok? ==> 0 <= r.value < 65536 && r.value / 256 == data[8] && r.value % 256 == data[7]
  {
    if |data| < 9 then Err(IndexError) else Ok(data[8] as int * 256 + data[7] as int)
  }

  /** The heart rate of a payload: byte 7; a payload too short for byte 7
      raises IndexError. */
  function DecodeHeartRate(data: seq<Byte>): (r: Result<int>)
    ensures r.Ok? <==> 8 <= |data|
    ensures r.Err? ==> r.error == IndexError
    ensures r.Ok? ==> 0 <= r.value < 256 && r.value == data[7]
  {
    if |data| < 8 then Err(IndexError) else Ok(data[7])
  }

  /** The colour a decoded reading looks up, or the KeyError of a miss; a
      payload that did not decode keeps its own error. */
  function Lookup(colours: map<int, Colour>, reading: Result<int>): (r: Result<Colour>)
    ensures r.Ok? <==> reading.Ok? && reading.value in colours
    ensures r.Ok? ==> r.value in colours.Values && r.value == colours[reading.value]
    ensures reading.Err? ==> r == Err(reading.error)
    ensures reading.Ok? && reading.value !in colours ==> r == Err(KeyError)
  {
    match reading
    case Err(e) => Err(e)
    case Ok(v) => if v in colours then Ok(colours[v]) else Err(KeyError)
  }

  function PowerColour(c: Config, data: seq<Byte>): Result<Colour> {
    Lookup(c.powerColours, DecodePower(data))
  }

  function HeartRateColour(c: Config, data: seq<Byte>): Result<Colour> {
    Lookup(c.hrColours, DecodeHeartRate(data))
  }

  /** on_power_data. A payload that does not decode or misses the table
      raises before anything changes. Otherwise the reading is emitted exactly
      once, flashing exactly when the monitor was in heart-rate mode, and power
      mode is on with the reading's time as the last power update. */
  function PowerStep(c: Config, s: State, data: seq<Byte>, now: int): (r: Step)
    ensures PowerColour(c, data).Err? ==> r == Step(Raised(PowerColour(c, data).error), s)
    ensures r.outcome.Handled? <==> PowerColour(c, data).Ok?
    ensures r.outcome.Handled? ==>
      && r.next.power
      && r.next.powerLastUpdate == Some(now)
      && r.next.hrLastUpdate == s.hrLastUpdate
      && r.next.emitted == s.emitted + [Emission(c.powerColours[DecodePower(data).value], !s.power)]
  {
    match PowerColour(c, data)
    case Err(e) => Step(Raised(e), s)
    case Ok(colour) =>
      var s' := s.(powerLastUpdate := Some(now));
      if !s.power then
        Step(Handled, s'.(power := true, emitted := s.emitted + [Emission(colour, true)]))
      else
        Step(Handled, s'.(emitted := s.emitted + [Emission(colour, false)]))
  }

  /** on_hr_data. A payload that does not decode or misses the table raises
      before anything changes; otherwise the reading's time is recorded first.
      In heart-rate mode the reading is emitted once, without flash. In power
      mode it raises TypeError if no power reading has ever arrived; it takes
      over, emitting once with flash, exactly when the last power reading is
      strictly more than time_delay seconds old; otherwise nothing is emitted.
      A heart-rate reading never turns power mode on. */
  function HeartRateStep(c: Config, s: State, data: seq<Byte>, now: int): (r: Step)
    ensures HeartRateColour(c, data).Err? ==> r == Step(Raised(HeartRateColour(c, data).error), s)
    ensures HeartRateColour(c, data).Ok? ==>
      r.next.hrLastUpdate == Some(now) && r.next.powerLastUpdate == s.powerLastUpdate
    ensures r.next.power ==> s.power
    ensures r.outcome == Raised(TypeError) <==>
      HeartRateColour(c, data).Ok? && s.power && s.powerLastUpdate.None?
    ensures r.outcome == Raised(TypeError) ==> r.next == s.(hrLastUpdate := Some(now))
    ensures HeartRateColour(c, data).Ok? && !s.power ==>
      && r.outcome.Handled?
      && !r.next.power
      && r.next.emitted == s.emitted + [Emission(c.hrColours[data[7]], false)]
    ensures HeartRateColour(c, data).Ok? && s.power && s.powerLastUpdate.Some? ==>
      && r.outcome.Handled?
      && (!r.next.power <==> now - s.powerLastUpdate.value > c.timeDelay)
      && r.next.emitted == if r.next.power then s.emitted else s.emitted + [Emission(c.hrColours[data[7]], true)]
  {
    match HeartRateColour(c, data)
    case Err(e) => Step(Raised(e), s)
    case Ok(colour) =>
      var s' := s.(hrLastUpdate := Some(now));
      if s.power then
        match s.powerLastUpdate
        case None => Step(Raised(TypeError), s')
        case Some(last) =>
          if now - last > c.timeDelay then
            Step(Handled, s'.(emitted := s.emitted + [Emission(colour, true)], power := false))
          else
            Step(Handled, s')
      else
        Step(Handled, s'.(emitted := s.emitted + [Emission(colour, false)]))
  }

  /** One reading handed to the callback for its channel. Every callback
      emits at most once and never on failure; the mode changes exactly when
      it emits with flash; only a power reading turns power mode on; and what
      it emits is a colour of that channel's table. */
  function Deliver(c: Config, s: State, reading: Reading): (r: Step)
    ensures s.emitted <= r.next.emitted && |r.next.emitted| <= |s.emitted| + 1
    ensures r.outcome.Raised? ==> r.next.emitted == s.emitted && r.next.power == s.power
    ensures r.next.power != s.power <==>
      |r.next.emitted| == |s.emitted| + 1 && r.next.emitted[|s.emitted|].flash
    ensures r.next.power && !s.power ==> reading.PowerData?
    ensures |r.next.emitted| == |s.emitted| + 1 ==>
      if reading.PowerData? then r.next.emitted[|s.emitted|].colour in c.powerColours.Values
      else r.next.emitted[|s.emitted|].colour in c.hrColours.Values
  {
    match reading
    case PowerData(data, at) => PowerStep(c, s, data, at)
    case HeartRateData(data, at) => HeartRateStep(c, s, data, at)
  }

  /** The state after the readings are delivered one at a time, in order. A
      reading whose callback raises is dropped and delivery goes on. Readings
      only ever append to the LED log, at most one entry each. */
  function Run(c: Config, s: State, readings: seq<Reading>): (r: State)
    ensures s.emitted <= r.emitted
    ensures |r.emitted| <= |s.emitted| + |readings|
    decreases |readings|
  {
    if |readings| == 0 then s else Run(c, Deliver(c, s, readings[0]).next, readings[1..])
  }

  /** Every colour the LEDs are given comes from one of the two tables. */
  ghost predicate FromTables(c: Config, log: seq<Emission>) {
    forall k :: 0 <= k < |log| ==> log[k].colour in c.powerColours.Values || log[k].colour in c.hrColours.Values
  }

  lemma {:induction false} RunFromTables(c: Config, s: State, readings: seq<Reading>)
    requires FromTables(c, s.emitted)
    ensures FromTables(c, Run(c, s, readings).emitted)
    decreases |readings|
  {
    if |readings| > 0 {
      var next := Deliver(c, s, readings[0]).next;
      assert FromTables(c, next.emitted) by {
        forall k | 0 <= k < |s.emitted|
          ensures next.emitted[k] == s.emitted[k]
        {
        }
      }
      RunFromTables(c, next, readings[1..]);
    }
  }

  /** No reading among these reaches the power colour table. */
  ghost predicate NoPowerColour(c: Config, readings: seq<Reading>) {
    forall k :: 0 <= k < |readings| && readings[k].PowerData? ==> PowerColour(c, readings[k].data).Err?
  }

  /** There is no way back to power mode but a power reading: without one the
      monitor stays in heart-rate mode, and nothing it emits flashes. */
  lemma {:induction false} HeartRateModeHolds(c: Config, s: State, readings: seq<Reading>)
    requires !s.power && NoPowerColour(c, readings)
    ensures !Run(c, s, readings).power
    ensures forall k :: |s.emitted| <= k < |Run(c, s, readings).emitted| ==> !Run(c, s, readings).emitted[k].flash
    decreases |readings|
  {
    if |readings| > 0 {
      var next := Deliver(c, s, readings[0]).next;
      assert NoPowerColour(c, readings[1..]) by {
        forall k | 0 <= k < |readings| - 1 && readings[1..][k].PowerData?
          ensures PowerColour(c, readings[1..][k].data).Err?
        {
          assert readings[1..][k] == readings[k + 1];
        }
      }
      HeartRateModeHolds(c, next, readings[1..]);
      var log := Run(c, s, readings).emitted;
      forall k | |s.emitted| <= k < |log|
        ensures !log[k].flash
      {
        if k < |next.emitted| {
          assert log[k] == next.emitted[k];
        }
      }
    }
  }

  /** Until the first power reading, every heart-rate reading that decodes
      and is in its table fails with TypeError, and the LEDs stay dark: a
      monitor that never hears its power meter never lights anything. */
  lemma {:induction false} DarkWithoutPower(c: Config, s: State, readings: seq<Reading>)
    requires s.power && s.powerLastUpdate.None? && NoPowerColour(c, readings)
    ensures Run(c, s, readings).emitted == s.emitted
    ensures Run(c, s, readings).power && Run(c, s, readings).powerLastUpdate.None?
    ensures forall k :: 0 <= k < |readings| && readings[k].HeartRateData? && HeartRateColour(c, readings[k].data).Ok? ==>
      Deliver(c, Run(c, s, readings[..k]), readings[k]).outcome == Raised(TypeError)
    decreases |readings|
  {
    if |readings| > 0 {
      var next := Deliver(c, s, readings[0]).next;
      assert NoPowerColour(c, readings[1..]) by {
        forall k | 0 <= k < |readings| - 1 && readings[1..][k].PowerData?
          ensures PowerColour(c, readings[1..][k].data).Err?
        {
          assert readings[1..][k] == readings[k + 1];
        }
      }
      DarkWithoutPower(c, next, readings[1..]);
      forall k | 0 <= k < |readings| && readings[k].HeartRateData? && HeartRateColour(c, readings[k].data).Ok?
        ensures Deliver(c, Run(c, s, readings[..k]), readings[k]).outcome == Raised(TypeError)
      {
        if k == 0 {
          assert Run(c, s, readings[..k]) == s;
        } else {
          assert readings[..k][1..] == readings[1..][..k - 1] by {
            forall j | 0 <= j < k - 1
              ensures readings[..k][1..][j] == readings[1..][..k - 1][j]
            {
              assert readings[..k][1..][j] == readings[j + 1];
            }
          }
          assert Run(c, s, readings[..k]) == Run(c, next, readings[1..][..k - 1]);
          assert readings[1..][k - 1] == readings[k];
        }
      }
    }
  }

  /** The monitor object: the fields on_power_data and on_hr_data read and
      write, with the LED callback's calls kept as a log. */
  class Monitor {
    const colormappingPower: map<int, Colour>
    const colormappingHr: map<int, Colour>
    const timeDelay: int
    var power: bool
    var powerLastUpdate: Option<int>
    var hrLastUpdate: Option<int>
    var emitted: seq<Emission>

    function Configuration(): Config {
      Config(colormappingPower, colormappingHr, timeDelay)
    }

    function Snapshot(): State
      reads this
    {
      State(power, powerLastUpdate, hrLastUpdate, emitted)
    }

    constructor (colormappingPower: map<int, Colour>, colormappingHr: map<int, Colour>, timeDelay: int)
      ensures Configuration() == Config(colormappingPower, colormappingHr, timeDelay)
      ensures Snapshot() == Initial
    {
      this.colormappingPower := colormappingPower;
      this.colormappingHr := colormappingHr;
      this.timeDelay := timeDelay;
      power := true;
      powerLastUpdate := None;
      hrLastUpdate := None;
      emitted := [];
    }

    method OnPowerData(data: seq<Byte>, now: int) returns (outcome: Outcome)
      modifies this
      ensures Step(outcome, Snapshot()) == PowerStep(Configuration(), old(Snapshot()), data, now)
    {
      var reading := DecodePower(data);
      if reading.Err? {
        return Raised(reading.error);
      }
      if reading.value !in colormappingPower {
        return Raised(KeyError);
      }
      var colour := colormappingPower[reading.value];
      powerLastUpdate := Some(now);
      if !power {
        power := true;
        emitted := emitted + [Emission(colour, true)];
      } else {
        emitted := emitted + [Emission(colour, false)];
      }
      return Handled;
    }

    method OnHeartRateData(data: seq<Byte>, now: int) returns (outcome: Outcome)
      modifies this
      ensures Step(outcome, Snapshot()) == HeartRateStep(Configuration(), old(Snapshot()), data, now)
    {
      var reading := DecodeHeartRate(data);
      if reading.Err? {
        return Raised(reading.error);
      }
      if reading.value !in colormappingHr {
        return Raised(KeyError);
      }
      var colour := colormappingHr[reading.value];
      hrLastUpdate := Some(now);
      if power {
        if powerLastUpdate.None? {
          return Raised(TypeError);
        }
        if now - powerLastUpdate.value > timeDelay {
          emitted := emitted + [Emission(colour, true)];
          power := false;
        }
      } else {
        emitted := emitted + [Emission(colour, false)];
      }
      return Handled;
    }
  }

  /** Monitor.__init__ past its configuration reading: build the power and
      heart-rate tables from their boundaries, raising the IndexError of a
      table that cannot be built, and start in power mode with no reading. */
  method NewMonitor(zonesPower: seq<int>, zonesHr: seq<int>, timeDelay: int) returns (r: Result<Monitor>)
    ensures r.Ok? <==> DiscreteZones.Table(zonesPower).Ok? && DiscreteZones.Table(zonesHr).Ok?
    ensures r.Err? ==> r.error == IndexError
    ensures r.Ok? ==> fresh(r.value)
    ensures r.Ok? ==>
      r.value.Configuration() == Config(DiscreteZones.Table(zonesPower).value, DiscreteZones.Table(zonesHr).value, timeDelay)
    ensures r.Ok? ==> r.value.Snapshot() == Initial
  {
    var powerTable := DiscreteZones.BuildTable(zonesPower);
    var hrTable := DiscreteZones.BuildTable(zonesHr);
    DiscreteZones.TableFails(zonesPower);
    DiscreteZones.TableFails(zonesHr);
    if powerTable.Err? {
      return Err(powerTable.error);
    }
    if hrTable.Err? {
      return Err(hrTable.error);
    }
    var monitor := new Monitor(powerTable.value, hrTable.value, timeDelay);
    return Ok(monitor);
  }
}
