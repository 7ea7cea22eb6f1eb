/**
  The thermometer's measurement cycle: `getReading` writes the measurement
  command, reads one frame and converts it; `temperatureCallback` turns one
  reading into two tagged gauge observations. A fatal error ends the process,
  so a failed exchange yields no reading and the callback observes nothing.
 */
module Thermometer {
  import opened Wrappers
  import opened Sht31
  import opened I2c
  import opened Telemetry

  const ReadTypeKey: string := "read.type"
  const TemperatureAttribute: Attribute := Attribute(ReadTypeKey, "temperature (F)")
  const HumidityAttribute: Attribute := Attribute(ReadTypeKey, "humidity (RH)")

  /** The transfers one exchange attempts: the command, then the read only if
      the command was acknowledged. */
  function ExchangeTransfers(acksWrite: bool): (ts: seq<Transfer>)
    ensures |ts| == if acksWrite then 2 else 1
    ensures ts[0] == Write([0x2C, 0x06])
    ensures acksWrite ==> ts[1] == Read(6)
  {
    [Write(MeasureCommand)] + if acksWrite then [Read(FrameLength)] else []
  }

  /** The outcome of one exchange with a device that acknowledges the command
      or not and answers the read with `reply`. */
  function Exchange(acksWrite: bool, reply: Option<seq<byte>>): (r: Result<Reading, IoError>)
    ensures !acksWrite ==> r == Err(WriteFailed)
    ensures acksWrite ==> (r.Ok? <==> reply.Some? && |reply.value| == FrameLength)
    ensures r.Ok? ==> -49.0 <= r.value.temperatureF <= 266.0 && 0.0 <= r.value.humidityRH <= 100.0
  {
    if !acksWrite then Err(WriteFailed)
    else if reply.Some? && |reply.value| == FrameLength then Ok(Decode(reply.value))
    else Err(ReadFailed)
  }

  /** The reply's CRC bytes never change the outcome of an exchange. */
  lemma ExchangeIgnoresCrc(acksWrite: bool, f: Frame, g: Frame)
    requires SameData(f, g)
    ensures Exchange(acksWrite, Some(f)) == Exchange(acksWrite, Some(g))
  {
  }

  /** One measurement: write the command, read a frame into a fresh six-byte
      buffer, decode temperature from bytes 0-1 and humidity from bytes 3-4. */
  method GetReading(bus: Bus) returns (r: Result<Reading, IoError>)
    modifies bus`transfers
    ensures bus.transfers == old(bus.transfers) + ExchangeTransfers(bus.acksWrite)
    ensures r == Exchange(bus.acksWrite, bus.reply)
  {
    var wbuf := MeasureCommand;
    var wlen, wErr := bus.WriteBytes(wbuf);
    if wErr.Some? {
      return Err(wErr.value);
    }

    var rbuf := new byte[FrameLength];
    var rlen, readErr := bus.ReadBytes(rbuf);
    if readErr.Some? {
      return Err(readErr.value);
    }

    var ftemp := TemperatureF(BigEndian16(rbuf[0], rbuf[1]));
    var humidity := HumidityRH(BigEndian16(rbuf[3], rbuf[4]));
    r := Ok(Reading(ftemp, humidity));
  }

  /** The observations one callback invocation makes when `getReading` yields `r`. */
  function CycleObservations(r: Result<Reading, IoError>): (obs: seq<Observation>)
    ensures |obs| == if r.Ok? then 2 else 0
  {
    match r
    case Ok(reading) =>
      [Observation(reading.temperatureF, TemperatureAttribute),
       Observation(reading.humidityRH, HumidityAttribute)]
    case Err(_) => []
  }

  /** One collection callback: one reading, then temperature and humidity observed in that order. */
  method TemperatureCallback(bus: Bus, result: ObserverResult) returns (fatal: Option<IoError>)
    modifies bus`transfers, result
    ensures bus.transfers == old(bus.transfers) + ExchangeTransfers(bus.acksWrite)
    ensures result.observations
         == old(result.observations) + CycleObservations(Exchange(bus.acksWrite, bus.reply))
    ensures fatal.Some? <==> Exchange(bus.acksWrite, bus.reply).Err?
  {
    var reading := GetReading(bus);
    if reading.Err? {
      return Some(reading.error);
    }
    result.Observe(reading.value.temperatureF, TemperatureAttribute);
    result.Observe(reading.value.humidityRH, HumidityAttribute);
    fatal := None;
  }

  /** How many leading callback invocations complete before the first fatal error. */
  function Completed(cycles: seq<Result<Reading, IoError>>): (n: nat)
    ensures n <= |cycles|
    ensures forall i :: 0 <= i < n ==> cycles[i].Ok?
    ensures n < |cycles| ==> cycles[n].Err?
  {
    if cycles == [] || cycles[0].Err? then 0 else 1 + Completed(cycles[1..])
  }

  /** The observations a process exports when its successive callback
      invocations see these `getReading` outcomes; the first failure ends it.
      Every completed invocation contributes exactly two observations. */
  function Run(cycles: seq<Result<Reading, IoError>>): (obs: seq<Observation>)
    ensures |obs| == 2 * Completed(cycles)
  {
    if cycles == [] || cycles[0].Err? then [] else CycleObservations(cycles[0]) + Run(cycles[1..])
  }

  /** A single invocation exports exactly what the callback observes. */
  lemma RunSingle(r: Result<Reading, IoError>)
    ensures Run([r]) == CycleObservations(r)
  {
  }

  /** Observations come in pairs, temperature then humidity, both from the same reading. */
  lemma {:induction false} RunPairs(cycles: seq<Result<Reading, IoError>>, i: nat)
    requires i < Completed(cycles)
    ensures 2 * i + 1 < |Run(cycles)|
    ensures Run(cycles)[2 * i] == Observation(cycles[i].value.temperatureF, TemperatureAttribute)
    ensures Run(cycles)[2 * i + 1] == Observation(cycles[i].value.humidityRH, HumidityAttribute)
  {
    if i > 0 {
      RunPairs(cycles[1..], i - 1);
    }
  }

  /** Nothing is observed after the first fatal error. */
  lemma {:induction false} RunStopsAtFailure(cycles: seq<Result<Reading, IoError>>, later: seq<Result<Reading, IoError>>)
    requires Completed(cycles) < |cycles|
    ensures Run(cycles + later) == Run(cycles[..Completed(cycles)])
  {
    if cycles[0].Ok? {
      assert (cycles + later)[1..] == cycles[1..] + later;
      assert cycles[..Completed(cycles)][1..] == cycles[1..][..Completed(cycles[1..])];
      RunStopsAtFailure(cycles[1..], later);
    }
  }

  /** Successive invocations that all succeed export their observations in order. */
  lemma {:induction false} RunAppend(first: seq<Result<Reading, IoError>>, next: seq<Result<Reading, IoError>>)
    requires Completed(first) == |first|
    ensures Run(first + next) == Run(first) + Run(next)
  {
    if first != [] {
      assert first[0].Ok? && (first + next)[0] == first[0];
      assert (first + next)[1..] == first[1..] + next;
      RunAppend(first[1..], next);
    } else {
      assert first + next == next;
    }
  }
}
