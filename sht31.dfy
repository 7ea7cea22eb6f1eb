/**
  The SHT31-D wire protocol as the thermometer uses it: the single-shot
  measurement command, the six-byte response frame, the big-endian raw
  channel values and the sensor's linear transfer functions.

  Arithmetic is exact (`real`); the program computes in `float32`.
 */
module Sht31 {

  newtype byte = x: int | 0 <= x < 256

  /** A raw 16-bit channel reading. */
  type Raw16 = x: int | 0 <= x < 0x1_0000

  /** Largest raw value, the divisor of both transfer functions. */
  const RawMax: Raw16 := 0xFFFF

  /** Single shot, repeatable precision, clock stretching: command msb then lsb. */
  const MeasureCommand: seq<byte> := [0x2C, 0x06]

  /** Temperature msb, lsb, CRC, humidity msb, lsb, CRC. */
  const FrameLength: nat := 6

  type Frame = f: seq<byte> | |f| == FrameLength witness [0, 0, 0, 0, 0, 0]

  /** One measurement in engineering units. */
  datatype Reading = Reading(temperatureF: real, humidityRH: real)

  /** The 16-bit value whose most significant byte is `msb`. */
  function BigEndian16(msb: byte, lsb: byte): (r: Raw16)
    ensures r / 256 == msb as int && r % 256 == lsb as int
  {
    msb as int * 256 + lsb as int
  }

  /** Raw temperature: frame bytes 0 and 1. */
  function RawTemperature(f: Frame): (r: Raw16)
    ensures r / 256 == f[0] as int && r % 256 == f[1] as int
  {
    BigEndian16(f[0], f[1])
  }

  /** Raw humidity: frame bytes 3 and 4. */
  function RawHumidity(f: Frame): (r: Raw16)
    ensures r / 256 == f[3] as int && r % 256 == f[4] as int
  {
    BigEndian16(f[3], f[4])
  }

  /** Temperature in degrees Fahrenheit, as the program computes it. */
  function TemperatureF(raw: Raw16): (t: real)
    ensures -49.0 <= t <= 266.0
  {
    (raw as real * 315.0) / RawMax as real - 49.0
  }

  /** Temperature in degrees Celsius, the formula kept in the program's comment. */
  function TemperatureC(raw: Raw16): (t: real)
    ensures -45.0 <= t <= 130.0
  {
    (raw as real * 175.0) / RawMax as real - 45.0
  }

  function CelsiusToFahrenheit(c: real): real
  {
    c * 9.0 / 5.0 + 32.0
  }

  /** Relative humidity in percent. */
  function HumidityRH(raw: Raw16): (h: real)
    ensures 0.0 <= h <= 100.0
  {
    raw as real * 100.0 / RawMax as real
  }

  /** The reading a frame stands for; the CRC bytes 2 and 5 are not consulted. */
  function Decode(f: Frame): (r: Reading)
    ensures -49.0 <= r.temperatureF <= 266.0
    ensures 0.0 <= r.humidityRH <= 100.0
  {
    Reading(TemperatureF(RawTemperature(f)), HumidityRH(RawHumidity(f)))
  }

  /** The bytes of the frame that carry data, as opposed to CRC. */
  predicate SameData(f: Frame, g: Frame)
  {
    f[0] == g[0] && f[1] == g[1] && f[3] == g[3] && f[4] == g[4]
  }

  lemma BigEndian16Injective(m1: byte, l1: byte, m2: byte, l2: byte)
    ensures BigEndian16(m1, l1) == BigEndian16(m2, l2) <==> m1 == m2 && l1 == l2
  {
  }

  lemma TemperatureEndpoints()
    ensures TemperatureF(0) == -49.0 && TemperatureF(RawMax) == 266.0
  {
  }

  lemma HumidityEndpoints()
    ensures HumidityRH(0) == 0.0 && HumidityRH(RawMax) == 100.0
  {
  }

  /** The temperature transfer function is strictly increasing, both ways. */
  lemma TemperatureIncreasing(a: Raw16, b: Raw16)
    ensures a < b <==> TemperatureF(a) < TemperatureF(b)
  {
  }

  /** The humidity transfer function is strictly increasing, both ways. */
  lemma HumidityIncreasing(a: Raw16, b: Raw16)
    ensures a < b <==> HumidityRH(a) < HumidityRH(b)
  {
  }

  /** The Fahrenheit formula is the Celsius formula followed by C*9/5 + 32. */
  lemma FahrenheitIsConvertedCelsius(raw: Raw16)
    ensures CelsiusToFahrenheit(TemperatureC(raw)) == TemperatureF(raw)
  {
  }

  /** Two frames decode to the same reading exactly when their data bytes agree:
      the CRC bytes never matter, and every data byte does. */
  lemma SameReadingIffSameData(f: Frame, g: Frame)
    ensures Decode(f) == Decode(g) <==> SameData(f, g)
  {
  }

  /** The frame 0x66 0x82 _ 0x6D 0x2C _ reads about 77.13 F and 42.65 %RH. */
  lemma ReferenceFrame(crcT: byte, crcH: byte)
    ensures var r := Decode([0x66, 0x82, crcT, 0x6D, 0x2C, crcH]);
            77.13 < r.temperatureF < 77.14 && 42.64 < r.humidityRH < 42.65
  {
  }
}
