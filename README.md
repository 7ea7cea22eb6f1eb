# SHT31-D thermometer: measurement exchange and gauge callback

This project models the core of a Raspberry Pi thermometer. The thermometer reads an
SHT31-D humidity/temperature sensor over I2C and publishes the values as
OpenTelemetry gauge observations. The model follows `pi-zero/main.go` in five modules:

- `Wrappers` (`wrappers.dfy`): `Option` and `Result`.
- `Sht31` (`sht31.dfy`): the wire protocol, as pure functions.
  - The measurement command `0x2C 0x06`.
  - The six-byte frame: temperature msb, lsb, CRC, then humidity msb, lsb, CRC.
  - The big-endian raw values.
  - The sensor's linear transfer functions to °F, °C and %RH, computed exactly over `real`.
- `I2c` (`i2c.dfy`): the connection the program keeps in its global `i2cConn`.
  - It is a class that logs every attempted transfer.
  - It holds the device's behaviour as data: whether the device acknowledges each write, and what it answers each read with.
  - `ReadBytes` fills the caller's array in place.
- `Telemetry` (`telemetry.dfy`): the observer result that the callback observes into. It keeps a log of observations.
- `Thermometer` (`thermometer.dfy`): `getReading` and `temperatureCallback` as methods.
  - The pure specifications `Exchange`, `ExchangeTransfers` and `CycleObservations` state what one call does.
  - `Run` and `Completed` describe a sequence of callback invocations. The first fatal error ends that sequence.

`common.ErrorHandler(err, true)` is taken to terminate the process, so the model treats it as "stop, no result":
- A failed write returns `Err(WriteFailed)` before any read is attempted.
- A failed read returns `Err(ReadFailed)`.
- In both cases the callback observes nothing.

`Sht31.ReferenceFrame` pins the values the formulas at `pi-zero/main.go:96-97` give for one sample frame, `0x66 0x82 _ 0x6D 0x2C _`: about 77.13 °F and 42.65 %RH.

## Model

| member | source | states |
|---|---|---|
| Sht31.BigEndian16 | pi-zero/main.go:96-97 | the raw value is below 65536, and its high and low bytes are exactly the msb and lsb it was built from |
| Sht31.RawTemperature | pi-zero/main.go:96 | raw temperature is frame bytes 0 (high) and 1 (low) |
| Sht31.RawHumidity | pi-zero/main.go:97 | raw humidity is frame bytes 3 (high) and 4 (low) |
| Sht31.TemperatureF | pi-zero/main.go:96 | the Fahrenheit value of any 16-bit raw reading lies in [-49, 266] |
| Sht31.TemperatureC | pi-zero/main.go:91 | the commented Celsius value lies in [-45, 130] |
| Sht31.HumidityRH | pi-zero/main.go:97 | relative humidity of any 16-bit raw reading lies in [0, 100] |
| Sht31.Decode | pi-zero/main.go:81-97 | a six-byte frame decodes to a reading with temperature in [-49, 266] °F and humidity in [0, 100] %RH |
| Sht31.BigEndian16Injective | pi-zero/main.go:96-97 | two byte pairs give the same raw value if and only if they are equal |
| Sht31.TemperatureEndpoints | pi-zero/main.go:96 | raw 0x0000 gives -49 °F and raw 0xFFFF gives 266 °F |
| Sht31.HumidityEndpoints | pi-zero/main.go:97 | raw 0x0000 gives 0 %RH and raw 0xFFFF gives 100 %RH |
| Sht31.TemperatureIncreasing | pi-zero/main.go:96 | temperature is strictly increasing in the raw value, in both directions of the iff |
| Sht31.HumidityIncreasing | pi-zero/main.go:97 | humidity is strictly increasing in the raw value, in both directions of the iff |
| Sht31.FahrenheitIsConvertedCelsius | pi-zero/main.go:91-92 | the Fahrenheit formula equals the commented Celsius formula followed by C*9/5 + 32 |
| Sht31.SameReadingIffSameData | pi-zero/main.go:81-97 | two frames decode to the same reading if and only if bytes 0, 1, 3 and 4 agree, so the CRC bytes 2 and 5 never matter and every data byte does |
| Sht31.ReferenceFrame | pi-zero/main.go:96-97 | frame 0x66 0x82 _ 0x6D 0x2C _ reads between 77.13 and 77.14 °F and between 42.64 and 42.65 %RH, whatever its CRC bytes |
| I2c.Bus.WriteBytes | pi-zero/main.go:75 | the write is logged; it succeeds with the whole buffer written exactly when the device acknowledges it |
| I2c.Bus.ReadBytes | pi-zero/main.go:82-83 | the read is logged; on success the array holds the device's reply byte for byte, on failure it is untouched |
| Telemetry.ObserverResult.Observe | pi-zero/main.go:66-67 | the observation, with its attribute, is appended to the result's log |
| Thermometer.ExchangeTransfers | pi-zero/main.go:74-86 | an exchange writes 0x2C 0x06 first and reads 6 bytes second, and reads only if the write succeeded |
| Thermometer.Exchange | pi-zero/main.go:71-99 | a failed write gives WriteFailed whatever the device would answer; after a good write a reading exists exactly when the device answers six bytes, and it is in range |
| Thermometer.ExchangeIgnoresCrc | pi-zero/main.go:81-97 | replies that differ only in their CRC bytes give the same exchange outcome |
| Thermometer.GetReading | pi-zero/main.go:71-100 | the transfers performed are exactly those of ExchangeTransfers, in order, and the result is Exchange's for the device's behaviour |
| Thermometer.CycleObservations | pi-zero/main.go:64-67 | a successful reading yields exactly two observations and a failed one none |
| Thermometer.TemperatureCallback | pi-zero/main.go:64-69 | one reading is taken; on success temperature then humidity are appended under their read.type tags; on failure nothing is observed and the error is reported as fatal |
| Thermometer.Completed | pi-zero/main.go:76-86 | the number of invocations before the first fatal error: all of them succeeded and the next one, if any, failed |
| Thermometer.Run | pi-zero/main.go:64-86 | the observations exported across successive callback invocations, which end at the first fatal error; exactly two per completed invocation |
| Thermometer.RunSingle | pi-zero/main.go:64-67 | a single invocation exports exactly the callback's observations for its reading |
| Thermometer.RunPairs | pi-zero/main.go:64-67 | observations 2i and 2i+1 are the temperature and humidity of the i-th reading, in that order, so values are never mixed across cycles |
| Thermometer.RunStopsAtFailure | pi-zero/main.go:76-86 | nothing is observed from the first fatal error on, whatever would have followed |
| Thermometer.RunAppend | pi-zero/main.go:64-67 | the observations of successive successful invocations are exported in invocation order |

## Left out

- Sht31.TemperatureF: computed over exact reals. The program computes in `float32`, where `65535*315` exceeds 2^24, so its results can differ from the exact value by rounding.
- Sht31.HumidityRH: computed over exact reals, not `float32`. The widening to `float64` on return is not modelled either.
- `main` is not modelled: it opens the I2C device at address 0x44 on bus 1, defers `Close`, starts the `readTemperature` goroutine and serves the `/healthcheck` endpoint with gin. These are I/O, concurrency and foreign library calls.
- `readTemperature` is not modelled: it registers the gauge observer with OpenTelemetry. OpenTelemetry provider start-up and shutdown are left out too.
- `pkg/common/config.go` is not part of this model. It reads environment variables and builds the OpenTelemetry providers.
- `common.ErrorHandler` is not among the files. A fatal call is modelled as ending the exchange with an error and ending the run of callbacks, and its logging is left out.
- `log.Infof` calls are left out, and with them the byte counts `wlen` and `rlen`, which are only logged.
- `time.Sleep(5 * time.Second)` at the end of the callback is left out. It follows the two observations; wall-clock time is not modelled, so the quiescent period between reads is not stated.
- I2C semantics are not modelled: addressing, clock stretching and the kernel driver. A reply whose length differs from the buffer's is modelled as a failed read. A read that reports success with fewer bytes, which the program would not notice, is not modelled.
- Invocation of the callback by the metrics collector is not modelled: `Run` describes a sequence of invocations, but no collector loop is modelled.
