# Caelum Lite sensor core and persistent log, in Dafny

This project models the sensor acquisition core of the Caelum Lite ESP32
weather-station firmware, and its circular persistent log, and proves
properties of the model. It covers four parts:

- **BMP280 driver** (`Bmp280`): pressure and temperature.
  - Init probes bus address 0x76, then 0x77. It checks the chip ID (0x58)
    and reads the 24-byte calibration burst.
  - The trigger writes the forced-mode control byte 0x25 to register 0xF4.
  - The 6-byte data burst holds two 20-bit ADC values.
  - The datasheet's floating-point compensation turns those into °C and hPa.
  - `t_fine` is stored only by the temperature read.
- **AHT20 driver** (`Aht20`): humidity and temperature.
  - Init is a one-byte presence probe at 0x38.
  - The trigger sends the measurement command {0xAC, 0x33, 0x00}. It waits
    80 ms only when that write succeeded.
  - A 6-byte frame holds a status byte, 20 bits of humidity and 20 bits of
    temperature.
- **Sensor manager** (`SensorIf`):
  - It detects a BME280, or else an AHT20 with a BMP280.
  - It records the result in `detected`.
  - It routes the wake and read operations to the drivers of the detected
    stack. In pair mode, temperature falls back from the AHT20 to the BMP280.
- **Persistent log** (`PersistentLog`):
  - Up to 1000 entries are kept in an NVS namespace under the keys
    `log_0` … `log_999`, and their count under `count`.
  - The slot is the count modulo 1000.
  - The dump prints the last min(count, 1000) entries, oldest first.

## How the model is built

All bus traffic goes through `Platform.World`. Its `trace` is the ordered
list of every external call:
- device create and delete,
- burst read and write,
- bus scan,
- task delay,
- call into the BME280 wrapper.

The world answers each call through a constant oracle `reply`. The answer
may depend on the whole history, so a proof about any oracle covers every
behaviour of the sensors and of the transport.

Each driver operation appears in three forms:
- **A pure call-sequence function** (`…Run`): the status, the calls made
  and the value obtained, given the history so far.
- **A method on the module's state**: `Bmp280.Driver`, `Aht20.Driver` and
  `SensorIf.Manager` are classes whose fields are the C module statics
  (`s_dev`, `dig_T1..dig_P9`, `t_fine`, `detected`). Each method's
  `ensures` ties its result, its calls and its new state to the run
  function.
- **Lemmas about the run function**: these carry the properties.

A C output pointer is an `Esp.Out?<T>` cell, and a NULL pointer is `null`.
Numeric details:
- Floating-point arithmetic is modelled over the reals.
- The `(int32_t)` casts are truncation toward zero.
- The C `/` and `%` on negative `int64_t` are defined separately, because
  Dafny's operators are Euclidean.
- The C shift, or and and operators are defined bit by bit on natural
  numbers (`Bits`), with lemmas that turn the byte-packing expressions into
  arithmetic.

The log is a `Log` class over an `Nvs` namespace object. The namespace holds
two maps, one for u32 values and one for blobs. The ghost sequence `added`
holds the entries added since the log was last empty. The ring invariant
`Valid()` says that:
- the stored count is |added|;
- every entry j inside the window sits in slot j mod 1000.

`Add` preserves the invariant as long as its count write succeeds. `Clear`
establishes the invariant when its count write succeeds. Otherwise it
changes nothing and keeps the invariant if it held. The dump is proved to print exactly the window.
The constructor takes a ghost `prior`, the entries that earlier boots
added. A store holding the ring of `prior` then satisfies the invariant from
boot on.

The count write in `persistent_log_add` has an unchecked status.
- When that write fails after a successful blob write, the blob is stored
  and the count stays.
- Below 1000 entries, that slot lies outside the window. The invariant still
  holds, and the next add overwrites the entry (`RingKeepsUnseenSlot`).
- At 1000 entries or more, the oldest entry of the window is overwritten.
  The next dump shows the new entry first, in the oldest entry's place
  (`LostCountShowsNewestFirst`).

Where the firmware's comments or headers disagree with its code, the model
follows the code:

- The header of main/persistent_log.c says the log keeps up to 50 entries.
  The code keeps 1000.
- `persistent_log_dump_and_clear` and its declaration promise to clear. The
  code neither resets the count nor deletes a slot. `Log.DumpAndClear`
  changes nothing, which its empty frame shows.
- main/sensor_if.h says that `sensor_read_humidity` and
  `sensor_read_pressure` return ESP_ERR_NOT_SUPPORTED when the sensor does
  not provide the quantity. With no sensor detected, main/sensor_if.c
  returns ESP_ERR_NOT_FOUND (`SensorIf.NoSensorNotFound`).
- main/sensor_if.h describes the three reads as reading the last measured
  value. In pair mode each read in the code triggers and waits for a new
  conversion through the AHT20 and BMP280 drivers (their sample runs).

Two further facts about the code:
- `sensor_init` (main/sensor_if.c:33-58) never assigns `detected` when
  detection fails. After a failed re-detection, the previous type is still
  reported.
- main/aht20.c:88 converts the full-scale temperature reading 0xFFFFF to
  about 149.9998 °C. `Aht20.ConversionEnds` proves the bound.

## Model

| member | source | states |
|---|---|---|
| Bits.OrShifted | main/bmp280.c:103 | or-ing a value smaller than 2^k into a value shifted left by k bits is addition, the basis of every byte assembly in the drivers |
| Bits.Pack20 | main/bmp280.c:123-124 | (a << 12) \| (b << 4) \| (c >> 4) of three bytes is a·4096 + b·16 + c/16, below 2^20 |
| Bits.AndLowMask | main/aht20.c:84 | x & (2^k − 1) is x mod 2^k |
| Bmp280.CtrlMeas | main/bmp280.c:103 | (osrs_t << 5) \| (osrs_p << 2) \| mode equals osrs_t·32 + osrs_p·4 + mode, for 3-bit fields and a 2-bit mode |
| Bmp280.ForcedModeCtrlFields | main/bmp280.c:102-103 | the control byte is 0x25, and its fields decode to oversampling ×1 for temperature and pressure and forced mode |
| Bmp280.Word | main/bmp280.c:49-60 | (hi << 8) \| lo is the little-endian word lo + 256·hi |
| Bmp280.ToI16 | main/bmp280.c:50 | the int16_t cast keeps the 16-bit pattern (equal modulo 2^16) and is negative exactly when bit 15 is set |
| Bmp280.ParseCoefficient | main/bmp280.c:49-60 | coefficient i is the word in bytes 2i and 2i+1: unsigned for dig_T1 and dig_P1, two's complement for the other ten |
| Bmp280.CalibrationRoundTrip | main/bmp280.c:49-60 | parsing the burst a chip sends for any coefficient set returns that set (coefficient by coefficient, through the helper `CoefficientsDetermine`) |
| Bmp280.CalibrationBytesRoundTrip | main/bmp280.c:49-60 | re-encoding the parsed coefficients gives the burst back, so parsing loses nothing |
| Bmp280.Adc20 | main/bmp280.c:123-124 | the shift/or assembly equals msb·4096 + lsb·16 + xlsb/16 and is below 2^20 |
| Bmp280.UnpackRaw | main/bmp280.c:123-124 | both raw values of the data burst are below 2^20 |
| Bmp280.RawRoundTrip | main/bmp280.c:123-124 | unpacking the burst of any pair of 20-bit values returns the pair |
| Bmp280.UnpackIgnoresLowNibbles | main/bmp280.c:123-124 | the low nibbles of bytes 2 and 5 do not affect the raw values |
| Bmp280.UnpackInjective | main/bmp280.c:123-124 | bursts that agree outside those nibbles are the only ones with equal raw values |
| Bmp280.TruncToInt | main/bmp280.c:139 | the (int32_t) cast truncates toward zero, for both signs |
| Bmp280.FineTemperatureBounded | main/bmp280.c:136-139 | for any 20-bit sample and any coefficients, var1 + var2 lies within ±2^22, so t_fine fits int32_t |
| Bmp280.PressureGuard | main/bmp280.c:163-164 | pressure has no value exactly when the denominator (1 + var1/32768)·dig_P1 is zero, which dig_P1 = 0 always causes |
| Bmp280.DatasheetExample | main/bmp280.c:136-172 | with the datasheet's calibration, t_fine is 128422, the temperature is in [25.08, 25.09) °C and the pressure in [1006.53, 1006.54) hPa |
| Bmp280.ProbeAcceptance | main/bmp280.c:68-80 | an address is accepted iff its handle is created, the ID read succeeds with 0x58 and the calibration read succeeds; the accepted coefficients are those of that burst; a rejection is not-found |
| Bmp280.ProbeHandleDiscipline | main/bmp280.c:68-93 | a probe starts with the create and addresses only its own address; a created but rejected handle is deleted last; an accepted one is never deleted |
| Bmp280.InitNullBus | main/bmp280.c:66 | a NULL bus gives invalid-arg and makes no call |
| Bmp280.InitProbeOrder | main/bmp280.c:64-97 | 0x76 is probed first and 0x77 only after 0x76 is rejected; no other address is used; OK iff one is accepted, else not-found |
| Bmp280.InitDevice | main/bmp280.c:68-96 | a successful init commits the device of the accepted address: 0x76 when its probe succeeded, 0x77 otherwise |
| Bmp280.TriggerWritesForcedMode | main/bmp280.c:99-105 | with no device: not-found and no call; otherwise exactly one write of [0x25] to 0xF4, whose status is returned |
| Bmp280.ReadRawErrors | main/bmp280.c:107-126 | a sample exists iff OK; no device gives not-found with no call; a failed trigger is returned and no read is made; otherwise trigger, 15 ms delay, 6-byte read at 0xF7, whose status is returned |
| Bmp280.TemperatureErrors | main/bmp280.c:128-142 | the temperature read has the raw read's status and calls, and its value is the compensated temperature of that sample |
| Bmp280.PressureErrors | main/bmp280.c:144-174 | a sample with a zero denominator gives invalid-state; other failures are the raw read's; a success is the compensated pressure of the sample's own adc_P and t_fine |
| Bmp280.Driver.constructor | main/bmp280.c:25-41 | no device, coefficients zero, t_fine zero |
| Bmp280.Driver.ReadCalibration | main/bmp280.c:43-62 | one 24-byte read at 0x88; on success the coefficients are the parsed burst, otherwise unchanged and the status is returned |
| Bmp280.Driver.TryAddress | main/bmp280.c:68-80 | performs the probe of one address; s_dev and the coefficients change only on acceptance |
| Bmp280.Driver.Init | main/bmp280.c:64-97 | performs the init run; s_dev and the coefficients are committed from the accepted probe, otherwise unchanged |
| Bmp280.Driver.TriggerMeasurement | main/bmp280.c:99-105 | performs the trigger run on s_dev |
| Bmp280.Driver.ReadRaw | main/bmp280.c:107-126 | a NULL output gives invalid-arg with no call and no write; otherwise the raw-read run, with the outputs written only on success |
| Bmp280.Driver.ReadTemperature | main/bmp280.c:128-142 | a NULL output gives invalid-arg; otherwise on success *out_c is T/5120 and t_fine is (int32_t)T of the sample; on failure both are unchanged |
| Bmp280.Driver.ReadPressure | main/bmp280.c:144-174 | a NULL output gives invalid-arg; otherwise the pressure run, *out_hpa written only on success, t_fine never assigned |
| Aht20.HumidityRaw | main/aht20.c:83 | the shift/or assembly equals b1·4096 + b2·16 + b3/16 and is below 2^20 |
| Aht20.TemperatureRaw | main/aht20.c:84 | the shift/and/or assembly equals (b3 mod 16)·65536 + b4·256 + b5 and is below 2^20 |
| Aht20.Decode | main/aht20.c:83-84 | both readings of any frame are below 2^20 |
| Aht20.DecodeEncode | main/aht20.c:83-84 | packing any two 20-bit readings into a frame and decoding returns them |
| Aht20.EncodeDecode | main/aht20.c:83-84 | the status byte and the two readings determine the frame, so decoding loses nothing in bytes 1..5 |
| Aht20.HumidityPercent | main/aht20.c:87 | the humidity of a 20-bit reading is in [0, 100) and equals reading·100/2^20 exactly |
| Aht20.TemperatureC | main/aht20.c:88 | the temperature of a 20-bit reading is in [−50, 150) and equals reading·200/2^20 − 50 exactly |
| Aht20.ConversionsIncreasing | main/aht20.c:87-88 | both conversions are strictly increasing in the reading |
| Aht20.ConversionEnds | main/aht20.c:87-88 | an all-zero payload gives 0 % and −50 °C; an all-ones payload gives readings 2^20−1, in [99.9999, 100) % and [149.9998, 149.9999) °C |
| Aht20.InitAcceptance | main/aht20.c:19-44 | a NULL bus gives invalid-arg with no call; otherwise OK iff the handle is created and the one-byte read succeeds, whatever the byte is; a failed create gives not-found after the create alone; a failed probe deletes the handle; only 0x38 is addressed |
| Aht20.TriggerWaitsOnlyOnSuccess | main/aht20.c:46-59 | no device gives not-found with no call; otherwise the command {0xAC, 0x33, 0x00} is written without register and its status returned, followed by the 80 ms delay iff it succeeded and by nothing else |
| Aht20.SampleErrors | main/aht20.c:61-78 | a sample exists iff OK; no device gives not-found with no call; a failed trigger is returned with no read; otherwise a 6-byte read without register follows |
| Aht20.ReadsShareTheirTraffic | main/aht20.c:67-111 | the temperature and humidity reads make the same calls, with the same status, and convert the two readings of the same frame |
| Aht20.Driver.constructor | main/aht20.c:14 | no device |
| Aht20.Driver.Init | main/aht20.c:19-44 | performs the init run; s_dev is replaced on success and kept otherwise |
| Aht20.Driver.TriggerMeasurement | main/aht20.c:46-59 | performs the trigger run on s_dev |
| Aht20.Driver.ReadRaw | main/aht20.c:61-65 | no device gives not-found with no call; otherwise one 6-byte read without register phase, returning its status and bytes |
| Aht20.Driver.Acquire | main/aht20.c:72-78 | trigger followed by the raw read, as the sample run states |
| Aht20.Driver.ReadTemperature | main/aht20.c:67-93 | a NULL output gives invalid-arg before s_dev is examined; otherwise the temperature run, *out_c written only on success |
| Aht20.Driver.ReadHumidity | main/aht20.c:95-111 | a NULL output gives invalid-arg before s_dev is examined; otherwise the humidity run, *out_percent written only on success |
| SensorIf.DetectStatus | main/sensor_if.c:33-58 | detection returns OK iff it records a type, and not-found otherwise; it never records "none" |
| SensorIf.DetectPrefersBme280 | main/sensor_if.c:35-40 | a succeeding BME280 init gives BME280 and OK; neither pair driver is called or changed |
| SensorIf.DetectNeedsAht20 | main/sensor_if.c:44-48 | without BME280 and AHT20 the result is not-found, the type and both drivers are kept, and the BMP280 is never addressed |
| SensorIf.DetectPair | main/sensor_if.c:49-57 | after the AHT20 has committed its handle, a succeeding BMP280 init gives the pair and OK, and records the device on the bus's port at 0x76 if that probe was accepted and at 0x77 otherwise; a failing one gives not-found and keeps the type |
| SensorIf.DetectIgnoresScan | main/sensor_if.c:16-31 | two worlds that differ only in their scan answers detect identically (through the helper lemmas `Aht20InitIgnoresScan`, `Bmp280InitIgnoresScan` and `ProbeIgnoresScan`) |
| SensorIf.WakeBothTriggers | main/sensor_if.c:65-76 | pair mode calls both triggers, the second whatever the first returned, and gives OK iff one succeeded, else ESP_FAIL; BME280 mode delegates; "none" gives not-found with no call |
| SensorIf.TemperatureFallback | main/sensor_if.c:83-88 | in pair mode an OK AHT20 reading is returned and the BMP280 is untouched; otherwise the BMP280 result is returned as it is |
| SensorIf.HumidityRouting | main/sensor_if.c:97-98 | in pair mode humidity is exactly the AHT20 read, and every call of it but the wait is on the AHT20's device, port and address |
| SensorIf.PressureRouting | main/sensor_if.c:108-109 | in pair mode pressure is exactly the BMP280 read, and every call of it but the wait is on the BMP280's device, port and address |
| SensorIf.NoSensorNotFound | main/sensor_if.c:65-112 | with no sensor every dispatcher gives not-found and makes no call |
| SensorIf.Manager.constructor | main/sensor_if.c:10 | detected is "none" and both drivers are in their initial state |
| SensorIf.Manager.Init | main/sensor_if.c:12-58 | performs the detection run; detected, s_dev of the AHT20 and s_dev and coefficients of the BMP280 change only as the run commits them |
| SensorIf.Manager.InitPair | main/sensor_if.c:44-57 | performs the pair half of detection: the AHT20 init, then the BMP280 init only after the AHT20 answered; each driver keeps what its own init committed, and the pair is recorded only when both answered |
| SensorIf.Manager.GetType | main/sensor_if.c:60-63 | returns the recorded type |
| SensorIf.Manager.WakeAndMeasure | main/sensor_if.c:65-76 | performs the wake run on the current state |
| SensorIf.Manager.ReadBme | main/sensor_if.c:82 | one call of the BME280 wrapper; on success the output holds its value |
| SensorIf.Manager.ReadTemperature | main/sensor_if.c:78-90 | a NULL output gives invalid-arg before dispatch; otherwise the temperature run, with the BMP280's t_fine changed only by a fallback read that obtained a sample |
| SensorIf.Manager.ReadHumidity | main/sensor_if.c:92-101 | a NULL output gives invalid-arg before dispatch; otherwise the humidity run |
| SensorIf.Manager.ReadPressure | main/sensor_if.c:103-112 | a NULL output gives invalid-arg before dispatch; otherwise the pressure run |
| PersistentLog.BoundedCopy | main/persistent_log.c:72-73 | the copy is a prefix of the input: all of it if it fits, otherwise size−1 characters |
| PersistentLog.MakeEntry | main/persistent_log.c:69-73 | the entry holds the time and level, a tag of at most 15 and a message of at most 95 characters, each a prefix of the input and the whole input when short enough |
| PersistentLog.Decimal | main/persistent_log.c:77 | the key suffix is a non-empty string of decimal digits |
| PersistentLog.DecimalRoundTrip | main/persistent_log.c:77 | the decimal digits of n read back as n |
| PersistentLog.DecimalLength | main/persistent_log.c:77 | a slot index below 1000 has at most three digits |
| PersistentLog.SlotKeys | main/persistent_log.c:76-77 | slot keys are equal iff their slots are; no slot key is "count"; every key fits the 16-byte buffer |
| PersistentLog.WindowLength | main/persistent_log.c:115-116 | at most 1000 entries are read, and start + entries_to_read is the count |
| PersistentLog.VisitedSlotsDistinct | main/persistent_log.c:115-119 | the slots the dump visits (`VisitedSlots`, which `Log.DumpAndClear`'s contract walks) are min(count, 1000) slots, all below 1000, each at most once |
| PersistentLog.SlotsApart | main/persistent_log.c:66 | entries fewer than 1000 apart occupy different slots |
| PersistentLog.CRem | main/persistent_log.c:131 | the C remainder: dividend = quotient·divisor + remainder, with the remainder taking the dividend's sign |
| PersistentLog.TimestampSplit | main/persistent_log.c:130-131 | for a timestamp ≥ 0, millis is in [0, 999] and seconds·10^6 + millis·1000 ≤ ts < that + 1000; for a negative one, millis is in [−999, 0] |
| PersistentLog.DumpShowsRecent | main/persistent_log.c:115-137 | over the ring, the entries found in the first k visited slots are the k oldest entries of the window, in insertion order |
| PersistentLog.DumpWholeWindow | main/persistent_log.c:115-137 | over the ring, the entries found in all visited slots are the last min(count, 1000) entries added, in insertion order |
| PersistentLog.RingKeepsUnseenSlot | main/persistent_log.c:79-87 | below 1000 stored entries, a blob written to slot count whose count write is lost leaves the ring intact |
| PersistentLog.LostCountShowsNewestFirst | main/persistent_log.c:79-87 | from 1000 stored entries on, a blob written to slot count mod 1000 whose count write is lost breaks the ring, and the dump then shows the new entry first, followed by the window's other 999 entries |
| PersistentLog.RingAfterAdd | main/persistent_log.c:66-87 | writing slot count mod 1000 and counting one more keeps the ring: the overwritten entry is the one leaving the window |
| PersistentLog.Nvs.GetU32 | main/persistent_log.c:63 | a present key gives OK and its value; a missing key gives not-found and leaves the variable as it was |
| PersistentLog.Nvs.SetU32 | main/persistent_log.c:87-88 | the key is set iff the write succeeds, whose status is returned, and nothing else changes |
| PersistentLog.Nvs.SetBlob | main/persistent_log.c:79 | the blob is stored iff the write succeeds, whose status is returned |
| PersistentLog.Nvs.GetBlob | main/persistent_log.c:124-127 | a present key gives OK and its blob; a missing one gives not-found and the zero entry |
| PersistentLog.Log.constructor | main/persistent_log.c:33-34 | not initialised; the entries of earlier boots are `prior`, and a store holding their ring satisfies the invariant |
| PersistentLog.Log.Init | main/persistent_log.c:36-52 | already initialised: OK and no reopen; otherwise the open status is returned and the log is initialised iff it is OK |
| PersistentLog.Log.Add | main/persistent_log.c:54-92 | uninitialised or failed blob write: nothing changes; otherwise the entry goes to slot count mod 1000, and the count becomes count+1 mod 2^32 iff the count write succeeds; the ring invariant is preserved when the count write succeeds or fewer than 1000 entries are stored |
| PersistentLog.Log.Store | main/persistent_log.c:76-88 | the stores of an add once the count is read: the blob goes to slot count mod 1000 iff its write succeeds; only then is the count write attempted, and the count becomes count+1 mod 2^32 iff that succeeds; the ring invariant is kept when the count write succeeds or fewer than 1000 entries are stored |
| PersistentLog.Log.DumpAndClear | main/persistent_log.c:94-140 | uninitialised: nothing printed; otherwise one formatted line per stored blob in the visited slots, in visiting order; over the ring, exactly the last min(count, 1000) entries in order; nothing is modified |
| PersistentLog.Log.GetCount | main/persistent_log.c:142-151 | 0 when uninitialised, otherwise the stored count (0 if absent), which over the ring is the number of entries added |
| PersistentLog.Log.Clear | main/persistent_log.c:153-163 | uninitialised or failed count write: nothing changes, so the ring invariant holds afterwards if it held before; otherwise the count becomes 0, the blobs stay, and the ring invariant holds afterwards |

## Left out

- The I2C bus library is not part of this model. Device create, delete,
  read, write and scan are calls whose answers come from an oracle.
  - A completed read is taken to fill its whole buffer: `Platform.Fit` cuts
    or zero-pads the oracle's bytes.
  - A device handle is identified by its port and address, so leaks and
    double handles (a re-init overwriting `s_dev` without deleting it) are
    not visible.
- main/bme280_app.c and the BME280 library behind it are not part of this
  model. The manager calls them as opaque calls that return a status and,
  for a read, a value.
- SensorIf.Manager.ReadTemperature, ReadHumidity and ReadPressure: after a
  failed BME280 read, the value of the output is not stated, because the
  unseen library decides whether it writes it.
- Delays are recorded as trace events only; no notion of time is modelled.
  `esp_timer_get_time` is the parameter `now` of `Log.Add`.
- Logging (`ESP_LOG*`) is left out.
  - The dump's header and footer lines are left out.
  - Entry lines are records (seconds, milliseconds, level, tag, message)
    rather than formatted text, so the `%03lld` padding is not modelled.
  - The formatted I2C scan listing is left out.
- SensorIf.DetectIgnoresScan holds of the code only while fewer than 23
  devices answer the scan. main/sensor_if.c:23-26 formats the listing into
  a 128-byte buffer. With 23 or more devices, the remaining size
  `sizeof(buf) - off` becomes negative and wraps, so the 23rd entry is written
  past the buffer. That memory corruption is not modelled.
- IEEE-754 single precision: all conversions and the compensation chains
  are computed over the reals. The pressure guard compares the real
  denominator with zero, so float rounding to zero of a non-zero
  denominator is not modelled.
- The NVS store is modelled as two maps. Flash, wear levelling and
  `nvs_commit` are left out.
  - `nvs_set_u32` and `nvs_commit` are one write whose status is a
    parameter (`countStatus` of `Add` and `Clear`). A write that succeeds
    but whose commit fails is not modelled separately.
  - A blob of the wrong size under a slot key is not modelled.
  - `nvs_open`'s result is the parameter `openStatus`, and `nvs_set_blob`'s
    result the parameter `writeStatus`.
- The count wraparound at 2^32 is modelled rather than excluded. The
  increment is taken modulo 2^32, and on wrapping the ring invariant
  restarts from an empty log, though the blobs stay stored.
- NULL `tag` or `message` pointers to `persistent_log_add` are not modelled.
  Both are C strings: sequences of non-NUL characters.
- PersistentLog.BoundedCopy counts characters, and each Dafny character
  stands for one byte of the C string. A character above 255 (a multi-byte
  UTF-8 sequence in C) is not distinguished, so the size − 1 bound is in
  characters rather than bytes. The same holds for the entry's `level`, a
  C `char` of one byte that the model keeps as a Dafny character.
- `bmp280_read_pressure_no_trigger` is declared in main/bmp280.h but has no
  definition, so it is not modelled.
- main/sleep_manager.c and caelum-weather-station.js are not part of this
  model.
- Concurrency: the modules keep unguarded statics, and the model covers
  single-threaded use only.
