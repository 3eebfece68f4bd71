/** Driver for the Aosong AHT20 humidity and temperature sensor at bus
    address 0x38: a one-byte presence probe, the three-byte measurement
    command followed by the conversion wait, and the six-byte result frame
    holding a status byte and two 20-bit readings. */
module Aht20 {
  import opened Esp
  import opened Bits
  import opened Platform

  const ADDR: Byte := 0x38
  const CMD_MEASURE: seq<Byte> := [0xAC, 0x33, 0x00]
  const FRAME_LEN: nat := 6
  const CONVERSION_MS: nat := 80
  /** 2^20, the full scale of both readings */
  const FULL_SCALE: nat := 0x10_0000

  // ---------------------------------------------------------------------
  // The result frame

  /** The two 20-bit readings of a frame */
  datatype Sample = Sample(humRaw: nat, tempRaw: nat)

  predicate InRange(s: Sample) {
    s.humRaw < FULL_SCALE && s.tempRaw < FULL_SCALE
  }

  /** (raw[1] << 12) | (raw[2] << 4) | (raw[3] >> 4): humidity occupies
      byte 1, byte 2 and the upper nibble of byte 3 */
  function HumidityRaw(raw: seq<Byte>): (v: nat)
    requires |raw| == FRAME_LEN
    ensures v == raw[1] as int * 4096 + raw[2] as int * 16 + raw[3] as int / 16
    ensures v < FULL_SCALE
  {
    var b1: nat, b2: nat, b3: nat := raw[1], raw[2], raw[3];
    Pack20(b1, b2, b3);
    Or(Or(Shl(b1, 12), Shl(b2, 4)), Shr(b3, 4))
  }

  /** ((raw[3] & 0x0F) << 16) | (raw[4] << 8) | raw[5]: temperature occupies
      the lower nibble of byte 3, byte 4 and byte 5 */
  function TemperatureRaw(raw: seq<Byte>): (v: nat)
    requires |raw| == FRAME_LEN
    ensures v == (raw[3] as int % 16) * 65536 + raw[4] as int * 256 + raw[5]
    ensures v < FULL_SCALE
  {
    var b3: nat, b4: nat, b5: nat := raw[3], raw[4], raw[5];
    Pow2Values();
    AndLowMask(b3, 4);
    PackNibbleHigh(b3 % 16, b4, b5);
    Or(Or(Shl(And(b3, 0x0F), 16), Shl(b4, 8)), b5)
  }

  /** Both readings of a frame; byte 0, the status byte, is not looked at */
  function Decode(raw: seq<Byte>): (s: Sample)
    requires |raw| == FRAME_LEN
    ensures InRange(s)
  {
    Sample(HumidityRaw(raw), TemperatureRaw(raw))
  }

  /** The frame a sensor sends for a status byte and two readings */
  function Encode(status: Byte, s: Sample): (raw: seq<Byte>)
    requires InRange(s)
    ensures |raw| == FRAME_LEN && raw[0] == status
  {
    [status, s.humRaw / 4096, (s.humRaw / 16) % 256, (s.humRaw % 16) * 16 + s.tempRaw / 65536,
     (s.tempRaw / 256) % 256, s.tempRaw % 256]
  }

  /** Every bit of bytes 1..5 belongs to exactly one reading: decoding undoes
      encoding ... */
  lemma DecodeEncode(status: Byte, s: Sample)
    requires InRange(s)
    ensures Decode(Encode(status, s)) == s
  {
    var h, t := s.humRaw, s.tempRaw;
    var b3 := (h % 16) * 16 + t / 65536;
    DivModUnique(b3, 16, h % 16, t / 65536);
    SplitHumidity(h);
    SplitTemperature(t);
  }

  /** ... and encoding the status byte with the decoded readings gives the
      frame back, so no frame loses information. */
  lemma EncodeDecode(raw: seq<Byte>)
    requires |raw| == FRAME_LEN
    ensures Encode(raw[0], Decode(raw)) == raw
  {
    var b1: nat, b2: nat, b3: nat, b4: nat, b5: nat := raw[1], raw[2], raw[3], raw[4], raw[5];
    var h := b1 * 4096 + b2 * 16 + b3 / 16;
    var t := (b3 % 16) * 65536 + b4 * 256 + b5;
    DivModUnique(h, 4096, b1, b2 * 16 + b3 / 16);
    DivModUnique(h, 16, b1 * 256 + b2, b3 / 16);
    DivModUnique(b1 * 256 + b2, 256, b1, b2);
    DivModUnique(t, 65536, b3 % 16, b4 * 256 + b5);
    DivModUnique(t, 256, (b3 % 16) * 256 + b4, b5);
    DivModUnique((b3 % 16) * 256 + b4, 256, b3 % 16, b4);
    var e := Encode(raw[0], Decode(raw));
    assert e[3] == raw[3];
  }

  lemma SplitHumidity(h: nat)
    requires h < FULL_SCALE
    ensures h == (h / 4096) * 4096 + ((h / 16) % 256) * 16 + h % 16
    ensures h / 4096 < 256
  {
    var a := h / 16;
    assert h == 16 * a + h % 16;
    assert a == 256 * (a / 256) + a % 256;
    DivModUnique(h, 4096, a / 256, 16 * (a % 256) + h % 16);
  }

  lemma SplitTemperature(t: nat)
    requires t < FULL_SCALE
    ensures t == (t / 65536) * 65536 + ((t / 256) % 256) * 256 + t % 256
    ensures t / 65536 < 16
  {
    var a := t / 256;
    assert t == 256 * a + t % 256;
    assert a == 256 * (a / 256) + a % 256;
    DivModUnique(t, 65536, a / 256, 256 * (a % 256) + t % 256);
  }

  // ---------------------------------------------------------------------
  // Physical values (single-precision arithmetic is modelled over the reals)

  /** hum_raw * 100 / 2^20, in percent relative humidity */
  function HumidityPercent(humRaw: nat): (p: real)
    ensures humRaw < FULL_SCALE ==> 0.0 <= p < 100.0
    ensures p * (FULL_SCALE as real) == 100.0 * humRaw as real
  {
    (humRaw as real) * 100.0 / 1048576.0
  }

  /** temp_raw * 200 / 2^20 - 50, in degrees Celsius */
  function TemperatureC(tempRaw: nat): (c: real)
    ensures tempRaw < FULL_SCALE ==> -50.0 <= c < 150.0
    ensures (c + 50.0) * (FULL_SCALE as real) == 200.0 * tempRaw as real
  {
    (tempRaw as real) * 200.0 / 1048576.0 - 50.0
  }

  /** Both conversions are strictly increasing in the raw reading. */
  lemma ConversionsIncreasing(a: nat, b: nat)
    requires a < b
    ensures HumidityPercent(a) < HumidityPercent(b)
    ensures TemperatureC(a) < TemperatureC(b)
  {
  }

  /** An all-zero payload reads 0 %RH and -50 degC; a full-scale payload
      reads just under 100 %RH and just under 150 degC. */
  lemma ConversionEnds(status: Byte)
    ensures var s := Decode([status, 0, 0, 0, 0, 0]);
      HumidityPercent(s.humRaw) == 0.0 && TemperatureC(s.tempRaw) == -50.0
    ensures var s := Decode([status, 0xFF, 0xFF, 0xFF, 0xFF, 0xFF]);
      && s == Sample(FULL_SCALE - 1, FULL_SCALE - 1)
      && 99.9999 <= HumidityPercent(s.humRaw) < 100.0
      && 149.9998 <= TemperatureC(s.tempRaw) < 149.9999
  {
  }

  // ---------------------------------------------------------------------
  // Call sequences

  /** aht20_init: create the handle and read one byte without a register
      phase; any successful read is a presence, whatever the byte is */
  function InitRun(reply: Oracle, h: seq<Event>, bus: BusHandle): Step<Device> {
    match bus
    case NullBus => Step(ESP_ERR_INVALID_ARG, [], None)
    case Bus(port) =>
      var create := DeviceCreate(port, ADDR);
      var d := Created(reply, h, port, ADDR);
      if d.None? then Step(ESP_ERR_NOT_FOUND, [create], None)
      else
        var probe := ReadBytes(d.value, NoRegister, 1);
        if reply(h + [create], probe).status == ESP_OK then Step(ESP_OK, [create, probe], d)
        else Step(ESP_ERR_NOT_FOUND, [create, probe, DeviceDelete(d.value)], None)
  }

  /** aht20_trigger_measurement: the command, then the wait only if the
      command was accepted */
  function TriggerRun(reply: Oracle, h: seq<Event>, dev: Option<Device>): Outcome {
    match dev
    case None => Outcome(ESP_ERR_NOT_FOUND, [])
    case Some(d) =>
      var w := WriteBytes(d, NoRegister, CMD_MEASURE);
      var st := reply(h, w).status;
      if st != ESP_OK then Outcome(st, [w]) else Outcome(ESP_OK, [w, TaskDelay(CONVERSION_MS)])
  }

  /** The trigger followed by aht20_read_raw, as both read operations do it */
  function SampleRun(reply: Oracle, h: seq<Event>, dev: Option<Device>): Step<Sample> {
    if dev.None? then Step(ESP_ERR_NOT_FOUND, [], None)
    else
      var t := TriggerRun(reply, h, dev);
      if t.status != ESP_OK then Step(t.status, t.events, None)
      else
        var rd := ReadBytes(dev.value, NoRegister, FRAME_LEN);
        var st := reply(h + t.events, rd).status;
        if st != ESP_OK then Step(st, t.events + [rd], None)
        else Step(ESP_OK, t.events + [rd], Some(Decode(ReadData(reply, h + t.events, dev.value, NoRegister, FRAME_LEN))))
  }

  /** aht20_read_temperature with an output given */
  function TemperatureRun(reply: Oracle, h: seq<Event>, dev: Option<Device>): Step<real> {
    var s := SampleRun(reply, h, dev);
    match s.value
    case None => Step(s.status, s.events, None)
    case Some(v) => Step(ESP_OK, s.events, Some(TemperatureC(v.tempRaw)))
  }

  /** aht20_read_humidity with an output given */
  function HumidityRun(reply: Oracle, h: seq<Event>, dev: Option<Device>): Step<real> {
    var s := SampleRun(reply, h, dev);
    match s.value
    case None => Step(s.status, s.events, None)
    case Some(v) => Step(ESP_OK, s.events, Some(HumidityPercent(v.humRaw)))
  }

  // ---------------------------------------------------------------------
  // Properties of the call sequences

  /** aht20_init with a NULL bus fails with invalid-arg and touches nothing;
      otherwise it succeeds exactly when the handle is created and the probe
      read succeeds, whatever byte the probe returns; a created handle that
      fails the probe is deleted; every call addresses 0x38. */
  lemma InitAcceptance(reply: Oracle, h: seq<Event>, bus: BusHandle)
    ensures bus.NullBus? ==> InitRun(reply, h, bus) == Step(ESP_ERR_INVALID_ARG, [], None)
    ensures bus.Bus? ==>
      var r := InitRun(reply, h, bus);
      var create := DeviceCreate(bus.port, ADDR);
      var dev := Device(bus.port, ADDR);
      && (r.status == ESP_OK <==>
            Created(reply, h, bus.port, ADDR).Some? && reply(h + [create], ReadBytes(dev, NoRegister, 1)).status == ESP_OK)
      && (r.status == ESP_OK ==> r.value == Some(dev) && r.events == [create, ReadBytes(dev, NoRegister, 1)])
      && (r.status != ESP_OK ==> r.status == ESP_ERR_NOT_FOUND && r.value == None)
      && (Created(reply, h, bus.port, ADDR).None? ==> r.events == [create])
      && (Created(reply, h, bus.port, ADDR).Some? && r.status != ESP_OK ==> r.events[|r.events| - 1] == DeviceDelete(dev))
      && (forall e | e in r.events :: AddressOf(e) == Some(ADDR))
  {
  }

  /** The trigger sends exactly the three command bytes and waits 80 ms only
      after the command was accepted; a failed command's status is returned
      as it is. */
  lemma TriggerWaitsOnlyOnSuccess(reply: Oracle, h: seq<Event>, dev: Option<Device>)
    ensures dev.None? ==> TriggerRun(reply, h, dev) == Outcome(ESP_ERR_NOT_FOUND, [])
    ensures dev.Some? ==>
      var t := TriggerRun(reply, h, dev);
      var w := WriteBytes(dev.value, NoRegister, [0xAC, 0x33, 0x00]);
      && t.status == reply(h, w).status
      && t.events == if t.status == ESP_OK then [w, TaskDelay(80)] else [w]
  {
  }

  /** A sample is obtained exactly when the read operation returns OK; no
      read is attempted after a failed trigger; without a device nothing is
      done. */
  lemma SampleErrors(reply: Oracle, h: seq<Event>, dev: Option<Device>)
    ensures var s := SampleRun(reply, h, dev);
      var t := TriggerRun(reply, h, dev);
      && (s.value.Some? <==> s.status == ESP_OK)
      && (dev.None? ==> s.status == ESP_ERR_NOT_FOUND && s.events == [])
      && (dev.Some? && t.status != ESP_OK ==> s.status == t.status && s.events == t.events)
      && (dev.Some? && t.status == ESP_OK ==>
            s.events == t.events + [ReadBytes(dev.value, NoRegister, FRAME_LEN)])
  {
  }

  /** The two reads cause the same bus traffic and fail alike: each triggers
      and reads a frame of its own, and they differ only in the reading they
      convert. */
  lemma ReadsShareTheirTraffic(reply: Oracle, h: seq<Event>, dev: Option<Device>)
    ensures var t := TemperatureRun(reply, h, dev);
      var u := HumidityRun(reply, h, dev);
      var s := SampleRun(reply, h, dev);
      && t.status == u.status == s.status && t.events == u.events == s.events
      && (t.value.Some? <==> t.status == ESP_OK) && (u.value.Some? <==> u.status == ESP_OK)
      && (s.value.Some? ==> t.value == Some(TemperatureC(s.value.value.tempRaw))
                            && u.value == Some(HumidityPercent(s.value.value.humRaw)))
  {
  }

  // ---------------------------------------------------------------------
  // The driver's module state and operations

  /** The module's static state: s_dev */
  class Driver {
    var dev: Option<Device>

    constructor ()
      ensures dev == None
    {
      dev := None;
    }

    /** aht20_init; a failed init leaves s_dev as it was, a successful one
        replaces it */
    method Init(world: World, bus: BusHandle) returns (r: EspErr)
      modifies this, world
      ensures var run := InitRun(world.reply, old(world.trace), bus);
        && r == run.status
        && world.trace == old(world.trace) + run.events
        && dev == (if run.value.Some? then run.value else old(dev))
    {
      if bus.NullBus? {
        return ESP_ERR_INVALID_ARG;
      }
      var d := world.Create(bus.port, ADDR);
      if d.None? {
        return ESP_ERR_NOT_FOUND;
      }
      var st, status := world.Read(d.value, NoRegister, 1);
      if st == ESP_OK {
        dev := d;
        return ESP_OK;
      }
      world.Delete(d.value);
      r := ESP_ERR_NOT_FOUND;
    }

    /** aht20_trigger_measurement */
    method TriggerMeasurement(world: World) returns (r: EspErr)
      modifies world
      ensures var run := TriggerRun(world.reply, old(world.trace), dev);
        r == run.status && world.trace == old(world.trace) + run.events
    {
      if dev.None? {
        return ESP_ERR_NOT_FOUND;
      }
      r := world.Write(dev.value, NoRegister, CMD_MEASURE);
      if r != ESP_OK {
        return r;
      }
      world.Delay(CONVERSION_MS);
      r := ESP_OK;
    }

    /** aht20_read_raw: one six-byte read without a register phase */
    method ReadRaw(world: World) returns (r: EspErr, buf: seq<Byte>)
      modifies world
      ensures |buf| == FRAME_LEN
      ensures dev.None? ==> r == ESP_ERR_NOT_FOUND && world.trace == old(world.trace)
      ensures dev.Some? ==>
        var rd := ReadBytes(dev.value, NoRegister, FRAME_LEN);
        && world.trace == old(world.trace) + [rd]
        && r == world.reply(old(world.trace), rd).status
        && buf == ReadData(world.reply, old(world.trace), dev.value, NoRegister, FRAME_LEN)
    {
      if dev.None? {
        return ESP_ERR_NOT_FOUND, seq(FRAME_LEN, _ => 0);
      }
      r, buf := world.Read(dev.value, NoRegister, FRAME_LEN);
    }

    /** The trigger and the raw read shared by the two read operations */
    method Acquire(world: World) returns (r: EspErr, s: Sample)
      modifies world
      ensures var run := SampleRun(world.reply, old(world.trace), dev);
        && r == run.status
        && world.trace == old(world.trace) + run.events
        && (run.value.Some? ==> s == run.value.value)
    {
      s := Sample(0, 0);
      if dev.None? {
        return ESP_ERR_NOT_FOUND, s;
      }
      r := TriggerMeasurement(world);
      if r != ESP_OK {
        return r, s;
      }
      var raw;
      r, raw := ReadRaw(world);
      if r != ESP_OK {
        return r, s;
      }
      s := Decode(raw);
    }

    /** aht20_read_temperature; *out_c is written only on success */
    method ReadTemperature(world: World, out: Out?<real>) returns (r: EspErr)
      modifies world, out
      ensures out == null ==> r == ESP_ERR_INVALID_ARG && world.trace == old(world.trace)
      ensures out != null ==>
        var run := TemperatureRun(world.reply, old(world.trace), dev);
        && r == run.status
        && world.trace == old(world.trace) + run.events
        && out.value == (if run.value.Some? then run.value.value else old(out.value))
    {
      if out == null {
        return ESP_ERR_INVALID_ARG;
      }
      var s;
      r, s := Acquire(world);
      if r != ESP_OK {
        return r;
      }
      out.value := TemperatureC(s.tempRaw);
    }

    /** aht20_read_humidity; *out_percent is written only on success */
    method ReadHumidity(world: World, out: Out?<real>) returns (r: EspErr)
      modifies world, out
      ensures out == null ==> r == ESP_ERR_INVALID_ARG && world.trace == old(world.trace)
      ensures out != null ==>
        var run := HumidityRun(world.reply, old(world.trace), dev);
        && r == run.status
        && world.trace == old(world.trace) + run.events
        && out.value == (if run.value.Some? then run.value.value else old(out.value))
    {
      if out == null {
        return ESP_ERR_INVALID_ARG;
      }
      var s;
      r, s := Acquire(world);
      if r != ESP_OK {
        return r;
      }
      out.value := HumidityPercent(s.humRaw);
    }
  }
}
