/** The sensor manager: detects which sensor stack is fitted (a BME280, or
    an AHT20 with a BMP280 beside it), remembers it, and routes the wake and
    read operations to the drivers of that stack. */
module SensorIf {
  import opened Esp
  import opened Platform
  import Aht20
  import Bmp280

  /** sensor_type_t */
  datatype SensorType = SensorNone | SensorBme280 | SensorAht20Bmp280

  /** What the dispatchers look at: `detected` and the state of the two
      drivers of the pair */
  datatype Sensors = Sensors(detected: SensorType, ahtDev: Option<Device>, bmpDev: Option<Device>, calib: Bmp280.Calibration)

  /** The effect of sensor_init: its status and calls, the type it records
      (None: `detected` keeps its value), and what each pair driver's init
      committed (None: that driver keeps its state) */
  datatype Detection = Detection(
    status: EspErr, events: seq<Event>, detected: Option<SensorType>,
    aht: Option<Device>, bmp: Option<Bmp280.Accepted>)

  // ---------------------------------------------------------------------
  // Call sequences

  /** The diagnostic scan, made only on a non-NULL bus */
  function ScanEvents(bus: BusHandle): seq<Event> {
    if bus.Bus? then [Scan(bus.port)] else []
  }

  /** sensor_init: the BME280 first; then the AHT20, and the BMP280 only if
      the AHT20 answered */
  function DetectRun(reply: Oracle, h: seq<Event>, bus: BusHandle): Detection {
    var pre := ScanEvents(bus) + [Bme280(BmeInit(bus))];
    if reply(h + ScanEvents(bus), Bme280(BmeInit(bus))).status == ESP_OK then
      Detection(ESP_OK, pre, Some(SensorBme280), None, None)
    else
      var p := PairDetect(reply, h + ScanEvents(bus) + [Bme280(BmeInit(bus))], bus);
      p.(events := pre + p.events)
  }

  /** The second half of sensor_init: the AHT20, and the BMP280 only if the
      AHT20 answered */
  function PairDetect(reply: Oracle, h: seq<Event>, bus: BusHandle): Detection {
    var a := Aht20.InitRun(reply, h, bus);
    if a.status != ESP_OK then Detection(ESP_ERR_NOT_FOUND, a.events, None, a.value, None)
    else
      var b := Bmp280.InitRun(reply, h + a.events, bus);
      if b.status != ESP_OK then Detection(ESP_ERR_NOT_FOUND, a.events + b.events, None, a.value, b.value)
      else Detection(ESP_OK, a.events + b.events, Some(SensorAht20Bmp280), a.value, b.value)
  }

  /** sensor_wake_and_measure: both triggers of the pair, the second whatever
      the first returned */
  function WakeRun(reply: Oracle, h: seq<Event>, s: Sensors): Outcome {
    match s.detected
    case SensorBme280 =>
      var e := Bme280(BmeWakeAndMeasure);
      Outcome(reply(h, e).status, [e])
    case SensorAht20Bmp280 =>
      var t1 := Aht20.TriggerRun(reply, h, s.ahtDev);
      var t2 := Bmp280.TriggerRun(reply, h + t1.events, s.bmpDev);
      Outcome(if t1.status == ESP_OK || t2.status == ESP_OK then ESP_OK else ESP_FAIL, t1.events + t2.events)
    case SensorNone => Outcome(ESP_ERR_NOT_FOUND, [])
  }

  /** A read of the BME280 wrapper: its value is delivered only on success */
  function BmeReadRun(reply: Oracle, h: seq<Event>, call: BmeCall): Step<real> {
    var a := reply(h, Bme280(call));
    Step(a.status, [Bme280(call)], if a.status == ESP_OK then Some(a.value) else None)
  }

  /** sensor_read_temperature with an output given: the AHT20, then the
      BMP280 if the AHT20 read failed */
  function TemperatureRun(reply: Oracle, h: seq<Event>, s: Sensors): Step<real> {
    match s.detected
    case SensorBme280 => BmeReadRun(reply, h, BmeReadTemperature)
    case SensorAht20Bmp280 =>
      var a := Aht20.TemperatureRun(reply, h, s.ahtDev);
      if a.status == ESP_OK then a
      else
        var b := Bmp280.TemperatureRun(reply, h + a.events, s.bmpDev, s.calib);
        Step(b.status, a.events + b.events, b.value)
    case SensorNone => Step(ESP_ERR_NOT_FOUND, [], None)
  }

  /** The BMP280's t_fine after sensor_read_temperature: only a fallback read
      that obtained a sample writes it */
  function TFineAfter(reply: Oracle, h: seq<Event>, s: Sensors, tFine: int): int {
    if !s.detected.SensorAht20Bmp280? then tFine
    else
      var a := Aht20.TemperatureRun(reply, h, s.ahtDev);
      if a.status == ESP_OK then tFine
      else
        var raw := Bmp280.ReadRawRun(reply, h + a.events, s.bmpDev);
        if raw.value.Some? then Bmp280.TFine(raw.value.value.adcT, s.calib) else tFine
  }

  /** sensor_read_humidity with an output given */
  function HumidityRun(reply: Oracle, h: seq<Event>, s: Sensors): Step<real> {
    match s.detected
    case SensorBme280 => BmeReadRun(reply, h, BmeReadHumidity)
    case SensorAht20Bmp280 => Aht20.HumidityRun(reply, h, s.ahtDev)
    case SensorNone => Step(ESP_ERR_NOT_FOUND, [], None)
  }

  /** sensor_read_pressure with an output given */
  function PressureRun(reply: Oracle, h: seq<Event>, s: Sensors): Step<real> {
    match s.detected
    case SensorBme280 => BmeReadRun(reply, h, BmeReadPressure)
    case SensorAht20Bmp280 => Bmp280.PressureRun(reply, h, s.bmpDev, s.calib)
    case SensorNone => Step(ESP_ERR_NOT_FOUND, [], None)
  }

  // ---------------------------------------------------------------------
  // Properties of detection

  /** Detection succeeds exactly when it records a type, and otherwise
      reports not-found. */
  lemma DetectStatus(reply: Oracle, h: seq<Event>, bus: BusHandle)
    ensures var d := DetectRun(reply, h, bus);
      && (d.status == ESP_OK <==> d.detected.Some?)
      && (d.status != ESP_OK ==> d.status == ESP_ERR_NOT_FOUND)
      && d.detected != Some(SensorNone)
  {
  }

  /** A BME280 that initialises wins: neither the AHT20 nor the BMP280 is
      touched, and only the scan and the BME280 init are made. */
  lemma DetectPrefersBme280(reply: Oracle, h: seq<Event>, bus: BusHandle)
    requires reply(h + ScanEvents(bus), Bme280(BmeInit(bus))).status == ESP_OK
    ensures var d := DetectRun(reply, h, bus);
      && d == Detection(ESP_OK, ScanEvents(bus) + [Bme280(BmeInit(bus))], Some(SensorBme280), None, None)
      && (forall e | e in d.events :: AddressOf(e) == None)
  {
  }

  /** Without a BME280 and without an AHT20 the result is not-found, the
      type is kept, and the BMP280 is never probed. */
  lemma DetectNeedsAht20(reply: Oracle, h: seq<Event>, bus: BusHandle)
    requires reply(h + ScanEvents(bus), Bme280(BmeInit(bus))).status != ESP_OK
    requires Aht20.InitRun(reply, h + ScanEvents(bus) + [Bme280(BmeInit(bus))], bus).status != ESP_OK
    ensures var d := DetectRun(reply, h, bus);
      && d.status == ESP_ERR_NOT_FOUND && d.detected == None && d.aht == None && d.bmp == None
      && (forall e | e in d.events :: AddressOf(e) == None || AddressOf(e) == Some(Aht20.ADDR))
  {
    Aht20.InitAcceptance(reply, h + ScanEvents(bus) + [Bme280(BmeInit(bus))], bus);
  }

  /** With an AHT20 the BMP280 decides: both present gives the pair and OK;
      a missing BMP280 gives not-found and keeps the type, although the
      AHT20 driver has already kept its handle. */
  lemma DetectPair(reply: Oracle, h: seq<Event>, bus: BusHandle)
    requires reply(h + ScanEvents(bus), Bme280(BmeInit(bus))).status != ESP_OK
    requires Aht20.InitRun(reply, h + ScanEvents(bus) + [Bme280(BmeInit(bus))], bus).status == ESP_OK
    ensures var pre := ScanEvents(bus) + [Bme280(BmeInit(bus))];
      var a := Aht20.InitRun(reply, h + ScanEvents(bus) + [Bme280(BmeInit(bus))], bus);
      var b := Bmp280.InitRun(reply, h + ScanEvents(bus) + [Bme280(BmeInit(bus))] + a.events, bus);
      var p0 := Bmp280.ProbeRun(reply, h + ScanEvents(bus) + [Bme280(BmeInit(bus))] + a.events, bus.port, Bmp280.ADDR_0);
      var d := DetectRun(reply, h, bus);
      && bus.Bus?
      && d.aht == Some(Device(bus.port, Aht20.ADDR))
      && d.events == pre + a.events + b.events
      && (b.status == ESP_OK ==>
            && d.status == ESP_OK && d.detected == Some(SensorAht20Bmp280) && d.bmp == b.value
            && d.bmp.Some?
            && d.bmp.value.dev == Device(bus.port, if p0.status == ESP_OK then Bmp280.ADDR_0 else Bmp280.ADDR_1))
      && (b.status != ESP_OK ==> d.status == ESP_ERR_NOT_FOUND && d.detected == None && d.bmp == None)
  {
    var h1 := h + ScanEvents(bus) + [Bme280(BmeInit(bus))];
    Aht20.InitAcceptance(reply, h1, bus);
    var h2 := h1 + Aht20.InitRun(reply, h1, bus).events;
    Bmp280.InitProbeOrder(reply, h2, bus.port);
    Bmp280.InitDevice(reply, h2, bus.port);
  }

  /** Two worlds that answer everything but the scan alike detect alike: the
      diagnostic scan has no influence on detection. */
  lemma DetectIgnoresScan(r1: Oracle, r2: Oracle, h: seq<Event>, bus: BusHandle)
    requires forall g: seq<Event>, e: Event | !e.Scan? :: r1(g, e) == r2(g, e)
    ensures DetectRun(r1, h, bus) == DetectRun(r2, h, bus)
  {
    var h1 := h + ScanEvents(bus) + [Bme280(BmeInit(bus))];
    assert r1(h + ScanEvents(bus), Bme280(BmeInit(bus))) == r2(h + ScanEvents(bus), Bme280(BmeInit(bus)));
    Aht20InitIgnoresScan(r1, r2, h1, bus);
    var a := Aht20.InitRun(r1, h1, bus);
    if bus.Bus? {
      Bmp280InitIgnoresScan(r1, r2, h1 + a.events, bus.port);
    }
  }

  lemma Aht20InitIgnoresScan(r1: Oracle, r2: Oracle, h: seq<Event>, bus: BusHandle)
    requires forall g: seq<Event>, e: Event | !e.Scan? :: r1(g, e) == r2(g, e)
    ensures Aht20.InitRun(r1, h, bus) == Aht20.InitRun(r2, h, bus)
  {
    if bus.Bus? {
      var create := DeviceCreate(bus.port, Aht20.ADDR);
      assert r1(h, create) == r2(h, create);
      var probe := ReadBytes(Device(bus.port, Aht20.ADDR), NoRegister, 1);
      assert r1(h + [create], probe) == r2(h + [create], probe);
    }
  }

  lemma Bmp280InitIgnoresScan(r1: Oracle, r2: Oracle, h: seq<Event>, port: nat)
    requires forall g: seq<Event>, e: Event | !e.Scan? :: r1(g, e) == r2(g, e)
    ensures Bmp280.InitRun(r1, h, Bus(port)) == Bmp280.InitRun(r2, h, Bus(port))
  {
    ProbeIgnoresScan(r1, r2, h, port, Bmp280.ADDR_0);
    ProbeIgnoresScan(r1, r2, h + Bmp280.ProbeRun(r1, h, port, Bmp280.ADDR_0).events, port, Bmp280.ADDR_1);
  }

  lemma ProbeIgnoresScan(r1: Oracle, r2: Oracle, h: seq<Event>, port: nat, addr: Byte)
    requires forall g: seq<Event>, e: Event | !e.Scan? :: r1(g, e) == r2(g, e)
    ensures Bmp280.ProbeRun(r1, h, port, addr) == Bmp280.ProbeRun(r2, h, port, addr)
  {
    var dev := Device(port, addr);
    var create := DeviceCreate(port, addr);
    var idRead := ReadBytes(dev, Register(Bmp280.REG_ID), 1);
    var calRead := ReadBytes(dev, Register(Bmp280.REG_CALIB00), Bmp280.CALIB_LEN);
    assert r1(h, create) == r2(h, create);
    assert r1(h + [create], idRead) == r2(h + [create], idRead);
    assert r1(h + [create] + [idRead], calRead) == r2(h + [create] + [idRead], calRead);
  }

  // ---------------------------------------------------------------------
  // Properties of the dispatchers

  /** Wake in pair mode calls both triggers, the BMP280's whatever the
      AHT20's returned, and succeeds exactly when one of them succeeded,
      reporting ESP_FAIL otherwise; a BME280 wake is delegated as it is;
      with no sensor it reports not-found and does nothing. */
  lemma WakeBothTriggers(reply: Oracle, h: seq<Event>, s: Sensors)
    ensures var w := WakeRun(reply, h, s);
      && (s.detected.SensorAht20Bmp280? ==>
            var t1 := Aht20.TriggerRun(reply, h, s.ahtDev);
            var t2 := Bmp280.TriggerRun(reply, h + t1.events, s.bmpDev);
            && w.events == t1.events + t2.events
            && (w.status == ESP_OK <==> t1.status == ESP_OK || t2.status == ESP_OK)
            && (w.status != ESP_OK ==> w.status == ESP_FAIL))
      && (s.detected.SensorBme280? ==>
            w == Outcome(reply(h, Bme280(BmeWakeAndMeasure)).status, [Bme280(BmeWakeAndMeasure)]))
      && (s.detected.SensorNone? ==> w == Outcome(ESP_ERR_NOT_FOUND, []))
  {
  }

  /** Temperature in pair mode: the AHT20's reading when it has one, and the
      BMP280 is then not touched; otherwise whatever the BMP280 read returns,
      whatever the AHT20 error was. */
  lemma TemperatureFallback(reply: Oracle, h: seq<Event>, s: Sensors)
    requires s.detected.SensorAht20Bmp280?
    ensures var t := TemperatureRun(reply, h, s);
      var a := Aht20.TemperatureRun(reply, h, s.ahtDev);
      var b := Bmp280.TemperatureRun(reply, h + a.events, s.bmpDev, s.calib);
      && (a.status == ESP_OK ==> t == a)
      && (a.status != ESP_OK ==> t.status == b.status && t.value == b.value && t.events == a.events + b.events)
      && (t.value.Some? <==> t.status == ESP_OK)
  {
    Aht20.ReadsShareTheirTraffic(reply, h, s.ahtDev);
    Bmp280.TemperatureErrors(reply, h + Aht20.TemperatureRun(reply, h, s.ahtDev).events, s.bmpDev, s.calib);
  }

  /** In pair mode humidity goes to the AHT20 alone: every call but the
      wait is on the AHT20's device, port and address. */
  lemma HumidityRouting(reply: Oracle, h: seq<Event>, s: Sensors)
    requires s.detected.SensorAht20Bmp280?
    ensures HumidityRun(reply, h, s) == Aht20.HumidityRun(reply, h, s.ahtDev)
    ensures s.ahtDev.Some? ==>
      forall e | e in HumidityRun(reply, h, s).events :: e.TaskDelay? || DeviceOf(e) == s.ahtDev
  {
  }

  /** In pair mode pressure goes to the BMP280 alone: every call but the
      wait is on the BMP280's device, port and address. */
  lemma PressureRouting(reply: Oracle, h: seq<Event>, s: Sensors)
    requires s.detected.SensorAht20Bmp280?
    ensures PressureRun(reply, h, s) == Bmp280.PressureRun(reply, h, s.bmpDev, s.calib)
    ensures s.bmpDev.Some? ==>
      forall e | e in PressureRun(reply, h, s).events :: e.TaskDelay? || DeviceOf(e) == s.bmpDev
  {
  }

  /** With no sensor detected every operation reports not-found (not
      not-supported) and makes no call. */
  lemma NoSensorNotFound(reply: Oracle, h: seq<Event>, s: Sensors)
    requires s.detected.SensorNone?
    ensures WakeRun(reply, h, s) == Outcome(ESP_ERR_NOT_FOUND, [])
    ensures TemperatureRun(reply, h, s) == Step(ESP_ERR_NOT_FOUND, [], None)
    ensures HumidityRun(reply, h, s) == Step(ESP_ERR_NOT_FOUND, [], None)
    ensures PressureRun(reply, h, s) == Step(ESP_ERR_NOT_FOUND, [], None)
  {
  }

  // ---------------------------------------------------------------------
  // The manager's module state and operations

  /** The module's static state, `detected`, beside the two pair drivers */
  class Manager {
    var detected: SensorType
    const aht: Aht20.Driver
    const bmp: Bmp280.Driver

    constructor ()
      ensures detected == SensorNone && aht.dev == None && bmp.dev == None
      ensures bmp.calib == Bmp280.UNCALIBRATED && bmp.tFine == 0
      ensures fresh(aht) && fresh(bmp)
    {
      detected := SensorNone;
      aht := new Aht20.Driver();
      bmp := new Bmp280.Driver();
    }

    function Current(): Sensors
      reads this, aht, bmp
    {
      Sensors(detected, aht.dev, bmp.dev, bmp.calib)
    }

    /** sensor_init */
    method Init(world: World, bus: BusHandle) returns (r: EspErr)
      modifies this, aht, bmp, world
      ensures var d := DetectRun(world.reply, old(world.trace), bus);
        && r == d.status
        && world.trace == old(world.trace) + d.events
        && detected == (if d.detected.Some? then d.detected.value else old(detected))
        && aht.dev == (if d.aht.Some? then d.aht else old(aht.dev))
        && (d.bmp.Some? ==> bmp.dev == Some(d.bmp.value.dev) && bmp.calib == d.bmp.value.calib)
        && (d.bmp.None? ==> bmp.dev == old(bmp.dev) && bmp.calib == old(bmp.calib))
        && bmp.tFine == old(bmp.tFine)
    {
      ghost var h := world.trace;
      if bus.Bus? {
        var found := world.ScanBus(bus.port);
      }
      assert world.trace == h + ScanEvents(bus);
      var st, value := world.CallBme(BmeInit(bus));
      if st == ESP_OK {
        detected := SensorBme280;
        return ESP_OK;
      }
      ghost var h1 := world.trace;
      ghost var pre := ScanEvents(bus) + [Bme280(BmeInit(bus))];
      assert h1 == h + ScanEvents(bus) + [Bme280(BmeInit(bus))] == h + pre;
      r := InitPair(world, bus);
      ghost var p := PairDetect(world.reply, h1, bus);
      AppendAssoc(h, pre, p.events);
    }

    /** sensor_init once the BME280 has not answered */
    method InitPair(world: World, bus: BusHandle) returns (r: EspErr)
      modifies this, aht, bmp, world
      ensures var p := PairDetect(world.reply, old(world.trace), bus);
        && r == p.status
        && world.trace == old(world.trace) + p.events
        && detected == (if p.detected.Some? then p.detected.value else old(detected))
        && aht.dev == (if p.aht.Some? then p.aht else old(aht.dev))
        && (p.bmp.Some? ==> bmp.dev == Some(p.bmp.value.dev) && bmp.calib == p.bmp.value.calib)
        && (p.bmp.None? ==> bmp.dev == old(bmp.dev) && bmp.calib == old(bmp.calib))
        && bmp.tFine == old(bmp.tFine)
    {
      ghost var h := world.trace;
      var st := aht.Init(world, bus);
      ghost var a := Aht20.InitRun(world.reply, h, bus);
      if st != ESP_OK {
        return ESP_ERR_NOT_FOUND;
      }
      st := bmp.Init(world, bus);
      ghost var b := Bmp280.InitRun(world.reply, h + a.events, bus);
      AppendAssoc(h, a.events, b.events);
      if st != ESP_OK {
        return ESP_ERR_NOT_FOUND;
      }
      detected := SensorAht20Bmp280;
      r := ESP_OK;
    }

    /** sensor_get_type */
    method GetType() returns (t: SensorType)
      ensures t == detected
    {
      t := detected;
    }

    /** sensor_wake_and_measure */
    method WakeAndMeasure(world: World) returns (r: EspErr)
      modifies world
      ensures var w := WakeRun(world.reply, old(world.trace), Current());
        r == w.status && world.trace == old(world.trace) + w.events
    {
      match detected
      case SensorBme280 =>
        var value;
        r, value := world.CallBme(BmeWakeAndMeasure);
      case SensorAht20Bmp280 =>
        var r1 := aht.TriggerMeasurement(world);
        var r2 := bmp.TriggerMeasurement(world);
        r := if r1 == ESP_OK || r2 == ESP_OK then ESP_OK else ESP_FAIL;
      case SensorNone =>
        r := ESP_ERR_NOT_FOUND;
    }

    /** A read of the BME280 wrapper into *out; whether the library writes
        *out on failure is not part of this model, so nothing is claimed */
    method ReadBme(world: World, call: BmeCall, out: Out<real>) returns (r: EspErr)
      modifies world, out
      ensures var run := BmeReadRun(world.reply, old(world.trace), call);
        && r == run.status && world.trace == old(world.trace) + run.events
        && (run.value.Some? ==> out.value == run.value.value)
    {
      var v;
      r, v := world.CallBme(call);
      if r == ESP_OK {
        out.value := v;
      }
    }

    /** sensor_read_temperature */
    method ReadTemperature(world: World, out: Out?<real>) returns (r: EspErr)
      modifies world, out, bmp`tFine
      ensures out == null ==> r == ESP_ERR_INVALID_ARG && world.trace == old(world.trace) && bmp.tFine == old(bmp.tFine)
      ensures out != null ==>
        var run := TemperatureRun(world.reply, old(world.trace), old(Current()));
        && r == run.status
        && world.trace == old(world.trace) + run.events
        && (run.value.Some? ==> out.value == run.value.value)
        && (run.value.None? && !detected.SensorBme280? ==> out.value == old(out.value))
        && bmp.tFine == TFineAfter(world.reply, old(world.trace), old(Current()), old(bmp.tFine))
    {
      if out == null {
        return ESP_ERR_INVALID_ARG;
      }
      match detected
      case SensorBme280 =>
        r := ReadBme(world, BmeReadTemperature, out);
      case SensorAht20Bmp280 =>
        r := aht.ReadTemperature(world, out);
        if r == ESP_OK {
          return r;
        }
        r := bmp.ReadTemperature(world, out);
      case SensorNone =>
        r := ESP_ERR_NOT_FOUND;
    }

    /** sensor_read_humidity */
    method ReadHumidity(world: World, out: Out?<real>) returns (r: EspErr)
      modifies world, out
      ensures out == null ==> r == ESP_ERR_INVALID_ARG && world.trace == old(world.trace)
      ensures out != null ==>
        var run := HumidityRun(world.reply, old(world.trace), Current());
        && r == run.status
        && world.trace == old(world.trace) + run.events
        && (run.value.Some? ==> out.value == run.value.value)
        && (run.value.None? && !detected.SensorBme280? ==> out.value == old(out.value))
    {
      if out == null {
        return ESP_ERR_INVALID_ARG;
      }
      match detected
      case SensorBme280 =>
        r := ReadBme(world, BmeReadHumidity, out);
      case SensorAht20Bmp280 =>
        r := aht.ReadHumidity(world, out);
      case SensorNone =>
        r := ESP_ERR_NOT_FOUND;
    }

    /** sensor_read_pressure */
    method ReadPressure(world: World, out: Out?<real>) returns (r: EspErr)
      modifies world, out
      ensures out == null ==> r == ESP_ERR_INVALID_ARG && world.trace == old(world.trace)
      ensures out != null ==>
        var run := PressureRun(world.reply, old(world.trace), Current());
        && r == run.status
        && world.trace == old(world.trace) + run.events
        && (run.value.Some? ==> out.value == run.value.value)
        && (run.value.None? && !detected.SensorBme280? ==> out.value == old(out.value))
    {
      if out == null {
        return ESP_ERR_INVALID_ARG;
      }
      match detected
      case SensorBme280 =>
        r := ReadBme(world, BmeReadPressure, out);
      case SensorAht20Bmp280 =>
        r := bmp.ReadPressure(world, out);
      case SensorNone =>
        r := ESP_ERR_NOT_FOUND;
    }
  }
}
