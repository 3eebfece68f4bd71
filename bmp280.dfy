/** Driver for the Bosch BMP280 pressure and temperature sensor: a probe over
    two bus addresses that checks the chip ID and reads the calibration
    burst, the forced-mode trigger, the raw 20-bit ADC values and the
    datasheet's floating-point compensation formulas (here over the reals). */
module Bmp280 {
  import opened Esp
  import opened Bits
  import opened Platform

  const ADDR_0: Byte := 0x76
  const ADDR_1: Byte := 0x77
  const REG_ID: Byte := 0xD0
  const REG_CALIB00: Byte := 0x88
  const REG_CTRL_MEAS: Byte := 0xF4
  const REG_DATA: Byte := 0xF7
  const CHIP_ID: Byte := 0x58
  const CALIB_LEN: nat := 24
  const DATA_LEN: nat := 6
  const CONVERSION_MS: nat := 15

  // ---------------------------------------------------------------------
  // The control byte

  /** ctrl_meas: osrs_t in bits 7..5, osrs_p in bits 4..2, mode in bits 1..0,
      assembled as (osrs_t << 5) | (osrs_p << 2) | mode */
  function CtrlMeas(osrsT: nat, osrsP: nat, mode: nat): (b: Byte)
    requires osrsT < 8 && osrsP < 8 && mode < 4
    ensures b == osrsT * 32 + osrsP * 4 + mode
  {
    Pow2Values();
    var hi, mid := osrsT * 32, osrsP * 4;
    assert Shl(osrsT, 5) == hi && Shl(osrsP, 2) == mid;
    OrShifted(osrsT, mid, 5);
    assert hi + mid == (osrsT * 8 + osrsP) * 4;
    OrShifted(osrsT * 8 + osrsP, mode, 2);
    Or(Or(Shl(osrsT, 5), Shl(osrsP, 2)), mode)
  }

  /** Temperature and pressure oversampling x1, forced (single-shot) mode */
  function ForcedModeCtrl(): Byte {
    CtrlMeas(1, 1, 1)
  }

  lemma ForcedModeCtrlFields()
    ensures ForcedModeCtrl() == 0x25
    ensures ForcedModeCtrl() / 32 == 1 && (ForcedModeCtrl() / 4) % 8 == 1 && ForcedModeCtrl() % 4 == 1
  {
  }

  // ---------------------------------------------------------------------
  // Calibration coefficients

  /** dig_T1 .. dig_P9: T1 and P1 are uint16_t, the other ten int16_t */
  datatype Calibration = Calibration(
    t1: U16, t2: I16, t3: I16,
    p1: U16, p2: I16, p3: I16, p4: I16, p5: I16, p6: I16, p7: I16, p8: I16, p9: I16)

  /** The coefficients before any calibration read: static storage is zero */
  const UNCALIBRATED := Calibration(0, 0, 0, 0, 0, 0, 0, 0, 0, 0, 0, 0)

  /** (hi << 8) | lo: the little-endian 16-bit word in two bytes */
  function Word(lo: Byte, hi: Byte): (w: U16)
    ensures w == lo + 256 * hi
  {
    Pow2Values();
    assert Shl(hi, 8) == hi * 256;
    OrShifted(hi, lo, 8);
    Or(Shl(hi, 8), lo)
  }

  /** The (int16_t) cast: the signed value with the same 16 bits */
  function ToI16(w: U16): (s: I16)
    ensures s % 0x1_0000 == w
    ensures s < 0 <==> w >= 0x8000
  {
    if w < 0x8000 then w else w - 0x1_0000
  }

  /** The 16-bit pattern of a coefficient, as stored on the chip */
  function Bits16(v: int): (w: U16)
    requires -0x8000 <= v < 0x1_0000
  {
    if v < 0 then v + 0x1_0000 else v
  }

  /** Coefficient i of the set, 0 for dig_T1 up to 11 for dig_P9 */
  function Coefficient(c: Calibration, i: nat): int
    requires i < 12
  {
    [c.t1, c.t2, c.t3, c.p1, c.p2, c.p3, c.p4, c.p5, c.p6, c.p7, c.p8, c.p9][i]
  }

  /** dig_T1 (index 0) and dig_P1 (index 3) are the unsigned coefficients */
  predicate IsUnsigned(i: nat) {
    i == 0 || i == 3
  }

  /** bmp280_read_calibration's assignments from the 24-byte burst at 0x88 */
  function ParseCalibration(b: seq<Byte>): (c: Calibration)
    requires |b| == CALIB_LEN
  {
    Calibration(
      Word(b[0], b[1]), ToI16(Word(b[2], b[3])), ToI16(Word(b[4], b[5])),
      Word(b[6], b[7]), ToI16(Word(b[8], b[9])), ToI16(Word(b[10], b[11])),
      ToI16(Word(b[12], b[13])), ToI16(Word(b[14], b[15])), ToI16(Word(b[16], b[17])),
      ToI16(Word(b[18], b[19])), ToI16(Word(b[20], b[21])), ToI16(Word(b[22], b[23])))
  }

  /** The 24 bytes a chip holding the coefficients c sends: each
      coefficient's 16-bit pattern, low byte first */
  function EncodeCalibration(c: Calibration): (b: seq<Byte>)
    ensures |b| == CALIB_LEN
  {
    var w := [c.t1, Bits16(c.t2), Bits16(c.t3), c.p1, Bits16(c.p2), Bits16(c.p3),
              Bits16(c.p4), Bits16(c.p5), Bits16(c.p6), Bits16(c.p7), Bits16(c.p8), Bits16(c.p9)];
    seq(CALIB_LEN, k requires 0 <= k < CALIB_LEN => if k % 2 == 0 then w[k / 2] % 256 else w[k / 2] / 256)
  }

  /** Coefficient i is the little-endian word in bytes 2i and 2i+1,
      unsigned for dig_T1 and dig_P1 and two's complement for the others. */
  lemma ParseCoefficient(b: seq<Byte>, i: nat)
    requires |b| == CALIB_LEN && i < 12
    ensures var w := Word(b[2 * i], b[2 * i + 1]);
      Coefficient(ParseCalibration(b), i) == if IsUnsigned(i) then w else ToI16(w)
  {
  }

  /** The 16-bit pattern of coefficient i */
  function Pattern(c: Calibration, i: nat): U16
    requires i < 12
  {
    Bits16(Coefficient(c, i))
  }

  lemma EncodedBytes(c: Calibration, i: nat)
    requires i < 12
    ensures EncodeCalibration(c)[2 * i] == Pattern(c, i) % 256
    ensures EncodeCalibration(c)[2 * i + 1] == Pattern(c, i) / 256
  {
  }

  /** Parsing the bytes of a coefficient set gives the set back. */
  lemma CalibrationRoundTrip(c: Calibration)
    ensures ParseCalibration(EncodeCalibration(c)) == c
  {
    forall i | 0 <= i < 12
      ensures Coefficient(ParseCalibration(EncodeCalibration(c)), i) == Coefficient(c, i)
    {
      CoefficientRoundTrip(c, i);
    }
    CoefficientsDetermine(ParseCalibration(EncodeCalibration(c)), c);
  }

  lemma CoefficientRoundTrip(c: Calibration, i: nat)
    requires i < 12
    ensures Coefficient(ParseCalibration(EncodeCalibration(c)), i) == Coefficient(c, i)
  {
    var b := EncodeCalibration(c);
    EncodedBytes(c, i);
    ParseCoefficient(b, i);
    SignedPattern(Coefficient(c, i));
  }

  lemma SignedPattern(v: int)
    requires -0x8000 <= v < 0x1_0000
    ensures Word(Bits16(v) % 256, Bits16(v) / 256) == Bits16(v)
    ensures v < 0x8000 ==> ToI16(Bits16(v)) == v
    ensures v >= 0 ==> Bits16(v) == v
  {
  }

  lemma PatternOfParsed(b: seq<Byte>, i: nat)
    requires |b| == CALIB_LEN && i < 12
    ensures Pattern(ParseCalibration(b), i) == Word(b[2 * i], b[2 * i + 1])
  {
    ParseCoefficient(b, i);
  }

  /** Encoding the coefficients parsed from a burst gives the burst back, so
      ParseCalibration is a bijection between bursts and coefficient sets. */
  lemma CalibrationBytesRoundTrip(b: seq<Byte>)
    requires |b| == CALIB_LEN
    ensures EncodeCalibration(ParseCalibration(b)) == b
  {
    var e := EncodeCalibration(ParseCalibration(b));
    forall k | 0 <= k < CALIB_LEN
      ensures e[k] == b[k]
    {
      ByteRoundTrip(b, k);
    }
  }

  lemma ByteRoundTrip(b: seq<Byte>, k: nat)
    requires |b| == CALIB_LEN && k < CALIB_LEN
    ensures EncodeCalibration(ParseCalibration(b))[k] == b[k]
  {
    var c := ParseCalibration(b);
    var i := k / 2;
    var w := Word(b[2 * i], b[2 * i + 1]);
    EncodedBytes(c, i);
    PatternOfParsed(b, i);
    assert Pattern(c, i) == w;
    WordBytes(b[2 * i], b[2 * i + 1]);
    if k % 2 == 0 {
      assert k == 2 * i;
      assert EncodeCalibration(c)[2 * i] == w % 256 == b[2 * i];
    } else {
      assert k == 2 * i + 1;
      assert EncodeCalibration(c)[2 * i + 1] == w / 256 == b[2 * i + 1];
    }
  }

  /** The two bytes of a word can be read back from it. */
  lemma WordBytes(lo: Byte, hi: Byte)
    ensures Word(lo, hi) % 256 == lo && Word(lo, hi) / 256 == hi
  {
    var w := Word(lo, hi);
    assert w == lo + 256 * hi;
    DivModUnique(w, 256, hi, lo);
  }

  lemma CoefficientsDetermine(c: Calibration, d: Calibration)
    requires forall i | 0 <= i < 12 :: Coefficient(c, i) == Coefficient(d, i)
    ensures c == d
  {
    assert Coefficient(c, 0) == Coefficient(d, 0) && Coefficient(c, 1) == Coefficient(d, 1);
    assert Coefficient(c, 2) == Coefficient(d, 2) && Coefficient(c, 3) == Coefficient(d, 3);
    assert Coefficient(c, 4) == Coefficient(d, 4) && Coefficient(c, 5) == Coefficient(d, 5);
    assert Coefficient(c, 6) == Coefficient(d, 6) && Coefficient(c, 7) == Coefficient(d, 7);
    assert Coefficient(c, 8) == Coefficient(d, 8) && Coefficient(c, 9) == Coefficient(d, 9);
    assert Coefficient(c, 10) == Coefficient(d, 10) && Coefficient(c, 11) == Coefficient(d, 11);
  }

  // ---------------------------------------------------------------------
  // Raw ADC values

  /** (msb << 12) | (lsb << 4) | (xlsb >> 4): a 20-bit ADC value whose four
      lowest bits sit in the upper nibble of the third byte */
  function Adc20(msb: Byte, lsb: Byte, xlsb: Byte): (v: nat)
    ensures v == msb * 4096 + lsb * 16 + xlsb / 16
    ensures v < 0x10_0000
  {
    Pack20(msb, lsb, xlsb);
    Or(Or(Shl(msb, 12), Shl(lsb, 4)), Shr(xlsb, 4))
  }

  datatype RawSample = RawSample(adcT: nat, adcP: nat)

  /** The 6-byte burst at 0xF7: pressure in bytes 0..2, temperature in 3..5 */
  function UnpackRaw(d: seq<Byte>): (r: RawSample)
    requires |d| == DATA_LEN
    ensures r.adcT < 0x10_0000 && r.adcP < 0x10_0000
  {
    RawSample(Adc20(d[3], d[4], d[5]), Adc20(d[0], d[1], d[2]))
  }

  /** The burst a chip holding the 20-bit values s sends (low nibbles zero) */
  function PackRaw(s: RawSample): (d: seq<Byte>)
    requires s.adcT < 0x10_0000 && s.adcP < 0x10_0000
    ensures |d| == DATA_LEN
  {
    [s.adcP / 4096, (s.adcP / 16) % 256, (s.adcP % 16) * 16,
     s.adcT / 4096, (s.adcT / 16) % 256, (s.adcT % 16) * 16]
  }

  lemma RawRoundTrip(s: RawSample)
    requires s.adcT < 0x10_0000 && s.adcP < 0x10_0000
    ensures UnpackRaw(PackRaw(s)) == s
  {
    Split20(s.adcT);
    Split20(s.adcP);
  }

  lemma Split20(v: nat)
    requires v < 0x10_0000
    ensures v == (v / 4096) * 4096 + ((v / 16) % 256) * 16 + ((v % 16) * 16) / 16
    ensures v / 4096 < 256
  {
    var a := v / 16;
    assert v == 16 * a + v % 16;
    assert a == 256 * (a / 256) + a % 256;
    assert v == (a / 256) * 4096 + (16 * (a % 256) + v % 16);
    DivModUnique(v, 4096, a / 256, 16 * (a % 256) + v % 16);
  }

  /** The low nibbles of bytes 2 and 5 carry nothing. */
  lemma UnpackIgnoresLowNibbles(d: seq<Byte>, e: seq<Byte>)
    requires |d| == DATA_LEN && |e| == DATA_LEN
    requires d[0] == e[0] && d[1] == e[1] && d[2] / 16 == e[2] / 16
    requires d[3] == e[3] && d[4] == e[4] && d[5] / 16 == e[5] / 16
    ensures UnpackRaw(d) == UnpackRaw(e)
  {
  }

  /** Distinct 20-bit values come from bursts that differ outside the
      ignored nibbles: the unpacking loses nothing else. */
  lemma UnpackInjective(d: seq<Byte>, e: seq<Byte>)
    requires |d| == DATA_LEN && |e| == DATA_LEN
    requires UnpackRaw(d) == UnpackRaw(e)
    ensures d[0] == e[0] && d[1] == e[1] && d[2] / 16 == e[2] / 16
    ensures d[3] == e[3] && d[4] == e[4] && d[5] / 16 == e[5] / 16
  {
  }

  // ---------------------------------------------------------------------
  // Compensation (the datasheet's floating-point formulas, over the reals)

  /** The (int32_t) cast of a float: truncation toward zero */
  function TruncToInt(x: real): (i: int)
    ensures 0.0 <= x ==> i as real <= x < i as real + 1.0
    ensures x < 0.0 ==> i as real - 1.0 < x <= i as real
  {
    if x >= 0.0 then x.Floor else -((-x).Floor)
  }

  /** var1 + var2 of the temperature formula: the temperature in units of
      1/5120 degC, of which t_fine is the integer part */
  function FineTemperature(adcT: int, c: Calibration): real {
    var var1 := (adcT as real / 16384.0 - c.t1 as real / 1024.0) * c.t2 as real;
    var d := adcT as real / 131072.0 - c.t1 as real / 8192.0;
    var var2 := (d * d) * c.t3 as real;
    var1 + var2
  }

  /** t_fine = (int32_t)T */
  function TFine(adcT: int, c: Calibration): int {
    TruncToInt(FineTemperature(adcT, c))
  }

  /** For every 20-bit sample and every coefficient set the fine temperature
      stays within 2^22 in magnitude, so the (int32_t) cast of t_fine never
      overflows. */
  lemma FineTemperatureBounded(adcT: nat, c: Calibration)
    requires adcT < 0x10_0000
    ensures -4194304.0 <= FineTemperature(adcT, c) <= 4194304.0
    ensures -0x8000_0000 <= TFine(adcT, c) < 0x8000_0000
  {
    var a := adcT as real / 16384.0 - c.t1 as real / 1024.0;
    var d := adcT as real / 131072.0 - c.t1 as real / 8192.0;
    assert -64.0 <= a <= 64.0 && -8.0 <= d <= 8.0;
    ProductBound(a, c.t2 as real, 64.0, 32768.0);
    ProductBound(d, d, 8.0, 8.0);
    ProductBound(d * d, c.t3 as real, 64.0, 32768.0);
  }

  lemma ProductBound(x: real, y: real, m: real, n: real)
    requires -m <= x <= m && -n <= y <= n
    ensures -(m * n) <= x * y <= m * n
  {
    if x >= 0.0 {
      if y >= 0.0 {
        assert x * y <= m * y <= m * n;
      } else {
        assert x * y >= x * -n >= m * -n;
      }
    } else {
      if y >= 0.0 {
        assert x * y >= -m * y >= -m * n;
      } else {
        assert x * y <= -m * y <= m * n;
      }
    }
  }

  /** T / 5120: degrees Celsius */
  function TemperatureC(adcT: int, c: Calibration): real {
    FineTemperature(adcT, c) / 5120.0
  }

  /** (1 + var1 / 32768) * dig_P1: the value the pressure formula divides by */
  function PressureDenominator(tFine: int, c: Calibration): real {
    var var1 := tFine as real / 2.0 - 64000.0;
    var var1b := (c.p3 as real * var1 * var1 / 524288.0 + c.p2 as real * var1) / 524288.0;
    (1.0 + var1b / 32768.0) * c.p1 as real
  }

  datatype Pressure = Hpa(hpa: real) | ZeroDenominator

  /** The pressure formula for raw value adcP, given t_fine: hPa, or the
      division-by-zero guard */
  function CompensatePressure(adcP: int, tFine: int, c: Calibration): Pressure {
    var var1 := tFine as real / 2.0 - 64000.0;
    var var2 := var1 * var1 * c.p6 as real / 32768.0;
    var var2b := var2 + var1 * c.p5 as real * 2.0;
    var var2c := var2b / 4.0 + c.p4 as real * 65536.0;
    var den := PressureDenominator(tFine, c);
    if den == 0.0 then ZeroDenominator
    else
      var p := 1048576.0 - adcP as real;
      var p1 := (p - var2c / 4096.0) * 6250.0 / den;
      var w1 := c.p9 as real * p1 * p1 / 2147483648.0;
      var w2 := p1 * c.p8 as real / 32768.0;
      var p2 := p1 + (w1 + w2 + c.p7 as real) / 16.0;
      Hpa(p2 / 100.0)
  }

  /** The guard: no value exactly when the denominator is zero, which an
      uncalibrated or zero dig_P1 always causes. */
  lemma PressureGuard(adcP: int, tFine: int, c: Calibration)
    ensures CompensatePressure(adcP, tFine, c).ZeroDenominator? <==> PressureDenominator(tFine, c) == 0.0
    ensures c.p1 == 0 ==> CompensatePressure(adcP, tFine, c) == ZeroDenominator
  {
  }

  /** The worked example of the BMP280 datasheet (section 3.12): 25.08 degC
      and 100653 Pa. */
  lemma DatasheetExample()
    ensures var c := Calibration(27504, 26435, -1000, 36477, -10685, 3024, 2855, 140, -7, 15500, -14600, 6000);
      && TFine(519888, c) == 128422
      && 25.08 <= TemperatureC(519888, c) < 25.09
      && CompensatePressure(415148, TFine(519888, c), c).Hpa?
      && 1006.53 <= CompensatePressure(415148, TFine(519888, c), c).hpa < 1006.54
  {
  }

  // ---------------------------------------------------------------------
  // Call sequences: what each driver operation asks of the world, given the
  // answers of the world so far

  /** An accepted candidate: its handle and the coefficients read from it */
  datatype Accepted = Accepted(dev: Device, calib: Calibration)

  /** One candidate address: create a handle, read the ID register, and on a
      match read the calibration burst; a rejected handle is deleted. */
  function ProbeRun(reply: Oracle, h: seq<Event>, port: nat, addr: Byte): Step<Accepted> {
    var create := DeviceCreate(port, addr);
    var d := Created(reply, h, port, addr);
    if d.None? then Step(ESP_ERR_NOT_FOUND, [create], None)
    else
      var dev := d.value;
      var h1 := h + [create];
      var idRead := ReadBytes(dev, Register(REG_ID), 1);
      if reply(h1, idRead).status != ESP_OK || ReadData(reply, h1, dev, Register(REG_ID), 1)[0] != CHIP_ID then
        Step(ESP_ERR_NOT_FOUND, [create, idRead, DeviceDelete(dev)], None)
      else
        var h2 := h1 + [idRead];
        var calRead := ReadBytes(dev, Register(REG_CALIB00), CALIB_LEN);
        if reply(h2, calRead).status != ESP_OK then
          Step(ESP_ERR_NOT_FOUND, [create, idRead, calRead, DeviceDelete(dev)], None)
        else
          var calib := ParseCalibration(ReadData(reply, h2, dev, Register(REG_CALIB00), CALIB_LEN));
          Step(ESP_OK, [create, idRead, calRead], Some(Accepted(dev, calib)))
  }

  /** bmp280_init: the primary address, then the secondary one */
  function InitRun(reply: Oracle, h: seq<Event>, bus: BusHandle): Step<Accepted> {
    match bus
    case NullBus => Step(ESP_ERR_INVALID_ARG, [], None)
    case Bus(port) =>
      var p0 := ProbeRun(reply, h, port, ADDR_0);
      if p0.status == ESP_OK then p0
      else
        var p1 := ProbeRun(reply, h + p0.events, port, ADDR_1);
        Step(p1.status, p0.events + p1.events, p1.value)
  }

  /** bmp280_trigger_measurement */
  function TriggerRun(reply: Oracle, h: seq<Event>, dev: Option<Device>): Outcome {
    match dev
    case None => Outcome(ESP_ERR_NOT_FOUND, [])
    case Some(d) =>
      var w := WriteBytes(d, Register(REG_CTRL_MEAS), [ForcedModeCtrl()]);
      Outcome(reply(h, w).status, [w])
  }

  /** bmp280_read_raw with both outputs given: trigger, wait, read the burst */
  function ReadRawRun(reply: Oracle, h: seq<Event>, dev: Option<Device>): Step<RawSample> {
    if dev.None? then Step(ESP_ERR_NOT_FOUND, [], None)
    else
      var t := TriggerRun(reply, h, dev);
      if t.status != ESP_OK then Step(t.status, t.events, None)
      else
        var pre := t.events + [TaskDelay(CONVERSION_MS)];
        var rd := ReadBytes(dev.value, Register(REG_DATA), DATA_LEN);
        if reply(h + pre, rd).status != ESP_OK then Step(reply(h + pre, rd).status, pre + [rd], None)
        else Step(ESP_OK, pre + [rd], Some(UnpackRaw(ReadData(reply, h + pre, dev.value, Register(REG_DATA), DATA_LEN))))
  }

  /** bmp280_read_temperature with an output given: degrees Celsius */
  function TemperatureRun(reply: Oracle, h: seq<Event>, dev: Option<Device>, c: Calibration): Step<real> {
    var raw := ReadRawRun(reply, h, dev);
    match raw.value
    case None => Step(raw.status, raw.events, None)
    case Some(s) => Step(ESP_OK, raw.events, Some(TemperatureC(s.adcT, c)))
  }

  /** bmp280_read_pressure with an output given: hPa, from a fresh sample */
  function PressureRun(reply: Oracle, h: seq<Event>, dev: Option<Device>, c: Calibration): Step<real> {
    var raw := ReadRawRun(reply, h, dev);
    match raw.value
    case None => Step(raw.status, raw.events, None)
    case Some(s) =>
      match CompensatePressure(s.adcP, TFine(s.adcT, c), c)
      case ZeroDenominator => Step(ESP_ERR_INVALID_STATE, raw.events, None)
      case Hpa(p) => Step(ESP_OK, raw.events, Some(p))
  }

  // ---------------------------------------------------------------------
  // Properties of the call sequences

  /** A candidate is accepted exactly when its handle is created, the ID read
      succeeds and returns 0x58, and the calibration read succeeds; the
      accepted coefficients are those of that burst. */
  lemma ProbeAcceptance(reply: Oracle, h: seq<Event>, port: nat, addr: Byte)
    ensures var p := ProbeRun(reply, h, port, addr);
      var dev := Device(port, addr);
      var h1 := h + [DeviceCreate(port, addr)];
      var idRead := ReadBytes(dev, Register(REG_ID), 1);
      var h2 := h1 + [idRead];
      var calRead := ReadBytes(dev, Register(REG_CALIB00), CALIB_LEN);
      && (p.status == ESP_OK <==>
            && Created(reply, h, port, addr).Some?
            && reply(h1, idRead).status == ESP_OK
            && ReadData(reply, h1, dev, Register(REG_ID), 1)[0] == CHIP_ID
            && reply(h2, calRead).status == ESP_OK)
      && (p.status == ESP_OK ==>
            p.value == Some(Accepted(dev, ParseCalibration(ReadData(reply, h2, dev, Register(REG_CALIB00), CALIB_LEN)))))
      && (p.status != ESP_OK ==> p.status == ESP_ERR_NOT_FOUND && p.value == None)
  {
  }

  /** A probe talks to its own address only, starting with the handle's
      creation; a created handle that is rejected is deleted as the last
      step, and an accepted one is never deleted. */
  lemma ProbeHandleDiscipline(reply: Oracle, h: seq<Event>, port: nat, addr: Byte)
    ensures var p := ProbeRun(reply, h, port, addr);
      && |p.events| >= 1 && p.events[0] == DeviceCreate(port, addr)
      && (forall e | e in p.events :: AddressOf(e) == Some(addr))
      && (Created(reply, h, port, addr).None? ==> p.events == [DeviceCreate(port, addr)])
      && (Created(reply, h, port, addr).Some? && p.status != ESP_OK ==>
            p.events[|p.events| - 1] == DeviceDelete(Device(port, addr)))
      && (p.status == ESP_OK ==> forall e | e in p.events :: !e.DeviceDelete?)
  {
  }

  /** bmp280_init with a NULL bus fails with invalid-arg and touches nothing. */
  lemma InitNullBus(reply: Oracle, h: seq<Event>)
    ensures InitRun(reply, h, NullBus) == Step(ESP_ERR_INVALID_ARG, [], None)
  {
  }

  /** 0x76 is probed first; 0x77 only if 0x76 is rejected; no other address
      is ever addressed; the result is OK exactly when one of the two was
      accepted, and not-found otherwise. */
  lemma InitProbeOrder(reply: Oracle, h: seq<Event>, port: nat)
    ensures var p0 := ProbeRun(reply, h, port, ADDR_0);
      var p1 := ProbeRun(reply, h + p0.events, port, ADDR_1);
      var r := InitRun(reply, h, Bus(port));
      && r.events == p0.events + (if p0.status == ESP_OK then [] else p1.events)
      && (forall e | e in r.events :: AddressOf(e) == Some(ADDR_0) || AddressOf(e) == Some(ADDR_1))
      && (r.status == ESP_OK <==> p0.status == ESP_OK || p1.status == ESP_OK)
      && (r.status != ESP_OK ==> r.status == ESP_ERR_NOT_FOUND && r.value == None)
      && (r.status == ESP_OK ==> r.value == if p0.status == ESP_OK then p0.value else p1.value)
  {
    ProbeHandleDiscipline(reply, h, port, ADDR_0);
    ProbeHandleDiscipline(reply, h + ProbeRun(reply, h, port, ADDR_0).events, port, ADDR_1);
  }

  /** A successful init records the device of the accepted address: 0x76
      when its probe succeeded, 0x77 otherwise. */
  lemma InitDevice(reply: Oracle, h: seq<Event>, port: nat)
    ensures var r := InitRun(reply, h, Bus(port));
      r.status == ESP_OK ==>
        && r.value.Some?
        && r.value.value.dev == Device(port, if ProbeRun(reply, h, port, ADDR_0).status == ESP_OK then ADDR_0 else ADDR_1)
  {
    var p0 := ProbeRun(reply, h, port, ADDR_0);
    ProbeAcceptance(reply, h, port, ADDR_0);
    ProbeAcceptance(reply, h + p0.events, port, ADDR_1);
  }

  /** The trigger writes exactly one byte, 0x25, to register 0xF4 and
      returns the write's status; without a device it does nothing. */
  lemma TriggerWritesForcedMode(reply: Oracle, h: seq<Event>, dev: Option<Device>)
    ensures var t := TriggerRun(reply, h, dev);
      && (dev.None? ==> t == Outcome(ESP_ERR_NOT_FOUND, []))
      && (dev.Some? ==>
            var w := WriteBytes(dev.value, Register(0xF4), [0x25]);
            t == Outcome(reply(h, w).status, [w]))
  {
    ForcedModeCtrlFields();
  }

  /** A raw read yields a sample exactly when it returns OK; a failed trigger
      is returned as it is and no read is made; a failed read is returned as
      it is. */
  lemma ReadRawErrors(reply: Oracle, h: seq<Event>, dev: Option<Device>)
    ensures var r := ReadRawRun(reply, h, dev);
      var t := TriggerRun(reply, h, dev);
      && (r.value.Some? <==> r.status == ESP_OK)
      && (dev.None? ==> r.status == ESP_ERR_NOT_FOUND && r.events == [])
      && (dev.Some? && t.status != ESP_OK ==> r.status == t.status && r.events == t.events)
      && (dev.Some? && t.status == ESP_OK ==>
            var pre := t.events + [TaskDelay(CONVERSION_MS)];
            var rd := ReadBytes(dev.value, Register(REG_DATA), DATA_LEN);
            r.events == pre + [rd] && r.status == reply(h + pre, rd).status)
  {
  }

  /** Temperature: the compensated value of a fresh sample, or the raw
      read's error unchanged. */
  lemma TemperatureErrors(reply: Oracle, h: seq<Event>, dev: Option<Device>, c: Calibration)
    ensures var t := TemperatureRun(reply, h, dev, c);
      var r := ReadRawRun(reply, h, dev);
      && t.status == r.status && t.events == r.events
      && (t.value.Some? <==> t.status == ESP_OK)
      && (t.value.Some? ==> t.value.value == TemperatureC(r.value.value.adcT, c))
  {
  }

  /** Pressure: invalid-state exactly when the sample was read but the
      denominator is zero; otherwise the raw read's status; on success the
      compensated value of the sample's own pressure and temperature. */
  lemma PressureErrors(reply: Oracle, h: seq<Event>, dev: Option<Device>, c: Calibration)
    ensures var p := PressureRun(reply, h, dev, c);
      var r := ReadRawRun(reply, h, dev);
      && p.events == r.events
      && (p.value.Some? <==> p.status == ESP_OK)
      && (r.value.None? ==> p.status == r.status)
      && (r.value.Some? ==>
            (p.status == ESP_ERR_INVALID_STATE <==> PressureDenominator(TFine(r.value.value.adcT, c), c) == 0.0))
      && (r.value.Some? && p.value.Some? ==>
            CompensatePressure(r.value.value.adcP, TFine(r.value.value.adcT, c), c) == Hpa(p.value.value))
      && (r.value.Some? && c.p1 == 0 ==> p.status == ESP_ERR_INVALID_STATE)
  {
    var r := ReadRawRun(reply, h, dev);
    if r.value.Some? {
      PressureGuard(r.value.value.adcP, TFine(r.value.value.adcT, c), c);
    }
  }

  // ---------------------------------------------------------------------
  // The driver's module state and operations

  class Driver {
    /** s_dev */
    var dev: Option<Device>
    /** dig_T1 .. dig_P9 */
    var calib: Calibration
    /** t_fine */
    var tFine: int

    constructor ()
      ensures dev == None && calib == UNCALIBRATED && tFine == 0
    {
      dev, calib, tFine := None, UNCALIBRATED, 0;
    }

    /** bmp280_read_calibration: one 24-byte burst; the coefficients are
        assigned only when it succeeds */
    method ReadCalibration(world: World, d: Device) returns (r: EspErr)
      modifies this`calib, world
      ensures world.trace == old(world.trace) + [ReadBytes(d, Register(REG_CALIB00), CALIB_LEN)]
      ensures r == world.reply(old(world.trace), ReadBytes(d, Register(REG_CALIB00), CALIB_LEN)).status
      ensures calib == if r == ESP_OK
        then ParseCalibration(ReadData(world.reply, old(world.trace), d, Register(REG_CALIB00), CALIB_LEN))
        else old(calib)
    {
      var st, b := world.Read(d, Register(REG_CALIB00), CALIB_LEN);
      if st != ESP_OK {
        return st;
      }
      calib := calib.(t1 := Word(b[0], b[1]));
      calib := calib.(t2 := ToI16(Word(b[2], b[3])));
      calib := calib.(t3 := ToI16(Word(b[4], b[5])));
      calib := calib.(p1 := Word(b[6], b[7]));
      calib := calib.(p2 := ToI16(Word(b[8], b[9])));
      calib := calib.(p3 := ToI16(Word(b[10], b[11])));
      calib := calib.(p4 := ToI16(Word(b[12], b[13])));
      calib := calib.(p5 := ToI16(Word(b[14], b[15])));
      calib := calib.(p6 := ToI16(Word(b[16], b[17])));
      calib := calib.(p7 := ToI16(Word(b[18], b[19])));
      calib := calib.(p8 := ToI16(Word(b[20], b[21])));
      calib := calib.(p9 := ToI16(Word(b[22], b[23])));
      r := ESP_OK;
    }

    /** One candidate address of bmp280_init */
    method TryAddress(world: World, port: nat, addr: Byte) returns (accepted: bool)
      modifies this`dev, this`calib, world
      ensures var p := ProbeRun(world.reply, old(world.trace), port, addr);
        && accepted == (p.status == ESP_OK)
        && world.trace == old(world.trace) + p.events
        && (accepted ==> p.value.Some? && dev == Some(p.value.value.dev) && calib == p.value.value.calib)
        && (!accepted ==> dev == old(dev) && calib == old(calib))
    {
      ghost var h := world.trace;
      var d := world.Create(port, addr);
      if d.Some? {
        ghost var idRead := ReadBytes(d.value, Register(REG_ID), 1);
        var st, id := world.Read(d.value, Register(REG_ID), 1);
        assert world.trace == h + [DeviceCreate(port, addr), idRead];
        if st == ESP_OK && id[0] == CHIP_ID {
          ghost var calRead := ReadBytes(d.value, Register(REG_CALIB00), CALIB_LEN);
          var rc := ReadCalibration(world, d.value);
          assert world.trace == h + [DeviceCreate(port, addr), idRead, calRead];
          if rc == ESP_OK {
            dev := d;
            return true;
          }
        }
        world.Delete(d.value);
      }
      accepted := false;
    }

    /** bmp280_init */
    method Init(world: World, bus: BusHandle) returns (r: EspErr)
      modifies this`dev, this`calib, world
      ensures var run := InitRun(world.reply, old(world.trace), bus);
        && r == run.status
        && world.trace == old(world.trace) + run.events
        && (run.value.Some? ==> dev == Some(run.value.value.dev) && calib == run.value.value.calib)
        && (run.value.None? ==> dev == old(dev) && calib == old(calib))
    {
      if bus.NullBus? {
        return ESP_ERR_INVALID_ARG;
      }
      ghost var h := world.trace;
      ghost var p0 := ProbeRun(world.reply, h, bus.port, ADDR_0);
      var ok := TryAddress(world, bus.port, ADDR_0);
      if ok {
        return ESP_OK;
      }
      ghost var p1 := ProbeRun(world.reply, h + p0.events, bus.port, ADDR_1);
      ok := TryAddress(world, bus.port, ADDR_1);
      AppendAssoc(h, p0.events, p1.events);
      assert InitRun(world.reply, h, bus) == Step(p1.status, p0.events + p1.events, p1.value);
      if ok {
        return ESP_OK;
      }
      r := ESP_ERR_NOT_FOUND;
    }

    /** bmp280_trigger_measurement */
    method TriggerMeasurement(world: World) returns (r: EspErr)
      modifies world
      ensures var run := TriggerRun(world.reply, old(world.trace), dev);
        r == run.status && world.trace == old(world.trace) + run.events
    {
      if dev.None? {
        return ESP_ERR_NOT_FOUND;
      }
      r := world.Write(dev.value, Register(REG_CTRL_MEAS), [ForcedModeCtrl()]);
    }

    /** bmp280_read_raw: writes *adc_P, then *adc_T */
    method ReadRaw(world: World, adcT: Out?<int>, adcP: Out?<int>) returns (r: EspErr)
      modifies world, adcT, adcP
      ensures adcT == null || adcP == null ==>
        r == ESP_ERR_INVALID_ARG && world.trace == old(world.trace)
        && (adcT != null ==> adcT.value == old(adcT.value)) && (adcP != null ==> adcP.value == old(adcP.value))
      ensures adcT != null && adcP != null ==>
        var run := ReadRawRun(world.reply, old(world.trace), dev);
        && r == run.status
        && world.trace == old(world.trace) + run.events
        && (run.value.Some? ==>
              adcT.value == run.value.value.adcT && (adcP != adcT ==> adcP.value == run.value.value.adcP))
        && (run.value.None? ==> adcT.value == old(adcT.value) && adcP.value == old(adcP.value))
    {
      if adcT == null || adcP == null {
        return ESP_ERR_INVALID_ARG;
      }
      if dev.None? {
        return ESP_ERR_NOT_FOUND;
      }
      ghost var h := world.trace;
      r := TriggerMeasurement(world);
      if r != ESP_OK {
        return r;
      }
      world.Delay(CONVERSION_MS);
      ghost var pre := TriggerRun(world.reply, h, dev).events + [TaskDelay(CONVERSION_MS)];
      assert world.trace == h + pre;
      var data;
      r, data := world.Read(dev.value, Register(REG_DATA), DATA_LEN);
      if r != ESP_OK {
        return r;
      }
      assert UnpackRaw(data) == ReadRawRun(world.reply, h, dev).value.value;
      adcP.value := Adc20(data[0], data[1], data[2]);
      adcT.value := Adc20(data[3], data[4], data[5]);
    }

    /** bmp280_read_temperature: also the only writer of t_fine */
    method ReadTemperature(world: World, out: Out?<real>) returns (r: EspErr)
      modifies world, out, this`tFine
      ensures out == null ==> r == ESP_ERR_INVALID_ARG && world.trace == old(world.trace) && tFine == old(tFine)
      ensures out != null ==>
        var raw := ReadRawRun(world.reply, old(world.trace), dev);
        && r == raw.status
        && world.trace == old(world.trace) + raw.events
        && (raw.value.Some? ==> out.value == TemperatureC(raw.value.value.adcT, calib)
                                && tFine == TFine(raw.value.value.adcT, calib))
        && (raw.value.None? ==> out.value == old(out.value) && tFine == old(tFine))
    {
      if out == null {
        return ESP_ERR_INVALID_ARG;
      }
      var adcT := new Out<int>(0);
      var adcP := new Out<int>(0);
      r := ReadRaw(world, adcT, adcP);
      if r != ESP_OK {
        return r;
      }
      var t := FineTemperature(adcT.value, calib);
      tFine := TruncToInt(t);
      out.value := t / 5120.0;
    }

    /** bmp280_read_pressure: a fresh sample of its own; t_fine is recomputed
        locally and never stored */
    method ReadPressure(world: World, out: Out?<real>) returns (r: EspErr)
      modifies world, out
      ensures out == null ==> r == ESP_ERR_INVALID_ARG && world.trace == old(world.trace)
      ensures out != null ==>
        var run := PressureRun(world.reply, old(world.trace), dev, calib);
        && r == run.status
        && world.trace == old(world.trace) + run.events
        && out.value == (if run.value.Some? then run.value.value else old(out.value))
    {
      if out == null {
        return ESP_ERR_INVALID_ARG;
      }
      var adcT := new Out<int>(0);
      var adcP := new Out<int>(0);
      r := ReadRaw(world, adcT, adcP);
      if r != ESP_OK {
        return r;
      }
      var tF := TFine(adcT.value, calib);
      var p := CompensatePressure(adcP.value, tF, calib);
      if p.ZeroDenominator? {
        return ESP_ERR_INVALID_STATE;
      }
      out.value := p.hpa;
    }
  }
}
