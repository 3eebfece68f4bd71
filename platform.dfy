/** The outside world of the sensor core: the I2C bus transport, FreeRTOS
    task delays and the BME280 library. Every call the core makes is recorded, in
    order, in one trace; what each call answers is given by an oracle that may
    depend on everything that happened before, so the model covers every
    behaviour of the hardware and of the libraries. */
module Platform {
  import opened Esp

  /** i2c_bus_handle_t: NULL, or an initialised bus on a controller port */
  datatype BusHandle = NullBus | Bus(port: nat)

  /** A non-NULL i2c_bus_device_handle_t: a 7-bit device address on a bus */
  datatype Device = Device(port: nat, addr: Byte)

  /** The register argument of a burst transfer: NULL_I2C_MEM_ADDR (no
      register phase) or a register address */
  datatype MemAddr = NoRegister | Register(reg: Byte)

  /** The calls of the BME280 application wrapper, a library this model does
      not look inside */
  datatype BmeCall =
    | BmeInit(bus: BusHandle)
    | BmeWakeAndMeasure
    | BmeReadTemperature
    | BmeReadHumidity
    | BmeReadPressure

  datatype Event =
    | DeviceCreate(port: nat, addr: Byte)
    | DeviceDelete(dev: Device)
    | ReadBytes(dev: Device, mem: MemAddr, len: nat)
    | WriteBytes(dev: Device, mem: MemAddr, data: seq<Byte>)
    | Scan(port: nat)
    | TaskDelay(ms: nat)
    | Bme280(call: BmeCall)

  /** What the world answers to one call: a status, the bytes a read
      delivers, the value a BME280 read delivers */
  datatype Reply = Reply(status: EspErr, data: seq<Byte>, value: real)

  /** The answer to a call, given every call made before it */
  type Oracle = (seq<Event>, Event) -> Reply

  /** The effect of a call sequence that returns only a status */
  datatype Outcome = Outcome(status: EspErr, events: seq<Event>)

  /** The effect of a call sequence that also yields a value on success */
  datatype Step<T> = Step(status: EspErr, events: seq<Event>, value: Option<T>)

  /** Histories grow by appending call sequences; the grouping of the
      appends does not matter. */
  lemma AppendAssoc(a: seq<Event>, b: seq<Event>, c: seq<Event>)
    ensures a + b + c == a + (b + c)
  {
    assert |a + b + c| == |a + (b + c)|;
    forall i | 0 <= i < |a + b + c|
      ensures (a + b + c)[i] == (a + (b + c))[i]
    {
    }
  }

  /** The device a call is made on, port and address */
  function DeviceOf(e: Event): (d: Option<Device>)
    ensures d.Some? ==> AddressOf(e) == Some(d.value.addr)
  {
    match e
    case DeviceCreate(port, a) => Some(Device(port, a))
    case DeviceDelete(d) => Some(d)
    case ReadBytes(d, _, _) => Some(d)
    case WriteBytes(d, _, _) => Some(d)
    case _ => None
  }

  /** The bus address an event concerns, if it concerns one */
  function AddressOf(e: Event): Option<Byte> {
    match e
    case DeviceCreate(_, a) => Some(a)
    case DeviceDelete(d) => Some(d.addr)
    case ReadBytes(d, _, _) => Some(d.addr)
    case WriteBytes(d, _, _) => Some(d.addr)
    case _ => None
  }

  /** The buffer a transfer of n bytes fills: a completed transfer always
      moves exactly n bytes, so a longer answer is cut and a shorter one
      padded with zeros. */
  function Fit(s: seq<Byte>, n: nat): (r: seq<Byte>)
    ensures |r| == n
    ensures n <= |s| ==> r == s[..n]
    ensures |s| <= n ==> r[..|s|] == s
  {
    if n <= |s| then s[..n] else s + seq(n - |s|, _ => 0)
  }

  /** i2c_bus_device_create: a handle when the transport says so, else NULL */
  function Created(reply: Oracle, h: seq<Event>, port: nat, addr: Byte): (d: Option<Device>)
    ensures d.Some? ==> d.value == Device(port, addr)
  {
    if reply(h, DeviceCreate(port, addr)).status == ESP_OK then Some(Device(port, addr)) else None
  }

  /** The buffer filled by a burst read */
  function ReadData(reply: Oracle, h: seq<Event>, dev: Device, mem: MemAddr, len: nat): (b: seq<Byte>)
    ensures |b| == len
  {
    Fit(reply(h, ReadBytes(dev, mem, len)).data, len)
  }

  class World {
    const reply: Oracle
    var trace: seq<Event>

    constructor (reply: Oracle)
      ensures this.reply == reply && trace == []
    {
      this.reply := reply;
      trace := [];
    }

    /** i2c_bus_device_create(bus, addr, 0) */
    method Create(port: nat, addr: Byte) returns (dev: Option<Device>)
      modifies this
      ensures trace == old(trace) + [DeviceCreate(port, addr)]
      ensures dev == Created(reply, old(trace), port, addr)
    {
      var a := reply(trace, DeviceCreate(port, addr));
      dev := if a.status == ESP_OK then Some(Device(port, addr)) else None;
      trace := trace + [DeviceCreate(port, addr)];
    }

    /** i2c_bus_device_delete(&dev) */
    method Delete(dev: Device)
      modifies this
      ensures trace == old(trace) + [DeviceDelete(dev)]
    {
      trace := trace + [DeviceDelete(dev)];
    }

    /** i2c_bus_read_bytes(dev, mem, len, buf) */
    method Read(dev: Device, mem: MemAddr, len: nat) returns (status: EspErr, buf: seq<Byte>)
      modifies this
      ensures trace == old(trace) + [ReadBytes(dev, mem, len)]
      ensures status == reply(old(trace), ReadBytes(dev, mem, len)).status
      ensures buf == ReadData(reply, old(trace), dev, mem, len)
    {
      var a := reply(trace, ReadBytes(dev, mem, len));
      status, buf := a.status, Fit(a.data, len);
      trace := trace + [ReadBytes(dev, mem, len)];
    }

    /** i2c_bus_write_bytes(dev, mem, |data|, data) */
    method Write(dev: Device, mem: MemAddr, data: seq<Byte>) returns (status: EspErr)
      modifies this
      ensures trace == old(trace) + [WriteBytes(dev, mem, data)]
      ensures status == reply(old(trace), WriteBytes(dev, mem, data)).status
    {
      status := reply(trace, WriteBytes(dev, mem, data)).status;
      trace := trace + [WriteBytes(dev, mem, data)];
    }

    /** i2c_bus_scan(bus, found, 32): the responding addresses, at most 32 */
    method ScanBus(port: nat) returns (found: seq<Byte>)
      modifies this
      ensures trace == old(trace) + [Scan(port)]
      ensures |found| <= 32
    {
      var a := reply(trace, Scan(port));
      found := if |a.data| <= 32 then a.data else a.data[..32];
      trace := trace + [Scan(port)];
    }

    /** vTaskDelay(pdMS_TO_TICKS(ms)) */
    method Delay(ms: nat)
      modifies this
      ensures trace == old(trace) + [TaskDelay(ms)]
    {
      trace := trace + [TaskDelay(ms)];
    }

    /** A call into the BME280 wrapper: its status and, for a read, its value */
    method CallBme(call: BmeCall) returns (status: EspErr, value: real)
      modifies this
      ensures trace == old(trace) + [Bme280(call)]
      ensures status == reply(old(trace), Bme280(call)).status
      ensures value == reply(old(trace), Bme280(call)).value
    {
      var a := reply(trace, Bme280(call));
      status, value := a.status, a.value;
      trace := trace + [Bme280(call)];
    }
  }
}
