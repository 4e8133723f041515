/** The in-memory settings record the console edits, and the events through
    which the console acts on the outside world (log console, CAN controllers,
    EEPROM, digital outputs). The record's field widths are declared in a
    header that is not part of this model, so every numeric field keeps the
    `int` value the console assigns to it. */
module DeviceSettings {
  import opened Ascii

  /** Index of one of the two CAN controllers. */
  type Bus = b: int | 0 <= b <= 1

  const FilterCount: int := 8

  /** Index of one of the eight receive filters of a bus. */
  type FilterIndex = i: int | 0 <= i < FilterCount

  /** One CAN acceptance filter: identifier, mask, extended-frame flag, enabled flag. */
  datatype Filter = Filter(id: int, mask: int, extended: int, enabled: int)

  datatype Settings = Settings(
    logLevel: int,
    sysType: int,
    can0Enabled: int,
    can0Speed: int,
    can0Filters: seq<Filter>,
    can1Enabled: int,
    can1Speed: int,
    can1Filters: seq<Filter>,
    useBinarySerialComm: int,
    useBinaryFile: int,
    fileNameBase: seq<Byte>,
    fileNameExt: seq<Byte>,
    fileNum: int,
    appendFile: int)
  {
    /** Each bus has exactly eight filter records. */
    predicate Valid() {
      |can0Filters| == FilterCount && |can1Filters| == FilterCount
    }

    function Enabled(bus: Bus): int {
      if bus == 0 then can0Enabled else can1Enabled
    }

    function Speed(bus: Bus): int {
      if bus == 0 then can0Speed else can1Speed
    }

    function FilterAt(bus: Bus, i: FilterIndex): Filter
      requires Valid()
    {
      if bus == 0 then can0Filters[i] else can1Filters[i]
    }

    /** The record with bus `bus` enabled flag set to `v` and nothing else changed. */
    function WithEnabled(bus: Bus, v: int): (r: Settings)
      ensures r.Enabled(bus) == v
      ensures r.Enabled(1 - bus) == Enabled(1 - bus)
      ensures r.(can0Enabled := can0Enabled, can1Enabled := can1Enabled) == this
    {
      if bus == 0 then this.(can0Enabled := v) else this.(can1Enabled := v)
    }

    /** The record with bus `bus` speed set to `v` and nothing else changed. */
    function WithSpeed(bus: Bus, v: int): (r: Settings)
      ensures r.Speed(bus) == v
      ensures r.Speed(1 - bus) == Speed(1 - bus)
      ensures r.(can0Speed := can0Speed, can1Speed := can1Speed) == this
    {
      if bus == 0 then this.(can0Speed := v) else this.(can1Speed := v)
    }

    /** The record with filter `i` of bus `bus` replaced by `f`: the other fifteen
        filter records and every other field are unchanged. */
    function WithFilter(bus: Bus, i: FilterIndex, f: Filter): (r: Settings)
      requires Valid()
      ensures r.Valid()
      ensures r.FilterAt(bus, i) == f
      ensures forall b: Bus, j: FilterIndex :: (b != bus || j != i) ==> r.FilterAt(b, j) == FilterAt(b, j)
      ensures r.(can0Filters := can0Filters, can1Filters := can1Filters) == this
    {
      if bus == 0 then this.(can0Filters := can0Filters[i := f])
      else this.(can1Filters := can1Filters[i := f])
    }
  }

  /** The logger's verbosity levels, numbered 0 to 4 on the console. */
  datatype LogLevel = Debug | Info | Warn | Error | Off

  /** The console lines the command interpreter prints, one per `Logger::console` call. */
  datatype Message =
    | NeedsValue
    | Blank
    | CanEnabledSet(bus: Bus, value: int)
    | BaudRateSet(bus: Bus, value: int)
    | InvalidBaudRate
    | FilterSet(bus: Bus, filter: FilterIndex, id: int, mask: int, extended: int, enabled: int)
    | BinarySerialSet(value: int)
    | BinaryFileSet(value: int)
    | FileBaseSet(name: seq<Byte>)
    | FileExtSet(ext: seq<Byte>)
    | FileNumSet(value: int)
    | FileAppendSet(value: int)
    | SysTypeUpdated
    | InvalidSysType
    | LogLevelSet(level: LogLevel)
    | UnknownCommand
    | OutputsOn
    | OutputsOff

  /** One externally visible action, in the order the console performs them. */
  datatype Effect =
    | Say(msg: Message)                                   // Logger::console
    | Begin(bus: Bus, speed: int)                         // CanN.begin(speed, enable pin)
    | Disable(bus: Bus)                                   // CanN.disable()
    | SetRxFilter(bus: Bus, filter: FilterIndex, id: int, mask: int, extended: int)
    | SetLogLevel(level: LogLevel)                        // Logger::setLoglevel
    | WriteSettings(snapshot: Settings)                   // EEPROM.write of the whole record
    | PrintMenu
    | SetAllOutputs(high: bool)                           // setOutput on every output line
    | Setup                                               // re-run of the device's setup()

  /** Number of EEPROM writes in a trace. */
  function Writes(fx: seq<Effect>): (n: nat)
    ensures n <= |fx|
    ensures n == 0 <==> forall i :: 0 <= i < |fx| ==> !fx[i].WriteSettings?
  {
    if |fx| == 0 then 0
    else (if fx[|fx| - 1].WriteSettings? then 1 else 0) + Writes(fx[..|fx| - 1])
  }

  /** An action on a CAN controller, the logger, the outputs or the device
      itself: anything but a console line or an EEPROM write. */
  predicate IsHardware(e: Effect) {
    !e.Say? && !e.WriteSettings?
  }

  /** The hardware actions of a trace, in their order. */
  function Hardware(fx: seq<Effect>): (hw: seq<Effect>)
    ensures |hw| <= |fx|
    ensures forall e :: e in hw <==> e in fx && IsHardware(e)
  {
    if |fx| == 0 then []
    else (if IsHardware(fx[0]) then [fx[0]] else []) + Hardware(fx[1..])
  }

  /** Splitting a trace splits its hardware actions the same way. */
  lemma {:induction false} HardwareAppend(a: seq<Effect>, b: seq<Effect>)
    ensures Hardware(a + b) == Hardware(a) + Hardware(b)
  {
    if |a| == 0 {
      assert a + b == b;
    } else {
      assert (a + b)[1..] == a[1..] + b;
      HardwareAppend(a[1..], b);
    }
  }
}
