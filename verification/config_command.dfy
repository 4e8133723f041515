/** `handleConfigCmd` and `handleFilterSet`: a `KEY=VALUE` line is split at its
    first `=`, the key is upper-cased and looked up in a fixed table, and the
    value is read by `strtol` or taken as text. Each handler validates or clamps
    the value, edits the settings record, drives the CAN controllers or the
    logger, and may ask for the whole record to be written to EEPROM, which
    then happens once, as the last action of the command. */
module ConfigCommand {
  import opened Ascii
  import opened CStrToL
  import opened CStrTok
  import opened DeviceSettings
  import opened Wrappers

  /** A four-character key, `=`, and one value character. */
  const MinConfigLength: int := 6
  const MaxBaud: int := 1_000_000

  type Uint8 = x: int | 0 <= x < 0x100

  /** The settings after a command and the actions it performed. */
  datatype Reply = Reply(settings: Settings, effects: seq<Effect>)

  /** The handler a key selects. */
  datatype Command =
    | CanEnable(bus: Bus)
    | CanSpeed(bus: Bus)
    | CanFilter(bus: Bus, index: FilterIndex)
    | BinSerial
    | BinFile
    | FileBase
    | FileExt
    | FileNum
    | FileAppend
    | SysType
    | LogLevelKey
    | Unknown

  /* ---------------- Splitting the line ---------------- */

  /** The key and the raw value of a line: the text before the first `=` and
      the text after it. None when there is no `=` or nothing follows it. */
  function SplitAssignment(line: seq<Byte>): (r: Option<(seq<Byte>, seq<Byte>)>)
    ensures r.Some? ==> line == r.value.0 + ['='] + r.value.1
    ensures r.Some? ==> '=' !in r.value.0 && |r.value.1| > 0
    ensures r.None? <==> IndexOf(line, '=') + 1 >= |line|
  {
    var i := IndexOf(line, '=');
    if i + 1 >= |line| then None else Some((line[..i], line[i + 1..]))
  }

  /** Joining a key without `=` to a value and splitting again gives both back;
      an empty value is refused. */
  lemma JoinThenSplit(k: seq<Byte>, v: seq<Byte>)
    requires '=' !in k
    ensures SplitAssignment(k + ['='] + v) == if |v| > 0 then Some((k, v)) else None
  {
    var line := k + ['='] + v;
    var i := IndexOf(line, '=');
    assert line[|k|] == '=';
    assert forall j :: 0 <= j < |k| ==> line[j] == k[j];
    assert i == |k|;
    assert line[..i] == k;
    assert line[i + 1..] == v;
  }

  /** The key the table is searched with: the characters appended to an Arduino
      `String` one by one (a NUL byte contributes nothing), upper-cased. */
  function KeyOf(raw: seq<Byte>): (k: seq<Byte>)
    ensures |k| <= |raw|
    ensures NUL !in k
    ensures forall i :: 0 <= i < |k| ==> !IsLower(k[i])
    ensures NUL !in raw ==> |k| == |raw| && forall i :: 0 <= i < |raw| ==> k[i] == ToUpper(raw[i])
  {
    Upper(DropNul(raw))
  }

  /** A key is already in the form the table is searched with. */
  lemma KeyOfIdempotent(raw: seq<Byte>)
    ensures KeyOf(KeyOf(raw)) == KeyOf(raw)
  {
    var k := KeyOf(raw);
    assert forall i :: 0 <= i < |k| ==> ToUpper(k[i]) == k[i];
  }

  /* ---------------- The key table ---------------- */

  /** The key comparisons of `handleConfigCmd`, in its order. The sixteen
      comparisons with `CAN0FILTER0` … `CAN1FILTER7` are written as one test
      per bus: the bus's prefix followed by a single digit from 0 to 7. */
  function Lookup(key: seq<Byte>): (r: Command)
    ensures !r.Unknown? ==> KeyName(r) == key
  {
    if key == "CAN0EN" then CanEnable(0)
    else if key == "CAN1EN" then CanEnable(1)
    else if key == "CAN0SPEED" then CanSpeed(0)
    else if key == "CAN1SPEED" then CanSpeed(1)
    else if IsFilterKey(key, 0) then
      assert key == key[..10] + [key[10]];
      CanFilter(0, FilterDigit(key))
    else if IsFilterKey(key, 1) then
      assert key == key[..10] + [key[10]];
      CanFilter(1, FilterDigit(key))
    else if key == "BINSERIAL" then BinSerial
    else if key == "BINFILE" then BinFile
    else if key == "FILEBASE" then FileBase
    else if key == "FILEEXT" then FileExt
    else if key == "FILENUM" then FileNum
    else if key == "FILEAPPEND" then FileAppend
    else if key == "SYSTYPE" then SysType
    else if key == "LOGLEVEL" then LogLevelKey
    else Unknown
  }

  function FilterPrefix(b: Bus): seq<Byte> {
    if b == 0 then "CAN0FILTER" else "CAN1FILTER"
  }

  /** `key` is one of the eight filter keys of bus `b`. */
  predicate IsFilterKey(key: seq<Byte>, b: Bus) {
    |key| == 11 && key[..10] == FilterPrefix(b) && '0' <= key[10] <= '7'
  }

  /** The filter number a filter key ends with. */
  function FilterDigit(key: seq<Byte>): FilterIndex
    requires |key| == 11 && '0' <= key[10] <= '7'
  {
    key[10] as int - '0' as int
  }

  /** The key of each handler: the table `Lookup` searches, read the other way. */
  function KeyName(cmd: Command): seq<Byte>
    requires !cmd.Unknown?
  {
    match cmd
    case CanEnable(b) => if b == 0 then "CAN0EN" else "CAN1EN"
    case CanSpeed(b) => if b == 0 then "CAN0SPEED" else "CAN1SPEED"
    case CanFilter(b, i) => FilterPrefix(b) + [DigitChar(i)]
    case BinSerial => "BINSERIAL"
    case BinFile => "BINFILE"
    case FileBase => "FILEBASE"
    case FileExt => "FILEEXT"
    case FileNum => "FILENUM"
    case FileAppend => "FILEAPPEND"
    case SysType => "SYSTYPE"
    case LogLevelKey => "LOGLEVEL"
  }

  /** Every handler is reached by its key, so no two handlers share a key. */
  lemma LookupKeyName(cmd: Command)
    requires !cmd.Unknown?
    ensures Lookup(KeyName(cmd)) == cmd
  {
    match cmd
    case CanFilter(b, i) => LookupFilterKey(b, i);
    case _ =>
  }

  lemma LookupFilterKey(b: Bus, i: FilterIndex)
    ensures Lookup(KeyName(CanFilter(b, i))) == CanFilter(b, i)
  {
    var key := KeyName(CanFilter(b, i));
    assert key[..10] == FilterPrefix(b);
    assert key[10] == DigitChar(i);
    assert IsFilterKey(key, b);
    if b == 1 {
      assert key[3] == '1';
      assert !IsFilterKey(key, 0);
    }
  }

  /* ---------------- Handlers ---------------- */

  /** The clamp of the boolean-like settings: below 0 becomes 0, above 1 becomes 1. */
  function Clamp01(v: int): (c: int)
    ensures 0 <= c <= 1
    ensures c == 1 <==> v >= 1
  {
    if v < 0 then 0 else if v > 1 then 1 else v
  }

  /** Which values each handler accepts, stated apart from how it acts: an
      accepted command either edits the settings or sets the log level. */
  predicate Accepted(cmd: Command, text: seq<Byte>) {
    var v := StrToL(text);
    match cmd
    case CanSpeed(_) => 1 <= v <= MaxBaud
    case CanFilter(_, _) => |Tokens(text)| >= 4
    case SysType => 0 <= v <= 1
    case LogLevelKey => 0 <= v <= 4
    case Unknown => false
    case _ => true
  }

  /** An accepted command is saved to EEPROM, except that the result of
      filter 0 of bus 0 is never looked at. */
  predicate Persists(cmd: Command, text: seq<Byte>) {
    Accepted(cmd, text) && cmd != CanFilter(0, 0)
  }

  /** Outcome of `handleFilterSet`: its return value, and what it did. */
  datatype FilterResult = FilterResult(ok: bool, settings: Settings, effects: seq<Effect>)

  /** The filter record the first four tokens of `values` describe. */
  function ParsedFilter(values: seq<Byte>): Filter
    requires |Tokens(values)| >= 4
  {
    var ts := Tokens(values);
    Filter(StrToL(ts[0]), StrToL(ts[1]), StrToL(ts[2]), StrToL(ts[3]))
  }

  /** `handleFilterSet(bus, filter, values)`: four `strtok` calls on `,`, each
      token read by `strtol`; any null token, or an index out of range, fails
      with nothing done. */
  function HandleFilterSet(bus: Uint8, filter: Uint8, values: seq<Byte>, s: Settings): (r: FilterResult)
    requires s.Valid()
    ensures r.settings.Valid()
    ensures r.ok <==> bus <= 1 && filter <= 7 && |Tokens(values)| >= 4
    ensures !r.ok ==> r.settings == s && r.effects == []
    ensures r.ok ==>
              var f := ParsedFilter(values);
              && r.settings == s.WithFilter(bus, filter, f)
              && r.effects == [Say(FilterSet(bus, filter, f.id, f.mask, f.extended, f.enabled)),
                               SetRxFilter(bus, filter, f.id, f.mask, f.extended)]
  {
    if filter > 7 then FilterResult(false, s, [])
    else if bus > 1 then FilterResult(false, s, [])
    else
      var toks := StrTok(values, 4);
      StrTokIsTokens(values, 4);
      if |toks| < 4 then FilterResult(false, s, [])
      else
        var f := Filter(StrToL(toks[0]), StrToL(toks[1]), StrToL(toks[2]), StrToL(toks[3]));
        FilterResult(true, s.WithFilter(bus, filter, f),
                     [Say(FilterSet(bus, filter, f.id, f.mask, f.extended, f.enabled)),
                      SetRxFilter(bus, filter, f.id, f.mask, f.extended)])
  }

  /** What a handler did, and whether it set the "write EEPROM" flag. */
  datatype Update = Update(settings: Settings, effects: seq<Effect>, persist: bool)

  /** CAN0EN / CAN1EN: the flag becomes 1 exactly when the value is at least 1,
      the controller is started at its stored speed when enabled and disabled
      otherwise, and the record is always saved. */
  function SetCanEnabled(bus: Bus, v: int, s: Settings): (u: Update)
    requires s.Valid()
    ensures u.persist && u.settings.Valid() && Writes(u.effects) == 0
    ensures u.settings.Enabled(bus) == (if v >= 1 then 1 else 0)
    ensures u.settings == s.WithEnabled(bus, u.settings.Enabled(bus))
    ensures Begin(bus, s.Speed(bus)) in u.effects <==> v >= 1
    ensures Disable(bus) in u.effects <==> v < 1
    ensures Hardware(u.effects) == [if v >= 1 then Begin(bus, s.Speed(bus)) else Disable(bus)]
  {
    var n := Clamp01(v);
    var drive := if n == 1 then Begin(bus, s.Speed(bus)) else Disable(bus);
    Update(s.WithEnabled(bus, n), [Say(CanEnabledSet(bus, n)), drive], true)
  }

  /** CAN0SPEED / CAN1SPEED: a speed from 1 to 1000000 is stored, the controller
      restarted at it and the record saved; anything else is refused with a
      message and changes nothing. */
  function SetCanSpeed(bus: Bus, v: int, s: Settings): (u: Update)
    requires s.Valid()
    ensures u.settings.Valid() && Writes(u.effects) == 0
    ensures u.persist <==> 1 <= v <= MaxBaud
    ensures u.persist ==> u.settings == s.WithSpeed(bus, v) && Begin(bus, v) in u.effects
    ensures u.persist ==> Hardware(u.effects) == [Begin(bus, v)]
    ensures !u.persist ==> u.settings == s && u.effects == [Say(InvalidBaudRate)]
  {
    if 0 < v <= MaxBaud then
      Update(s.WithSpeed(bus, v), [Say(BaudRateSet(bus, v)), Begin(bus, v)], true)
    else
      Update(s, [Say(InvalidBaudRate)], false)
  }

  /** CANbFILTERi: the filter sub-parser's changes stand whatever it returns; its
      success asks for a save, except on filter 0 of bus 0, whose branch ignores
      the result. */
  function SetCanFilter(bus: Bus, i: FilterIndex, text: seq<Byte>, s: Settings): (u: Update)
    requires s.Valid()
    ensures u.settings.Valid() && Writes(u.effects) == 0
    ensures u.persist <==> |Tokens(text)| >= 4 && (bus != 0 || i != 0)
    ensures |Tokens(text)| >= 4 ==> u.settings == s.WithFilter(bus, i, ParsedFilter(text))
    ensures |Tokens(text)| < 4 ==> u.settings == s && u.effects == []
    ensures u.effects == HandleFilterSet(bus, i, text, s).effects
    ensures |Tokens(text)| >= 4 ==>
              var f := ParsedFilter(text);
              Hardware(u.effects) == [SetRxFilter(bus, i, f.id, f.mask, f.extended)]
  {
    var f := HandleFilterSet(bus, i, text, s);
    if bus == 0 && i == 0 then Update(f.settings, f.effects, false)
    else Update(f.settings, f.effects, f.ok)
  }

  predicate IsFlag(cmd: Command) {
    cmd.BinSerial? || cmd.BinFile? || cmd.FileAppend?
  }

  /** The 0/1 setting a flag key edits. */
  function FlagOf(s: Settings, cmd: Command): int
    requires IsFlag(cmd)
  {
    match cmd
    case BinSerial => s.useBinarySerialComm
    case BinFile => s.useBinaryFile
    case FileAppend => s.appendFile
  }

  /** BINSERIAL / BINFILE / FILEAPPEND: the value clamped into 0..1 is stored
      and the record always saved; no other field changes. */
  function SetFlag(cmd: Command, v: int, s: Settings): (u: Update)
    requires s.Valid() && IsFlag(cmd)
    ensures u.persist && u.settings.Valid() && Writes(u.effects) == 0
    ensures FlagOf(u.settings, cmd) == (if v >= 1 then 1 else 0)
    ensures forall c: Command :: IsFlag(c) && c != cmd ==> FlagOf(u.settings, c) == FlagOf(s, c)
    ensures u.settings.(useBinarySerialComm := s.useBinarySerialComm, useBinaryFile := s.useBinaryFile,
                        appendFile := s.appendFile) == s
    ensures Hardware(u.effects) == []
  {
    var n := Clamp01(v);
    match cmd
    case BinSerial => Update(s.(useBinarySerialComm := n), [Say(BinarySerialSet(n))], true)
    case BinFile => Update(s.(useBinaryFile := n), [Say(BinaryFileSet(n))], true)
    case FileAppend => Update(s.(appendFile := n), [Say(FileAppendSet(n))], true)
  }

  /** FILEBASE / FILEEXT take the value's text as it is, FILENUM its number;
      each is stored without a check and always saved. */
  function SetFileField(cmd: Command, text: seq<Byte>, s: Settings): (u: Update)
    requires s.Valid() && (cmd.FileBase? || cmd.FileExt? || cmd.FileNum?)
    ensures u.persist && u.settings.Valid() && Writes(u.effects) == 0
    ensures cmd.FileBase? ==> u.settings == s.(fileNameBase := text)
    ensures cmd.FileExt? ==> u.settings == s.(fileNameExt := text)
    ensures cmd.FileNum? ==> u.settings == s.(fileNum := StrToL(text))
    ensures Hardware(u.effects) == []
  {
    match cmd
    case FileBase => Update(s.(fileNameBase := text), [Say(FileBaseSet(text))], true)
    case FileExt => Update(s.(fileNameExt := text), [Say(FileExtSet(text))], true)
    case FileNum =>
      var v := StrToL(text);
      Update(s.(fileNum := v), [Say(FileNumSet(v))], true)
  }

  /** SYSTYPE: 0 or 1 is stored and saved; anything else is refused with a
      message and changes nothing. */
  function SetSysType(v: int, s: Settings): (u: Update)
    requires s.Valid()
    ensures u.settings.Valid() && Writes(u.effects) == 0
    ensures u.persist <==> 0 <= v <= 1
    ensures u.persist ==> u.settings == s.(sysType := v)
    ensures !u.persist ==> u.settings == s && u.effects == [Say(InvalidSysType)]
    ensures Hardware(u.effects) == []
  {
    if v < 2 && v >= 0 then Update(s.(sysType := v), [Say(SysTypeUpdated)], true)
    else Update(s, [Say(InvalidSysType)], false)
  }

  /** The number of each log level on the console. */
  function LevelNumber(l: LogLevel): int {
    match l
    case Debug => 0
    case Info => 1
    case Warn => 2
    case Error => 3
    case Off => 4
  }

  /** The log level numbered `v`. */
  function LevelOf(v: int): (l: LogLevel)
    requires 0 <= v <= 4
    ensures forall m: LogLevel :: LevelNumber(m) == v <==> m == l
  {
    if v == 0 then Debug else if v == 1 then Info else if v == 2 then Warn
    else if v == 3 then Error else Off
  }

  /** One accepted LOGLEVEL branch: the logger is set to `l` and the level
      printed, the first two levels setting before printing. */
  function LevelSet(l: LogLevel, s: Settings): (u: Update)
    ensures u.settings == s && u.persist && Writes(u.effects) == 0
    ensures forall m: LogLevel :: SetLogLevel(m) in u.effects <==> m == l
    ensures Hardware(u.effects) == [SetLogLevel(l)]
  {
    if l == Debug || l == Info then Update(s, [SetLogLevel(l), Say(LogLevelSet(l))], true)
    else Update(s, [Say(LogLevelSet(l)), SetLogLevel(l)], true)
  }

  /** LOGLEVEL: the logger is set to the level numbered `v` and the record saved,
      although the record itself does not change; any other number is dropped
      without a message. */
  function SetLoggerLevel(v: int, s: Settings): (u: Update)
    requires s.Valid()
    ensures u.settings == s && Writes(u.effects) == 0
    ensures u.persist <==> 0 <= v <= 4
    ensures forall l: LogLevel :: SetLogLevel(l) in u.effects <==> LevelNumber(l) == v
    ensures !u.persist ==> u.effects == []
    ensures u.persist ==> Hardware(u.effects) == [SetLogLevel(LevelOf(v))]
  {
    if 0 <= v <= 4 then LevelSet(LevelOf(v), s) else Update(s, [], false)
  }

  /** The branch of `handleConfigCmd` for `cmd`, with `text` the value as a C
      string and `StrToL(text)` its number. */
  function Apply(cmd: Command, text: seq<Byte>, s: Settings): (u: Update)
    requires s.Valid()
    ensures u.settings.Valid()
    ensures Writes(u.effects) == 0
    ensures u.persist <==> Persists(cmd, text)
    ensures !Accepted(cmd, text) ==> u.settings == s
  {
    if cmd.CanEnable? || cmd.CanSpeed? || cmd.CanFilter? then ApplyCan(cmd, text, s)
    else ApplyOther(cmd, text, s)
  }

  /** The branches for the CAN keys. */
  function ApplyCan(cmd: Command, text: seq<Byte>, s: Settings): (u: Update)
    requires s.Valid() && (cmd.CanEnable? || cmd.CanSpeed? || cmd.CanFilter?)
    ensures u.settings.Valid()
    ensures Writes(u.effects) == 0
    ensures u.persist <==> Persists(cmd, text)
    ensures !Accepted(cmd, text) ==> u.settings == s
  {
    match cmd
    case CanEnable(bus) => SetCanEnabled(bus, StrToL(text), s)
    case CanSpeed(bus) => SetCanSpeed(bus, StrToL(text), s)
    case CanFilter(bus, i) => SetCanFilter(bus, i, text, s)
  }

  /** The branches for the remaining keys, and for an unknown key. */
  function ApplyOther(cmd: Command, text: seq<Byte>, s: Settings): (u: Update)
    requires s.Valid() && !(cmd.CanEnable? || cmd.CanSpeed? || cmd.CanFilter?)
    ensures u.settings.Valid()
    ensures Writes(u.effects) == 0
    ensures u.persist <==> Persists(cmd, text)
    ensures !Accepted(cmd, text) ==> u.settings == s
  {
    var v := StrToL(text);
    match cmd
    case BinSerial => SetFlag(cmd, v, s)
    case BinFile => SetFlag(cmd, v, s)
    case FileBase => SetFileField(cmd, text, s)
    case FileExt => SetFileField(cmd, text, s)
    case FileNum => SetFileField(cmd, text, s)
    case FileAppend => SetFlag(cmd, v, s)
    case SysType => SetSysType(v, s)
    case LogLevelKey => SetLoggerLevel(v, s)
    case Unknown => Update(s, [Say(UnknownCommand)], false)
  }

  lemma WritesAppendOne(fx: seq<Effect>, e: Effect)
    ensures Writes(fx + [e]) == Writes(fx) + (if e.WriteSettings? then 1 else 0)
  {
    assert (fx + [e])[..|fx|] == fx;
  }

  /** A handler followed by the single EEPROM write its flag asks for. */
  function Execute(cmd: Command, text: seq<Byte>, s: Settings): (r: Reply)
    requires s.Valid()
    ensures r.settings.Valid()
    ensures Writes(r.effects) <= 1
    ensures Writes(r.effects) == 1 <==> Persists(cmd, text)
    ensures Writes(r.effects) == 1 ==> r.effects[|r.effects| - 1] == WriteSettings(r.settings)
    ensures !Accepted(cmd, text) ==> r.settings == s
    ensures Hardware(r.effects) == Hardware(Apply(cmd, text, s).effects)
    ensures r.settings == Apply(cmd, text, s).settings
    ensures Apply(cmd, text, s).effects <= r.effects
    ensures |r.effects| <= |Apply(cmd, text, s).effects| + 1
  {
    var u := Apply(cmd, text, s);
    assert Writes(u.effects) == 0;
    WritesAppendOne(u.effects, WriteSettings(u.settings));
    HardwareAppend(u.effects, [WriteSettings(u.settings)]);
    Reply(u.settings, if u.persist then u.effects + [WriteSettings(u.settings)] else u.effects)
  }

  /** `handleConfigCmd` on the line `line`. */
  function HandleConfigCmd(line: seq<Byte>, s: Settings): (r: Reply)
    requires s.Valid()
    ensures r.settings.Valid()
    ensures |line| < MinConfigLength ==> r == Reply(s, [])
    ensures |line| >= MinConfigLength && IndexOf(line, '=') + 1 >= |line| ==>
              r == Reply(s, [Say(NeedsValue), Say(Blank)])
    ensures Writes(r.effects) <= 1
    ensures Writes(r.effects) == 1 ==> r.effects[|r.effects| - 1] == WriteSettings(r.settings)
  {
    if |line| < MinConfigLength then Reply(s, [])
    else
      match SplitAssignment(line)
      case None => Reply(s, [Say(NeedsValue), Say(Blank)])
      case Some((key, value)) => Execute(Lookup(KeyOf(key)), CString(value), s)
  }
}
