# Serial console of a CAN bus logger, in Dafny

This project models the serial console of a dual-CAN-bus logging board
(`SerialConsole.cpp`). The console collects the bytes of a line in an
80-byte buffer. When a line feed or carriage return arrives, it acts on the
line:

- A one-byte line is a short command (`h`, `?`, `H` print the menu, `K`/`J`
  drive all outputs high or low, `X` re-runs the device setup).
- Any longer line is a configuration assignment `KEY=VALUE`.

For an assignment, the key is the text before the first `=`, upper-cased
and looked up in a fixed table. The value is read by C's `strtol` with base
detection, or taken as text. Each handler clamps or validates the value,
edits the settings record, drives the CAN controllers or the logger, and
may ask for the whole record to be written to EEPROM. That write then
happens once, as the last action of the command. Filter keys hand the value
to a sub-parser that splits it with `strtok` on `,` into identifier, mask,
extended flag and enabled flag.

Modules, in dependency order:

- `Wrappers` (`wrappers.dfy`): optional values.
- `Ascii` (`ascii.dfy`): bytes, C-locale upper-casing, C strings, and the
  NUL bytes an Arduino `String` drops.
- `CStrToL` (`strtol.dfy`): `strtol(text, NULL, 0)` as section 7.22.1.4 of
  ISO C11 describes it. It skips white space, takes an optional sign, and
  picks the base from the prefix: `0x`/`0X` is hexadecimal, a leading `0`
  is octal, anything else decimal. `long` is 32 bits on the target, so
  out-of-range values saturate to `LONG_MIN`/`LONG_MAX`. Printers for `%i`
  and `0x%x` serve as the reference the parser is proved against.
- `CStrTok` (`strtok.dfy`): successive `strtok(_, ",")` calls, proved
  equal to a reference definition: the non-empty comma-separated fields.
- `DeviceSettings` (`settings.dfy`): the settings record with its sixteen
  filter records, and the effects through which the console acts. These
  are console messages, `begin`/`disable` and `setRXFilter` on a CAN
  controller, the logger level, the EEPROM write of a snapshot of the
  record, the menu, the outputs and the setup routine.
  `Hardware` keeps the effects that are neither console lines nor EEPROM
  writes. Each handler states its `Hardware` trace exactly, so an extra
  controller or logger call would break its contract.
- `ConfigCommand` (`config_command.dfy`): `handleConfigCmd`, one handler
  function per key, and `handleFilterSet`.
- `ConfigProperties` (`config_properties.dfy`): properties of whole
  command lines. They cover splitting, case-insensitive keys, idempotence,
  the CAN0FILTER0 exception to saving, and round trips of the values the
  menu prints.
- `SerialConsole` (`serial_console.dfy`): `init`, `rcvCharacter`,
  `handleConsoleCmd`, `handleShortCmd`, and the byte-stream behaviour of
  the line buffer.

Some behaviours of the code are kept as written:

- A filter assignment for filter 0 of bus 0 updates the record but never
  asks for the EEPROM write. Every other successful filter assignment does.
- `LOGLEVEL` sets the logger's level and saves the record. It never stores
  the level in the record's `logLevel` field.
- A `LOGLEVEL` value outside 0–4 is dropped without a message.
- The cursor stops at 79. A line of 80 or more bytes is handed on cut to
  its first 79 bytes; each further byte overwrites slot 79, which is not
  part of the line.

## Model

| member | source | states |
|---|---|---|
| Ascii.CString | SerialConsole.cpp:152-153 | the value both `strtol` and `strcpy` see is the text after `=` up to the first NUL: a prefix of it, NUL-free, and followed by NUL when shorter |
| Ascii.UpperDropNulCommute | SerialConsole.cpp:140-155 | building the key (NUL bytes dropped by the `String` append) and upper-casing it can be done in either order |
| Ascii.Upper | SerialConsole.cpp:155 | `toUpperCase` keeps the length, maps each character by C-locale `toupper`, and leaves no lower-case letter |
| Ascii.DropNul | SerialConsole.cpp:140-142 | appending the key's characters one by one to a `String` keeps every character except NUL: the result has no NUL, keeps every other character, is the text itself when the text has no NUL, and a single NUL becomes empty |
| Ascii.DropNulAppend | SerialConsole.cpp:140-142 | dropping NULs from two pieces and joining them equals dropping them from the joined text, so with the one-character case the kept characters keep their order and number |
| CStrToL.StrToL | SerialConsole.cpp:152 | The result lies in the 32-bit `long` range, is negative only when the text has a `-` sign, and is non-zero only when a decimal digit starts the number. |
| CStrToL.DecimalRoundTrip | SerialConsole.cpp:152 | every 32-bit value printed with `%i` reads back as itself |
| CStrToL.HexRoundTrip | SerialConsole.cpp:151-152 | every non-negative 32-bit value printed with `0x%x` reads back as itself, through the hexadecimal prefix |
| CStrToL.SignAndSpace | SerialConsole.cpp:152 | before a number that starts with a digit, leading white space and a `+` do not change the value, and a `-` gives the saturated negation of the magnitude |
| CStrTok.NextToken | SerialConsole.cpp:352-355 | a token `strtok` returns is non-empty and comma-free, and the text left to scan gets shorter |
| CStrTok.NextTokenIsFirstToken | SerialConsole.cpp:352-355 | one `strtok` call returns null exactly when the text has no non-empty field; otherwise it returns the first non-empty field, and the rest of the fields are those of the remaining text |
| CStrTok.StrTokIsTokens | SerialConsole.cpp:352-360 | four successive calls return the first four non-empty fields, or all of them when there are fewer, so a null appears exactly when there are fewer than four |
| CStrTok.StrTok | SerialConsole.cpp:352-355 | `count` successive calls give at most `count` tokens, each non-empty and free of commas |
| ConfigCommand.SplitAssignment | SerialConsole.cpp:138-149 | the line is split at its first `=` into a key without `=` and a non-empty value that rejoin to the line; there is no split exactly when `=` is missing or last |
| ConfigCommand.JoinThenSplit | SerialConsole.cpp:138-149 | a key without `=`, `=`, and a value split back into that key and value; an empty value is refused |
| ConfigCommand.LookupKeyName | SerialConsole.cpp:157-309 | every handler is reached through its own key, so no two handlers share one |
| ConfigCommand.Lookup | SerialConsole.cpp:157-309 | a key reaches a handler only if it is that handler's key exactly; anything else is an unknown command |
| ConfigCommand.KeyOf | SerialConsole.cpp:140-155 | the table is searched with a key no longer than the text before `=`, with no NUL and no lower-case letter; a NUL-free key is that text upper-cased character by character |
| ConfigCommand.KeyOfIdempotent | SerialConsole.cpp:140-155 | a key already in table form is its own search key |
| ConfigCommand.Clamp01 | SerialConsole.cpp:158-159 | the clamp keeps values in 0..1 and gives 1 exactly for values of at least 1 |
| ConfigCommand.HandleFilterSet | SerialConsole.cpp:346-387 | succeeds exactly when the bus is 0 or 1, the filter is 0..7 and there are four tokens; on success the filter record holds the four parsed values, the other fifteen are unchanged, and one message and one `setRXFilter` follow; on failure nothing changes and nothing happens |
| ConfigCommand.SetCanEnabled | SerialConsole.cpp:157-172 | the enabled flag becomes 1 exactly for values of at least 1; the only hardware action is starting the controller at its stored speed when enabled, or disabling it otherwise; nothing else in the record changes; always saved |
| ConfigCommand.SetCanSpeed | SerialConsole.cpp:173-190 | a speed of 1..1000000 is stored, the controller restarted at it as the only hardware action, and the record saved; any other value changes nothing and only prints the error |
| ConfigCommand.SetCanFilter | SerialConsole.cpp:191-238 | the actions are exactly the sub-parser's, so with four tokens the filter is replaced by the parsed record and the one hardware action is programming that filter, otherwise nothing changes or happens; the record is saved exactly when the tokens are there and the filter is not filter 0 of bus 0 |
| ConfigCommand.SetFlag | SerialConsole.cpp:239-250 | BINSERIAL and BINFILE (and FILEAPPEND, lines 263-268) store the value clamped to 0..1, leave the other flags and fields alone, touch no hardware, and always save |
| ConfigCommand.SetFileField | SerialConsole.cpp:251-262 | FILEBASE and FILEEXT store the value's text, FILENUM its number, with no check; no hardware action; always saved |
| ConfigCommand.SetSysType | SerialConsole.cpp:270-276 | 0 or 1 is stored and saved with no hardware action; any other value changes nothing and only prints the error |
| ConfigCommand.SetLoggerLevel | SerialConsole.cpp:277-306 | the record never changes; the logger is set to level `l` exactly when `v` is `l`'s number, and that is the only hardware action; saved exactly for 0..4; anything else does nothing at all |
| ConfigCommand.LevelOf | SerialConsole.cpp:278-303 | each number 0..4 names exactly one log level, the one whose number it is |
| ConfigCommand.LevelSet | SerialConsole.cpp:279-303 | an accepted LOGLEVEL keeps the record, asks for the save, and sets the logger to that level and to no other, as its only hardware action |
| ConfigCommand.Apply | SerialConsole.cpp:157-309 | no handler writes EEPROM itself; a handler asks for the write exactly when it accepts the value, except for filter 0 of bus 0; a refused value leaves the record unchanged |
| ConfigCommand.Execute | SerialConsole.cpp:310-313 | at most one EEPROM write, present exactly when the handler asked for it, and it is the last action, writing the record as it ends up; the record returned is the handler's, the handler's actions come first and unchanged, and the save adds no hardware action |
| ConfigCommand.HandleConfigCmd | SerialConsole.cpp:126-314 | a line shorter than 6 bytes does nothing; a line without a value prints the two-line hint and changes nothing; at most one EEPROM write, and it is last, with the final record |
| ConfigProperties.ConfigLine | SerialConsole.cpp:138-153 | a line `key=value` runs the handler of the key's table entry on the value's C string; `key=` with nothing after it only prints the hint |
| ConfigProperties.KeyCaseInsensitive | SerialConsole.cpp:140-157 | two keys that upper-case alike act identically |
| ConfigProperties.NamedKeyLine | SerialConsole.cpp:138-157 | a key spelled in any letter case reaches that key's handler |
| ConfigProperties.UnknownKeyChangesNothing | SerialConsole.cpp:307-309 | a key outside the table only prints "Unknown command" |
| ConfigProperties.ChangedMeansSaved | SerialConsole.cpp:157-313 | every command that changes the record is saved, except filter 0 of bus 0, which updates the record and is never saved |
| ConfigProperties.ApplyTwice | SerialConsole.cpp:157-309 | a handler run again on its own result repeats the same actions and leaves the same record |
| ConfigProperties.ExecuteIdempotent | SerialConsole.cpp:157-313 | the same holds with the save: a saved command is saved again, once |
| ConfigProperties.ConfigIdempotent | SerialConsole.cpp:126-314 | sending the same configuration line twice gives the same record and the same actions both times |
| ConfigProperties.FilterTextTokens | SerialConsole.cpp:352-360 | the four values of a filter printed as `0x%x,0x%x,%i,%i` are exactly the tokens `strtok` finds |
| ConfigProperties.FilterTextRoundTrip | SerialConsole.cpp:352-365 | a filter printed in the menu's format (line 71) and parsed by the sub-parser is the same record, for all 32-bit values with non-negative id and mask |
| ConfigProperties.ExecuteFilter | SerialConsole.cpp:191-238 | a filter command with four tokens installs the parsed record, programs the controller with it, and is saved unless it is filter 0 of bus 0 |
| ConfigProperties.FilterValueLine | SerialConsole.cpp:191-238 | the same for a whole line `CANbFILTERi=value`, key in any letter case |
| ConfigProperties.FilterLine | SerialConsole.cpp:191-238 | the line the menu shows for a filter, typed back, installs exactly that record and leaves the other fifteen alone |
| ConfigProperties.ExecuteSpeed | SerialConsole.cpp:173-190 | a speed command on any value stores the number and restarts the controller at it, as the one hardware action, with one save exactly when the number is 1..1000000; otherwise nothing changes, nothing is saved and no hardware is touched |
| ConfigProperties.SpeedLine | SerialConsole.cpp:173-190 | `CANbSPEED=n` for any 32-bit `n` stores `n` and restarts the controller at it, as the one hardware action, with one save exactly when `n` is 1..1000000; otherwise nothing changes, nothing is saved and no hardware is touched |
| SerialConsole.Init | SerialConsole.cpp:38-42 | the console starts in the root menu with an empty line |
| SerialConsole.HandleShortCmd | SerialConsole.cpp:316-343 | exactly `h`, `?`, `H` print the menu; `K` and `J` drive the outputs high or low; `X` runs the setup; every other byte does nothing; at most one action beyond console lines happens, so a short command drives no CAN controller or logger; no short command saves |
| SerialConsole.HandleConsoleCmd | SerialConsole.cpp:112-121 | in the root menu a one-byte line is a short command and leaves the record alone; any other line is a configuration line; at most one save |
| SerialConsole.RcvCharacter | SerialConsole.cpp:101-110 | a line ending dispatches the bytes before the cursor and empties the line; any other byte is stored at the cursor, which advances but stops at 79 |
| SerialConsole.FeedBytes | SerialConsole.cpp:105-109 | bytes without a line ending only extend the line, cut after 79 bytes; settings, actions and menu state are unchanged |
| SerialConsole.LineDispatch | SerialConsole.cpp:101-121 | from an empty line, a line and its ending cause one dispatch of at most its first 79 bytes and leave the cursor at 0 |
| SerialConsole.EmptyLineIdle | SerialConsole.cpp:133-134 | a line ending on an empty line does nothing, since a line shorter than 6 bytes that is not one byte long is ignored |
| SerialConsole.CrLfLikeCr | SerialConsole.cpp:101-104 | CR LF acts like CR alone |

## Left out

- `printMenu`: only the fact that the menu is printed is modelled (the
  `PrintMenu` effect). Its text is not modelled, apart from the formats the
  round-trip lemmas read back.
- Message text: each `Logger::console` line is an effect naming the message
  and its values, not the formatted string.
- The EEPROM, the CAN driver, `setOutput` and `setup()` are outside the
  model. Each call is an effect in the trace, and the enable-pin argument of
  `begin` is dropped.
- SerialConsole.HandleShortCmd: `setup()` (run by `X`) is not part of this
  model. It is assumed to leave the settings record, the console and the
  EEPROM untouched. If it reloads the record from EEPROM, an unsaved change
  such as a CAN0FILTER0 assignment would be lost. `HandleShortCmd` and
  `HandleConsoleCmd` state that a short command leaves the record unchanged
  only under this assumption.
- `K`/`J` loop over `NUM_OUTPUT` outputs. The model records one
  `SetAllOutputs` effect, because `NUM_OUTPUT` is defined in a header that
  is not part of this model.
- The header `SerialConsole.h` is not part of this model. The record's
  field widths are not modelled, so every numeric field keeps the `int`
  value the code assigns. The buffer is taken to hold `char`, so a NUL
  appended to the key `String` contributes nothing.
- The byte sizes of `fileNameBase` and `fileNameExt` are not modelled:
  `strcpy` is modelled as storing the whole value text.
- Two in-place writes are not modelled: the NUL that `handleConfigCmd`
  stores after the line, and the NULs `strtok` writes over commas. No
  modelled read sees those bytes.
- Heap allocation inside Arduino `String` is not modelled; failed
  allocation is treated as impossible.
- The code uses only the menu state `STATE_ROOT_MENU`, which the model
  calls `RootMenu`; no other menu state is modelled.
- `R`, `s` and `S` are empty placeholders in the code and do nothing in the
  model.
- CStrToL.StrToL: its own contract bounds the value and states its sign.
  The exact value is stated by `DecimalRoundTrip` and `HexRoundTrip` for
  the texts `%i` and `0x%x` print. For octal text, upper-case or
  zero-padded hexadecimal, and text after the digits, the exact value is
  given by the definition only, with no contract of its own.
- CStrToL.SkipSpace: states only that the result is no longer and does not
  start with white space. That it is a suffix is stated only as needed, by
  `SkipSpaceOver`.
- ConfigCommand.HandleConfigCmd: its own contract states only the early
  exits and the single trailing write. `ConfigProperties.ConfigLine` and
  `ConfigProperties.NamedKeyLine` take a line to `Execute` of its handler,
  whose contract keeps the record and actions of `Apply`; the per-key
  handler contracts then apply to `Apply`'s branches.
- ConfigProperties.FilterTextRoundTrip: identifiers and masks are taken as
  non-negative. `%x` prints a negative `int` in two's complement, and that
  text saturates when read back.
