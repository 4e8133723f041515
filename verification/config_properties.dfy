/** Properties of `handleConfigCmd` that relate whole command lines: how a line
    is split into key and value, that the key is case-insensitive, that each
    key reaches its handler, and that repeating a command changes nothing more. */
module ConfigProperties {
  import opened Ascii
  import opened CStrToL
  import opened CStrTok
  import opened DeviceSettings
  import opened ConfigCommand
  import opened Wrappers

  /** The key is exactly the text before the first `=`, and the value all of the
      text after it (which may itself hold `=`); a line ending at its first `=`
      needs a value. */
  lemma ConfigLine(k: seq<Byte>, v: seq<Byte>, s: Settings)
    requires s.Valid()
    requires '=' !in k
    requires |k| + 1 + |v| >= MinConfigLength
    ensures |v| > 0 ==> HandleConfigCmd(k + ['='] + v, s) == Execute(Lookup(KeyOf(k)), CString(v), s)
    ensures |v| == 0 ==> HandleConfigCmd(k + ['='] + v, s) == Reply(s, [Say(NeedsValue), Say(Blank)])
  {
    JoinThenSplit(k, v);
  }

  /** Two keys that upper-case alike give the same command: `can0en=1` and
      `CAN0EN=1` act identically. */
  lemma KeyCaseInsensitive(k1: seq<Byte>, k2: seq<Byte>, v: seq<Byte>, s: Settings)
    requires s.Valid()
    requires '=' !in k1 && '=' !in k2
    requires Upper(k1) == Upper(k2)
    ensures HandleConfigCmd(k1 + ['='] + v, s) == HandleConfigCmd(k2 + ['='] + v, s)
  {
    assert |k1| == |Upper(k1)| == |k2|;
    if |k1| + 1 + |v| >= MinConfigLength {
      ConfigLine(k1, v, s);
      ConfigLine(k2, v, s);
      UpperDropNulCommute(k1);
      UpperDropNulCommute(k2);
      assert KeyOf(k1) == KeyOf(k2);
    }
  }

  /** A key of upper-case letters and digits only. */
  predicate PlainKey(k: seq<Byte>) {
    forall i :: 0 <= i < |k| ==> 'A' <= k[i] <= 'Z' || '0' <= k[i] <= '9'
  }

  lemma {:induction false} PlainKeyIsOwnKey(k: seq<Byte>)
    requires PlainKey(k)
    ensures KeyOf(k) == k
    ensures '=' !in k
  {
    if |k| > 0 {
      PlainKeyIsOwnKey(k[1..]);
      assert DropNul(k) == [k[0]] + DropNul(k[1..]);
      assert k == [k[0]] + k[1..];
    }
  }

  lemma KeyNamesArePlain(cmd: Command)
    requires !cmd.Unknown?
    ensures PlainKey(KeyName(cmd)) && |KeyName(cmd)| >= MinConfigLength
  {
    match cmd
    case CanFilter(b, i) =>
      assert PlainKey(FilterPrefix(b));
    case CanEnable(_) =>
    case CanSpeed(_) =>
    case _ => OtherKeysArePlain(cmd);
  }

  lemma OtherKeysArePlain(cmd: Command)
    requires !cmd.Unknown? && !cmd.CanFilter? && !cmd.CanEnable? && !cmd.CanSpeed?
    ensures PlainKey(KeyName(cmd)) && |KeyName(cmd)| >= MinConfigLength
  {
  }

  /** A line naming a handler's key (in any letter case) and a non-empty value
      runs exactly that handler on the value's C string. */
  lemma NamedKeyLine(cmd: Command, k: seq<Byte>, v: seq<Byte>, s: Settings)
    requires s.Valid() && !cmd.Unknown?
    requires '=' !in k && Upper(k) == KeyName(cmd)
    requires |v| > 0
    ensures HandleConfigCmd(k + ['='] + v, s) == Execute(cmd, CString(v), s)
  {
    var name := KeyName(cmd);
    KeyNamesArePlain(cmd);
    PlainKeyIsOwnKey(name);
    LookupKeyName(cmd);
    assert Upper(name) == name;
    KeyCaseInsensitive(k, name, v, s);
    ConfigLine(name, v, s);
  }

  /** A key outside the table is reported and changes nothing. */
  lemma UnknownKeyChangesNothing(text: seq<Byte>, s: Settings)
    requires s.Valid()
    ensures Execute(Unknown, text, s) == Reply(s, [Say(UnknownCommand)])
  {
  }

  /** Every command that changes the settings record is saved, except a
      successful CAN0FILTER0, whose branch never asks for a save. */
  lemma ChangedMeansSaved(cmd: Command, text: seq<Byte>, s: Settings)
    requires s.Valid()
    ensures Execute(cmd, text, s).settings != s && cmd != CanFilter(0, 0) ==>
              Writes(Execute(cmd, text, s).effects) == 1
    ensures cmd == CanFilter(0, 0) ==> Writes(Execute(cmd, text, s).effects) == 0
    ensures cmd == CanFilter(0, 0) && |Tokens(text)| >= 4 ==>
              Execute(cmd, text, s).settings == s.WithFilter(0, 0, ParsedFilter(text))
  {
  }

  lemma WithFilterTwice(s: Settings, b: Bus, i: FilterIndex, f: Filter)
    requires s.Valid()
    ensures s.WithFilter(b, i, f).WithFilter(b, i, f) == s.WithFilter(b, i, f)
  {
    if b == 0 {
      assert s.can0Filters[i := f][i := f] == s.can0Filters[i := f];
    } else {
      assert s.can1Filters[i := f][i := f] == s.can1Filters[i := f];
    }
  }

  /** Running a handler a second time on its own result repeats exactly the
      same actions and leaves the same record. */
  lemma ApplyTwice(cmd: Command, text: seq<Byte>, s: Settings)
    requires s.Valid()
    ensures Apply(cmd, text, Apply(cmd, text, s).settings) == Apply(cmd, text, s)
  {
    var v := StrToL(text);
    match cmd
    case CanEnable(b) =>
      var s1 := s.WithEnabled(b, Clamp01(v));
      assert s1.Speed(b) == s.Speed(b);
      assert s1.WithEnabled(b, Clamp01(v)) == s1;
    case CanSpeed(b) =>
      if 1 <= v <= MaxBaud {
        assert s.WithSpeed(b, v).WithSpeed(b, v) == s.WithSpeed(b, v);
      }
    case CanFilter(b, i) =>
      if |Tokens(text)| >= 4 {
        WithFilterTwice(s, b, i, ParsedFilter(text));
      }
    case _ => OtherHandlerTwice(cmd, text, s);
  }

  lemma OtherHandlerTwice(cmd: Command, text: seq<Byte>, s: Settings)
    requires s.Valid() && !cmd.CanEnable? && !cmd.CanSpeed? && !cmd.CanFilter?
    ensures Apply(cmd, text, Apply(cmd, text, s).settings) == Apply(cmd, text, s)
  {
  }

  /** The same, with the save: a saved command is saved again, once. */
  lemma ExecuteIdempotent(cmd: Command, text: seq<Byte>, s: Settings)
    requires s.Valid()
    ensures Execute(cmd, text, Execute(cmd, text, s).settings) == Execute(cmd, text, s)
  {
    ApplyTwice(cmd, text, s);
  }

  /** Sending the same configuration line twice gives the same settings and
      the same actions both times: one save each time the command is saved,
      never merged. */
  lemma ConfigIdempotent(line: seq<Byte>, s: Settings)
    requires s.Valid()
    ensures HandleConfigCmd(line, HandleConfigCmd(line, s).settings) == HandleConfigCmd(line, s)
  {
    if |line| >= MinConfigLength {
      match SplitAssignment(line)
      case None =>
      case Some((key, value)) => ExecuteIdempotent(Lookup(KeyOf(key)), CString(value), s);
    }
  }

  /* ---------------- Values written as the menu prints them ---------------- */

  /** Text that `strtok` and `strcpy` see whole: non-empty, no comma, no NUL. */
  predicate Atom(t: seq<Byte>) {
    |t| > 0 && Comma !in t && NUL !in t
  }

  lemma DigitsAreAtom(n: nat, base: nat)
    requires 2 <= base <= 16
    ensures Atom(DigitsOf(n, base))
  {
    DigitsOfAreDigits(n, base);
    var ds := DigitsOf(n, base);
    assert forall i :: 0 <= i < |ds| ==> ds[i] != Comma && ds[i] != NUL by {
      forall i | 0 <= i < |ds| ensures ds[i] != Comma && ds[i] != NUL {
        assert IsDigitIn(ds[i], base);
      }
    }
  }

  lemma NumberTextsAreAtoms(n: int)
    ensures Atom(DecimalText(n))
    ensures n >= 0 ==> Atom(HexText(n))
  {
    DigitsAreAtom(if n < 0 then -n else n, 10);
    if n >= 0 {
      DigitsAreAtom(n, 16);
    }
  }

  /** A filter record as the menu prints it: `0x%x,0x%x,%i,%i`. */
  function FilterText(f: Filter): seq<Byte>
    requires f.id >= 0 && f.mask >= 0
  {
    HexText(f.id) + [Comma] + (HexText(f.mask) + [Comma] + (DecimalText(f.extended) + [Comma] + DecimalText(f.enabled)))
  }

  lemma {:induction false} FieldsOfAtom(a: seq<Byte>)
    requires Atom(a)
    ensures Fields(a) == [a]
  {
    assert IndexOf(a, Comma) == |a|;
  }

  lemma FieldsAfterAtom(a: seq<Byte>, rest: seq<Byte>)
    requires Atom(a)
    ensures Fields(a + [Comma] + rest) == [a] + Fields(rest)
  {
    var t := a + [Comma] + rest;
    var n := IndexOf(t, Comma);
    assert t[|a|] == Comma;
    assert forall j :: 0 <= j < |a| ==> t[j] == a[j];
    assert n == |a|;
    assert t[..n] == a;
    assert t[n + 1..] == rest;
  }

  lemma NonEmptyOfAtoms(a: seq<Byte>, b: seq<Byte>, c: seq<Byte>, d: seq<Byte>)
    requires Atom(a) && Atom(b) && Atom(c) && Atom(d)
    ensures NonEmpty([a, b, c, d]) == [a, b, c, d]
  {
    var none: seq<seq<Byte>> := [];
    assert NonEmpty([d]) == [d] by { assert [d][1..] == none; }
    assert NonEmpty([c, d]) == [c] + NonEmpty([d]) by { assert [c, d][1..] == [d]; }
    assert NonEmpty([b, c, d]) == [b] + NonEmpty([c, d]) by { assert [b, c, d][1..] == [c, d]; }
    assert NonEmpty([a, b, c, d]) == [a] + NonEmpty([b, c, d]) by { assert [a, b, c, d][1..] == [b, c, d]; }
  }

  /** Four atoms joined by commas split back into those four fields. */
  lemma FieldsOfFour(a: seq<Byte>, b: seq<Byte>, c: seq<Byte>, d: seq<Byte>)
    requires Atom(a) && Atom(b) && Atom(c) && Atom(d)
    ensures Fields(a + [Comma] + (b + [Comma] + (c + [Comma] + d))) == [a, b, c, d]
  {
    FieldsOfAtom(d);
    FieldsAfterAtom(c, d);
    FieldsAfterAtom(b, c + [Comma] + d);
    FieldsAfterAtom(a, b + [Comma] + (c + [Comma] + d));
  }

  /** The four fields of a printed filter are exactly the tokens `strtok` finds. */
  lemma FilterTextTokens(f: Filter)
    requires f.id >= 0 && f.mask >= 0
    ensures Tokens(FilterText(f)) == [HexText(f.id), HexText(f.mask), DecimalText(f.extended), DecimalText(f.enabled)]
    ensures NUL !in FilterText(f)
  {
    var a, b, c, d := HexText(f.id), HexText(f.mask), DecimalText(f.extended), DecimalText(f.enabled);
    NumberTextsAreAtoms(f.id);
    NumberTextsAreAtoms(f.mask);
    NumberTextsAreAtoms(f.extended);
    NumberTextsAreAtoms(f.enabled);
    FieldsOfFour(a, b, c, d);
    NonEmptyOfAtoms(a, b, c, d);
  }

  /** A filter printed as the menu shows it and read back by the filter
      sub-parser is the same record, for every 32-bit value (identifier and
      mask not negative, as `%x` shows them). */
  lemma FilterTextRoundTrip(f: Filter)
    requires 0 <= f.id <= LongMax && 0 <= f.mask <= LongMax
    requires LongMin <= f.extended <= LongMax && LongMin <= f.enabled <= LongMax
    ensures |Tokens(FilterText(f))| >= 4 && ParsedFilter(FilterText(f)) == f
  {
    FilterTextTokens(f);
    HexRoundTrip(f.id);
    HexRoundTrip(f.mask);
    DecimalRoundTrip(f.extended);
    DecimalRoundTrip(f.enabled);
  }

  /** `CANbFILTERi=0x%x,0x%x,%i,%i` replaces filter `i` of bus `b` by the record
      it spells out and leaves the other fifteen alone; it is saved unless it is
      filter 0 of bus 0. */
  lemma FilterLine(b: Bus, i: FilterIndex, k: seq<Byte>, f: Filter, s: Settings)
    requires s.Valid()
    requires '=' !in k && Upper(k) == KeyName(CanFilter(b, i))
    requires 0 <= f.id <= LongMax && 0 <= f.mask <= LongMax
    requires LongMin <= f.extended <= LongMax && LongMin <= f.enabled <= LongMax
    ensures var r := HandleConfigCmd(k + ['='] + FilterText(f), s);
            && r.settings == s.WithFilter(b, i, f)
            && SetRxFilter(b, i, f.id, f.mask, f.extended) in r.effects
            && Writes(r.effects) == (if b == 0 && i == 0 then 0 else 1)
  {
    FilterTextTokens(f);
    FilterTextRoundTrip(f);
    FilterValueLine(b, i, k, FilterText(f), s);
  }

  /** A filter line whose value holds four tokens and no NUL installs the
      record they spell out. */
  lemma FilterValueLine(b: Bus, i: FilterIndex, k: seq<Byte>, v: seq<Byte>, s: Settings)
    requires s.Valid()
    requires '=' !in k && Upper(k) == KeyName(CanFilter(b, i))
    requires NUL !in v && |Tokens(v)| >= 4
    ensures var r := HandleConfigCmd(k + ['='] + v, s);
            var f := ParsedFilter(v);
            && r.settings == s.WithFilter(b, i, f)
            && SetRxFilter(b, i, f.id, f.mask, f.extended) in r.effects
            && Writes(r.effects) == (if b == 0 && i == 0 then 0 else 1)
  {
    NoTextNoTokens();
    assert CString(v) == v;
    NamedKeyLine(CanFilter(b, i), k, v, s);
    ExecuteFilter(b, i, v, s);
  }

  /** A filter command whose value holds four tokens installs the record they
      spell out and programs the controller with it. */
  lemma ExecuteFilter(b: Bus, i: FilterIndex, text: seq<Byte>, s: Settings)
    requires s.Valid() && |Tokens(text)| >= 4
    ensures var r := Execute(CanFilter(b, i), text, s);
            var f := ParsedFilter(text);
            && r.settings == s.WithFilter(b, i, f)
            && SetRxFilter(b, i, f.id, f.mask, f.extended) in r.effects
            && Writes(r.effects) == (if b == 0 && i == 0 then 0 else 1)
  {
    var f := ParsedFilter(text);
    var u := Apply(CanFilter(b, i), text, s);
    assert u == SetCanFilter(b, i, text, s);
    assert u.effects == HandleFilterSet(b, i, text, s).effects;
    assert SetRxFilter(b, i, f.id, f.mask, f.extended) in u.effects;
    var r := Execute(CanFilter(b, i), text, s);
    assert u.effects <= r.effects;
  }

  /** `CANbSPEED=%i`: a speed from 1 to 1000000 is stored and the controller
      started at it, with one save; any other number changes nothing and is
      not saved. */
  lemma SpeedLine(b: Bus, k: seq<Byte>, n: int, s: Settings)
    requires s.Valid()
    requires '=' !in k && Upper(k) == KeyName(CanSpeed(b))
    requires LongMin <= n <= LongMax
    ensures var r := HandleConfigCmd(k + ['='] + DecimalText(n), s);
            && (1 <= n <= MaxBaud ==>
                  r.settings == s.WithSpeed(b, n) && Hardware(r.effects) == [Begin(b, n)] && Writes(r.effects) == 1)
            && (!(1 <= n <= MaxBaud) ==> r.settings == s && Hardware(r.effects) == [] && Writes(r.effects) == 0)
  {
    var v := DecimalText(n);
    NumberTextsAreAtoms(n);
    DecimalRoundTrip(n);
    assert CString(v) == v;
    NamedKeyLine(CanSpeed(b), k, v, s);
    ExecuteSpeed(b, v, s);
  }

  /** A speed command on the value `text`, whatever line carried it. */
  lemma ExecuteSpeed(b: Bus, text: seq<Byte>, s: Settings)
    requires s.Valid()
    ensures var n := StrToL(text);
            var r := Execute(CanSpeed(b), text, s);
            && (1 <= n <= MaxBaud ==>
                  r.settings == s.WithSpeed(b, n) && Hardware(r.effects) == [Begin(b, n)] && Writes(r.effects) == 1)
            && (!(1 <= n <= MaxBaud) ==> r.settings == s && Hardware(r.effects) == [] && Writes(r.effects) == 0)
  {
    assert Apply(CanSpeed(b), text, s) == SetCanSpeed(b, StrToL(text), s);
  }
}
