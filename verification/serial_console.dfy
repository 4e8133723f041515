/** The byte-driven side of the console: `init`, `rcvCharacter`,
    `handleConsoleCmd` and `handleShortCmd`. Bytes collect in an 80-byte buffer
    through a cursor that never passes 79; a line feed or carriage return hands
    the first `cursor` bytes to the dispatcher and puts the cursor back to 0. */
module SerialConsole {
  import opened Ascii
  import opened DeviceSettings
  import opened ConfigCommand

  const BufferSize: int := 80
  const LastSlot: int := 79

  /** The console's menu state; the root menu is the only one there is. */
  datatype MenuState = RootMenu

  datatype Console = Console(buffer: seq<Byte>, cursor: nat, state: MenuState) {
    predicate Valid() {
      |buffer| == BufferSize && cursor <= LastSlot
    }

    /** The line collected so far: the bytes before the cursor. */
    function Line(): seq<Byte>
      requires Valid()
    {
      buffer[..cursor]
    }
  }

  /** `init()`: an empty line in the root menu; the buffer keeps whatever it held. */
  function Init(buffer: seq<Byte>): (c: Console)
    requires |buffer| == BufferSize
    ensures c.Valid() && c.Line() == [] && c.state == RootMenu
  {
    Console(buffer, 0, RootMenu)
  }

  /** The console, the settings record it edits, and every action taken so far. */
  datatype Machine = Machine(console: Console, settings: Settings, trace: seq<Effect>) {
    predicate Valid() {
      console.Valid() && settings.Valid()
    }
  }

  predicate IsTerminator(b: Byte) {
    b == LF || b == CR
  }

  /** `handleShortCmd`: `h`, `?`, `H` print the menu, `K`/`J` drive every output
      high/low, `X` re-runs the device setup; `R`, `s`, `S` are placeholders
      and every other byte is ignored. No short command edits the settings
      record here: `setup()` is not part of this model and is taken to leave
      the record, the console and the EEPROM as they are. */
  function HandleShortCmd(c: Byte): (fx: seq<Effect>)
    ensures fx != [] <==> c in "h?HKJX"
    ensures PrintMenu in fx <==> c in "h?H"
    ensures SetAllOutputs(true) in fx <==> c == 'K'
    ensures SetAllOutputs(false) in fx <==> c == 'J'
    ensures Setup in fx <==> c == 'X'
    ensures Writes(fx) == 0
    ensures |Hardware(fx)| <= 1
  {
    if c == 'h' || c == '?' || c == 'H' then [PrintMenu]
    else if c == 'K' then [SetAllOutputs(true), Say(OutputsOn)]
    else if c == 'J' then [SetAllOutputs(false), Say(OutputsOff)]
    else if c == 'R' || c == 's' || c == 'S' then []
    else if c == 'X' then [Setup]
    else []
  }

  /** `handleConsoleCmd` on a completed line: in the root menu a one-byte line is
      a short command and any other line a configuration line. A short command
      leaves the record alone under the assumption about `setup()` that
      `HandleShortCmd` states. */
  function HandleConsoleCmd(state: MenuState, line: seq<Byte>, s: Settings): (r: Reply)
    requires s.Valid()
    ensures r.settings.Valid()
    ensures |line| == 1 ==> r.settings == s && r.effects == HandleShortCmd(line[0])
    ensures |line| != 1 ==> r == HandleConfigCmd(line, s)
    ensures Writes(r.effects) <= 1
  {
    match state
    case RootMenu =>
      if |line| == 1 then Reply(s, HandleShortCmd(line[0])) else HandleConfigCmd(line, s)
  }

  /** `rcvCharacter(chr)`. */
  function RcvCharacter(m: Machine, chr: Byte): (r: Machine)
    requires m.Valid()
    ensures r.Valid()
    ensures IsTerminator(chr) ==>
              var d := HandleConsoleCmd(m.console.state, m.console.Line(), m.settings);
              && r.console.Line() == []
              && r.settings == d.settings
              && r.trace == m.trace + d.effects
    ensures !IsTerminator(chr) ==>
              && r.console.buffer[m.console.cursor] == chr
              && r.console.cursor == (if m.console.cursor < LastSlot then m.console.cursor + 1 else LastSlot)
              && r.console.Line() == (m.console.Line() + [chr])[..r.console.cursor]
              && r.settings == m.settings
              && r.trace == m.trace
  {
    var c := m.console;
    if IsTerminator(chr) then
      var d := HandleConsoleCmd(c.state, c.Line(), m.settings);
      Machine(c.(cursor := 0), d.settings, m.trace + d.effects)
    else
      var next := c.cursor + 1;
      var buffer := c.buffer[c.cursor := chr];
      assert buffer[..c.cursor] == c.Line();
      Machine(c.(buffer := buffer, cursor := if next > LastSlot then LastSlot else next), m.settings, m.trace)
  }

  /** Feeding the bytes of `bs` one after another. */
  function Run(m: Machine, bs: seq<Byte>): (r: Machine)
    requires m.Valid()
    ensures r.Valid()
    decreases |bs|
  {
    if |bs| == 0 then m else Run(RcvCharacter(m, bs[0]), bs[1..])
  }

  function Min(a: int, b: int): int {
    if a < b then a else b
  }

  /** Bytes without a line ending only extend the line: it becomes the old line
      followed by the new bytes, cut after 79 bytes, and nothing else happens. */
  lemma {:induction false} FeedBytes(m: Machine, bs: seq<Byte>)
    requires m.Valid()
    requires forall i :: 0 <= i < |bs| ==> !IsTerminator(bs[i])
    ensures Run(m, bs).console.cursor == Min(m.console.cursor + |bs|, LastSlot)
    ensures Run(m, bs).console.Line() == (m.console.Line() + bs)[..Min(m.console.cursor + |bs|, LastSlot)]
    ensures Run(m, bs).settings == m.settings
    ensures Run(m, bs).trace == m.trace
    ensures Run(m, bs).console.state == m.console.state
    decreases |bs|
  {
    if |bs| > 0 {
      var m1 := RcvCharacter(m, bs[0]);
      FeedBytes(m1, bs[1..]);
      FeedOne(m, bs);
    }
  }

  /** After one byte, the rest of the line extends the new line to the same text. */
  lemma FeedOne(m: Machine, bs: seq<Byte>)
    requires m.Valid() && |bs| > 0 && !IsTerminator(bs[0])
    ensures var n := Min(m.console.cursor + |bs|, LastSlot);
            (m.console.Line() + bs)[..n] == (RcvCharacter(m, bs[0]).console.Line() + bs[1..])[..n]
  {
    var m1 := RcvCharacter(m, bs[0]);
    var n := Min(m.console.cursor + |bs|, LastSlot);
    var line := m.console.Line();
    if m.console.cursor < LastSlot {
      assert m1.console.Line() == line + [bs[0]];
      assert line + bs == line + [bs[0]] + bs[1..];
    } else {
      assert m1.console.Line() == line;
      assert n == LastSlot == |line|;
      assert (line + bs)[..n] == line;
      assert (line + bs[1..])[..n] == line;
    }
  }

  lemma {:induction false} RunAppend(m: Machine, a: seq<Byte>, b: Byte)
    requires m.Valid()
    ensures Run(m, a + [b]) == RcvCharacter(Run(m, a), b)
    decreases |a|
  {
    if |a| == 0 {
      assert [b][1..] == [];
    } else {
      assert (a + [b])[0] == a[0];
      assert (a + [b])[1..] == a[1..] + [b];
      RunAppend(RcvCharacter(m, a[0]), a[1..], b);
    }
  }

  /** Starting from an empty line, the bytes of a line followed by one line
      ending cause exactly one dispatch, of the line's first 79 bytes at most,
      and leave the cursor at 0. */
  lemma LineDispatch(m: Machine, bs: seq<Byte>, t: Byte)
    requires m.Valid() && m.console.cursor == 0
    requires forall i :: 0 <= i < |bs| ==> !IsTerminator(bs[i])
    requires IsTerminator(t)
    ensures var d := HandleConsoleCmd(m.console.state, bs[..Min(|bs|, LastSlot)], m.settings);
            && Run(m, bs + [t]).console.cursor == 0
            && Run(m, bs + [t]).settings == d.settings
            && Run(m, bs + [t]).trace == m.trace + d.effects
  {
    FeedBytes(m, bs);
    RunAppend(m, bs, t);
    assert m.console.Line() == [];
    assert [] + bs == bs;
  }

  /** A line ending on an empty line does nothing. */
  lemma EmptyLineIdle(m: Machine, t: Byte)
    requires m.Valid() && m.console.cursor == 0 && IsTerminator(t)
    ensures RcvCharacter(m, t).settings == m.settings
    ensures RcvCharacter(m, t).trace == m.trace
    ensures RcvCharacter(m, t).console.cursor == 0
  {
    assert m.console.Line() == [];
    var d := HandleConsoleCmd(m.console.state, [], m.settings);
    assert d == Reply(m.settings, []);
    assert m.trace + d.effects == m.trace;
  }

  /** A CR LF pair acts like its CR alone: the empty line the LF ends does nothing. */
  lemma CrLfLikeCr(m: Machine, bs: seq<Byte>)
    requires m.Valid()
    ensures Run(m, bs + [CR, LF]).settings == Run(m, bs + [CR]).settings
    ensures Run(m, bs + [CR, LF]).trace == Run(m, bs + [CR]).trace
    ensures Run(m, bs + [CR, LF]).console.cursor == 0
  {
    var a := bs + [CR];
    assert bs + [CR, LF] == a + [LF];
    var m1 := Run(m, a);
    RunAppend(m, bs, CR);
    RunAppend(m, a, LF);
    assert m1.console.Line() == [];
    EmptyLineIdle(m1, LF);
  }
}
