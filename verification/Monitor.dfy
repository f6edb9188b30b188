/** What the monitor's line editor must do with each key, on an abstract line and an 80 by 25 text screen. */
module EditorSpec {
  import opened Words

  const ROWS := 25
  const COLS := 80
  const ROW_STRIDE := 160
  const SCREEN_BYTES := 4000
  const ATTR: byte := 7
  const INPUT_MAX := 63

  const ENTER: byte := 13
  const BACKSPACE: byte := 8
  const SPACE: byte := 32

  /** The line being typed, the row it is on, the screen memory, and whether `halt` has been executed. */
  datatype Editor = Editor(line: seq<byte>, row: nat, screen: seq<byte>, stopped: bool)

  /** The clock registers at the moment of a command. */
  datatype Clock = Clock(hour: u32, min: u32, sec: u32)

  datatype Command = Help | About | Clear | Time | Halt | UnknownCommand

  function Ascii(s: string): (t: seq<byte>)
    ensures |t| == |s|
  {
    seq(|s|, i requires 0 <= i < |s| => (s[i] as int) % 256)
  }

  function WordOf(c: Command): seq<byte> {
    match c
    case Help => [104, 101, 108, 112]
    case About => [97, 98, 111, 117, 116]
    case Clear => [99, 108, 101, 97, 114]
    case Time => [116, 105, 109, 101]
    case Halt => [104, 97, 108, 116]
    case UnknownCommand => []
  }

  /** The command a typed line names. */
  function CommandOf(line: seq<byte>): Command {
    if line == WordOf(Help) then Help
    else if line == WordOf(About) then About
    else if line == WordOf(Clear) then Clear
    else if line == WordOf(Time) then Time
    else if line == WordOf(Halt) then Halt
    else UnknownCommand
  }

  // ---- screen ----

  function Put(screen: seq<byte>, off: nat, ch: byte): (s: seq<byte>)
    ensures |s| == |screen|
  {
    if off + 1 < |screen| then screen[off := ch][off + 1 := ATTR] else screen
  }

  /** Text up to its end or its first NUL. */
  function PutText(screen: seq<byte>, off: nat, text: seq<byte>): (s: seq<byte>)
    ensures |s| == |screen|
    decreases |text|
  {
    if text == [] || text[0] == 0 then screen else PutText(Put(screen, off, text[0]), off + 2, text[1..])
  }

  function PutDigits(screen: seq<byte>, off: nat, v: u32): seq<byte> {
    Put(Put(screen, off, (48 + v / 10) % 256), off + 2, 48 + v % 10)
  }

  function Blank(): seq<byte> { seq(SCREEN_BYTES, i => if i % 2 == 0 then SPACE else ATTR) }

  function NextRow(row: nat): nat { if row + 1 >= ROWS then 0 else row + 1 }

  function Cursor(e: Editor): nat { ROW_STRIDE * e.row + 4 + 2 * |e.line| }

  // ---- one key ----

  function Prompt(row: nat, screen: seq<byte>): Editor {
    Editor([], row, Put(Put(screen, ROW_STRIDE * row, 62), ROW_STRIDE * row + 2, SPACE), false)
  }

  /** Output rows, one text each, wrapping to the top after the last row. */
  function PutLines(row: nat, screen: seq<byte>, texts: seq<seq<byte>>): (nat, seq<byte>)
    decreases |texts|
  {
    if texts == [] then (row, screen)
    else PutLines(NextRow(row), PutText(screen, ROW_STRIDE * row, texts[0]), texts[1..])
  }

  function Banner(): seq<byte> { Ascii("ARM7 Monitor v0.0.4") }

  function HelpTexts(): seq<seq<byte>> {
    [Ascii("help   - show commands"), Ascii("about  - monitor version"), Ascii("clear  - clear screen"),
     Ascii("time   - show RTC time"), Ascii("halt   - stop CPU")]
  }

  function ClockScreen(screen: seq<byte>, off: nat, t: Clock): seq<byte> {
    var hours := Put(PutDigits(screen, off, t.hour), off + 4, 58);
    var minutes := Put(PutDigits(hours, off + 6, t.min), off + 10, 58);
    PutDigits(minutes, off + 12, t.sec)
  }

  function Execute(c: Command, row: nat, screen: seq<byte>, t: Clock): Editor {
    match c
    case Help => var (r, s) := PutLines(row, screen, HelpTexts()); Prompt(r, s)
    case About => Prompt(NextRow(row), PutText(screen, ROW_STRIDE * row, Banner()))
    case Clear => Prompt(1, PutText(Blank(), 0, Banner()))
    case Time => Prompt(NextRow(row), ClockScreen(screen, ROW_STRIDE * row, t))
    case Halt => Editor([], row, PutText(screen, ROW_STRIDE * row, Ascii("CPU halted")), true)
    case UnknownCommand => Prompt(NextRow(row), PutText(screen, ROW_STRIDE * row, Ascii("Unknown command")))
  }

  predicate Printable(key: byte) { 32 <= key <= 126 }

  function KeyStep(e: Editor, key: byte, t: Clock): Editor {
    if e.stopped then e
    else if key == ENTER then
      if e.line == [] then Prompt(NextRow(e.row), e.screen)
      else Execute(CommandOf(e.line), NextRow(e.row), e.screen, t)
    else if key == BACKSPACE then
      if e.line == [] then e
      else e.(line := e.line[..|e.line| - 1], screen := Put(e.screen, Cursor(e) - 2, SPACE))
    else if Printable(key) && |e.line| < INPUT_MAX then
      e.(line := e.line + [key], screen := Put(e.screen, Cursor(e), key))
    else e
  }

  function Keys(e: Editor, keys: seq<byte>, clocks: seq<Clock>): Editor
    requires |clocks| == |keys|
    decreases |keys|
  {
    if keys == [] then e else Keys(KeyStep(e, keys[0], clocks[0]), keys[1..], clocks[1..])
  }

  function Initial(screen: seq<byte>): Editor {
    Prompt(3, PutText(screen, ROW_STRIDE * 2, Banner()))
  }

  // ---- what every key sequence keeps ----

  /** The line fits, the row is on the screen, and the prompt row shows "> " and then the line, cell by cell. */
  ghost predicate Mirrors(e: Editor) {
    && |e.screen| == SCREEN_BYTES && e.row < ROWS && |e.line| <= INPUT_MAX
    && (forall i :: 0 <= i < |e.line| ==> Printable(e.line[i]))
    && (!e.stopped ==>
          && e.screen[ROW_STRIDE * e.row] == 62 && e.screen[ROW_STRIDE * e.row + 2] == SPACE
          && forall i :: 0 <= i < |e.line| ==> e.screen[ROW_STRIDE * e.row + 4 + 2 * i] == e.line[i])
  }

  lemma PromptMirrors(row: nat, screen: seq<byte>)
    requires row < ROWS && |screen| == SCREEN_BYTES
    ensures Mirrors(Prompt(row, screen))
  {
  }

  lemma {:induction false} PutLinesKeeps(row: nat, screen: seq<byte>, texts: seq<seq<byte>>)
    requires row < ROWS
    ensures PutLines(row, screen, texts).0 < ROWS && |PutLines(row, screen, texts).1| == |screen|
    decreases |texts|
  {
    if texts == [] {
    } else {
      PutLinesKeeps(NextRow(row), PutText(screen, ROW_STRIDE * row, texts[0]), texts[1..]);
    }
  }

  lemma ExecuteMirrors(c: Command, row: nat, screen: seq<byte>, t: Clock)
    requires row < ROWS && |screen| == SCREEN_BYTES
    ensures Mirrors(Execute(c, row, screen, t))
  {
    hide Mirrors, Prompt, PutText, PutDigits, Put, Ascii, Banner, PutLines;
    match c
    case Help =>
      PutLinesKeeps(row, screen, HelpTexts());
      PromptMirrors(PutLines(row, screen, HelpTexts()).0, PutLines(row, screen, HelpTexts()).1);
    case About => PromptMirrors(NextRow(row), PutText(screen, ROW_STRIDE * row, Banner()));
    case Clear => PromptMirrors(1, PutText(Blank(), 0, Banner()));
    case Time =>
      DigitsLength(screen, ROW_STRIDE * row, t);
      PromptMirrors(NextRow(row), ClockScreen(screen, ROW_STRIDE * row, t));
    case Halt => StoppedMirrors(row, PutText(screen, ROW_STRIDE * row, Ascii("CPU halted")));
    case UnknownCommand => PromptMirrors(NextRow(row), PutText(screen, ROW_STRIDE * row, Ascii("Unknown command")));
  }

  lemma StoppedMirrors(row: nat, screen: seq<byte>)
    requires row < ROWS && |screen| == SCREEN_BYTES
    ensures Mirrors(Editor([], row, screen, true))
  {
  }

  lemma DigitsLength(screen: seq<byte>, off: nat, t: Clock)
    ensures |ClockScreen(screen, off, t)| == |screen|
  {
    hide Put;
  }

  lemma KeyMirrors(e: Editor, key: byte, t: Clock)
    requires Mirrors(e)
    ensures Mirrors(KeyStep(e, key, t))
  {
    hide Prompt, Execute, CommandOf;
    if !e.stopped && key == ENTER {
      hide Mirrors;
      MirrorsSize(e);
      if e.line == [] { PromptMirrors(NextRow(e.row), e.screen); }
      else { ExecuteMirrors(CommandOf(e.line), NextRow(e.row), e.screen, t); }
    }
  }

  lemma MirrorsSize(e: Editor)
    requires Mirrors(e)
    ensures |e.screen| == SCREEN_BYTES && NextRow(e.row) < ROWS && e.row < ROWS && |e.line| <= INPUT_MAX
  {
  }

  /** Over every key sequence the line stays within 63 characters and the prompt row mirrors it. */
  lemma {:induction false} KeysMirror(e: Editor, keys: seq<byte>, clocks: seq<Clock>)
    requires Mirrors(e) && |clocks| == |keys|
    ensures Mirrors(Keys(e, keys, clocks))
    decreases |keys|
  {
    hide Mirrors, KeyStep;
    if keys == [] {
    } else {
      KeyMirrors(e, keys[0], clocks[0]);
      KeysMirror(KeyStep(e, keys[0], clocks[0]), keys[1..], clocks[1..]);
    }
  }

  // ---- what is typed is what is dispatched ----

  /** The line after keys other than Enter: printable keys append up to 63, backspace removes the last. */
  function Typed(line: seq<byte>, keys: seq<byte>): seq<byte>
    decreases |keys|
  {
    if keys == [] then line
    else if keys[0] == BACKSPACE then Typed(if line == [] then [] else line[..|line| - 1], keys[1..])
    else if Printable(keys[0]) && |line| < INPUT_MAX then Typed(line + [keys[0]], keys[1..])
    else Typed(line, keys[1..])
  }

  lemma {:induction false} LineIsTyped(e: Editor, keys: seq<byte>, clocks: seq<Clock>)
    requires |clocks| == |keys| && !e.stopped && ENTER !in keys
    ensures var f := Keys(e, keys, clocks); f.line == Typed(e.line, keys) && f.row == e.row && !f.stopped
    decreases |keys|
  {
    if keys == [] {
    } else {
      assert keys[0] in keys;
      hide Put, Execute;
      LineIsTyped(KeyStep(e, keys[0], clocks[0]), keys[1..], clocks[1..]);
    }
  }

  /** Enter runs command c exactly when the keys typed since the prompt spell its word; an empty line only moves on. */
  lemma EnterDispatches(e: Editor, keys: seq<byte>, clocks: seq<Clock>, t: Clock)
    requires |clocks| == |keys| && !e.stopped && e.line == [] && ENTER !in keys
    ensures var f := Keys(e, keys, clocks);
      var g := KeyStep(f, ENTER, t);
      var line := Typed([], keys);
      && (line == [] ==> g == Prompt(NextRow(e.row), f.screen))
      && (line != [] ==> g == Execute(CommandOf(line), NextRow(e.row), f.screen, t))
      && (forall c :: c != UnknownCommand ==> (CommandOf(line) == c <==> line == WordOf(c)))
  {
    LineIsTyped(e, keys, clocks);
    hide Prompt, Execute, Typed, Keys;
    forall c | c != UnknownCommand
      ensures CommandOf(Typed([], keys)) == c <==> Typed([], keys) == WordOf(c)
    {
      WordsDistinct(c);
    }
  }

  lemma WordsDistinct(c: Command)
    ensures forall d :: d != c && d != UnknownCommand && c != UnknownCommand ==> WordOf(c) != WordOf(d)
  {
    assert WordOf(Help)[1] == 101 && WordOf(Halt)[1] == 97;
    assert WordOf(About)[0] == 97 && WordOf(Clear)[0] == 99 && WordOf(Help)[0] == 104 && WordOf(Time)[0] == 116 &&
        WordOf(Halt)[0] == 104;
  }
}

/** The monitor program: registers r6, r7 and r10, the input buffer and the text screen in RAM. */
module MonitorProgram {
  import opened Words
  import opened EditorSpec

  const CRT_BASE: u32 := 0x0A00_0000
  const CRT_END: u32 := 0x0A00_0FA0

  class Monitor {
    const ram: array<byte>
    /** Where the linker put input_buffer (r9). */
    const buffer: u32
    /** Cursor cell address. */
    var r6: u32
    /** Current row base. */
    var r7: u32
    /** Input length. */
    var r10: nat
    var stopped: bool

    ghost predicate Placed() { CRT_END <= ram.Length < TWO32 && buffer + 64 <= CRT_BASE }

    function Screen(): (s: seq<byte>)
      requires Placed()
      reads ram
      ensures |s| == SCREEN_BYTES
    {
      ram[CRT_BASE..CRT_END]
    }

    /** The registers and memory show this editor. */
    ghost predicate Shows(e: Editor)
      reads this, ram
    {
      && Placed() && Mirrors(e)
      && Screen() == e.screen && stopped == e.stopped
      && (!stopped ==>
            && r7 == CRT_BASE + ROW_STRIDE * e.row
            && r10 == |e.line|
            && r6 == CRT_BASE + Cursor(e)
            && ram[buffer..buffer + |e.line|] == e.line)
    }

    /** Nothing outside the input buffer and the screen differs from m. */
    ghost predicate Confined(m: seq<byte>)
      reads ram
    {
      && |m| == ram.Length
      && forall i :: 0 <= i < ram.Length && !(buffer <= i < buffer + 64) && !(CRT_BASE <= i < CRT_END) ==>
          ram[i] == m[i]
    }

    /** strb character; strb attribute. */
    method PutCell(addr: u32, ch: byte)
      requires Placed() && CRT_BASE <= addr && addr + 2 <= CRT_END
      modifies ram
      ensures Screen() == Put(old(Screen()), addr - CRT_BASE, ch)
      ensures forall i :: 0 <= i < ram.Length && !(CRT_BASE <= i < CRT_END) ==> ram[i] == old(ram[i])
    {
      ram[addr] := ch;
      ram[addr + 1] := ATTR;
      assert Screen() == Put(old(Screen()), addr - CRT_BASE, ch);
    }

    /** print_string_at: cells from addr until the NUL that ends the text. */
    method PrintStringAt(text: seq<byte>, addr: u32)
      requires Placed() && CRT_BASE <= addr && addr + 2 * |text| <= CRT_END
      modifies ram
      ensures Screen() == PutText(old(Screen()), addr - CRT_BASE, text)
      ensures forall i :: 0 <= i < ram.Length && !(CRT_BASE <= i < CRT_END) ==> ram[i] == old(ram[i])
    {
      hide Put;
      var r0, r1 := 0, addr;
      while true
        invariant 0 <= r0 <= |text| && r1 == addr + 2 * r0
        invariant PutText(Screen(), r1 - CRT_BASE, text[r0..]) == PutText(old(Screen()), addr - CRT_BASE, text)
        invariant forall i :: 0 <= i < ram.Length && !(CRT_BASE <= i < CRT_END) ==> ram[i] == old(ram[i])
        decreases |text| - r0
      {
        var r2 := if r0 < |text| then text[r0] else 0;
        if r2 == 0 { break; }
        assert text[r0..][1..] == text[r0 + 1..];
        PutCell(r1, r2);
        r0 := r0 + 1;
        r1 := r1 + 2;
      }
    }

    method ClearScreen()
      requires Placed()
      modifies ram
      ensures Screen() == Blank()
      ensures forall i :: 0 <= i < ram.Length && !(CRT_BASE <= i < CRT_END) ==> ram[i] == old(ram[i])
    {
      var r0 := CRT_BASE;
      while r0 < CRT_END
        invariant CRT_BASE <= r0 <= CRT_END && r0 % 2 == 0
        invariant forall i :: CRT_BASE <= i < r0 ==> ram[i] == if i % 2 == 0 then SPACE else ATTR
        invariant forall i :: 0 <= i < ram.Length && !(CRT_BASE <= i < CRT_END) ==> ram[i] == old(ram[i])
      {
        ram[r0] := SPACE;
        ram[r0 + 1] := ATTR;
        r0 := r0 + 2;
      }
    }

    /** print_two_digits: division by repeated subtraction. */
    method PrintTwoDigits(v: u32, addr: u32)
      requires Placed() && CRT_BASE <= addr && addr + 4 <= CRT_END
      modifies ram
      ensures Screen() == PutDigits(old(Screen()), addr - CRT_BASE, v)
      ensures forall i :: 0 <= i < ram.Length && !(CRT_BASE <= i < CRT_END) ==> ram[i] == old(ram[i])
    {
      hide Put;
      var r0: nat, r2: nat := v, 0;
      while r0 >= 10
        invariant v == 10 * r2 + r0
      {
        r0 := r0 - 10;
        r2 := r2 + 1;
      }
      assert r2 == v / 10 && r0 == v % 10;
      PutCell(addr, (48 + r2) % 256);
      PutCell(addr + 2, 48 + r0);
    }

    /** streq on the NUL-terminated input line and a NUL-terminated word: 0 exactly when they are equal. */
    method Streq(line: seq<byte>, word: seq<byte>) returns (r0: nat)
      requires Placed() && |line| < 64 && ram[buffer..buffer + |line|] == line && ram[buffer + |line|] == 0
      requires 0 !in line && 0 !in word
      ensures r0 == if line == word then 0 else 1
    {
      var i := 0;
      while true
        invariant 0 <= i <= |line| && i <= |word|
        invariant line[..i] == word[..i]
        decreases |line| - i
      {
        var r2 := ram[buffer + i];
        var r3 := if i < |word| then word[i] else 0;
        assert r2 == if i < |line| then line[i] else 0 by {
          if i < |line| { assert ram[buffer..buffer + |line|][i] == r2; }
        }
        if r2 != r3 { return 1; }
        if r2 == 0 { return 0; }
        i := i + 1;
      }
    }

    /** normalize_row: back to the top after the last row. */
    method NormalizeRow()
      modifies `r7
      ensures r7 == if old(r7) < CRT_END then old(r7) else CRT_BASE
    {
      if r7 < CRT_END { return; }
      r7 := CRT_BASE;
    }

    /** The row base is the base of this row. */
    predicate AtRow(row: nat)
      reads this
    {
      row < ROWS && r7 == CRT_BASE + ROW_STRIDE * row
    }

    method PrintPrompt(ghost row: nat)
      requires Placed() && AtRow(row) && !stopped
      modifies this, ram
      ensures Shows(Prompt(row, old(Screen()))) && Confined(old(ram[..]))
    {
      hide Put;
      PromptMirrors(row, Screen());
      r10 := 0;
      r6 := r7;
      PutCell(r6, 62);
      r6 := r6 + 2;
      PutCell(r6, SPACE);
      r6 := r6 + 2;
      assert ram[buffer..buffer + 0] == [];
    }

    /** One line of output, then the next row. */
    method PrintRow(text: seq<byte>, ghost row: nat)
      requires Placed() && AtRow(row) && |text| <= COLS
      modifies this, ram
      ensures AtRow(NextRow(row)) && Screen() == PutText(old(Screen()), ROW_STRIDE * row, text)
      ensures stopped == old(stopped) && Confined(old(ram[..]))
    {
      PrintStringAt(text, r7);
      r7 := r7 + ROW_STRIDE;
      NormalizeRow();
    }

    method DoHelp(ghost row: nat)
      requires Placed() && AtRow(row) && !stopped
      modifies this, ram
      ensures Shows(Execute(Help, row, old(Screen()), Clock(0, 0, 0))) && Confined(old(ram[..]))
    {
      hide PutText, Prompt, Shows;
      ghost var s0 := Screen();
      PrintRow(Ascii("help   - show commands"), row);
      ghost var row1, s1 := NextRow(row), Screen();
      PrintRow(Ascii("about  - monitor version"), row1);
      ghost var row2, s2 := NextRow(row1), Screen();
      PrintRow(Ascii("clear  - clear screen"), row2);
      ghost var row3, s3 := NextRow(row2), Screen();
      PrintRow(Ascii("time   - show RTC time"), row3);
      ghost var row4, s4 := NextRow(row3), Screen();
      PrintRow(Ascii("halt   - stop CPU"), row4);
      HelpRows(row, s0, s1, s2, s3, s4, Screen());
      PrintPrompt(NextRow(row4));
    }

    method DoTime(t: Clock, ghost row: nat)
      requires Placed() && AtRow(row) && !stopped
      modifies this, ram
      ensures Shows(Execute(Time, row, old(Screen()), t)) && Confined(old(ram[..]))
    {
      hide PutDigits, Put, Prompt, Shows;
      PrintTwoDigits(t.hour, r7);
      PutCell(r7 + 4, 58);
      PrintTwoDigits(t.min, r7 + 6);
      PutCell(r7 + 10, 58);
      PrintTwoDigits(t.sec, r7 + 12);
      r7 := r7 + ROW_STRIDE;
      NormalizeRow();
      PrintPrompt(NextRow(row));
    }

    method DoAbout(t: Clock, ghost row: nat)
      requires Placed() && AtRow(row) && !stopped
      modifies this, ram
      ensures Shows(Execute(About, row, old(Screen()), t)) && Confined(old(ram[..]))
    {
      hide PutText, Prompt, Shows;
      PrintRow(Banner(), row);
      PrintPrompt(NextRow(row));
    }

    method DoClear(t: Clock, ghost row: nat)
      requires Placed() && AtRow(row) && !stopped
      modifies this, ram
      ensures Shows(Execute(Clear, row, old(Screen()), t)) && Confined(old(ram[..]))
    {
      hide PutText, Prompt, Shows, Blank;
      ClearScreen();
      r7 := CRT_BASE;
      PrintStringAt(Banner(), r7);
      r7 := r7 + ROW_STRIDE;
      PrintPrompt(1);
    }

    method DoHalt(t: Clock, ghost row: nat)
      requires Placed() && AtRow(row) && !stopped
      modifies this, ram
      ensures Shows(Execute(Halt, row, old(Screen()), t)) && Confined(old(ram[..]))
    {
      hide PutText, Shows;
      PrintStringAt(Ascii("CPU halted"), r7);
      stopped := true;
      HaltedShows(row);
    }

    method DoUnknown(t: Clock, ghost row: nat)
      requires Placed() && AtRow(row) && !stopped
      modifies this, ram
      ensures Shows(Execute(UnknownCommand, row, old(Screen()), t)) && Confined(old(ram[..]))
    {
      hide PutText, Prompt, Shows;
      PrintRow(Ascii("Unknown command"), row);
      PrintPrompt(NextRow(row));
    }

    /** dispatch_command: compare with each word in turn. The row base is already on the next row. */
    method DispatchCommand(t: Clock, line: seq<byte>, ghost row: nat)
      requires Placed() && AtRow(row) && !stopped
      requires |line| < 64 && ram[buffer..buffer + |line|] == line && ram[buffer + |line|] == 0 && 0 !in line
      modifies this, ram
      ensures Shows(Execute(CommandOf(line), row, old(Screen()), t)) && Confined(old(ram[..]))
    {
      hide Shows, Confined, PutLines, PutText, Prompt, Screen;
      var r0 := Streq(line, WordOf(Help));
      if r0 == 0 { DoHelp(row); return; }
      r0 := Streq(line, WordOf(About));
      if r0 == 0 { DoAbout(t, row); return; }
      r0 := Streq(line, WordOf(Clear));
      if r0 == 0 { DoClear(t, row); return; }
      r0 := Streq(line, WordOf(Time));
      if r0 == 0 { DoTime(t, row); return; }
      r0 := Streq(line, WordOf(Halt));
      if r0 == 0 { DoHalt(t, row); return; }
      DoUnknown(t, row);
    }

    lemma HaltedShows(row: nat)
      requires Placed() && stopped && row < ROWS
      ensures Shows(Editor([], row, Screen(), true))
    {
    }

    /** One pass from keyboard_poll with a key ready, back to keyboard_poll (or to the halt). */
    method HandleKey(key: byte, t: Clock, ghost e: Editor)
      requires Shows(e)
      modifies this, ram
      ensures Shows(KeyStep(e, key, t)) && Confined(old(ram[..]))
    {
      if stopped { return; }
      if key == ENTER { HandleEnter(t, e); return; }
      if key == BACKSPACE { HandleBackspace(e); return; }
      if key < 32 { return; }
      if key > 126 { return; }
      if r10 >= INPUT_MAX { return; }
      if r6 >= r7 + ROW_STRIDE { return; }
      AcceptKey(key, e);
    }

    method AcceptKey(key: byte, ghost e: Editor)
      requires Shows(e) && !stopped && Printable(key) && |e.line| < INPUT_MAX
      modifies this, ram
      ensures Shows(e.(line := e.line + [key], screen := Put(e.screen, Cursor(e), key))) && Confined(old(ram[..]))
    {
      hide Put, Mirrors, Prompt, Execute, CommandOf;
      MirrorsSize(e);
      ram[buffer + r10] := key;
      r10 := r10 + 1;
      assert Screen() == e.screen;
      PutCell(r6, key);
      r6 := r6 + 2;
      KeyMirrors(e, key, Clock(0, 0, 0));
      assert ram[buffer..buffer + r10] == e.line + [key];
    }

    method HandleBackspace(ghost e: Editor)
      requires Shows(e) && !stopped
      modifies this, ram
      ensures Shows(KeyStep(e, BACKSPACE, Clock(0, 0, 0))) && Confined(old(ram[..]))
    {
      hide Put, Mirrors, Prompt, Execute, CommandOf;
      MirrorsSize(e);
      if r10 == 0 { return; }
      r10 := r10 - 1;
      r6 := r6 - 2;
      PutCell(r6, SPACE);
      KeyMirrors(e, BACKSPACE, Clock(0, 0, 0));
      forall i | 0 <= i < r10
        ensures ram[buffer + i] == e.line[i]
      {
        assert old(ram[buffer..buffer + |e.line|])[i] == e.line[i];
      }
      assert ram[buffer..buffer + r10] == e.line[..r10];
    }

    method HandleEnter(t: Clock, ghost e: Editor)
      requires Shows(e) && !stopped
      modifies this, ram
      ensures Shows(KeyStep(e, ENTER, t)) && Confined(old(ram[..]))
    {
      ram[buffer + r10] := 0;
      assert Screen() == e.screen;
      r7 := r7 + ROW_STRIDE;
      NormalizeRow();
      if r10 == 0 {
        PrintPrompt(NextRow(e.row));
        return;
      }
      assert ram[buffer..buffer + r10] == e.line;
      DispatchCommand(t, ram[buffer..buffer + r10], NextRow(e.row));
    }

    /** A whole session: every key that arrives, in order. */
    method Session(keys: seq<byte>, clocks: seq<Clock>, ghost e: Editor)
      requires Shows(e) && |clocks| == |keys|
      modifies this, ram
      ensures Shows(Keys(e, keys, clocks)) && Confined(old(ram[..]))
    {
      hide KeyStep, Shows;
      ghost var now := e;
      for i := 0 to |keys|
        invariant Shows(now) && Confined(old(ram[..]))
        invariant Keys(now, keys[i..], clocks[i..]) == Keys(e, keys, clocks)
      {
        assert keys[i..][0] == keys[i] && keys[i..][1..] == keys[i + 1..];
        assert clocks[i..][0] == clocks[i] && clocks[i..][1..] == clocks[i + 1..];
        HandleKey(keys[i], clocks[i], now);
        now := KeyStep(now, keys[i], clocks[i]);
      }
    }

    /** Start-up: banner on row 2, prompt on row 3. */
    method Start()
      requires Placed() && !stopped
      modifies this, ram
      ensures Shows(Initial(old(Screen()))) && Confined(old(ram[..]))
    {
      hide PutText, Prompt, Shows;
      r7 := CRT_BASE + 2 * ROW_STRIDE;
      PrintStringAt(Banner(), r7);
      r7 := r7 + ROW_STRIDE;
      PrintPrompt(3);
    }
  }

  lemma HelpRows(row: nat, s0: seq<byte>, s1: seq<byte>, s2: seq<byte>, s3: seq<byte>, s4: seq<byte>, s5: seq<byte>)
    requires s1 == PutText(s0, ROW_STRIDE * row, Ascii("help   - show commands"))
    requires s2 == PutText(s1, ROW_STRIDE * NextRow(row), Ascii("about  - monitor version"))
    requires s3 == PutText(s2, ROW_STRIDE * NextRow(NextRow(row)), Ascii("clear  - clear screen"))
    requires s4 == PutText(s3, ROW_STRIDE * NextRow(NextRow(NextRow(row))), Ascii("time   - show RTC time"))
    requires s5 == PutText(s4, ROW_STRIDE * NextRow(NextRow(NextRow(NextRow(row)))), Ascii("halt   - stop CPU"))
    ensures PutLines(row, s0, HelpTexts()) == (NextRow(NextRow(NextRow(NextRow(NextRow(row))))), s5)
  {
    hide PutText, Ascii, NextRow;
    var t: seq<seq<byte>> := HelpTexts();
    assert PutLines(row, s0, t) == PutLines(NextRow(row), s1, t[1..]);
    assert t[1..][1..] == t[2..] && t[2..][1..] == t[3..] && t[3..][1..] == t[4..];
    var r1 := NextRow(row);
    assert PutLines(r1, s1, t[1..]) == PutLines(NextRow(r1), s2, t[2..]);
    var r2 := NextRow(r1);
    assert PutLines(r2, s2, t[2..]) == PutLines(NextRow(r2), s3, t[3..]);
    var r3 := NextRow(r2);
    assert PutLines(r3, s3, t[3..]) == PutLines(NextRow(r3), s4, t[4..]);
  }
}
