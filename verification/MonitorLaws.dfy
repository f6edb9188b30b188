/** What the monitor shows and does, cell by cell: character codes, texts, positions. */
module MonitorLaws {
  import opened Words
  import opened EditorSpec
  import opened MonitorProgram

  /** The character codes of a text. */
  function Chars(s: string): (t: seq<byte>)
    ensures |t| == |s|
  {
    seq(|s|, i requires 0 <= i < |s| => (s[i] as int) % 256)
  }

  /** Screen s is `before` with these characters in the cells from byte off on, each with attribute 7. */
  predicate Written(s: seq<byte>, before: seq<byte>, off: nat, text: seq<byte>) {
    && |s| == |before| && off + 2 * |text| <= |s|
    && (forall i :: 0 <= i < |text| ==> s[off + 2 * i] == text[i] && s[off + 2 * i + 1] == 7)
    && (forall k :: 0 <= k < |s| && !(off <= k < off + 2 * |text|) ==> s[k] == before[k])
  }

  lemma AsciiIs(s: string)
    ensures Ascii(s) == Chars(s)
  {
  }

  lemma {:induction false} TextIs(screen: seq<byte>, off: nat, text: seq<byte>)
    requires off + 2 * |text| <= |screen| && 0 !in text
    ensures Written(PutText(screen, off, text), screen, off, text)
    decreases |text|
  {
    if text == [] {
    } else {
      var s1 := Put(screen, off, text[0]);
      assert text[0] in text;
      TextIs(s1, off + 2, text[1..]);
      var s := PutText(screen, off, text);
      forall i | 0 <= i < |text|
        ensures s[off + 2 * i] == text[i] && s[off + 2 * i + 1] == 7
      {
        if i > 0 { assert s[(off + 2) + 2 * (i - 1)] == text[1..][i - 1]; }
      }
    }
  }

  lemma PromptIs(row: nat, screen: seq<byte>)
    requires row < 25 && |screen| == 4000
    ensures var e := Prompt(row, screen);
      e.line == [] && e.row == row && !e.stopped && Written(e.screen, screen, 160 * row, [62, 32])
  {
  }

  // ---- the commands ----

  /** `about`, and a word that is no command: one row of text, and the prompt on the next row. */
  lemma AboutLaw(c: Command, row: nat, screen: seq<byte>, t: Clock) returns (shown: seq<byte>)
    requires (c == About || c == UnknownCommand) && row < 25 && |screen| == 4000
    ensures var e := Execute(c, row, screen, t);
      && Written(shown, screen, 160 * row,
                 if c == About then Chars("ARM7 Monitor v0.0.4") else Chars("Unknown command"))
      && e.row == (if row == 24 then 0 else row + 1) && Written(e.screen, shown, 160 * e.row, [62, 32])
      && e.line == [] && !e.stopped
  {
    var text := if c == About then "ARM7 Monitor v0.0.4" else "Unknown command";
    hide Prompt, PutText, Written, Ascii, Chars;
    AsciiIs(text);
    NoNul(text);
    TextIs(screen, 160 * row, Chars(text));
    shown := PutText(screen, 160 * row, Ascii(text));
    PromptIs(NextRow(row), shown);
  }

  /** `halt`: its text, and no prompt. */
  lemma HaltLaw(row: nat, screen: seq<byte>, t: Clock)
    requires row < 25 && |screen| == 4000
    ensures var e := Execute(Halt, row, screen, t);
      Written(e.screen, screen, 160 * row, Chars("CPU halted")) && e.row == row && e.line == [] && e.stopped
  {
    hide Written, PutText, Ascii, Chars;
    AsciiIs("CPU halted");
    NoNul("CPU halted");
    TextIs(screen, 160 * row, Chars("CPU halted"));
  }

  /** `clear`: blanks everywhere, then the banner on the first row and the prompt on the second. */
  lemma ClearLaw(row: nat, screen: seq<byte>, t: Clock) returns (blank: seq<byte>, shown: seq<byte>)
    requires row < 25 && |screen| == 4000
    ensures var e := Execute(Clear, row, screen, t);
      && |blank| == 4000 && (forall k :: 0 <= k < 4000 ==> blank[k] == if k % 2 == 0 then 32 else 7)
      && Written(shown, blank, 0, Chars("ARM7 Monitor v0.0.4"))
      && e.row == 1 && Written(e.screen, shown, 160, [62, 32]) && e.line == [] && !e.stopped
  {
    assert 0 !in Chars("ARM7 Monitor v0.0.4");
    blank := Blank();
    hide Prompt, PutText, Written, Ascii, Chars, Blank;
    AsciiIs("ARM7 Monitor v0.0.4");
    NoNul("ARM7 Monitor v0.0.4");
    TextIs(blank, 0, Chars("ARM7 Monitor v0.0.4"));
    shown := PutText(blank, 0, Ascii("ARM7 Monitor v0.0.4"));
    PromptIs(1, shown);
  }

  /** Start-up: the banner on the third row and the prompt on the fourth. */
  lemma StartLaw(screen: seq<byte>) returns (shown: seq<byte>)
    requires |screen| == 4000
    ensures var e := Initial(screen);
      && Written(shown, screen, 320, Chars("ARM7 Monitor v0.0.4"))
      && e.row == 3 && Written(e.screen, shown, 480, [62, 32]) && e.line == [] && !e.stopped
  {
    hide Prompt, PutText, Written, Ascii, Chars;
    AsciiIs("ARM7 Monitor v0.0.4");
    NoNul("ARM7 Monitor v0.0.4");
    TextIs(screen, 320, Chars("ARM7 Monitor v0.0.4"));
    shown := PutText(screen, 320, Ascii("ARM7 Monitor v0.0.4"));
    PromptIs(3, shown);
  }

  /** Two decimal digits of a number below 100; beyond that the first cell is the quotient's code, modulo 256. */
  lemma DigitsIs(screen: seq<byte>, off: nat, v: u32)
    requires off + 4 <= |screen|
    ensures Written(PutDigits(screen, off, v), screen, off, [(48 + v / 10) % 256, 48 + v % 10])
  {
  }

  lemma CellIs(screen: seq<byte>, off: nat, ch: byte)
    requires off + 2 <= |screen|
    ensures Written(Put(screen, off, ch), screen, off, [ch])
  {
  }

  /** Adjoining pieces of text are one text. */
  lemma Adjoin(s: seq<byte>, m: seq<byte>, before: seq<byte>, off: nat, a: seq<byte>, b: seq<byte>)
    requires Written(m, before, off, a) && Written(s, m, off + 2 * |a|, b)
    ensures Written(s, before, off, a + b)
  {
    forall i | 0 <= i < |a| + |b|
      ensures s[off + 2 * i] == (a + b)[i] && s[off + 2 * i + 1] == 7
    {
      if i >= |a| { assert off + 2 * i == (off + 2 * |a|) + 2 * (i - |a|); }
    }
  }

  /** Two digits and a colon. */
  lemma FieldIs(screen: seq<byte>, off: nat, v: u32)
    requires off + 6 <= |screen|
    ensures Written(Put(PutDigits(screen, off, v), off + 4, 58), screen, off, [(48 + v / 10) % 256, 48 + v % 10, 58])
  {
    hide Put, PutDigits, Written;
    var d: seq<byte> := [(48 + v / 10) % 256, 48 + v % 10];
    DigitsIs(screen, off, v);
    SameSize(PutDigits(screen, off, v), screen, off, d);
    CellIs(PutDigits(screen, off, v), off + 4, 58);
    Adjoin(Put(PutDigits(screen, off, v), off + 4, 58), PutDigits(screen, off, v), screen, off, d, [58]);
    assert d + [58] == [(48 + v / 10) % 256, 48 + v % 10, 58];
  }

  /** The clock is eight characters: hours, minutes and seconds, two digits each, with colons between. */
  lemma ClockIs(screen: seq<byte>, off: nat, t: Clock)
    requires off + 16 <= |screen|
    ensures Written(ClockScreen(screen, off, t), screen, off,
                    [(48 + t.hour / 10) % 256, 48 + t.hour % 10, 58] + [(48 + t.min / 10) % 256, 48 + t.min % 10, 58]
                    + [(48 + t.sec / 10) % 256, 48 + t.sec % 10])
  {
    var h: seq<byte> := [(48 + t.hour / 10) % 256, 48 + t.hour % 10, 58];
    var m: seq<byte> := [(48 + t.min / 10) % 256, 48 + t.min % 10, 58];
    var s: seq<byte> := [(48 + t.sec / 10) % 256, 48 + t.sec % 10];
    var hours := Put(PutDigits(screen, off, t.hour), off + 4, 58);
    var minutes := Put(PutDigits(hours, off + 6, t.min), off + 10, 58);
    FieldIs(screen, off, t.hour);
    SameSize(hours, screen, off, h);
    FieldIs(hours, off + 6, t.min);
    DigitsAfter(minutes, hours, screen, off, t.sec, h, m, s);
  }

  lemma DigitsAfter(minutes: seq<byte>, hours: seq<byte>, screen: seq<byte>, off: nat, v: u32, h: seq<byte>,
      m: seq<byte>, s: seq<byte>)
    requires off + 16 <= |screen| && |h| == 3 && |m| == 3 && s == [(48 + v / 10) % 256, 48 + v % 10]
    requires Written(hours, screen, off, h) && Written(minutes, hours, off + 6, m)
    ensures Written(PutDigits(minutes, off + 12, v), screen, off, h + m + s)
  {
    hide Put, PutDigits, Written;
    Adjoin(minutes, hours, screen, off, h, m);
    SameSize(minutes, screen, off, h + m);
    DigitsIs(minutes, off + 12, v);
    Adjoin(PutDigits(minutes, off + 12, v), minutes, screen, off, h + m, s);
  }

  lemma SameSize(s: seq<byte>, before: seq<byte>, off: nat, text: seq<byte>)
    requires Written(s, before, off, text)
    ensures |s| == |before|
  {
  }

  /** `time`: the clock, and the prompt on the next row. */
  lemma TimeLaw(row: nat, screen: seq<byte>, t: Clock) returns (shown: seq<byte>)
    requires row < 25 && |screen| == 4000
    ensures var e := Execute(Time, row, screen, t);
      && Written(shown, screen, 160 * row,
                 [(48 + t.hour / 10) % 256, 48 + t.hour % 10, 58] + [(48 + t.min / 10) % 256, 48 + t.min % 10, 58]
                 + [(48 + t.sec / 10) % 256, 48 + t.sec % 10])
      && e.row == (if row == 24 then 0 else row + 1) && Written(e.screen, shown, 160 * e.row, [62, 32])
      && e.line == [] && !e.stopped
  {
    hide Prompt, ClockScreen, Written;
    ClockIs(screen, 160 * row, t);
    shown := ClockScreen(screen, 160 * row, t);
    DigitsLength(screen, 160 * row, t);
    PromptIs(NextRow(row), shown);
  }

  /** The rows of `help`. */
  function HelpRow(i: nat): seq<byte>
    requires i < 5
  {
    if i == 0 then Chars("help   - show commands") else if i == 1 then Chars("about  - monitor version")
    else if i == 2 then Chars("clear  - clear screen") else if i == 3 then Chars("time   - show RTC time")
    else Chars("halt   - stop CPU")
  }

  lemma HelpRowIs(i: nat)
    requires i < 5
    ensures HelpTexts()[i] == HelpRow(i) && |HelpRow(i)| <= 80 && 0 !in HelpRow(i)
  {
    hide Ascii, Chars;
    HelpRowsClean(i);
    AsciiIs("help   - show commands");
    AsciiIs("about  - monitor version");
    AsciiIs("clear  - clear screen");
    AsciiIs("time   - show RTC time");
    AsciiIs("halt   - stop CPU");
  }

  lemma HelpRowsClean(i: nat)
    requires i < 5
    ensures |HelpRow(i)| <= 80 && 0 !in HelpRow(i)
  {
    hide Chars;
    if i == 0 {
      NoNul("help   - show commands");
    } else if i == 1 {
      NoNul("about  - monitor version");
    } else if i == 2 {
      NoNul("clear  - clear screen");
    } else if i == 3 {
      NoNul("time   - show RTC time");
    } else {
      NoNul("halt   - stop CPU");
    }
  }

  lemma NoNul(s: string)
    requires forall i :: 0 <= i < |s| ==> 0 < s[i] as int < 256
    ensures 0 !in Chars(s)
  {
  }

  /** Rows printed one after another, each on the next row of the screen. */
  lemma {:induction false} LinesAre(row: nat, screen: seq<byte>, texts: seq<seq<byte>>)
      returns (screens: seq<seq<byte>>)
    requires row < 25 && |screen| == 4000 && forall i :: 0 <= i < |texts| ==> |texts[i]| <= 80 && 0 !in texts[i]
    ensures |screens| == |texts| + 1 && screens[0] == screen
    ensures forall i :: 0 <= i < |texts| ==> Written(screens[i + 1], screens[i], 160 * ((row + i) % 25), texts[i])
    ensures PutLines(row, screen, texts) == ((row + |texts|) % 25, screens[|texts|])
    ensures |screens[|texts|]| == 4000
    decreases |texts|
  {
    hide PutText, Written;
    if texts == [] {
      screens := [screen];
    } else {
      TextIs(screen, 160 * row, texts[0]);
      var s1 := PutText(screen, 160 * row, texts[0]);
      var rest := LinesAre(NextRow(row), s1, texts[1..]);
      screens := [screen] + rest;
      forall i | 0 <= i < |texts|
        ensures Written(screens[i + 1], screens[i], 160 * ((row + i) % 25), texts[i])
      {
        if i > 0 {
          assert Written(rest[i], rest[i - 1], 160 * ((NextRow(row) + (i - 1)) % 25), texts[1..][i - 1]);
          RowAfter(row, i);
        }
      }
      RowAfter(row, |texts|);
    }
  }

  lemma RowAfter(row: nat, i: nat)
    requires row < 25 && i > 0
    ensures (NextRow(row) + (i - 1)) % 25 == (row + i) % 25
  {
  }

  /** `help`: five rows of text, going on at the top after the last row, and the prompt after them. */
  lemma HelpLaw(row: nat, screen: seq<byte>, t: Clock) returns (screens: seq<seq<byte>>)
    requires row < 25 && |screen| == 4000
    ensures var e := Execute(Help, row, screen, t);
      && |screens| == 6 && screens[0] == screen
      && (forall i :: 0 <= i < 5 ==> Written(screens[i + 1], screens[i], 160 * ((row + i) % 25), HelpRow(i)))
      && e.row == (row + 5) % 25 && Written(e.screen, screens[5], 160 * e.row, [62, 32]) && e.line == [] && !e.stopped
  {
    assert |HelpTexts()| == 5;
    hide Prompt, Written, PutLines, HelpTexts, HelpRow;
    forall i | 0 <= i < 5
      ensures HelpTexts()[i] == HelpRow(i) && |HelpRow(i)| <= 80 && 0 !in HelpRow(i)
    {
      HelpRowIs(i);
    }
    screens := LinesAre(row, screen, HelpTexts());
    PromptIs((row + 5) % 25, screens[5]);
  }

  // ---- the keys ----

  /** Keys other than Enter on a typed line: code 8 takes the last character off and blanks its cell, codes 32 to 126
      add a character and its cell while there are fewer than 63, and nothing else does anything. */
  lemma KeyLaw(e: Editor, key: byte, t: Clock)
    requires |e.screen| == 4000 && e.row < 25 && |e.line| <= 63 && key != 13
    ensures var g, at := KeyStep(e, key, t), 160 * e.row + 4 + 2 * |e.line|;
      var erases := !e.stopped && key == 8 && e.line != [];
      var types := !e.stopped && 32 <= key <= 126 && |e.line| < 63;
      && g.row == e.row && g.stopped == e.stopped
      && (erases ==> g.line == e.line[..|e.line| - 1] && Written(g.screen, e.screen, at - 2, [32]))
      && (types ==> g.line == e.line + [key] && Written(g.screen, e.screen, at, [key]))
      && (!erases && !types ==> g == e)
  {
    var at := 160 * e.row + 4 + 2 * |e.line|;
    if e.line != [] { CellIs(e.screen, at - 2, 32); }
    CellIs(e.screen, at, key);
  }

  /** Enter: a new prompt on the next row for an empty line, and else the command whose word is the line. */
  lemma EnterLaw(e: Editor, t: Clock, c: Command)
    requires |e.screen| == 4000 && e.row < 25 && !e.stopped
    requires c == if e.line == Chars("help") then Help else if e.line == Chars("about") then About
                  else if e.line == Chars("clear") then Clear else if e.line == Chars("time") then Time
                  else if e.line == Chars("halt") then Halt else UnknownCommand
    ensures var g, next := KeyStep(e, 13, t), if e.row == 24 then 0 else e.row + 1;
      && (e.line == [] ==>
            g.line == [] && g.row == next && !g.stopped && Written(g.screen, e.screen, 160 * next, [62, 32]))
      && (e.line != [] ==> g == Execute(c, next, e.screen, t))
  {
    WordsAre();
    hide Prompt, Execute, Written, Chars, WordOf;
    PromptIs(NextRow(e.row), e.screen);
  }

  lemma WordsAre()
    ensures WordOf(Help) == Chars("help") && WordOf(About) == Chars("about") && WordOf(Clear) == Chars("clear")
    ensures WordOf(Time) == Chars("time") && WordOf(Halt) == Chars("halt")
  {
  }

  /** Where a shown editor is in memory: its screen from 0x0A000000, the prompt and the line on its row, the cursor
      after the line. */
  lemma ScreenLaw(m: Monitor, e: Editor)
    requires m.Shows(e)
    ensures m.ram.Length >= 0x0A00_0FA0 && m.ram[0x0A00_0000..0x0A00_0FA0] == e.screen
    ensures !e.stopped ==>
      var row := 0x0A00_0000 + 160 * e.row;
      && row + 160 <= 0x0A00_0FA0 && |e.line| <= 63
      && m.ram[row] == 62 && m.ram[row + 2] == 32
      && (forall i :: 0 <= i < |e.line| ==> m.ram[row + 4 + 2 * i] == e.line[i])
      && m.r7 == row && m.r10 == |e.line| && m.r6 == row + 4 + 2 * |e.line|
  {
    var base := 0x0A00_0000;
    assert e.screen == m.ram[base..base + 4000];
    forall k | 0 <= k < 4000
      ensures m.ram[base + k] == e.screen[k]
    {
      assert m.ram[base..base + 4000][k] == m.ram[base + k];
    }
    if !e.stopped {
      forall i | 0 <= i < |e.line|
        ensures m.ram[base + 160 * e.row + 4 + 2 * i] == e.line[i]
      {
        assert m.ram[base + (160 * e.row + 4 + 2 * i)] == e.screen[160 * e.row + 4 + 2 * i];
      }
    }
  }
}
