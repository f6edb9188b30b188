/** Which rows of the shipped table arithmetic, load, store, block and branch words select. */
module SelectionLaws {
  import opened Words
  import opened Alu
  import opened CpuModel
  import opened Conditions
  import opened Machine
  import opened Memory
  import opened Options
  import opened Popcount
  import opened SeedTable
  import opened Emulator
  import D = DecoderSpec

  // ---- arithmetic ----

  /** The operation field of each instruction, in its place: bits 24 to 21, with bits 27 and 26 clear. */
  function OpcodeBits(op: Op): bv16 {
    match op
    case SUB => 0x0040
    case RSB => 0x0060
    case ADD => 0x0080
    case ADC => 0x00A0
    case SBC => 0x00C0
    case RSC => 0x00E0
    case CMP => 0x0140
    case CMN => 0x0160
  }

  /** An arithmetic word: its operation field, bits 27 and 26 clear, and not in the space of multiplies and halfword
      transfers (bit 25 clear and bits 7 and 4 set). A comparison also has bit 20 set and a condition other than NV. */
  predicate ArithmeticWord(op: Op, x: bv32) {
    && x & 0x0DE0_0000 == (OpcodeBits(op) as bv32) << 16 && x & 0x0200_0090 != 0x0000_0090
    && (Compares(op) ==> x & 0x0010_0000 != 0 && x & 0xF000_0000 != 0xF000_0000)
  }

  lemma OpcodeKey(op: Op, x: bv32)
    requires ArithmeticWord(op, x)
    ensures D.Key12(x) & 0x0DE0 == OpcodeBits(op) && D.Key12(x) & 0x0209 != 0x0009
    ensures Compares(op) ==> D.Key12(x) & 0x0010 == 0x0010
  {
  }

  lemma AddColumns(k: bv16)
    requires k & 0x0DE0 == 0x0080 && k & 0x0209 != 0x0009
    ensures Columns(k) <= {57, SEED_ROWS}
  {
  }

  lemma AdcColumns(k: bv16)
    requires k & 0x0DE0 == 0x00A0 && k & 0x0209 != 0x0009
    ensures Columns(k) <= {58, SEED_ROWS}
  {
  }

  lemma SubColumns(k: bv16)
    requires k & 0x0DE0 == 0x0040 && k & 0x0209 != 0x0009
    ensures Columns(k) <= {55, SEED_ROWS}
  {
  }

  lemma SbcColumns(k: bv16)
    requires k & 0x0DE0 == 0x00C0 && k & 0x0209 != 0x0009
    ensures Columns(k) <= {59, SEED_ROWS}
  {
  }

  lemma RsbColumns(k: bv16)
    requires k & 0x0DE0 == 0x0060 && k & 0x0209 != 0x0009
    ensures Columns(k) <= {56, SEED_ROWS}
  {
  }

  lemma RscColumns(k: bv16)
    requires k & 0x0DE0 == 0x00E0 && k & 0x0209 != 0x0009
    ensures Columns(k) <= {60, SEED_ROWS}
  {
  }

  lemma CmpColumns(k: bv16)
    requires k & 0x0DF0 == 0x0150 && k & 0x0209 != 0x0009
    ensures Columns(k) <= {CPS, 31, 32, 53, SEED_ROWS}
  {
  }

  lemma CmnColumns(k: bv16)
    requires k & 0x0DF0 == 0x0170 && k & 0x0209 != 0x0009
    ensures Columns(k) <= {CPS, 31, 32, 54, SEED_ROWS}
  {
  }

  lemma ArithmeticColumns(op: Op, k: bv16)
    requires k & 0x0DE0 == OpcodeBits(op) && k & 0x0209 != 0x0009 && (Compares(op) ==> k & 0x0010 == 0x0010)
    ensures Columns(k) <= {CPS, 31, 32, ArithmeticRow(op), SEED_ROWS}
    ensures !Compares(op) ==> Columns(k) <= {ArithmeticRow(op), SEED_ROWS}
  {
    hide Columns;
    match op
    case ADD => AddColumns(k);
    case ADC => AdcColumns(k);
    case SUB => SubColumns(k);
    case SBC => SbcColumns(k);
    case RSB => RsbColumns(k);
    case RSC => RscColumns(k);
    case CMP => CmpColumns(k);
    case CMN => CmnColumns(k);
  }

  lemma ArithmeticMatch(op: Op, x: bv32)
    requires ArithmeticWord(op, x)
    ensures D.FullMatch(SeedRow(ArithmeticRow(op)), x)
    ensures Compares(op) ==>
      !D.FullMatch(SeedRow(CPS), x) && !D.FullMatch(SeedRow(31), x) && !D.FullMatch(SeedRow(32), x)
  {
    OpcodeKey(op, x);
    hide D.Key12;
  }

  /** Every arithmetic word selects the row of its operation. */
  lemma ArithmeticSelected(op: Op, x: bv32)
    requires ArithmeticWord(op, x)
    ensures D.Selection(Seed(), x) == Some(ArithmeticRow(op))
  {
    hide D.Priority, D.FullMatch, D.Key12, SeedRow, Columns, D.Selection, ArithmeticWord, OpcodeBits;
    OpcodeKey(op, x);
    ArithmeticColumns(op, D.Key12(x));
    ArithmeticMatch(op, x);
    Selected(x, ArithmeticRow(op));
  }

  /** An arithmetic word runs its handler exactly when its condition holds, and is else a no-op. */
  lemma ArithmeticActs(op: Op, x: bv32, cpsr: u32)
    requires ArithmeticWord(op, x)
    ensures ShippedAction(x, cpsr) == if Holds(cpsr, CondOf(x)) then D.Run(ArithmeticRow(op)) else D.Nop
  {
    hide D.Selection, ArithmeticWord;
    ArithmeticSelected(op, x);
    AlwaysHolds(cpsr);
    hide Holds;
    assert SeedRow(ArithmeticRow(op)).checkCond;
  }

  lemma ArithmeticRuns(others: nat -> Handler, op: Op, instr: u32, cpsr: u32)
    requires ShippedAction(instr as bv32, cpsr) == D.Run(ArithmeticRow(op))
    ensures RunsArithmetic(Shipped(others), op, instr, cpsr)
  {
    hide ShippedAction, Effect;
    assert OpOf(ArithmeticRow(op)) == op;
  }

  /** This word decodes to a handler that does nothing. */
  ghost predicate RunsNop(decode: Decoder, instr: u32, cpsr: u32) {
    decode(instr, cpsr).Some? && forall g: Guest, pc: u32 :: decode(instr, cpsr).value(g, pc, instr) == g
  }

  lemma NopRuns(others: nat -> Handler, instr: u32, cpsr: u32)
    requires ShippedAction(instr as bv32, cpsr) == D.Nop
    ensures RunsNop(Shipped(others), instr, cpsr)
  {
    hide ShippedAction;
  }

  lemma NopStep(decode: Decoder, v: Vm, instr: u32)
    requires Live(v) && Fetch(v.guest.ram, v.guest.cpu.r[15]) == Some(instr)
    requires RunsNop(decode, instr, v.guest.cpu.cpsr)
    ensures var w := StepOf(decode, v);
      && Live(w) && w.guest.ram == v.guest.ram
      && w.guest.cpu.r == v.guest.cpu.r[15 := Wrap(v.guest.cpu.r[15] as int + 4)]
      && w.guest.cpu.cpsr == v.guest.cpu.cpsr
      && w.guest.cpu.spsr == v.guest.cpu.spsr && w.guest.cpu.cycles == (v.guest.cpu.cycles + 1) % TWO64
  {
    hide LoadWord;
  }

  /** A step of the shipped emulator over an arithmetic word: its effect and r15 on by four when the condition holds,
      and else r15 on by four and nothing else. */
  lemma ShippedArithmetic(others: nat -> Handler, v: Vm, op: Op, instr: u32)
    requires Live(v) && Fetch(v.guest.ram, v.guest.cpu.r[15]) == Some(instr) && ArithmeticWord(op, instr as bv32)
    ensures var w := StepOf(Shipped(others), v);
      var s, next := v.guest.cpu, Wrap(v.guest.cpu.r[15] as int + 4);
      var t := if Holds(s.cpsr, CondOf(instr as bv32)) then Effect(op, s, instr) else s;
      && Live(w) && w.guest.ram == v.guest.ram
      && w.guest.cpu.r == t.r[15 := next] && w.guest.cpu.cpsr == t.cpsr && w.guest.cpu.spsr == s.spsr
      && w.guest.cpu.cycles == (s.cycles + 1) % TWO64
  {
    hide *;
    LiveSize(v);
    var decode, cpsr := Shipped(others), v.guest.cpu.cpsr;
    ArithmeticActs(op, instr as bv32, cpsr);
    if Holds(cpsr, CondOf(instr as bv32)) {
      ArithmeticRuns(others, op, instr, cpsr);
      ArithmeticStep(decode, v, op, instr);
    } else {
      NopRuns(others, instr, cpsr);
      NopStep(decode, v, instr);
    }
  }

  // ---- MOV ----

  predicate MovWord(x: bv32) {
    x & 0x0DE0_0000 == 0x01A0_0000 && x & 0x0200_0090 != 0x0000_0090 && x & 0xF000_0000 != 0xF000_0000
  }

  lemma MovWordKey(x: bv32)
    requires MovWord(x)
    ensures D.Key12(x) & 0x0DE0 == 0x01A0 && D.Key12(x) & 0x0209 != 0x0009
  {
  }

  lemma MovWordColumns(k: bv16)
    requires k & 0x0DE0 == 0x01A0 && k & 0x0209 != 0x0009
    ensures Columns(k) <= {CPS, MOV_ROW, 31, 32, 33, 34, 35, 36, 70, SEED_ROWS}
  {
  }

  lemma MovWordMatch(x: bv32)
    requires MovWord(x)
    ensures D.FullMatch(SeedRow(MOV_ROW), x)
    ensures !D.FullMatch(SeedRow(CPS), x) && !D.FullMatch(SeedRow(31), x) && !D.FullMatch(SeedRow(32), x)
  {
    MovWordKey(x);
    hide D.Key12;
  }

  /** Every MOV word outside the space of multiplies, with a condition other than NV, selects a row of the MOV handler:
      the general one, one of the four shifts by register, or the immediate one. */
  lemma MovWordSelected(x: bv32)
    requires MovWord(x)
    ensures D.Selection(Seed(), x).Some? && IsMovRow(D.Selection(Seed(), x).value)
  {
    hide D.Priority, D.FullMatch, D.Key12, SeedRow, Columns, D.Selection, D.Outranks, MovWord;
    MovWordKey(x);
    MovWordColumns(D.Key12(x));
    MovWordMatch(x);
    SeedDecodesLikeScan(x);
    D.LinearScanIsBest(Seed(), x, SEED_ROWS);
    var w := D.LinearScan(Seed(), x, SEED_ROWS);
    assert D.FullMatch(Seed()[MOV_ROW], x);
    if w.Some? { RowInColumns(w.value, x); }
  }

  lemma RowInColumns(i: nat, x: bv32)
    requires i < SEED_ROWS && D.FullMatch(SeedRow(i), x)
    ensures i in Columns(D.Key12(x))
  {
    hide D.ExactMatch, D.Key12, SeedRow, Columns, D.KeyMatch;
    MatchInColumns(i, D.Key12(x));
  }

  // ---- blocks and branches ----

  lemma LdmColumns(k: bv16)
    requires k & 0x0E10 == 0x0810
    ensures Columns(k) <= {19, 20, SEED_ROWS}
  {
  }

  lemma StmColumns(k: bv16)
    requires k & 0x0E10 == 0x0800
    ensures Columns(k) <= {18, 21, SEED_ROWS}
  {
  }

  lemma LdmKey(x: bv32)
    requires x & 0x0E10_0000 == 0x0810_0000
    ensures D.Key12(x) & 0x0E10 == 0x0810
  {
  }

  lemma LdmMatch(x: bv32)
    requires x & 0x0E10_0000 == 0x0810_0000
    ensures D.FullMatch(SeedRow(20), x)
  {
  }

  lemma PopMatch(x: bv32)
    requires x & 0x0E10_0000 == 0x0810_0000 && x & 0x0FFF_0000 == 0x08BD_0000
    ensures D.FullMatch(SeedRow(19), x)
  {
  }

  lemma NoPopMatch(x: bv32)
    requires x & 0x0E10_0000 == 0x0810_0000 && !(x & 0x0FFF_0000 == 0x08BD_0000)
    ensures !D.FullMatch(SeedRow(19), x)
  {
    hide D.KeyMatch;
  }

  lemma StmKey(x: bv32)
    requires x & 0x0E10_0000 == 0x0800_0000
    ensures D.Key12(x) & 0x0E10 == 0x0800
  {
  }

  lemma StmMatch(x: bv32)
    requires x & 0x0E10_0000 == 0x0800_0000
    ensures D.FullMatch(SeedRow(21), x)
    ensures !D.FullMatch(SeedRow(18), x)
  {
  }

  lemma Counts()
    ensures Popcnt16(0x0F10) == 5 && Popcnt32(0x0FFF_0000) == 12 && Popcnt16(0x0E10) == 4
    ensures Popcnt16(0x0E00) == 3 && Popcnt32(0xFE00_0000) == 7 && Popcnt16(0x0F00) == 4 && Popcnt32(0) == 0
    ensures Popcnt16(0x0F50) == 6 && Popcnt32(0x033F_0000) == 8 && Popcnt16(0x0FF0) == 8
    ensures Popcnt32(0x000F_0000) == 4 && Popcnt16(0x0FFF) == 12 && Popcnt32(0x0FFF_F000) == 16
  {
  }

  /** The rows with an exact test outrank the general ones. */
  lemma SpecialFirst()
    ensures D.Priority(SeedRow(19)) > D.Priority(SeedRow(20))
    ensures D.Priority(SeedRow(17)) > D.Priority(SeedRow(91)) && D.Priority(SeedRow(17)) > D.Priority(SeedRow(92))
    ensures D.Priority(SeedRow(12)) > D.Priority(SeedRow(73))
    ensures D.Priority(SeedRow(89)) > D.Priority(SeedRow(74))
    ensures D.Priority(SeedRow(90)) > D.Priority(SeedRow(78))
  {
    Counts();
    hide D.Priority, Popcnt16, Popcnt32;
    PriorityOf(SeedRow(19), 5, 12);
    PriorityOf(SeedRow(20), 4, 0);
    PriorityOf(SeedRow(17), 3, 7);
    PriorityOf(SeedRow(91), 4, 0);
    PriorityOf(SeedRow(92), 4, 0);
    PriorityOf(SeedRow(12), 6, 8);
    PriorityOf(SeedRow(73), 6, 0);
    PriorityOf(SeedRow(89), 8, 4);
    PriorityOf(SeedRow(74), 6, 0);
    PriorityOf(SeedRow(90), 12, 16);
    PriorityOf(SeedRow(78), 6, 0);
  }

  /** Every block transfer selects an LDM row when bit 20 is set, with a row of its own for LDMIA sp!, and the STM row
      when it is clear. */
  lemma BlockSelected(x: bv32)
    requires x & 0x0E00_0000 == 0x0800_0000
    ensures D.Selection(Seed(), x)
              == Some(if x & 0x0010_0000 == 0 then 21 else if x & 0x0FFF_0000 == 0x08BD_0000 then 19 else 20)
  {
    hide D.Priority, D.FullMatch, D.Key12, SeedRow, Columns, D.Selection;
    SpecialFirst();
    if x & 0x0E10_0000 == 0x0800_0000 {
      StmKey(x);
      StmColumns(D.Key12(x));
      StmMatch(x);
      Selected(x, 21);
    } else {
      assert x & 0x0E10_0000 == 0x0810_0000;
      LdmKey(x);
      LdmColumns(D.Key12(x));
      LdmMatch(x);
      if x & 0x0FFF_0000 == 0x08BD_0000 { PopMatch(x); } else { NoPopMatch(x); }
      Selected(x, if x & 0x0FFF_0000 == 0x08BD_0000 then 19 else 20);
    }
  }

  lemma BColumns(k: bv16)
    requires k & 0x0F00 == 0x0A00
    ensures Columns(k) <= {17, 91, SEED_ROWS}
  {
  }

  lemma BlColumns(k: bv16)
    requires k & 0x0F00 == 0x0B00
    ensures Columns(k) <= {17, 92, SEED_ROWS}
  {
  }

  lemma BKey(x: bv32)
    requires x & 0x0F00_0000 == 0x0A00_0000
    ensures D.Key12(x) & 0x0F00 == 0x0A00
  {
  }

  lemma BMatch(x: bv32)
    requires x & 0x0F00_0000 == 0x0A00_0000
    ensures D.FullMatch(SeedRow(91), x)
    ensures D.FullMatch(SeedRow(17), x) <==> x & 0xF000_0000 == 0xF000_0000
  {
  }

  lemma BlKey(x: bv32)
    requires x & 0x0F00_0000 == 0x0B00_0000
    ensures D.Key12(x) & 0x0F00 == 0x0B00
  {
  }

  lemma BlMatch(x: bv32)
    requires x & 0x0F00_0000 == 0x0B00_0000
    ensures D.FullMatch(SeedRow(92), x)
    ensures D.FullMatch(SeedRow(17), x) <==> x & 0xF000_0000 == 0xF000_0000
  {
  }

  /** Every branch word selects BLX with condition field 1111, and else B or BL by bit 24. */
  lemma BranchSelected(x: bv32)
    requires x & 0x0E00_0000 == 0x0A00_0000
    ensures D.Selection(Seed(), x)
              == Some(if x & 0xF000_0000 == 0xF000_0000 then 17 else if x & 0x0100_0000 == 0 then 91 else 92)
  {
    hide D.Priority, D.FullMatch, D.Key12, SeedRow, Columns, D.Selection;
    SpecialFirst();
    if x & 0x0F00_0000 == 0x0A00_0000 {
      BKey(x);
      BColumns(D.Key12(x));
      BMatch(x);
      Selected(x, if x & 0xF000_0000 == 0xF000_0000 then 17 else 91);
    } else {
      assert x & 0x0F00_0000 == 0x0B00_0000;
      BlKey(x);
      BlColumns(D.Key12(x));
      BlMatch(x);
      Selected(x, if x & 0xF000_0000 == 0xF000_0000 then 17 else 92);
    }
  }

  // ---- single words ----

  lemma LdrBeforeColumns(k: bv16)
    requires k & 0x0F50 == 0x0510
    ensures Columns(k) <= {12, 73, SEED_ROWS}
  {
  }

  lemma StrBeforeColumns(k: bv16)
    requires k & 0x0F50 == 0x0500
    ensures Columns(k) <= {74, 89, SEED_ROWS}
  {
  }

  lemma LdrAfterColumns(k: bv16)
    requires k & 0x0F50 == 0x0410
    ensures Columns(k) <= {78, 90, SEED_ROWS}
  {
  }

  lemma StrAfterColumns(k: bv16)
    requires k & 0x0F70 == 0x0400
    ensures Columns(k) <= {79, SEED_ROWS}
  {
  }

  lemma StrAfterNoColumns(k: bv16)
    requires k & 0x0F70 == 0x0420
    ensures Columns(k) <= {SEED_ROWS}
  {
  }

  lemma LdrBeforeKey(x: bv32)
    requires x & 0x0F50_0000 == 0x0510_0000
    ensures D.Key12(x) & 0x0F50 == 0x0510
  {
  }

  lemma LdrBeforeMatch(x: bv32)
    requires x & 0x0F50_0000 == 0x0510_0000
    ensures D.FullMatch(SeedRow(73), x)
    ensures D.FullMatch(SeedRow(12), x) <==> x & 0x002F_0000 == 0x000F_0000
  {
  }

  lemma StrBeforeKey(x: bv32)
    requires x & 0x0F50_0000 == 0x0500_0000
    ensures D.Key12(x) & 0x0F50 == 0x0500
  {
  }

  lemma StrBeforeMatch(x: bv32)
    requires x & 0x0F50_0000 == 0x0500_0000
    ensures D.FullMatch(SeedRow(74), x)
  {
  }

  lemma PushMatch(x: bv32)
    requires x & 0x0F50_0000 == 0x0500_0000 && x & 0x00AF_0000 == 0x002D_0000
    ensures D.FullMatch(SeedRow(89), x)
  {
  }

  lemma NoPushMatch(x: bv32)
    requires x & 0x0F50_0000 == 0x0500_0000 && !(x & 0x00AF_0000 == 0x002D_0000)
    ensures !D.FullMatch(SeedRow(89), x)
  {
  }

  lemma LdrAfterKey(x: bv32)
    requires x & 0x0F50_0000 == 0x0410_0000
    ensures D.Key12(x) & 0x0F50 == 0x0410
  {
  }

  lemma LdrAfterMatch(x: bv32)
    requires x & 0x0F50_0000 == 0x0410_0000
    ensures D.FullMatch(SeedRow(78), x)
    ensures D.FullMatch(SeedRow(90), x) <==> x & 0x0FFF_F0F0 == 0x049D_F000
  {
  }

  lemma StrAfterKey(x: bv32)
    requires x & 0x0F70_0000 == 0x0400_0000
    ensures D.Key12(x) & 0x0F70 == 0x0400
  {
  }

  lemma StrAfterMatch(x: bv32)
    requires x & 0x0F70_0000 == 0x0400_0000
    ensures D.FullMatch(SeedRow(79), x)
  {
  }

  lemma StrAfterNoKey(x: bv32)
    requires x & 0x0F70_0000 == 0x0420_0000
    ensures D.Key12(x) & 0x0F70 == 0x0420
  {
  }

  /** Pre-indexed word loads and stores with an immediate: the literal row for a load relative to r15 that does not
      write back, a row of its own for a store that pushes on r13, and else the general rows. */
  lemma BeforeSelected(x: bv32)
    requires x & 0x0F40_0000 == 0x0500_0000
    ensures D.Selection(Seed(), x)
              == Some(if x & 0x0010_0000 != 0 then (if x & 0x002F_0000 == 0x000F_0000 then 12 else 73)
                      else if x & 0x00AF_0000 == 0x002D_0000 then 89 else 74)
  {
    hide D.Priority, D.FullMatch, D.Key12, SeedRow, Columns, D.Selection;
    SpecialFirst();
    if x & 0x0F50_0000 == 0x0500_0000 {
      StrBeforeKey(x);
      StrBeforeColumns(D.Key12(x));
      StrBeforeMatch(x);
      if x & 0x00AF_0000 == 0x002D_0000 { PushMatch(x); } else { NoPushMatch(x); }
      Selected(x, if x & 0x00AF_0000 == 0x002D_0000 then 89 else 74);
    } else {
      assert x & 0x0F50_0000 == 0x0510_0000;
      LdrBeforeKey(x);
      LdrBeforeColumns(D.Key12(x));
      LdrBeforeMatch(x);
      Selected(x, if x & 0x002F_0000 == 0x000F_0000 then 12 else 73);
    }
  }

  /** Post-indexed ones: a row of its own for a load of r15 from r13 upwards with bits 7 to 4 clear, and else the
      general rows; a store with bit 21 set selects nothing. */
  lemma AfterSelected(x: bv32)
    requires x & 0x0F40_0000 == 0x0400_0000
    ensures x & 0x0030_0000 != 0x0020_0000 ==>
      D.Selection(Seed(), x) == Some(if x & 0x0010_0000 == 0 then 79 else if x & 0x0FFF_F0F0 == 0x049D_F000 then 90
                                     else 78)
    ensures x & 0x0030_0000 == 0x0020_0000 ==> D.Selection(Seed(), x) == None
  {
    hide D.Priority, D.FullMatch, D.Key12, SeedRow, Columns, D.Selection;
    SpecialFirst();
    if x & 0x0F70_0000 == 0x0400_0000 {
      StrAfterKey(x);
      StrAfterColumns(D.Key12(x));
      StrAfterMatch(x);
      Selected(x, 79);
    } else if x & 0x0F70_0000 == 0x0420_0000 {
      StrAfterNoKey(x);
      StrAfterNoColumns(D.Key12(x));
      NoneSelected(x);
    } else {
      assert x & 0x0F50_0000 == 0x0410_0000;
      LdrAfterKey(x);
      LdrAfterColumns(D.Key12(x));
      LdrAfterMatch(x);
      Selected(x, if x & 0x0FFF_F0F0 == 0x049D_F000 then 90 else 78);
    }
  }

  lemma NoneSelected(x: bv32)
    requires Columns(D.Key12(x)) <= {SEED_ROWS}
    ensures D.Selection(Seed(), x) == None
  {
    hide D.Priority, D.ExactMatch, D.Key12, SeedRow, Columns, D.Outranks, D.KeyMatch, D.Selection;
    SeedDecodesLikeScan(x);
    D.LinearScanIsBest(Seed(), x, SEED_ROWS);
    var w := D.LinearScan(Seed(), x, SEED_ROWS);
    if w.Some? { MatchInColumns(w.value, D.Key12(x)); }
  }
}
