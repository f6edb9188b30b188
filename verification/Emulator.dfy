/** The shipped decoder table in the step machine: which words are SVC, BKPT and MOVS pc, lr, and what follows. */
module Emulator {
  import opened Words
  import opened Alu
  import opened CpuModel
  import opened Conditions
  import opened Machine
  import opened Memory
  import Shifter
  import D = DecoderSpec
  import opened Options
  import opened Popcount
  import opened SeedTable

  // ---- which rows the three instructions select ----

  const BKPT_ROW := 13
  const MOV_ROW := 30
  const TEQ_ROW := 52
  const SVC_ROW := 97

  lemma SvcColumns(k: bv16)
    requires k & 0x0F00 == 0x0F00
    ensures Columns(k) <= {SVC_ROW, SEED_ROWS}
  {
  }

  lemma BkptColumns()
    ensures Columns(0x0127) <= {BKPT_ROW, CPS, TEQ_ROW, SEED_ROWS}
  {
  }

  lemma MovColumns()
    ensures Columns(0x01B0) <= {CPS, MOV_ROW, 33, 34, 35, 36, SEED_ROWS}
  {
  }

  lemma SvcKey(x: bv32)
    requires x & 0x0F00_0000 == 0x0F00_0000
    ensures D.Key12(x) & 0x0F00 == 0x0F00
    ensures D.FullMatch(SeedRow(SVC_ROW), x)
  {
  }

  predicate BkptBits(x: bv32) { x & 0x0FF0_00F0 == 0x0120_0070 }

  lemma BkptKey(x: bv32)
    requires BkptBits(x)
    ensures D.Key12(x) == 0x0127
    ensures D.FullMatch(SeedRow(BKPT_ROW), x)
  {
  }

  lemma PriorityOf(row: D.Row, n: bv8, m: bv8)
    requires Popcnt16(row.mask12) == n && Popcnt32(row.xmask32) == m && n <= 16 && m <= 32
    ensures D.Priority(row) == n as nat + m as nat
  {
    hide Popcnt16, Popcnt32;
    AtMost(n, 16);
    AtMost(m, 32);
    D.ByteSum(n, m);
  }

  lemma AtMost(n: bv8, limit: bv8)
    requires n <= limit
    ensures n as nat <= limit as nat
  {
  }

  lemma BkptPriority()
    ensures D.Priority(SeedRow(BKPT_ROW)) > D.Priority(SeedRow(CPS))
    ensures D.Priority(SeedRow(BKPT_ROW)) > D.Priority(SeedRow(TEQ_ROW))
  {
    BkptCounts();
    hide D.Priority, Popcnt16, Popcnt32;
    PriorityOf(SeedRow(BKPT_ROW), 12, 12);
    PriorityOf(SeedRow(CPS), 4, 12);
    PriorityOf(SeedRow(TEQ_ROW), 6, 0);
  }

  lemma BkptCounts()
    ensures Popcnt16(0x0FFF) == 12 && Popcnt32(0x0FF0_00F0) == 12
    ensures Popcnt16(0x0F00) == 4 && Popcnt32(0xFF00_F000) == 12
    ensures Popcnt16(0x0DE0) == 6 && Popcnt32(0) == 0
  {
  }

  lemma MovKey()
    ensures D.Key12(0xE1B0_F00E) == 0x01B0
    ensures D.FullMatch(SeedRow(MOV_ROW), 0xE1B0_F00E) && !D.FullMatch(SeedRow(CPS), 0xE1B0_F00E)
    ensures forall i :: 33 <= i <= 36 ==> !D.FullMatch(SeedRow(i), 0xE1B0_F00E)
  {
  }

  /** Row i is the only row that matches x and is not beaten by priority, so it is the one decoded. */
  lemma Selected(x: bv32, i: nat)
    requires i < SEED_ROWS && D.FullMatch(SeedRow(i), x)
    requires forall j :: 0 <= j < SEED_ROWS && j in Columns(D.Key12(x)) && D.FullMatch(SeedRow(j), x) && j != i ==>
               D.Priority(SeedRow(i)) > D.Priority(SeedRow(j))
    ensures D.Selection(Seed(), x) == Some(i)
  {
    hide D.Priority, D.KeyMatch, D.ExactMatch, D.Key12, SeedRow, Columns, D.Selection, D.Outranks;
    SeedDecodesLikeScan(x);
    D.LinearScanIsBest(Seed(), x, SEED_ROWS);
    var w := D.LinearScan(Seed(), x, SEED_ROWS);
    assert D.FullMatch(Seed()[i], x);
    if w.Some? && w.value != i {
      MatchInColumns(w.value, D.Key12(x));
      Beats(i, w.value);
    }
  }

  lemma Beats(i: nat, j: nat)
    requires i < SEED_ROWS && j < SEED_ROWS && D.Priority(SeedRow(i)) > D.Priority(SeedRow(j))
    ensures !D.Outranks(Seed(), j, i)
  {
    hide D.Priority, SeedRow;
  }

  /** Every word with bits 27 to 24 set selects the SVC row. */
  lemma SvcSelected(x: bv32)
    requires x & 0x0F00_0000 == 0x0F00_0000
    ensures D.Selection(Seed(), x) == Some(SVC_ROW)
  {
    hide D.Priority, D.FullMatch, D.Key12, SeedRow, Columns, D.Selection;
    SvcKey(x);
    SvcColumns(D.Key12(x));
    Selected(x, SVC_ROW);
  }

  /** Every BKPT word, whatever its condition field and number, selects the BKPT row. */
  lemma BkptSelected(x: bv32)
    requires BkptBits(x)
    ensures D.Selection(Seed(), x) == Some(BKPT_ROW)
  {
    hide D.Priority, D.FullMatch, D.Key12, SeedRow, Columns, D.Selection;
    BkptKey(x);
    BkptColumns();
    BkptPriority();
    Selected(x, BKPT_ROW);
  }

  /** MOVS pc, lr selects the MOV row. */
  lemma MovSelected()
    ensures D.Selection(Seed(), 0xE1B0_F00E) == Some(MOV_ROW)
  {
    hide D.Priority, D.FullMatch, D.Key12, SeedRow, Columns, D.Selection;
    MovKey();
    MovColumns();
    Selected(0xE1B0_F00E, MOV_ROW);
  }

  // ---- the shipped table as the machine's decoder ----

  /** The rows of handle_mov: MOV, the four shifts by register, and MOV with an immediate. */
  predicate IsMovRow(row: nat) { row == MOV_ROW || 33 <= row <= 36 || row == 70 }

  /** The row of each arithmetic handler. */
  function ArithmeticRow(op: Op): nat {
    match op
    case CMP => 53
    case CMN => 54
    case SUB => 55
    case RSB => 56
    case ADD => 57
    case ADC => 58
    case SBC => 59
    case RSC => 60
  }

  predicate IsArithmeticRow(row: nat) { 53 <= row <= 60 }

  function OpOf(row: nat): (op: Op)
    requires IsArithmeticRow(row)
    ensures ArithmeticRow(op) == row
  {
    if row == 53 then CMP else if row == 54 then CMN else if row == 55 then SUB else if row == 56 then RSB
    else if row == 57 then ADD else if row == 58 then ADC else if row == 59 then SBC else RSC
  }

  /** The handlers of the SVC, BKPT, MOV and arithmetic rows; any others for the rest. */
  function HandlerOf(row: nat, others: nat -> Handler): Handler {
    if row == SVC_ROW then (g: Guest, pc: u32, instr: u32) => if |g.cpu.r| == 16 then g.(cpu := Svc(g.cpu)) else g
    else if row == BKPT_ROW then (g: Guest, pc: u32, instr: u32) => g.(cpu := Bkpt(g.cpu, pc))
    else if IsMovRow(row) then
      (g: Guest, pc: u32, instr: u32) => if |g.cpu.r| == 16 then g.(cpu := Mov(g.cpu, instr)) else g
    else if IsArithmeticRow(row) then
      (g: Guest, pc: u32, instr: u32) => if |g.cpu.r| == 16 then g.(cpu := Effect(OpOf(row), g.cpu, instr)) else g
    else others(row)
  }

  /** What the decoder does with a word under a CPSR. */
  function ShippedAction(x: bv32, cpsr: u32): D.Action {
    D.ActionOf(Seed(), x, (c: bv4) => Holds(cpsr, c as nat), D.Selection(Seed(), x))
  }

  function Decoded(others: nat -> Handler, instr: u32, cpsr: u32): Option<Handler> {
    match ShippedAction(instr as bv32, cpsr)
    case Run(row) => Some(HandlerOf(row, others))
    case Nop => Some((g: Guest, pc: u32, word: u32) => g)
    case Unknown => None
  }

  function Shipped(others: nat -> Handler): Decoder { (instr: u32, cpsr: u32) => Decoded(others, instr, cpsr) }

  /** Keeps sixteen registers and never clears the halt latch. */
  ghost predicate SaneHandler(h: Handler) {
    forall g: Guest, pc: u32, instr: u32 :: |g.cpu.r| == 16 ==>
      var t := h(g, pc, instr); |t.cpu.r| == 16 && (g.cpu.halted ==> t.cpu.halted)
  }

  ghost predicate SaneOthers(others: nat -> Handler) { forall row: nat :: SaneHandler(others(row)) }

  lemma HandlerSane(row: nat, others: nat -> Handler)
    requires SaneOthers(others)
    ensures SaneHandler(HandlerOf(row, others))
  {
    hide Holds, SvcCpsr, Operand2, Operand2Reference, Architected, FlagsAfter, VInverted, Field, SBit, SetBit;
    assert SaneHandler(others(row));
    var h := HandlerOf(row, others);
    forall g: Guest, pc: u32, instr: u32 | |g.cpu.r| == 16
      ensures var t := h(g, pc, instr); |t.cpu.r| == 16 && (g.cpu.halted ==> t.cpu.halted)
    {
      if row == SVC_ROW {
        assert h(g, pc, instr) == g.(cpu := Svc(g.cpu));
      } else if row == BKPT_ROW {
        assert h(g, pc, instr) == g.(cpu := Bkpt(g.cpu, pc));
      } else if IsMovRow(row) {
        assert h(g, pc, instr) == g.(cpu := Mov(g.cpu, instr));
      } else if IsArithmeticRow(row) {
        assert h(g, pc, instr) == g.(cpu := Effect(OpOf(row), g.cpu, instr));
      }
    }
  }

  lemma ShippedSane(others: nat -> Handler)
    requires SaneOthers(others)
    ensures Sane(Shipped(others))
  {
    hide ShippedAction, HandlerOf, SaneOthers;
    var decode := Shipped(others);
    forall instr: u32, cpsr: u32, g: Guest, pc: u32 | |g.cpu.r| == 16 && decode(instr, cpsr).Some?
      ensures var t := decode(instr, cpsr).value(g, pc, instr); |t.cpu.r| == 16 && (g.cpu.halted ==> t.cpu.halted)
    {
      var action := ShippedAction(instr as bv32, cpsr);
      if action.Run? { HandlerSane(action.row, others); }
    }
  }

  // ---- what the three instructions do in the shipped emulator ----

  function CondOf(x: bv32): nat { ((x >> 28) & 0xF) as bv4 as nat }

  predicate HasSvcBits(instr: u32) { instr as bv32 & 0x0F00_0000 == 0x0F00_0000 }

  /** An SVC word whose condition holds. */
  predicate IsSvc(instr: u32, cpsr: u32) { HasSvcBits(instr) && Holds(cpsr, CondOf(instr as bv32)) }

  predicate IsBkpt(instr: u32) { BkptBits(instr as bv32) }

  /** An SVC word runs handle_svc exactly when its condition holds, and is else a no-op. */
  lemma SvcActs(instr: u32, cpsr: u32)
    requires HasSvcBits(instr)
    ensures ShippedAction(instr as bv32, cpsr) == if IsSvc(instr, cpsr) then D.Run(SVC_ROW) else D.Nop
  {
    hide D.Selection;
    SvcSelected(instr as bv32);
    AlwaysHolds(cpsr);
    hide Holds;
    assert SeedRow(SVC_ROW).checkCond;
  }

  lemma SvcRuns(others: nat -> Handler, instr: u32, cpsr: u32)
    requires IsSvc(instr, cpsr)
    ensures RunsSvc(Shipped(others), instr, cpsr)
  {
    hide ShippedAction, Holds, Svc;
    SvcActs(instr, cpsr);
  }

  lemma ReturnRuns(others: nat -> Handler, cpsr: u32)
    ensures RunsReturn(Shipped(others), MOVS_PC_LR, cpsr)
  {
    hide D.Selection, Holds, Mov;
    MovSelected();
    assert ((0xE1B0_F00E as bv32 >> 28) & 0xF) as bv4 == D.COND_AL;
  }

  lemma BkptRuns(others: nat -> Handler, instr: u32)
    requires IsBkpt(instr)
    ensures RunsBkpt(Shipped(others), instr)
  {
    hide D.Selection, Holds;
    BkptSelected(instr as bv32);
    assert !SeedRow(BKPT_ROW).checkCond;
  }

  /** With the shipped table and any sane handlers for the other rows (see ShippedSane): an SVC whose condition holds, a
      run that ends live at MOVS pc, lr with r14 and SPSR as the SVC left them, then that return, restores CPSR and
      resumes after the SVC iff its address is even. */
  lemma SvcReturns(others: nat -> Handler, v: Vm, svc: u32, n: nat)
    requires Sane(Shipped(others)) && Live(v)
    requires Fetch(v.guest.ram, v.guest.cpu.r[15]) == Some(svc) && IsSvc(svc, v.guest.cpu.cpsr)
    requires var entry := StepOf(Shipped(others), v);
      |entry.guest.cpu.r| == 16 &&
      var exit := Iterate(Shipped(others), entry, n);
      && Live(exit) && exit.guest.cpu.r[14] == entry.guest.cpu.r[14] && exit.guest.cpu.spsr == entry.guest.cpu.spsr
      && Fetch(exit.guest.ram, exit.guest.cpu.r[15]) == Some(MOVS_PC_LR)
    ensures var back := StepOf(Shipped(others), Iterate(Shipped(others), StepOf(Shipped(others), v), n));
      && Live(back) && back.guest.cpu.cpsr == v.guest.cpu.cpsr
      && (back.guest.cpu.r[15] == Wrap(v.guest.cpu.r[15] as int + 4) <==> v.guest.cpu.r[15] % 2 == 0)
  {
    hide *;
    LiveSize(v);
    var exit := Iterate(Shipped(others), StepOf(Shipped(others), v), n);
    SvcRuns(others, svc, v.guest.cpu.cpsr);
    ReturnRuns(others, exit.guest.cpu.cpsr);
    SvcRoundTrip(Shipped(others), v, svc, n);
  }

  /** With the shipped table, no interleaving of clearing the halt and stepping gets past a BKPT or changes
      the guest. */
  lemma BkptHolds(others: nat -> Handler, v: Vm, actions: seq<Action>, instr: u32)
    requires SaneOthers(others) && |v.guest.cpu.r| == 16
    requires Fetch(v.guest.ram, v.guest.cpu.r[15]) == Some(instr) && IsBkpt(instr)
    ensures Sane(Shipped(others)) && SameGuest(v, Acts(Shipped(others), v, actions))
  {
    hide *;
    ShippedSane(others);
    BkptRuns(others, instr);
    BkptSticks(Shipped(others), v, actions, instr);
  }

  /** The same, from a condition on each step: no step of the handler halts or changes r14 or SPSR. */
  lemma SvcHandlerReturns(others: nat -> Handler, v: Vm, svc: u32, n: nat)
    requires Sane(Shipped(others)) && Live(v)
    requires Fetch(v.guest.ram, v.guest.cpu.r[15]) == Some(svc) && IsSvc(svc, v.guest.cpu.cpsr)
    requires var entry := StepOf(Shipped(others), v);
      |entry.guest.cpu.r| == 16 && Undisturbed(Shipped(others), entry, n) &&
      var exit := Iterate(Shipped(others), entry, n);
      |exit.guest.cpu.r| == 16 && Fetch(exit.guest.ram, exit.guest.cpu.r[15]) == Some(MOVS_PC_LR)
    ensures var back := StepOf(Shipped(others), Iterate(Shipped(others), StepOf(Shipped(others), v), n));
      && Live(back) && back.guest.cpu.cpsr == v.guest.cpu.cpsr
      && (back.guest.cpu.r[15] == Wrap(v.guest.cpu.r[15] as int + 4) <==> v.guest.cpu.r[15] % 2 == 0)
  {
    hide *;
    LiveSize(v);
    SvcRuns(others, svc, v.guest.cpu.cpsr);
    SvcStep(Shipped(others), v, svc);
    UndisturbedKeeps(Shipped(others), StepOf(Shipped(others), v), n);
    SvcReturns(others, v, svc, n);
  }

  /** The shortest such run: MOVS pc, lr at the vector itself. Two steps from the SVC the machine is back. */
  lemma SvcThenReturn(others: nat -> Handler, v: Vm, svc: u32)
    requires SaneOthers(others) && Live(v)
    requires Fetch(v.guest.ram, v.guest.cpu.r[15]) == Some(svc) && IsSvc(svc, v.guest.cpu.cpsr)
    requires Fetch(v.guest.ram, 8) == Some(MOVS_PC_LR) && v.guest.cpu.r[15] % 2 == 0
    ensures Sane(Shipped(others))
    ensures var back := Iterate(Shipped(others), v, 2);
      && Live(back) && back.guest.cpu.cpsr == v.guest.cpu.cpsr
      && back.guest.cpu.r[15] == Wrap(v.guest.cpu.r[15] as int + 4)
  {
    hide *;
    LiveSize(v);
    ShippedSane(others);
    var decode := Shipped(others);
    SvcRuns(others, svc, v.guest.cpu.cpsr);
    SvcStep(decode, v, svc);
    var entry := StepOf(decode, v);
    LiveSize(entry);
    IterateTwice(decode, v, entry);
    SvcReturns(others, v, svc, 0);
  }

  lemma IterateTwice(decode: Decoder, v: Vm, entry: Vm)
    requires Sane(decode) && |v.guest.cpu.r| == 16 && entry == StepOf(decode, v) && |entry.guest.cpu.r| == 16
    ensures Iterate(decode, entry, 0) == entry
    ensures Iterate(decode, v, 2) == StepOf(decode, entry)
  {
    hide StepOf, Sane;
    StepSane(decode, entry);
    assert Iterate(decode, entry, 1) == Iterate(decode, StepOf(decode, entry), 0);
  }

  // ---- words no row matches, and the halt latch ----

  lemma UndecodedColumns()
    ensures Columns(0x0E00) <= {SEED_ROWS}
  {
  }

  /** A coprocessor data operation, which no row matches. */
  lemma CdpUndecoded()
    ensures D.LinearScan(Seed(), 0xEE00_0000, SEED_ROWS) == None
  {
    assert D.Key12(0xEE00_0000) == 0x0E00;
    UndecodedColumns();
    hide D.Priority, D.ExactMatch, D.Key12, SeedRow, Columns, D.Outranks, D.KeyMatch;
    D.LinearScanIsBest(Seed(), 0xEE00_0000, SEED_ROWS);
    var w := D.LinearScan(Seed(), 0xEE00_0000, SEED_ROWS);
    if w.Some? { MatchInColumns(w.value, 0x0E00); }
  }

  /** A word has a handler exactly when some row of the table matches it. */
  lemma DecodedIff(others: nat -> Handler, instr: u32, cpsr: u32)
    ensures Shipped(others)(instr, cpsr).Some? <==> D.LinearScan(Seed(), instr as bv32, SEED_ROWS) != None
  {
    hide D.Selection, D.LinearScan, Seed, Holds, HandlerOf;
    SeedDecodesLikeScan(instr as bv32);
  }

  /** With the shipped table, a latched CPU stepped after a clear keeps r15 iff some row matches the word and its
      handler leaves r15 alone; a word no row matches moves r15 on by four. Either way the machine halts again. */
  lemma LatchedStep(others: nat -> Handler, v: Vm, instr: u32)
    requires Sane(Shipped(others)) && |v.guest.cpu.r| == 16 && v.guest.cpu.halted && !v.halted
    requires Fetch(v.guest.ram, v.guest.cpu.r[15]) == Some(instr)
    ensures var w := StepOf(Shipped(others), v);
      var matched := D.LinearScan(Seed(), instr as bv32, SEED_ROWS) != None;
      && w.halted && w.guest.cpu.halted && |w.guest.cpu.r| == 16
      && (w.guest.cpu.r[15] == v.guest.cpu.r[15] <==> matched && StaysPut(Shipped(others), v.guest, instr))
      && (!matched ==> w.guest.cpu.r[15] == Wrap(v.guest.cpu.r[15] as int + 4))
  {
    hide StepOf, Sane, Fetch, Shipped, D.LinearScan;
    DecodedIff(others, instr, v.guest.cpu.cpsr);
    LatchedAct(Shipped(others), v, StepAction);
  }

  /** So a latched CPU does move past a coprocessor data operation. */
  lemma LatchedSkipsCdp(others: nat -> Handler, v: Vm, instr: u32)
    requires Sane(Shipped(others)) && |v.guest.cpu.r| == 16 && v.guest.cpu.halted && !v.halted
    requires Fetch(v.guest.ram, v.guest.cpu.r[15]) == Some(instr) && instr as bv32 == 0xEE00_0000
    ensures var w := StepOf(Shipped(others), v);
      w.halted && |w.guest.cpu.r| == 16 && w.guest.cpu.r[15] == Wrap(v.guest.cpu.r[15] as int + 4)
  {
    hide StepOf, Sane, Fetch, Shipped, D.LinearScan, Seed;
    CdpUndecoded();
    LatchedStep(others, v, instr);
  }

  // ---- CPS ----

  /** The rows that run whatever the condition field says. */
  lemma UnconditionalRows(i: nat)
    requires i < SEED_ROWS && !SeedRow(i).checkCond
    ensures i in {9, 10, 11, BKPT_ROW, 17, 95, 96, 99, 100, 101}
  {
    hide SeedRow;
    if i < 50 {
      UnconditionalBelow50(i);
    } else if i < 90 {
      UnconditionalBelow90(i);
    } else {
      UnconditionalFrom90(i);
    }
  }

  lemma UnconditionalBelow50(i: nat)
    requires i < 50 && !SeedRow(i).checkCond
    ensures i in {9, 10, 11, BKPT_ROW, 17}
  {
    hide Rows50, Rows60, Rows70, Rows80, Rows90, Rows100;
  }

  lemma UnconditionalBelow90(i: nat)
    requires 50 <= i < 90
    ensures SeedRow(i).checkCond
  {
    hide Rows0, Rows10, Rows20, Rows30, Rows40, Rows50, Rows60, Rows70, Rows80, Rows90, Rows100;
    if i < 60 {
      Rows50Conditional(i);
    } else if i < 70 {
      Rows60Conditional(i);
    } else if i < 80 {
      Rows70Conditional(i);
    } else {
      Rows80Conditional(i);
    }
  }

  lemma Rows50Conditional(i: nat)
    requires 50 <= i < 60
    ensures Rows50(i).checkCond
  {
  }

  lemma Rows60Conditional(i: nat)
    requires 60 <= i < 70
    ensures Rows60(i).checkCond
  {
  }

  lemma Rows70Conditional(i: nat)
    requires 70 <= i < 80
    ensures Rows70(i).checkCond
  {
  }

  lemma Rows80Conditional(i: nat)
    requires 80 <= i < 90
    ensures Rows80(i).checkCond
  {
  }

  lemma UnconditionalFrom90(i: nat)
    requires 90 <= i < SEED_ROWS && !SeedRow(i).checkCond
    ensures i in {95, 96, 99, 100, 101}
  {
    hide Rows0, Rows10, Rows20, Rows30, Rows40, Rows50, Rows60, Rows70, Rows80;
  }

  predicate CpsBits(x: bv32) { x & 0xFF00_F000 == 0xF100_0000 }

  lemma OnlyBkptUnconditional(i: nat, x: bv32)
    requires i in {9, 10, 11, BKPT_ROW, 17, 95, 96, 99, 100, 101} && D.FullMatch(SeedRow(i), x) && CpsBits(x)
    ensures i == BKPT_ROW && BkptBits(x)
  {
  }

  /** The condition field of a CPS word is NV. */
  lemma CpsWord(x: bv32)
    requires D.FullMatch(SeedRow(CPS), x)
    ensures CpsBits(x) && CondOf(x) == NV
  {
    assert ((x >> 28) & 0xF) as bv4 == 15;
  }

  /** The CPS handler never runs. A word that matches the CPS row is a no-op, unless it is also a BKPT word: then it
      is a breakpoint. */
  lemma CpsNeverRuns(x: bv32, cpsr: u32)
    ensures ShippedAction(x, cpsr) != D.Run(CPS)
    ensures D.FullMatch(SeedRow(CPS), x) ==>
      && (ShippedAction(x, cpsr) == D.Nop <==> !BkptBits(x))
      && (BkptBits(x) ==> ShippedAction(x, cpsr) == D.Run(BKPT_ROW))
  {
    hide D.Priority, D.FullMatch, SeedRow, D.Selection, D.Outranks;
    SeedDecodesLikeScan(x);
    D.LinearScanIsBest(Seed(), x, SEED_ROWS);
    NeverHolds(cpsr);
    hide Holds;
    CpsAction(x, cpsr, D.Selection(Seed(), x));
  }

  lemma NeverHolds(cpsr: u32)
    ensures !Holds(cpsr, NV)
  {
    hide Bit;
  }

  /** What the decoder makes of a selected row. */
  lemma RowAction(x: bv32, cpsr: u32, i: nat)
    requires D.Selection(Seed(), x) == Some(i) && i < SEED_ROWS
    ensures ShippedAction(x, cpsr) == D.Run(i) || ShippedAction(x, cpsr) == D.Nop
    ensures !SeedRow(i).checkCond ==> ShippedAction(x, cpsr) == D.Run(i)
    ensures SeedRow(i).checkCond && CondOf(x) == NV && !Holds(cpsr, NV) ==> ShippedAction(x, cpsr) == D.Nop
  {
    hide D.Selection, SeedRow, Holds;
  }

  lemma CpsChecks()
    ensures SeedRow(CPS).checkCond && !SeedRow(BKPT_ROW).checkCond
  {
  }

  lemma CpsAction(x: bv32, cpsr: u32, sel: Option<nat>)
    requires sel == D.Selection(Seed(), x) && !Holds(cpsr, NV)
    requires sel == None ==> !D.FullMatch(SeedRow(CPS), x) && ShippedAction(x, cpsr) == D.Unknown
    requires sel.Some? ==> sel.value < SEED_ROWS && D.FullMatch(SeedRow(sel.value), x)
    ensures ShippedAction(x, cpsr) != D.Run(CPS)
    ensures D.FullMatch(SeedRow(CPS), x) ==>
      && (ShippedAction(x, cpsr) == D.Nop <==> !BkptBits(x))
      && (BkptBits(x) ==> ShippedAction(x, cpsr) == D.Run(BKPT_ROW))
  {
    CpsChecks();
    hide D.FullMatch, SeedRow, D.Selection, Holds, ShippedAction, Seed, BkptBits, CpsBits, CondOf;
    if sel.Some? { RowAction(x, cpsr, sel.value); }
    if sel.Some? && (D.FullMatch(SeedRow(CPS), x) || sel.value == CPS) {
      CpsWord(x);
      if BkptBits(x) {
        BkptSelected(x);
      } else if !SeedRow(sel.value).checkCond {
        UnconditionalRows(sel.value);
        OnlyBkptUnconditional(sel.value, x);
      }
    }
  }

  // ---- arithmetic instructions and r15 ----

  /** This word decodes to the handler of an arithmetic instruction. */
  ghost predicate RunsArithmetic(decode: Decoder, op: Op, instr: u32, cpsr: u32) {
    && decode(instr, cpsr).Some?
    && forall g: Guest, pc: u32 :: |g.cpu.r| == 16 ==>
         decode(instr, cpsr).value(g, pc, instr) == g.(cpu := Effect(op, g.cpu, instr))
  }

  /** The whole step: the instruction's effect, and r15 on to the next instruction. With r15 as destination that is all
      that happens. */
  lemma ArithmeticStep(decode: Decoder, v: Vm, op: Op, instr: u32)
    requires Live(v) && Fetch(v.guest.ram, v.guest.cpu.r[15]) == Some(instr)
    requires RunsArithmetic(decode, op, instr, v.guest.cpu.cpsr)
    ensures var w := StepOf(decode, v);
      var s, next := v.guest.cpu, Wrap(v.guest.cpu.r[15] as int + 4);
      && Live(w) && w.guest.ram == v.guest.ram
      && w.guest.cpu.r == Effect(op, s, instr).r[15 := next] && w.guest.cpu.cpsr == Effect(op, s, instr).cpsr
      && w.guest.cpu.spsr == s.spsr && w.guest.cpu.cycles == (s.cycles + 1) % TWO64
      && (Rd(instr) == 15 && !Compares(op) ==> w.guest.cpu.r == s.r[15 := next] && w.guest.cpu.cpsr == s.cpsr)
  {
    hide LoadWord, Operand2Reference, ReadSource, Architected, FlagsAfter, VInverted, SBit;
  }

  /** ADCS r2, r0, r1. */
  const ADCS_R2_R0_R1: u32 := 0xE0B0_2001

  lemma AdcsNumbers()
    ensures ADCS_R2_R0_R1 / 0x1_0000 % 16 == 0 && ADCS_R2_R0_R1 / 0x1000 % 16 == 2 && ADCS_R2_R0_R1 % 16 == 1
    ensures ADCS_R2_R0_R1 / 0x20 % 4 == 0 && ADCS_R2_R0_R1 / 0x80 % 32 == 0
  {
    assert 0xE0B0_2001 / 0x1_0000 == 0xE0B0 && 0xE0B0_2001 / 0x1000 == 0xE_0B02;
    assert 0xE0B0_2001 / 0x20 == 0x705_8100 && 0xE0B0_2001 / 0x80 == 0x1C1_6040;
  }

  lemma AdcsBitNumbers()
    ensures ADCS_R2_R0_R1 / 0x10_0000 % 2 == 1 && ADCS_R2_R0_R1 / 0x200_0000 % 2 == 0 && ADCS_R2_R0_R1 / 16 % 2 == 0
  {
    assert 0xE0B0_2001 / 0x10_0000 == 0xE0B && 0xE0B0_2001 / 0x200_0000 == 0x70 && 0xE0B0_2001 / 16 == 0xE0B_0200;
  }

  lemma AdcsFields()
    ensures Rn(ADCS_R2_R0_R1) == 0 && Rd(ADCS_R2_R0_R1) == 2 && SBit(ADCS_R2_R0_R1)
    ensures !Bit(ADCS_R2_R0_R1, 25) && !Bit(ADCS_R2_R0_R1, 4) && Reg(ADCS_R2_R0_R1, 0) == 1
    ensures ShiftType(ADCS_R2_R0_R1) == Shifter.LSL && Field(ADCS_R2_R0_R1, 7, 5) == 0
  {
    hide Bit, Field, Pow2, ADCS_R2_R0_R1;
    AdcsNumbers();
    AdcsBitNumbers();
    Fields(ADCS_R2_R0_R1);
    InstructionBits(ADCS_R2_R0_R1);
  }

  /** 0 + 0x7FFFFFFF with carry in overflows, and ADCS leaves V clear. */
  lemma AdcsMissesOverflow(s: State)
    requires |s.r| == 16 && s.r[0] == 0 && s.r[1] == 0x7FFF_FFFF && Bit(s.cpsr, C_BIT)
    ensures AddWithCarry(0, 0x7FFF_FFFF, true).overflow && !Bit(Effect(ADC, s, ADCS_R2_R0_R1).cpsr, V_BIT)
  {
    hide Bit, Field, Reg, ShiftType;
    AdcsFields();
    FlagsMeetArchitecture(ADC, s, ADCS_R2_R0_R1);
  }
}
