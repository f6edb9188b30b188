/** STM and LDM undo each other, and well-nested frames leave the stack and the saved registers as they were. */
module StackDiscipline {
  import opened Words
  import opened CpuModel
  import opened Memory
  import opened BlockTransfer

  // ---- what STM writes ----

  /** STM writes exactly its range, ascending registers at ascending words. */
  lemma {:induction false} StoreListWrites(m: seq<byte>, a: nat, r: seq<u32>, list: seq<nat>)
    requires (list == [] || a + 4 * |list| <= |m|) && forall n :: 0 <= n < |list| ==> list[n] < |r|
    ensures var m' := StoreList(m, a, r, list);
      && (forall i :: 0 <= i < |m| && !(a <= i < a + 4 * |list|) ==> m'[i] == m[i])
      && (forall j :: 0 <= j < |list| ==> LoadWord(m', a + 4 * j) == r[list[j]])
    decreases |list|
  {
    if list == [] {
    } else {
      var m1 := StoreWord(m, a, r[list[0]]);
      var m' := StoreList(m, a, r, list);
      StoreListWrites(m1, a + 4, r, list[1..]);
      LoadStore(m, a, r[list[0]], a);
      forall j | 0 <= j < |list|
        ensures LoadWord(m', a + 4 * j) == r[list[j]]
      {
        if j == 0 { assert LoadWord(m', a) == LoadWord(m1, a); }
        else { assert LoadWord(m', (a + 4) + 4 * (j - 1)) == r[list[1..][j - 1]]; }
      }
    }
  }

  /** Memory m holds the listed registers of r from a on. */
  predicate Holds(m: seq<byte>, a: nat, r: seq<u32>, list: seq<nat>) {
    && (list == [] || a + 4 * |list| <= |m|)
    && (forall n :: 0 <= n < |list| ==> list[n] < |r|)
    && (forall j :: 0 <= j < |list| ==> LoadWord(m, a + 4 * j) == r[list[j]])
  }

  /** Loading a list from memory that holds it restores exactly the listed registers. */
  lemma {:induction false} LoadRestores(m: seq<byte>, a: nat, r: seq<u32>, list: seq<nat>, r1: seq<u32>)
    requires Holds(m, a, r, list) && |r1| == |r|
    ensures var r2 := LoadList(m, a, r1, list);
      forall i :: 0 <= i < |r| ==> r2[i] == if i in list && i != 15 then r[i] else r1[i]
    decreases |list|
  {
    hide LoadWord;
    if list == [] {
    } else {
      assert LoadWord(m, a + 4 * 0) == r[list[0]];
      forall j | 0 <= j < |list[1..]|
        ensures LoadWord(m, (a + 4) + 4 * j) == r[list[1..][j]]
      {
        assert LoadWord(m, a + 4 * (j + 1)) == r[list[j + 1]];
      }
      LoadRestores(m, a + 4, r, list[1..], if list[0] == 15 then r1 else r1[list[0] := LoadWord(m, a)]);
      assert list == [list[0]] + list[1..];
    }
  }

  // ---- one STM then one LDM ----

  /** Both write back through the same base, transfer the same list and go opposite ways. */
  predicate Opposed(stm: u32, ldm: u32) {
    && Rn(stm) == Rn(ldm) && Listed(stm) == Listed(ldm)
    && WriteBackBit(stm) && WriteBackBit(ldm)
    && UpBit(ldm) != UpBit(stm) && BeforeBit(ldm) != BeforeBit(stm)
  }

  lemma OpposedAddresses(up: bool, before: bool, b: u32, n: nat)
    requires n <= 16
    ensures Lowest(!up, !before, NewBase(up, b, n), n) == Lowest(up, before, b, n)
    ensures NewBase(!up, NewBase(up, b, n), n) == b
  {
    hide Wrap;
    var x := if up then b as int + 4 * n else b as int - 4 * n;
    var back := if up then -4 * n else 4 * n;
    WrapPlus(x, back);
    WrapPlus(x, back + 4);
    WrapPlus(x, 0);
    WrapPlus(x, 4);
    WrapSmall(b);
  }

  lemma {:induction false} ListSize(mask: u32, i: nat)
    requires i <= 16
    ensures |ListFrom(mask, i)| <= 16 - i
    decreases 16 - i
  {
    hide Bit;
    if i == 16 {
    } else {
      ListSize(mask, i + 1);
    }
  }

  /** In all four addressing modes, for any register list: STM then the opposite LDM restores every register and,
      when r15 is listed, aims the next PC at the stored r15. */
  lemma StmLdmIdentity(s: Store, stm: u32, ldm: u32, w: Windows, npc: u32)
    requires InRam(s, stm, w) && Opposed(stm, ldm)
    ensures var t := Stm(s, stm, w);
      && InRam(t, ldm, w)
      && Ldm(t, ldm, w).r == s.r
      && (Listed(stm) != [] ==>
            LoadedNpc(t.ram, FirstAddress(t, ldm), npc, Listed(ldm))
                == if 15 in Listed(stm) then AlignWord(s.r[15]) else npc)
  {
    hide Bit, ListFrom, Lowest, NewBase, PlainRange, StoreList, LoadList, LoadWord, Reg;
    var list, a, rn := Listed(stm), FirstAddress(s, stm), Rn(stm);
    var t := Stm(s, stm, w);
    ListSize(stm, 0);
    OpposedAddresses(UpBit(stm), BeforeBit(stm), Base(s, stm), |list|);
    StoreListWrites(s.ram, a, s.r, list);
    LoadRestores(t.ram, a, s.r, list, t.r);
    if list != [] { LastWord(t.ram, a, s.r, stm, npc); }
  }

  /** The last word of a saved list is r15's when r15 is listed. */
  lemma LastWord(m: seq<byte>, a: nat, r: seq<u32>, instr: u32, npc: u32)
    requires |r| == 16 && Listed(instr) != [] && Holds(m, a, r, Listed(instr))
    ensures LoadedNpc(m, a, npc, Listed(instr)) == if 15 in Listed(instr) then AlignWord(r[15]) else npc
  {
    hide Bit, ListFrom, LoadWord;
    FifteenIsLast(instr, 0);
    var list := Listed(instr);
    assert LoadWord(m, a + 4 * (|list| - 1)) == r[list[|list| - 1]];
  }

  lemma {:induction false} FifteenIsLast(mask: u32, i: nat)
    requires i <= 16
    ensures var s := ListFrom(mask, i); 15 in s <==> s != [] && s[|s| - 1] == 15
    decreases 16 - i
  {
    hide Bit, ListFrom;
    ListStep(mask, i);
    if i == 16 {
    } else {
      FifteenIsLast(mask, i + 1);
      if Bit(mask, i) {
        assert ListFrom(mask, i) == [i] + ListFrom(mask, i + 1);
        if i == 15 { ListStep(mask, 16); }
      }
    }
  }

  // ---- nested frames ----

  /** A program over one stack register: arbitrary work, sequence, and a frame that saves, runs its body and
      restores. */
  datatype Code =
    | Work(f: Store -> Store)
    | Then(first: Code, second: Code)
    | Frame(push: u32, body: Code, pop: u32)

  /** PUSH-like: decrement before, write back. */
  predicate IsPush(instr: u32, sp: nat) { !UpBit(instr) && BeforeBit(instr) && WriteBackBit(instr) && Rn(instr) == sp }

  /** POP-like: increment after, write back. */
  predicate IsPop(instr: u32, sp: nat) { UpBit(instr) && !BeforeBit(instr) && WriteBackBit(instr) && Rn(instr) == sp }

  /** Running code; a transfer that would leave RAM stops the run. */
  function Run(code: Code, s: Store, w: Windows): Store {
    match code
    case Work(f) => f(s)
    case Then(first, second) => Run(second, Run(first, s, w), w)
    case Frame(push, body, pop) =>
      if !InRam(s, push, w) then s
      else
        var t := Run(body, Stm(s, push, w), w);
        if !InRam(t, pop, w) then t else Ldm(t, pop, w)
  }

  /** Code is well behaved from s: its work leaves the stack register and every live byte (from the stack register up
      to `top`) alone and writes only scratch bytes; its frames pair up, fit in RAM, and save neither sp nor r15. */
  ghost predicate WellBehaved(code: Code, s: Store, sp: nat, top: nat, scratch: set<nat>, w: Windows)
    requires sp < 16 && |s.r| == 16
  {
    match code
    case Work(f) =>
      var t := f(s);
      && |t.r| == 16 && t.r[sp] == s.r[sp] && |t.ram| == |s.ram|
      && (forall i :: s.r[sp] <= i < top && i < |s.ram| ==> t.ram[i] == s.ram[i])
      && (forall i :: 0 <= i < |s.ram| && i !in scratch ==> t.ram[i] == s.ram[i])
    case Then(first, second) =>
      && WellBehaved(first, s, sp, top, scratch, w)
      && |Run(first, s, w).r| == 16
      && WellBehaved(second, Run(first, s, w), sp, top, scratch, w)
    case Frame(push, body, pop) =>
      && IsPush(push, sp) && IsPop(pop, sp)
      && Listed(push) == Listed(pop) && sp !in Listed(push) && 15 !in Listed(push)
      && InRam(s, push, w) && 4 * |Listed(push)| <= s.r[sp]
      && WellBehaved(body, Stm(s, push, w), sp, top, scratch, w)
  }

  /** The lowest stack address the code reaches. */
  function LowWater(code: Code, s: Store, sp: nat, w: Windows): int
    requires sp < 16
  {
    match code
    case Work(f) => if |s.r| == 16 then s.r[sp] else 0
    case Then(first, second) =>
      var a, b := LowWater(first, s, sp, w), LowWater(second, Run(first, s, w), sp, w);
      if a < b then a else b
    case Frame(push, body, pop) => if InRam(s, push, w) then LowWater(body, Stm(s, push, w), sp, w) else 0
  }

  /** What every well-behaved piece of code guarantees. */
  ghost predicate Keeps(code: Code, s: Store, sp: nat, top: nat, scratch: set<nat>, w: Windows)
    requires sp < 16 && |s.r| == 16
  {
    var t := Run(code, s, w);
    && |t.r| == 16 && |t.ram| == |s.ram| && t.r[sp] == s.r[sp]
    && LowWater(code, s, sp, w) <= s.r[sp]
    && (forall i :: s.r[sp] <= i < top && i < |s.ram| ==> t.ram[i] == s.ram[i])
    && (forall i :: 0 <= i < |s.ram| && i !in scratch && !(LowWater(code, s, sp, w) <= i < s.r[sp]) ==>
        t.ram[i] == s.ram[i])
    && (code.Frame? ==> forall n :: n in Listed(code.push) ==> t.r[n] == s.r[n])
  }

  lemma PushEffect(s: Store, push: u32, sp: nat, w: Windows)
    requires InRam(s, push, w) && IsPush(push, sp) && sp < 16 && sp !in Listed(push)
    requires 4 * |Listed(push)| <= s.r[sp]
    ensures var t := Stm(s, push, w);
      var a := s.r[sp] - 4 * |Listed(push)|;
      && |t.r| == 16 && |t.ram| == |s.ram|
      && t.r[sp] == a
      && (forall n :: 0 <= n < 16 && n != sp ==> t.r[n] == s.r[n])
      && Holds(t.ram, a, s.r, Listed(push))
      && (forall i :: 0 <= i < |s.ram| && !(a <= i < s.r[sp]) ==> t.ram[i] == s.ram[i])
  {
    hide Bit, ListFrom, PlainRange, StoreList, LoadWord, Reg, Wrap;
    WrapSmall(s.r[sp] - 4 * |Listed(push)|);
    StoreListWrites(s.ram, s.r[sp] - 4 * |Listed(push)|, s.r, Listed(push));
  }

  lemma PopEffect(t: Store, pop: u32, sp: nat, w: Windows, s: Store)
    requires sp < 16 && |t.r| == 16 && |s.r| == 16 && IsPop(pop, sp) && sp !in Listed(pop) && 15 !in Listed(pop)
    requires PlainRange(t.r[sp], |Listed(pop)|, |t.ram|, w.uart, w.disk)
    requires Holds(t.ram, t.r[sp], s.r, Listed(pop)) && t.r[sp] + 4 * |Listed(pop)| == s.r[sp]
    ensures InRam(t, pop, w)
    ensures var u := Ldm(t, pop, w);
      && u.ram == t.ram && |u.r| == 16
      && u.r[sp] == s.r[sp]
      && (forall n :: n in Listed(pop) ==> u.r[n] == s.r[n])
      && (forall n :: 0 <= n < 16 && n != sp && n !in Listed(pop) ==> u.r[n] == t.r[n])
  {
    hide Bit, ListFrom, PlainRange, LoadList, LoadWord, Reg, Wrap;
    WrapSmall(t.r[sp]);
    WrapSmall(s.r[sp]);
    PlainFits(t.r[sp], |Listed(pop)|, |t.ram|, w.uart, w.disk);
    LoadRestores(t.ram, t.r[sp], s.r, Listed(pop), t.r);
  }

  /** A held list stays held while its bytes do not change. */
  lemma HoldsFrame(m: seq<byte>, m': seq<byte>, a: nat, r: seq<u32>, list: seq<nat>)
    requires Holds(m, a, r, list) && |m'| == |m|
    requires forall i :: a <= i < a + 4 * |list| && i < |m| ==> m'[i] == m[i]
    ensures Holds(m', a, r, list)
  {
    forall j | 0 <= j < |list|
      ensures LoadWord(m', a + 4 * j) == r[list[j]]
    {
      assert LoadWord(m, a + 4 * j) == r[list[j]];
    }
  }

  /** Stack discipline: any nesting of well-behaved frames restores the stack register and every saved register,
      leaves every live byte as it was, and changes nothing outside scratch and the stack extent it reached. */
  lemma {:induction false} StackKept(code: Code, s: Store, sp: nat, top: nat, scratch: set<nat>, w: Windows)
    requires sp < 16 && |s.r| == 16 && s.r[sp] <= top && WellBehaved(code, s, sp, top, scratch, w)
    ensures Keeps(code, s, sp, top, scratch, w)
    decreases code
  {
    match code
    case Work(f) =>
    case Then(first, second) =>
      StackKept(first, s, sp, top, scratch, w);
      StackKept(second, Run(first, s, w), sp, top, scratch, w);
    case Frame(push, body, pop) =>
      FrameKept(code, s, sp, top, scratch, w);
  }

  lemma {:induction false} FrameKept(code: Code, s: Store, sp: nat, top: nat, scratch: set<nat>, w: Windows)
    requires code.Frame? && sp < 16 && |s.r| == 16 && s.r[sp] <= top && WellBehaved(code, s, sp, top, scratch, w)
    ensures Keeps(code, s, sp, top, scratch, w)
    decreases code, 0
  {
    hide Bit, ListFrom, PlainRange, InRam, Stm, Ldm, Holds, Reg;
    var Frame(push, body, pop) := code;
    var pushed := Stm(s, push, w);
    PushEffect(s, push, sp, w);
    StackKept(body, pushed, sp, top, scratch, w);
    var t := Run(body, pushed, w);
    HoldsFrame(pushed.ram, t.ram, t.r[sp], s.r, Listed(push));
    PlainOfPush(s, push, sp, w);
    PopEffect(t, pop, sp, w, s);
  }

  lemma PlainOfPush(s: Store, push: u32, sp: nat, w: Windows)
    requires InRam(s, push, w) && IsPush(push, sp) && sp < 16 && 4 * |Listed(push)| <= s.r[sp]
    ensures PlainRange(s.r[sp] - 4 * |Listed(push)|, |Listed(push)|, |s.ram|, w.uart, w.disk)
  {
    hide Bit, ListFrom, PlainRange, Reg, Wrap;
    WrapSmall(s.r[sp] - 4 * |Listed(push)|);
  }

  // ---- recursion of any depth ----

  /** n words from a on are plain RAM when they end below the first device window. */
  lemma {:induction false} PlainBelowDevices(a: nat, n: nat, ramSize: nat, uart: bool, disk: bool)
    requires a + 4 * n <= ramSize && a + 4 * n <= UART0_BASE
    ensures PlainRange(a, n, ramSize, uart, disk)
    decreases n
  {
    if n == 0 {
    } else {
      PlainBelowDevices(a + 4, n - 1, ramSize, uart, disk);
    }
  }

  /** A procedure that saves its registers and calls itself n times over. */
  function Recurse(n: nat, push: u32, pop: u32): Code {
    if n == 0 then Work((s: Store) => s) else Frame(push, Recurse(n - 1, push, pop), pop)
  }

  /** With room for n frames below the stack register, recursion n deep is well behaved, and reaches exactly
      n frames. */
  lemma {:induction false} RecursionFits(n: nat, push: u32, pop: u32, s: Store, sp: nat, top: nat, scratch: set<nat>,
      w: Windows)
    requires sp < 16 && |s.r| == 16 && s.r[sp] <= |s.ram| && s.r[sp] <= UART0_BASE
    requires IsPush(push, sp) && IsPop(pop, sp) && Listed(push) == Listed(pop)
    requires sp !in Listed(push) && 15 !in Listed(push)
    requires n * (4 * |Listed(push)|) <= s.r[sp]
    ensures WellBehaved(Recurse(n, push, pop), s, sp, top, scratch, w)
    ensures LowWater(Recurse(n, push, pop), s, sp, w) == s.r[sp] - n * (4 * |Listed(push)|)
    decreases n
  {
    hide IsPush, IsPop, Listed, InRam, Stm, Holds, Ldm, Run, Bit, Reg, ListFrom, PlainRange, Wrap;
    if n == 0 {
    } else {
      NextFrame(n, |Listed(push)|);
      FrameRoom(s, push, sp, w);
      PushEffect(s, push, sp, w);
      RecursionFits(n - 1, push, pop, Stm(s, push, w), sp, top, scratch, w);
    }
  }

  lemma NextFrame(n: nat, regs: nat)
    requires n > 0
    ensures n * (4 * regs) == (n - 1) * (4 * regs) + 4 * regs
    ensures (n - 1) * (4 * regs) >= 0
  {
  }

  lemma FrameRoom(s: Store, push: u32, sp: nat, w: Windows)
    requires sp < 16 && |s.r| == 16 && IsPush(push, sp) && s.r[sp] <= |s.ram| && s.r[sp] <= UART0_BASE
    requires 4 * |Listed(push)| <= s.r[sp]
    ensures InRam(s, push, w)
  {
    hide Bit, ListFrom, PlainRange, Reg, Wrap;
    WrapSmall(s.r[sp] - 4 * |Listed(push)|);
    PlainBelowDevices(s.r[sp] - 4 * |Listed(push)|, |Listed(push)|, |s.ram|, w.uart, w.disk);
  }
}
