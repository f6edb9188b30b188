/** Chains of carrying additions and subtractions compute on numbers of any length. */
module Multiword {
  import opened Words
  import opened CpuModel
  import opened Alu
  import opened Shifter

  /** The number whose 32-bit limbs are s, least significant first. */
  function Value(s: seq<u32>): nat {
    if s == [] then 0 else s[0] + TWO32 * Value(s[1..])
  }

  /** 2^(32 n). */
  function Radix(n: nat): (p: nat)
    ensures p >= 1
  {
    if n == 0 then 1 else TWO32 * Radix(n - 1)
  }

  lemma {:induction false} ValueBound(s: seq<u32>)
    ensures Value(s) < Radix(|s|)
  {
    if s == [] {
    } else {
      ValueBound(s[1..]);
    }
  }

  datatype Chained = Chained(limbs: seq<u32>, cpsr: u32)

  /** One flag-setting instruction on a pair of limbs: its result and the CPSR it leaves. */
  function Limb(op: Op, cpsr: u32, x: u32, y: u32): (u32, u32) {
    var c := Bit(cpsr, C_BIT);
    var a := Architected(op, x, y, c);
    (a.result, FlagsAfter(cpsr, a, a.overflow != VInverted(op, x, y, c)))
  }

  /** A limb step is what the instruction does to its destination and to the CPSR. */
  lemma LimbIsInstruction(op: Op, s: State, instr: u32)
    requires |s.r| == 16 && !Compares(op) && SBit(instr) && Rd(instr) != 15
    ensures var y := Operand2Reference(s.r, instr, Bit(s.cpsr, C_BIT)).value;
      var (result, cpsr) := Limb(op, s.cpsr, ReadSource(s.r, Rn(instr)), y);
      Effect(op, s, instr) == s.(r := s.r[Rd(instr) := result], cpsr := cpsr)
  {
  }

  /** `op` on every limb in turn, each taking the carry flag the one before left. */
  function Chain(op: Op, cpsr: u32, a: seq<u32>, b: seq<u32>): Chained
    requires |a| == |b|
    decreases |a|
  {
    if a == [] then Chained([], cpsr)
    else
      var (low, cpsr') := Limb(op, cpsr, a[0], b[0]);
      var rest := Chain(op, cpsr', a[1..], b[1..]);
      Chained([low] + rest.limbs, rest.cpsr)
  }

  /** ADDS on the lowest limb, ADCS on the others; or SUBS and SBCS. */
  function Whole(first: Op, next: Op, cpsr: u32, a: seq<u32>, b: seq<u32>): Chained
    requires |a| == |b| > 0
  {
    var (low, cpsr') := Limb(first, cpsr, a[0], b[0]);
    var rest := Chain(next, cpsr', a[1..], b[1..]);
    Chained([low] + rest.limbs, rest.cpsr)
  }

  lemma LimbCarry(op: Op, cpsr: u32, x: u32, y: u32)
    ensures Bit(Limb(op, cpsr, x, y).1, C_BIT) == Architected(op, x, y, Bit(cpsr, C_BIT)).carry
  {
    var c := Bit(cpsr, C_BIT);
    var a := Architected(op, x, y, c);
    hide Architected, WithNZCV;
    NZCVBits(cpsr, a.result >= SIGN, a.result == 0, a.carry, a.overflow != VInverted(op, x, y, c), C_BIT);
  }

  /** The sums behind a limb, free of flags. */
  lemma SumOf(op: Op, x: u32, y: u32, c: bool)
    ensures var a := Architected(op, x, y, c);
      && (op == ADD ==> a.result + TWO32 * Bool(a.carry) == x + y)
      && (op == ADC ==> a.result + TWO32 * Bool(a.carry) == x + y + Bool(c))
      && (op == SUB ==> a.result as int - TWO32 * (1 - Bool(a.carry)) == x as int - y)
      && (op == SBC ==> a.result as int - TWO32 * (1 - Bool(a.carry)) == x as int - y - (1 - Bool(c)))
  {
    hide Wrap, Signed;
    WrapSum(x as int + y + (if op == ADC then Bool(c) else 0));
    WrapSum(x as int + Not(y) + (if op == SBC then Bool(c) else 1));
  }

  /** One limb of addition: result plus carry out is the sum with carry in. */
  lemma AddLimb(op: Op, cpsr: u32, x: u32, y: u32)
    requires op == ADD || op == ADC
    ensures var (r, p) := Limb(op, cpsr, x, y);
      r + TWO32 * Bool(Bit(p, C_BIT)) == x + y + (if op == ADC then Bool(Bit(cpsr, C_BIT)) else 0)
  {
    hide Architected, Bit, FlagsAfter;
    LimbCarry(op, cpsr, x, y);
    SumOf(op, x, y, Bit(cpsr, C_BIT));
  }

  /** One limb of subtraction: a clear carry is a borrow. */
  lemma SubLimb(op: Op, cpsr: u32, x: u32, y: u32)
    requires op == SUB || op == SBC
    ensures var (r, p) := Limb(op, cpsr, x, y);
      r as int - TWO32 * (1 - Bool(Bit(p, C_BIT)))
        == x as int - y - (if op == SBC then 1 - Bool(Bit(cpsr, C_BIT)) else 0)
  {
    hide Architected, Bit, FlagsAfter;
    LimbCarry(op, cpsr, x, y);
    SumOf(op, x, y, Bit(cpsr, C_BIT));
  }

  /** The lowest limb and the rest of a run. */
  lemma WholeParts(first: Op, next: Op, cpsr: u32, a: seq<u32>, b: seq<u32>)
    requires |a| == |b| > 0
    ensures var (low, cpsr') := Limb(first, cpsr, a[0], b[0]);
      var rest, s := Chain(next, cpsr', a[1..], b[1..]), Whole(first, next, cpsr, a, b);
      && s.cpsr == rest.cpsr && |s.limbs| == 1 + |rest.limbs| && Value(s.limbs) == low + TWO32 * Value(rest.limbs)
      && (first == next ==> s == Chain(next, cpsr, a, b))
    ensures Value(a) == a[0] + TWO32 * Value(a[1..]) && Value(b) == b[0] + TWO32 * Value(b[1..])
    ensures Radix(|a|) == TWO32 * Radix(|a| - 1)
  {
    hide Limb;
    var rest := Chain(next, Limb(first, cpsr, a[0], b[0]).1, a[1..], b[1..]);
    assert Whole(first, next, cpsr, a, b).limbs[1..] == rest.limbs;
  }

  /** One column of an addition: a carry out of the low limb is a carry into the rest. */
  lemma AddColumn(low: nat, x: nat, y: nat, carryIn: nat, carry: bool, s: nat, a: nat, b: nat, radix: nat, whole: nat,
      carryOut: bool)
    requires whole == TWO32 * radix && low + TWO32 * Bool(carry) == x + y + carryIn
    requires s + radix * Bool(carryOut) == a + b + Bool(carry)
    ensures (low + TWO32 * s) + whole * Bool(carryOut) == (x + TWO32 * a) + (y + TWO32 * b) + carryIn
  {
    if carryOut {
      assert radix * Bool(carryOut) == radix && whole * Bool(carryOut) == whole;
    }
  }

  lemma SubColumn(low: int, x: nat, y: nat, borrowIn: nat, carry: bool, s: int, a: nat, b: nat, radix: nat, whole: nat,
      carryOut: bool)
    requires whole == TWO32 * radix && low - TWO32 * (1 - Bool(carry)) == x - y - borrowIn
    requires s - radix * (1 - Bool(carryOut)) == a - b - (1 - Bool(carry))
    ensures (low + TWO32 * s) - whole * (1 - Bool(carryOut)) == (x + TWO32 * a) - (y + TWO32 * b) - borrowIn
  {
    if !carryOut {
      assert radix * (1 - Bool(carryOut)) == radix && whole * (1 - Bool(carryOut)) == whole;
    }
  }

  lemma {:induction false} AddChain(cpsr: u32, a: seq<u32>, b: seq<u32>)
    requires |a| == |b|
    ensures var s := Chain(ADC, cpsr, a, b);
      && |s.limbs| == |a|
      && Value(s.limbs) + Radix(|a|) * Bool(Bit(s.cpsr, C_BIT)) == Value(a) + Value(b) + Bool(Bit(cpsr, C_BIT))
    decreases |a|
  {
    if a == [] {
    } else {
      hide Limb, Bit, Value, Radix, Whole, Chain, Bool;
      WholeParts(ADC, ADC, cpsr, a, b);
      AddRun(ADC, cpsr, a, b);
    }
  }

  /** A limb of addition and then a chain of carrying ones. */
  lemma {:induction false} AddRun(first: Op, cpsr: u32, a: seq<u32>, b: seq<u32>)
    requires |a| == |b| > 0 && (first == ADD || first == ADC)
    ensures var s := Whole(first, ADC, cpsr, a, b);
      && |s.limbs| == |a|
      && Value(s.limbs) + Radix(|a|) * Bool(Bit(s.cpsr, C_BIT))
           == Value(a) + Value(b) + (if first == ADC then Bool(Bit(cpsr, C_BIT)) else 0)
    decreases |a|, 0
  {
    hide Limb, Bit, Value, Radix, Whole, Chain, Bool;
    var (low, cpsr') := Limb(first, cpsr, a[0], b[0]);
    var rest := Chain(ADC, cpsr', a[1..], b[1..]);
    WholeParts(first, ADC, cpsr, a, b);
    AddLimb(first, cpsr, a[0], b[0]);
    AddChain(cpsr', a[1..], b[1..]);
    AddColumn(low, a[0], b[0], if first == ADC then Bool(Bit(cpsr, C_BIT)) else 0, Bit(cpsr', C_BIT),
              Value(rest.limbs), Value(a[1..]), Value(b[1..]), Radix(|a| - 1), Radix(|a|),
              Bit(rest.cpsr, C_BIT));
  }

  lemma {:induction false} SubChain(cpsr: u32, a: seq<u32>, b: seq<u32>)
    requires |a| == |b|
    ensures var s := Chain(SBC, cpsr, a, b);
      && |s.limbs| == |a|
      && Value(s.limbs) as int - Radix(|a|) * (1 - Bool(Bit(s.cpsr, C_BIT)))
         == Value(a) as int - Value(b) - (1 - Bool(Bit(cpsr, C_BIT)))
    decreases |a|
  {
    hide Limb, Bit, Whole;
    if a == [] {
    } else {
      hide Value, Radix, Chain, Bool;
      WholeParts(SBC, SBC, cpsr, a, b);
      SubRun(SBC, cpsr, a, b);
    }
  }

  /** A limb of subtraction and then a chain of borrowing ones. */
  lemma {:induction false} SubRun(first: Op, cpsr: u32, a: seq<u32>, b: seq<u32>)
    requires |a| == |b| > 0 && (first == SUB || first == SBC)
    ensures var s := Whole(first, SBC, cpsr, a, b);
      && |s.limbs| == |a|
      && Value(s.limbs) as int - Radix(|a|) * (1 - Bool(Bit(s.cpsr, C_BIT)))
         == Value(a) as int - Value(b) - (if first == SBC then 1 - Bool(Bit(cpsr, C_BIT)) else 0)
    decreases |a|, 0
  {
    hide Limb, Bit, Value, Radix, Whole, Chain, Bool;
    var (low, cpsr') := Limb(first, cpsr, a[0], b[0]);
    var rest := Chain(SBC, cpsr', a[1..], b[1..]);
    WholeParts(first, SBC, cpsr, a, b);
    BoolBound(Bit(cpsr, C_BIT));
    SubLimb(first, cpsr, a[0], b[0]);
    SubChain(cpsr', a[1..], b[1..]);
    SubColumn(low, a[0], b[0], if first == SBC then 1 - Bool(Bit(cpsr, C_BIT)) else 0, Bit(cpsr', C_BIT),
              Value(rest.limbs), Value(a[1..]), Value(b[1..]), Radix(|a| - 1), Radix(|a|),
              Bit(rest.cpsr, C_BIT));
  }

  lemma BoolBound(b: bool)
    ensures Bool(b) == if b then 1 else 0
  {
  }

  /** ADDS then ADCS: the limbs hold A + B modulo 2^(32n) and the carry flag holds the rest. */
  lemma MultiwordAdd(cpsr: u32, a: seq<u32>, b: seq<u32>)
    requires |a| == |b| > 0
    ensures var s := Whole(ADD, ADC, cpsr, a, b);
      && |s.limbs| == |a|
      && Value(s.limbs) + Radix(|a|) * Bool(Bit(s.cpsr, C_BIT)) == Value(a) + Value(b)
      && Value(s.limbs) < Radix(|a|)
  {
    hide Limb, Bit, Value, Radix, Whole, Chain, Bool;
    AddRun(ADD, cpsr, a, b);
    ValueBound(Whole(ADD, ADC, cpsr, a, b).limbs);
  }

  /** SUBS then SBCS: the limbs hold A - B modulo 2^(32n) and the carry flag says A >= B. */
  lemma MultiwordSub(cpsr: u32, a: seq<u32>, b: seq<u32>)
    requires |a| == |b| > 0
    ensures var s := Whole(SUB, SBC, cpsr, a, b);
      && |s.limbs| == |a|
      && Value(s.limbs) < Radix(|a|)
      && (Bit(s.cpsr, C_BIT) <==> Value(a) >= Value(b))
      && Value(s.limbs) as int == Value(a) as int - Value(b) + (if Value(a) >= Value(b) then 0 else Radix(|a|))
  {
    hide Limb, Bit, Value, Radix, Whole, Chain, Bool;
    var s := Whole(SUB, SBC, cpsr, a, b);
    SubRun(SUB, cpsr, a, b);
    ValueBound(s.limbs);
    ValueBound(a);
    ValueBound(b);
    BoolBound(Bit(s.cpsr, C_BIT));
  }

  // ---- the same in registers ----

  function Rm(instr: u32): nat { Reg(instr, 0) }

  /** Sets flags and computes on two registers as they are; r15 takes no part. */
  predicate PlainForm(instr: u32) {
    && SBit(instr) && !Bit(instr, 25) && !Bit(instr, 4) && ShiftType(instr) == LSL && Field(instr, 7, 5) == 0
    && Rd(instr) != 15 && Rn(instr) != 15 && Rm(instr) != 15
  }

  /** No instruction writes a register that a later one reads or writes. */
  predicate Straight(instrs: seq<u32>) {
    && (forall i :: 0 <= i < |instrs| ==> PlainForm(instrs[i]))
    && (forall i, j :: 0 <= i < j < |instrs| ==>
          Rd(instrs[i]) != Rn(instrs[j]) && Rd(instrs[i]) != Rm(instrs[j]) && Rd(instrs[i]) != Rd(instrs[j]))
  }

  function Firsts(instrs: seq<u32>, r: seq<u32>): seq<u32>
    requires |r| == 16
  {
    seq<u32>(|instrs|, i requires 0 <= i < |instrs| => r[Rn(instrs[i])])
  }

  function Seconds(instrs: seq<u32>, r: seq<u32>): seq<u32>
    requires |r| == 16
  {
    seq<u32>(|instrs|, i requires 0 <= i < |instrs| => r[Rm(instrs[i])])
  }

  function Results(instrs: seq<u32>, r: seq<u32>): seq<u32>
    requires |r| == 16
  {
    seq<u32>(|instrs|, i requires 0 <= i < |instrs| => r[Rd(instrs[i])])
  }

  /** The instructions in turn, all of kind op. */
  function Execute(op: Op, instrs: seq<u32>, s: State): (t: State)
    requires |s.r| == 16
    ensures |t.r| == 16
    decreases |instrs|
  {
    if instrs == [] then s else Execute(op, instrs[1..], Effect(op, s, instrs[0]))
  }

  /** One instruction of the run. */
  lemma PlainStep(op: Op, s: State, instr: u32)
    requires |s.r| == 16 && !Compares(op) && PlainForm(instr)
    ensures var (result, cpsr) := Limb(op, s.cpsr, s.r[Rn(instr)], s.r[Rm(instr)]);
      Effect(op, s, instr) == s.(r := s.r[Rd(instr) := result], cpsr := cpsr)
  {
    hide Bit, Limb, Reg, Field, ShiftType;
    LimbIsInstruction(op, s, instr);
  }

  /** What the first instruction writes, the others neither read nor write. */
  lemma RestUndisturbed(instrs: seq<u32>, r: seq<u32>, v: u32)
    requires instrs != [] && |r| == 16 && Straight(instrs)
    ensures Straight(instrs[1..])
    ensures Firsts(instrs[1..], r[Rd(instrs[0]) := v]) == Firsts(instrs, r)[1..]
    ensures Seconds(instrs[1..], r[Rd(instrs[0]) := v]) == Seconds(instrs, r)[1..]
    ensures forall j :: 0 <= j < |instrs[1..]| ==> Rd(instrs[1..][j]) != Rd(instrs[0])
  {
    hide Reg, PlainForm;
  }

  /** A run over registers is the chain over limbs: results, CPSR, and no other register. */
  lemma {:induction false} RunIsChain(op: Op, instrs: seq<u32>, s: State)
    requires |s.r| == 16 && !Compares(op) && Straight(instrs)
    ensures var t, c := Execute(op, instrs, s), Chain(op, s.cpsr, Firsts(instrs, s.r), Seconds(instrs, s.r));
      && t.cpsr == c.cpsr && Results(instrs, t.r) == c.limbs
      && forall n :: 0 <= n < 16 && (forall i :: 0 <= i < |instrs| ==> Rd(instrs[i]) != n) ==> t.r[n] == s.r[n]
    decreases |instrs|
  {
    hide Reg, Limb, Effect, PlainForm, Straight;
    if instrs == [] {
    } else {
      RunStep(op, instrs, s);
      RunIsChain(op, instrs[1..], Effect(op, s, instrs[0]));
      var t := Execute(op, instrs, s);
      assert Results(instrs, t.r) == [t.r[Rd(instrs[0])]] + Results(instrs[1..], t.r);
      assert forall i :: 0 <= i < |instrs[1..]| ==> instrs[1..][i] == instrs[i + 1];
    }
  }

  lemma RunStep(op: Op, instrs: seq<u32>, s: State)
    requires |s.r| == 16 && !Compares(op) && Straight(instrs) && instrs != []
    ensures var s1, rest := Effect(op, s, instrs[0]), instrs[1..];
      var (result, cpsr) := Limb(op, s.cpsr, Firsts(instrs, s.r)[0], Seconds(instrs, s.r)[0]);
      && s1.r == s.r[Rd(instrs[0]) := result] && s1.cpsr == cpsr
      && Straight(rest)
      && Firsts(rest, s1.r) == Firsts(instrs, s.r)[1..] && Seconds(rest, s1.r) == Seconds(instrs, s.r)[1..]
      && forall j :: 0 <= j < |rest| ==> Rd(rest[j]) != Rd(instrs[0])
  {
    hide Reg, Limb, Effect, PlainForm;
    PlainStep(op, s, instrs[0]);
    var (result, cpsr) := Limb(op, s.cpsr, Firsts(instrs, s.r)[0], Seconds(instrs, s.r)[0]);
    RestUndisturbed(instrs, s.r, result);
  }

  /** One instruction of kind `first`, the others of kind `next`. */
  function ExecuteWhole(first: Op, next: Op, instrs: seq<u32>, s: State): (t: State)
    requires |s.r| == 16 && instrs != []
    ensures |t.r| == 16
  {
    Execute(next, instrs[1..], Effect(first, s, instrs[0]))
  }

  lemma RunIsWhole(first: Op, next: Op, instrs: seq<u32>, s: State)
    requires |s.r| == 16 && !Compares(first) && !Compares(next) && Straight(instrs) && instrs != []
    ensures var t := ExecuteWhole(first, next, instrs, s);
      var c := Whole(first, next, s.cpsr, Firsts(instrs, s.r), Seconds(instrs, s.r));
      t.cpsr == c.cpsr && Results(instrs, t.r) == c.limbs
  {
    hide Reg, Limb, Effect, PlainForm, Straight;
    RunStep(first, instrs, s);
    RunIsChain(next, instrs[1..], Effect(first, s, instrs[0]));
    var t := ExecuteWhole(first, next, instrs, s);
    assert Results(instrs, t.r) == [t.r[Rd(instrs[0])]] + Results(instrs[1..], t.r);
  }

  /** ADDS and then ADCS on registers: the destinations hold the sum and the carry flag the rest. */
  lemma RegistersAdd(instrs: seq<u32>, s: State)
    requires |s.r| == 16 && Straight(instrs) && instrs != []
    ensures var t := ExecuteWhole(ADD, ADC, instrs, s);
      Value(Results(instrs, t.r)) + Radix(|instrs|) * Bool(Bit(t.cpsr, C_BIT))
        == Value(Firsts(instrs, s.r)) + Value(Seconds(instrs, s.r))
  {
    hide Limb, Bit, Straight, Results, ExecuteWhole, Value, Radix, Whole;
    RunIsWhole(ADD, ADC, instrs, s);
    MultiwordAdd(s.cpsr, Firsts(instrs, s.r), Seconds(instrs, s.r));
  }

  /** SUBS and then SBCS on registers: the destinations hold the difference and the carry flag says there is no
      borrow. */
  lemma RegistersSub(instrs: seq<u32>, s: State)
    requires |s.r| == 16 && Straight(instrs) && instrs != []
    ensures var t := ExecuteWhole(SUB, SBC, instrs, s);
      var a, b := Value(Firsts(instrs, s.r)), Value(Seconds(instrs, s.r));
      && (Bit(t.cpsr, C_BIT) <==> a >= b)
      && Value(Results(instrs, t.r)) as int == a as int - b + (if a >= b then 0 else Radix(|instrs|))
  {
    hide Limb, Bit, Straight, Results, ExecuteWhole, Value, Radix, Whole;
    RunIsWhole(SUB, SBC, instrs, s);
    MultiwordSub(s.cpsr, Firsts(instrs, s.r), Seconds(instrs, s.r));
  }
}
