/** The Operand2 barrel shifter, against a shifter that moves one bit at a time. */
module Shifter {
  import opened Words

  datatype Shift = LSL | LSR | ASR | ROR

  datatype Out = Out(value: u32, carry: bool)

  // ---- reference: one-bit steps ----

  function Step(t: Shift, o: Out): Out {
    match t
    case LSL => Out(Wrap(2 * o.value), o.value >= SIGN)
    case LSR => Out(o.value / 2, o.value % 2 == 1)
    case ASR => Out(o.value / 2 + (if o.value >= SIGN then SIGN else 0), o.value % 2 == 1)
    case ROR => Out(o.value / 2 + (if o.value % 2 == 1 then SIGN else 0), o.value % 2 == 1)
  }

  function Steps(t: Shift, o: Out, n: nat): Out
    decreases n
  {
    if n == 0 then o else Steps(t, Step(t, o), n - 1)
  }

  /** Rotate right by one through the carry. */
  function RotateThroughCarry(o: Out): Out {
    Out(o.value / 2 + (if o.carry then SIGN else 0), o.value % 2 == 1)
  }

  // ---- the bits after n steps ----

  function Min(a: int, b: int): int { if a < b then a else b }

  /** Bit k of x after n steps of kind t. */
  predicate BitAfter(t: Shift, x: u32, n: nat, k: nat)
    requires k < 32
  {
    match t
    case LSL => k >= n && Bit(x, k - n)
    case LSR => Bit(x, k + n)
    case ASR => Bit(x, Min(k + n, 31))
    case ROR => Bit(x, (k + n) % 32)
  }

  /** The bit that left the word last in n >= 1 steps. */
  predicate CarryAfter(t: Shift, x: u32, n: nat)
    requires n >= 1
  {
    match t
    case LSL => n <= 32 && Bit(x, 32 - n)
    case LSR => Bit(x, n - 1)
    case ASR => Bit(x, Min(n - 1, 31))
    case ROR => Bit(x, (n - 1) % 32)
  }

  lemma PlusSignBit(h: nat, b: bool, k: nat)
    requires h < SIGN && k < 32
    ensures Bit(h + (if b then SIGN else 0), k) == if k == 31 then b else Bit(h, k)
  {
    Pow32();
    HighBit(h, b, 31, k);
  }

  lemma StepBit(t: Shift, o: Out, k: nat)
    requires k < 32
    ensures Bit(Step(t, o).value, k) == BitAfter(t, o.value, 1, k)
    ensures Step(t, o).carry == CarryAfter(t, o.value, 1)
  {
    var x := o.value;
    TopBit(x);
    assert Bit(x, 0) == (x % 2 == 1) && Bit(x / 2, k) == Bit(x, k + 1);
    HighBitsClear(x, 32);
    match t
    case LSL => WrapBit(2 * x, k); assert k > 0 ==> Bit(2 * x, k) == Bit(x, k - 1);
    case LSR =>
    case ASR => PlusSignBit(x / 2, x >= SIGN, k);
    case ROR => PlusSignBit(x / 2, x % 2 == 1, k);
  }

  lemma NextIndex(i: nat)
    ensures (i % 32 + 1) % 32 == (i + 1) % 32
  {
  }

  lemma BitAfterStep(t: Shift, o: Out, n: nat, k: nat)
    requires k < 32 && n >= 1
    ensures BitAfter(t, Step(t, o).value, n - 1, k) == BitAfter(t, o.value, n, k)
  {
    hide Step;
    match t
    case LSL => if k >= n - 1 { StepBit(t, o, k - (n - 1)); }
    case LSR =>
      if k + n - 1 < 32 { StepBit(t, o, k + n - 1); }
      else { HighBitsClear(o.value, k + n); HighBitsClear(Step(t, o).value, k + n - 1); }
    case ASR => StepBit(t, o, Min(k + n - 1, 31));
    case ROR => StepBit(t, o, (k + n - 1) % 32); NextIndex(k + n - 1);
  }

  lemma {:induction false} StepsBit(t: Shift, o: Out, n: nat, k: nat)
    requires k < 32
    ensures Bit(Steps(t, o, n).value, k) == BitAfter(t, o.value, n, k)
    decreases n
  {
    if n == 0 {
    } else {
      hide Step;
      StepsBit(t, Step(t, o), n - 1, k);
      BitAfterStep(t, o, n, k);
    }
  }

  lemma {:induction false} StepsCarry(t: Shift, o: Out, n: nat)
    requires n >= 1
    ensures Steps(t, o, n).carry == CarryAfter(t, o.value, n)
    decreases n
  {
    if n == 1 {
      StepBit(t, o, 0);
      assert Steps(t, o, 1) == Step(t, o);
    } else {
      hide Step;
      StepsCarry(t, Step(t, o), n - 1);
      match t
      case LSL => if n <= 33 { StepBit(t, o, 33 - n); }
      case LSR =>
        if n - 2 < 32 { StepBit(t, o, n - 2); }
        else { HighBitsClear(o.value, n - 1); HighBitsClear(Step(t, o).value, n - 2); }
      case ASR => StepBit(t, o, Min(n - 2, 31));
      case ROR => StepBit(t, o, (n - 2) % 32); NextIndex(n - 2);
    }
  }

  /** A word and carry with the right bits is the result of n >= 1 steps. */
  lemma IsSteps(t: Shift, o: Out, n: nat, r: Out)
    requires n >= 1
    requires forall k :: 0 <= k < 32 ==> Bit(r.value, k) == BitAfter(t, o.value, n, k)
    requires r.carry == CarryAfter(t, o.value, n)
    ensures r == Steps(t, o, n)
  {
    forall k | 0 <= k < 32
      ensures Bit(r.value, k) == Bit(Steps(t, o, n).value, k)
    {
      StepsBit(t, o, n, k);
    }
    SameWord(r.value, Steps(t, o, n).value);
    StepsCarry(t, o, n);
  }

  // ---- src/cpu/operand.c ----

  function Ror32(x: u32, s: nat): u32 {
    var s := s % 32;
    Or(Shr(x, s), Shl(x, 32 - s))
  }

  function ArithmeticRight(x: u32, amount: nat): u32 {
    if x >= SIGN then Or(Shr(x, amount), Not(Shr(0xFFFF_FFFF, amount))) else Shr(x, amount)
  }

  predicate LowBit(x: nat) { x % 2 == 1 }

  /** Shift by immediate. */
  function ShiftImmediate(x: u32, t: Shift, amount: nat, inC: bool): Out {
    match t
    case LSL =>
      if amount == 0 then Out(x, inC)
      else if amount < 32 then Out(Shl(x, amount), LowBit(Shr(x, 32 - amount)))
      else if amount == 32 then Out(0, LowBit(x))
      else Out(0, false)
    case LSR =>
      if amount == 0 then Out(0, LowBit(Shr(x, 31)))
      else if amount < 32 then Out(Shr(x, amount), LowBit(Shr(x, amount - 1)))
      else Out(0, false)
    case ASR =>
      if amount == 0 then Out(if x >= SIGN then 0xFFFF_FFFF else 0, LowBit(Shr(x, 31)))
      else if amount < 32 then Out(ArithmeticRight(x, amount), LowBit(Shr(x, amount - 1)))
      else Out(if x >= SIGN then 0xFFFF_FFFF else 0, LowBit(Shr(x, 31)))
    case ROR =>
      if amount == 0 then Out(Or(Shl(Bool(inC), 31), Shr(x, 1)), LowBit(x))
      else
        var s := amount % 32;
        if s == 0 then Out(x, LowBit(Shr(x, 31)))
        else Out(Ror32(x, s), LowBit(Shr(x, s - 1)))
  }

  /** Shift by the low byte of a register. */
  function ShiftRegister(x: u32, t: Shift, rs: u32, inC: bool): Out {
    var amount := rs % 256;
    if amount == 0 then Out(x, inC)
    else match t
      case LSL =>
        if amount < 32 then Out(Shl(x, amount), LowBit(Shr(x, 32 - amount)))
        else if amount == 32 then Out(0, LowBit(x))
        else Out(0, false)
      case LSR =>
        if amount < 32 then Out(Shr(x, amount), LowBit(Shr(x, amount - 1)))
        else if amount == 32 then Out(0, LowBit(Shr(x, 31)))
        else Out(0, false)
      case ASR =>
        if amount < 32 then Out(ArithmeticRight(x, amount), LowBit(Shr(x, amount - 1)))
        else Out(if x >= SIGN then 0xFFFF_FFFF else 0, LowBit(Shr(x, 31)))
      case ROR =>
        var s := amount % 32;
        if s == 0 then Out(x, LowBit(Shr(x, 31)))
        else Out(Ror32(x, s), LowBit(Shr(x, s - 1)))
  }

  // ---- proofs, one shift kind at a time ----

  lemma ShrLow(x: u32, k: nat)
    ensures LowBit(Shr(x, k)) == Bit(x, k)
  {
    ShrBits(x, k, 0);
  }

  lemma LslProof(x: u32, n: nat, c: bool)
    requires n >= 1
    ensures n < 32 ==> Out(Shl(x, n), LowBit(Shr(x, 32 - n))) == Steps(LSL, Out(x, c), n)
    ensures n == 32 ==> Out(0, LowBit(x)) == Steps(LSL, Out(x, c), n)
    ensures n > 32 ==> Out(0, false) == Steps(LSL, Out(x, c), n)
  {
    var r := if n < 32 then Out(Shl(x, n), LowBit(Shr(x, 32 - n)))
             else if n == 32 then Out(0, LowBit(x)) else Out(0, false);
    if n < 32 { ShrLow(x, 32 - n); }
    forall k | 0 <= k < 32
      ensures Bit(r.value, k) == BitAfter(LSL, x, n, k)
    {
      if n < 32 { ShlBit(x, n, k); } else { ZeroBit(k); }
    }
    IsSteps(LSL, Out(x, c), n, r);
  }

  lemma {:induction false} ZeroBit(k: nat)
    ensures !Bit(0, k)
  {
    if k == 0 {
    } else {
      ZeroBit(k - 1);
    }
  }

  lemma LsrProof(x: u32, n: nat, c: bool)
    requires n >= 1
    ensures n < 32 ==> Out(Shr(x, n), LowBit(Shr(x, n - 1))) == Steps(LSR, Out(x, c), n)
    ensures n == 32 ==> Out(0, LowBit(Shr(x, 31))) == Steps(LSR, Out(x, c), n)
    ensures n > 32 ==> Out(0, false) == Steps(LSR, Out(x, c), n)
  {
    var r := if n < 32 then Out(Shr(x, n), LowBit(Shr(x, n - 1)))
             else if n == 32 then Out(0, LowBit(Shr(x, 31))) else Out(0, false);
    ShrLow(x, n - 1);
    if n > 32 { HighBitsClear(x, n - 1); }
    forall k | 0 <= k < 32
      ensures Bit(r.value, k) == BitAfter(LSR, x, n, k)
    {
      if n < 32 { ShrBits(x, n, k); } else { ZeroBit(k); HighBitsClear(x, k + n); }
    }
    IsSteps(LSR, Out(x, c), n, r);
  }

  lemma OnesBit(k: nat)
    requires k < 32
    ensures Bit(0xFFFF_FFFF, k)
  {
    NotBit(0, k);
    ZeroBit(k);
  }

  lemma ArithmeticRightBit(x: u32, n: nat, k: nat)
    requires 1 <= n < 32 && k < 32
    ensures Bit(ArithmeticRight(x, n), k) == Bit(x, Min(k + n, 31))
  {
    TopBit(x);
    ShrBits(x, n, k);
    if k + n >= 32 { HighBitsClear(x, k + n); }
    if x >= SIGN {
      var ones := Shr(0xFFFF_FFFF, n);
      WordBit(OrOp, Shr(x, n), Not(ones), k);
      NotBit(ones, k);
      ShrBits(0xFFFF_FFFF, n, k);
      if k + n < 32 { OnesBit(k + n); } else { HighBitsClear(0xFFFF_FFFF, k + n); }
    }
  }

  lemma AsrProof(x: u32, n: nat, c: bool)
    requires n >= 1
    ensures n < 32 ==> Out(ArithmeticRight(x, n), LowBit(Shr(x, n - 1))) == Steps(ASR, Out(x, c), n)
    ensures n >= 32 ==> Out(if x >= SIGN then 0xFFFF_FFFF else 0, LowBit(Shr(x, 31))) == Steps(ASR, Out(x, c), n)
  {
    hide ArithmeticRight;
    var r := if n < 32 then Out(ArithmeticRight(x, n), LowBit(Shr(x, n - 1)))
             else Out(if x >= SIGN then 0xFFFF_FFFF else 0, LowBit(Shr(x, 31)));
    ShrLow(x, Min(n - 1, 31));
    TopBit(x);
    forall k | 0 <= k < 32
      ensures Bit(r.value, k) == BitAfter(ASR, x, n, k)
    {
      if n < 32 { ArithmeticRightBit(x, n, k); } else { ZeroBit(k); OnesBit(k); }
    }
    IsSteps(ASR, Out(x, c), n, r);
  }

  lemma ModBelow64(i: nat)
    requires i < 64
    ensures i % 32 == if i < 32 then i else i - 32
  {
  }

  lemma ModAdd(k: nat, n: nat)
    ensures (k + n) % 32 == (k + n % 32) % 32
  {
  }

  lemma ModPred(n: nat)
    requires n >= 1
    ensures (n - 1) % 32 == if n % 32 == 0 then 31 else n % 32 - 1
  {
  }

  lemma Ror32Bit(x: u32, s: nat, k: nat)
    requires 1 <= s < 32 && k < 32
    ensures Bit(Ror32(x, s), k) == Bit(x, (k + s) % 32)
  {
    hide Shr, Shl;
    ModBelow64(s);
    ModBelow64(k + s);
    WordBit(OrOp, Shr(x, s), Shl(x, 32 - s), k);
    ShrBits(x, s, k);
    ShlBit(x, 32 - s, k);
    if k + s >= 32 { HighBitsClear(x, k + s); }
  }

  lemma RorProof(x: u32, n: nat, c: bool)
    requires n >= 1
    ensures n % 32 == 0 ==> Out(x, LowBit(Shr(x, 31))) == Steps(ROR, Out(x, c), n)
    ensures n % 32 != 0 ==> Out(Ror32(x, n % 32), LowBit(Shr(x, n % 32 - 1))) == Steps(ROR, Out(x, c), n)
  {
    hide Ror32, LowBit, Shr;
    var s := n % 32;
    var r := if s == 0 then Out(x, LowBit(Shr(x, 31))) else Out(Ror32(x, s), LowBit(Shr(x, s - 1)));
    ShrLow(x, if s == 0 then 31 else s - 1);
    ModPred(n);
    forall k | 0 <= k < 32
      ensures Bit(r.value, k) == BitAfter(ROR, x, n, k)
    {
      ModAdd(k, n);
      ModBelow64(k);
      if s != 0 { Ror32Bit(x, s, k); }
    }
    IsSteps(ROR, Out(x, c), n, r);
  }

  /** Shifting by a register is that many one-bit steps, for every amount 0..255. */
  lemma RegisterShiftIsSteps(x: u32, t: Shift, rs: u32, inC: bool)
    ensures ShiftRegister(x, t, rs, inC) == Steps(t, Out(x, inC), rs % 256)
  {
    var n := rs % 256;
    if n > 0 {
      hide Ror32, ArithmeticRight, LowBit, Shr, Shl;
      match t
      case LSL => LslProof(x, n, inC);
      case LSR => LsrProof(x, n, inC);
      case ASR => AsrProof(x, n, inC);
      case ROR => RorProof(x, n, inC);
    }
  }

  /** What an immediate amount stands for: 0 encodes 32 steps of LSR and ASR, and one rotate through carry for ROR. */
  function ImmediateReference(t: Shift, amount: nat, o: Out): Out {
    if amount > 0 then Steps(t, o, amount)
    else match t
      case LSL => o
      case LSR => Steps(LSR, o, 32)
      case ASR => Steps(ASR, o, 32)
      case ROR => RotateThroughCarry(o)
  }

  lemma RotateThroughCarryProof(x: u32, c: bool)
    ensures Out(Or(Shl(Bool(c), 31), Shr(x, 1)), LowBit(x)) == RotateThroughCarry(Out(x, c))
  {
    var v := Or(Shl(Bool(c), 31), Shr(x, 1));
    forall k | 0 <= k < 32
      ensures Bit(v, k) == Bit(RotateThroughCarry(Out(x, c)).value, k)
    {
      WordBit(OrOp, Shl(Bool(c), 31), Shr(x, 1), k);
      ShlBit(Bool(c), 31, k);
      ShrBits(x, 1, k);
      PlusSignBit(x / 2, c, k);
      HighBitsClear(x, 32);
    }
    SameWord(v, RotateThroughCarry(Out(x, c)).value);
  }

  /** Immediate shifts agree with the one-bit shifter except for LSR by exactly 32 of a word with bit 31 set. */
  lemma ImmediateShiftIsSteps(x: u32, t: Shift, amount: nat, inC: bool)
    ensures ShiftImmediate(x, t, amount, inC) == ImmediateReference(t, amount, Out(x, inC))
            <==> !(t == LSR && amount == 32 && x >= SIGN)
  {
    hide Ror32, ArithmeticRight, Shr, Shl;
    var n := if amount == 0 then 32 else amount;
    TopBit(x);
    ShrLow(x, 31);
    match t
    case LSL => if amount > 0 { LslProof(x, n, inC); }
    case LSR => LsrProof(x, n, inC);
    case ASR => AsrProof(x, n, inC);
    case ROR => if amount > 0 { RorProof(x, n, inC); } else { RotateThroughCarryProof(x, inC); }
  }
}
