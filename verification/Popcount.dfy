/** The two SWAR population counts that give a decoder row its priority. */
module Popcount {

  function Popcnt16(x: bv16): bv8 { Fold16(Bytes16(Nibbles16(Pairs16(x)))) }

  function Pairs16(x: bv16): bv16 { (x & 0x5555) + ((x >> 1) & 0x5555) }

  function Nibbles16(x: bv16): bv16 { (x & 0x3333) + ((x >> 2) & 0x3333) }

  function Bytes16(x: bv16): bv16 { (x + (x >> 4)) & 0x0F0F }

  function Fold16(x: bv16): bv8 { ((x + (x >> 8)) & 0x1F) as bv8 }

  function Popcnt32(x: bv32): bv8 { FoldHalves32(FoldBytes32(Bytes32(Nibbles32(Pairs32(x))))) }

  function Pairs32(x: bv32): bv32 { x - ((x >> 1) & 0x5555_5555) }

  function Nibbles32(x: bv32): bv32 { (x & 0x3333_3333) + ((x >> 2) & 0x3333_3333) }

  function Bytes32(x: bv32): bv32 { (x + (x >> 4)) & 0x0F0F_0F0F }

  function FoldBytes32(x: bv32): bv32 { x + (x >> 8) }

  function FoldHalves32(x: bv32): bv8 { ((x + (x >> 16)) & 0x3F) as bv8 }

  // ---- reference: how many bits are set ----

  function One(b: bool): nat { if b then 1 else 0 }

  function Weight8(b: bv8): nat {
    SumNat(b & 0x01 != 0, b & 0x02 != 0, b & 0x04 != 0, b & 0x08 != 0,
           b & 0x10 != 0, b & 0x20 != 0, b & 0x40 != 0, b & 0x80 != 0)
  }

  function SumNat(b0: bool, b1: bool, b2: bool, b3: bool, b4: bool, b5: bool, b6: bool, b7: bool): (n: nat)
    ensures n <= 8
  {
    One(b0) + One(b1) + One(b2) + One(b3) + One(b4) + One(b5) + One(b6) + One(b7)
  }

  function Lane16(x: bv16, i: bv1): bv8 { if i == 0 then (x & 0xFF) as bv8 else (x >> 8) as bv8 }

  function Weight16(x: bv16): nat { Weight8(Lane16(x, 0)) + Weight8(Lane16(x, 1)) }

  function Lane(x: bv32, i: bv2): bv8 {
    if i == 0 then (x & 0xFF) as bv8
    else if i == 1 then ((x >> 8) & 0xFF) as bv8
    else if i == 2 then ((x >> 16) & 0xFF) as bv8
    else (x >> 24) as bv8
  }

  function Weight32(x: bv32): nat {
    Weight8(Lane(x, 0)) + Weight8(Lane(x, 1)) + Weight8(Lane(x, 2)) + Weight8(Lane(x, 3))
  }

  // ---- one byte lane of the SWAR computation ----

  function Pairs8(x: bv8): bv8 { x - ((x >> 1) & 0x55) }

  function Nibbles8(x: bv8): bv8 { (x & 0x33) + ((x >> 2) & 0x33) }

  function Bytes8(x: bv8): bv8 { (x + (x >> 4)) & 0x0F }

  function Swar8(x: bv8): bv8 { Bytes8(Nibbles8(Pairs8(x))) }

  function BvOne(b: bool): bv8 { if b then 1 else 0 }

  function SumBv(b0: bool, b1: bool, b2: bool, b3: bool, b4: bool, b5: bool, b6: bool, b7: bool): bv8 {
    ((BvOne(b0) + BvOne(b1)) + (BvOne(b2) + BvOne(b3))) + ((BvOne(b4) + BvOne(b5)) + (BvOne(b6) + BvOne(b7)))
  }

  lemma SumBvIsSumNat(b0: bool, b1: bool, b2: bool, b3: bool, b4: bool, b5: bool, b6: bool, b7: bool)
    ensures SumBv(b0, b1, b2, b3, b4, b5, b6, b7) as nat == SumNat(b0, b1, b2, b3, b4, b5, b6, b7)
  {
  }

  lemma Swar8Bits(b: bv8)
    ensures Swar8(b) ==
      SumBv(b & 0x01 != 0, b & 0x02 != 0, b & 0x04 != 0, b & 0x08 != 0,
            b & 0x10 != 0, b & 0x20 != 0, b & 0x40 != 0, b & 0x80 != 0)
  {
    hide Pairs8, Nibbles8, Bytes8;
    var p := Pairs8(b);
    PairFields(b);
    PairsSmall(b);
    NibbleFields(p);
    NibblesSmall(p);
    ByteFields(Nibbles8(p));
  }

  lemma PairFields(b: bv8)
    ensures Pairs8(b) & 3 == BvOne(b & 0x01 != 0) + BvOne(b & 0x02 != 0)
    ensures (Pairs8(b) >> 2) & 3 == BvOne(b & 0x04 != 0) + BvOne(b & 0x08 != 0)
    ensures (Pairs8(b) >> 4) & 3 == BvOne(b & 0x10 != 0) + BvOne(b & 0x20 != 0)
    ensures (Pairs8(b) >> 6) & 3 == BvOne(b & 0x40 != 0) + BvOne(b & 0x80 != 0)
  {
  }

  lemma PairsSmall(b: bv8)
    ensures Pairs8(b) & (Pairs8(b) >> 1) & 0x55 == 0
  {
  }

  lemma NibbleFields(p: bv8)
    ensures Nibbles8(p) & 15 == (p & 3) + ((p >> 2) & 3)
    ensures Nibbles8(p) >> 4 == ((p >> 4) & 3) + ((p >> 6) & 3)
  {
  }

  lemma NibblesSmall(p: bv8)
    requires p & (p >> 1) & 0x55 == 0
    ensures Nibbles8(p) & 0x88 == 0
  {
  }

  lemma ByteFields(n: bv8)
    requires n & 0x88 == 0
    ensures Bytes8(n) == (n & 15) + (n >> 4)
  {
  }

  lemma Swar8IsWeight(b: bv8)
    ensures Swar8(b) as nat == Weight8(b) <= 8
  {
    hide *;
    Swar8Bits(b);
    SumBvIsSumNat(b & 0x01 != 0, b & 0x02 != 0, b & 0x04 != 0, b & 0x08 != 0,
                  b & 0x10 != 0, b & 0x20 != 0, b & 0x40 != 0, b & 0x80 != 0);
    Weight8Def(b);
  }

  lemma Weight8Def(b: bv8)
    ensures Weight8(b) ==
      SumNat(b & 0x01 != 0, b & 0x02 != 0, b & 0x04 != 0, b & 0x08 != 0,
             b & 0x10 != 0, b & 0x20 != 0, b & 0x40 != 0, b & 0x80 != 0)
  {
  }

  // ---- adding lanes up ----

  function Sum2(s: bv8, t: bv8): bv8 { s + t }

  lemma Sum2IsPlus(s: bv8, t: bv8)
    requires s as nat <= 16 && t as nat <= 16
    ensures Sum2(s, t) as nat == s as nat + t as nat
  {
  }

  function Low6(s: bv8): bv8 { s & 0x3F }

  lemma Low6Small(s: bv8)
    requires s as nat <= 32
    ensures Low6(s) == s
  {
  }

  lemma FourLanes(s0: bv8, s1: bv8, s2: bv8, s3: bv8)
    requires s0 as nat <= 8 && s1 as nat <= 8 && s2 as nat <= 8 && s3 as nat <= 8
    ensures Low6(Sum2(Sum2(s0, s1), Sum2(s2, s3))) as nat == s0 as nat + s1 as nat + s2 as nat + s3 as nat
  {
    hide *;
    Sum2IsPlus(s0, s1);
    Sum2IsPlus(s2, s3);
    Sum2IsPlus(Sum2(s0, s1), Sum2(s2, s3));
    Low6Small(Sum2(Sum2(s0, s1), Sum2(s2, s3)));
  }

  // ---- 32 bits ----

  lemma PairLanes(x: bv32)
    ensures Lane(Pairs32(x), 0) == Pairs8(Lane(x, 0)) && Lane(Pairs32(x), 1) == Pairs8(Lane(x, 1))
    ensures Lane(Pairs32(x), 2) == Pairs8(Lane(x, 2)) && Lane(Pairs32(x), 3) == Pairs8(Lane(x, 3))
  {
  }

  lemma NibbleLanes(x: bv32, i: bv2)
    ensures Lane(Nibbles32(x), i) == Nibbles8(Lane(x, i))
  {
  }

  lemma ByteLanes(x: bv32, i: bv2)
    requires x & 0x8888_8888 == 0
    ensures Lane(Bytes32(x), i) == Bytes8(Lane(x, i))
  {
  }

  lemma PairsAtMostTwo(x: bv32)
    ensures Pairs32(x) & (Pairs32(x) >> 1) & 0x5555_5555 == 0
  {
  }

  lemma NibblesAtMostFour(x: bv32)
    requires x & (x >> 1) & 0x5555_5555 == 0
    ensures Nibbles32(x) & 0x8888_8888 == 0
  {
  }

  lemma LanesAreSwar8(x: bv32, i: bv2)
    ensures Lane(Bytes32(Nibbles32(Pairs32(x))), i) == Swar8(Lane(x, i))
  {
    hide Lane, Pairs32, Nibbles32, Bytes32, Pairs8, Nibbles8, Bytes8;
    PairLanes(x);
    NibbleLanes(Pairs32(x), i);
    PairsAtMostTwo(x);
    NibblesAtMostFour(Pairs32(x));
    ByteLanes(Nibbles32(Pairs32(x)), i);
    assert i == 0 || i == 1 || i == 2 || i == 3;
  }

  lemma BytesAreSmall(x: bv32)
    ensures Bytes32(x) & 0xF0F0_F0F0 == 0
  {
  }

  lemma FoldBytesLanes(c: bv32)
    requires c & 0xF0F0_F0F0 == 0
    ensures Lane(FoldBytes32(c), 0) == Sum2(Lane(c, 0), Lane(c, 1))
    ensures Lane(FoldBytes32(c), 2) == Sum2(Lane(c, 2), Lane(c, 3))
  {
  }

  lemma FoldHalvesLanes(d: bv32)
    ensures FoldHalves32(d) == Low6(Sum2(Lane(d, 0), Lane(d, 2)))
  {
  }

  lemma Unfold32(x: bv32)
    ensures Popcnt32(x) == FoldHalves32(FoldBytes32(Bytes32(Nibbles32(Pairs32(x)))))
    ensures Weight32(x) == Weight8(Lane(x, 0)) + Weight8(Lane(x, 1)) + Weight8(Lane(x, 2)) + Weight8(Lane(x, 3))
  {
    hide Pairs32, Nibbles32, Bytes32, FoldBytes32, FoldHalves32, Lane, Weight8;
  }

  /** The 32-bit SWAR count is exact. */
  lemma Popcnt32Exact(x: bv32)
    ensures Popcnt32(x) as nat == Weight32(x)
  {
    hide *;
    Unfold32(x);
    var c := Bytes32(Nibbles32(Pairs32(x)));
    forall i: bv2
      ensures Lane(c, i) as nat == Weight8(Lane(x, i)) <= 8
    {
      LanesAreSwar8(x, i);
      Swar8IsWeight(Lane(x, i));
    }
    BytesAreSmall(Nibbles32(Pairs32(x)));
    FoldBytesLanes(c);
    FoldHalvesLanes(FoldBytes32(c));
    FourLanes(Lane(c, 0), Lane(c, 1), Lane(c, 2), Lane(c, 3));
  }

  // ---- 16 bits ----

  lemma PairLanes16(x: bv16, i: bv1)
    ensures Lane16(Pairs16(x), i) == Pairs8(Lane16(x, i))
    ensures Pairs16(x) & (Pairs16(x) >> 1) & 0x5555 == 0
  {
  }

  lemma NibbleLanes16(x: bv16, i: bv1)
    ensures Lane16(Nibbles16(x), i) == Nibbles8(Lane16(x, i))
    ensures x & (x >> 1) & 0x5555 == 0 ==> Nibbles16(x) & 0x8888 == 0
  {
  }

  lemma ByteLanes16(x: bv16, i: bv1)
    requires x & 0x8888 == 0
    ensures Lane16(Bytes16(x), i) == Bytes8(Lane16(x, i))
  {
  }

  lemma Lanes16AreSwar8(x: bv16, i: bv1)
    ensures Lane16(Bytes16(Nibbles16(Pairs16(x))), i) == Swar8(Lane16(x, i))
  {
    hide Lane16, Pairs16, Nibbles16, Bytes16, Pairs8, Nibbles8, Bytes8;
    PairLanes16(x, i);
    NibbleLanes16(Pairs16(x), i);
    ByteLanes16(Nibbles16(Pairs16(x)), i);
  }

  lemma Fold16Lanes(c: bv16)
    requires c & 0xF0F0 == 0
    ensures Fold16(c) == Sum2(Lane16(c, 0), Lane16(c, 1))
  {
  }

  lemma Bytes16AreSmall(x: bv16)
    ensures Bytes16(x) & 0xF0F0 == 0
  {
  }

  lemma Unfold16(x: bv16)
    ensures Popcnt16(x) == Fold16(Bytes16(Nibbles16(Pairs16(x))))
    ensures Weight16(x) == Weight8(Lane16(x, 0)) + Weight8(Lane16(x, 1))
  {
    hide Pairs16, Nibbles16, Bytes16, Fold16, Lane16, Weight8;
  }

  /** The 16-bit SWAR count is exact. */
  lemma Popcnt16Exact(x: bv16)
    ensures Popcnt16(x) as nat == Weight16(x)
  {
    hide *;
    Unfold16(x);
    var c := Bytes16(Nibbles16(Pairs16(x)));
    forall i: bv1
      ensures Lane16(c, i) as nat == Weight8(Lane16(x, i)) <= 8
    {
      Lanes16AreSwar8(x, i);
      Swar8IsWeight(Lane16(x, i));
    }
    Bytes16AreSmall(Nibbles16(Pairs16(x)));
    Fold16Lanes(c);
    Sum2IsPlus(Lane16(c, 0), Lane16(c, 1));
  }

  // ---- a longer mask weighs more ----

  lemma Submask8(a: bv8, b: bv8)
    requires a & b == a
    ensures Weight8(a) <= Weight8(b)
    ensures a != b ==> Weight8(a) < Weight8(b)
  {
  }

  lemma LaneSubmask(a: bv32, b: bv32, i: bv2)
    requires a & b == a
    ensures Lane(a, i) & Lane(b, i) == Lane(a, i)
  {
  }

  lemma SomeLaneDiffers(a: bv32, b: bv32)
    requires a != b
    ensures Lane(a, 0) != Lane(b, 0) || Lane(a, 1) != Lane(b, 1) || Lane(a, 2) != Lane(b, 2) || Lane(a, 3) != Lane(b, 3)
  {
  }

  lemma Submask32(a: bv32, b: bv32)
    requires a & b == a
    ensures Weight32(a) <= Weight32(b)
    ensures a != b ==> Weight32(a) < Weight32(b)
  {
    hide *;
    Unfold32(a);
    Unfold32(b);
    forall i: bv2
      ensures Weight8(Lane(a, i)) <= Weight8(Lane(b, i))
      ensures Lane(a, i) != Lane(b, i) ==> Weight8(Lane(a, i)) < Weight8(Lane(b, i))
    {
      LaneSubmask(a, b, i);
      Submask8(Lane(a, i), Lane(b, i));
    }
    if a != b { SomeLaneDiffers(a, b); }
  }

  lemma Lane16Submask(a: bv16, b: bv16, i: bv1)
    requires a & b == a
    ensures Lane16(a, i) & Lane16(b, i) == Lane16(a, i)
  {
  }

  lemma SomeLane16Differs(a: bv16, b: bv16)
    requires a != b
    ensures Lane16(a, 0) != Lane16(b, 0) || Lane16(a, 1) != Lane16(b, 1)
  {
  }

  lemma Submask16(a: bv16, b: bv16)
    requires a & b == a
    ensures Weight16(a) <= Weight16(b)
    ensures a != b ==> Weight16(a) < Weight16(b)
  {
    hide *;
    Unfold16(a);
    Unfold16(b);
    forall i: bv1
      ensures Weight8(Lane16(a, i)) <= Weight8(Lane16(b, i))
      ensures Lane16(a, i) != Lane16(b, i) ==> Weight8(Lane16(a, i)) < Weight8(Lane16(b, i))
    {
      Lane16Submask(a, b, i);
      Submask8(Lane16(a, i), Lane16(b, i));
    }
    if a != b { SomeLane16Differs(a, b); }
  }
}
