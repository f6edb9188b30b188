/** STM and LDM in integers, with and without write-back: which registers, which addresses, and which base. */
module TransferLaws {
  import opened Words
  import opened CpuModel
  import opened Memory
  import opened BlockTransfer
  import opened StackDiscipline
  import opened AddressingLaws

  // ---- the list ----

  lemma {:induction false} ListFromIs(mask: u32, i: nat)
    requires i <= 16
    ensures var s := ListFrom(mask, i);
      && (forall k: nat :: k in s <==> i <= k < 16 && Bit(mask, k))
      && (forall j, k :: 0 <= j < k < |s| ==> s[j] < s[k])
    decreases 16 - i
  {
    hide Bit, ListFrom;
    ListStep(mask, i);
    if i == 16 {
    } else {
      ListFromIs(mask, i + 1);
      if Bit(mask, i) { assert ListFrom(mask, i) == [i] + ListFrom(mask, i + 1); }
    }
  }

  /** The list names each register whose bit is set, once, in ascending order. */
  lemma ListLaw(instr: u32)
    ensures var s := Listed(instr);
      && (forall k: nat :: k in s <==> k < 16 && instr / Pow2(k) % 2 == 1)
      && (forall j, k :: 0 <= j < k < |s| ==> s[j] < s[k])
  {
    hide Bit, ListFrom, Pow2;
    ListFromIs(instr, 0);
    assert Listed(instr) == ListFrom(instr, 0);
    forall k: nat
      ensures Bit(instr, k) <==> instr / Pow2(k) % 2 == 1
    {
      BitIs(instr, k, Pow2(k));
    }
  }

  // ---- addresses ----

  /** The first address of the four modes: increment after, increment before, decrement after, decrement before. */
  lemma FirstAddressLaw(s: Store, instr: u32, b: u32)
    requires |s.r| == 16 && b == s.r[instr / 0x1_0000 % 16]
    ensures var up, before := instr / 0x80_0000 % 2 == 1, instr / 0x100_0000 % 2 == 1;
      var a, n := FirstAddress(s, instr), |Listed(instr)|;
      && (up && !before ==> a == b)
      && (up && before ==> a == (b as int + 4) % TWO32)
      && (!up && !before ==> a == (b as int - 4 * (n - 1)) % TWO32)
      && (!up && before ==> a == (b as int - 4 * n) % TWO32)
  {
    hide ListFrom, Rn, Rd, UpBit, BeforeBit, WriteBackBit;
    AddressFields(instr);
  }

  lemma {:induction false} PlainIs(a: nat, n: nat, ramSize: nat, uart: bool, disk: bool)
    ensures PlainRange(a, n, ramSize, uart, disk) <==>
              forall j :: 0 <= j < n ==> a + 4 * j < TWO32 && RouteOf(a + 4 * j, ramSize, uart, disk) == Ram
    decreases n
  {
    hide RouteOf;
    if n == 0 {
    } else {
      PlainIs(a + 4, n - 1, ramSize, uart, disk);
      if PlainRange(a, n, ramSize, uart, disk) {
        forall j | 0 <= j < n
          ensures a + 4 * j < TWO32 && RouteOf(a + 4 * j, ramSize, uart, disk) == Ram
        {
          if j > 0 { assert (a + 4) + 4 * (j - 1) == a + 4 * j; }
        }
      } else if forall j :: 0 <= j < n ==> a + 4 * j < TWO32 && RouteOf(a + 4 * j, ramSize, uart, disk) == Ram {
        assert a + 4 * 0 == a;
        forall j | 0 <= j < n - 1
          ensures (a + 4) + 4 * j < TWO32 && RouteOf((a + 4) + 4 * j, ramSize, uart, disk) == Ram
        {
          assert a + 4 * (j + 1) == (a + 4) + 4 * j;
        }
      }
    }
  }

  /** The transfers these laws speak of are exactly those whose words all route to RAM. */
  lemma InRamLaw(s: Store, instr: u32, w: Windows)
    requires |s.r| == 16
    ensures InRam(s, instr, w) <==>
              forall j :: 0 <= j < |Listed(instr)| ==>
                var a := FirstAddress(s, instr) + 4 * j;
                a < TWO32 && RouteOf(a, |s.ram|, w.uart, w.disk) == Ram
  {
    hide FirstAddress, ListFrom, RouteOf, PlainRange;
    PlainIs(FirstAddress(s, instr), |Listed(instr)|, |s.ram|, w.uart, w.disk);
    PlainFits(FirstAddress(s, instr), |Listed(instr)|, |s.ram|, w.uart, w.disk);
  }

  // ---- what is transferred ----

  /** Loading an ascending list puts each word into its register and leaves the other registers, and r15, alone. */
  lemma {:induction false} LoadListIs(m: seq<byte>, a: nat, r: seq<u32>, list: seq<nat>)
    requires (list == [] || a + 4 * |list| <= |m|) && forall n :: 0 <= n < |list| ==> list[n] < |r|
    requires forall j, k :: 0 <= j < k < |list| ==> list[j] < list[k]
    ensures var t := LoadList(m, a, r, list);
      && (forall j :: 0 <= j < |list| && list[j] != 15 ==> t[list[j]] == LoadWord(m, a + 4 * j))
      && (forall i :: 0 <= i < |r| && (i == 15 || i !in list) ==> t[i] == r[i])
    decreases |list|
  {
    hide LoadWord;
    if list == [] {
    } else {
      var r1 := if list[0] == 15 then r else r[list[0] := LoadWord(m, a)];
      var t := LoadList(m, a, r, list);
      LoadListIs(m, a + 4, r1, list[1..]);
      assert list[0] !in list[1..];
      forall j | 0 <= j < |list| && list[j] != 15
        ensures t[list[j]] == LoadWord(m, a + 4 * j)
      {
        if j > 0 { assert list[j] == list[1..][j - 1] && (a + 4) + 4 * (j - 1) == a + 4 * j; }
      }
      forall i | 0 <= i < |r| && (i == 15 || i !in list)
        ensures t[i] == r[i]
      {
        assert i in list[1..] ==> i in list;
      }
    }
  }

  /** STM: the listed registers at ascending words and no other byte; the base moves only when bit 21 is set. */
  lemma StmLaw(s: Store, instr: u32, w: Windows)
    requires InRam(s, instr, w)
    ensures var list, a, t := Listed(instr), FirstAddress(s, instr), Stm(s, instr, w);
      var rn := instr / 0x1_0000 % 16;
      && (forall j :: 0 <= j < |list| ==> LoadWord(t.ram, a + 4 * j) == s.r[list[j]])
      && |t.ram| == |s.ram|
      && (forall i :: 0 <= i < |s.ram| && !(a <= i < a + 4 * |list|) ==> t.ram[i] == s.ram[i])
      && (instr / 0x20_0000 % 2 == 0 ==> t.r == s.r)
      && (instr / 0x20_0000 % 2 == 1 ==>
            t.r == s.r[rn := (if instr / 0x80_0000 % 2 == 1 then s.r[rn] as int + 4 * |list|
                              else s.r[rn] as int - 4 * |list|) % TWO32])
  {
    hide ListFrom, Rn, Rd, UpBit, BeforeBit, WriteBackBit, FirstAddress, LoadWord, StoreList, PlainRange;
    AddressFields(instr);
    StoreListWrites(s.ram, FirstAddress(s, instr), s.r, Listed(instr));
  }

  /** LDM: with bit 21 clear each listed register but r15 takes its word, the base included, and every other register
      stays; with bit 21 set the base ends where the transfer does, whether or not it is listed. */
  lemma LdmLaw(s: Store, instr: u32, w: Windows)
    requires InRam(s, instr, w)
    ensures var list, a, t := Listed(instr), FirstAddress(s, instr), Ldm(s, instr, w);
      var rn, moves := instr / 0x1_0000 % 16, instr / 0x20_0000 % 2 == 1;
      && t.ram == s.ram && |t.r| == 16
      && (forall j :: 0 <= j < |list| && list[j] != 15 && !(moves && list[j] == rn) ==>
            t.r[list[j]] == LoadWord(s.ram, a + 4 * j))
      && (forall i :: 0 <= i < 16 && (i == 15 || i !in list) && !(moves && i == rn) ==> t.r[i] == s.r[i])
      && (moves ==>
            t.r[rn] == (if instr / 0x80_0000 % 2 == 1 then s.r[rn] as int + 4 * |list|
                        else s.r[rn] as int - 4 * |list|) % TWO32)
  {
    hide Bit, ListFrom, Rn, Rd, UpBit, BeforeBit, WriteBackBit, FirstAddress, LoadWord, LoadList, PlainRange;
    AddressFields(instr);
    ListFromIs(instr, 0);
    assert Listed(instr) == ListFrom(instr, 0);
    LoadListIs(s.ram, FirstAddress(s, instr), s.r, Listed(instr));
  }

  /** When bit 15 is set the next PC is the last word, without its two low bits; else it is left alone. */
  lemma LoadedNpcLaw(m: seq<byte>, a: nat, npc: u32, instr: u32)
    requires Listed(instr) == [] || a + 4 * |Listed(instr)| <= |m|
    ensures instr / 0x8000 % 2 == 1 ==>
      Listed(instr) != [] &&
      LoadedNpc(m, a, npc, Listed(instr)) == LoadWord(m, a + 4 * (|Listed(instr)| - 1)) / 4 * 4
    ensures instr / 0x8000 % 2 == 0 ==> LoadedNpc(m, a, npc, Listed(instr)) == npc
  {
    hide Bit, ListFrom, LoadWord, Pow2;
    FifteenthPower();
    BitIs(instr, 15, 0x8000);
    LastListed(instr, 0);
  }

  lemma FifteenthPower()
    ensures Pow2(15) == 0x8000
  {
    SmallPowers();
    assert Pow2(16) == 2 * Pow2(15);
  }
}
