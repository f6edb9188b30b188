/** Building the 4096 candidate lists in place, and decoding through them. */
module DecoderIndex {
  import opened DecoderSpec
  import opened Options

  class K12Index {
    const table: seq<Row>
    const keyList: array2<nat>
    const keyPrio: array2<nat>
    const keyCount: array<nat>
    var ready: bool

    constructor (rows: seq<Row>)
      ensures table == rows && !ready
      ensures Shaped() && fresh(keyList) && fresh(keyPrio) && fresh(keyCount)
    {
      table := rows;
      keyList := new nat[KEY12_SPACE, MAX_PER_KEY];
      keyPrio := new nat[KEY12_SPACE, MAX_PER_KEY];
      keyCount := new nat[KEY12_SPACE];
      ready := false;
    }

    ghost predicate Shaped() {
      && keyList.Length0 == keyPrio.Length0 == keyCount.Length == KEY12_SPACE
      && keyList.Length1 == keyPrio.Length1 == MAX_PER_KEY
      && keyList != keyPrio
    }

    /** The first n slots of key k. */
    function Slots(k: nat, n: nat): (s: seq<nat>)
      requires Shaped() && k < KEY12_SPACE && n <= MAX_PER_KEY
      reads keyList
      ensures |s| == n && forall j :: 0 <= j < n ==> s[j] == keyList[k, j]
    {
      seq(n, j requires 0 <= j < n reads keyList => keyList[k, j])
    }

    ghost predicate PrioritiesParallel(k: nat, n: nat)
      requires Shaped() && k < KEY12_SPACE && n <= MAX_PER_KEY
      reads keyList, keyPrio
    {
      forall j :: 0 <= j < n ==> keyList[k, j] < |table| && keyPrio[k, j] == Priority(table[keyList[k, j]])
    }

    ghost predicate KeyBuilt(k: nat)
      requires Shaped() && k < KEY12_SPACE
      reads keyList, keyPrio, keyCount
    {
      && keyCount[k] <= MAX_PER_KEY
      && TopList(table, k as bv16, |table|, Slots(k, keyCount[k]))
      && PrioritiesParallel(k, keyCount[k])
    }

    ghost predicate Built()
      reads this, keyList, keyPrio, keyCount
    {
      Shaped() && forall k :: 0 <= k < KEY12_SPACE ==> KeyBuilt(k)
    }

    /** The shifting loop: opens a hole among the first `top` slots of key k and puts row ei there. */
    method ShiftIn(k: nat, top: nat, ei: nat, pr: nat) returns (pos: nat)
      requires Shaped() && k < KEY12_SPACE && top < MAX_PER_KEY
      modifies keyList, keyPrio
      ensures pos <= top
      ensures forall j :: 0 <= j < pos ==> keyList[k, j] == old(keyList[k, j]) && keyPrio[k, j] == old(keyPrio[k, j])
      ensures keyList[k, pos] == ei && keyPrio[k, pos] == pr
      ensures forall j :: pos < j <= top ==>
                keyList[k, j] == old(keyList[k, j - 1]) && keyPrio[k, j] == old(keyPrio[k, j - 1])
      ensures pos > 0 ==> pr <= old(keyPrio[k, pos - 1])
      ensures forall j :: pos <= j < top ==> pr > old(keyPrio[k, j])
      ensures forall k', j :: 0 <= k' < KEY12_SPACE && k' != k && 0 <= j < MAX_PER_KEY ==>
                keyList[k', j] == old(keyList[k', j]) && keyPrio[k', j] == old(keyPrio[k', j])
    {
      pos := top;
      while pos > 0 && pr > keyPrio[k, pos - 1]
        invariant pos <= top
        invariant forall j :: 0 <= j < pos ==>
            keyList[k, j] == old(keyList[k, j]) && keyPrio[k, j] == old(keyPrio[k, j])
        invariant forall j :: pos < j <= top ==>
                    keyList[k, j] == old(keyList[k, j - 1]) && keyPrio[k, j] == old(keyPrio[k, j - 1])
        invariant forall j :: pos <= j < top ==> pr > old(keyPrio[k, j])
        invariant forall k', j :: 0 <= k' < KEY12_SPACE && k' != k && 0 <= j < MAX_PER_KEY ==>
                    keyList[k', j] == old(keyList[k', j]) && keyPrio[k', j] == old(keyPrio[k', j])
      {
        keyPrio[k, pos] := keyPrio[k, pos - 1];
        keyList[k, pos] := keyList[k, pos - 1];
        pos := pos - 1;
      }
      keyPrio[k, pos] := pr;
      keyList[k, pos] := ei;
    }

    /** Puts matching row ei in its place among the first `top` slots, which grow by one. */
    method Place(k: nat, top: nat, ei: nat) returns (pos: nat)
      requires Shaped() && k < KEY12_SPACE && top < MAX_PER_KEY && ei < |table|
      requires Ranked(table, Slots(k, top)) && PrioritiesParallel(k, top)
      modifies keyList, keyPrio
      ensures pos <= top && InsertionPoint(table, old(Slots(k, top)), ei, pos)
      ensures Slots(k, top + 1) == Inserted(old(Slots(k, top)), ei, pos)
      ensures PrioritiesParallel(k, top + 1)
      ensures forall k', j :: 0 <= k' < KEY12_SPACE && k' != k && 0 <= j < MAX_PER_KEY ==>
                keyList[k', j] == old(keyList[k', j]) && keyPrio[k', j] == old(keyPrio[k', j])
    {
      hide Priority, KeyMatch, Outranks, Ranked;
      RankedPriorities(table, Slots(k, top));
      pos := ShiftIn(k, top, ei, Priority(table[ei]));
    }

    /** A better row for a full key: the last slot is dropped. */
    method Evict(k: nat, ei: nat)
      requires Shaped() && k < KEY12_SPACE && ei < |table| && KeyMatch(table[ei], k as bv16)
      requires TopList(table, k as bv16, ei, Slots(k, MAX_PER_KEY)) && PrioritiesParallel(k, MAX_PER_KEY)
      requires Priority(table[ei]) > keyPrio[k, MAX_PER_KEY - 1]
      modifies keyList, keyPrio
      ensures TopList(table, k as bv16, ei + 1, Slots(k, MAX_PER_KEY)) && PrioritiesParallel(k, MAX_PER_KEY)
      ensures forall k', j :: 0 <= k' < KEY12_SPACE && k' != k && 0 <= j < MAX_PER_KEY ==>
                keyList[k', j] == old(keyList[k', j]) && keyPrio[k', j] == old(keyPrio[k', j])
    {
      hide Priority, KeyMatch, Outranks, InsertionPoint, TopList, Ranked;
      ghost var s := Slots(k, MAX_PER_KEY);
      TopRanked(table, k as bv16, ei, s);
      assert Slots(k, MAX_PER_KEY - 1) == s[..MAX_PER_KEY - 1];
      var pos := Place(k, MAX_PER_KEY - 1, ei);
      InsertedPrefix(table, s, ei, pos);
      EvictKeepsTop(table, k as bv16, s, ei, pos);
    }

    /** One candidate row for key k; cnt slots are in use. */
    method Offer(k: nat, cnt: nat, ei: nat) returns (cnt': nat)
      requires Shaped() && k < KEY12_SPACE && cnt <= MAX_PER_KEY && ei < |table|
      requires TopList(table, k as bv16, ei, Slots(k, cnt)) && PrioritiesParallel(k, cnt)
      modifies keyList, keyPrio
      ensures cnt' <= MAX_PER_KEY
      ensures TopList(table, k as bv16, ei + 1, Slots(k, cnt')) && PrioritiesParallel(k, cnt')
      ensures forall k', j :: 0 <= k' < KEY12_SPACE && k' != k && 0 <= j < MAX_PER_KEY ==>
                keyList[k', j] == old(keyList[k', j]) && keyPrio[k', j] == old(keyPrio[k', j])
    {
      hide Priority, KeyMatch, Outranks, InsertionPoint, TopList, Ranked;
      ghost var s := Slots(k, cnt);
      TopRanked(table, k as bv16, ei, s);
      cnt' := cnt;
      if KeyMatch(table[ei], k as bv16) {
        if cnt < MAX_PER_KEY {
          var pos := Place(k, cnt, ei);
          InsertKeepsTop(table, k as bv16, s, ei, pos);
          cnt' := cnt + 1;
        } else if Priority(table[ei]) > keyPrio[k, cnt - 1] {
          Evict(k, ei);
        } else {
          SkipKeepsTop(table, k as bv16, s, ei);
        }
      } else {
        SkipKeepsTop(table, k as bv16, s, ei);
      }
    }

    method BuildTable()
      requires Shaped()
      modifies this, keyList, keyPrio, keyCount
      ensures ready && Built()
    {
      hide Priority, KeyMatch, Outranks, Ranked;
      hide TopList;
      for k := 0 to KEY12_SPACE {
        keyCount[k] := 0;
      }
      for k := 0 to KEY12_SPACE
        invariant forall k' :: 0 <= k' < k ==> KeyBuilt(k')
      {
        var cnt: nat := 0;
        EmptyTop(table, k as bv16);
        assert Slots(k, 0) == [];
        for ei := 0 to |table|
          invariant cnt <= MAX_PER_KEY
          invariant TopList(table, k as bv16, ei, Slots(k, cnt)) && PrioritiesParallel(k, cnt)
          invariant forall k' :: 0 <= k' < k ==> KeyBuilt(k')
        {
          label L:
          cnt := Offer(k, cnt, ei);
          forall k' | 0 <= k' < k
            ensures KeyBuilt(k')
          {
            assert old@L(KeyBuilt(k'));
            assert Slots(k', keyCount[k']) == old@L(Slots(k', keyCount[k']));
          }
        }
        label M:
        keyCount[k] := cnt;
        forall k' | 0 <= k' < k
          ensures KeyBuilt(k')
        {
          assert old@M(KeyBuilt(k'));
        }
      }
      ready := true;
    }

    /** Walks the candidate list of the instruction's key; `selected` is the row the loop stops at. */
    method Decode(instr: bv32, condition: bv4 -> bool) returns (action: Action, selected: Option<nat>)
      requires Shaped() && (ready ==> Built())
      modifies this, keyList, keyPrio, keyCount
      ensures ready && Built()
      ensures old(ready) ==> unchanged(keyList) && unchanged(keyPrio) && unchanged(keyCount)
      ensures selected == Selection(table, instr)
      ensures action == ActionOf(table, instr, condition, selected)
    {
      hide Priority, KeyMatch, ExactMatch, Key12, Selection, TopList;
      if !ready {
        BuildTable();
      }
      var k := Key12Index(instr);
      assert KeyBuilt(k);
      var cnt := keyCount[k];
      ghost var s := Slots(k, cnt);
      CandidatesInTable(table, Key12(instr), s);
      for i := 0 to cnt
        modifies {}
        invariant forall j :: 0 <= j < i ==> !ExactMatch(table[s[j]], instr)
      {
        assert keyList[k, i] == s[i];
        var ent := table[keyList[k, i]];
        ExactMatchDef(ent, instr);
        if ent.xmask32 != 0 && instr & ent.xmask32 != ent.xvalue32 {
          continue;
        }
        selected := Some(keyList[k, i]);
        action := Run(keyList[k, i]);
        WalkSelects(table, instr, s, selected);
        if ent.checkCond {
          var cond := ((instr >> 28) & 0xF) as bv4;
          if cond != COND_AL {
            if !condition(cond) {
              action := Nop;
            }
          }
        }
        return;
      }
      WalkSelects(table, instr, s, None);
      return Unknown, None;
    }
  }
}
