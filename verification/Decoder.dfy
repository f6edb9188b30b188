/** The K12 decoder: what a per-key candidate list must be, and what decoding means. */
module DecoderSpec {
  import opened Options
  import opened Popcount

  const KEY12_SPACE := 4096
  const MAX_PER_KEY := 16

  /** A seed rule. The handler is identified with the position of its row. */
  datatype Row = Row(mask12: bv16, value12: bv16, xmask32: bv32, xvalue32: bv32, checkCond: bool)

  function Key12(instr: bv32): bv16 {
    var op1 := (instr >> 25) & 0x7;
    var op2 := (instr >> 20) & 0x1F;
    var op3 := (instr >> 4) & 0x0F;
    ((op1 << 9) | (op2 << 4) | op3) as bv16
  }

  function Priority(row: Row): nat {
    (Popcnt16(row.mask12) + Popcnt32(row.xmask32)) as nat
  }

  predicate KeyTest(k: bv16, mask: bv16, value: bv16) { k & mask == value }

  predicate KeyMatch(row: Row, k: bv16) { KeyTest(k, row.mask12, row.value12) }

  predicate ExactMatch(row: Row, instr: bv32) {
    row.xmask32 == 0 || instr & row.xmask32 == row.xvalue32
  }

  predicate FullMatch(row: Row, instr: bv32) {
    KeyMatch(row, Key12(instr)) && ExactMatch(row, instr)
  }

  /** Higher priority first; between equals, the earlier row. */
  predicate Outranks(table: seq<Row>, i: nat, j: nat)
    requires i < |table| && j < |table|
  {
    Priority(table[i]) > Priority(table[j]) || (Priority(table[i]) == Priority(table[j]) && i < j)
  }

  predicate Ranked(table: seq<Row>, s: seq<nat>) {
    && (forall a :: 0 <= a < |s| ==> s[a] < |table|)
    && (forall a, b :: 0 <= a < b < |s| ==> Outranks(table, s[a], s[b]))
  }

  /** s holds the best sixteen (or all, if fewer) of the first n rows that match key k, best first. */
  ghost predicate TopList(table: seq<Row>, k: bv16, n: nat, s: seq<nat>) {
    && n <= |table|
    && |s| <= MAX_PER_KEY
    && Ranked(table, s)
    && (forall x :: x in s ==> x < n && KeyMatch(table[x], k))
    && (forall i :: 0 <= i < n && KeyMatch(table[i], k) && i !in s ==>
          |s| == MAX_PER_KEY && Outranks(table, s[MAX_PER_KEY - 1], i))
  }

  // ---- one insertion ----

  /** p is where row `e` goes when equal priorities keep the earlier row first. */
  predicate InsertionPoint(table: seq<Row>, s: seq<nat>, e: nat, p: nat) {
    && e < |table| && p <= |s|
    && (forall a :: 0 <= a < |s| ==> s[a] < |table|)
    && (forall a :: 0 <= a < p ==> Priority(table[s[a]]) >= Priority(table[e]))
    && (forall a :: p <= a < |s| ==> Priority(table[s[a]]) < Priority(table[e]))
  }

  function Inserted(s: seq<nat>, e: nat, p: nat): (t: seq<nat>)
    requires p <= |s|
    ensures |t| == |s| + 1 && t[p] == e
    ensures forall a :: 0 <= a < p ==> t[a] == s[a]
    ensures forall a :: p < a < |t| ==> t[a] == s[a - 1]
    ensures forall x :: x in t <==> x in s || x == e
  {
    var t := s[..p] + [e] + s[p..];
    assert forall a :: 0 <= a < |s| ==> s[a] == t[if a < p then a else a + 1];
    t
  }

  lemma InsertedPrefix(table: seq<Row>, s: seq<nat>, e: nat, p: nat)
    requires |s| == MAX_PER_KEY && e < |table| && s[MAX_PER_KEY - 1] < |table|
    requires InsertionPoint(table, s[..MAX_PER_KEY - 1], e, p)
    requires Priority(table[s[MAX_PER_KEY - 1]]) < Priority(table[e])
    ensures InsertionPoint(table, s, e, p)
    ensures Inserted(s[..MAX_PER_KEY - 1], e, p) == Inserted(s, e, p)[..MAX_PER_KEY]
  {
    hide Priority;
    var s' := s[..MAX_PER_KEY - 1];
    assert s == s' + [s[MAX_PER_KEY - 1]];
  }

  lemma RankedInserted(table: seq<Row>, s: seq<nat>, e: nat, p: nat)
    requires Ranked(table, s) && InsertionPoint(table, s, e, p)
    requires forall a :: 0 <= a < |s| ==> s[a] < e
    ensures Ranked(table, Inserted(s, e, p))
  {
    hide Priority;
    var t := Inserted(s, e, p);
    forall a, b | 0 <= a < b < |t|
      ensures Outranks(table, t[a], t[b])
    {
      if b < p { assert t[a] == s[a] && t[b] == s[b]; }
      else if b == p { assert t[a] == s[a]; }
      else if a < p { assert t[a] == s[a] && t[b] == s[b - 1]; }
      else if a == p { assert t[b] == s[b - 1]; }
      else { assert t[a] == s[a - 1] && t[b] == s[b - 1]; }
    }
  }

  lemma InsertKeepsTop(table: seq<Row>, k: bv16, s: seq<nat>, e: nat, p: nat)
    requires e < |table| && TopList(table, k, e, s) && KeyMatch(table[e], k)
    requires |s| < MAX_PER_KEY && InsertionPoint(table, s, e, p)
    ensures TopList(table, k, e + 1, Inserted(s, e, p))
  {
    hide Priority, KeyMatch, Outranks, Ranked;
    RankedInserted(table, s, e, p);
  }

  lemma EvictKeepsTop(table: seq<Row>, k: bv16, s: seq<nat>, e: nat, p: nat)
    requires e < |table| && TopList(table, k, e, s) && KeyMatch(table[e], k)
    requires |s| == MAX_PER_KEY && p < MAX_PER_KEY && InsertionPoint(table, s, e, p)
    ensures TopList(table, k, e + 1, Inserted(s, e, p)[..MAX_PER_KEY])
  {
    hide Priority, KeyMatch, Outranks;
    RankedInserted(table, s, e, p);
    var full := Inserted(s, e, p);
    var t := full[..MAX_PER_KEY];
    assert full == t + [full[MAX_PER_KEY]];
    forall i | 0 <= i < e + 1 && KeyMatch(table[i], k) && i !in t
      ensures Outranks(table, t[MAX_PER_KEY - 1], i)
    {
      if i in full {
        assert i == full[MAX_PER_KEY];
      } else {
        OutranksTransitive(table, t[MAX_PER_KEY - 1], full[MAX_PER_KEY], i);
      }
    }
  }

  lemma OutranksTransitive(table: seq<Row>, a: nat, b: nat, c: nat)
    requires a < |table| && b < |table| && c < |table|
    requires Outranks(table, a, b) && Outranks(table, b, c)
    ensures Outranks(table, a, c)
  {
    hide Priority;
  }

  lemma SkipKeepsTop(table: seq<Row>, k: bv16, s: seq<nat>, e: nat)
    requires e < |table| && TopList(table, k, e, s)
    requires KeyMatch(table[e], k) ==>
      |s| == MAX_PER_KEY && Priority(table[e]) <= Priority(table[s[MAX_PER_KEY - 1]])
    ensures TopList(table, k, e + 1, s)
  {
    hide Priority, KeyMatch;
  }

  lemma EmptyTop(table: seq<Row>, k: bv16)
    ensures TopList(table, k, 0, [])
  {
  }

  /** What a list of the best is, without its contents. */
  lemma TopRanked(table: seq<Row>, k: bv16, n: nat, s: seq<nat>)
    requires TopList(table, k, n, s)
    ensures Ranked(table, s) && (forall a :: 0 <= a < |s| ==> s[a] < |table|)
    ensures forall m :: 0 <= m <= |s| ==> Ranked(table, s[..m])
  {
    hide Priority, KeyMatch, Outranks;
  }

  lemma RankedPriorities(table: seq<Row>, s: seq<nat>)
    requires Ranked(table, s)
    ensures forall a, b :: 0 <= a < b < |s| ==> Priority(table[s[a]]) >= Priority(table[s[b]])
  {
    hide Priority;
  }

  // ---- decoding ----

  /** What the dispatcher does: run a row's handler, run the no-op handler, or report no handler. */
  datatype Action = Run(row: nat) | Nop | Unknown

  const COND_AL: bv4 := 14

  function Key12Index(instr: bv32): (k: nat)
    ensures k < KEY12_SPACE && k as bv16 == Key12(instr)
  {
    Key12Small(instr);
    Key12(instr) as nat
  }

  lemma Key12Small(instr: bv32)
    ensures Key12(instr) as nat < KEY12_SPACE
  {
  }

  lemma ExactMatchDef(row: Row, instr: bv32)
    ensures ExactMatch(row, instr) <==> !(row.xmask32 != 0 && instr & row.xmask32 != row.xvalue32)
  {
  }

  function ActionOf(table: seq<Row>, instr: bv32, condition: bv4 -> bool, selected: Option<nat>): Action
    requires selected.Some? ==> selected.value < |table|
  {
    match selected
    case None => Unknown
    case Some(i) =>
      var cond := ((instr >> 28) & 0xF) as bv4;
      if table[i].checkCond && cond != COND_AL && !condition(cond) then Nop else Run(i)
  }

  /** Reference: scan the whole table once, keeping the best full match met so far. */
  function LinearScan(table: seq<Row>, instr: bv32, n: nat): (r: Option<nat>)
    requires n <= |table|
    ensures r.Some? ==> r.value < n
  {
    if n == 0 then None
    else
      var best := LinearScan(table, instr, n - 1);
      if !FullMatch(table[n - 1], instr) then best
      else if best == None || Priority(table[n - 1]) > Priority(table[best.value]) then Some(n - 1)
      else best
  }

  lemma {:induction false} LinearScanIsBest(table: seq<Row>, instr: bv32, n: nat)
    requires n <= |table|
    ensures var r := LinearScan(table, instr, n);
      && (r == None ==> forall i :: 0 <= i < n ==> !FullMatch(table[i], instr))
      && (r.Some? ==> FullMatch(table[r.value], instr))
      && (r.Some? ==> forall i :: 0 <= i < n && i != r.value && FullMatch(table[i], instr) ==>
          Outranks(table, r.value, i))
  {
    hide Priority, FullMatch;
    if n == 0 {
    } else {
      LinearScanIsBest(table, instr, n - 1);
    }
  }

  /** The rows that match key k and come before row i in a full ranking. */
  function Rivals(table: seq<Row>, k: bv16, i: nat): set<nat>
    requires i < |table|
  {
    set j | 0 <= j < |table| && KeyMatch(table[j], k) && Outranks(table, j, i)
  }

  /** Sixteen better candidates for the key push row i out of the candidate list. */
  predicate CrowdedOut(table: seq<Row>, k: bv16, i: nat)
    requires i < |table|
  {
    |Rivals(table, k, i)| >= MAX_PER_KEY
  }

  function Elements(s: seq<nat>): set<nat> { set x | x in s }

  lemma {:induction false} DistinctSize(s: seq<nat>)
    requires forall a, b :: 0 <= a < b < |s| ==> s[a] != s[b]
    ensures |Elements(s)| == |s|
  {
    if s == [] {
    } else {
      var n := |s| - 1;
      DistinctSize(s[..n]);
      assert s == s[..n] + [s[n]];
      assert Elements(s) == Elements(s[..n]) + {s[n]};
    }
  }

  lemma RankedIsDistinct(table: seq<Row>, s: seq<nat>)
    requires Ranked(table, s)
    ensures forall a, b :: 0 <= a < b < |s| ==> s[a] != s[b]
  {
    forall a, b | 0 <= a < b < |s|
      ensures s[a] != s[b]
    {
      OutranksDistinct(table, s, a, b);
    }
  }

  lemma OutranksTotal(table: seq<Row>, i: nat, j: nat)
    requires i < |table| && j < |table| && i != j
    ensures Outranks(table, i, j) <==> !Outranks(table, j, i)
  {
    hide Priority;
  }

  /** A matching row is on the candidate list exactly when fewer than sixteen rivals come before it. */
  lemma ListedIffNotCrowded(table: seq<Row>, k: bv16, s: seq<nat>, i: nat)
    requires TopList(table, k, |table|, s) && i < |table| && KeyMatch(table[i], k)
    ensures i in s <==> !CrowdedOut(table, k, i)
  {
    hide Priority, KeyMatch, Outranks;
    var rivals := Rivals(table, k, i);
    RankedIsDistinct(table, s);
    if i in s {
      var a :| 0 <= a < |s| && s[a] == i;
      forall j | j in rivals
        ensures j in s[..a]
      {
        RivalIsListedBefore(table, k, s, a, j);
      }
      DistinctSize(s[..a]);
      SubsetSize(rivals, Elements(s[..a]));
    } else {
      var listed := Elements(s);
      forall x | x in listed
        ensures x in rivals
      {
        var b :| 0 <= b < |s| && s[b] == x;
        if b < MAX_PER_KEY - 1 {
          OutranksTransitive(table, x, s[MAX_PER_KEY - 1], i);
        }
      }
      DistinctSize(s);
      SubsetSize(listed, rivals);
    }
  }

  lemma {:induction false} SubsetSize(a: set<nat>, b: set<nat>)
    requires a <= b
    ensures |a| <= |b|
  {
    if a == {} {
    } else {
      var x :| x in a;
      SubsetSize(a - {x}, b - {x});
    }
  }

  lemma OutranksDistinct(table: seq<Row>, s: seq<nat>, a: nat, b: nat)
    requires Ranked(table, s) && a < b < |s|
    ensures s[a] != s[b]
  {
    OutranksIrreflexive(table, s[a]);
  }

  lemma RivalIsListedBefore(table: seq<Row>, k: bv16, s: seq<nat>, a: nat, j: nat)
    requires TopList(table, k, |table|, s) && a < |s| && j < |table|
    requires KeyMatch(table[j], k) && Outranks(table, j, s[a])
    ensures j in s[..a]
  {
    hide Priority, KeyMatch, Outranks;
    if j !in s {
      if a < MAX_PER_KEY - 1 { OutranksTransitive(table, s[a], s[MAX_PER_KEY - 1], j); }
      OutranksTotal(table, j, s[a]);
    } else {
      var b :| 0 <= b < |s| && s[b] == j;
      if b == a { OutranksIrreflexive(table, j); }
      if b > a {
        OutranksDistinct(table, s, a, b);
        OutranksTotal(table, j, s[a]);
      }
      assert s[..a][b] == j;
    }
  }

  lemma OutranksIrreflexive(table: seq<Row>, i: nat)
    requires i < |table|
    ensures !Outranks(table, i, i)
  {
    hide Priority;
  }

  /** What decoding through the candidate lists must select. */
  function Selection(table: seq<Row>, instr: bv32): (r: Option<nat>)
    ensures r.Some? ==> r.value < |table|
  {
    var w := LinearScan(table, instr, |table|);
    if w.Some? && !CrowdedOut(table, Key12(instr), w.value) then w else None
  }

  lemma CandidatesInTable(table: seq<Row>, k: bv16, s: seq<nat>)
    requires TopList(table, k, |table|, s)
    ensures forall a :: 0 <= a < |s| ==> s[a] < |table|
  {
  }

  predicate FirstExact(table: seq<Row>, instr: bv32, s: seq<nat>, r: Option<nat>)
    requires forall a :: 0 <= a < |s| ==> s[a] < |table|
  {
    match r
    case None => forall j :: 0 <= j < |s| ==> !ExactMatch(table[s[j]], instr)
    case Some(i) =>
      exists a :: 0 <= a < |s| && s[a] == i && ExactMatch(table[i], instr) &&
        forall j :: 0 <= j < a ==> !ExactMatch(table[s[j]], instr)
  }

  /** The first exact match along a key's candidate list is the linear scan's winner, unless that was crowded out. */
  lemma WalkSelects(table: seq<Row>, instr: bv32, s: seq<nat>, r: Option<nat>)
    requires TopList(table, Key12(instr), |table|, s) && FirstExact(table, instr, s, r)
    ensures r == Selection(table, instr)
  {
    hide Priority, KeyMatch, ExactMatch, Outranks, CrowdedOut, Key12;
    LinearScanIsBest(table, instr, |table|);
    var w := LinearScan(table, instr, |table|);
    if w.Some? {
      ListedIffNotCrowded(table, Key12(instr), s, w.value);
      if w.value in s {
        var b :| 0 <= b < |s| && s[b] == w.value;
        if r.Some? && r.value != w.value {
          var a :| 0 <= a < |s| && s[a] == r.value && forall j :: 0 <= j < a ==> !ExactMatch(table[s[j]], instr);
          assert a < b;
          OutranksTotal(table, w.value, r.value);
        }
      } else if r.Some? {
        assert Outranks(table, w.value, r.value);
        var a :| 0 <= a < |s| && s[a] == r.value;
        if a < MAX_PER_KEY - 1 { OutranksTransitive(table, r.value, s[MAX_PER_KEY - 1], w.value); }
        OutranksTotal(table, w.value, r.value);
      }
    }
  }

  // ---- consequences for whole tables ----

  function Matching(table: seq<Row>, k: bv16): set<nat> {
    set i | 0 <= i < |table| && KeyMatch(table[i], k)
  }

  /** A listed row sits in the slot numbered by how many rivals it has, so the list is determined by the table. */
  lemma SlotIsRank(table: seq<Row>, k: bv16, s: seq<nat>, a: nat)
    requires TopList(table, k, |table|, s) && a < |s|
    ensures |Rivals(table, k, s[a])| == a
  {
    hide Priority, KeyMatch, Outranks;
    var rivals := Rivals(table, k, s[a]);
    RankedIsDistinct(table, s);
    forall j | j in rivals
      ensures j in Elements(s[..a])
    {
      RivalIsListedBefore(table, k, s, a, j);
    }
    assert rivals == Elements(s[..a]);
    DistinctSize(s[..a]);
  }

  /** The list holds min(16, m) of the m matching rows. */
  lemma ListLength(table: seq<Row>, k: bv16, s: seq<nat>)
    requires TopList(table, k, |table|, s)
    ensures |s| == if |Matching(table, k)| < MAX_PER_KEY then |Matching(table, k)| else MAX_PER_KEY
  {
    hide Priority, KeyMatch, Outranks;
    RankedIsDistinct(table, s);
    DistinctSize(s);
    SubsetSize(Elements(s), Matching(table, k));
    if |s| < MAX_PER_KEY { assert Elements(s) == Matching(table, k); }
  }

  /** If no key has more than sixteen matching rows, decoding is the linear scan. */
  lemma NoOverflowDecodesLikeScan(table: seq<Row>, instr: bv32)
    requires |Matching(table, Key12(instr))| <= MAX_PER_KEY
    ensures Selection(table, instr) == LinearScan(table, instr, |table|)
  {
    hide Priority, KeyMatch, ExactMatch, Outranks, Key12;
    LinearScanIsBest(table, instr, |table|);
    var w := LinearScan(table, instr, |table|);
    if w.Some? {
      var k := Key12(instr);
      var rivals := Rivals(table, k, w.value);
      OutranksIrreflexive(table, w.value);
      SubsetSize(rivals + {w.value}, Matching(table, k));
    }
  }

  predicate StrictlyExtends(long: Row, short: Row) {
    && short.mask12 & long.mask12 == short.mask12
    && short.xmask32 & long.xmask32 == short.xmask32
    && (long.mask12 != short.mask12 || long.xmask32 != short.xmask32)
  }

  lemma PriorityIsWeight(row: Row)
    ensures Priority(row) == Weight16(row.mask12) + Weight32(row.xmask32)
  {
    hide Popcnt16, Popcnt32, Weight16, Weight32;
    Popcnt16Exact(row.mask12);
    Popcnt32Exact(row.xmask32);
    WeightBounds(row.mask12, row.xmask32);
    ByteSum(Popcnt16(row.mask12), Popcnt32(row.xmask32));
  }

  lemma WeightBounds(x: bv16, y: bv32)
    ensures Weight16(x) <= 16 && Weight32(y) <= 32
  {
    hide Lane, Lane16;
  }

  lemma ByteSum(a: bv8, b: bv8)
    requires a as nat <= 16 && b as nat <= 32
    ensures (a + b) as nat == a as nat + b as nat
  {
    assert a <= 16 && b <= 32;
  }

  lemma PriorityStrict(long: Row, short: Row)
    requires StrictlyExtends(long, short)
    ensures Priority(long) > Priority(short)
  {
    hide Priority, Weight16, Weight32;
    PriorityIsWeight(long);
    PriorityIsWeight(short);
    Submask16(short.mask12, long.mask12);
    Submask32(short.xmask32, long.xmask32);
  }

  /** The SWAR counts are exact, so masks that strictly extend another row's always win over that row. */
  lemma LongerMasksWin(table: seq<Row>, instr: bv32, i: nat, j: nat)
    requires i < |table| && j < |table| && StrictlyExtends(table[i], table[j]) && FullMatch(table[i], instr)
    ensures Priority(table[i]) > Priority(table[j])
    ensures LinearScan(table, instr, |table|) != Some(j)
  {
    hide Priority, FullMatch, StrictlyExtends;
    PriorityStrict(table[i], table[j]);
    LinearScanIsBest(table, instr, |table|);
  }

  // ---- rows no instruction can reach ----

  /** Where the twelve key bits come from in the instruction word. */
  function Spread(k: bv16): bv32 {
    var w := k as bv32;
    (((w >> 9) & 0x7) << 25) | (((w >> 4) & 0x1F) << 20) | ((w & 0xF) << 4)
  }

  /** The row's two tests can be met together. */
  predicate Satisfiable(row: Row) {
    && Attainable(row.value12, row.mask12)
    && (row.xmask32 != 0 ==> Compatible(Spread(row.value12), Spread(row.mask12), row.xvalue32, row.xmask32))
  }

  /** A twelve-bit key can agree with v under mask m. */
  predicate Attainable(v: bv16, m: bv16) {
    v & !m == 0 && v & 0xF000 == 0
  }

  /** A word can agree with v under mask m and with xv under mask xm. */
  predicate Compatible(v: bv32, m: bv32, xv: bv32, xm: bv32) {
    xv & !xm == 0 && (v ^ xv) & m & xm == 0
  }

  function Outside(x: bv32, m: bv32): bv32 { x & !m }

  function Joined(x: bv32, y: bv32): bv32 { x | y }

  predicate Apart(x: bv32, y: bv32) { x & y == 0 }

  predicate ExactTest(instr: bv32, mask: bv32, value: bv32) { instr & mask == value }

  /** What a matching word has outside the key mask. */
  function WitnessRest(row: Row): bv32 {
    if row.xmask32 == 0 then 0 else Outside(row.xvalue32, Spread(row.mask12))
  }

  function Witness(row: Row): bv32 { Joined(Spread(row.value12), WitnessRest(row)) }

  /** Bits outside the row's key mask do not disturb its key test. */
  lemma WitnessKey(v: bv16, m: bv16, rest: bv32)
    requires Attainable(v, m) && Apart(rest, Spread(m))
    ensures KeyTest(Key12(Joined(Spread(v), rest)), m, v)
  {
  }

  lemma WitnessExact(sv: bv32, sm: bv32, xv: bv32, xm: bv32)
    requires Compatible(sv, sm, xv, xm) && Outside(sv, sm) == 0
    ensures ExactTest(Joined(sv, Outside(xv, sm)), xm, xv)
  {
  }

  lemma SpreadInside(v: bv16, m: bv16)
    requires Attainable(v, m)
    ensures Outside(Spread(v), Spread(m)) == 0
  {
  }

  lemma OutsideMask(x: bv32, m: bv32)
    ensures Apart(Outside(x, m), m) && Apart(0, m)
  {
  }

  lemma TestsMatch(row: Row, instr: bv32)
    requires KeyTest(Key12(instr), row.mask12, row.value12)
    requires row.xmask32 != 0 ==> ExactTest(instr, row.xmask32, row.xvalue32)
    ensures FullMatch(row, instr)
  {
    hide Key12, KeyTest;
  }

  lemma WitnessMatches(row: Row)
    requires Satisfiable(row)
    ensures FullMatch(row, Witness(row))
  {
    hide Key12, Spread, Compatible, Attainable, KeyTest, Outside, Joined, Apart, ExactTest, FullMatch;
    OutsideMask(row.xvalue32, Spread(row.mask12));
    WitnessKey(row.value12, row.mask12, WitnessRest(row));
    if row.xmask32 != 0 {
      SpreadInside(row.value12, row.mask12);
      WitnessExact(Spread(row.value12), Spread(row.mask12), row.xvalue32, row.xmask32);
    }
    TestsMatch(row, Witness(row));
  }

  /** A row is reachable exactly when its key test and its exact test do not contradict each other. */
  lemma ReachableIff(row: Row)
    ensures (exists instr :: FullMatch(row, instr)) <==> Satisfiable(row)
  {
    hide Satisfiable, FullMatch;
    if Satisfiable(row) {
      WitnessMatches(row);
    }
    forall instr | FullMatch(row, instr)
      ensures Satisfiable(row)
    {
      MatchSatisfies(row, instr);
    }
  }

  const KEY_BITS: bv32 := 0x0FF0_00F0

  lemma SpreadKey(instr: bv32)
    ensures Spread(Key12(instr)) == instr & KEY_BITS
    ensures Key12(instr) & 0xF000 == 0
  {
  }

  lemma SpreadAnd(k: bv16, m: bv16, v: bv16)
    requires k & m == v && k & 0xF000 == 0
    ensures Spread(v) == Spread(k) & Spread(m)
    ensures Spread(m) & KEY_BITS == Spread(m)
    ensures Attainable(v, m)
  {
  }

  /** The key test in terms of the instruction word. */
  predicate KeyAgrees(instr: bv32, v: bv16, m: bv16) {
    Spread(v) == (instr & KEY_BITS) & Spread(m) && Spread(m) & KEY_BITS == Spread(m)
  }

  lemma KeyPart(instr: bv32, v: bv16, m: bv16)
    requires KeyTest(Key12(instr), m, v)
    ensures Attainable(v, m) && KeyAgrees(instr, v, m)
  {
    hide Key12, Spread, Attainable;
    SpreadKey(instr);
    SpreadAnd(Key12(instr), m, v);
  }

  lemma ExactPart(instr: bv32, v: bv16, m: bv16, xmask: bv32, xv: bv32)
    requires KeyAgrees(instr, v, m) && ExactTest(instr, xmask, xv)
    ensures Compatible(Spread(v), Spread(m), xv, xmask)
  {
    hide Spread;
  }

  lemma MatchTests(row: Row, instr: bv32)
    requires FullMatch(row, instr)
    ensures KeyTest(Key12(instr), row.mask12, row.value12)
    ensures row.xmask32 != 0 ==> ExactTest(instr, row.xmask32, row.xvalue32)
  {
    hide Key12, KeyTest;
  }

  lemma MatchSatisfies(row: Row, instr: bv32)
    requires FullMatch(row, instr)
    ensures Satisfiable(row)
  {
    hide Key12, Spread, Compatible, Attainable, KeyTest, FullMatch, ExactTest, KeyAgrees;
    MatchTests(row, instr);
    KeyPart(instr, row.value12, row.mask12);
    if row.xmask32 != 0 {
      ExactPart(instr, row.value12, row.mask12, row.xmask32, row.xvalue32);
    }
  }
}
