/** Session variables: a growable key/value array, refining a finite map. */
module SessionVariables {
  import opened Options

  /** A slot; both strings are absent in an unused one. */
  datatype Kv = Kv(key: Option<string>, val: Option<string>)

  const UNUSED := Kv(None, None)

  /** Which of the three allocations of one call would succeed. */
  datatype Allocations = Allocations(slots: bool, key: bool, val: bool)

  /** The used slots hold distinct, non-empty keys, each with a value. */
  ghost predicate WellFormed(s: seq<Kv>) {
    && (forall i :: 0 <= i < |s| ==> s[i].key.Some? && s[i].key.value != "" && s[i].val.Some?)
    && (forall i, j :: 0 <= i < j < |s| ==> s[i].key != s[j].key)
  }

  /** The map the used slots stand for. */
  ghost function MapOf(s: seq<Kv>): map<string, string>
    requires WellFormed(s)
  {
    map i | 0 <= i < |s| :: s[i].key.value := s[i].val.value
  }

  lemma MapOfAppend(s: seq<Kv>, k: string, v: string)
    requires WellFormed(s) && k != "" && forall i :: 0 <= i < |s| ==> s[i].key != Some(k)
    ensures WellFormed(s + [Kv(Some(k), Some(v))])
    ensures MapOf(s + [Kv(Some(k), Some(v))]) == MapOf(s)[k := v]
  {
    var t := s + [Kv(Some(k), Some(v))];
    assert t[|s|].key == Some(k);
    forall i | 0 <= i < |s| ensures t[i] == s[i] {}
  }

  lemma MapOfReplace(s: seq<Kv>, i: nat, v: string)
    requires WellFormed(s) && i < |s|
    ensures WellFormed(s[i := s[i].(val := Some(v))])
    ensures MapOf(s[i := s[i].(val := Some(v))]) == MapOf(s)[s[i].key.value := v]
  {
    var t := s[i := s[i].(val := Some(v))];
    forall j | 0 <= j < |s| ensures t[j].key == s[j].key {}
  }

  lemma KeysDistinct(s: seq<Kv>, i: nat, j: nat)
    requires WellFormed(s) && i < |s| && j < |s| && i != j
    ensures s[i].key.value != s[j].key.value
  {
    var a, b := if i < j then i else j, if i < j then j else i;
    assert s[a].key != s[b].key;
  }

  lemma MapEntry(s: seq<Kv>, j: nat)
    requires WellFormed(s) && j < |s|
    ensures s[j].key.Some? && s[j].val.Some?
    ensures s[j].key.value in MapOf(s) && MapOf(s)[s[j].key.value] == s[j].val.value
  {
    var k := s[j].key.value;
    var i :| 0 <= i < |s| && s[i].key.value == k && MapOf(s)[k] == s[i].val.value;
    if i != j { KeysDistinct(s, i, j); }
  }

  lemma MapKey(s: seq<Kv>, k: string) returns (j: nat)
    requires WellFormed(s) && k in MapOf(s)
    ensures j < |s| && s[j].key == Some(k)
  {
    j :| 0 <= j < |s| && s[j].key.value == k;
  }

  /** The slots after moving the last into slot i and dropping the end. */
  lemma SwapRemoved(s: seq<Kv>, i: nat, t: seq<Kv>)
    requires WellFormed(s) && i < |s| && t == s[i := s[|s| - 1]][..|s| - 1]
    ensures |t| == |s| - 1 && forall j :: 0 <= j < |t| ==> t[j] == if j == i then s[|s| - 1] else s[j]
    ensures WellFormed(t)
  {
    forall j | 0 <= j < |t|
      ensures t[j] == if j == i then s[|s| - 1] else s[j]
    {
    }
  }

  /** Moving the last slot into slot i and dropping the end removes exactly slot i's key. */
  lemma MapOfSwapRemove(s: seq<Kv>, i: nat)
    requires WellFormed(s) && i < |s|
    ensures var t := s[i := s[|s| - 1]][..|s| - 1];
      WellFormed(t) && MapOf(t) == MapOf(s) - {s[i].key.value}
  {
    var n := |s| - 1;
    var t := s[i := s[n]][..n];
    SwapRemoved(s, i, t);
    MapEntry(s, i);
    var a, b := MapOf(t), MapOf(s) - {s[i].key.value};
    hide MapOf, WellFormed;
    forall k | k in a
      ensures k in b && b[k] == a[k]
    {
      var j := MapKey(t, k);
      var m := if j == i then n else j;
      KeysDistinct(s, m, i);
      MapEntry(t, j);
      MapEntry(s, m);
    }
    forall k | k in b
      ensures k in a
    {
      var j := MapKey(s, k);
      MapEntry(t, if j == n then i else j);
    }
    assert a.Keys == b.Keys;
  }

  class Session {
    var items: array<Kv>
    var count: nat
    var cap: nat

    constructor ()
      ensures Valid() && Vars() == map[] && fresh(items)
    {
      items := new Kv[0];
      count, cap := 0, 0;
    }

    ghost predicate Valid()
      reads this, items
    {
      count <= cap == items.Length && WellFormed(items[..count])
    }

    ghost function Vars(): map<string, string>
      requires Valid()
      reads this, items
    {
      MapOf(items[..count])
    }

    /** kv_find: the slot that holds the key, or -1. */
    method Find(key: string) returns (idx: int)
      requires Valid()
      ensures -1 <= idx < count
      ensures idx >= 0 ==> items[idx].key == Some(key)
      ensures idx == -1 ==> forall i :: 0 <= i < count ==> items[i].key != Some(key)
      ensures idx >= 0 <==> key in Vars()
    {
      ghost var s := items[..count];
      for i := 0 to count
        invariant forall j :: 0 <= j < i ==> items[j].key != Some(key)
      {
        if items[i].key.Some? && items[i].key.value == key {
          assert s[i].key == Some(key);
          return i;
        }
      }
      assert forall j :: 0 <= j < count ==> s[j] == items[j];
      return -1;
    }

    /** kv_reserve: doubles, starting from 16, until the wanted capacity is reached. */
    method Reserve(want: nat, alloc: bool) returns (ok: bool)
      requires Valid()
      modifies this
      ensures Valid() && count == old(count)
      ensures ok == (old(cap) >= want || alloc)
      ensures ok ==> cap >= want
      ensures items[..count] == old(items[..count])
      ensures items == old(items) || fresh(items)
    {
      hide WellFormed;
      if cap >= want { return true; }
      var newCap := if cap != 0 then cap * 2 else 16;
      if newCap < want { newCap := want; }
      if !alloc { return false; }
      var p := new Kv[newCap](_ => UNUSED);
      forall i | 0 <= i < cap {
        p[i] := items[i];
      }
      assert p[..count] == items[..count];
      items, cap := p, newCap;
      assert items[..count] == old(items[..count]);
      return true;
    }

    /** session_get; no key, no value. */
    method Get(key: Option<string>) returns (val: Option<string>)
      requires Valid()
      ensures val == if key.Some? && key.value in Vars() then Some(Vars()[key.value]) else None
    {
      if key.None? { return None; }
      var idx := Find(key.value);
      if idx < 0 { return None; }
      assert items[..count][idx].key == key;
      return items[idx].val;
    }

    /** session_set: updates exactly one key, or leaves the map as it was. */
    method Set(key: Option<string>, val: Option<string>, alloc: Allocations) returns (ok: bool)
      requires Valid()
      modifies this, items
      ensures Valid() && (items == old(items) || fresh(items))
      ensures ok <==>
        && key.Some? && key.value != ""
        && (if key.value in old(Vars()) then alloc.val
            else (old(count) < old(cap) || alloc.slots) && alloc.key && alloc.val)
      ensures ok ==> key.Some? && Vars() == old(Vars())[key.value := if val.Some? then val.value else ""]
      ensures !ok ==> Vars() == old(Vars())
    {
      hide MapOf, WellFormed;
      if key.None? || key.value == "" { return false; }
      var v := if val.Some? then val.value else "";
      ghost var s := items[..count];
      var idx := Find(key.value);
      if idx >= 0 {
        if !alloc.val { return false; }
        MapOfReplace(s, idx, v);
        items[idx] := items[idx].(val := Some(v));
        assert items[..count] == s[idx := s[idx].(val := Some(v))];
        return true;
      }
      var room := Reserve(count + 1, alloc.slots);
      if !room { return false; }
      items[count] := Kv(if alloc.key then key else None, if alloc.val then Some(v) else None);
      if items[count].key.None? || items[count].val.None? {
        items[count] := UNUSED;
        assert items[..count] == s;
        return false;
      }
      MapOfAppend(s, key.value, v);
      assert items[..count + 1] == s + [Kv(key, Some(v))];
      count := count + 1;
      return true;
    }

    /** session_unset: moves the last entry into the hole; removes exactly one key. */
    method Unset(key: Option<string>) returns (ok: bool)
      requires Valid()
      modifies this, items
      ensures Valid() && items == old(items)
      ensures ok <==> key.Some? && key.value in old(Vars())
      ensures ok ==> key.Some? && Vars() == old(Vars()) - {key.value}
      ensures !ok ==> Vars() == old(Vars())
    {
      hide MapOf, WellFormed;
      if key.None? { return false; }
      var i := Find(key.value);
      if i < 0 { return false; }
      ghost var s := items[..count];
      MapOfSwapRemove(s, i);
      if i != count - 1 {
        items[i] := items[count - 1];
        items[count - 1] := UNUSED;
      }
      count := count - 1;
      assert items[..count] == s[i := s[|s| - 1]][..|s| - 1];
      return true;
    }
  }

  // ---- whole traces ----

  lemma NoEmptyKey(s: Session)
    requires s.Valid()
    ensures "" !in s.Vars()
  {
  }

  datatype Request =
    | SetVar(key: Option<string>, val: Option<string>, alloc: Allocations)
    | UnsetVar(key: Option<string>)
    | GetVar(key: Option<string>)

  /** What one answered request does to the abstract map. A set fails without a key, or when an allocation it needs
      fails: the value's for a key already there, the key's and the value's for a new one. The slots'
      may be unneeded. */
  ghost predicate Follows(m: map<string, string>, q: Request, ok: bool, answer: Option<string>, m': map<string, string>)
  {
    match q
    case SetVar(key, val, alloc) =>
      && (ok ==> key.Some? && key.value != "" && alloc.val)
      && (key.Some? && key.value in m ==> (ok <==> alloc.val))
      && (key.Some? && key.value != "" && key.value !in m && alloc.key && alloc.val && alloc.slots ==> ok)
      && (ok && key.value !in m ==> alloc.key)
      && m' == if ok then m[key.value := if val.Some? then val.value else ""] else m
    case UnsetVar(key) =>
      (ok <==> key.Some? && key.value in m) && m' == (if key.Some? then m - {key.value} else m)
    case GetVar(key) =>
      m' == m && answer == if key.Some? && key.value in m then Some(m[key.value]) else None
  }

  /** Serves requests in order; `maps` is the run of the abstract map beside it. */
  method Serve(s: Session, requests: seq<Request>)
      returns (answers: seq<Option<string>>, oks: seq<bool>, ghost maps: seq<map<string, string>>)
    requires s.Valid()
    modifies s, s.items
    ensures s.Valid()
    ensures |answers| == |oks| == |requests| && |maps| == |requests| + 1
    ensures maps[0] == old(s.Vars()) && maps[|requests|] == s.Vars()
    ensures forall i :: 0 <= i < |requests| ==> Follows(maps[i], requests[i], oks[i], answers[i], maps[i + 1])
  {
    hide MapOf, WellFormed;
    answers, oks, maps := [], [], [s.Vars()];
    for i := 0 to |requests|
      invariant s.Valid() && (s.items == old(s.items) || fresh(s.items))
      invariant |answers| == |oks| == i && |maps| == i + 1
      invariant maps[0] == old(s.Vars()) && maps[i] == s.Vars()
      invariant forall j :: 0 <= j < i ==> Follows(maps[j], requests[j], oks[j], answers[j], maps[j + 1])
    {
      var ok, answer := true, None;
      match requests[i] {
        case SetVar(key, val, alloc) =>
          NoEmptyKey(s);
          ok := s.Set(key, val, alloc);
        case UnsetVar(key) =>
          ok := s.Unset(key);
          if key.Some? && !ok { assert maps[i] - {key.value} == maps[i]; }
        case GetVar(key) => answer := s.Get(key);
      }
      answers, oks, maps := answers + [answer], oks + [ok], maps + [s.Vars()];
    }
  }
}
