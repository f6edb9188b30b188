/** The device bus: attach refuses overlaps, so lookups find the one owner of an address. */
module DeviceBus {
  import opened Options
  import opened Words

  const MAX_DEVS := 32

  datatype Device = Device(base: u32, size: u32)

  /** Addresses the lookup gives to d. */
  predicate Owns(d: Device, addr: u32) { Wrap(addr as int - d.base) < d.size }

  /** The end address still fits in 32 bits. */
  predicate Plain(d: Device) { d.base + d.size < TWO32 }

  /** src/hw/hw_bus.c: on end addresses as computed, in 32 bits. */
  predicate Overlaps(a: Device, b: Device) {
    var a1, b1 := Wrap(a.base as int + a.size), Wrap(b.base as int + b.size);
    !(b1 <= a.base || a1 <= b.base)
  }

  predicate Disjoint(a: Device, b: Device) { forall addr: u32 :: !(Owns(a, addr) && Owns(b, addr)) }

  lemma OwnsPlain(d: Device, addr: u32)
    requires Plain(d)
    ensures Owns(d, addr) <==> d.base <= addr < d.base + d.size
  {
  }

  /** For plain regions the test is exact as far as shared addresses go. */
  lemma OverlapTest(a: Device, b: Device)
    requires Plain(a) && Plain(b)
    ensures !Overlaps(a, b) ==> Disjoint(a, b)
    ensures Overlaps(a, b) && a.size > 0 && b.size > 0 ==> !Disjoint(a, b)
  {
    hide Owns, Wrap;
    WrapSmall(a.base as int + a.size);
    WrapSmall(b.base as int + b.size);
    forall addr: u32
      ensures Owns(a, addr) <==> a.base <= addr < a.base + a.size
      ensures Owns(b, addr) <==> b.base <= addr < b.base + b.size
    {
      OwnsPlain(a, addr);
      OwnsPlain(b, addr);
    }
    var shared: u32 := if a.base < b.base then b.base else a.base;
    if Overlaps(a, b) && a.size > 0 && b.size > 0 { assert Owns(a, shared) && Owns(b, shared); }
  }

  /** A region is plain exactly when the test can be trusted with it: no plain region, and no second copy of it, passes
      the test while sharing an address with it. */
  lemma TestTrustedIffPlain(d: Device)
    ensures Plain(d) <==> forall b: Device :: (Plain(b) || b == d) && !Overlaps(d, b) ==> Disjoint(d, b)
  {
    hide Disjoint, Overlaps;
    if Plain(d) {
      forall b: Device | Plain(b) && !Overlaps(d, b)
        ensures Disjoint(d, b)
      {
        OverlapTest(d, b);
      }
    } else {
      WrappingEscapes(d);
    }
  }

  lemma WrappingEscapes(d: Device)
    requires !Plain(d)
    ensures !Overlaps(d, d) && !Disjoint(d, d)
  {
    assert Owns(d, d.base);
  }

  ghost predicate PairwiseDisjoint(devs: seq<Device>) {
    forall i, j :: 0 <= i < j < |devs| ==> Disjoint(devs[i], devs[j])
  }

  /** The first device that owns the address. */
  function Lookup(devs: seq<Device>, addr: u32): Option<Device> {
    if devs == [] then None else if Owns(devs[0], addr) then Some(devs[0]) else Lookup(devs[1..], addr)
  }

  /** With disjoint regions, lookup answers d exactly when d is attached and owns the address. */
  lemma {:induction false} LookupOwner(devs: seq<Device>, addr: u32)
    requires PairwiseDisjoint(devs)
    ensures forall d :: Lookup(devs, addr) == Some(d) <==> d in devs && Owns(d, addr)
  {
    hide Owns;
    if devs == [] {
    } else {
      assert PairwiseDisjoint(devs[1..]);
      LookupOwner(devs[1..], addr);
      assert devs == [devs[0]] + devs[1..];
      forall d | d in devs[1..] && Owns(devs[0], addr)
        ensures !Owns(d, addr)
      {
        var j :| 0 <= j < |devs[1..]| && devs[1..][j] == d;
        assert Disjoint(devs[0], devs[j + 1]);
      }
    }
  }

  /** Lookup does not depend on the order of attachment. */
  lemma LookupOrderFree(devs: seq<Device>, other: seq<Device>, addr: u32)
    requires PairwiseDisjoint(devs) && PairwiseDisjoint(other) && forall d :: d in devs <==> d in other
    ensures Lookup(devs, addr) == Lookup(other, addr)
  {
    LookupOwner(devs, addr);
    LookupOwner(other, addr);
  }

  // ---- attaching ----

  /** There is room, and no attached device overlaps the new one. */
  predicate Admits(devs: seq<Device>, d: Device) {
    |devs| < MAX_DEVS && forall e :: e in devs ==> !Overlaps(e, d)
  }

  function Admit(devs: seq<Device>, d: Device): seq<Device> { if Admits(devs, d) then devs + [d] else devs }

  function AdmitAll(devs: seq<Device>, ds: seq<Device>): seq<Device>
    decreases |ds|
  {
    if ds == [] then devs else AdmitAll(Admit(devs, ds[0]), ds[1..])
  }

  ghost predicate Safe(devs: seq<Device>) {
    (forall d :: d in devs ==> Plain(d)) && PairwiseDisjoint(devs)
  }

  lemma AdmitSafe(devs: seq<Device>, d: Device)
    requires Safe(devs) && Plain(d)
    ensures Safe(Admit(devs, d))
  {
    hide Owns, Overlaps, Disjoint;
    if Admits(devs, d) {
      forall j | 0 <= j < |devs|
        ensures Disjoint(devs[j], d)
      {
        OverlapTest(devs[j], d);
      }
    }
  }

  lemma {:induction false} AdmitAllSafe(devs: seq<Device>, ds: seq<Device>)
    requires Safe(devs) && forall i :: 0 <= i < |ds| ==> Plain(ds[i])
    ensures Safe(AdmitAll(devs, ds))
    decreases |ds|
  {
    hide Admit, Safe, Plain;
    if ds == [] {
    } else {
      AdmitSafe(devs, ds[0]);
      AdmitAllSafe(Admit(devs, ds[0]), ds[1..]);
    }
  }

  /** After any attempts to attach plain regions, an address has at most one owner, and lookup answers it. */
  lemma OneOwner(ds: seq<Device>, addr: u32)
    requires forall i :: 0 <= i < |ds| ==> Plain(ds[i])
    ensures var devs := AdmitAll([], ds);
      && (forall i, j :: 0 <= i < j < |devs| ==> !(Owns(devs[i], addr) && Owns(devs[j], addr)))
      && (forall d :: Lookup(devs, addr) == Some(d) <==> d in devs && Owns(d, addr))
  {
    hide Owns, Plain, AdmitAll, Lookup;
    AdmitAllSafe([], ds);
    var devs := AdmitAll([], ds);
    forall i, j | 0 <= i < j < |devs|
      ensures !(Owns(devs[i], addr) && Owns(devs[j], addr))
    {
      assert Disjoint(devs[i], devs[j]);
    }
    LookupOwner(devs, addr);
  }

  // ---- order of attachment ----

  /** No two of the devices overlap, in either order of comparison. */
  predicate NoOverlaps(ds: seq<Device>) { forall i, j :: 0 <= i < j < |ds| ==> !Overlaps(ds[i], ds[j]) }

  lemma {:induction false} AllAdmitted(devs: seq<Device>, ds: seq<Device>)
    requires |devs| + |ds| <= MAX_DEVS && NoOverlaps(devs + ds)
    ensures AdmitAll(devs, ds) == devs + ds
    decreases |ds|
  {
    hide Overlaps;
    if ds == [] {
      assert devs + ds == devs;
    } else {
      var all := devs + ds;
      assert all[|devs|] == ds[0];
      forall e | e in devs
        ensures !Overlaps(e, ds[0])
      {
        var i :| 0 <= i < |devs| && devs[i] == e;
        assert all[i] == e;
      }
      assert (devs + [ds[0]]) + ds[1..] == all;
      AllAdmitted(devs + [ds[0]], ds[1..]);
    }
  }

  lemma OverlapsSymmetric(a: Device, b: Device)
    ensures Overlaps(a, b) == Overlaps(b, a)
  {
  }

  /** A value that occurs twice has two places. */
  lemma {:induction false} TwoPlaces(s: seq<Device>, d: Device) returns (i: nat, j: nat)
    requires multiset(s)[d] >= 2
    ensures i < j < |s| && s[i] == d && s[j] == d
  {
    var n := |s| - 1;
    assert s == s[..n] + [s[n]];
    if s[n] == d {
      assert d in s[..n];
      i :| 0 <= i < n && s[..n][i] == d;
      j := n;
    } else {
      i, j := TwoPlaces(s[..n], d);
    }
  }

  lemma TwoOccur(s: seq<Device>, i: nat, j: nat)
    requires i < j < |s| && s[i] == s[j]
    ensures multiset(s)[s[i]] >= 2
  {
    assert s == s[..j] + s[j..];
    assert s[..j][i] == s[i] && s[j..][0] == s[j];
    assert multiset(s[..j])[s[i]] >= 1 && multiset(s[j..])[s[i]] >= 1;
  }

  lemma PermutedNoOverlaps(ds: seq<Device>, es: seq<Device>)
    requires NoOverlaps(ds) && multiset(ds) == multiset(es)
    ensures NoOverlaps(es)
  {
    hide Overlaps;
    forall i, j | 0 <= i < j < |es|
      ensures !Overlaps(es[i], es[j])
    {
      if es[i] == es[j] {
        TwoOccur(es, i, j);
        var a, b := TwoPlaces(ds, es[i]);
      } else {
        assert es[i] in multiset(ds) && es[j] in multiset(ds);
        var a :| 0 <= a < |ds| && ds[a] == es[i];
        var b :| 0 <= b < |ds| && ds[b] == es[j];
        OverlapsSymmetric(es[i], es[j]);
      }
    }
  }

  /** Devices that do not overlap, attached in any order: all are attached, and every lookup answers alike. */
  lemma AttachOrderFree(ds: seq<Device>, es: seq<Device>, addr: u32)
    requires |ds| <= MAX_DEVS && NoOverlaps(ds) && multiset(ds) == multiset(es)
    requires forall i :: 0 <= i < |ds| ==> Plain(ds[i])
    ensures AdmitAll([], ds) == ds && AdmitAll([], es) == es
    ensures Lookup(AdmitAll([], ds), addr) == Lookup(AdmitAll([], es), addr)
  {
    hide Overlaps, Plain, Lookup;
    PermutedNoOverlaps(ds, es);
    assert |es| == |multiset(es)| == |ds|;
    assert [] + ds == ds && [] + es == es;
    AllAdmitted([], ds);
    AllAdmitted([], es);
    SamePlain(ds, es);
    AdmitAllSafe([], ds);
    AdmitAllSafe([], es);
    assert forall d :: d in ds <==> d in multiset(ds);
    assert forall d :: d in es <==> d in multiset(es);
    LookupOrderFree(ds, es, addr);
  }

  lemma SamePlain(ds: seq<Device>, es: seq<Device>)
    requires multiset(ds) == multiset(es) && forall i :: 0 <= i < |ds| ==> Plain(ds[i])
    ensures forall i :: 0 <= i < |es| ==> Plain(es[i])
  {
    hide Plain;
    forall i | 0 <= i < |es|
      ensures Plain(es[i])
    {
      assert es[i] in multiset(ds);
    }
  }

  class HwBus {
    const devs: array<Device>
    var n: nat

    constructor ()
      ensures Valid() && Attached() == [] && fresh(devs)
    {
      devs := new Device[MAX_DEVS](_ => Device(0, 0));
      n := 0;
    }

    predicate Valid()
      reads this
    {
      devs.Length == MAX_DEVS && n <= MAX_DEVS
    }

    function Attached(): seq<Device>
      requires Valid()
      reads this, devs
    {
      devs[..n]
    }

    /** A refused device changes nothing. */
    method Attach(d: Device) returns (ok: bool)
      requires Valid()
      modifies this, devs
      ensures Valid()
      ensures ok <==> Admits(old(Attached()), d)
      ensures Attached() == Admit(old(Attached()), d)
    {
      hide Overlaps;
      if n >= MAX_DEVS { return false; }
      for i := 0 to n
        invariant forall j :: 0 <= j < i ==> !Overlaps(devs[j], d)
        modifies {}
      {
        if Overlaps(devs[i], d) {
          assert devs[i] in Attached();
          return false;
        }
      }
      ghost var before := Attached();
      devs[n] := d;
      n := n + 1;
      assert Attached() == before + [d];
      return true;
    }

    method Find(addr: u32) returns (d: Option<Device>, off: u32)
      requires Valid()
      ensures d == Lookup(Attached(), addr)
      ensures d.Some? ==> off == Wrap(addr as int - d.value.base) && off < d.value.size
    {
      for i := 0 to n
        invariant Lookup(devs[..n][i..], addr) == Lookup(Attached(), addr)
      {
        var dev := devs[i];
        assert devs[..n][i..][0] == dev && devs[..n][i..][1..] == devs[..n][i + 1..];
        if Wrap(addr as int - dev.base) < dev.size {
          return Some(dev), Wrap(addr as int - dev.base);
        }
      }
      return None, 0;
    }

    /** Any sequence of attach attempts. */
    method AttachAll(ds: seq<Device>)
      requires Valid()
      modifies this, devs
      ensures Valid() && Attached() == AdmitAll(old(Attached()), ds)
    {
      hide Admit;
      for i := 0 to |ds|
        invariant Valid()
        invariant AdmitAll(Attached(), ds[i..]) == AdmitAll(old(Attached()), ds)
      {
        assert ds[i..][0] == ds[i] && ds[i..][1..] == ds[i + 1..];
        var ok := Attach(ds[i]);
      }
    }
  }
}
