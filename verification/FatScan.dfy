/**
  * Scanning a directory on the device, sector by sector: the first free slot, and the first slot
  * that carries a name.
  */
module FatScan {
  import opened FatLayout
  import opened FatDirectory

  /** How a search ends: at a hit, at an end slot, or off the end of the directory. */
  ghost predicate NoHitIn(slots: seq<Slot>, name: Name, longToo: bool)
  {
    PassedHits(slots, name, longToo, |slots|)
    || exists n: nat :: n < |slots| && IsEnd(slots[n]) && PassedHits(slots, name, longToo, n)
  }

  lemma HitOrNot(slots: seq<Slot>, name: Name, longToo: bool, r: nat)
    requires FirstHit(slots, name, longToo, r)
    ensures !NoHitIn(slots, name, longToo)
  {
  }

  /** Passing over long-name slots, a search is the one that opening makes. */
  lemma FindIsFirstHit(slots: seq<Slot>, name: Name)
    ensures forall r: nat :: FirstHit(slots, name, false, r) ==> Find(slots, name) == r < |slots|
    ensures NoHitIn(slots, name, false) ==> Find(slots, name) == |slots|
  {
    forall r: nat | FirstHit(slots, name, false, r)
      ensures Find(slots, name) == r < |slots|
    {
      assert FirstMatch(slots, name, r);
      FindUnique(slots, name, r);
    }
    if NoHitIn(slots, name, false) && Find(slots, name) < |slots| {
      assert FirstMatch(slots, name, Find(slots, name));
      assert FirstHit(slots, name, false, Find(slots, name));
      HitOrNot(slots, name, false, Find(slots, name));
    }
  }

  /** A long-name slot whose eleven first bytes happen to be the name. */
  predicate Alias(s: Slot, name: Name) { !IsFree(s) && AttrOf(s) == ATTR_LFN && NameOf(s) == name }

  ghost predicate AliasFree(slots: seq<Slot>, name: Name, n: nat)
  {
    n <= |slots| && forall j :: 0 <= j < n ==> !Alias(slots[j], name)
  }

  /** The last step of writing takes the slot that opening finds exactly when no alias lies before
    * it; otherwise it takes an alias. */
  lemma PatchHit(slots: seq<Slot>, name: Name, at: nat)
    requires at < |slots| && Find(slots, name) == at
    ensures !NoHitIn(slots, name, true)
    ensures forall r: nat :: FirstHit(slots, name, true, r) ==>
      r <= at && (r == at <==> AliasFree(slots, name, at)) && (r < at ==> Alias(slots[r], name))
  {
    assert FirstMatch(slots, name, at);
    assert Hits(slots[at], name, true);
    forall r: nat | FirstHit(slots, name, true, r)
      ensures r <= at && (r == at <==> AliasFree(slots, name, at)) && (r < at ==> Alias(slots[r], name))
    {
      assert r < at ==> !Matches(slots[r], name);
      if j :| 0 <= j < at && Alias(slots[j], name) {
        assert Hits(slots[j], name, true);
      }
    }
  }

  /** A directory with a long-name slot whose bytes read as the name, and the name's own slot behind
    * it: the last step of writing takes the first. */
  lemma AliasTakesThePatch(name: Name) returns (slots: seq<Slot>)
    requires name[0] != 0 && name[0] != DELETED
    ensures |slots| == 2 && Find(slots, name) == 1 && FirstHit(slots, name, true, 0)
  {
    var long, own := NewSlot(name, ATTR_LFN, 0), NewSlot(name, ATTR_ARCHIVE, 0);
    assert NameOf(long)[0] == long[0] && NameOf(own)[0] == own[0];
    slots := [long, own];
    FindUnique(slots, name, 1);
  }

  // ── where a written entry goes ──

  /** The first slot that is free or carries the name. */
  ghost predicate IsPlace(slots: seq<Slot>, name: Name, r: nat)
  {
    && r <= |slots|
    && (r < |slots| ==> IsFree(slots[r]) || Matches(slots[r], name))
    && forall j :: 0 <= j < r ==> !IsFree(slots[j]) && !Matches(slots[j], name)
  }

  ghost function EntryPlace(slots: seq<Slot>, name: Name): (r: nat)
    ensures IsPlace(slots, name, r)
  {
    if slots == [] || IsFree(slots[0]) || Matches(slots[0], name) then 0
    else
      var r := EntryPlace(slots[1..], name);
      assert forall j :: 0 < j < |slots| ==> slots[j] == slots[1..][j - 1];
      r + 1
  }

  lemma PlaceUnique(slots: seq<Slot>, name: Name, r: nat)
    requires IsPlace(slots, name, r)
    ensures EntryPlace(slots, name) == r
  {
    var q := EntryPlace(slots, name);
    assert !(q < r) && !(r < q);
  }

  ghost predicate NoneFree(slots: seq<Slot>, n: nat)
  {
    n <= |slots| && forall j :: 0 <= j < n ==> !IsFree(slots[j])
  }

  // ── one sector ──

  datatype SectorScan = FoundAt(e: nat) | AtEnd | NotHere

  /** The slots of a sector before slot `e` are neither end slots nor hits. */
  ghost predicate SectorPassed(b: Sector, name: Name, longToo: bool, e: nat)
  {
    e <= SLOTS_PER_SECTOR && forall j :: 0 <= j < e ==> !IsEnd(SlotIn(b, j)) && !Hits(SlotIn(b, j), name, longToo)
  }

  method ScanSector(b: Sector, name: Name, longToo: bool) returns (r: SectorScan)
    ensures r.FoundAt? ==>
      r.e < SLOTS_PER_SECTOR && Hits(SlotIn(b, r.e), name, longToo) && SectorPassed(b, name, longToo, r.e)
    ensures r.AtEnd? ==> exists e ::
      0 <= e < SLOTS_PER_SECTOR && IsEnd(SlotIn(b, e)) && SectorPassed(b, name, longToo, e)
    ensures r.NotHere? ==> SectorPassed(b, name, longToo, SLOTS_PER_SECTOR)
  {
    for e := 0 to SLOTS_PER_SECTOR
      invariant SectorPassed(b, name, longToo, e)
    {
      var entry := SlotIn(b, e);
      if entry[0] == 0 {
        return AtEnd;
      }
      if entry[0] != DELETED && (longToo || AttrOf(entry) != ATTR_LFN) && NameOf(entry) == name {
        return FoundAt(e);
      }
    }
    r := NotHere;
  }

  method FreeInSector(b: Sector) returns (e: nat)
    ensures e <= SLOTS_PER_SECTOR && forall j :: 0 <= j < e ==> !IsFree(SlotIn(b, j))
    ensures e < SLOTS_PER_SECTOR ==> IsFree(SlotIn(b, e))
  {
    e := 0;
    while e < SLOTS_PER_SECTOR
      invariant e <= SLOTS_PER_SECTOR && forall j :: 0 <= j < e ==> !IsFree(SlotIn(b, j))
    {
      var first := b[e * SLOT_SIZE];
      if first == 0 || first == DELETED {
        return;
      }
      e := e + 1;
    }
  }

  // ── one sector further ──

  /** The slots of sector `j` of a row of sectors. */
  lemma RowSlots(secs: seq<Sector>, j: nat)
    requires j < |secs|
    ensures SLOTS_PER_SECTOR * (j + 1) <= |Slots(secs)|
    ensures forall e :: 0 <= e < SLOTS_PER_SECTOR ==> Slots(secs)[SLOTS_PER_SECTOR * j + e] == SlotIn(secs[j], e)
    ensures forall i :: SLOTS_PER_SECTOR * j <= i < SLOTS_PER_SECTOR * (j + 1) ==>
      Slots(secs)[i] == SlotIn(secs[j], i - SLOTS_PER_SECTOR * j)
  {
  }

  lemma FreeOn(secs: seq<Sector>, j: nat, e: nat)
    requires j < |secs| && NoneFree(Slots(secs), SLOTS_PER_SECTOR * j)
    requires e <= SLOTS_PER_SECTOR && forall x :: 0 <= x < e ==> !IsFree(SlotIn(secs[j], x))
    ensures NoneFree(Slots(secs), SLOTS_PER_SECTOR * j + e)
    ensures e < SLOTS_PER_SECTOR && IsFree(SlotIn(secs[j], e)) ==> FirstFree(Slots(secs), SLOTS_PER_SECTOR * j + e)
  {
    RowSlots(secs, j);
  }

  lemma HitOn(secs: seq<Sector>, j: nat, e: nat, name: Name, longToo: bool)
    requires j < |secs| && PassedHits(Slots(secs), name, longToo, SLOTS_PER_SECTOR * j)
    requires SectorPassed(secs[j], name, longToo, e)
    ensures PassedHits(Slots(secs), name, longToo, SLOTS_PER_SECTOR * j + e)
    ensures e < SLOTS_PER_SECTOR && Hits(SlotIn(secs[j], e), name, longToo) ==>
      FirstHit(Slots(secs), name, longToo, SLOTS_PER_SECTOR * j + e)
    ensures e < SLOTS_PER_SECTOR && IsEnd(SlotIn(secs[j], e)) ==> NoHitIn(Slots(secs), name, longToo)
  {
    RowSlots(secs, j);
    if e < SLOTS_PER_SECTOR && IsEnd(SlotIn(secs[j], e)) {
      assert IsEnd(Slots(secs)[SLOTS_PER_SECTOR * j + e]);
    }
  }

  // ── places on the device ──

  /** The sector number of slot `at` of a chain. */
  ghost function SlotLba(g: Geometry, ch: seq<nat>, at: nat): int
    requires g.spc > 0 && at < SLOTS_PER_SECTOR * (|ch| * g.spc)
  {
    FlatIndex(at / SLOTS_PER_SECTOR, |ch|, g.spc);
    g.ClusterToLba(ch[at / SLOTS_PER_SECTOR / g.spc]) + at / SLOTS_PER_SECTOR % g.spc
  }

  lemma SlotPlace(g: Geometry, ch: seq<nat>, k: nat, s: nat, e: nat)
    requires k < |ch| && s < g.spc && e < SLOTS_PER_SECTOR
    ensures var at := SLOTS_PER_SECTOR * (k * g.spc + s) + e;
      && 0 <= at < SLOTS_PER_SECTOR * (|ch| * g.spc)
      && at % SLOTS_PER_SECTOR == e && at / SLOTS_PER_SECTOR == k * g.spc + s
      && SlotLba(g, ch, at) == g.ClusterToLba(ch[k]) + s
  {
    FlatBound(k, s, |ch|, g.spc);
    DivMod(k, s, g.spc);
    assert (SLOTS_PER_SECTOR * (k * g.spc + s) + e) / SLOTS_PER_SECTOR == k * g.spc + s;
  }
}
