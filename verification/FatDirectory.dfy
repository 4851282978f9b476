/**
  * Directories: the 32-byte slots of a cluster chain, searched up to the first slot whose name
  * starts with zero.
  */
module FatDirectory {
  import opened Bytes
  import opened FatLayout

  const SLOT_SIZE := 32
  const SLOTS_PER_SECTOR := 16
  const NAME_SIZE := 11
  const DELETED: byte := 0xE5
  const ATTR_DIRECTORY: byte := 0x10
  const ATTR_ARCHIVE: byte := 0x20
  const ATTR_LFN: byte := 0x0F

  type Slot = s: seq<byte> | |s| == SLOT_SIZE witness seq(SLOT_SIZE, i => 0)

  type Name = s: seq<byte> | |s| == NAME_SIZE witness seq(NAME_SIZE, i => 0)

  // ── fields of a slot ──

  function NameOf(s: Slot): Name { s[..NAME_SIZE] }

  function AttrOf(s: Slot): byte { s[11] }

  function FirstOf(s: Slot): (c: nat)
    ensures c < TWO32
  {
    Le16(s, 26) + 0x1_0000 * Le16(s, 20)
  }

  function SizeOf(s: Slot): (n: nat)
    ensures n < TWO32
  {
    Le32(s, 28)
  }

  predicate IsDir(s: Slot) { AttrOf(s) / 0x10 % 2 == 1 }

  predicate IsEnd(s: Slot) { s[0] == 0 }

  predicate IsFree(s: Slot) { s[0] == 0 || s[0] == DELETED }

  predicate IsLive(s: Slot) { !IsFree(s) && AttrOf(s) != ATTR_LFN }

  /** A slot that a search accepts. Opening and deleting pass over long-name slots; the last step of
    * writing does not, and takes one whose eleven first bytes happen to be the name. */
  predicate Hits(s: Slot, name: Name, longToo: bool)
  {
    !IsFree(s) && (longToo || AttrOf(s) != ATTR_LFN) && NameOf(s) == name
  }

  predicate Matches(s: Slot, name: Name) { Hits(s, name, false) }

  // ── making and changing slots ──

  function Stamp(s: Slot, first: nat, size: nat): (r: Slot)
    requires first < TWO32 && size < TWO32
    ensures NameOf(r) == NameOf(s) && AttrOf(r) == AttrOf(s) && FirstOf(r) == first && SizeOf(r) == size
  {
    var low, high := ToLe16(first % 0x1_0000), ToLe16(first / 0x1_0000);
    var r := Splice(Splice(Splice(s, 20, high), 26, low), 28, ToLe32(size));
    assert NameOf(r) == NameOf(s);
    assert Le16(r, 26) == Le16(low, 0) && Le16(r, 20) == Le16(high, 0) && Le32(r, 28) == Le32(ToLe32(size), 0);
    r
  }

  function NewSlot(name: Name, attr: byte, first: nat): (r: Slot)
    requires first < TWO32
    ensures NameOf(r) == name && AttrOf(r) == attr && FirstOf(r) == first && SizeOf(r) == 0
  {
    var r: Slot := name + [attr] + Zeros(20);
    assert NameOf(r) == name;
    Stamp(r, first, 0)
  }

  // ── the fields on the disk ──

  /** The twenty bytes of a slot that hold its numbers and its times, in their order on the disk: one
    * reserved and seven of times, the high half of the first cluster, four of times, the low half, the
    * size. */
  function Numbers(times: seq<byte>, h0: byte, h1: byte, more: seq<byte>, l0: byte, l1: byte, size: seq<byte>):
    seq<byte>
  {
    times + [h0, h1] + more + [l0, l1] + size
  }

  lemma DirectoryBit(b: bv8)
    ensures b as int / 0x10 % 2 == 1 <==> b & 0x10 != 0
  {
    assert b as int / 0x10 == (b >> 4) as int;
    assert (b >> 4) as int % 2 == ((b >> 4) % 2) as int;
  }

  /** What the bytes of a slot mean. */
  lemma SlotFields(name: Name, attr: byte, times: seq<byte>, h0: byte, h1: byte, more: seq<byte>, l0: byte, l1: byte,
      s0: byte, s1: byte, s2: byte, s3: byte)
    requires |times| == 8 && |more| == 4
    ensures var s: Slot := name + [attr] + Numbers(times, h0, h1, more, l0, l1, [s0, s1, s2, s3]);
      && NameOf(s) == name && AttrOf(s) == attr
      && FirstOf(s) == l0 + 256 * l1 + 65536 * h0 + 16777216 * h1
      && SizeOf(s) == s0 + 256 * s1 + 65536 * s2 + 16777216 * s3
      && (IsDir(s) <==> attr as bv8 & 0x10 != 0)
  {
    var s: Slot := name + [attr] + Numbers(times, h0, h1, more, l0, l1, [s0, s1, s2, s3]);
    assert s[..11] == name;
    assert s[20] == h0 && s[21] == h1 && s[26] == l0 && s[27] == l1;
    assert s[28] == s0 && s[29] == s1 && s[30] == s2 && s[31] == s3;
    DirectoryBit(attr as bv8);
  }

  /** Zero as the first byte ends a directory; zero and 229 are free; opening and deleting accept the other
    * slots but those whose attribute is 15, the last step of writing accepts these too. */
  lemma SlotKinds(first: byte, rest: seq<byte>, attr: byte, others: seq<byte>, name: Name)
    requires |rest| == 10 && |others| == 20
    ensures var s: Slot := [first] + rest + [attr] + others;
      && (IsEnd(s) <==> first == 0)
      && (IsFree(s) <==> first == 0 || first == 229)
      && (Matches(s, name) <==> first != 0 && first != 229 && attr != 15 && name == [first] + rest)
      && (Hits(s, name, true) <==> first != 0 && first != 229 && name == [first] + rest)
  {
    var s: Slot := [first] + rest + [attr] + others;
    assert NameOf(s) == [first] + rest && s[0] == first && s[11] == attr;
  }

  /** Stamping changes ten bytes: the two halves of the cluster and the size, each at its place. */
  lemma StampedBytes(s: Slot, h0: byte, h1: byte, l0: byte, l1: byte, s0: byte, s1: byte, s2: byte, s3: byte)
    ensures Stamp(s, l0 + 256 * l1 + 65536 * h0 + 16777216 * h1, s0 + 256 * s1 + 65536 * s2 + 16777216 * s3) ==
      s[..12] + Numbers(s[12..20], h0, h1, s[22..26], l0, l1, [s0, s1, s2, s3])
  {
    var first, size := l0 + 256 * l1 + 65536 * h0 + 16777216 * h1, s0 + 256 * s1 + 65536 * s2 + 16777216 * s3;
    assert first % 65536 == l0 + 256 * l1 && first / 65536 == h0 + 256 * h1;
    LittleEndian([], l0, l1, 0, 0, []);
    LittleEndian([], h0, h1, 0, 0, []);
    LittleEndian([], s0, s1, s2, s3, []);
  }

  /** A new slot is all zeros but for its name, its attribute and its cluster. */
  lemma NewBytes(name: Name, attr: byte, h0: byte, h1: byte, l0: byte, l1: byte)
    ensures NewSlot(name, attr, l0 + 256 * l1 + 65536 * h0 + 16777216 * h1) ==
      name + [attr] + Numbers(Zeros(8), h0, h1, Zeros(4), l0, l1, Zeros(4))
  {
    var r: Slot := name + [attr] + Zeros(20);
    StampedBytes(r, h0, h1, l0, l1, 0, 0, 0, 0);
  }

  // ── slots of a sector and of a chain ──

  function SlotIn(b: Sector, e: nat): Slot
    requires e < SLOTS_PER_SECTOR
  {
    b[SLOT_SIZE * e..SLOT_SIZE * e + SLOT_SIZE]
  }

  function PutSlot(b: Sector, e: nat, s: Slot): (r: Sector)
    requires e < SLOTS_PER_SECTOR
    ensures SlotIn(r, e) == s
    ensures forall k :: 0 <= k < SLOTS_PER_SECTOR && k != e ==> SlotIn(r, k) == SlotIn(b, k)
  {
    Splice(b, SLOT_SIZE * e, s)
  }

  /** Slot `e` is what lies behind `32 * e` bytes of the sector; putting a slot changes these bytes alone. */
  lemma SlotBytes(before: seq<byte>, s: Slot, after: seq<byte>, e: nat, x: Slot)
    requires |before| == 32 * e && |before| + 32 + |after| == 512
    ensures SlotIn(before + s + after, e) == s && PutSlot(before + s + after, e, x) == before + x + after
  {
  }

  ghost predicate ChainShaped(data: seq<seq<Sector>>, chain: seq<nat>, spc: nat)
  {
    spc > 0 && forall k :: 0 <= k < |chain| ==> chain[k] < |data| && |data[chain[k]]| == spc
  }

  lemma DivMod(k: int, s: int, spc: int)
    requires 0 <= s < spc
    ensures (k * spc + s) / spc == k && (k * spc + s) % spc == s
  {
    var j := k * spc + s;
    if j / spc < k {
      MulMono(j / spc + 1, k, spc);
      MulDistrib(j / spc, 1, spc);
    } else if j / spc > k {
      MulMono(k + 1, j / spc, spc);
      MulDistrib(k, 1, spc);
    }
  }

  lemma FlatIndex(j: int, n: int, spc: int)
    requires spc > 0 && 0 <= j < n * spc
    ensures 0 <= j / spc < n && 0 <= j % spc < spc && j == j / spc * spc + j % spc
  {
    if j / spc >= n {
      MulMono(n, j / spc, spc);
    }
  }

  lemma FlatBound(k: int, s: int, n: int, spc: nat)
    requires 0 <= k < n && 0 <= s < spc
    ensures 0 <= k * spc + s < n * spc
  {
    MulMono(0, k, spc);
    MulMono(k + 1, n, spc);
    MulDistrib(k, 1, spc);
  }

  /** The index of the first sector of the `k`-th cluster. */
  ghost function Flat(k: nat, spc: nat): (n: nat)
    ensures n == k * spc
  {
    MulMono(0, k, spc);
    k * spc
  }

  /** All sectors of a chain, in order. */
  ghost function Sectors(data: seq<seq<Sector>>, chain: seq<nat>, spc: nat): (r: seq<Sector>)
    requires ChainShaped(data, chain, spc)
    ensures |r| == |chain| * spc
  {
    seq(|chain| * spc, j requires 0 <= j < |chain| * spc =>
      FlatIndex(j, |chain|, spc);
      data[chain[j / spc]][j % spc])
  }

  lemma SectorsAt(data: seq<seq<Sector>>, chain: seq<nat>, spc: nat, k: nat, s: nat)
    requires ChainShaped(data, chain, spc) && k < |chain| && s < spc
    ensures 0 <= k * spc + s < |chain| * spc
    ensures Sectors(data, chain, spc)[k * spc + s] == data[chain[k]][s]
  {
    FlatBound(k, s, |chain|, spc);
    DivMod(k, s, spc);
  }

  ghost function Slots(secs: seq<Sector>): (r: seq<Slot>)
    ensures |r| == SLOTS_PER_SECTOR * |secs|
    ensures forall i :: 0 <= i < |r| ==> r[i] == SlotIn(secs[i / SLOTS_PER_SECTOR], i % SLOTS_PER_SECTOR)
  {
    seq(SLOTS_PER_SECTOR * |secs|, i requires 0 <= i < SLOTS_PER_SECTOR * |secs| =>
      SlotIn(secs[i / SLOTS_PER_SECTOR], i % SLOTS_PER_SECTOR))
  }

  ghost function SlotsOf(data: seq<seq<Sector>>, chain: seq<nat>, spc: nat): (r: seq<Slot>)
    requires ChainShaped(data, chain, spc)
    ensures |r| == SLOTS_PER_SECTOR * (|chain| * spc)
  {
    Slots(Sectors(data, chain, spc))
  }

  ghost predicate Distinct(chain: seq<nat>)
  {
    forall i, j :: 0 <= i < j < |chain| ==> chain[i] != chain[j]
  }

  /** Replacing one sector of a chain replaces that sector of its content. */
  lemma SectorsPut(data: seq<seq<Sector>>, chain: seq<nat>, spc: nat, k: nat, s: nat, b: Sector)
    requires ChainShaped(data, chain, spc) && Distinct(chain) && k < |chain| && s < spc
    ensures var next := PutData(Vol([], data), chain[k], s, b).data;
      && ChainShaped(next, chain, spc)
      && 0 <= k * spc + s < |chain| * spc
      && Sectors(next, chain, spc) == Sectors(data, chain, spc)[k * spc + s := b]
  {
    FlatBound(k, s, |chain|, spc);
    var next := PutData(Vol([], data), chain[k], s, b).data;
    var x, y := Sectors(next, chain, spc), Sectors(data, chain, spc)[k * spc + s := b];
    forall j | 0 <= j < |chain| * spc
      ensures x[j] == y[j]
    {
      FlatIndex(j, |chain|, spc);
      DivMod(k, s, spc);
    }
    assert x == y;
  }

  /** Replacing a sector outside a chain leaves the chain's content. */
  lemma SectorsFrame(data: seq<seq<Sector>>, next: seq<seq<Sector>>, chain: seq<nat>, spc: nat)
    requires ChainShaped(data, chain, spc) && |next| == |data|
    requires forall c :: c in chain ==> next[c] == data[c]
    ensures ChainShaped(next, chain, spc) && Sectors(next, chain, spc) == Sectors(data, chain, spc)
  {
    var x, y := Sectors(next, chain, spc), Sectors(data, chain, spc);
    forall j | 0 <= j < |chain| * spc
      ensures x[j] == y[j]
    {
      FlatIndex(j, |chain|, spc);
    }
    assert x == y;
  }

  lemma SlotsPut(secs: seq<Sector>, j: nat, e: nat, s: Slot)
    requires j < |secs| && e < SLOTS_PER_SECTOR
    ensures Slots(secs[j := PutSlot(secs[j], e, s)]) == Slots(secs)[SLOTS_PER_SECTOR * j + e := s]
  {
    var next: seq<Sector> := secs[j := PutSlot(secs[j], e, s)];
    var x, y := Slots(next), Slots(secs)[SLOTS_PER_SECTOR * j + e := s];
    forall i | 0 <= i < |x|
      ensures x[i] == y[i]
    {
    }
    assert x == y;
  }

  // ── searching ──

  ghost predicate Terminated(slots: seq<Slot>)
  {
    forall i, j :: 0 <= i < j < |slots| && IsEnd(slots[i]) ==> IsEnd(slots[j])
  }

  ghost predicate HasEnd(slots: seq<Slot>)
  {
    exists i :: 0 <= i < |slots| && IsEnd(slots[i])
  }

  /** A search has passed the first `n` slots. */
  ghost predicate PassedHits(slots: seq<Slot>, name: Name, longToo: bool, n: nat)
  {
    n <= |slots| && forall j :: 0 <= j < n ==> !IsEnd(slots[j]) && !Hits(slots[j], name, longToo)
  }

  /** What the directory searches look for: the first slot they accept before any end slot. */
  ghost predicate FirstHit(slots: seq<Slot>, name: Name, longToo: bool, r: nat)
  {
    r < |slots| && Hits(slots[r], name, longToo) && PassedHits(slots, name, longToo, r)
  }

  ghost predicate FirstMatch(slots: seq<Slot>, name: Name, r: nat) { FirstHit(slots, name, false, r) }

  /** The index of the first match, or the number of slots. */
  ghost function Find(slots: seq<Slot>, name: Name): (r: nat)
    ensures r <= |slots|
    ensures r < |slots| <==> FirstMatch(slots, name, r)
    ensures r == |slots| ==> forall k :: !FirstMatch(slots, name, k)
  {
    if r: nat :| FirstMatch(slots, name, r) then r else |slots|
  }

  lemma FindUnique(slots: seq<Slot>, name: Name, r: nat)
    requires FirstMatch(slots, name, r)
    ensures Find(slots, name) == r
  {
    var q := Find(slots, name);
    assert q < |slots| && !(q < r) && !(r < q);
  }

  ghost predicate Passed(slots: seq<Slot>, name: Name, i: nat) { PassedHits(slots, name, false, i) }

  lemma PassedNone(slots: seq<Slot>, name: Name)
    ensures Passed(slots, name, 0)
  {
  }

  /** What the next slot means for a search. */
  lemma SearchStep(slots: seq<Slot>, name: Name, i: nat)
    requires Passed(slots, name, i)
    ensures i == |slots| ==> Find(slots, name) == |slots| && !HasEnd(slots)
    ensures i < |slots| && IsEnd(slots[i]) ==> Find(slots, name) == |slots|
    ensures i < |slots| && Matches(slots[i], name) ==> Find(slots, name) == i
    ensures i < |slots| && !IsEnd(slots[i]) && !Matches(slots[i], name) ==> Passed(slots, name, i + 1)
  {
    var r := Find(slots, name);
    assert r < |slots| ==> FirstMatch(slots, name, r);
    if i < |slots| && Matches(slots[i], name) {
      FindUnique(slots, name, i);
    }
  }

  /** In a terminated directory the search finds a name exactly when some slot carries it. */
  lemma FindComplete(slots: seq<Slot>, name: Name, i: nat)
    requires Terminated(slots) && i < |slots| && Matches(slots[i], name)
    ensures Find(slots, name) <= i
  {
    if k :| 0 <= k < i && Matches(slots[k], name) {
      FindComplete(slots, name, k);
    } else {
      assert FirstMatch(slots, name, i);
      FindUnique(slots, name, i);
    }
  }

  ghost predicate FirstFree(slots: seq<Slot>, r: nat)
  {
    r < |slots| && IsFree(slots[r]) && forall j :: 0 <= j < r ==> !IsFree(slots[j])
  }

  /** A slot that stays clear of a name, before and after, leaves the search for that name alone. */
  lemma FindFrame(slots: seq<Slot>, at: nat, s: Slot, name: Name)
    requires at < |slots| && Terminated(slots) && !IsEnd(s)
    requires forall j :: 0 <= j < at ==> !IsEnd(slots[j])
    requires !Matches(slots[at], name) && !Matches(s, name)
    ensures Find(slots[at := s], name) == Find(slots, name)
  {
    var next: seq<Slot> := slots[at := s];
    var r, q := Find(slots, name), Find(next, name);
    if r < |slots| {
      assert FirstMatch(next, name, r);
      FindUnique(next, name, r);
    } else if q < |slots| {
      FindComplete(slots, name, q);
    }
  }

  /** Using a free or live slot keeps the directory terminated. */
  lemma TerminatedPut(slots: seq<Slot>, at: nat, s: Slot)
    requires at < |slots| && Terminated(slots) && !IsEnd(s)
    requires forall j :: 0 <= j < at ==> !IsEnd(slots[j])
    ensures Terminated(slots[at := s])
  {
  }

  lemma NoEndBefore(slots: seq<Slot>, at: nat)
    requires at < |slots| && Terminated(slots) && !IsEnd(slots[at])
    ensures forall j :: 0 <= j < at ==> !IsEnd(slots[j])
  {
  }

  /** A slot made in the first free place of a directory is the first match of its name when no
    * earlier slot carries that name. */
  lemma FindCreated(slots: seq<Slot>, at: nat, s: Slot, name: Name)
    requires FirstFree(slots, at) && Matches(s, name)
    requires forall j :: 0 <= j < at ==> !Matches(slots[j], name)
    ensures Find(slots[at := s], name) == at
  {
    assert FirstMatch(slots[at := s], name, at);
    FindUnique(slots[at := s], name, at);
  }

  /** A created file or directory is what its path finds exactly when no earlier slot of the
    * directory carries the name; creating itself does not look. */
  lemma CreatedFinds(slots: seq<Slot>, at: nat, s: Slot, n: Name)
    requires Terminated(slots) && FirstFree(slots, at) && Matches(s, n)
    ensures Find(slots[at := s], n) == if Find(slots, n) < at then Find(slots, n) else at
  {
    if Find(slots, n) < at {
      assert FirstMatch(slots[at := s], n, Find(slots, n));
      FindUnique(slots[at := s], n, Find(slots, n));
    } else {
      forall j | 0 <= j < at
        ensures !Matches(slots[j], n)
      {
        if Matches(slots[j], n) {
          FindComplete(slots, n, j);
        }
      }
      FindCreated(slots, at, s, n);
    }
  }

  /** Once the first match is gone, the search finds nothing exactly when no later slot carries the
    * name. */
  lemma DeletedFinds(slots: seq<Slot>, at: nat, gone: Slot, n: Name)
    requires Terminated(slots) && FirstMatch(slots, n, at) && gone[0] == DELETED
    ensures var rest: seq<Slot> := slots[at := gone];
      Find(rest, n) == |rest| <==> forall j :: at < j < |slots| ==> !Matches(slots[j], n)
  {
    var rest: seq<Slot> := slots[at := gone];
    if Find(rest, n) < |rest| {
      assert Matches(slots[Find(rest, n)], n) && Find(rest, n) > at;
    } else if j :| at < j < |slots| && Matches(slots[j], n) {
      assert Matches(rest[j], n);
      FindComplete(rest, n, j);
    }
  }
}
