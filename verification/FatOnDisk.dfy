/**
  * What stands on the device, byte by byte: where the bytes of a chain lie, and which bytes the slots
  * hold that the writing calls leave.
  */
module FatOnDisk {
  import opened Bytes
  import opened FatLayout
  import opened FatDirectory
  import opened FatTree
  import opened FatChains
  import opened FatVolume
  import opened FatSteps
  import opened FatStream
  import opened FatFill
  import opened FatWrite

  // ── where bytes lie ──

  /** The first byte of cluster `c`: clusters are numbered from two. */
  function ClusterByte(g: Geometry, c: int): int { (2048 + g.dataLba + (c - 2) * g.spc) * 512 }

  lemma InSector(k: nat, spc: nat, o: nat)
    requires o < 512 * spc
    ensures var p := k * (512 * spc) + o; p / 512 == k * spc + o / 512 && p % 512 == o % 512 && 0 <= o / 512 < spc
  {
    MulAssoc(k, spc, 512);
    assert k * (512 * spc) + o == (k * spc) * 512 + o;
    assert o == o / 512 * 512 + o % 512;
  }

  /** Byte `o` of the `k`-th cluster of a chain. */
  lemma StreamOnDevice(g: Geometry, disk: seq<Sector>, ch: seq<nat>, k: nat, o: nat)
    requires g.Fits(disk) && ChainShaped(ViewOf(g, disk).data, ch, g.spc) && k < |ch| && g.InData(ch[k])
    requires o < 512 * g.spc
    ensures var p := k * (512 * g.spc) + o; var at := ClusterByte(g, ch[k]) + o;
      && 0 <= p < Total(g, ch) && 0 <= at && at / 512 < |disk|
      && Stream(g, ViewOf(g, disk).data, ch)[p] == ByteAt(disk, at)
  {
    hide ViewOf;
    InSector(k, g.spc, o);
    ClusterOnDevice(g, disk, ch[k], o);
    SectorsAt(ViewOf(g, disk).data, ch, g.spc, k, o / 512);
  }

  /** The bytes of a file lie one after another in the clusters of its chain. */
  lemma FileOnDevice(g: Geometry, disk: seq<Sector>, ch: seq<nat>, size: nat, k: nat, o: nat)
    requires g.Fits(disk) && ChainShaped(ViewOf(g, disk).data, ch, g.spc) && k < |ch| && g.InData(ch[k])
    requires o < 512 * g.spc && k * (512 * g.spc) + o < size <= Total(g, ch)
    ensures var b := FileBytes(g, ViewOf(g, disk).data, ch, size); var at := ClusterByte(g, ch[k]) + o;
      && 0 <= at && at / 512 < |disk| && 0 <= k * (512 * g.spc) + o < |b| == size
      && b[k * (512 * g.spc) + o] == ByteAt(disk, at)
  {
    StreamOnDevice(g, disk, ch, k, o);
  }

  lemma SlotByte(k: nat, spc: nat, e: nat, b: nat)
    ensures 0 <= k * (16 * spc) + e && 32 * (k * (16 * spc) + e) + b == k * (512 * spc) + (32 * e + b)
  {
    MulMono(0, k, 16 * spc);
    MulAssoc(k, 16 * spc, 32);
  }

  lemma SlotCount(g: Geometry, data: seq<seq<Sector>>, ch: seq<nat>)
    requires ChainShaped(data, ch, g.spc)
    ensures 32 * |SlotsOf(data, ch, g.spc)| == Total(g, ch)
  {
  }

  /** The slots of a directory lie one after another in the clusters of its chain, thirty-two bytes each. */
  lemma SlotOnDevice(g: Geometry, disk: seq<Sector>, ch: seq<nat>, k: nat, e: nat, b: nat)
    requires g.Fits(disk) && ChainShaped(ViewOf(g, disk).data, ch, g.spc) && k < |ch| && g.InData(ch[k])
    requires e < 16 * g.spc && b < 32
    ensures var i := k * (16 * g.spc) + e; var at := ClusterByte(g, ch[k]) + 32 * e + b;
      && 0 <= i < |SlotsOf(ViewOf(g, disk).data, ch, g.spc)| && 0 <= at && at / 512 < |disk|
      && SlotsOf(ViewOf(g, disk).data, ch, g.spc)[i][b] == ByteAt(disk, at)
  {
    hide ViewOf, ChainShaped, ClusterByte, Total;
    var i := k * (16 * g.spc) + e;
    SlotByte(k, g.spc, e, b);
    StreamOnDevice(g, disk, ch, k, 32 * e + b);
    SlotCount(g, ViewOf(g, disk).data, ch);
    StreamSlot(g, ViewOf(g, disk).data, ch, i);
  }

  // ── which bytes slots hold ──

  lemma EmptySlotBytes(n: Name)
    ensures NewSlot(n, 32, 0) == n + [32] + Zeros(20)
  {
    NewBytes(n, 32, 0, 0, 0, 0);
    assert Zeros(8) + [0, 0] + Zeros(4) + [0, 0] + Zeros(4) == Zeros(20);
  }

  lemma FileSlotBytes(n: Name, h0: byte, h1: byte, l0: byte, l1: byte, s0: byte, s1: byte, s2: byte, s3: byte)
    ensures Stamp(NewSlot(n, 32, 0), l0 + 256 * l1 + 65536 * h0 + 16777216 * h1,
                  s0 + 256 * s1 + 65536 * s2 + 16777216 * s3) ==
      n + [32] + Numbers(Zeros(8), h0, h1, Zeros(4), l0, l1, [s0, s1, s2, s3])
  {
    hide NewSlot, Stamp, Numbers;
    EmptySlotBytes(n);
    var s := NewSlot(n, 32, 0);
    StampedBytes(s, h0, h1, l0, l1, s0, s1, s2, s3);
    assert s[..12] == n + [32] && s[12..20] == Zeros(8) && s[22..26] == Zeros(4);
    assert s[..12] + Numbers(Zeros(8), h0, h1, Zeros(4), l0, l1, [s0, s1, s2, s3]) ==
      n + [32] + Numbers(Zeros(8), h0, h1, Zeros(4), l0, l1, [s0, s1, s2, s3]);
  }

  /** The slot of a directory. */
  function DirSlot(n: Name, h0: byte, h1: byte, l0: byte, l1: byte): Slot
  {
    n + [16] + Numbers(Zeros(8), h0, h1, Zeros(4), l0, l1, Zeros(4))
  }

  lemma DirSlotBytes(n: Name, h0: byte, h1: byte, l0: byte, l1: byte)
    ensures NewSlot(n, 16, l0 + 256 * l1 + 65536 * h0 + 16777216 * h1) == DirSlot(n, h0, h1, l0, l1)
  {
    NewBytes(n, 16, h0, h1, l0, l1);
  }

  lemma DotNames()
    ensures SELF_NAME == [46, 32, 32, 32, 32, 32, 32, 32, 32, 32, 32]
    ensures PARENT_NAME == [46, 46, 32, 32, 32, 32, 32, 32, 32, 32, 32]
  {
  }

  /** A created file: its name, the archive bit, and twenty zeros. */
  lemma CreatedBytes(g: Geometry, v: Vol, w: Vol, cat: Catalog, d: nat, at: nat, n: Name)
    requires FileCreated(g, v, w, cat, d, at, n) && d in cat.dirs
    ensures TreeOf(g, w.data, cat)[d][at] == n + [32] + Zeros(20)
  {
    hide Changed, Rewritten, NewSlot;
    EmptySlotBytes(n);
  }

  /** A written file: the same, but for the two halves of its first cluster and its size. */
  lemma WrittenBytes(g: Geometry, v: Vol, c: Catalog, w: Vol, next: Catalog, d: nat, at: nat, n: Name, data: seq<byte>,
      h0: byte, h1: byte, l0: byte, l1: byte, s0: byte, s1: byte, s2: byte, s3: byte)
    requires FileWritten(g, v, c, w, next, d, at, n, data) && d in next.dirs
    requires FirstOf(TreeOf(g, w.data, next)[d][at]) == l0 + 256 * l1 + 65536 * h0 + 16777216 * h1
    requires |data| == s0 + 256 * s1 + 65536 * s2 + 16777216 * s3
    ensures TreeOf(g, w.data, next)[d][at] == n + [32] + Numbers(Zeros(8), h0, h1, Zeros(4), l0, l1, [s0, s1, s2, s3])
  {
    hide Changed, SlotMeaning, NewSlot, Stamp, FirstOf, SizeOf, Numbers, Find, OldLength, FreeClusters;
    FileSlotBytes(n, h0, h1, l0, l1, s0, s1, s2, s3);
  }

  /** A deleted entry: the same bytes, the first of them replaced by 229. */
  lemma DeletedBytes(g: Geometry, v: Vol, c: Catalog, w: Vol, next: Catalog, d: nat, at: nat, n: Name)
    requires EntryDeleted(g, v, c, w, next, d, at, n) && d in c.dirs && d in next.dirs
    ensures TreeOf(g, w.data, next)[d][at] == [229] + TreeOf(g, v.data, c)[d][at][1..]
  {
  }

  lemma DirSlots(g: Geometry, v: Vol, cat: Catalog, w: Vol, next: Catalog, d: nat, at: nat, n: Name, c: nat)
    requires DirCreated(g, v, cat, w, next, d, at, n, c) && d in cat.dirs && d in next.dirs && c in next.dirs
    ensures c < TWO32 && d < TWO32
    ensures var t := TreeOf(g, w.data, next);
      && at < |t[d]| && t[d][at] == NewSlot(n, 16, c)
      && |t[c]| > 1 && t[c][0] == NewSlot(SELF_NAME, 16, c) && t[c][1] == NewSlot(PARENT_NAME, 16, d)
      && forall j :: 2 <= j < |t[c]| ==> t[c][j] == Zeros(32)
  {
    hide Changed, NewSlot, Vacant, HasEnd, Kept, FreeClusters, LowestFree, WithDir;
  }

  /** A new directory: its entry, the two slots that it begins with, for itself and for its parent, and
    * nothing but zeros behind them. */
  lemma DirBytes(g: Geometry, v: Vol, cat: Catalog, w: Vol, next: Catalog, d: nat, at: nat, n: Name, c: nat,
      h0: byte, h1: byte, l0: byte, l1: byte, p0: byte, p1: byte, p2: byte, p3: byte)
    requires DirCreated(g, v, cat, w, next, d, at, n, c) && d in cat.dirs && d in next.dirs && c in next.dirs
    requires c == l0 + 256 * l1 + 65536 * h0 + 16777216 * h1 && d == p0 + 256 * p1 + 65536 * p2 + 16777216 * p3
    ensures var t := TreeOf(g, w.data, next);
      && t[d][at] == DirSlot(n, h0, h1, l0, l1)
      && t[c][0] == DirSlot([46, 32, 32, 32, 32, 32, 32, 32, 32, 32, 32], h0, h1, l0, l1)
      && t[c][1] == DirSlot([46, 46, 32, 32, 32, 32, 32, 32, 32, 32, 32], p2, p3, p0, p1)
      && forall j :: 2 <= j < |t[c]| ==> t[c][j] == Zeros(32)
  {
    hide DirCreated, TreeOf, NewSlot, DirSlot, Numbers;
    DirSlots(g, v, cat, w, next, d, at, n, c);
    DirSlotBytes(n, h0, h1, l0, l1);
    DirSlotBytes(SELF_NAME, h0, h1, l0, l1);
    DirSlotBytes(PARENT_NAME, p2, p3, p0, p1);
    DotNames();
  }
}
