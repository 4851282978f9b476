/**
  * Where things lie on the device, and the view the rest of the proofs work on: the FAT as a
  * sequence of 28-bit links and the data area as clusters of sectors.
  */
module FatLayout {
  import opened Bytes

  const SECTOR_SIZE := 512
  const ENTRIES_PER_SECTOR := 128
  const CACHE_SECTORS := 5
  const PARTITION_OFFSET := 2048
  const END_OF_CHAIN := 0x0FFF_FFFF
  const END_MIN := 0x0FFF_FFF8 // every link from here up ends a chain

  type Sector = s: seq<byte> | |s| == SECTOR_SIZE witness seq(SECTOR_SIZE, i => 0)

  lemma MulMono(a: int, b: int, k: nat)
    requires a <= b
    ensures a * k <= b * k
  {
  }

  lemma MulDistrib(a: int, b: int, k: int)
    ensures (a + b) * k == a * k + b * k
  {
  }

  lemma ClusterQuotient(a: nat, cb: nat)
    requires cb > 0
    ensures var q := a / cb; q >= 0 && q * cb <= a < (q + 1) * cb
  {
    MulDistrib(a / cb, 1, cb);
  }

  /** The volume's numbers: boot-sector fields, the start of the data area the driver derives from
    * them, and one past the last cluster of the data area. */
  datatype Geometry = Geometry(
    reserved: nat, sectorsPerFat: nat, spc: nat, root: nat, totalSectors: nat, dataLba: nat, dataEnd: nat)
  {
    function Entries(): nat { sectorsPerFat * ENTRIES_PER_SECTOR }

    function ClusterBytes(): nat { spc * SECTOR_SIZE }

    function FatStart(): nat { PARTITION_OFFSET + reserved }

    /** The clusters that fit between the start of the data area and the end of the volume. */
    function DataClusters(): int
      requires spc > 0
    {
      (totalSectors - dataLba) / spc
    }

    /** The bound of the free-cluster scan: all sectors of the volume, not the data sectors. */
    function ScanEnd(): nat
      requires spc > 0
    {
      totalSectors / spc
    }

    /** The hypotheses on a volume: the cache window stays inside the FAT copies, the FAT covers the
      * data area, cluster numbers stay below the end marks, and the free-cluster scan covers the
      * data area (which holds as soon as two clusters' worth of sectors lie before it). */
    ghost predicate Valid()
    {
      && 0 < spc < 256
      && 0 < sectorsPerFat
      && reserved + sectorsPerFat + CACHE_SECTORS - 1 <= dataLba
      && dataEnd <= Entries() <= TWO28
      && dataEnd <= 0x0FFF_FFF7
      && 2 <= root < dataEnd
      && dataLba + (dataEnd - 2) * spc <= totalSectors
      && dataLba <= totalSectors
      && dataEnd <= ScanEnd()
    }

    /** The device is large enough to hold the volume. */
    ghost predicate Fits(disk: seq<Sector>)
    {
      Valid() && PARTITION_OFFSET + totalSectors <= |disk|
    }

    predicate InData(c: int) { 2 <= c < dataEnd }

    function ClusterToLba(c: int): int { dataLba + (c - 2) * spc }

    /** The device sector of a cluster; sector numbers of the volume start at the partition. */
    function ClusterAt(c: int): int { PARTITION_OFFSET + ClusterToLba(c) }

    /** The clusters of the data area, and those of the whole volume, are those that fit: a rest that is
      * shorter than a cluster is left over. */
    lemma WholeClusters()
      requires spc > 0 && dataLba <= totalSectors
      ensures DataClusters() * spc <= totalSectors - dataLba < (DataClusters() + 1) * spc
      ensures ScanEnd() * spc <= totalSectors < (ScanEnd() + 1) * spc
    {
      ClusterQuotient(totalSectors - dataLba, spc);
      ClusterQuotient(totalSectors, spc);
    }

    lemma SectorInRange(c: int, s: int)
      requires Valid() && InData(c) && 0 <= s < spc
      ensures PARTITION_OFFSET + dataLba <= ClusterAt(c) + s < PARTITION_OFFSET + totalSectors
    {
      MulMono(0, c - 2, spc);
      MulMono(c - 2 + 1, dataEnd - 2, spc);
      MulDistrib(c - 2, 1, spc);
    }

    lemma SectorsDistinct(c1: int, s1: int, c2: int, s2: int)
      requires 0 <= s1 < spc && 0 <= s2 < spc
      requires ClusterAt(c1) + s1 == ClusterAt(c2) + s2
      ensures c1 == c2 && s1 == s2
    {
      if c1 < c2 {
        MulMono(c1 - 2 + 1, c2 - 2, spc);
        MulDistrib(c1 - 2, 1, spc);
      } else if c2 < c1 {
        MulMono(c2 - 2 + 1, c1 - 2, spc);
        MulDistrib(c2 - 2, 1, spc);
      }
    }
  }

  /** The volume's numbers as the boot sector gives them; where the data area ends is not among them. */
  function BootGeometry(b: Sector, dataEnd: nat): (g: Geometry)
    ensures g.reserved + g.sectorsPerFat * b[16] < TWO32 ==> g.dataLba == g.reserved + g.sectorsPerFat * b[16]
  {
    var reserved, perFat := Le16(b, 14), Le32(b, 36);
    var total := if Le16(b, 19) != 0 then Le16(b, 19) else Le32(b, 32);
    MulMono(0, b[16], perFat);
    Geometry(reserved, perFat, b[13], Le32(b, 44), total, (reserved + perFat * b[16]) % TWO32, dataEnd)
  }

  /** Only the layout without 16-bit FAT size is accepted. */
  predicate IsFat32(b: Sector) { Le16(b, 22) == 0 }

  /** The fields of a boot sector, in their order on the disk: what is before them, sectors of a cluster,
    * reserved sectors, number of FATs, root entries, sectors in 16 bits, medium, sectors of a FAT in 16
    * bits, tracks and heads and hidden sectors, sectors in 32 bits, sectors of a FAT, flags and version,
    * root cluster, what is behind them. */
  function Packed(head: seq<byte>, spc: byte, reserved: seq<byte>, fats: byte, entries: seq<byte>, total16: seq<byte>,
      media: byte, perFat16: seq<byte>, tracks: seq<byte>, total32: seq<byte>, perFat: seq<byte>, flags: seq<byte>,
      root: seq<byte>, tail: seq<byte>): seq<byte>
  {
    head + [spc] + reserved + [fats] + entries + total16 + [media] + perFat16 + tracks + total32 + perFat + flags +
      root + tail
  }

  /** What they say about the volume. */
  lemma BootFields(head: seq<byte>, spc: byte, r0: byte, r1: byte, fats: byte, entries: seq<byte>, w0: byte, w1: byte,
      media: byte, z0: byte, z1: byte, tracks: seq<byte>, t0: byte, t1: byte, t2: byte, t3: byte, p0: byte, p1: byte,
      p2: byte, p3: byte, flags: seq<byte>, c0: byte, c1: byte, c2: byte, c3: byte, tail: seq<byte>, dataEnd: nat)
    requires |head| == 3 + 8 + 2 && |entries| == 2 && |tracks| == 2 + 2 + 4 && |flags| == 2 + 2
    requires |tail| == 512 - 48
    ensures var b := Packed(head, spc, [r0, r1], fats, entries, [w0, w1], media, [z0, z1], tracks, [t0, t1, t2, t3],
                            [p0, p1, p2, p3], flags, [c0, c1, c2, c3], tail);
      var perFat := p0 + 256 * p1 + 65536 * p2 + 16777216 * p3;
      && |b| == 512
      && (IsFat32(b) <==> z0 == 0 && z1 == 0)
      && BootGeometry(b, dataEnd) == Geometry(
           r0 + 256 * r1,
           perFat,
           spc,
           c0 + 256 * c1 + 65536 * c2 + 16777216 * c3,
           if w0 == 0 && w1 == 0 then t0 + 256 * t1 + 65536 * t2 + 16777216 * t3 else w0 + 256 * w1,
           (r0 + 256 * r1 + perFat * fats) % 4294967296,
           dataEnd)
  {
    var b := Packed(head, spc, [r0, r1], fats, entries, [w0, w1], media, [z0, z1], tracks, [t0, t1, t2, t3],
                    [p0, p1, p2, p3], flags, [c0, c1, c2, c3], tail);
    assert b[13] == spc && b[14] == r0 && b[15] == r1 && b[16] == fats;
    assert b[19] == w0 && b[20] == w1 && b[22] == z0 && b[23] == z1;
    assert b[32] == t0 && b[33] == t1 && b[34] == t2 && b[35] == t3;
    assert b[36] == p0 && b[37] == p1 && b[38] == p2 && b[39] == p3;
    assert b[44] == c0 && b[45] == c1 && b[46] == c2 && b[47] == c3;
  }

  /** The 32-bit word of FAT entry `c`. */
  function EntryWord(g: Geometry, disk: seq<Sector>, c: nat): (w: nat)
    requires g.FatStart() + c / ENTRIES_PER_SECTOR < |disk|
    ensures w < TWO32
  {
    Le32(disk[g.FatStart() + c / ENTRIES_PER_SECTOR], c % ENTRIES_PER_SECTOR * 4)
  }

  function PutWord(g: Geometry, disk: seq<Sector>, c: nat, word: seq<byte>): (r: seq<Sector>)
    requires g.FatStart() + c / ENTRIES_PER_SECTOR < |disk| && |word| == 4
    ensures |r| == |disk|
  {
    var at := g.FatStart() + c / ENTRIES_PER_SECTOR;
    disk[at := Splice(disk[at], c % ENTRIES_PER_SECTOR * 4, word)]
  }

  /** The device after an update of FAT entry `c`: four bytes of one sector change. */
  function PutEntry(g: Geometry, disk: seq<Sector>, c: nat, value: nat): (r: seq<Sector>)
    requires g.FatStart() + c / ENTRIES_PER_SECTOR < |disk|
    ensures |r| == |disk|
  {
    PutWord(g, disk, c, ToLe32(MergeEntry(EntryWord(g, disk, c), value)))
  }

  /** Links of the FAT and sectors of the data area. */
  datatype Vol = Vol(fat: seq<nat>, data: seq<seq<Sector>>)

  ghost predicate Shaped(g: Geometry, v: Vol)
  {
    && g.Valid()
    && |v.fat| == g.Entries()
    && |v.data| == g.dataEnd
    && (forall c {:trigger v.data[c]} :: 2 <= c < g.dataEnd ==> |v.data[c]| == g.spc)
    && (forall c :: 0 <= c < |v.fat| ==> v.fat[c] < TWO28)
  }

  ghost function LinksOf(g: Geometry, disk: seq<Sector>): (r: seq<nat>)
    requires g.Fits(disk)
    ensures |r| == g.Entries()
    ensures forall c :: 0 <= c < g.Entries() ==> r[c] == EntryWord(g, disk, c) % TWO28
  {
    seq(g.Entries(), c requires 0 <= c < g.Entries() => EntryWord(g, disk, c) % TWO28)
  }

  ghost function ClusterOf(g: Geometry, disk: seq<Sector>, c: int): (b: seq<Sector>)
    requires g.Fits(disk) && g.InData(c)
    ensures |b| == g.spc
    ensures forall s :: 0 <= s < g.spc ==> 0 <= g.ClusterAt(c) + s < |disk| && b[s] == disk[g.ClusterAt(c) + s]
  {
    g.SectorInRange(c, 0);
    g.SectorInRange(c, g.spc - 1);
    disk[g.ClusterAt(c)..g.ClusterAt(c) + g.spc]
  }

  ghost function ClustersOf(g: Geometry, disk: seq<Sector>): (r: seq<seq<Sector>>)
    requires g.Fits(disk)
    ensures |r| == g.dataEnd
    ensures forall c :: g.InData(c) ==> r[c] == ClusterOf(g, disk, c)
  {
    seq(g.dataEnd, c requires 0 <= c < g.dataEnd => if c < 2 then [] else ClusterOf(g, disk, c))
  }

  ghost function ViewOf(g: Geometry, disk: seq<Sector>): (v: Vol)
    requires g.Fits(disk)
    ensures Shaped(g, v)
  {
    Vol(LinksOf(g, disk), ClustersOf(g, disk))
  }

  function PutData(v: Vol, c: nat, s: nat, b: Sector): Vol
    requires c < |v.data| && s < |v.data[c]|
  {
    var row: seq<Sector> := v.data[c];
    var written: seq<Sector> := row[s := b];
    v.(data := v.data[c := written])
  }

  function PutLink(v: Vol, c: nat, value: nat): Vol
    requires c < |v.fat|
  {
    v.(fat := v.fat[c := value % TWO28])
  }

  /** Updating an entry keeps the top four bits of its word and every other word of the FAT. */
  lemma PutEntryWords(g: Geometry, disk: seq<Sector>, c: nat, value: nat, k: nat)
    requires g.FatStart() + c / ENTRIES_PER_SECTOR < |disk|
    requires g.FatStart() + k / ENTRIES_PER_SECTOR < |disk|
    ensures k != c ==> EntryWord(g, PutEntry(g, disk, c, value), k) == EntryWord(g, disk, k)
    ensures EntryWord(g, PutEntry(g, disk, c, value), c) % TWO28 == value % TWO28
    ensures EntryWord(g, PutEntry(g, disk, c, value), c) / TWO28 == EntryWord(g, disk, c) / TWO28
  {
    var at := g.FatStart() + c / ENTRIES_PER_SECTOR;
    var w := MergeEntry(EntryWord(g, disk, c), value);
    var o := c % ENTRIES_PER_SECTOR * 4;
    var r := Splice(disk[at], o, ToLe32(w));
    assert Le32(r, o) == Le32(ToLe32(w), 0);
    if k != c && k / ENTRIES_PER_SECTOR == c / ENTRIES_PER_SECTOR {
      var p := k % ENTRIES_PER_SECTOR * 4;
      assert p + 4 <= o || o + 4 <= p;
      assert Le32(r, p) == Le32(disk[at], p);
    }
  }

  lemma SameClusters(g: Geometry, disk: seq<Sector>, d: seq<Sector>)
    requires g.Fits(disk) && g.Fits(d) && |d| == |disk|
    requires forall i :: PARTITION_OFFSET + g.dataLba <= i < |disk| ==> d[i] == disk[i]
    ensures ClustersOf(g, d) == ClustersOf(g, disk)
  {
    forall k | g.InData(k)
      ensures ClusterOf(g, d, k) == ClusterOf(g, disk, k)
    {
      g.SectorInRange(k, 0);
    }
  }

  /** An entry update changes one link of the view and nothing of the data area. */
  lemma PutEntryView(g: Geometry, disk: seq<Sector>, c: nat, value: nat)
    requires g.Fits(disk) && c < g.Entries()
    ensures g.FatStart() + c / ENTRIES_PER_SECTOR < |disk|
    ensures g.Fits(PutEntry(g, disk, c, value))
    ensures ViewOf(g, PutEntry(g, disk, c, value)) == PutLink(ViewOf(g, disk), c, value)
  {
    var d := PutEntry(g, disk, c, value);
    var links, data := LinksOf(g, disk), ClustersOf(g, disk);
    assert LinksOf(g, d) == links[c := value % TWO28] by {
      forall k | 0 <= k < g.Entries()
        ensures LinksOf(g, d)[k] == links[c := value % TWO28][k]
      {
        PutEntryWords(g, disk, c, value, k);
      }
    }
    SameClusters(g, disk, d);
  }

  lemma PutSectorCluster(g: Geometry, disk: seq<Sector>, c: nat, s: nat, b: Sector, k: nat)
    requires g.Fits(disk) && g.InData(c) && s < g.spc && g.InData(k)
    requires 0 <= g.ClusterAt(c) + s < |disk|
    ensures var d: seq<Sector> := disk[g.ClusterAt(c) + s := b];
      ClusterOf(g, d, k) == if k == c then ClusterOf(g, disk, c)[s := b] else ClusterOf(g, disk, k)
  {
    var d: seq<Sector> := disk[g.ClusterAt(c) + s := b];
    forall t | 0 <= t < g.spc
      ensures k != c || t != s ==> ClusterOf(g, d, k)[t] == ClusterOf(g, disk, k)[t]
    {
      if g.ClusterAt(k) + t == g.ClusterAt(c) + s {
        g.SectorsDistinct(k, t, c, s);
      }
    }
  }

  /** A sector write in the data area changes that sector of the view and no link. */
  lemma PutSectorView(g: Geometry, disk: seq<Sector>, c: nat, s: nat, b: Sector)
    requires g.Fits(disk) && g.InData(c) && s < g.spc
    ensures 0 <= g.ClusterAt(c) + s < |disk|
    ensures g.Fits(disk[g.ClusterAt(c) + s := b])
    ensures ViewOf(g, disk[g.ClusterAt(c) + s := b]) == PutData(ViewOf(g, disk), c, s, b)
  {
    g.SectorInRange(c, s);
    var d: seq<Sector> := disk[g.ClusterAt(c) + s := b];
    assert LinksOf(g, d) == LinksOf(g, disk);
    var x, y := ClustersOf(g, d), PutData(ViewOf(g, disk), c, s, b).data;
    forall k | 0 <= k < g.dataEnd
      ensures x[k] == y[k]
    {
      if k >= 2 {
        PutSectorCluster(g, disk, c, s, b, k);
      }
    }
    assert x == y;
  }

  // ── byte by byte ──

  /** The `p`-th byte of the device. */
  function ByteAt(disk: seq<Sector>, p: nat): byte
    requires p / 512 < |disk|
  {
    disk[p / 512][p % 512]
  }

  /** The first byte of FAT entry `c`: entries have four bytes, the FAT lies behind the partition's start
    * and the reserved sectors. */
  function EntryByte(g: Geometry, c: nat): nat { (2048 + g.reserved) * 512 + 4 * c }

  lemma EntrySpot(g: Geometry, c: nat, i: nat)
    requires i < 4
    ensures (EntryByte(g, c) + i) / 512 == g.FatStart() + c / ENTRIES_PER_SECTOR
    ensures (EntryByte(g, c) + i) % 512 == c % ENTRIES_PER_SECTOR * 4 + i
  {
    assert 4 * c + i == (c / 128) * 512 + (c % 128 * 4 + i);
  }

  /** The word of an entry is made of its four bytes, the lowest first. */
  lemma EntryOnDevice(g: Geometry, disk: seq<Sector>, c: nat)
    requires g.FatStart() + c / ENTRIES_PER_SECTOR < |disk|
    ensures var p := EntryByte(g, c);
      && p / 512 < |disk| && (p + 1) / 512 < |disk| && (p + 2) / 512 < |disk| && (p + 3) / 512 < |disk|
      && EntryWord(g, disk, c) == ByteAt(disk, p) + 256 * ByteAt(disk, p + 1) + 65536 * ByteAt(disk, p + 2) +
           16777216 * ByteAt(disk, p + 3)
  {
    EntrySpot(g, c, 0);
    EntrySpot(g, c, 1);
    EntrySpot(g, c, 2);
    EntrySpot(g, c, 3);
  }

  lemma LowBits(low: nat, top: byte)
    requires low < 16777216
    ensures (low + 16777216 * top) % TWO28 == low + 16777216 * (top % 16)
  {
    assert low + 16777216 * top == top / 16 * TWO28 + (low + 16777216 * (top % 16));
  }

  /** The link of an entry is its word without the top four bits. */
  lemma LinkOnDevice(g: Geometry, disk: seq<Sector>, c: nat)
    requires g.Fits(disk) && c < g.Entries()
    ensures var p := EntryByte(g, c);
      && (p + 3) / 512 < |disk|
      && ViewOf(g, disk).fat[c] == ByteAt(disk, p) + 256 * ByteAt(disk, p + 1) + 65536 * ByteAt(disk, p + 2) +
           16777216 * (ByteAt(disk, p + 3) % 16)
  {
    EntryOnDevice(g, disk, c);
    var p := EntryByte(g, c);
    LowBits(ByteAt(disk, p) + 256 * ByteAt(disk, p + 1) + 65536 * ByteAt(disk, p + 2), ByteAt(disk, p + 3));
    assert LinksOf(g, disk)[c] == EntryWord(g, disk, c) % TWO28;
  }

  lemma WordBytes(top: byte, v0: byte, v1: byte, v2: byte, v3: byte, prior: nat)
    requires v3 < 16 && prior < 0x100_0000
    ensures ToLe32(MergeEntry(prior + 0x100_0000 * top, v0 + 256 * v1 + 65536 * v2 + 16777216 * v3)) ==
      [v0, v1, v2, top / 16 * 16 + v3]
  {
    var value := v0 + 256 * v1 + 65536 * v2 + 16777216 * v3;
    assert prior + 0x100_0000 * top == top / 16 * 0x1000_0000 + (top % 16 * 0x100_0000 + prior);
    MergedDigits(top / 16, top % 16 * 0x100_0000 + prior, 0, value);
    assert MergeEntry(prior + 0x100_0000 * top, value) ==
      v0 + 256 * v1 + 65536 * v2 + 16777216 * (top / 16 * 16 + v3);
    LittleEndian([], v0, v1, v2, top / 16 * 16 + v3, []);
  }

  lemma PutWordBytes(g: Geometry, disk: seq<Sector>, c: nat, word: seq<byte>, p: nat)
    requires g.FatStart() + c / ENTRIES_PER_SECTOR < |disk| && |word| == 4 && p / 512 < |disk|
    ensures var at := EntryByte(g, c);
      ByteAt(PutWord(g, disk, c, word), p) == if at <= p < at + 4 then word[p - at] else ByteAt(disk, p)
  {
    var at := EntryByte(g, c);
    EntrySpot(g, c, 0);
    EntrySpot(g, c, 3);
    if at <= p < at + 4 {
      EntrySpot(g, c, p - at);
    }
  }

  /** An update writes the entry's three low bytes and the low half of the fourth; no other byte of the
    * device changes. */
  lemma EntryBytes(g: Geometry, disk: seq<Sector>, c: nat, v0: byte, v1: byte, v2: byte, v3: byte, p: nat)
    requires g.FatStart() + c / ENTRIES_PER_SECTOR < |disk| && v3 < 16 && p / 512 < |disk|
    ensures var at := EntryByte(g, c); var d := PutEntry(g, disk, c, v0 + 256 * v1 + 65536 * v2 + 16777216 * v3);
      ByteAt(d, p) ==
        if p == at then v0
        else if p == at + 1 then v1
        else if p == at + 2 then v2
        else if p == at + 3 then ByteAt(disk, p) / 16 * 16 + v3
        else ByteAt(disk, p)
  {
    hide PutWord, EntryWord, MergeEntry, ToLe32;
    var at := EntryByte(g, c);
    EntryOnDevice(g, disk, c);
    var prior := ByteAt(disk, at) + 256 * ByteAt(disk, at + 1) + 65536 * ByteAt(disk, at + 2);
    WordBytes(ByteAt(disk, at + 3), v0, v1, v2, v3, prior);
    PutWordBytes(g, disk, c, [v0, v1, v2, ByteAt(disk, at + 3) / 16 * 16 + v3], p);
  }

  /** Cluster `c` lies behind the partition's start, the sectors before the data area, and the clusters
    * from the second on before it. */
  lemma ClusterOnDevice(g: Geometry, disk: seq<Sector>, c: nat, k: nat)
    requires g.Fits(disk) && g.InData(c) && k < 512 * g.spc
    ensures var p := (2048 + g.dataLba + (c - 2) * g.spc) * 512 + k; var v := ViewOf(g, disk);
      && 0 <= p && p / 512 < |disk| && k / 512 < |v.data[c]| == g.spc && c < |v.data|
      && v.data[c][k / 512][k % 512] == ByteAt(disk, p)
  {
    g.SectorInRange(c, k / 512);
    assert ClustersOf(g, disk)[c] == ClusterOf(g, disk, c);
  }

  // ── the cache window ──

  /** The `k`-th sector of the window. */
  function Chunk(cache: seq<byte>, k: nat): Sector
    requires |cache| == CACHE_SECTORS * SECTOR_SIZE && k < CACHE_SECTORS
  {
    cache[k * SECTOR_SIZE..k * SECTOR_SIZE + SECTOR_SIZE]
  }

  /** The window stands for the five sectors from sector `pos` of the FAT on. */
  ghost predicate Coherent(g: Geometry, disk: seq<Sector>, cache: seq<byte>, pos: nat)
  {
    && |cache| == CACHE_SECTORS * SECTOR_SIZE
    && g.FatStart() + pos + CACHE_SECTORS <= |disk|
    && forall k :: 0 <= k < CACHE_SECTORS ==> Chunk(cache, k) == disk[g.FatStart() + pos + k]
  }

  function OverlayAt(disk: seq<Sector>, at: nat, cache: seq<byte>, i: nat): Sector
    requires |cache| == CACHE_SECTORS * SECTOR_SIZE && i < |disk|
  {
    if at <= i < at + CACHE_SECTORS then Chunk(cache, i - at) else disk[i]
  }

  /** The device with the sectors from `at` on replaced by the window. */
  function Overlay(disk: seq<Sector>, at: nat, cache: seq<byte>): (r: seq<Sector>)
    requires |cache| == CACHE_SECTORS * SECTOR_SIZE && at + CACHE_SECTORS <= |disk|
    ensures |r| == |disk|
    ensures forall i :: 0 <= i < |disk| && !(at <= i < at + CACHE_SECTORS) ==> r[i] == disk[i]
    ensures forall i :: at <= i < at + CACHE_SECTORS ==> r[i] == Chunk(cache, i - at)
  {
    seq(|disk|, i requires 0 <= i < |disk| => OverlayAt(disk, at, cache, i))
  }

  lemma ChunkWord(cache: seq<byte>, k: nat, r: nat)
    requires |cache| == CACHE_SECTORS * SECTOR_SIZE && k < CACHE_SECTORS && r + 4 <= SECTOR_SIZE
    ensures Le32(cache, k * SECTOR_SIZE + r) == Le32(Chunk(cache, k), r)
  {
  }

  lemma ChunkSplice(cache: seq<byte>, k: nat, r: nat, word: seq<byte>, j: nat)
    requires |cache| == CACHE_SECTORS * SECTOR_SIZE && k < CACHE_SECTORS && r + 4 <= SECTOR_SIZE
    requires |word| == 4 && j < CACHE_SECTORS
    ensures Chunk(Splice(cache, k * SECTOR_SIZE + r, word), j) ==
      if j == k then Splice(Chunk(cache, k), r, word) else Chunk(cache, j)
  {
    var x := Chunk(Splice(cache, k * SECTOR_SIZE + r, word), j);
    var y := if j == k then Splice(Chunk(cache, k), r, word) else Chunk(cache, j);
    forall b | 0 <= b < SECTOR_SIZE
      ensures x[b] == y[b]
    {
    }
  }

  /** A word read through a coherent window is the word on the device. */
  lemma CachedWord(g: Geometry, disk: seq<Sector>, cache: seq<byte>, pos: nat, c: nat)
    requires Coherent(g, disk, cache, pos) && pos <= c / ENTRIES_PER_SECTOR < pos + CACHE_SECTORS
    ensures 0 <= c * 4 - pos * SECTOR_SIZE && c * 4 - pos * SECTOR_SIZE + 4 <= |cache|
    ensures Le32(cache, c * 4 - pos * SECTOR_SIZE) == EntryWord(g, disk, c)
  {
    var k, r := c / ENTRIES_PER_SECTOR - pos, c % ENTRIES_PER_SECTOR * 4;
    assert c * 4 - pos * SECTOR_SIZE == k * SECTOR_SIZE + r;
    ChunkWord(cache, k, r);
  }

  /** Writing back a window in which one entry was changed changes four bytes of the device. */
  lemma WriteBack(g: Geometry, disk: seq<Sector>, cache: seq<byte>, pos: nat, c: nat, word: seq<byte>)
    requires Coherent(g, disk, cache, pos) && pos <= c / ENTRIES_PER_SECTOR < pos + CACHE_SECTORS
    requires |word| == 4
    ensures 0 <= c * 4 - pos * SECTOR_SIZE && c * 4 - pos * SECTOR_SIZE + 4 <= |cache|
    ensures var changed := Splice(cache, c * 4 - pos * SECTOR_SIZE, word);
      && Overlay(disk, g.FatStart() + pos, changed) == PutWord(g, disk, c, word)
      && Coherent(g, PutWord(g, disk, c, word), changed, pos)
  {
    hide Splice, Overlay, Chunk;
    var k, r := c / ENTRIES_PER_SECTOR - pos, c % ENTRIES_PER_SECTOR * 4;
    assert c * 4 - pos * SECTOR_SIZE == k * SECTOR_SIZE + r;
    var changed := Splice(cache, k * SECTOR_SIZE + r, word);
    var d, e := Overlay(disk, g.FatStart() + pos, changed), PutWord(g, disk, c, word);
    forall j | 0 <= j < CACHE_SECTORS
      ensures Chunk(changed, j) == e[g.FatStart() + pos + j]
    {
      ChunkSplice(cache, k, r, word, j);
      assert Chunk(cache, j) == disk[g.FatStart() + pos + j];
    }
    assert d == e;
  }
}
