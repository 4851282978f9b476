/**
  * The driver: its FAT cache, its table of open files, and the calls that read and write the
  * volume on the device.
  */
module FatDriver {
  import opened Bytes
  import opened FatLayout
  import opened FatDirectory
  import opened FatChains
  import opened FatTree
  import opened FatVolume
  import opened FatSteps
  import opened FatStream
  import opened FatScan
  import opened FatFill
  import opened FatWrite
  import opened FatCalls
  import opened FatNames
  import opened FatPaths

  const MAX_HANDLES := 10
  const MAX_PATH := 256
  const NO_POSITION := 0xFFFF_FFFF

  /** An open file or directory: its buffered sector and its place in its chain. */
  class FileData {
    var buffer: Sector
    var isDirectory: bool
    var position: nat
    var size: nat
    var isOpen: bool
    var firstCluster: nat
    var currentCluster: nat
    var currentSector: nat

    constructor ()
      ensures !isOpen && position == 0 && size == 0 && currentSector == 0
    {
      isOpen, isDirectory, position, size := false, false, 0, 0;
      buffer := Zeros(SECTOR_SIZE);
      firstCluster, currentCluster, currentSector := 0, 0, 0;
    }

    /** The handle stands in chain `ch`, with the right sector buffered while bytes remain. */
    ghost predicate In(g: Geometry, v: Vol, ch: seq<nat>)
      reads this
    {
      && Walkable(g, v, ch)
      && firstCluster == (if ch == [] then 0 else ch[0])
      && StreamAt(g, v.data, ch, position, currentCluster, currentSector, buffer)
    }
  }

  /** The answer to a question about the volume's size. */
  datatype DiskInfo = DiskInfo(bytesPerCluster: nat, totalClusters: nat, freeClusters: nat)

  function Least(a: nat, b: nat): nat { if a < b then a else b }

  lemma {:induction false} DistinctCount<T>(s: seq<T>)
    requires forall i, j :: 0 <= i < j < |s| ==> s[i] != s[j]
    ensures |set x | x in s| == |s|
  {
    if s != [] {
      var n := |s| - 1;
      DistinctCount(s[..n]);
      assert (set x | x in s) == (set x | x in s[..n]) + {s[n]};
    }
  }

  lemma NoHitAtAll(slots: seq<Slot>, name: Name, longToo: bool)
    ensures PassedHits(slots, name, longToo, |slots|) ==> NoHitIn(slots, name, longToo)
  {
  }

  lemma SafeNames(t: Tree, root: nat, names: seq<Name>)
    requires root in t && PathSafe(t, root, names)
    ensures NoDots(names)
  {
  }

  lemma DirNamesOf(path: Text)
    ensures Encode(DirComponents(path)) == if NamesRoot(DirPath(path)) then [] else Encode(Components(DirPath(path)))
    ensures !NamesRoot(DirPath(path)) ==> Encode(Components(DirPath(path))) != []
    ensures |DirPath(path)| <= |path| && |FileName(path)| <= |path|
  {
    assert !NamesRoot(DirPath(path)) ==> Stripped(DirPath(path)) != [];
  }

  lemma RootDir(g: Geometry, v: Vol, cat: Catalog)
    requires Sound(g, v, cat)
    ensures g.root in cat.dirs && 0 !in cat.dirs && DirAt(TreeOf(g, v.data, cat), g.root, []) == At(g.root)
    ensures TreeOf(g, v.data, cat).Keys == cat.dirs
  {
  }

  /** The first cluster of what a path names, when a handle is left to open it; 0 when not. */
  ghost function HeadOf(t: Tree, root: nat, names: seq<Name>, pool: bool): nat
    requires root in t
  {
    if names == [] then root
    else
      var r := Lookup(t, root, names);
      if r.Hit? && pool then FirstOf(t[r.dir][r.idx]) else 0
  }

  /** A path to a directory hits the slot of that directory. */
  lemma HeadOfPath(t: Tree, root: nat, names: seq<Name>, pool: bool)
    requires root in t
    ensures names == [] ==> HeadOf(t, root, names, pool) == root && DirAt(t, root, names) == At(root)
    ensures names != [] ==>
      var r := Lookup(t, root, names);
      HeadOf(t, root, names, pool) == if r.Hit? && pool then FirstOf(t[r.dir][r.idx]) else 0
    ensures var p := DirAt(t, root, names);
      p != NotADir ==>
        if p.At? && (names == [] || pool) then HeadOf(t, root, names, pool) == p.dir && p.dir in t
          else HeadOf(t, root, names, pool) == 0
  {
  }

  /** Cluster `c` is the `k`-th of the chain, or an end mark behind its last. */
  ghost predicate Link(ch: seq<nat>, k: nat, c: nat)
  {
    k <= |ch| && if k < |ch| then c == ch[k] && c < END_MIN else c >= END_MIN
  }

  lemma ChainStart(g: Geometry, v: Vol, ch: seq<nat>)
    requires Walkable(g, v, ch) && ch != []
    ensures Link(ch, 0, ch[0]) && NoneFree(SlotsOf(v.data, ch, g.spc), 0)
    ensures forall name, longToo :: PassedHits(SlotsOf(v.data, ch, g.spc), name, longToo, 0)
    ensures |SlotsOf(v.data, ch, g.spc)| == SLOTS_PER_SECTOR * (|ch| * g.spc)
  {
    assert g.InData(ch[0]);
  }

  lemma ChainNext(g: Geometry, v: Vol, ch: seq<nat>, k: nat)
    requires Walkable(g, v, ch) && k < |ch|
    ensures ch[k] < g.Entries() && |v.fat| == g.Entries() && Link(ch, k + 1, v.fat[ch[k]])
  {
    assert g.InData(ch[k]);
    if k + 1 < |ch| {
      assert v.fat[ch[k]] == ch[k + 1] && g.InData(ch[k + 1]);
    }
  }

  lemma ClusterFacts(g: Geometry, v: Vol, ch: seq<nat>, k: nat)
    requires Walkable(g, v, ch) && k < |ch|
    ensures g.spc > 0 && g.InData(ch[k]) && |v.data| == g.dataEnd && |v.data[ch[k]]| == g.spc
    ensures ChainShaped(v.data, ch, g.spc)
  {
  }

  lemma AllSplit(all: seq<Text>, k: nat)
    requires k <= |all| && Split([]) == all[k..]
    ensures k == |all|
  {
  }

  lemma LostWhole(t: Tree, root: nat, names: seq<Name>, k: nat)
    requires root in t && 0 < k <= |names| && DirAt(t, root, names[..k - 1]).At?
    ensures Lookup(t, root, names[..k]) == NoHit ==> Lookup(t, root, names) == NoHit
  {
    if Lookup(t, root, names[..k]) == NoHit {
      StaysLost(t, root, names, k);
    }
  }

  lemma FoundOpenable(g: Geometry, v: Vol, cat: Catalog, d: nat, n: Name)
    requires Sound(g, v, cat) && d in cat.dirs && !IsDotName(n)
    requires Find(TreeOf(g, v.data, cat)[d], n) < |TreeOf(g, v.data, cat)[d]|
    ensures var s := TreeOf(g, v.data, cat)[d][Find(TreeOf(g, v.data, cat)[d], n)];
      Openable(g, v, s, SlotChain(cat, s))
  {
    var t := TreeOf(g, v.data, cat);
    var i := Find(t[d], n);
    assert FirstMatch(t[d], n, i);
    assert EntryOk(cat, t[d][i], d, i, g.ClusterBytes());
    EntryOpenable(g, v, cat, t[d][i], d, i);
  }

  /** Where a safe walk stands after `k` components, and what its next component opens. */
  lemma OpenFacts(g: Geometry, v: Vol, cat: Catalog, t: Tree, names: seq<Name>, k: nat)
    returns (d: nat, target: seq<nat>)
    requires Sound(g, v, cat) && t == TreeOf(g, v.data, cat) && PathSafe(t, g.root, names) && k < |names|
    requires k > 0 ==> Lookup(t, g.root, names[..k]).Hit?
    ensures d in cat.dirs && d in cat.chains && DirAt(t, g.root, names[..k]) == At(d)
    ensures Walkable(g, v, cat.chains[d]) && cat.chains[d] != [] && cat.chains[d][0] == d
    ensures t[d] == SlotsOf(v.data, cat.chains[d], g.spc)
    ensures if k == 0 then d == g.root else
      var r := Lookup(t, g.root, names[..k]); var s := t[r.dir][r.idx]; FirstOf(s) == d && IsDir(s) && SizeOf(s) == 0
    ensures var i := Find(t[d], names[k]);
      && Lookup(t, g.root, names[..k + 1]) == (if i < |t[d]| then Hit(d, i) else NoHit)
      && (k == 0 ==> i < |t[d]| || HasEnd(t[d]))
      && (i < |t[d]| ==> target == SlotChain(cat, t[d][i]) && Openable(g, v, t[d][i], target))
  {
    d := g.root;
    if k > 0 {
      WalkOn(g.root, cat, t, g.ClusterBytes(), names, k);
      var r := Lookup(t, g.root, names[..k]);
      d := FirstOf(t[r.dir][r.idx]);
    }
    HeadWalkable(g, v, cat, d);
    LookupOn(t, g.root, names, k);
    var i := Find(t[d], names[k]);
    target := [];
    if i < |t[d]| {
      target := SlotChain(cat, t[d][i]);
      FoundOpenable(g, v, cat, d, names[k]);
    }
  }

  /** Opening an empty file reads a sector before the data area, which is there to be read. */
  lemma EmptyFileLba(g: Geometry, disk: seq<Sector>)
    requires g.Fits(disk)
    ensures 0 <= PARTITION_OFFSET + g.ClusterToLba(0) < |disk|
  {
  }

  /** A sector of a cluster on the device is that sector of the view. */
  lemma InCluster(g: Geometry, disk: seq<Sector>, c: nat, s: nat)
    requires g.Fits(disk) && g.InData(c) && s < g.spc
    ensures 0 <= g.ClusterAt(c) + s < |disk| && disk[g.ClusterAt(c) + s] == ViewOf(g, disk).data[c][s]
  {
    g.SectorInRange(c, s);
    assert ClustersOf(g, disk)[c] == ClusterOf(g, disk, c);
  }

  lemma RootSector(g: Geometry, disk: seq<Sector>)
    requires g.Fits(disk)
    ensures g.InData(g.root) && |ViewOf(g, disk).data| == g.dataEnd && |ViewOf(g, disk).data[g.root]| > 0
    ensures 0 <= g.ClusterAt(g.root) < |disk| && disk[g.ClusterAt(g.root)] == ViewOf(g, disk).data[g.root][0]
  {
    InCluster(g, disk, g.root, 0);
  }

  lemma LoadedCoherent(g: Geometry, disk: seq<Sector>, cache: seq<byte>, pos: nat)
    requires |cache| == CACHE_SECTORS * SECTOR_SIZE && g.FatStart() + pos + CACHE_SECTORS <= |disk|
    requires forall i :: 0 <= i < |cache| ==> cache[i] == disk[g.FatStart() + pos + i / SECTOR_SIZE][i % SECTOR_SIZE]
    ensures Coherent(g, disk, cache, pos)
  {
    forall k | 0 <= k < CACHE_SECTORS
      ensures Chunk(cache, k) == disk[g.FatStart() + pos + k]
    {
      forall b | 0 <= b < SECTOR_SIZE
        ensures Chunk(cache, k)[b] == disk[g.FatStart() + pos + k][b]
      {
        assert (k * SECTOR_SIZE + b) / SECTOR_SIZE == k && (k * SECTOR_SIZE + b) % SECTOR_SIZE == b;
      }
    }
  }

  /** A write past the FAT copies leaves the window coherent. */
  lemma DataKeepsWindow(g: Geometry, disk: seq<Sector>, cache: seq<byte>, pos: nat, at: nat, b: Sector)
    requires g.Fits(disk) && PARTITION_OFFSET + g.dataLba <= at < |disk|
    requires pos == NO_POSITION || (pos < g.sectorsPerFat && Coherent(g, disk, cache, pos))
    ensures pos == NO_POSITION || (pos < g.sectorsPerFat && Coherent(g, disk[at := b], cache, pos))
  {
  }

  /** The scan for a free entry meets one inside the data area, or no free entry past it. */
  ghost predicate ScanStaysInside(g: Geometry, v: Vol)
    requires Shaped(g, v)
  {
    || (exists c :: g.InData(c) && v.fat[c] == 0)
    || TailUsed(g, v)
  }

  /** The scan for a free entry meets one, or its bound, before the end of the FAT. */
  ghost predicate ScanStaysOnFat(g: Geometry, v: Vol)
    requires Shaped(g, v)
  {
    || (exists c :: 2 <= c < g.Entries() && v.fat[c] == 0)
    || g.ScanEnd() <= g.Entries()
  }

  lemma InsideOnFat(g: Geometry, v: Vol)
    requires Shaped(g, v) && ScanStaysInside(g, v)
    ensures ScanStaysOnFat(g, v)
  {
  }

  /** The scan has gone over used entries only. */
  ghost predicate ScanPassed(g: Geometry, v: Vol, c: nat)
    requires Shaped(g, v)
  {
    2 <= c <= g.Entries() && forall k :: 2 <= k < c ==> v.fat[k] != 0
  }

  lemma ScanBegins(g: Geometry, v: Vol)
    requires Shaped(g, v)
    ensures ScanPassed(g, v, 2) && g.dataEnd <= g.ScanEnd() && g.Entries() == |v.fat|
  {
  }

  lemma NextScanned(g: Geometry, v: Vol, c: nat)
    requires Shaped(g, v) && ScanStaysOnFat(g, v) && 2 <= c < g.ScanEnd() && ScanPassed(g, v, c)
    ensures c < g.Entries() == |v.fat|
    ensures if v.fat[c] == 0 then LowestFree(v.fat, c) && (ScanStaysInside(g, v) ==> g.InData(c))
      else ScanPassed(g, v, c + 1)
  {
  }

  lemma ScanEnds(g: Geometry, v: Vol, c: nat)
    requires Shaped(g, v) && ScanPassed(g, v, c) && g.ScanEnd() <= c
    ensures Full(g, v) && g.ScanEnd() <= |v.fat| && forall k :: 2 <= k < g.ScanEnd() ==> v.fat[k] != 0
  {
  }

  /** The chain of a directory of a consistent volume. */
  lemma DirChain(g: Geometry, v: Vol, cat: Catalog, d: nat) returns (ch: seq<nat>)
    requires Sound(g, v, cat) && d in cat.dirs
    ensures d in cat.chains && ch == cat.chains[d] && Walkable(g, v, ch) && ch != [] && ch[0] == d
    ensures TreeOf(g, v.data, cat)[d] == SlotsOf(v.data, ch, g.spc)
  {
    ch := cat.chains[d];
    HeadWalkable(g, v, cat, d);
  }

  lemma FreeInside(slots: seq<Slot>, at: nat)
    requires FirstFree(slots, at)
    ensures at < |slots| && !NoneFree(slots, |slots|)
  {
  }

  /** The sector that holds slot `at`, on the device. */
  lemma SlotSector(g: Geometry, disk: seq<Sector>, ch: seq<nat>, at: nat)
    requires g.Fits(disk) && Walkable(g, ViewOf(g, disk), ch) && at < |SlotsOf(ViewOf(g, disk).data, ch, g.spc)|
    ensures var lba := SlotLba(g, ch, at);
      && 0 <= PARTITION_OFFSET + lba < |disk|
      && disk[PARTITION_OFFSET + lba] == Sectors(ViewOf(g, disk).data, ch, g.spc)[at / SLOTS_PER_SECTOR]
  {
    var j := at / SLOTS_PER_SECTOR;
    FlatIndex(j, |ch|, g.spc);
    InCluster(g, disk, ch[j / g.spc], j % g.spc);
  }

  lemma ShortNotZero(name: Text)
    requires 0 !in name
    ensures ShortName(name)[0] != 0
  {
    assert ShortName(name)[0] == ShortByte(name, 0);
  }

  lemma FlatNext(k: nat, spc: nat)
    ensures Flat(k + 1, spc) == Flat(k, spc) + spc
  {
    MulDistrib(k, 1, spc);
  }

  lemma DeletedFacts(g: Geometry, v: Vol, c: Catalog, m: Vol, cm: Catalog, names: seq<Name>, d: nat, i: nat, n: Name)
    requires EntryDeleted(g, v, c, m, cm, d, i, n)
    requires PathSafe(TreeOf(g, v.data, c), g.root, names) && DirAt(TreeOf(g, v.data, c), g.root, names) == At(d)
    ensures PathSafe(TreeOf(g, m.data, cm), g.root, names) && DirAt(TreeOf(g, m.data, cm), g.root, names) == At(d)
    ensures !NoneFree(TreeOf(g, m.data, cm)[d], |TreeOf(g, m.data, cm)[d]|)
  {
    WayKeptIn(g, v, c, m, cm, names, d, n);
    DeletedLeavesFree(g, v, c, m, cm, d, i, n);
  }

  lemma CreatedFacts(g: Geometry, m: Vol, w: Vol, c: Catalog, names: seq<Name>, d: nat, at: nat, n: Name)
    requires FileCreated(g, m, w, c, d, at, n)
    requires PathSafe(TreeOf(g, m.data, c), g.root, names) && DirAt(TreeOf(g, m.data, c), g.root, names) == At(d)
    ensures PathSafe(TreeOf(g, w.data, c), g.root, names) && DirAt(TreeOf(g, w.data, c), g.root, names) == At(d)
  {
    WayKeptIn(g, m, c, w, c, names, d, n);
  }

  lemma ReplacedFacts(g: Geometry, v: Vol, c: Catalog, m: Vol, cm: Catalog, d: nat, at: nat, n: Name)
    requires Replaced(g, v, c, m, cm, d, at, n) && n[0] != 0 && n[0] != DELETED && !IsDotName(n)
    ensures EmptyEntry(g, m, cm, d, at, n) && d in c.dirs && Housed(g, m.data, cm) && Housed(g, v.data, c)
    ensures Shaped(g, v) && Shaped(g, m)
    ensures FreeClusters(g, m) == FreeClusters(g, v) + OldLength(g, v, c, d, n)
    ensures TailUsed(g, v) ==> TailUsed(g, m)
    ensures at == EntryPlace(TreeOf(g, v.data, c)[d], n)
    ensures AliasFree(TreeOf(g, v.data, c)[d], n, at) <==> AliasFree(TreeOf(g, m.data, cm)[d], n, at)
  {
  }

  lemma EntryFacts(g: Geometry, m: Vol, cm: Catalog, d: nat, at: nat, n: Name)
    requires EmptyEntry(g, m, cm, d, at, n)
    ensures Consistent(g, m, cm) && d in cm.dirs && Housed(g, m.data, cm) && Shaped(g, m)
    ensures at < |TreeOf(g, m.data, cm)[d]| && Find(TreeOf(g, m.data, cm)[d], n) == at
  {
  }

  lemma DirHead(g: Geometry, v: Vol, cat: Catalog, d: nat)
    requires Sound(g, v, cat) && d in cat.dirs
    ensures d < g.dataEnd <= TWO28
  {
    HeadWalkable(g, v, cat, d);
    assert g.InData(cat.chains[d][0]);
  }

  lemma DataClustersCover(g: Geometry)
    requires g.Valid()
    ensures g.dataEnd <= g.DataClusters() + 2 && g.DataClusters() >= 0
  {
    var n := (g.totalSectors - g.dataLba) / g.spc;
    if n < g.dataEnd - 2 {
      MulMono(n + 1, g.dataEnd - 2, g.spc);
      MulDistrib(n, 1, g.spc);
    }
  }

  /** How far the free count of the volume goes. */
  ghost function Counted(g: Geometry): (n: nat)
    requires g.Valid()
    ensures n <= g.Entries()
  {
    DataClustersCover(g);
    Least(Least(g.DataClusters(), 60000), g.Entries())
  }

  /** A word of the FAT as read from its sector is the link the view holds. */
  lemma EntryAt(g: Geometry, disk: seq<Sector>, s: nat, e: nat)
    requires g.Fits(disk) && s < g.sectorsPerFat && e < ENTRIES_PER_SECTOR
    ensures var c := s * ENTRIES_PER_SECTOR + e;
      && c < g.Entries() == |ViewOf(g, disk).fat| && g.FatStart() + s < |disk|
      && ViewOf(g, disk).fat[c] == Le32(disk[g.FatStart() + s], e * 4) % TWO28
  {
    var c := s * ENTRIES_PER_SECTOR + e;
    assert c / ENTRIES_PER_SECTOR == s && c % ENTRIES_PER_SECTOR == e;
  }

  lemma FirstHitFound(slots: seq<Slot>, n: Name, at: nat)
    requires at < |slots| && Find(slots, n) == at
    ensures !NoHitIn(slots, n, true)
  {
    PatchHit(slots, n, at);
  }

  /** How writing ends: the new entry has received the data, or an alias before it has. */
  lemma EntryPatched(g: Geometry, m: State, b: Vol, t: State, picks: seq<nat>, d: nat, at: nat, n: Name,
      data: seq<byte>, hit: nat)
    requires EmptyEntry(g, m.v, m.cat, d, at, n) && Building(g, m.v, b, picks, data) && d in m.cat.dirs && Fine(g, m)
    requires |picks| > 0 && picks[0] < TWO32 && Sized(|picks|, |data|, g.ClusterBytes()) && 0 < |data| < TWO32
    requires FirstHit(TreeIn(g, m)[d], n, true, hit) && Housed(g, b.data, m.cat)
    requires TreeOf(g, b.data, m.cat) == TreeIn(g, m)
    requires t.v == b.(data :=
      WriteSlot(g, b.data, m.cat.chains[d], hit, Stamp(TreeIn(g, m)[d][hit], picks[0], |data|)))
    requires t.cat == if hit == at then With(m.cat, picks, d, at) else m.cat
    ensures Fine(g, t) && Finishes(g, m, d, at, n, data, t)
    ensures if AliasFree(TreeIn(g, m)[d], n, at) then FileWritten(g, m.v, m.cat, t.v, t.cat, d, at, n, data)
      else LeftEmpty(g, m.v, m.cat, t.v, t.cat, d, at, n)
  {
    hide TreeOf, Consistent, Building, FileWritten, LeftEmpty, WriteSlot, Stamp, AliasFree, FirstHit, EmptyEntry, Sized,
      With;
    BuiltKeeps(g, m.v, m.cat, b, picks, data);
    assert Patches(g, m, d, at, n, data, b, picks, hit, t);
    PatchKeeps(g, m, d, at, n, data, b, picks, hit, t);
    assert Fills(g, m, d, at, n, data, b, picks, t);
  }

  lemma RenewedAfresh(g: Geometry, s: State, t: State, d: nat, at: nat, n: Name)
    requires Fine(g, s) && Does(g, s, Create(d, at, n), t) && Nameable(n)
    requires d in s.cat.dirs && Find(TreeIn(g, s)[d], n) == |TreeIn(g, s)[d]|
    ensures Renews(g, s, d, at, n, t)
  {
    hide Consistent, TreeOf, CanCreate, AfterCreate;
  }

  lemma RenewedByDelete(g: Geometry, s: State, e: State, t: State, d: nat, i: nat, at: nat, n: Name)
    requires Fine(g, s) && Does(g, s, Delete(d, i, n), e) && Nameable(n)
    requires Fine(g, e) && Does(g, e, Create(d, at, n), t)
    ensures Renews(g, s, d, at, n, t)
  {
    hide Consistent, TreeOf, CanCreate, AfterCreate, AfterDelete;
    DeleteKeeps(g, s, d, i, n);
  }

  lemma WriteDone(g: Geometry, s: State, m: State, t: State, d: nat, at: nat, n: Name, data: seq<byte>)
    requires Fine(g, s) && Renews(g, s, d, at, n, m) && Fine(g, m) && d in m.cat.dirs
    requires if data == [] then t == m else Finishes(g, m, d, at, n, data, t)
    ensures Fine(g, t) && Does(g, s, Write(d, at, n, data), t)
    ensures d in s.cat.dirs && at == EntryPlace(TreeIn(g, s)[d], n)
    ensures if data == [] || AliasFree(TreeIn(g, s)[d], n, at)
      then FileWritten(g, s.v, s.cat, t.v, t.cat, d, at, n, data)
      else LeftEmpty(g, s.v, s.cat, t.v, t.cat, d, at, n)
  {
    hide Consistent, Renews, TreeOf, Fills, AliasFree, EntryPlace, FileWritten, LeftEmpty, EmptyEntry, Replaced;
    RenewKeeps(g, s, d, at, n, m);
    assert Finishes(g, m, d, at, n, data, t);
    WriteKeeps(g, s, d, at, n, data, t);
  }

  lemma WriteCut(g: Geometry, s: State, m: State, t: State, d: nat, at: nat, n: Name, data: seq<byte>)
    requires Fine(g, s) && Renews(g, s, d, at, n, m) && Exhausts(g, m, data, t)
    ensures Fine(g, t) && Does(g, s, WriteShort(d, at, n, data), t)
    ensures LeftEmpty(g, s.v, s.cat, t.v, t.cat, d, at, n)
  {
    hide Consistent, Renews, Exhausts, LeftEmpty;
    ShortKeeps(g, s, d, at, n, data, t);
  }

  lemma ClusterTaken(g: Geometry, s: State, d: nat, c: nat, b: Vol)
    requires Fine(g, s) && d in s.cat.dirs && d < TWO32 && c < TWO32 && Building(g, s.v, b, [c], [])
    requires c < |b.data| && FreshDir(b.data[c], c, d)
    ensures TakesCluster(g, s, d, c, b)
  {
  }

  lemma NoSlotLeft(g: Geometry, s: State, d: nat, n: Name, c: nat, b: Vol)
    requires Fine(g, s) && TakesCluster(g, s, d, c, b)
    requires Housed(g, b.data, s.cat) && TreeOf(g, b.data, s.cat) == TreeIn(g, s)
    requires NoneFree(TreeIn(g, s)[d], |TreeIn(g, s)[d]|)
    ensures Does(g, s, MakeDirFull(d, n, c), State(b, s.cat)) && Changed(g, s.v, s.cat, b, s.cat, d, n)
  {
    hide Consistent, TreeOf, Building, NoneFree, Changed, FreshDir;
    BuiltChanged(g, s.v, s.cat, b, [c], [], d, n);
  }

  lemma BuiltThere(g: Geometry, s: State, b: Vol, d: nat, at: nat)
    requires Fine(g, s) && Housed(g, b.data, s.cat) && TreeOf(g, b.data, s.cat) == TreeIn(g, s)
    requires d in s.cat.dirs && FirstFree(TreeIn(g, s)[d], at)
    ensures d in s.cat.chains && ChainShaped(b.data, s.cat.chains[d], g.spc)
    ensures at < |SlotsOf(b.data, s.cat.chains[d], g.spc)|
  {
  }

  lemma DirPlaced(g: Geometry, s: State, b: Vol, d: nat, at: nat, n: Name, c: nat)
    requires Fine(g, s) && TakesCluster(g, s, d, c, b) && FirstFree(TreeIn(g, s)[d], at) && Nameable(n)
    ensures Housed(g, b.data, s.cat) && TreeOf(g, b.data, s.cat) == TreeIn(g, s)
    ensures var t := State(b.(data := WriteSlot(g, b.data, s.cat.chains[d], at, NewSlot(n, ATTR_DIRECTORY, c))),
      WithDir(s.cat, c, d, at));
      Fine(g, t) && Does(g, s, MakeDir(d, at, n, c), t) && DirCreated(g, s.v, s.cat, t.v, t.cat, d, at, n, c)
  {
    hide Consistent, TreeOf, Building, Changed, FreshDir, DirCreated, WriteSlot, NewSlot, FirstFree;
    BuiltKeeps(g, s.v, s.cat, b, [c], []);
    ConsistentRooted(g, b, s.cat);
    BuiltThere(g, s, b, d, at);
    var t := State(b.(data := WriteSlot(g, b.data, s.cat.chains[d], at, NewSlot(n, ATTR_DIRECTORY, c))),
      WithDir(s.cat, c, d, at));
    assert Places(g, s, d, at, n, c, b, t);
    MakeDirKeeps(g, s, d, at, n, c, t);
  }

  lemma FirstPick(g: Geometry, m: Vol, b: Vol, picks: seq<nat>, data: seq<byte>)
    requires Building(g, m, b, picks, data) && |picks| > 0
    ensures picks[0] < g.dataEnd <= TWO28
  {
    assert g.InData(picks[0]);
  }

  lemma WindowInside(g: Geometry, disk: seq<Sector>, cache: seq<byte>, pos: nat, c: nat)
    requires Coherent(g, disk, cache, pos) && pos <= c / ENTRIES_PER_SECTOR < pos + CACHE_SECTORS
    ensures |cache| == CACHE_SECTORS * SECTOR_SIZE && g.FatStart() + pos + CACHE_SECTORS <= |disk|
    ensures g.FatStart() + c / ENTRIES_PER_SECTOR < |disk|
    ensures forall d: seq<Sector> :: |d| == |disk| && g.Fits(disk) ==> g.Fits(d)
  {
  }

  class Driver {
    const g: Geometry
    var disk: seq<Sector>
    const fatCache: array<byte>
    var cachePos: nat
    const rootDir: FileData
    const files: seq<FileData>
    ghost var cat: Catalog

    ghost predicate Ready()
      reads this`disk, this`cachePos, fatCache
    {
      && g.Fits(disk)
      && fatCache.Length == CACHE_SECTORS * SECTOR_SIZE
      && (cachePos == NO_POSITION || (cachePos < g.sectorsPerFat && Coherent(g, disk, fatCache[..], cachePos)))
      && |files| == MAX_HANDLES
      && rootDir !in files
      && forall i, j :: 0 <= i < j < |files| ==> files[i] != files[j]
    }

    lemma ReadyFits()
      requires Ready()
      ensures g.Fits(disk)
    {
    }

    ghost function View(): (v: Vol)
      requires g.Fits(disk)
      reads this`disk
      ensures Shaped(g, v)
    {
      ViewOf(g, disk)
    }

    /** The volume and its catalog as they are now. */
    ghost function Here(): State
      requires g.Fits(disk)
      reads this`disk, this`cat
    {
      State(View(), cat)
    }

    /** The driver after its boot sector was read: nothing cached, no file open, the root ready. */
    constructor (g: Geometry, disk: seq<Sector>, ghost cat: Catalog)
      requires g.Fits(disk)
      ensures this.g == g && this.disk == disk && this.cat == cat && Ready()
      ensures rootDir.isDirectory && rootDir.isOpen && rootDir.size == 0 && rootDir.position == 0
      ensures rootDir.firstCluster == rootDir.currentCluster == g.root && rootDir.currentSector == 0
      ensures g.InData(g.root) && rootDir.buffer == View().data[g.root][0]
      ensures |files| == 10 && forall f :: f in files ==> !f.isOpen
      ensures fresh(fatCache) && fresh(rootDir) && fresh(files)
    {
      hide ViewOf, Geometry.Valid, Geometry.ClusterAt, Coherent;
      var table: seq<FileData> := [];
      for i := 0 to MAX_HANDLES
        invariant |table| == i
        invariant forall j :: 0 <= j < i ==> fresh(table[j]) && !table[j].isOpen
        invariant forall j, k :: 0 <= j < k < i ==> table[j] != table[k]
      {
        var f := new FileData();
        table := table + [f];
      }
      var dir := new FileData();
      dir.isDirectory, dir.isOpen, dir.firstCluster, dir.currentCluster := true, true, g.root, g.root;
      RootSector(g, disk);
      dir.buffer := disk[g.ClusterAt(g.root)];
      this.g, this.disk, this.cat := g, disk, cat;
      fatCache := new byte[CACHE_SECTORS * SECTOR_SIZE](i => 0);
      cachePos := NO_POSITION;
      rootDir, files := dir, table;
    }

    // ── the FAT cache ──

    /** Loads the window at `sector` unless it already covers it. */
    method LoadWindow(sector: nat)
      requires Ready() && sector < g.sectorsPerFat
      modifies this`cachePos, fatCache
      ensures Ready() && cachePos != NO_POSITION && cachePos <= sector < cachePos + CACHE_SECTORS
    {
      if sector < cachePos || sector >= (cachePos + CACHE_SECTORS) % TWO32 {
        forall i | 0 <= i < fatCache.Length {
          fatCache[i] := disk[g.FatStart() + sector + i / SECTOR_SIZE][i % SECTOR_SIZE];
        }
        cachePos := sector;
        LoadedCoherent(g, disk, fatCache[..], sector);
      }
    }

    /** The link of a cluster. */
    method NextCluster(current: nat) returns (next: nat)
      requires Ready() && current < g.Entries()
      modifies this`cachePos, fatCache
      ensures Ready() && next == View().fat[current]
    {
      var fatIndex := current * 4;
      LoadWindow(fatIndex / SECTOR_SIZE);
      CachedWord(g, disk, fatCache[..], cachePos, current);
      fatIndex := fatIndex - cachePos * SECTOR_SIZE;
      next := Le32(fatCache[..], fatIndex) % TWO28;
    }

    method StoreBytes(offset: nat, word: seq<byte>)
      requires |word| == 4 && offset + 4 <= fatCache.Length
      modifies fatCache
      ensures fatCache[..] == Splice(old(fatCache[..]), offset, word)
    {
      forall b | 0 <= b < 4 {
        fatCache[offset + b] := word[b];
      }
    }

    /** Stores a word of the window in place and writes the window's five sectors back. */
    method StoreWord(offset: nat, word: seq<byte>, ghost cluster: nat)
      requires Ready() && |word| == 4 && cachePos != NO_POSITION && cluster < g.Entries()
      requires cachePos <= cluster / ENTRIES_PER_SECTOR < cachePos + CACHE_SECTORS
      requires offset == cluster * 4 - cachePos * SECTOR_SIZE
      modifies this`disk, fatCache
      ensures g.FatStart() + cluster / ENTRIES_PER_SECTOR < |old(disk)|
      ensures Ready() && disk == PutWord(g, old(disk), cluster, word)
    {
      hide Splice, Overlay, PutWord, Coherent, Geometry.Fits;
      WindowInside(g, disk, fatCache[..], cachePos, cluster);
      WriteBack(g, disk, fatCache[..], cachePos, cluster, word);
      ghost var changed := Splice(fatCache[..], offset, word);
      StoreBytes(offset, word);
      assert fatCache[..] == changed;
      disk := Overlay(disk, g.FatStart() + cachePos, fatCache[..]);
    }

    /** Sets the low 28 bits of one link and writes the window back. */
    method SetCluster(cluster: nat, value: nat)
      requires Ready() && cluster < g.Entries()
      modifies this`disk, this`cachePos, fatCache
      ensures Ready() && g.FatStart() + cluster / ENTRIES_PER_SECTOR < |old(disk)|
      ensures disk == PutEntry(g, old(disk), cluster, value)
      ensures View() == PutLink(old(View()), cluster, value)
    {
      var fatIndex := cluster * 4;
      LoadWindow(fatIndex / SECTOR_SIZE);
      CachedWord(g, disk, fatCache[..], cachePos, cluster);
      var offset := fatIndex - cachePos * SECTOR_SIZE;
      var word := ToLe32(MergeEntry(Le32(fatCache[..], offset), value));
      PutEntryView(g, disk, cluster, value);
      StoreWord(offset, word, cluster);
    }

    // ── the data area ──

    method ReadSector(lba: int) returns (b: Sector)
      requires 0 <= PARTITION_OFFSET + lba < |disk|
      ensures b == disk[PARTITION_OFFSET + lba]
    {
      b := disk[PARTITION_OFFSET + lba];
    }

    /** Reads sector `s` of cluster `c`. */
    method ReadCluster(c: nat, s: nat) returns (b: Sector)
      requires g.Fits(disk) && g.InData(c) && s < g.spc
      ensures b == View().data[c][s]
    {
      InCluster(g, disk, c, s);
      b := ReadSector(g.ClusterToLba(c) + s);
    }

    /** Writes sector `s` of cluster `c`. */
    method WriteSector(lba: int, b: Sector, ghost c: nat, ghost s: nat)
      requires Ready() && g.InData(c) && s < g.spc && lba == g.ClusterToLba(c) + s
      modifies this`disk
      ensures Ready() && View() == PutData(old(View()), c, s, b)
      ensures 0 <= g.ClusterAt(c) + s < |old(disk)| && disk == old(disk)[g.ClusterAt(c) + s := b]
    {
      g.SectorInRange(c, s);
      PutSectorView(g, disk, c, s, b);
      DataKeepsWindow(g, disk, fatCache[..], cachePos, PARTITION_OFFSET + lba, b);
      disk := disk[PARTITION_OFFSET + lba := b];
    }

    /** Takes the lowest free entry before the scan's bound and marks it as the end of a chain; 0 when
      * there is none. */
    method AllocCluster() returns (c: nat)
      requires Ready() && ScanStaysOnFat(g, View())
      modifies this`disk, this`cachePos, fatCache
      ensures Ready()
      ensures c == 0 <==>
        g.ScanEnd() <= |old(View()).fat| && forall k :: 2 <= k < g.ScanEnd() ==> old(View()).fat[k] != 0
      ensures c == 0 ==> disk == old(disk) && Full(g, View())
      ensures c != 0 ==>
        && c < g.ScanEnd() && LowestFree(old(View()).fat, c)
        && View() == PutLink(old(View()), c, 0x0FFF_FFFF)
      ensures c != 0 && ScanStaysInside(g, old(View())) ==> g.InData(c)
    {
      hide ViewOf, View, Ready, Shaped, ScanStaysOnFat, ScanStaysInside, ScanPassed, Full;
      ReadyFits();
      ghost var v := View();
      ScanBegins(g, v);
      var total := g.totalSectors / g.spc;
      c := 2;
      while c < total
        invariant Ready() && disk == old(disk) && ScanPassed(g, v, c) && 2 <= c
      {
        NextScanned(g, v, c);
        var next := NextCluster(c);
        if next == 0 {
          SetCluster(c, END_OF_CHAIN);
          return;
        }
        c := c + 1;
      }
      ScanEnds(g, v, c);
      c := 0;
    }

    // ── reading ──

    /** Moves a handle that has used up its sector on to the next one of its chain; at the end of
      * the chain a handle other than the root's remembers where it ended. */
    method Advance(fd: FileData, ghost v: Vol, ghost ch: seq<nat>, ghost j: nat) returns (ended: bool)
      requires Ready() && v == View() && Walkable(g, v, ch)
      requires j < SectorCount(g, ch) && fd.position == (j + 1) * SECTOR_SIZE
      requires 0 <= j / g.spc < |ch| && fd.currentCluster == ch[j / g.spc] && fd.currentSector == j % g.spc < g.spc
      modifies this`cachePos, fatCache, fd`currentCluster, fd`currentSector, fd`size, fd`buffer
      ensures Ready()
      ensures ended <==> fd.position == Total(g, ch)
      ensures fd.size == if ended && fd != rootDir then fd.position else old(fd.size)
      ensures StreamAt(g, v.data, ch, fd.position, fd.currentCluster, fd.currentSector, fd.buffer)
    {
      hide ViewOf, View, Ready, Shaped, ChainOk, StreamAt, Total, Walkable, ChainShaped;
      ReadyFits();
      WalkableShaped(g, v, ch);
      StreamStep(g, v.data, ch, j);
      LinkAfter(g, v, ch, j / g.spc);
      fd.currentSector := fd.currentSector + 1;
      if fd.currentSector >= g.spc {
        fd.currentSector := 0;
        fd.currentCluster := NextCluster(fd.currentCluster);
        if fd.currentCluster >= END_MIN {
          if fd != rootDir {
            fd.size := fd.position;
          }
          StreamEnd(g, v.data, ch, fd.currentCluster, fd.currentSector, fd.buffer);
          return true;
        }
      }
      fd.buffer := ReadCluster(fd.currentCluster, fd.currentSector);
      return false;
    }

    /** One round of the reading loop: copies what the buffered sector still has to give. */
    method TakeBytes(fd: FileData, n: nat, ghost v: Vol, ghost ch: seq<nat>) returns (piece: seq<byte>, ended: bool)
      requires Ready() && v == View() && Walkable(g, v, ch)
      requires StreamAt(g, v.data, ch, fd.position, fd.currentCluster, fd.currentSector, fd.buffer)
      requires 0 < n && fd.position < Total(g, ch)
      modifies this`cachePos, fatCache, fd`position, fd`currentCluster, fd`currentSector, fd`size, fd`buffer
      ensures Ready()
      ensures StreamAt(g, v.data, ch, fd.position, fd.currentCluster, fd.currentSector, fd.buffer)
      ensures 0 < |piece| <= n && fd.position == old(fd.position) + |piece| <= Total(g, ch)
      ensures piece == Stream(g, v.data, ch)[old(fd.position)..fd.position]
      ensures ended <==> fd.position == Total(g, ch)
      ensures fd.size == if ended && fd != rootDir then fd.position else old(fd.size)
    {
      hide ViewOf, View, Ready, Shaped, ChainOk, ChainShaped, StreamAt, Stream, Walkable;
      ReadyFits();
      WalkableShaped(g, v, ch);
      ghost var j := fd.position / SECTOR_SIZE;
      var posInSector := fd.position % SECTOR_SIZE;
      var left := SECTOR_SIZE - posInSector;
      var take := if n < left then n else left;
      BufferBytes(g, v.data, ch, fd.position, fd.currentCluster, fd.currentSector, fd.buffer, take);
      StreamPlace(g, v.data, ch, fd.position, fd.currentCluster, fd.currentSector, fd.buffer, take);
      piece := fd.buffer[posInSector..posInSector + take];
      fd.position := fd.position + take;
      ended := false;
      if left == take {
        ended := Advance(fd, v, ch, j);
      }
    }

    /** The reading loop. */
    method CopyOut(fd: FileData, byteCount: nat, ghost v: Vol, ghost ch: seq<nat>) returns (out: seq<byte>)
      requires Ready() && v == View() && Walkable(g, v, ch)
      requires StreamAt(g, v.data, ch, fd.position, fd.currentCluster, fd.currentSector, fd.buffer)
      requires byteCount > 0 ==> fd.position < Total(g, ch)
      modifies this`cachePos, fatCache, fd`position, fd`currentCluster, fd`currentSector, fd`size, fd`buffer
      ensures Ready()
      ensures StreamAt(g, v.data, ch, fd.position, fd.currentCluster, fd.currentSector, fd.buffer)
      ensures fd.position == if old(fd.position) + byteCount < Total(g, ch) then old(fd.position) + byteCount
        else Total(g, ch)
      ensures out == Stream(g, v.data, ch)[old(fd.position)..fd.position]
      ensures fd.size == if byteCount > 0 && fd != rootDir && fd.position == Total(g, ch) then Total(g, ch)
        else old(fd.size)
    {
      hide ViewOf, Shaped, ChainOk, ChainShaped, StreamAt, Stream, Total, Walkable, Ready, View;
      ReadyFits();
      WalkableShaped(g, v, ch);
      StreamBound(g, v.data, ch, fd.position, fd.currentCluster, fd.currentSector, fd.buffer);
      ghost var start, total, all := fd.position, Total(g, ch), Stream(g, v.data, ch);
      var n: nat := byteCount;
      out := [];
      while n > 0
        invariant g.Fits(disk) && Ready() && v == View()
        invariant StreamAt(g, v.data, ch, fd.position, fd.currentCluster, fd.currentSector, fd.buffer)
        invariant start <= fd.position <= total && fd.position + n == start + byteCount
        invariant out == all[start..fd.position]
        invariant n > 0 ==> fd.position < total
        invariant fd.size == if n < byteCount && fd != rootDir && fd.position == total then total else old(fd.size)
      {
        ghost var before := fd.position;
        var piece, ended := TakeBytes(fd, n, v, ch);
        SliceJoin(all, start, before, fd.position);
        out := out + piece;
        n := n - |piece|;
        if ended {
          break;
        }
      }
    }

    /** How far reads of a handle go: its size, or the end of its chain for a directory. */
    ghost function Limit(fd: FileData, ch: seq<nat>): nat
      reads fd
    {
      if !fd.isDirectory || fd.size != 0 then fd.size else Total(g, ch)
    }

    /** The handle may be read on chain `ch`: it stands within its size or its chain. */
    ghost predicate Readable(fd: FileData, ch: seq<nat>)
      reads this`disk, fd
      requires g.Fits(disk)
    {
      && fd.In(g, View(), ch)
      && fd.position <= Limit(fd, ch) <= Total(g, ch)
      && (fd == rootDir ==> fd.isDirectory && fd.size == 0)
    }

    /** Reads up to `byteCount` bytes from where the handle stands. */
    method Read(fd: FileData, byteCount: nat, ghost ch: seq<nat>) returns (out: seq<byte>)
      requires Ready() && Readable(fd, ch)
      requires fd.isDirectory && fd.size == 0 ==> fd.position < Total(g, ch)
      requires fd == rootDir ==> fd.position + byteCount <= Total(g, ch)
      modifies this`cachePos, fatCache, fd`position, fd`currentCluster, fd`currentSector, fd`size, fd`buffer
      ensures Ready() && Readable(fd, ch)
      ensures var limit := if old(fd.isDirectory && fd.size == 0) then Total(g, ch) else old(fd.size);
        var stop := old(fd.position) + byteCount;
        && fd.position == (if stop < limit then stop else limit)
        && out == Stream(g, View().data, ch)[old(fd.position)..fd.position]
      ensures fd.size == if fd != rootDir && fd.isDirectory && fd.position == Total(g, ch) then Total(g, ch)
        else old(fd.size)
    {
      hide ViewOf, Shaped, ChainOk, StreamAt, Stream, Walkable, ChainShaped, Total;
      WalkableShaped(g, View(), ch);
      var n: nat := byteCount;
      if !fd.isDirectory || fd.size != 0 {
        if n > fd.size - fd.position {
          n := fd.size - fd.position;
        }
      }
      out := CopyOut(fd, n, View(), ch);
    }

    // ── searching a directory ──

    /** Puts a handle back to the start of its chain. */
    method Rewind(fd: FileData, ghost v: Vol, ghost ch: seq<nat>)
      requires Ready() && v == View() && Walkable(g, v, ch) && ch != [] && fd.firstCluster == ch[0]
      modifies fd`position, fd`currentCluster, fd`currentSector, fd`buffer
      ensures fd.position == 0 && fd.In(g, v, ch)
    {
      fd.position, fd.currentCluster, fd.currentSector := 0, fd.firstCluster, 0;
      assert g.InData(ch[0]);
      fd.buffer := ReadCluster(fd.currentCluster, 0);
      StreamStart(g, v.data, ch);
    }

    /** The scan of a directory stands before slot `i`. */
    ghost predicate Scanning(fd: FileData, v: Vol, ch: seq<nat>, i: nat)
      reads fd
    {
      && fd.In(g, v, ch)
      && fd.position == SLOT_SIZE * i <= Total(g, ch)
      && fd.isDirectory
      && fd.size == if fd != rootDir && SLOT_SIZE * i == Total(g, ch) && i > 0 then Total(g, ch) else 0
    }

    lemma ScanBegun(fd: FileData, v: Vol, ch: seq<nat>)
      requires Scanning(fd, v, ch, 0)
      ensures ChainShaped(v.data, ch, g.spc) && fd.size == 0 && fd.isDirectory
    {
    }

    /** Reads the next slot; nothing is left after the last one. */
    method ReadEntry(fd: FileData, ghost v: Vol, ghost ch: seq<nat>, ghost i: nat) returns (ok: bool, entry: Slot)
      requires Ready() && v == View() && Scanning(fd, v, ch, i) && ch != []
      requires fd == rootDir ==> i < |SlotsOf(v.data, ch, g.spc)|
      modifies this`cachePos, fatCache, fd`position, fd`currentCluster, fd`currentSector, fd`size, fd`buffer
      ensures Ready()
      ensures ok <==> i < |SlotsOf(v.data, ch, g.spc)|
      ensures ok ==> entry == SlotsOf(v.data, ch, g.spc)[i] && Scanning(fd, v, ch, i + 1)
      ensures fd == rootDir ==> fd.size == 0
    {
      hide Shaped, ViewOf, View, Ready, ChainOk, StreamAt, Stream, SlotsOf, Walkable, ChainShaped;
      ReadyFits();
      ScanPlace(g, v, ch, i);
      var bytes := Read(fd, SLOT_SIZE, ch);
      ok := |bytes| == SLOT_SIZE;
      entry := if ok then bytes else Zeros(SLOT_SIZE);
    }

    /** The search loop, from the first slot on. */
    method ScanFor(dir: FileData, short: Name, ghost v: Vol, ghost ch: seq<nat>) returns (found: bool, entry: Slot)
      requires Ready() && v == View() && ch != [] && Scanning(dir, v, ch, 0)
      requires var slots := SlotsOf(v.data, ch, g.spc);
        dir == rootDir ==> Find(slots, short) < |slots| || HasEnd(slots)
      modifies this`cachePos, fatCache, dir`position, dir`currentCluster, dir`currentSector, dir`size, dir`buffer
      ensures Ready()
      ensures var slots := SlotsOf(v.data, ch, g.spc); var r := Find(slots, short);
        (found <==> r < |slots|) && (found ==> entry == slots[r])
      ensures dir == rootDir ==> dir.size == 0
    {
      hide Walkable, Shaped, ViewOf, ChainOk, ChainShaped, SlotsOf, Total, FileData.In, Scanning, Ready, View, Find,
        Passed;
      ReadyFits();
      ScanBegun(dir, v, ch);
      ghost var slots := SlotsOf(v.data, ch, g.spc);
      PassedNone(slots, short);
      found := false;
      ghost var i := 0;
      while true
        invariant g.Fits(disk) && Ready() && v == View() && !found
        invariant i <= |slots| && Scanning(dir, v, ch, i) && (dir == rootDir ==> dir.size == 0)
        invariant Passed(slots, short, i)
        decreases |slots| - i
      {
        SearchStep(slots, short, i);
        var ok;
        ok, entry := ReadEntry(dir, v, ch, i);
        if !ok {
          break;
        }
        i := i + 1;
        if entry[0] == 0 {
          break;
        }
        if entry[0] != DELETED && AttrOf(entry) != ATTR_LFN && NameOf(entry) == short {
          found := true;
          break;
        }
      }
    }

    /** Looks a name up in an open directory. */
    method FindInDir(dir: FileData, name: Text, ghost v: Vol, ghost ch: seq<nat>) returns (found: bool, entry: Slot)
      requires Ready() && v == View() && Walkable(g, v, ch) && ch != []
      requires dir.firstCluster == ch[0] && dir.isDirectory && dir.size == 0
      requires var slots := SlotsOf(v.data, ch, g.spc);
        dir == rootDir ==> Find(slots, ShortName(name)) < |slots| || HasEnd(slots)
      modifies this`cachePos, fatCache, dir`position, dir`currentCluster, dir`currentSector, dir`size, dir`buffer
      ensures Ready()
      ensures var slots := SlotsOf(v.data, ch, g.spc); var r := Find(slots, ShortName(name));
        (found <==> r < |slots|) && (found ==> entry == slots[r])
      ensures dir == rootDir ==> dir.size == 0
    {
      var encoded := GetShortName(name);
      var short: Name := encoded[..];
      Rewind(dir, v, ch);
      StreamStart(g, v.data, ch);
      found, entry := ScanFor(dir, short, v, ch);
    }

    // ── opening and closing ──

    /** The handle stands at the start of the file or directory of a slot. */
    ghost predicate Opens(file: FileData, entry: Slot, v: Vol, ch: seq<nat>)
      reads file
    {
      && file.isOpen
      && file.isDirectory == IsDir(entry)
      && file.position == 0
      && file.size == SizeOf(entry)
      && file.In(g, v, ch)
    }

    /** The handles that are free to take. */
    ghost function Closed(): (c: set<FileData>)
      reads files
    {
      set f | f in files && !f.isOpen
    }

    /** The handle itself if it is one of the table. */
    ghost function Just(file: FileData?): (c: set<FileData>)
    {
      if file == null || file == rootDir then {} else {file}
    }

    method InitHandle(file: FileData, entry: Slot, ghost v: Vol, ghost ch: seq<nat>)
      requires Ready() && v == View() && Openable(g, v, entry, ch)
      modifies file
      ensures Opens(file, entry, v, ch)
    {
      hide ViewOf, IsDir, SizeOf, FirstOf, Coherent, Shaped, LinksInRange;
      file.isDirectory := IsDir(entry);
      file.position := 0;
      file.size := SizeOf(entry);
      file.firstCluster := FirstOf(entry);
      file.currentCluster := file.firstCluster;
      file.currentSector := 0;
      file.isOpen := true;
      if ch != [] {
        assert g.InData(ch[0]);
        InCluster(g, disk, ch[0], 0);
        StreamStart(g, v.data, ch);
      } else {
        EmptyFileLba(g, disk);
      }
      file.buffer := ReadSector(g.ClusterToLba(file.currentCluster));
    }

    /** Takes the lowest closed handle for an entry; null when all are open. */
    method OpenEntry(entry: Slot, ghost v: Vol, ghost ch: seq<nat>) returns (file: FileData?)
      requires Ready() && v == View() && Openable(g, v, entry, ch)
      modifies Closed()
      ensures file == null <==> old(Closed()) == {}
      ensures file != null ==> file in old(Closed()) && Opens(file, entry, v, ch)
      ensures file != null ==> exists h :: 0 <= h < |files| && files[h] == file && forall j :: 0 <= j < h ==>
        old(files[j].isOpen)
      ensures Closed() == old(Closed()) - Just(file)
    {
      var handle := 0;
      while handle < |files| && files[handle].isOpen
        invariant handle <= |files| && forall j :: 0 <= j < handle ==> files[j].isOpen
      {
        handle := handle + 1;
      }
      if handle == |files| {
        return null;
      }
      file := files[handle];
      hide ViewOf, Shaped, ChainOk, Stream, TreeOk;
      assert file in Closed();
      InitHandle(file, entry, v, ch);
    }

    method Close(file: FileData)
      modifies file`position, file`currentCluster, file`currentSector, file`isOpen
      ensures if file == rootDir
        then file.isOpen == old(file.isOpen) && file.position == 0 && file.currentCluster == file.firstCluster
          && file.currentSector == 0
        else !file.isOpen && file.position == old(file.position) && file.currentCluster == old(file.currentCluster)
      ensures file in files && file != rootDir ==> Closed() == old(Closed()) + {file}
    {
      if file == rootDir {
        file.position, file.currentCluster, file.currentSector := 0, file.firstCluster, 0;
      } else {
        file.isOpen := false;
      }
    }

    /** The handle is a directory's, with head `d` and no size. */
    ghost predicate AtDir(fd: FileData, d: nat)
      reads fd
    {
      fd.isDirectory && fd.size == 0 && fd.firstCluster == d
    }

    ghost predicate RootReady()
      reads rootDir
    {
      AtDir(rootDir, g.root)
    }

    /** Ready for reading. */
    ghost predicate Usable()
      reads this, fatCache, rootDir
    {
      Ready() && RootReady() && Sound(g, View(), cat)
    }

    /** Between calls: the volume is consistent. */
    ghost predicate Valid()
      reads this, fatCache, rootDir
    {
      Ready() && RootReady() && Consistent(g, View(), cat)
    }

    ghost function Tree(): (t: Tree)
      reads this`disk, this`cat
      requires g.Fits(disk) && Housed(g, View().data, cat)
      ensures t.Keys == cat.dirs
    {
      TreeOf(g, View().data, cat)
    }

    /** Looks one component up in the directory with chain `ch` and opens what it names, whose
      * chain is `target`. */
    method OpenStep(current: FileData, name: Text, ghost v: Vol, ghost ch: seq<nat>, ghost target: seq<nat>)
      returns (next: FileData?)
      requires Ready() && RootReady() && v == View() && Walkable(g, v, ch) && ch != [] && AtDir(current, ch[0])
      requires var slots := SlotsOf(v.data, ch, g.spc); var r := Find(slots, ShortName(name));
        && (current == rootDir ==> r < |slots| || HasEnd(slots))
        && (r < |slots| ==> Openable(g, v, slots[r], target))
      requires current != rootDir ==> current in files && current.isOpen
      modifies this`cachePos, fatCache, rootDir, current, Closed()
      ensures Ready() && RootReady()
      ensures var slots := SlotsOf(v.data, ch, g.spc); var r := Find(slots, ShortName(name));
        var pool := old(Closed()) + Just(current);
        && (next != null <==> r < |slots| && pool != {})
        && (next != null ==> next in pool && Opens(next, slots[r], v, target))
        && Closed() == pool - Just(next)
    {
      hide ViewOf, View, Shaped, ChainOk, Walkable, Openable, Find, SlotsOf, FileData.In, ChainShaped, Ready, Opens;
      ReadyFits();
      WalkableShaped(g, v, ch);
      var found, entry := FindInDir(current, name, v, ch);
      if current != rootDir {
        Close(current);
      }
      assert Closed() == old(Closed()) + Just(current);
      if !found {
        return null;
      }
      next := OpenEntry(entry, v, target);
    }

    /** After `k` components the walk stands at the root or at the opened entry they name. */
    ghost predicate Standing(current: FileData, v: Vol, t: Tree, names: seq<Name>, k: nat)
      requires g.root in t && k <= |names|
      reads this`cat, current
    {
      if k == 0 then current == rootDir
      else
        var r := Lookup(t, g.root, names[..k]);
        && current in files && current != rootDir && r.Hit?
        && Opens(current, t[r.dir][r.idx], v, SlotChain(cat, t[r.dir][r.idx]))
    }

    lemma StandsAtRoot(v: Vol, t: Tree, names: seq<Name>)
      requires g.root in t
      ensures Standing(rootDir, v, t, names, 0)
    {
    }

    /** `all` are the handles that were closed at first; the walk holds one of them at most. */
    ghost predicate Pool(all: set<FileData>, current: FileData)
      reads files
    {
      Closed() + Just(current) == all && Closed() == all - Just(current)
    }

    lemma PoolFacts(all: set<FileData>, current: FileData)
      requires Ready()
      ensures Pool(Closed(), rootDir)
      ensures Pool(all, current) ==> Closed() <= all && Closed() == all - Just(current)
    {
    }

    lemma ValidUsable()
      requires Valid()
      ensures Usable() && Consistent(g, View(), cat)
    {
      ConsistentSound(g, View(), cat);
    }

    lemma AllClosed()
      requires Ready() && forall f :: f in files ==> !f.isOpen
      ensures |Closed()| == MAX_HANDLES
    {
      assert Closed() == set f | f in files;
      DistinctCount(files);
    }

    /** The driver from the boot sector on; null when the volume is not FAT32. */
    static method Initialize(disk: seq<Sector>, dataEnd: nat, ghost cat: Catalog) returns (drv: Driver?)
      requires PARTITION_OFFSET < |disk|
      requires IsFat32(disk[PARTITION_OFFSET]) ==> BootGeometry(disk[PARTITION_OFFSET], dataEnd).Fits(disk)
      ensures drv == null <==> !IsFat32(disk[PARTITION_OFFSET])
      ensures drv != null ==>
        && fresh(drv) && fresh(drv.fatCache) && fresh(drv.rootDir) && fresh(drv.files)
        && drv.g == BootGeometry(disk[PARTITION_OFFSET], dataEnd) && drv.disk == disk && drv.cat == cat && drv.Ready()
        && drv.RootReady()
        && (Consistent(drv.g, drv.View(), cat) ==> drv.Valid() && |drv.Closed()| == MAX_HANDLES)
    {
      hide Consistent, ViewOf;
      var boot := disk[PARTITION_OFFSET];
      if !IsFat32(boot) {
        return null;
      }
      drv := new Driver(BootGeometry(boot, dataEnd), disk, cat);
      drv.AllClosed();
    }

    lemma UsableRoot()
      requires Usable()
      ensures g.Fits(disk) && Housed(g, View().data, cat) && g.root in Tree()
      ensures Tree() == TreeOf(g, View().data, cat) && Sound(g, View(), cat) && Ready() && RootReady()
      ensures g.root in cat.dirs
    {
    }

    /** Opens the next component of a path from where the walk stands. */
    method OpenNext(current: FileData, name: Text, ghost v: Vol, ghost t: Tree, ghost names: seq<Name>, ghost k: nat,
        ghost all: set<FileData>)
      returns (next: FileData?)
      requires Usable() && v == View() && t == Tree() && PathSafe(t, g.root, names)
      requires k < |names| && names[k] == ShortName(name) && Standing(current, v, t, names, k) && Pool(all, current)
      modifies this`cachePos, fatCache, rootDir, current, Closed()
      ensures Ready() && RootReady()
      ensures next != null <==> Lookup(t, g.root, names[..k + 1]).Hit? && all != {}
      ensures next != null ==> next != rootDir && next in all && Standing(next, v, t, names, k + 1) && Pool(all, next)
      ensures next == null ==> Closed() == all
      ensures DirAt(t, g.root, names[..k]).At?
    {
      hide ViewOf, Shaped, ChainOk, Sound, TreeOk, Find, DirAt, Lookup, PathSafe, TreeOf, SlotsOf, Walkable, Openable,
        Ready, View, Tree;
      UsableRoot();
      ghost var d, target := OpenFacts(g, v, cat, t, names, k);
      next := OpenStep(current, name, v, cat.chains[d], target);
    }

    /** The components that opening `path` looks up. */
    ghost function Names(path: Text): seq<Name> { Encode(Components(path)) }

    /** The component loop of opening. */
    method Walk(path: Text, ghost v: Vol, ghost t: Tree, ghost names: seq<Name>, ghost parts: seq<Text>)
      returns (file: FileData?)
      requires Usable() && v == View() && t == Tree() && PathSafe(t, g.root, names)
      requires parts == Split(path) && names == Encode(parts)
      modifies this`cachePos, fatCache, rootDir, Closed()
      ensures Ready() && RootReady()
      ensures names == [] ==> file == rootDir
      ensures names != [] ==> (file != null <==> Lookup(t, g.root, names).Hit? && old(Closed()) != {})
      ensures names != [] && file != null ==> file in old(Closed()) && Standing(file, v, t, names, |names|)
      ensures Closed() == old(Closed()) - Just(file)
    {
      hide ViewOf, Shaped, Sound, Founded, TreeOk, Find, DirAt, Lookup, PathSafe, TreeOf, SlotsOf, Walkable, Split,
        FileData.In, Opens, Ready, ShortName, Housed, View, Tree, Standing, RootReady, Pool, Encode, AfterFirst,
        IsFirst;
      var rest := path;
      ghost var all := Closed();
      var current: FileData := rootDir;
      UsableRoot();
      StandsAtRoot(v, t, names);
      PoolFacts(all, rootDir);
      assert parts[0..] == parts && names[..|names|] == names;
      ghost var k := 0;
      while rest != []
        invariant g.Fits(disk) && Ready() && RootReady() && v == View()
        invariant k <= |names| && Split(rest) == parts[k..]
        invariant Standing(current, v, t, names, k)
        invariant Pool(all, current)
        invariant if k == 0 then current == rootDir
          else current != rootDir && current in all && Lookup(t, g.root, names[..k]).Hit?
        decreases |rest|
      {
        SplitOn(rest, parts, k);
        PoolFacts(all, current);
        var name;
        name, rest := NextComponent(rest);
        var next := OpenNext(current, name, v, t, names, k, all);
        if next == null {
          LostWhole(t, g.root, names, k + 1);
          return null;
        }
        current, k := next, k + 1;
      }
      AllSplit(parts, k);
      PoolFacts(all, current);
      file := current;
    }

    /** Opens what a path names; null when it names nothing or no handle is free. */
    method Open(path: Text) returns (file: FileData?)
      requires Usable() && |path| < MAX_PATH && PathSafe(Tree(), g.root, Names(path))
      modifies this`cachePos, fatCache, rootDir, Closed()
      ensures Usable()
      ensures Names(path) == [] ==> file == rootDir
      ensures Names(path) != [] ==> (file != null <==> Lookup(Tree(), g.root, Names(path)).Hit? && old(Closed()) != {})
      ensures Names(path) != [] && file != null ==>
        file in old(Closed()) && Standing(file, View(), Tree(), Names(path), |Names(path)|)
      ensures Closed() == old(Closed()) - Just(file)
    {
      hide ViewOf, Shaped, Sound, TreeOk, Find, DirAt, Lookup, PathSafe, TreeOf, SlotsOf, Walkable, Split, Ready,
        ShortName, View, Tree, Standing, FileData.In;
      UsableRoot();
      ghost var v, t, names := View(), Tree(), Names(path);
      ghost var ch := DirChain(g, v, cat, g.root);
      Rewind(rootDir, v, ch);
      var rest := if path != [] && path[0] == SLASH then path[1..] else path;
      file := Walk(rest, v, t, names, Components(path));
      assert names[..|names|] == names;
    }

    // ── scanning a directory ──

    method FreeInCluster(cluster: nat, ghost v: Vol, ghost ch: seq<nat>, ghost k: nat)
      returns (ok: bool, slotLba: int, slotOffset: nat, ghost at: nat)
      requires Ready() && v == View() && Walkable(g, v, ch) && k < |ch| && cluster == ch[k]
      requires NoneFree(SlotsOf(v.data, ch, g.spc), SLOTS_PER_SECTOR * Flat(k, g.spc))
      ensures var slots := SlotsOf(v.data, ch, g.spc);
        && (ok ==>
          FirstFree(slots, at) && slotLba == SlotLba(g, ch, at) && slotOffset == SLOT_SIZE * (at % SLOTS_PER_SECTOR))
        && (!ok ==> NoneFree(slots, SLOTS_PER_SECTOR * Flat(k + 1, g.spc)))
    {
      hide ViewOf, Shaped, Slots, Sectors, NoneFree, FirstFree, SlotLba, StreamAt;
      ClusterFacts(g, v, ch, k);
      var lba := g.ClusterToLba(cluster);
      ghost var secs := Sectors(v.data, ch, g.spc);
      var s: nat := 0;
      while s < g.spc
        invariant s <= g.spc && NoneFree(Slots(secs), SLOTS_PER_SECTOR * (Flat(k, g.spc) + s))
      {
        SectorsAt(v.data, ch, g.spc, k, s);
        var sector := ReadCluster(cluster, s);
        var e := FreeInSector(sector);
        FreeOn(secs, k * g.spc + s, e);
        if e < SLOTS_PER_SECTOR {
          SlotPlace(g, ch, k, s, e);
          return true, lba + s, SLOT_SIZE * e, SLOTS_PER_SECTOR * (k * g.spc + s) + e;
        }
        s := s + 1;
      }
      MulDistrib(k, 1, g.spc);
      ok, slotLba, slotOffset, at := false, 0, 0, 0;
    }

    /** The lowest free slot of a directory: its sector, its offset there, and its index. */
    method FindFreeDirSlot(dirCluster: nat, ghost v: Vol, ghost ch: seq<nat>)
      returns (ok: bool, slotLba: int, slotOffset: nat, ghost at: nat)
      requires Ready() && v == View() && Walkable(g, v, ch) && ch != [] && dirCluster == ch[0]
      modifies this`cachePos, fatCache
      ensures Ready()
      ensures var slots := SlotsOf(v.data, ch, g.spc);
        && (ok ==>
          FirstFree(slots, at) && slotLba == SlotLba(g, ch, at) && slotOffset == SLOT_SIZE * (at % SLOTS_PER_SECTOR))
        && (!ok ==> NoneFree(slots, |slots|))
    {
      hide ViewOf, Shaped, SlotsOf, Slots, Sectors, NoneFree, FirstFree, SlotLba, StreamAt;
      var cluster: nat := dirCluster;
      ghost var k: nat := 0;
      ChainStart(g, v, ch);
      while cluster < END_MIN
        invariant Ready() && v == View() && k <= |ch| && Link(ch, k, cluster)
        invariant NoneFree(SlotsOf(v.data, ch, g.spc), SLOTS_PER_SECTOR * Flat(k, g.spc))
        decreases |ch| - k
      {
        ok, slotLba, slotOffset, at := FreeInCluster(cluster, v, ch, k);
        if ok {
          return;
        }
        ChainNext(g, v, ch, k);
        cluster := NextCluster(cluster);
        k := k + 1;
      }
      ok, slotLba, slotOffset, at := false, 0, 0, 0;
    }

    /** Sector number and bytes of the sector that slot `at` of a chain lies in. */
    ghost predicate AtSlot(data: seq<seq<Sector>>, ch: seq<nat>, at: nat, slotLba: int, sector: Sector)
    {
      && ChainShaped(data, ch, g.spc) && (forall k :: 0 <= k < |ch| ==> g.InData(ch[k]))
      && at < |SlotsOf(data, ch, g.spc)|
      && slotLba == SlotLba(g, ch, at)
      && sector == Sectors(data, ch, g.spc)[at / SLOTS_PER_SECTOR]
    }

    method SearchCluster(cluster: nat, name: Name, longToo: bool, ghost v: Vol, ghost ch: seq<nat>, ghost k: nat)
      returns (scan: SectorScan, slotLba: int, e: nat, sector: Sector, ghost at: nat)
      requires Ready() && v == View() && Walkable(g, v, ch) && k < |ch| && cluster == ch[k]
      requires PassedHits(SlotsOf(v.data, ch, g.spc), name, longToo, SLOTS_PER_SECTOR * Flat(k, g.spc))
      ensures var slots := SlotsOf(v.data, ch, g.spc);
        && (scan.FoundAt? ==>
          FirstHit(slots, name, longToo, at) && e == at % SLOTS_PER_SECTOR && AtSlot(v.data, ch, at, slotLba, sector))
        && (scan.AtEnd? ==> NoHitIn(slots, name, longToo))
        && (scan.NotHere? ==> PassedHits(slots, name, longToo, SLOTS_PER_SECTOR * Flat(k + 1, g.spc)))
    {
      hide ViewOf, Shaped, Slots, Sectors, PassedHits, FirstHit, NoHitIn, SlotLba, StreamAt, SectorPassed;
      ClusterFacts(g, v, ch, k);
      var lba := g.ClusterToLba(cluster);
      ghost var secs := Sectors(v.data, ch, g.spc);
      var s: nat := 0;
      while s < g.spc
        invariant s <= g.spc && PassedHits(Slots(secs), name, longToo, SLOTS_PER_SECTOR * (Flat(k, g.spc) + s))
      {
        SectorsAt(v.data, ch, g.spc, k, s);
        sector := ReadCluster(cluster, s);
        scan := ScanSector(sector, name, longToo);
        match scan
        case FoundAt(found) =>
          HitOn(secs, k * g.spc + s, found, name, longToo);
          SlotPlace(g, ch, k, s, found);
          slotLba, e, at := lba + s, found, SLOTS_PER_SECTOR * (k * g.spc + s) + found;
          return;
        case AtEnd =>
          ghost var end :| 0 <= end < SLOTS_PER_SECTOR && IsEnd(SlotIn(sector, end))
            && SectorPassed(sector, name, longToo, end);
          HitOn(secs, k * g.spc + s, end, name, longToo);
          slotLba, e, at := 0, 0, 0;
          return;
        case NotHere =>
          HitOn(secs, k * g.spc + s, SLOTS_PER_SECTOR, name, longToo);
          s := s + 1;
      }
      MulDistrib(k, 1, g.spc);
      scan, slotLba, e, sector, at := NotHere, 0, 0, ZeroSector(), 0;
    }

    /** The first slot of a directory that carries a name: its sector, its index in that sector, the
      * sector's bytes, and its index in the directory. */
    method SearchDir(dirCluster: nat, name: Name, longToo: bool, ghost v: Vol, ghost ch: seq<nat>)
      returns (ok: bool, slotLba: int, e: nat, sector: Sector, ghost at: nat)
      requires Ready() && v == View() && Walkable(g, v, ch) && ch != [] && dirCluster == ch[0]
      modifies this`cachePos, fatCache
      ensures Ready()
      ensures var slots := SlotsOf(v.data, ch, g.spc);
        && (ok ==>
          FirstHit(slots, name, longToo, at) && e == at % SLOTS_PER_SECTOR && AtSlot(v.data, ch, at, slotLba, sector))
        && (!ok ==> NoHitIn(slots, name, longToo))
    {
      hide ViewOf, Shaped, SlotsOf, Slots, Sectors, PassedHits, FirstHit, NoHitIn, SlotLba, StreamAt, AtSlot;
      var cluster: nat := dirCluster;
      ghost var k: nat := 0;
      ChainStart(g, v, ch);
      while cluster < END_MIN
        invariant Ready() && v == View() && k <= |ch| && Link(ch, k, cluster)
        invariant PassedHits(SlotsOf(v.data, ch, g.spc), name, longToo, SLOTS_PER_SECTOR * Flat(k, g.spc))
        decreases |ch| - k
      {
        var scan;
        scan, slotLba, e, sector, at := SearchCluster(cluster, name, longToo, v, ch, k);
        if scan.FoundAt? {
          ok := true;
          return;
        } else if scan.AtEnd? {
          ok := false;
          return;
        }
        ChainNext(g, v, ch, k);
        cluster := NextCluster(cluster);
        k := k + 1;
      }
      NoHitAtAll(SlotsOf(v.data, ch, g.spc), name, longToo);
      ok, slotLba, e, sector, at := false, 0, 0, ZeroSector(), 0;
    }

    // ── the parent directory of a path ──

    /** The names that lead to the parent directory of `path`. */
    ghost function DirNames(path: Text): seq<Name> { Encode(DirComponents(path)) }

    /** A path in the driver's buffers: a C string shorter than they are. */
    ghost predicate PathText(path: Text) { |path| < MAX_PATH && 0 !in path }

    /** Hypotheses on the parent part of a path: it can be walked and does not name a file. */
    ghost predicate ParentSafe(path: Text)
      reads this`disk, this`cat
      requires g.Fits(disk) && Rooted(g, View(), cat)
    {
      PathSafe(Tree(), g.root, DirNames(path)) && DirAt(Tree(), g.root, DirNames(path)) != NotADir
    }

    lemma StandingHead(dir: FileData, v: Vol, t: Tree, names: seq<Name>)
      requires g.Fits(disk) && v == View() && Sound(g, v, cat) && t == TreeOf(g, v.data, cat) && names != []
      requires NoDots(names)
      requires Standing(dir, v, t, names, |names|)
      ensures names[..|names|] == names && Lookup(t, g.root, names).Hit?
      ensures var r := Lookup(t, g.root, names); dir.firstCluster == FirstOf(t[r.dir][r.idx])
      ensures dir in files && dir != rootDir
    {
      assert names[..|names|] == names;
      var r := Lookup(t, g.root, names);
      var h := FirstOf(t[r.dir][r.idx]);
      assert EntryOk(cat, t[r.dir][r.idx], r.dir, r.idx, g.ClusterBytes());
      if h != 0 {
        assert HeadOk(g, v.fat, cat.chains, h);
      }
    }

    lemma ParentNames(path: Text)
      ensures DirNames(path) == if DirPath(path) == [] || DirPath(path) == [SLASH] then [] else Names(DirPath(path))
      ensures DirPath(path) != [] && DirPath(path) != [SLASH] ==> Names(DirPath(path)) != []
      ensures |DirPath(path)| <= |path|
    {
      DirNamesOf(path);
    }

    /** The first cluster of what a path names, meant to be a directory's; 0 when it is not found. The code
      * does not look whether it is a directory. */
    method GetDirCluster(dirPath: Text, ghost path: Text) returns (cluster: nat)
      requires Usable() && PathText(path) && dirPath == DirPath(path) && PathSafe(Tree(), g.root, DirNames(path))
      modifies this`cachePos, fatCache, rootDir, Closed()
      ensures Usable() && Closed() == old(Closed())
      ensures cluster == HeadOf(Tree(), g.root, DirNames(path), old(Closed()) != {})
      ensures var p := DirAt(Tree(), g.root, DirNames(path));
        p != NotADir ==>
          if p.At? && (DirNames(path) == [] || old(Closed()) != {}) then cluster == p.dir && cluster in cat.dirs
            else cluster == 0
      ensures 0 !in cat.dirs
    {
      hide ViewOf, Shaped, Sound, Find, PathSafe, SlotsOf, Walkable, Split, ShortName, Ready, View, Tree, Standing,
        Lookup, DirAt, TreeOf, Opens, FileData.In, Encode, FirstOf, Housed, HeadOf, DirNames, Names, DirPath, TreeOk,
        Geometry.Valid;
      UsableRoot();
      ParentNames(path);
      RootDir(g, View(), cat);
      ghost var t, names, pool := Tree(), DirNames(path), Closed() != {};
      HeadOfPath(t, g.root, names, pool);
      if dirPath == [] || dirPath == [SLASH] {
        return g.root;
      }
      SafeNames(t, g.root, names);
      var dir := Open(dirPath);
      if dir == null {
        return 0;
      }
      StandingHead(dir, View(), t, names);
      cluster := dir.firstCluster;
      Close(dir);
    }

    /** Reads the sector that slot `at` of a directory lies in. */
    method ReadDirSector(slotLba: int, ghost v: Vol, ghost ch: seq<nat>, ghost at: nat) returns (sector: Sector)
      requires g.Fits(disk) && v == View() && Walkable(g, v, ch) && at < |SlotsOf(v.data, ch, g.spc)|
      requires slotLba == SlotLba(g, ch, at)
      ensures AtSlot(v.data, ch, at, slotLba, sector)
    {
      hide Shaped, SlotLba, Sectors;
      SlotSector(g, disk, ch, at);
      sector := ReadSector(slotLba);
    }

    /** Writes slot `at` of a directory: it is changed in its sector and the sector goes back. */
    method WriteDirSlot(slotLba: int, slotOffset: nat, sector: Sector, entry: Slot, ghost v: Vol, ghost ch: seq<nat>,
        ghost at: nat)
      requires Ready() && v == View() && AtSlot(v.data, ch, at, slotLba, sector)
      requires slotOffset == SLOT_SIZE * (at % SLOTS_PER_SECTOR)
      modifies this`disk
      ensures Ready() && View() == v.(data := WriteSlot(g, v.data, ch, at, entry))
    {
      hide ViewOf, Shaped, Ready;
      ghost var j := at / SLOTS_PER_SECTOR;
      FlatIndex(j, |ch|, g.spc);
      var changed: Sector := Splice(sector, slotOffset, entry);
      WriteSector(slotLba, changed, ch[j / g.spc], j % g.spc);
    }

    // ── creating a file ──

    /** The parent directory of `path` is found and can be opened. */
    ghost predicate DirReached(path: Text)
      requires g.Fits(disk) && Rooted(g, View(), cat)
      reads this`disk, this`cat, files
    {
      DirAt(Tree(), g.root, DirNames(path)).At? && (DirNames(path) == [] || Closed() != {})
    }

    method CreateIn(dirCluster: nat, fileName: Text) returns (ok: bool, ghost at: nat)
      requires Valid() && dirCluster in cat.dirs && 0 !in fileName
      modifies this`disk, this`cachePos, fatCache
      ensures Valid()
      ensures ok <==> !NoneFree(old(Tree())[dirCluster], |old(Tree())[dirCluster]|)
      ensures !ok ==> disk == old(disk)
      ensures ok ==> Does(g, old(Here()), Create(dirCluster, at, ShortName(fileName)), Here())
      ensures ok ==> FileCreated(g, old(View()), View(), cat, dirCluster, at, ShortName(fileName))
    {
      hide ViewOf, Shaped, TreeOk, Find, SlotsOf, Walkable, ShortName, Ready, View, Tree, Standing, Lookup, DirAt,
        TreeOf, NoneFree, FirstFree, Consistent, Sound, FileCreated, Slots, AtSlot;
      ValidUsable();
      UsableRoot();
      ghost var v := View();
      ghost var ch := DirChain(g, v, cat, dirCluster);
      var slotLba, slotOffset;
      ok, slotLba, slotOffset, at := FindFreeDirSlot(dirCluster, v, ch);
      if !ok {
        return;
      }
      FreeInside(SlotsOf(v.data, ch, g.spc), at);
      var sector := ReadDirSector(slotLba, v, ch, at);
      var encoded := GetShortName(fileName);
      var short: Name := encoded[..];
      ShortNotZero(fileName);
      var entry := NewSlot(short, ATTR_ARCHIVE, 0);
      WriteDirSlot(slotLba, slotOffset, sector, entry, v, ch, at);
      CreatedOk(g, v, cat, dirCluster, at, short);
    }

    /** Puts an empty entry for `path` into the first free slot of its directory. */
    method CreateFile(path: Text) returns (ok: bool, ghost d: nat, ghost at: nat)
      requires Valid() && PathText(path) && ParentSafe(path)
      modifies this`disk, this`cachePos, fatCache, rootDir, Closed()
      ensures Valid() && Closed() == old(Closed())
      ensures old(DirReached(path)) ==> d == old(DirAt(Tree(), g.root, DirNames(path)).dir) && d in cat.dirs
      ensures ok <==> old(DirReached(path)) && !NoneFree(old(Tree())[d], |old(Tree())[d]|)
      ensures !ok ==> disk == old(disk)
      ensures ok ==>
        && Does(g, old(Here()), Create(d, at, ShortName(FileName(path))), Here())
        && Accounts(g, old(Here()), Here(), false)
      ensures ok ==> FileCreated(g, old(View()), View(), cat, d, at, ShortName(FileName(path)))
    {
      hide ViewOf, Shaped, Founded, TreeOk, Find, PathSafe, SlotsOf, Walkable, Split, ShortName, Ready, View, Tree,
        Standing, Lookup, DirAt, TreeOf, FileCreated, NoneFree, Consistent, Sound, Does, Accounts;
      ValidUsable();
      UsableRoot();
      ghost var s := Here();
      var dirPath, fileName := SplitPath(path);
      var dirCluster := GetDirCluster(dirPath, path);
      d, at := dirCluster, 0;
      if dirCluster == 0 {
        return false, d, 0;
      }
      ok, at := CreateIn(dirCluster, fileName);
      if ok {
        ReadyFits();
        CallAccounts(g, s, Create(d, at, ShortName(fileName)), Here());
      }
    }

    // ── deleting ──

    /** The freeing loop: follows links from `first`, clearing each entry it leaves. */
    method FreeChain(first: nat)
      requires Ready() && LinksInRange(View().fat) && (Linkable(first) ==> first < g.Entries())
      modifies this`disk, this`cachePos, fatCache
      ensures Ready() && View() == old(View()).(fat := FreeFrom(old(View()).fat, first))
    {
      hide ViewOf;
      var c: nat := first;
      ghost var v := View();
      while c >= 2 && c < END_MIN
        invariant Ready() && View().data == v.data && |View().fat| == |v.fat| == g.Entries()
        invariant LinksInRange(View().fat) && (Linkable(c) ==> c < g.Entries())
        invariant FreeFrom(View().fat, c) == FreeFrom(v.fat, first)
        decreases Used(View().fat), c
      {
        UsedFalls(View().fat, c);
        var next := NextCluster(c);
        SetCluster(c, 0);
        c := next;
      }
    }

    /** What deleting demands: the name is not a dot name. */
    ghost predicate Deletable(path: Text) { !IsDotName(ShortName(FileName(path))) }

    lemma AtSlotIs(data: seq<seq<Sector>>, ch: seq<nat>, at: nat, slotLba: int, sector: Sector)
      requires AtSlot(data, ch, at, slotLba, sector)
      ensures at < |SlotsOf(data, ch, g.spc)| && SlotIn(sector, at % SLOTS_PER_SECTOR) == SlotsOf(data, ch, g.spc)[at]
    {
    }

    method DeleteIn(dirCluster: nat, fileName: Text) returns (ok: bool, ghost at: nat)
      requires Valid() && dirCluster in cat.dirs && !IsDotName(ShortName(fileName))
      modifies this`disk, this`cachePos, this`cat, fatCache
      ensures Valid() && dirCluster in cat.dirs
      ensures ok <==> Find(old(Tree())[dirCluster], ShortName(fileName)) < |old(Tree())[dirCluster]|
      ensures !ok ==> disk == old(disk) && cat == old(cat)
      ensures ok ==> Does(g, old(Here()), Delete(dirCluster, at, ShortName(fileName)), Here())
      ensures ok ==> EntryDeleted(g, old(View()), old(cat), View(), cat, dirCluster, at, ShortName(fileName))
    {
      hide ViewOf, Shaped, TreeOk, Find, SlotsOf, Walkable, ShortName, Ready, View, Tree, TreeOf, Consistent, Sound,
        EntryDeleted, Slots, AtSlot, FirstHit, NoHitIn, FreeFrom, WriteSlot, Erased;
      ValidUsable();
      UsableRoot();
      ghost var v := View();
      ghost var ch := DirChain(g, v, cat, dirCluster);
      ghost var slots := SlotsOf(v.data, ch, g.spc);
      var encoded := GetShortName(fileName);
      var short: Name := encoded[..];
      var slotLba, e, sector;
      ok, slotLba, e, sector, at := SearchDir(dirCluster, short, false, v, ch);
      FindIsFirstHit(slots, short);
      if !ok {
        return;
      }
      AtSlotIs(v.data, ch, at, slotLba, sector);
      var entry := SlotIn(sector, e);
      ghost var next := DeletedOk(g, v, cat, dirCluster, at, short);
      FreeChain(FirstOf(entry));
      ReadyFits();
      WriteDirSlot(slotLba, SLOT_SIZE * e, sector, entry[0 := DELETED], View(), ch, at);
      cat := next;
    }

    /** Deletes what `path` names: frees its chain and marks its slot. */
    method DeleteEntry(path: Text) returns (ok: bool, ghost d: nat, ghost at: nat)
      requires Valid() && PathText(path) && ParentSafe(path) && Deletable(path)
      modifies this`disk, this`cachePos, this`cat, fatCache, rootDir, Closed()
      ensures Valid() && Closed() == old(Closed())
      ensures old(DirReached(path)) ==>
        d == old(DirAt(Tree(), g.root, DirNames(path)).dir) && d in old(cat).dirs && d in cat.dirs
      ensures ok <==> old(DirReached(path)) && Find(old(Tree())[d], ShortName(FileName(path))) < |old(Tree())[d]|
      ensures !ok ==> disk == old(disk) && cat == old(cat)
      ensures ok ==> Does(g, old(Here()), Delete(d, at, ShortName(FileName(path))), Here())
      ensures ok ==> Accounts(g, old(Here()), Here(), CutsOff(g, old(Here()), d, ShortName(FileName(path))))
      ensures ok ==> EntryDeleted(g, old(View()), old(cat), View(), cat, d, at, ShortName(FileName(path)))
    {
      hide ViewOf, Shaped, Founded, TreeOk, Find, PathSafe, SlotsOf, Walkable, Split, ShortName, Ready, View, Tree,
        Standing, Lookup, DirAt, TreeOf, EntryDeleted, Consistent, Sound, Does, Accounts, CutsOff;
      ValidUsable();
      UsableRoot();
      ghost var s := Here();
      var dirPath, fileName := SplitPath(path);
      var dirCluster := GetDirCluster(dirPath, path);
      d, at := dirCluster, 0;
      if dirCluster == 0 {
        return false, d, 0;
      }
      ok, at := DeleteIn(dirCluster, fileName);
      if ok {
        ReadyFits();
        CallAccounts(g, s, Delete(d, at, ShortName(fileName)), Here());
      }
    }

    // ── writing ──

    /** Writes the sectors of one cluster from `data`, from byte `from` on; stops when either ends. */
    method FillCluster(c: nat, data: seq<byte>, from: nat, ghost base: nat) returns (src: nat)
      requires Ready() && g.InData(c) && from < |data| && from == base * SECTOR_SIZE
      modifies this`disk
      ensures Ready() && View().fat == old(View()).fat && |View().data| == |old(View()).data|
      ensures RowFilled(View().data[c], old(View()).data[c], data, base, g.spc)
      ensures forall x :: 0 <= x < |View().data| && x != c ==> View().data[x] == old(View()).data[x]
      ensures src == if (base + g.spc) * SECTOR_SIZE < |data| then (base + g.spc) * SECTOR_SIZE else |data|
    {
      hide ViewOf;
      var lba := g.ClusterToLba(c);
      ghost var v := View();
      src := from;
      var s: nat := 0;
      while s < g.spc && src < |data|
        invariant s <= g.spc && Ready()
        invariant View() == v.(data := v.data[c := View().data[c]]) && |View().data[c]| == g.spc
        invariant RowFilled(View().data[c], v.data[c], data, base, s)
        invariant src == if (base + s) * SECTOR_SIZE < |data| then (base + s) * SECTOR_SIZE else |data|
      {
        var remaining := |data| - src;
        var take := if remaining < SECTOR_SIZE then remaining else SECTOR_SIZE;
        var buf: Sector := Splice(Zeros(SECTOR_SIZE), 0, data[src..src + take]);
        assert buf == PadSector(data, base + s);
        RowStep(View().data[c], v.data[c], data, base, s);
        WriteSector(lba + s, buf, c, s);
        src := src + take;
        s := s + 1;
      }
      RowDone(View().data[c], v.data[c], data, base, s);
    }

    /** The clusters a file needs are free in the data area, or the volume is so formatted that the
      * scan finds no free entry past it. */
    ghost predicate Roomy(v: Vol, n: nat)
      requires Shaped(g, v)
    {
      FreeClusters(g, v) >= n || TailUsed(g, v)
    }

    lemma TakeFacts(v: Vol, w: Vol, picks: seq<nat>, data: seq<byte>, n: nat)
      requires Building(g, v, w, picks, data) && |picks| < n && Roomy(v, n)
      ensures ScanStaysInside(g, w) && ScanStaysOnFat(g, w)
      ensures Full(g, w) ==> FreeClusters(g, v) < n
      ensures forall c: nat :: LowestFree(w.fat, c) && g.InData(c) ==> FreeClusters(g, v) > |picks|
      ensures |picks| > 0 ==> 0 < picks[|picks| - 1] < g.Entries()
      ensures |w.fat| == g.Entries() && g.dataEnd <= g.Entries() <= TWO28 && Shaped(g, w)
    {
      BuildRoom(g, v, w, picks, data);
      InsideOnFat(g, w);
      if k :| g.InData(k) && w.fat[k] == 0 {
        CountPositive(w.fat, 2, g.dataEnd, k);
      }
    }

    /** Takes the lowest free cluster and links it behind `prev`. */
    method TakeCluster(prev: nat, ghost v: Vol, ghost picks: seq<nat>, ghost data: seq<byte>, ghost n: nat)
      returns (c: nat)
      requires Ready() && Building(g, v, View(), picks, data) && |picks| < n && Roomy(v, n)
      requires if picks == [] then prev == 0 else prev == picks[|picks| - 1]
      modifies this`disk, this`cachePos, fatCache
      ensures Ready()
      ensures c == 0 ==> FreeClusters(g, v) < n && disk == old(disk) && Full(g, View())
      ensures c != 0 ==> FreeClusters(g, v) > |picks| && g.InData(c) && LowestFree(old(View()).fat, c)
      ensures c != 0 ==> View().data == old(View()).data
      ensures c != 0 ==> var marked := old(View()).fat[c := END_OF_CHAIN];
        View().fat == if picks == [] then marked else marked[picks[|picks| - 1] := c]
    {
      hide ViewOf, Building, CountFree, FreeClusters, TailUsed, Roomy, ScanStaysInside, ScanStaysOnFat, Full, Ready,
        View, Shaped, LowestFree;
      ReadyFits();
      ghost var w := View();
      TakeFacts(v, w, picks, data, n);
      c := AllocCluster();
      if c != 0 {
        assert c % TWO28 == c;
        if prev != 0 {
          SetCluster(prev, c);
        }
      }
    }

    lemma ViewShaped()
      requires g.Fits(disk)
      ensures Shaped(g, View())
    {
    }

    /** The loop of writing: clusters are taken, linked and filled until no byte is left. */
    method BuildChain(data: seq<byte>, ghost n: nat) returns (ok: bool, first: nat, ghost picks: seq<nat>)
      requires Ready() && Sized(n, |data|, g.ClusterBytes()) && |data| > 0 && Roomy(View(), n)
      modifies this`disk, this`cachePos, fatCache
      ensures Ready()
      ensures ok <==> FreeClusters(g, old(View())) >= n
      ensures Building(g, old(View()), View(), picks, data)
      ensures !ok ==> Full(g, View())
      ensures ok ==> |picks| == n && first == picks[0]
    {
      hide ViewOf, Shaped, LowestPicks, Chained, OnlyPicks, Filled, CountFree, FreeClusters, Building, Roomy, Sized,
        Ready, View, RowFilled, Full;
      ReadyFits();
      ghost var v := View();
      var prev := 0;
      first := 0;
      picks := [];
      BuildStart(g, v, data);
      var src: nat := 0;
      while src < |data|
        invariant g.Fits(disk) && Ready() && Building(g, v, View(), picks, data)
        invariant src == if Flat(|picks|, g.spc) * SECTOR_SIZE < |data| then Flat(|picks|, g.spc) * SECTOR_SIZE
          else |data|
        invariant |picks| > 0 ==> Flat(|picks| - 1, g.spc) * SECTOR_SIZE < |data|
        invariant if picks == [] then first == 0 && prev == 0 else first == picks[0] && prev == picks[|picks| - 1]
        invariant first == 0 ==> picks == []
        invariant picks != [] ==> FreeClusters(g, v) >= |picks|
        decreases |data| - src
      {
        StillNeeded(g, |picks|, n, |data|);
        ghost var w := View();
        var c := TakeCluster(prev, v, picks, data, n);
        if c == 0 {
          return false, 0, picks;
        }
        if first == 0 {
          first := c;
        }
        ReadyFits();
        ghost var fat, base := View().fat, Flat(|picks|, g.spc);
        src := FillCluster(c, data, src, base);
        ReadyFits();
        ViewShaped();
        BuildOn(g, v, w, View(), picks, c, fat, data);
        prev := c;
        picks := picks + [c];
        FlatNext(|picks| - 1, g.spc);
      }
      EnoughNow(g, |picks|, |data|);
      SizedUnique(|picks|, n, |data|, g.ClusterBytes());
      ok := true;
    }

    // ── writing a file ──

    /** A free slot or one to be freed is there for the name. */
    ghost predicate SlotRoom(slots: seq<Slot>, n: Name)
    {
      Find(slots, n) < |slots| || !NoneFree(slots, |slots|)
    }

    lemma NameNotZero(path: Text)
      requires PathText(path)
      ensures ShortName(FileName(path))[0] != 0
    {
      ShortNotZero(FileName(path));
    }

    /** The first two steps of writing: what the name finds is deleted, and an empty file takes the
      * name. */
    method ReplaceEntry(path: Text) returns (ok: bool, ghost d: nat, ghost at: nat)
      requires Valid() && PathText(path) && ParentSafe(path) && Deletable(path)
      requires ShortName(FileName(path))[0] != DELETED
      modifies this`disk, this`cachePos, this`cat, fatCache, rootDir, Closed()
      ensures Valid() && Closed() == old(Closed())
      ensures old(DirReached(path)) ==> d == old(DirAt(Tree(), g.root, DirNames(path)).dir) && d in old(cat).dirs
      ensures ok <==> old(DirReached(path)) && SlotRoom(old(Tree())[d], ShortName(FileName(path)))
      ensures !ok ==> disk == old(disk) && cat == old(cat)
      ensures ok ==> Renews(g, old(Here()), d, at, ShortName(FileName(path)), Here())
      ensures ok ==> Replaced(g, old(View()), old(cat), View(), cat, d, at, ShortName(FileName(path)))
      ensures ok ==> ParentSafe(path) && DirAt(Tree(), g.root, DirNames(path)) == At(d)
    {
      hide ViewOf, Shaped, Founded, TreeOk, Find, PathSafe, SlotsOf, ShortName, Ready, View, Lookup, DirAt, TreeOf,
        EntryDeleted, FileCreated, Replaced, Consistent, Sound, NoneFree, Changed, Tree, Does, Renews;
      ValidUsable();
      UsableRoot();
      ghost var v, c, n, names := View(), cat, ShortName(FileName(path)), DirNames(path);
      NameNotZero(path);
      var deleted;
      ghost var i;
      deleted, d, i := DeleteEntry(path);
      ValidUsable();
      UsableRoot();
      ghost var m, cm := View(), cat;
      if deleted {
        DeletedFacts(g, v, c, m, cm, names, d, i, n);
      }
      ok, d, at := CreateFile(path);
      ValidUsable();
      UsableRoot();
      if ok {
        CreatedFacts(g, m, View(), cm, names, d, at, n);
        if deleted {
          ReplacedAfterDelete(g, v, c, m, cm, View(), d, i, at, n);
          RenewedByDelete(g, State(v, c), State(m, cm), Here(), d, i, at, n);
        } else {
          ReplacedAfresh(g, v, c, View(), d, at, n);
          RenewedAfresh(g, State(v, c), Here(), d, at, n);
        }
      }
    }

    method PatchIn(dirCluster: nat, short: Name, first: nat, size: nat, ghost v: Vol, ghost ch: seq<nat>)
      returns (ok: bool, ghost at: nat)
      requires Ready() && v == View() && Walkable(g, v, ch) && ch != [] && dirCluster == ch[0]
      requires first < TWO32 && size < TWO32
      modifies this`disk, this`cachePos, fatCache
      ensures Ready() && ChainShaped(v.data, ch, g.spc)
      ensures var slots := SlotsOf(v.data, ch, g.spc);
        && (!ok ==> NoHitIn(slots, short, true))
        && (ok ==>
          && FirstHit(slots, short, true, at)
          && View() == v.(data := WriteSlot(g, v.data, ch, at, Stamp(slots[at], first, size))))
    {
      hide ViewOf, SlotsOf, Ready, View, AtSlot, Walkable, FirstHit, NoHitIn, WriteSlot, Stamp;
      WalkableShaped(g, v, ch);
      var slotLba, e, sector;
      ok, slotLba, e, sector, at := SearchDir(dirCluster, short, true, v, ch);
      if ok {
        AtSlotIs(v.data, ch, at, slotLba, sector);
        var entry := Stamp(SlotIn(sector, e), first, size);
        WriteDirSlot(slotLba, SLOT_SIZE * e, sector, entry, v, ch, at);
      }
    }

    /** The last step of writing: the first slot that carries the name, long-name slots included,
      * receives the first cluster and the size. */
    method PatchEntry(path: Text, first: nat, size: nat) returns (ok: bool, ghost at: nat)
      requires Usable() && PathText(path) && ParentSafe(path) && DirReached(path) && first < TWO32 && size < TWO32
      modifies this`disk, this`cachePos, fatCache, rootDir, Closed()
      ensures Ready() && RootReady() && Closed() == old(Closed())
      ensures var d := old(DirAt(Tree(), g.root, DirNames(path)).dir); var slots := old(Tree())[d];
        var n := ShortName(FileName(path));
        && d in cat.chains && old(Tree())[d] == SlotsOf(old(View()).data, cat.chains[d], g.spc)
        && ChainShaped(old(View()).data, cat.chains[d], g.spc)
        && (!ok ==> NoHitIn(slots, n, true))
        && (ok ==> (FirstHit(slots, n, true, at)
            && View() == old(View()).(data :=
              WriteSlot(g, old(View()).data, cat.chains[d], at, Stamp(slots[at], first, size)))))
    {
      hide ViewOf, Shaped, TreeOk, Find, PathSafe, SlotsOf, ShortName, Ready, View, Lookup, DirAt, TreeOf, Sound,
        Walkable, FirstHit, NoHitIn, WriteSlot, Stamp, Tree;
      UsableRoot();
      var dirPath, fileName := SplitPath(path);
      var encoded := GetShortName(fileName);
      var short: Name := encoded[..];
      var dirCluster := GetDirCluster(dirPath, path);
      UsableRoot();
      ghost var v := View();
      ghost var ch := DirChain(g, v, cat, dirCluster);
      WalkableShaped(g, v, ch);
      ok, at := PatchIn(dirCluster, short, first, size, v, ch);
    }

    /** What writing demands beyond what deleting does: the name does not start with the mark of a
      * deleted slot. */
    ghost predicate Writable(path: Text) { Deletable(path) && ShortName(FileName(path))[0] != DELETED }

    /** No long-name slot before the place of the new entry reads as its name. */
    ghost predicate Unaliased(path: Text)
      requires g.Fits(disk) && Rooted(g, View(), cat)
      reads this`disk, this`cat
    {
      var p, n := DirAt(Tree(), g.root, DirNames(path)), ShortName(FileName(path));
      p.At? ==> AliasFree(Tree()[p.dir], n, EntryPlace(Tree()[p.dir], n))
    }

    /** The clusters that writing `path` may use: the free ones and those of what it replaces. */
    ghost function Space(path: Text): nat
      requires g.Fits(disk) && Rooted(g, View(), cat)
      reads this`disk, this`cat
    {
      var p := DirAt(Tree(), g.root, DirNames(path));
      FreeClusters(g, View()) + if p.At? then OldLength(g, View(), cat, p.dir, ShortName(FileName(path))) else 0
    }

    /** The rest of writing: the data goes into a new chain, and the entry receives it. */
    method FillEntry(path: Text, data: seq<byte>, ghost d: nat, ghost at: nat) returns (ok: bool)
      requires Valid() && PathText(path) && ParentSafe(path) && DirReached(path) && 0 < |data| < TWO32
      requires DirAt(Tree(), g.root, DirNames(path)) == At(d) && d in cat.dirs
      requires EmptyEntry(g, View(), cat, d, at, ShortName(FileName(path)))
      requires Roomy(View(), ClustersFor(g, |data|))
      modifies this`disk, this`cachePos, this`cat, fatCache, rootDir, Closed()
      ensures Valid() && Closed() == old(Closed())
      ensures ok <==> FreeClusters(g, old(View())) >= ClustersFor(g, |data|)
      ensures !ok ==> Exhausts(g, old(Here()), data, Here())
      ensures ok ==> Finishes(g, old(Here()), d, at, ShortName(FileName(path)), data, Here())
      ensures ok && AliasFree(old(Tree())[d], ShortName(FileName(path)), at) ==>
        FileWritten(g, old(View()), old(cat), View(), cat, d, at, ShortName(FileName(path)), data)
      ensures ok && !AliasFree(old(Tree())[d], ShortName(FileName(path)), at) ==>
        LeftEmpty(g, old(View()), old(cat), View(), cat, d, at, ShortName(FileName(path)))
    {
      hide ViewOf, Shaped, Founded, TreeOk, Find, PathSafe, SlotsOf, ShortName, Ready, View, Lookup, DirAt, TreeOf,
        Consistent, Sound, NoneFree, Tree, ClustersFor, FileWritten, FreeClusters, AliasFree, TailUsed, WriteSlot,
        Building, EmptyEntry, FirstHit, NoHitIn, LeftEmpty, Finishes, Full;
      ValidUsable();
      UsableRoot();
      ghost var m, n := Here(), ShortName(FileName(path));
      EntryFacts(g, m.v, m.cat, d, at, n);
      var first;
      ghost var picks;
      ok, first, picks := BuildChain(data, ClustersFor(g, |data|));
      ReadyFits();
      ghost var b := View();
      BuiltKeeps(g, m.v, m.cat, b, picks, data);
      ValidUsable();
      if !ok {
        assert data != [];
        return;
      }
      UsableRoot();
      FirstPick(g, m.v, b, picks, data);
      ghost var hit;
      ok, hit := PatchEntry(path, first, |data|);
      FirstHitFound(TreeOf(g, m.v.data, m.cat)[d], n, at);
      ReadyFits();
      if hit == at {
        cat := With(m.cat, picks, d, at);
      }
      EntryPatched(g, m, b, Here(), picks, d, at, n, data, hit);
    }

    /** Replaces what `path` names by a file that holds `data`, exactly when there is no data or no
      * alias is in the way; with an alias, or when the clusters run out, it names an empty file. */
    method WriteFile(path: Text, data: seq<byte>) returns (ok: bool, ghost d: nat, ghost at: nat)
      requires Valid() && PathText(path) && ParentSafe(path) && Writable(path) && |data| < TWO32
      requires Space(path) >= ClustersFor(g, |data|) || TailUsed(g, View())
      modifies this`disk, this`cachePos, this`cat, fatCache, rootDir, Closed()
      ensures Valid() && Closed() == old(Closed())
      ensures old(DirReached(path)) ==> d == old(DirAt(Tree(), g.root, DirNames(path)).dir) && d in old(cat).dirs
      ensures ok <==>
        && old(DirReached(path)) && SlotRoom(old(Tree())[d], ShortName(FileName(path)))
        && old(Space(path)) >= ClustersFor(g, |data|)
      ensures !ok ==>
        if old(DirReached(path)) && SlotRoom(old(Tree())[d], ShortName(FileName(path)))
        then Does(g, old(Here()), WriteShort(d, at, ShortName(FileName(path)), data), Here())
          && LeftEmpty(g, old(View()), old(cat), View(), cat, d, at, ShortName(FileName(path)))
        else disk == old(disk) && cat == old(cat)
      ensures ok ==> Does(g, old(Here()), Write(d, at, ShortName(FileName(path)), data), Here())
      ensures old(DirReached(path)) && SlotRoom(old(Tree())[d], ShortName(FileName(path))) ==>
        Accounts(g, old(Here()), Here(), WriteLoses(g, old(Here()), d, ShortName(FileName(path)), data))
      ensures ok ==> at == EntryPlace(old(Tree())[d], ShortName(FileName(path)))
      ensures ok && (data == [] || old(Unaliased(path))) ==>
        FileWritten(g, old(View()), old(cat), View(), cat, d, at, ShortName(FileName(path)), data)
      ensures ok && data != [] && !old(Unaliased(path)) ==>
        LeftEmpty(g, old(View()), old(cat), View(), cat, d, at, ShortName(FileName(path)))
    {
      hide ViewOf, Shaped, Founded, TreeOk, Find, PathSafe, SlotsOf, ShortName, Ready, View, Lookup, DirAt, TreeOf,
        Replaced, Consistent, Sound, NoneFree, Changed, Tree, SlotRoom, ClustersFor, FileWritten, FreeClusters,
        OldLength, AliasFree, TailUsed, WriteSlot, Stamp, Building, EmptyEntry, LeftEmpty, Does, Renews, Finishes,
        Exhausts, Accounts, WriteLoses;
      ValidUsable();
      UsableRoot();
      ghost var s, n := Here(), ShortName(FileName(path));
      NameNotZero(path);
      ok, d, at := ReplaceEntry(path);
      if !ok {
        ValidUsable();
        return;
      }
      ValidUsable();
      UsableRoot();
      ghost var m := Here();
      ReplacedFacts(g, s.v, s.cat, m.v, m.cat, d, at, n);
      if |data| == 0 {
        assert data == [];
        WriteDone(g, s, m, m, d, at, n, data);
        WriteAccounts(g, s, d, at, n, data, m, true);
        return;
      }
      ok := FillEntry(path, data, d, at);
      ValidUsable();
      UsableRoot();
      if ok {
        WriteDone(g, s, m, Here(), d, at, n, data);
      } else {
        WriteCut(g, s, m, Here(), d, at, n, data);
      }
      WriteAccounts(g, s, d, at, n, data, Here(), ok);
    }

    // ── creating a directory ──

    /** Fills a cluster with an empty directory: zeros, then the two dot slots. */
    method InitDirCluster(c: nat, parent: nat)
      requires Ready() && g.InData(c) && c < TWO32 && parent < TWO32
      modifies this`disk
      ensures Ready() && View().fat == old(View()).fat && |View().data| == |old(View()).data|
      ensures FreshDir(View().data[c], c, parent)
      ensures forall x :: 0 <= x < |View().data| && x != c ==> View().data[x] == old(View()).data[x]
    {
      hide ViewOf, DotSector;
      var lba := g.ClusterToLba(c);
      ghost var v := View();
      var s: nat := 0;
      while s < g.spc
        invariant s <= g.spc && Ready()
        invariant View() == v.(data := v.data[c := View().data[c]]) && |View().data[c]| == g.spc
        invariant forall j :: 0 <= j < s ==> View().data[c][j] == ZeroSector()
      {
        WriteSector(lba + s, ZeroSector(), c, s);
        s := s + 1;
      }
      WriteSector(lba, DotSector(c, parent), c, 0);
    }

    method CreateDirIn(parent: nat, dirName: Text) returns (ok: bool, ghost at: nat, ghost c: nat)
      requires Valid() && parent in cat.dirs && Roomy(View(), 1) && 0 !in dirName
      requires var n := ShortName(dirName); !IsDotName(n) && n[0] != DELETED
      modifies this`disk, this`cachePos, this`cat, fatCache
      ensures Valid()
      ensures ok <==> FreeClusters(g, old(View())) >= 1 && !NoneFree(old(Tree())[parent], |old(Tree())[parent]|)
      ensures FreeClusters(g, old(View())) == 0 ==> disk == old(disk) && cat == old(cat)
      ensures !ok && FreeClusters(g, old(View())) >= 1 ==>
        && Does(g, old(Here()), MakeDirFull(parent, ShortName(dirName), c), Here())
        && Changed(g, old(View()), old(cat), View(), cat, parent, ShortName(dirName))
      ensures ok ==> Does(g, old(Here()), MakeDir(parent, at, ShortName(dirName), c), Here())
      ensures ok ==> DirCreated(g, old(View()), old(cat), View(), cat, parent, at, ShortName(dirName), c)
    {
      hide ViewOf, Shaped, TreeOk, Find, SlotsOf, Walkable, ShortName, Ready, View, Tree, TreeOf, NoneFree, FirstFree,
        Consistent, Sound, DirCreated, Slots, AtSlot, Building, FreeClusters, TailUsed, Roomy, FreshDir, NewSlot,
        WriteSlot, LowestFree, ScanStaysInside, ScanStaysOnFat, Full, Changed, Does;
      ValidUsable();
      UsableRoot();
      ghost var v := View();
      BuildStart(g, v, []);
      TakeFacts(v, v, [], [], 1);
      at, ok := 0, false;
      var newCluster := AllocCluster();
      c := newCluster;
      if newCluster == 0 {
        return;
      }
      ghost var ch0 := DirChain(g, v, cat, parent);
      DirHead(g, v, cat, parent);
      InitDirCluster(newCluster, parent);
      ReadyFits();
      ViewShaped();
      ghost var b := View();
      OnePick(g, v, b, c);
      BuiltKeeps(g, v, cat, b, [c], []);
      ValidUsable();
      ClusterTaken(g, State(v, cat), parent, c, b);
      ghost var ch := DirChain(g, b, cat, parent);
      var slotLba, slotOffset;
      ok, slotLba, slotOffset, at := FindFreeDirSlot(parent, b, ch);
      if !ok {
        NoSlotLeft(g, State(v, cat), parent, ShortName(dirName), c, b);
        return;
      }
      FreeInside(SlotsOf(b.data, ch, g.spc), at);
      var sector := ReadDirSector(slotLba, b, ch, at);
      var encoded := GetShortName(dirName);
      var short: Name := encoded[..];
      ShortNotZero(dirName);
      WriteDirSlot(slotLba, slotOffset, sector, NewSlot(short, ATTR_DIRECTORY, newCluster), b, ch, at);
      DirPlaced(g, State(v, cat), b, parent, at, short, c);
      cat := WithDir(cat, c, parent, at);
    }

    /** Adds an empty directory under the first free slot of the parent of `path`. */
    method CreateDir(path: Text) returns (ok: bool, ghost d: nat, ghost at: nat, ghost c: nat)
      requires Valid() && PathText(path) && ParentSafe(path) && Roomy(View(), 1)
      requires var n := ShortName(FileName(path)); !IsDotName(n) && n[0] != DELETED
      modifies this`disk, this`cachePos, this`cat, fatCache, rootDir, Closed()
      ensures Valid() && Closed() == old(Closed())
      ensures old(DirReached(path)) ==> d == old(DirAt(Tree(), g.root, DirNames(path)).dir) && d in old(cat).dirs
      ensures ok <==>
        old(DirReached(path)) && FreeClusters(g, old(View())) >= 1 && !NoneFree(old(Tree())[d], |old(Tree())[d]|)
      ensures !old(DirReached(path)) || FreeClusters(g, old(View())) == 0 ==> disk == old(disk) && cat == old(cat)
      ensures !ok && old(DirReached(path)) && FreeClusters(g, old(View())) >= 1 ==>
        && Does(g, old(Here()), MakeDirFull(d, ShortName(FileName(path)), c), Here())
        && Changed(g, old(View()), old(cat), View(), cat, d, ShortName(FileName(path)))
      ensures ok ==> Does(g, old(Here()), MakeDir(d, at, ShortName(FileName(path)), c), Here())
      ensures old(DirReached(path)) && FreeClusters(g, old(View())) >= 1 ==>
        Accounts(g, old(Here()), Here(), NoneFree(old(Tree())[d], |old(Tree())[d]|))
      ensures ok ==> DirCreated(g, old(View()), old(cat), View(), cat, d, at, ShortName(FileName(path)), c)
    {
      hide ViewOf, Shaped, Founded, TreeOk, Find, PathSafe, SlotsOf, ShortName, Ready, View, Lookup, DirAt, TreeOf,
        Consistent, Sound, NoneFree, Tree, DirCreated, FreeClusters, Roomy, Does, Changed, Accounts;
      ValidUsable();
      UsableRoot();
      ghost var s := Here();
      NameNotZero(path);
      var dirPath, fileName := SplitPath(path);
      var parentCluster := GetDirCluster(dirPath, path);
      d, at, c, ok := parentCluster, 0, 0, false;
      if parentCluster == 0 {
        return;
      }
      ok, at, c := CreateDirIn(parentCluster, fileName);
      ReadyFits();
      if ok {
        CallAccounts(g, s, MakeDir(d, at, ShortName(fileName), c), Here());
      } else if FreeClusters(g, s.v) >= 1 {
        CallAccounts(g, s, MakeDirFull(d, ShortName(fileName), c), Here());
      }
    }

    // ── accounting ──

    /** Counts the free entries of the first `total`, or of as many as the FAT has, sector by sector and
      * past the cache. */
    method CountBelow(total: nat) returns (free: nat)
      requires Ready()
      ensures free == CountFree(View().fat, 2, Least(|View().fat|, total))
    {
      hide ViewOf, Shaped, Coherent;
      ReadyFits();
      EntryAt(g, disk, 0, 0);
      free := 0;
      var checked: nat := 0;
      var s := 0;
      while s < g.sectorsPerFat && checked < total
        invariant s <= g.sectorsPerFat && checked == Least(s * ENTRIES_PER_SECTOR, total)
        invariant checked <= |View().fat| == g.Entries() && free == CountFree(View().fat, 2, checked)
      {
        var buf := disk[g.FatStart() + s];
        var e := 0;
        while e < ENTRIES_PER_SECTOR && checked < total
          invariant e <= ENTRIES_PER_SECTOR && checked == Least(s * ENTRIES_PER_SECTOR + e, total)
          invariant checked <= |View().fat| && free == CountFree(View().fat, 2, checked)
        {
          EntryAt(g, disk, s, e);
          if checked >= 2 {
            if Le32(buf, e * 4) % TWO28 == 0 {
              free := free + 1;
            }
          }
          checked := checked + 1;
          e := e + 1;
        }
        s := s + 1;
      }
    }

    /** What is said about the volume: cluster size, clusters of the data area, and how many of them
      * below number 60000 (or as far as the FAT goes) are free. */
    method GetDiskInfo() returns (info: DiskInfo)
      requires Ready()
      ensures info.bytesPerCluster == g.ClusterBytes() == 512 * g.spc
      ensures info.totalClusters == g.DataClusters() && g.dataEnd <= info.totalClusters + 2
      ensures info.totalClusters * g.spc <= g.totalSectors - g.dataLba < (info.totalClusters + 1) * g.spc
      ensures Counted(g) == Least(|View().fat|, if info.totalClusters > 60000 then 60000 else info.totalClusters)
      ensures info.freeClusters == CountFree(View().fat, 2, Counted(g))
    {
      hide ViewOf, Coherent;
      ReadyFits();
      DataClustersCover(g);
      g.WholeClusters();
      var clusters := (g.totalSectors - g.dataLba) / g.spc;
      var total: nat := if clusters > 60000 then 60000 else clusters;
      var free := CountBelow(total);
      info := DiskInfo(g.spc * SECTOR_SIZE, clusters, free);
    }
  } // class Driver

  /** What the scan takes lies in the data area exactly when one of its clusters is free or the
    * entries between the end of the data area and the end of the scan are all in use. */
  lemma ScanInsideIff(g: Geometry, v: Vol)
    requires Shaped(g, v) && g.ScanEnd() <= g.Entries()
    ensures ScanStaysInside(g, v) <==> forall c: nat :: LowestFree(v.fat, c) && c < g.ScanEnd() ==> g.InData(c)
  {
    if !ScanStaysInside(g, v) {
      var c: nat :| g.dataEnd <= c < g.ScanEnd() && v.fat[c] == 0;
      var low := LowestBelow(v.fat, 2, c);
      assert !g.InData(low);
    }
  }

  /** A full volume whose FAT has entries to spare: the scan, bounded by all sectors of the volume
    * and not those of its data area, hands out a cluster that ends past the volume. */
  lemma ScanLeavesVolume() returns (g: Geometry, fat: seq<nat>, c: nat)
    ensures g.Valid() && |fat| == g.Entries() && g.dataEnd == g.DataClusters() + 2 && CountFree(fat, 2, g.dataEnd) == 0
    ensures LowestFree(fat, c) && c < g.ScanEnd() && g.ClusterToLba(c) + g.spc > g.totalSectors
  {
    g := Geometry(1, 1, 1, 2, 20, 6, 16);
    fat := seq(128, i => if i < 16 then END_OF_CHAIN else 0);
    c := 16;
    NoneCounted(fat, 2, 16);
  }

  /** Counting in two parts. */
  lemma {:induction false} CountParts(fat: seq<nat>, lo: nat, mid: nat, hi: nat)
    requires lo <= mid <= hi <= |fat|
    ensures CountFree(fat, lo, hi) == CountFree(fat, lo, mid) + CountFree(fat, mid, hi)
    decreases hi
  {
    if mid < hi {
      CountParts(fat, lo, mid, hi - 1);
    }
  }

  /** The free count of the volume is that of its data area exactly when no cluster from its bound on
    * is free; with at most 60000 clusters in all, these are the last two. */
  lemma InfoAgrees(g: Geometry, v: Vol)
    requires Shaped(g, v) && 2 <= Counted(g) <= g.dataEnd
    ensures CountFree(v.fat, 2, Counted(g)) == FreeClusters(g, v) <==>
      forall c :: Counted(g) <= c < g.dataEnd ==> v.fat[c] != 0
    ensures g.DataClusters() <= 60000 && g.dataEnd == g.DataClusters() + 2 ==> Counted(g) == g.dataEnd - 2
  {
    var k := Counted(g);
    CountParts(v.fat, 2, k, g.dataEnd);
    if c :| k <= c < g.dataEnd && v.fat[c] == 0 {
      CountPositive(v.fat, k, g.dataEnd, c);
    } else {
      NoneCounted(v.fat, k, g.dataEnd);
    }
  }
}
