/**
  * The volume as a whole: chains, directory tree and file contents together, what a consistent one
  * is, and what writing one slot changes.
  */
module FatVolume {
  import opened Bytes
  import opened FatLayout
  import opened FatDirectory
  import opened FatChains
  import opened FatTree

  // ── consistency ──

  ghost predicate HeadOk(g: Geometry, fat: seq<nat>, chains: map<nat, seq<nat>>, h: nat)
    requires h in chains
  {
    ChainOk(g, fat, chains[h]) && chains[h][0] == h
  }

  ghost predicate Headed(g: Geometry, fat: seq<nat>, chains: map<nat, seq<nat>>)
  {
    g.dataEnd <= |fat| && forall h {:trigger HeadOk(g, fat, chains, h)} :: h in chains ==> HeadOk(g, fat, chains, h)
  }

  /** Cluster `c` lies on the chain of `h`. */
  ghost predicate On(chains: map<nat, seq<nat>>, h: nat, c: nat)
  {
    h in chains && c in chains[h]
  }

  ghost predicate Disjoint(chains: map<nat, seq<nat>>)
  {
    forall a, b, c :: On(chains, a, c) && On(chains, b, c) ==> a == b
  }

  /** Chains are well formed and disjoint. */
  ghost predicate ChainsOk(g: Geometry, fat: seq<nat>, chains: map<nat, seq<nat>>)
  {
    Headed(g, fat, chains) && Disjoint(chains)
  }

  /** Every used cluster lies on a chain: none is lost. */
  ghost predicate Covering(g: Geometry, fat: seq<nat>, chains: map<nat, seq<nat>>)
  {
    g.dataEnd <= |fat| && forall c :: g.InData(c) && fat[c] != 0 ==> exists h :: On(chains, h, c)
  }

  ghost predicate Housed(g: Geometry, data: seq<seq<Sector>>, cat: Catalog)
  {
    && cat.dirs <= cat.chains.Keys
    && forall h :: h in cat.chains ==> ChainShaped(data, cat.chains[h], g.spc)
  }

  ghost function TreeOf(g: Geometry, data: seq<seq<Sector>>, cat: Catalog): (t: Tree)
    requires Housed(g, data, cat)
    ensures t.Keys == cat.dirs
  {
    map d | d in cat.dirs :: SlotsOf(data, cat.chains[d], g.spc)
  }

  ghost predicate Rooted(g: Geometry, v: Vol, cat: Catalog)
  {
    Housed(g, v.data, cat) && g.root in cat.dirs
  }

  /** Everything about the volume but its directory tree. */
  ghost predicate Founded(g: Geometry, v: Vol, cat: Catalog)
  {
    Shaped(g, v) && LinksInRange(v.fat) && ChainsOk(g, v.fat, cat.chains) && Housed(g, v.data, cat)
  }

  /** Enough for reading: chains may lie on the volume that no entry names yet. */
  ghost predicate Sound(g: Geometry, v: Vol, cat: Catalog)
  {
    && Shaped(g, v) && Headed(g, v.fat, cat.chains) && Housed(g, v.data, cat)
    && TreeOk(g.root, cat, TreeOf(g, v.data, cat), g.ClusterBytes())
  }

  /** Well-formed, disjoint chains under a sound directory tree. */
  ghost predicate Consistent(g: Geometry, v: Vol, cat: Catalog)
  {
    Founded(g, v, cat) && TreeOk(g.root, cat, TreeOf(g, v.data, cat), g.ClusterBytes())
  }

  lemma ConsistentSound(g: Geometry, v: Vol, cat: Catalog)
    requires Consistent(g, v, cat)
    ensures Sound(g, v, cat)
  {
  }

  lemma ChainsHoused(g: Geometry, v: Vol, cat: Catalog)
    requires Shaped(g, v) && ChainsOk(g, v.fat, cat.chains) && cat.dirs <= cat.chains.Keys
    ensures Housed(g, v.data, cat)
  {
    forall h | h in cat.chains
      ensures ChainShaped(v.data, cat.chains[h], g.spc)
    {
      assert HeadOk(g, v.fat, cat.chains, h);
    }
  }

  /** A cluster of a chain is not free. */
  lemma ChainUsed(g: Geometry, fat: seq<nat>, ch: seq<nat>, c: nat)
    requires ChainOk(g, fat, ch) && c in ch
    ensures g.InData(c) && fat[c] != 0
  {
    var k :| 0 <= k < |ch| && ch[k] == c;
    if k < |ch| - 1 {
      assert fat[ch[k]] == ch[k + 1];
    }
  }

  // ── contents ──

  /** The first `size` bytes of a row of sectors. */
  ghost function Content(secs: seq<Sector>, size: nat): (b: seq<byte>)
    ensures size <= |secs| * SECTOR_SIZE ==> |b| == size
    ensures |b| <= size
    ensures forall p :: 0 <= p < |b| ==> p / SECTOR_SIZE < |secs| && b[p] == secs[p / SECTOR_SIZE][p % SECTOR_SIZE]
  {
    var n := if size <= |secs| * SECTOR_SIZE then size else |secs| * SECTOR_SIZE;
    seq(n, p requires 0 <= p < n => secs[p / SECTOR_SIZE][p % SECTOR_SIZE])
  }

  ghost function FileBytes(g: Geometry, data: seq<seq<Sector>>, ch: seq<nat>, size: nat): (b: seq<byte>)
    requires ChainShaped(data, ch, g.spc)
    ensures size <= |ch| * g.ClusterBytes() ==> |b| == size
  {
    Content(Sectors(data, ch, g.spc), size)
  }

  /** What a path stands for. */
  datatype Meaning = Absent | Folder(head: nat) | File(bytes: seq<byte>)

  ghost function SlotMeaning(g: Geometry, data: seq<seq<Sector>>, chains: map<nat, seq<nat>>, s: Slot): Meaning
  {
    if IsDir(s) then Folder(FirstOf(s))
    else if FirstOf(s) in chains && ChainShaped(data, chains[FirstOf(s)], g.spc) then
      File(FileBytes(g, data, chains[FirstOf(s)], SizeOf(s)))
    else File([])
  }

  /** What `names` stand for, followed from directory `from`. */
  ghost function MeaningFrom(g: Geometry, v: Vol, cat: Catalog, from: nat, names: seq<Name>): Meaning
    requires Housed(g, v.data, cat) && from in cat.dirs && names != []
  {
    var t := TreeOf(g, v.data, cat);
    var r := Lookup(t, from, names);
    if r.NoHit? then Absent else SlotMeaning(g, v.data, cat.chains, t[r.dir][r.idx])
  }

  ghost function MeaningOf(g: Geometry, v: Vol, cat: Catalog, names: seq<Name>): Meaning
    requires Rooted(g, v, cat) && names != []
  {
    MeaningFrom(g, v, cat, g.root, names)
  }

  // ── writing one slot ──

  /** The data area with slot `i` of a directory chain replaced. */
  ghost function WriteSlot(g: Geometry, data: seq<seq<Sector>>, ch: seq<nat>, i: nat, s: Slot): (r: seq<seq<Sector>>)
    requires ChainShaped(data, ch, g.spc) && i < |SlotsOf(data, ch, g.spc)|
  {
    var j := i / SLOTS_PER_SECTOR;
    FlatIndex(j, |ch|, g.spc);
    var c := ch[j / g.spc];
    PutData(Vol([], data), c, j % g.spc, PutSlot(data[c][j % g.spc], i % SLOTS_PER_SECTOR, s)).data
  }

  /** Only one cluster of the chain changes. */
  lemma WriteSlotFrame(g: Geometry, data: seq<seq<Sector>>, ch: seq<nat>, i: nat, s: Slot)
    requires ChainShaped(data, ch, g.spc) && i < |SlotsOf(data, ch, g.spc)|
    ensures var r := WriteSlot(g, data, ch, i, s);
      && |r| == |data|
      && (forall c :: 0 <= c < |data| ==> |r[c]| == |data[c]|)
      && (forall c :: 0 <= c < |data| && c !in ch ==> r[c] == data[c])
  {
    FlatIndex(i / SLOTS_PER_SECTOR, |ch|, g.spc);
  }

  lemma WriteSlotSlots(g: Geometry, data: seq<seq<Sector>>, ch: seq<nat>, i: nat, s: Slot)
    requires ChainShaped(data, ch, g.spc) && Distinct(ch) && i < |SlotsOf(data, ch, g.spc)|
    ensures var r := WriteSlot(g, data, ch, i, s);
      ChainShaped(r, ch, g.spc) && SlotsOf(r, ch, g.spc) == SlotsOf(data, ch, g.spc)[i := s]
  {
    var j := i / SLOTS_PER_SECTOR;
    FlatIndex(j, |ch|, g.spc);
    var c := ch[j / g.spc];
    SectorsPut(data, ch, g.spc, j / g.spc, j % g.spc, PutSlot(data[c][j % g.spc], i % SLOTS_PER_SECTOR, s));
    SlotsPut(Sectors(data, ch, g.spc), j, i % SLOTS_PER_SECTOR, s);
  }

  /** Two data areas give the same tree but for directory `d` when the other chains read the same. */
  lemma TreeByParts(g: Geometry, data: seq<seq<Sector>>, r: seq<seq<Sector>>, cat: Catalog, d: nat, slots: seq<Slot>)
    requires Housed(g, data, cat) && Housed(g, r, cat) && d in cat.dirs
    requires SlotsOf(r, cat.chains[d], g.spc) == slots
    requires forall h :: h in cat.dirs && h != d ==>
      Sectors(r, cat.chains[h], g.spc) == Sectors(data, cat.chains[h], g.spc)
    ensures TreeOf(g, r, cat) == TreeOf(g, data, cat)[d := slots]
  {
  }

  /** Files whose chain differs from `d` keep their bytes. */
  lemma WriteSlotBytes(g: Geometry, fat: seq<nat>, data: seq<seq<Sector>>, cat: Catalog, d: nat, i: nat, s: Slot,
      h: nat)
    requires ChainsOk(g, fat, cat.chains) && Housed(g, data, cat) && d in cat.dirs && h in cat.chains && h != d
    requires i < |TreeOf(g, data, cat)[d]|
    ensures var r := WriteSlot(g, data, cat.chains[d], i, s);
      ChainShaped(r, cat.chains[h], g.spc) && Sectors(r, cat.chains[h], g.spc) == Sectors(data, cat.chains[h], g.spc)
  {
    WriteSlotFrame(g, data, cat.chains[d], i, s);
    forall c | c in cat.chains[h]
      ensures c !in cat.chains[d]
    {
      assert On(cat.chains, h, c) && (c in cat.chains[d] ==> On(cat.chains, d, c));
    }
    SectorsFrame(data, WriteSlot(g, data, cat.chains[d], i, s), cat.chains[h], g.spc);
  }

  /** The tree after writing one slot of directory `d`. */
  lemma WriteSlotTree(g: Geometry, fat: seq<nat>, data: seq<seq<Sector>>, cat: Catalog, d: nat, i: nat, s: Slot)
    requires ChainsOk(g, fat, cat.chains) && Housed(g, data, cat) && d in cat.dirs
    requires i < |TreeOf(g, data, cat)[d]|
    ensures var r := WriteSlot(g, data, cat.chains[d], i, s);
      Housed(g, r, cat) && TreeOf(g, r, cat) == SetSlot(TreeOf(g, data, cat), d, i, s)
  {
    var r := WriteSlot(g, data, cat.chains[d], i, s);
    assert HeadOk(g, fat, cat.chains, d);
    ChainAcyclic(g, fat, cat.chains[d]);
    WriteSlotSlots(g, data, cat.chains[d], i, s);
    forall h | h in cat.chains && h != d
      ensures ChainShaped(r, cat.chains[h], g.spc)
      ensures Sectors(r, cat.chains[h], g.spc) == Sectors(data, cat.chains[h], g.spc)
    {
      WriteSlotBytes(g, fat, data, cat, d, i, s, h);
    }
    assert Housed(g, r, cat);
    TreeByParts(g, data, r, cat, d, SlotsOf(r, cat.chains[d], g.spc));
  }
}
