/** Reading along a chain: what a file handle must hold for its next read to be right. */
module FatStream {
  import opened Bytes
  import opened FatLayout
  import opened FatDirectory
  import opened FatChains
  import opened FatTree
  import opened FatVolume

  /** The number of sectors of a chain. */
  ghost function SectorCount(g: Geometry, ch: seq<nat>): nat { |ch| * g.spc }

  ghost function Total(g: Geometry, ch: seq<nat>): nat { SectorCount(g, ch) * SECTOR_SIZE }

  /** All bytes of a chain. */
  ghost function Stream(g: Geometry, data: seq<seq<Sector>>, ch: seq<nat>): (b: seq<byte>)
    requires ChainShaped(data, ch, g.spc)
    ensures |b| == Total(g, ch)
  {
    Content(Sectors(data, ch, g.spc), Total(g, ch))
  }

  /** The chain can be walked: it is empty, or well formed in the FAT. */
  ghost predicate Walkable(g: Geometry, v: Vol, ch: seq<nat>)
  {
    Shaped(g, v) && ChainShaped(v.data, ch, g.spc) && (ch == [] || ChainOk(g, v.fat, ch))
  }

  /** While bytes remain, cluster, sector and buffer are those that position `pos` lies in. */
  ghost predicate StreamAt(g: Geometry, data: seq<seq<Sector>>, ch: seq<nat>, pos: nat, cluster: nat, sector: nat,
      buffer: Sector)
    requires ChainShaped(data, ch, g.spc)
  {
    && pos <= Total(g, ch)
    && (pos < Total(g, ch) ==>
      var j := pos / SECTOR_SIZE;
      && 0 <= j / g.spc < |ch| && 0 <= j % g.spc < g.spc
      && cluster == ch[j / g.spc] && sector == j % g.spc && buffer == data[ch[j / g.spc]][j % g.spc])
  }

  /** The buffered sector holds the next bytes of the stream. */
  lemma BufferBytes(g: Geometry, data: seq<seq<Sector>>, ch: seq<nat>, pos: nat, cluster: nat, sector: nat,
      buffer: Sector, take: nat)
    requires ChainShaped(data, ch, g.spc) && StreamAt(g, data, ch, pos, cluster, sector, buffer)
    requires pos < Total(g, ch) && pos % SECTOR_SIZE + take <= SECTOR_SIZE
    ensures pos + take <= Total(g, ch)
    ensures Stream(g, data, ch)[pos..pos + take] == buffer[pos % SECTOR_SIZE..pos % SECTOR_SIZE + take]
  {
    var j := pos / SECTOR_SIZE;
    FlatIndex(j, |ch|, g.spc);
    SectorsAt(data, ch, g.spc, j / g.spc, j % g.spc);
    var x, y := Stream(g, data, ch)[pos..pos + take], buffer[pos % SECTOR_SIZE..pos % SECTOR_SIZE + take];
    forall b | 0 <= b < take
      ensures x[b] == y[b]
    {
      assert (pos + b) / SECTOR_SIZE == j && (pos + b) % SECTOR_SIZE == pos % SECTOR_SIZE + b;
    }
    assert x == y;
  }

  /** The sector after sector `j` of a chain: the next of the cluster, or the first of the next. */
  lemma NextFlat(j: nat, spc: nat)
    requires spc > 0
    ensures j % spc + 1 < spc ==> (j + 1) / spc == j / spc && (j + 1) % spc == j % spc + 1
    ensures j % spc + 1 == spc ==> (j + 1) / spc == j / spc + 1 && (j + 1) % spc == 0
  {
    var k, s := j / spc, j % spc;
    assert j + 1 == k * spc + (s + 1);
    if s + 1 < spc {
      DivMod(k, s + 1, spc);
    } else {
      MulDistrib(k, 1, spc);
      DivMod(k + 1, 0, spc);
    }
  }

  /** The end of the chain is reached after the last sector of the last cluster, and only there. */
  lemma LastFlat(j: nat, n: nat, spc: nat)
    requires spc > 0 && j < n * spc
    ensures j % spc + 1 == spc && j / spc + 1 == n ==> j + 1 == n * spc
    ensures j % spc + 1 < spc || j / spc + 1 < n ==> j + 1 < n * spc
  {
    FlatIndex(j, n, spc);
    NextFlat(j, spc);
    if j % spc + 1 < spc {
      FlatBound(j / spc, j % spc + 1, n, spc);
    } else if j / spc + 1 < n {
      FlatBound(j / spc + 1, 0, n, spc);
      MulDistrib(j / spc, 1, spc);
    } else {
      MulDistrib(j / spc, 1, spc);
    }
  }

  lemma WalkableShaped(g: Geometry, v: Vol, ch: seq<nat>)
    requires Walkable(g, v, ch)
    ensures ChainShaped(v.data, ch, g.spc)
  {
  }

  lemma StreamBound(g: Geometry, data: seq<seq<Sector>>, ch: seq<nat>, pos: nat, cluster: nat, sector: nat,
      buffer: Sector)
    requires ChainShaped(data, ch, g.spc) && StreamAt(g, data, ch, pos, cluster, sector, buffer)
    ensures pos <= Total(g, ch)
  {
  }

  /** After `take` bytes the handle stands in the same sector, or at its end. */
  lemma StreamPlace(g: Geometry, data: seq<seq<Sector>>, ch: seq<nat>, pos: nat, cluster: nat, sector: nat,
      buffer: Sector, take: nat)
    requires ChainShaped(data, ch, g.spc) && StreamAt(g, data, ch, pos, cluster, sector, buffer)
    requires pos < Total(g, ch) && 0 < take && pos % SECTOR_SIZE + take <= SECTOR_SIZE
    ensures var j := pos / SECTOR_SIZE;
      && j < SectorCount(g, ch) && 0 <= j / g.spc < |ch| && cluster == ch[j / g.spc] && sector == j % g.spc < g.spc
      && (take == SECTOR_SIZE - pos % SECTOR_SIZE ==> pos + take == (j + 1) * SECTOR_SIZE)
      && (take < SECTOR_SIZE - pos % SECTOR_SIZE ==>
        pos + take < Total(g, ch) && StreamAt(g, data, ch, pos + take, cluster, sector, buffer))
  {
    var j := pos / SECTOR_SIZE;
    if take < SECTOR_SIZE - pos % SECTOR_SIZE {
      assert (pos + take) / SECTOR_SIZE == j && (pos + take) % SECTOR_SIZE != 0;
    }
  }

  /** The link of the `k`-th cluster of a chain. */
  lemma LinkAfter(g: Geometry, v: Vol, ch: seq<nat>, k: nat)
    requires Walkable(g, v, ch) && k < |ch|
    ensures |v.fat| == g.Entries() && g.dataEnd <= g.Entries() && g.InData(ch[k]) && ch[k] < |v.fat|
    ensures if k + 1 < |ch| then v.fat[ch[k]] == ch[k + 1] < END_MIN && g.InData(ch[k + 1]) else v.fat[ch[k]] >= END_MIN
    ensures g.spc > 0
  {
    assert g.InData(ch[k]) && (k + 1 < |ch| ==> g.InData(ch[k + 1]));
  }

  lemma StreamStart(g: Geometry, data: seq<seq<Sector>>, ch: seq<nat>)
    requires ChainShaped(data, ch, g.spc) && ch != []
    ensures |data[ch[0]]| == g.spc && StreamAt(g, data, ch, 0, ch[0], 0, data[ch[0]][0]) && Total(g, ch) > 0
  {
    FlatBound(0, 0, |ch|, g.spc);
    DivMod(0, 0, g.spc);
  }

  /** Thirty-two bytes from a multiple of thirty-two are one directory slot. */
  lemma StreamSlot(g: Geometry, data: seq<seq<Sector>>, ch: seq<nat>, i: nat)
    requires ChainShaped(data, ch, g.spc) && i < |SlotsOf(data, ch, g.spc)|
    ensures SLOT_SIZE * i + SLOT_SIZE <= Total(g, ch)
    ensures Stream(g, data, ch)[SLOT_SIZE * i..SLOT_SIZE * i + SLOT_SIZE] == SlotsOf(data, ch, g.spc)[i]
  {
    var secs := Sectors(data, ch, g.spc);
    var x, y := Stream(g, data, ch)[SLOT_SIZE * i..SLOT_SIZE * i + SLOT_SIZE], SlotsOf(data, ch, g.spc)[i];
    forall b | 0 <= b < SLOT_SIZE
      ensures x[b] == y[b]
    {
      var p := SLOT_SIZE * i + b;
      assert p / SECTOR_SIZE == i / SLOTS_PER_SECTOR && p % SECTOR_SIZE == SLOT_SIZE * (i % SLOTS_PER_SECTOR) + b;
    }
    assert x == y;
  }

  /** How the position of slot `i` lies to the end of its directory. */
  lemma ScanPlace(g: Geometry, v: Vol, ch: seq<nat>, i: nat)
    requires Walkable(g, v, ch)
    ensures ChainShaped(v.data, ch, g.spc) && |SlotsOf(v.data, ch, g.spc)| * SLOT_SIZE == Total(g, ch)
    ensures i < |SlotsOf(v.data, ch, g.spc)| ==>
      SLOT_SIZE * i + SLOT_SIZE <= Total(g, ch)
        && Stream(g, v.data, ch)[SLOT_SIZE * i..SLOT_SIZE * i + SLOT_SIZE] == SlotsOf(v.data, ch, g.spc)[i]
    ensures |Stream(g, v.data, ch)| == Total(g, ch)
    ensures ch != [] ==> Total(g, ch) > 0
  {
    if i < |SlotsOf(v.data, ch, g.spc)| {
      StreamSlot(g, v.data, ch, i);
    }
    if ch != [] {
      StreamStart(g, v.data, ch);
    }
  }

  /** Where a handle stands once sector `j` is used up. */
  lemma StreamStep(g: Geometry, data: seq<seq<Sector>>, ch: seq<nat>, j: nat)
    requires ChainShaped(data, ch, g.spc) && j < SectorCount(g, ch)
    ensures 0 <= j / g.spc < |ch| && 0 <= j % g.spc < g.spc && (j + 1) * SECTOR_SIZE <= Total(g, ch)
    ensures var k, s := j / g.spc, j % g.spc; var pos := (j + 1) * SECTOR_SIZE;
      if s + 1 < g.spc then
        pos < Total(g, ch) && StreamAt(g, data, ch, pos, ch[k], s + 1, data[ch[k]][s + 1])
      else if k + 1 < |ch| then
        pos < Total(g, ch) && StreamAt(g, data, ch, pos, ch[k + 1], 0, data[ch[k + 1]][0])
      else pos == Total(g, ch)
  {
    FlatIndex(j, |ch|, g.spc);
    NextFlat(j, g.spc);
    LastFlat(j, |ch|, g.spc);
    assert (j + 1) * SECTOR_SIZE / SECTOR_SIZE == j + 1;
  }

  lemma StreamEnd(g: Geometry, data: seq<seq<Sector>>, ch: seq<nat>, cluster: nat, sector: nat, buffer: Sector)
    requires ChainShaped(data, ch, g.spc)
    ensures StreamAt(g, data, ch, Total(g, ch), cluster, sector, buffer)
  {
  }

  lemma MulAssoc(a: int, b: int, c: int)
    ensures a * (b * c) == a * b * c
  {
  }

  /** A well-formed file's size fits its chain. */
  lemma SizeFits(g: Geometry, n: nat, size: nat)
    requires Sized(n, size, g.ClusterBytes())
    ensures size <= n * g.spc * SECTOR_SIZE
  {
    MulAssoc(n, g.spc, SECTOR_SIZE);
  }

  lemma SliceJoin(s: seq<byte>, a: nat, b: nat, c: nat)
    requires a <= b <= c <= |s|
    ensures s[a..b] + s[b..c] == s[a..c]
  {
  }

  // ── handles of entries ──

  /** The chain behind a slot: none for an empty file. */
  ghost function SlotChain(cat: Catalog, s: Slot): seq<nat>
  {
    if FirstOf(s) in cat.chains then cat.chains[FirstOf(s)] else []
  }

  lemma HeadWalkable(g: Geometry, v: Vol, cat: Catalog, h: nat)
    requires Shaped(g, v) && Headed(g, v.fat, cat.chains) && Housed(g, v.data, cat) && h in cat.chains
    ensures Walkable(g, v, cat.chains[h]) && cat.chains[h] != [] && cat.chains[h][0] == h
  {
    assert HeadOk(g, v.fat, cat.chains, h);
  }

  /** An entry can be opened: its chain is sound and long enough for its size. */
  ghost predicate Openable(g: Geometry, v: Vol, s: Slot, ch: seq<nat>)
  {
    && Walkable(g, v, ch)
    && FirstOf(s) == (if ch == [] then 0 else ch[0])
    && if IsDir(s) then SizeOf(s) == 0 && ch != [] else SizeOf(s) <= Total(g, ch)
  }

  lemma EntryOpenable(g: Geometry, v: Vol, cat: Catalog, s: Slot, d: nat, i: nat)
    requires Shaped(g, v) && Headed(g, v.fat, cat.chains) && Housed(g, v.data, cat) && 0 !in cat.chains
    requires EntryOk(cat, s, d, i, g.ClusterBytes())
    ensures Openable(g, v, s, SlotChain(cat, s))
  {
    var h := FirstOf(s);
    if h == 0 {
      assert ChainShaped(v.data, [], g.spc);
    } else {
      HeadWalkable(g, v, cat, h);
      if !IsDir(s) {
        SizeFits(g, |cat.chains[h]|, SizeOf(s));
      }
    }
  }

  // ── paths the driver can walk ──

  /** Hypotheses on a path to open: no component is a dot name, what lies before the last component
    * is a directory if it is there, and the search of the root finds its name or an end slot. */
  ghost predicate PathSafe(t: Tree, root: nat, names: seq<Name>)
    requires root in t
  {
    && NoDots(names)
    && (forall k :: 0 <= k < |names| ==> DirAt(t, root, names[..k]) != NotADir)
    && (names != [] ==> Find(t[root], names[0]) < |t[root]| || HasEnd(t[root]))
  }

  /** On the way of a safe path, the slot hit so far is that of a directory. */
  lemma WalkOn(root: nat, cat: Catalog, t: Tree, cb: nat, names: seq<Name>, k: nat)
    requires TreeOk(root, cat, t, cb) && PathSafe(t, root, names) && 0 < k < |names|
    requires Lookup(t, root, names[..k]).Hit?
    ensures var r := Lookup(t, root, names[..k]); var s := t[r.dir][r.idx];
      FirstOf(s) in t && FirstOf(s) != root && DirAt(t, root, names[..k]) == At(FirstOf(s)) && IsDir(s)
        && SizeOf(s) == 0
  {
    var head := names[..k];
    assert head[..k - 1] == names[..k - 1];
    var d := DirAt(t, root, head[..k - 1]).dir;
    assert DirAt(t, root, head) == Step(t, d, names[k - 1]);
    StepRef(root, cat, t, cb, d, names[k - 1]);
  }

  /** One more component: found in the directory reached so far, or the path is lost. */
  lemma LookupOn(t: Tree, root: nat, names: seq<Name>, k: nat)
    requires root in t && k < |names| && DirAt(t, root, names[..k]).At?
    ensures var d := DirAt(t, root, names[..k]).dir; var i := Find(t[d], names[k]);
      Lookup(t, root, names[..k + 1]) == if i < |t[d]| then Hit(d, i) else NoHit
  {
    assert names[..k + 1][..k] == names[..k];
  }

  lemma {:induction false} MissingOn(t: Tree, root: nat, names: seq<Name>, k: nat, m: nat)
    requires root in t && k <= m <= |names| && DirAt(t, root, names[..k]) == Missing
    ensures DirAt(t, root, names[..m]) == Missing
    decreases m
  {
    if k < m {
      MissingOn(t, root, names, k, m - 1);
      assert names[..m][..m - 1] == names[..m - 1];
    }
  }

  /** A path that is lost stays lost. */
  lemma {:induction false} StaysLost(t: Tree, root: nat, names: seq<Name>, k: nat)
    requires root in t && 0 < k <= |names| && Lookup(t, root, names[..k]) == NoHit
    requires DirAt(t, root, names[..k - 1]).At?
    ensures Lookup(t, root, names) == NoHit
  {
    if k < |names| {
      var d := DirAt(t, root, names[..k - 1]).dir;
      assert names[..k][..k - 1] == names[..k - 1];
      assert Step(t, d, names[k - 1]) == Missing;
      MissingOn(t, root, names, k, |names| - 1);
    } else {
      assert names[..k] == names;
    }
  }
}
