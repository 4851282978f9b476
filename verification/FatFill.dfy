/** Filling clusters with the bytes of a file, sector by sector, the last sector padded with zeros. */
module FatFill {
  import opened Bytes
  import opened FatLayout
  import opened FatDirectory
  import opened FatChains
  import opened FatTree
  import opened FatVolume
  import opened FatSteps
  import opened FatStream

  /** Sector `j` of `data`, padded with zeros. */
  function PadSector(data: seq<byte>, j: nat): (b: Sector)
    requires j * SECTOR_SIZE < |data|
    ensures forall i :: 0 <= i < SECTOR_SIZE ==>
      b[i] == if j * SECTOR_SIZE + i < |data| then data[j * SECTOR_SIZE + i] else 0
  {
    var left := |data| - j * SECTOR_SIZE;
    if left >= SECTOR_SIZE then data[j * SECTOR_SIZE..j * SECTOR_SIZE + SECTOR_SIZE]
    else data[j * SECTOR_SIZE..] + Zeros(SECTOR_SIZE - left)
  }

  /** The first `n` sectors of cluster row `row` hold the sectors of `data` from `base` on; what the
    * data does not reach is as it was in `before`. */
  ghost predicate RowFilled(row: seq<Sector>, before: seq<Sector>, data: seq<byte>, base: nat, n: nat)
  {
    && |row| == |before| && n <= |row|
    && (forall s :: 0 <= s < n && (base + s) * SECTOR_SIZE < |data| ==> row[s] == PadSector(data, base + s))
    && (forall s :: 0 <= s < |row| && (n <= s || (base + s) * SECTOR_SIZE >= |data|) ==> row[s] == before[s])
  }

  /** The clusters in `picks` hold the sectors of `data` in order, as far as they reach. */
  ghost predicate Filled(vdata: seq<seq<Sector>>, picks: seq<nat>, spc: nat, data: seq<byte>)
  {
    && ChainShaped(vdata, picks, spc)
    && forall k, s {:trigger vdata[picks[k]][s]} ::
      0 <= k < |picks| && 0 <= s < spc && (Flat(k, spc) + s) * SECTOR_SIZE < |data| ==>
         vdata[picks[k]][s] == PadSector(data, Flat(k, spc) + s)
  }

  lemma RowStep(row: seq<Sector>, before: seq<Sector>, data: seq<byte>, base: nat, n: nat)
    requires RowFilled(row, before, data, base, n) && n < |row| && (base + n) * SECTOR_SIZE < |data|
    ensures RowFilled(row[n := PadSector(data, base + n)], before, data, base, n + 1)
  {
  }

  lemma RowDone(row: seq<Sector>, before: seq<Sector>, data: seq<byte>, base: nat, n: nat)
    requires RowFilled(row, before, data, base, n) && (n == |row| || (base + n) * SECTOR_SIZE >= |data|)
    ensures RowFilled(row, before, data, base, |row|)
  {
  }

  /** One more filled cluster behind the others. */
  lemma FilledOn(prior: seq<seq<Sector>>, next: seq<seq<Sector>>, picks: seq<nat>, c: nat, spc: nat, data: seq<byte>)
    requires Filled(prior, picks, spc, data) && c !in picks && c < |prior| && |prior[c]| == spc
    requires |next| == |prior| && RowFilled(next[c], prior[c], data, Flat(|picks|, spc), spc)
    requires forall x :: 0 <= x < |prior| && x != c ==> next[x] == prior[x]
    ensures Filled(next, picks + [c], spc, data)
  {
    var all := picks + [c];
    forall k, s | 0 <= k < |all| && 0 <= s < spc && (Flat(k, spc) + s) * SECTOR_SIZE < |data|
      ensures next[all[k]][s] == PadSector(data, Flat(k, spc) + s)
    {
      if k < |picks| {
        assert all[k] == picks[k] && next[picks[k]] == prior[picks[k]];
      }
    }
  }

  /** Filled clusters read back as the data. */
  lemma FilledReads(g: Geometry, vdata: seq<seq<Sector>>, picks: seq<nat>, data: seq<byte>)
    requires Filled(vdata, picks, g.spc, data) && |data| <= Total(g, picks)
    ensures FileBytes(g, vdata, picks, |data|) == data
  {
    var secs := Sectors(vdata, picks, g.spc);
    var b := Content(secs, |data|);
    forall p | 0 <= p < |data|
      ensures b[p] == data[p]
    {
      var j := p / SECTOR_SIZE;
      FlatIndex(j, |picks|, g.spc);
      assert j == Flat(j / g.spc, g.spc) + j % g.spc;
      assert secs[j] == vdata[picks[j / g.spc]][j % g.spc];
      assert secs[j] == PadSector(data, j);
      assert j * SECTOR_SIZE + p % SECTOR_SIZE == p;
    }
    assert b == data;
  }

  /** The data in padded sectors: every sector of the chain up to the last one used. */
  lemma FilledSectors(g: Geometry, vdata: seq<seq<Sector>>, picks: seq<nat>, data: seq<byte>, j: nat)
    requires Filled(vdata, picks, g.spc, data) && j < |picks| * g.spc && j * SECTOR_SIZE < |data|
    ensures Sectors(vdata, picks, g.spc)[j] == PadSector(data, j)
  {
    FlatIndex(j, |picks|, g.spc);
    assert j == Flat(j / g.spc, g.spc) + j % g.spc;
    assert Sectors(vdata, picks, g.spc)[j] == vdata[picks[j / g.spc]][j % g.spc];
  }

  // ── how many clusters a file takes ──

  /** The number of clusters that `size` bytes take. */
  ghost function ClustersFor(g: Geometry, size: nat): (n: nat)
    requires g.spc > 0
    ensures size > 0 ==> Sized(n, size, g.ClusterBytes())
    ensures size == 0 ==> n == 0
  {
    if size == 0 then 0
    else
      ClusterQuotient(size - 1, g.ClusterBytes());
      (size - 1) / g.ClusterBytes() + 1
  }

  lemma SizedUnique(m: nat, n: nat, size: nat, cb: nat)
    requires Sized(m, size, cb) && Sized(n, size, cb)
    ensures m == n
  {
    if m < n {
      MulMono(m, n - 1, cb);
    } else if n < m {
      MulMono(n, m - 1, cb);
    }
  }

  /** `used` bytes are what `m` clusters hold. */
  lemma UsedBytes(g: Geometry, m: nat)
    ensures Flat(m, g.spc) * SECTOR_SIZE == m * g.ClusterBytes()
  {
    MulAssoc(m, g.spc, SECTOR_SIZE);
  }

  /** While bytes remain, fewer clusters are filled than the file takes. */
  lemma StillNeeded(g: Geometry, m: nat, n: nat, size: nat)
    requires Sized(n, size, g.ClusterBytes()) && Flat(m, g.spc) * SECTOR_SIZE < size
    ensures m < n
  {
    UsedBytes(g, m);
    if m >= n {
      MulMono(n, m, g.ClusterBytes());
    }
  }

  /** When the last cluster was needed and nothing remains, the file has its clusters. */
  lemma EnoughNow(g: Geometry, m: nat, size: nat)
    requires m > 0 && Flat(m - 1, g.spc) * SECTOR_SIZE < size <= Flat(m, g.spc) * SECTOR_SIZE
    ensures Sized(m, size, g.ClusterBytes())
  {
    UsedBytes(g, m - 1);
    UsedBytes(g, m);
  }

  // ── building a chain ──

  /** The clusters `picks` of `v` have been taken lowest first, linked, and filled with `data`. */
  ghost predicate Building(g: Geometry, v: Vol, w: Vol, picks: seq<nat>, data: seq<byte>)
  {
    && Shaped(g, v) && Shaped(g, w)
    && LowestPicks(g, v.fat, picks) && Chained(v.fat, picks, w.fat)
    && OnlyPicks(v.data, w.data, picks) && Filled(w.data, picks, g.spc, data)
  }

  lemma BuildStart(g: Geometry, v: Vol, data: seq<byte>)
    requires Shaped(g, v)
    ensures Building(g, v, v, [], data)
  {
  }

  /** Entries past the data area, as far as the free-cluster scan goes, are in use. */
  ghost predicate TailUsed(g: Geometry, v: Vol)
    requires Shaped(g, v)
  {
    g.ScanEnd() <= g.Entries() && forall c :: g.dataEnd <= c < g.ScanEnd() ==> v.fat[c] != 0
  }

  ghost function FreeClusters(g: Geometry, v: Vol): nat
    requires Shaped(g, v)
  {
    CountFree(v.fat, 2, g.dataEnd)
  }

  /** As long as fewer than `n` clusters are taken, one of the data area is free, or the volume is
    * full and the scan finds nothing past the data area either. */
  lemma BuildRoom(g: Geometry, v: Vol, w: Vol, picks: seq<nat>, data: seq<byte>)
    requires Building(g, v, w, picks, data)
    ensures FreeClusters(g, v) == FreeClusters(g, w) + |picks|
    ensures FreeClusters(g, v) > |picks| ==> exists c :: g.InData(c) && w.fat[c] == 0
    ensures TailUsed(g, v) ==> TailUsed(g, w)
    ensures (forall c :: g.InData(c) ==> w.fat[c] != 0) ==> FreeClusters(g, v) == |picks|
  {
    CountChained(g, v.fat, picks, w.fat);
    if FreeClusters(g, w) > 0 {
      var c := CountWitness(w.fat, 2, g.dataEnd);
      assert g.InData(c);
    }
  }

  lemma PicksTaken(g: Geometry, fat: seq<nat>, picks: seq<nat>, next: seq<nat>)
    requires LowestPicks(g, fat, picks) && Chained(fat, picks, next)
    ensures forall c :: c in picks ==> next[c] != 0
  {
    forall c | c in picks
      ensures next[c] != 0
    {
      var k :| 0 <= k < |picks| && picks[k] == c;
      assert k < |picks| - 1 ==> next[picks[k]] == picks[k + 1];
    }
  }

  lemma OnlyPicksOn(a: seq<seq<Sector>>, b: seq<seq<Sector>>, d: seq<seq<Sector>>, picks: seq<nat>, c: nat)
    requires OnlyPicks(a, b, picks) && |d| == |b| && c < |b| && |d[c]| == |b[c]|
    requires forall x :: 0 <= x < |b| && x != c ==> d[x] == b[x]
    ensures OnlyPicks(a, d, picks + [c])
  {
    assert c in picks + [c];
    forall x | 0 <= x < |a| && x !in picks + [c]
      ensures d[x] == a[x]
    {
      assert x != c && x !in picks;
    }
  }

  /** One cluster more: taken, linked and filled. */
  lemma BuildOn(g: Geometry, v: Vol, w: Vol, u: Vol, picks: seq<nat>, c: nat, fat: seq<nat>, data: seq<byte>)
    requires Building(g, v, w, picks, data) && LowestFree(w.fat, c) && g.InData(c)
    requires fat == (var marked := w.fat[c := END_OF_CHAIN];
      if |picks| == 0 then marked else marked[picks[|picks| - 1] := c])
    requires Shaped(g, u) && u.fat == fat && |u.data| == |w.data|
    requires RowFilled(u.data[c], w.data[c], data, Flat(|picks|, g.spc), g.spc)
    requires forall x :: 0 <= x < |w.data| && x != c ==> u.data[x] == w.data[x]
    ensures Building(g, v, u, picks + [c], data)
  {
    ExtendPicks(g, v.fat, picks, w.fat, c);
    PicksTaken(g, v.fat, picks, w.fat);
    FilledOn(w.data, u.data, picks, c, g.spc, data);
    OnlyPicksOn(v.data, w.data, u.data, picks, c);
  }
}
