/** What the calls add up to: what holds of the volume over every run of them. */
module FatRuns {
  import opened Bytes
  import opened FatLayout
  import opened FatDirectory
  import opened FatChains
  import opened FatTree
  import opened FatVolume
  import opened FatSteps
  import opened FatScan
  import opened FatFill
  import opened FatWrite
  import opened FatCalls
  import opened FatMeaning
  import opened FatReach

  // ── conservation of clusters ──

  ghost function SomeHead(chains: map<nat, seq<nat>>): (h: nat)
    requires |chains| > 0
    ensures h in chains
  {
    var h :| h in chains.Keys;
    h
  }

  lemma Fewer(chains: map<nat, seq<nat>>, h: nat)
    requires h in chains
    ensures |chains - {h}| < |chains|
  {
    assert (chains - {h}).Keys == chains.Keys - {h};
    assert |(chains - {h}).Keys| == |chains - {h}| && |chains.Keys| == |chains|;
  }

  /** The lengths of all chains together. */
  ghost function ChainSum(chains: map<nat, seq<nat>>): nat
    decreases |chains|
  {
    if |chains| == 0 then 0
    else
      var h := SomeHead(chains);
      Fewer(chains, h);
      |chains[h]| + ChainSum(chains - {h})
  }

  lemma NoChains(g: Geometry, fat: seq<nat>, chains: map<nat, seq<nat>>)
    requires |chains| == 0 && 2 <= g.dataEnd <= |fat|
    ensures Covering(g, fat, chains) <==> forall c :: 2 <= c < g.dataEnd ==> fat[c] == 0
  {
    assert forall h, c :: !On(chains, h, c);
    assert forall c :: 2 <= c < g.dataEnd ==> g.InData(c);
  }

  lemma {:induction false} AllFree(fat: seq<nat>, lo: nat, hi: nat)
    requires lo <= hi <= |fat|
    ensures CountFree(fat, lo, hi) == hi - lo <==> forall c :: lo <= c < hi ==> fat[c] == 0
    decreases hi
  {
    if lo < hi {
      AllFree(fat, lo, hi - 1);
    }
  }

  /** Free clusters and chain lengths together are no more than the data area has, and just as many
    * exactly when every used cluster lies on a chain. */
  lemma {:induction false} Conservation(g: Geometry, fat: seq<nat>, chains: map<nat, seq<nat>>)
    requires ChainsOk(g, fat, chains) && LinksInRange(fat) && 2 <= g.dataEnd
    ensures CountFree(fat, 2, g.dataEnd) + ChainSum(chains) <= g.dataEnd - 2
    ensures CountFree(fat, 2, g.dataEnd) + ChainSum(chains) == g.dataEnd - 2 <==> Covering(g, fat, chains)
    decreases |chains|
  {
    if |chains| == 0 {
      AllFree(fat, 2, g.dataEnd);
      NoChains(g, fat, chains);
    } else {
      var h := SomeHead(chains);
      Fewer(chains, h);
      ErasedChains(g, fat, chains, h);
      ErasedCovering(g, fat, chains, h);
      Conservation(g, Erased(fat, chains[h]), chains - {h});
      assert HeadOk(g, fat, chains, h);
      ChainAcyclic(g, fat, chains[h]);
      ChainAllUsed(g, fat, chains[h]);
      CountErased(fat, chains[h], 2, g.dataEnd);
    }
  }

  // ── where runs start ──

  /** A freshly formatted volume: the root has one cluster of zeros, all others are free. */
  ghost predicate IsFormatted(g: Geometry, v: Vol)
  {
    && Shaped(g, v) && LinksInRange(v.fat) && v.fat[g.root] >= END_MIN
    && (forall c :: g.InData(c) && c != g.root ==> v.fat[c] == 0)
    && forall s :: 0 <= s < g.spc ==> v.data[g.root][s] == ZeroSector()
  }

  ghost function Formatted(g: Geometry): Catalog { Catalog(map[g.root := [g.root]], {g.root}, map[]) }

  lemma FormattedChains(g: Geometry, fat: seq<nat>)
    requires g.Valid() && |fat| == g.Entries() && fat[g.root] >= END_MIN
    requires forall c :: g.InData(c) && c != g.root ==> fat[c] == 0
    ensures ChainsOk(g, fat, Formatted(g).chains) && Covering(g, fat, Formatted(g).chains)
  {
    var chains := Formatted(g).chains;
    forall h | h in chains
      ensures HeadOk(g, fat, chains, h)
    {
      assert chains[h] == [g.root];
    }
    forall c | g.InData(c) && fat[c] != 0
      ensures exists h :: On(chains, h, c)
    {
      assert c in chains[g.root];
      assert On(chains, g.root, c);
    }
  }

  lemma FormattedCount(g: Geometry, fat: seq<nat>, chains: map<nat, seq<nat>>)
    requires ChainsOk(g, fat, chains) && Covering(g, fat, chains)
    requires LinksInRange(fat) && 2 <= g.dataEnd && chains == map[g.root := [g.root]]
    ensures CountFree(fat, 2, g.dataEnd) == g.dataEnd - 3
  {
    Conservation(g, fat, chains);
    assert chains.Keys == {g.root} && |chains| == 1;
    var h := SomeHead(chains);
    assert chains - {h} == map[];
  }

  lemma ZeroSlots(row: seq<Sector>)
    requires |row| > 0 && forall s :: 0 <= s < |row| ==> row[s] == ZeroSector()
    ensures Terminated(Slots(row)) && HasEnd(Slots(row)) && forall i :: 0 <= i < |Slots(row)| ==> IsEnd(Slots(row)[i])
  {
    forall i | 0 <= i < |Slots(row)|
      ensures IsEnd(Slots(row)[i])
    {
      assert Slots(row)[i] == SlotIn(row[i / SLOTS_PER_SECTOR], i % SLOTS_PER_SECTOR);
    }
    assert IsEnd(Slots(row)[0]);
  }

  lemma FormattedConsistent(g: Geometry, v: Vol)
    requires IsFormatted(g, v)
    ensures Consistent(g, v, Formatted(g)) && FreeClusters(g, v) == g.dataEnd - 3
    ensures HasEnd(TreeOf(g, v.data, Formatted(g))[g.root])
  {
    var cat := Formatted(g);
    var chains := cat.chains;
    assert chains[g.root] == [g.root];
    assert ChainShaped(v.data, [g.root], g.spc);
    OneClusterSlots(v.data, g.root, g.spc);
    ZeroSlots(v.data[g.root]);
    assert HeadOk(g, v.fat, chains, g.root);
    assert Up(cat.refs, g.root, 0) == g.root;
    FormattedChains(g, v.fat);
    FormattedCount(g, v.fat, chains);
  }

  /** On it no cluster is lost and every directory is found: what runs keep holds to begin with. */
  lemma FormattedWhole(g: Geometry, v: Vol)
    requires IsFormatted(g, v)
    ensures var s := State(v, Formatted(g)); Fine(g, s) && NoneLost(g, s) && AllFound(g, s)
  {
    hide TreeOf, TreeOk, Headed, Disjoint, Covering;
    FormattedConsistent(g, v);
    FormattedChains(g, v.fat);
    assert DirAt(TreeOf(g, v.data, Formatted(g)), g.root, []) == At(g.root);
  }

  // ── runs ──

  /** The call leads from one state to the next. What calls do is told of consistent volumes only; that
    * no state of a run is another is what `RunConsistent` shows. */
  ghost predicate Happens(g: Geometry, s: State, call: Call, t: State)
  {
    Fine(g, s) ==> Does(g, s, call, t)
  }

  /** A run of calls, failing ones included, from a consistent volume on. */
  ghost predicate Run(g: Geometry, states: seq<State>, calls: seq<Call>)
  {
    && |states| == |calls| + 1
    && Fine(g, states[0])
    && forall i :: 0 <= i < |calls| ==> Happens(g, states[i], calls[i], states[i + 1])
  }

  lemma {:induction false} RunConsistent(g: Geometry, states: seq<State>, calls: seq<Call>, i: nat)
    requires Run(g, states, calls) && i < |states|
    ensures Fine(g, states[i])
    ensures i < |calls| ==> Does(g, states[i], calls[i], states[i + 1])
  {
    hide Fine, Does;
    if i > 0 {
      RunConsistent(g, states, calls, i - 1);
      CallKeeps(g, states[i - 1], calls[i - 1], states[i]);
    }
    if i < |calls| {
      assert Happens(g, states[i], calls[i], states[i + 1]);
    }
  }

  /** Over every run no entry of the FAT outside the data area changes: with them, that the scan for a free
    * cluster stays inside holds throughout when it holds at the start. */
  lemma {:induction false} RunTail(g: Geometry, states: seq<State>, calls: seq<Call>, i: nat)
    requires Run(g, states, calls) && i < |states|
    ensures SameTail(g, states[0].v.fat, states[i].v.fat) && Shaped(g, states[0].v) && Shaped(g, states[i].v)
    ensures TailUsed(g, states[i].v) <==> TailUsed(g, states[0].v)
  {
    hide Does, SameTail, TailUsed, TreeOk, TreeOf;
    RunConsistent(g, states, calls, 0);
    RunConsistent(g, states, calls, i);
    if i == 0 {
      TailStays(g, states[0].v.fat);
    } else {
      RunTail(g, states, calls, i - 1);
      RunConsistent(g, states, calls, i - 1);
      CallTail(g, states[i - 1], calls[i - 1], states[i]);
      TailTrans(g, states[0].v.fat, states[i - 1].v.fat, states[i].v.fat);
    }
    TailUsedKept(g, states[0].v, states[i].v);
  }

  /** One of the first `i` calls of the run loses clusters. */
  ghost predicate LosesBefore(g: Geometry, states: seq<State>, calls: seq<Call>, i: nat)
    requires Run(g, states, calls) && i <= |calls|
  {
    exists k :: 0 <= k < i && Fine(g, states[k]) && Loses(g, states[k], calls[k])
  }

  /** Over every run, no cluster is lost exactly when none was at the start and no call lost one. */
  lemma {:induction false} RunCovering(g: Geometry, states: seq<State>, calls: seq<Call>, i: nat)
    requires Run(g, states, calls) && i < |states|
    ensures NoneLost(g, states[i]) <==> NoneLost(g, states[0]) && !LosesBefore(g, states, calls, i)
  {
    hide Fine, Does, Loses, NoneLost;
    if i > 0 {
      RunCovering(g, states, calls, i - 1);
      RunConsistent(g, states, calls, i - 1);
      CallCovering(g, states[i - 1], calls[i - 1], states[i]);
      assert LosesBefore(g, states, calls, i) <==>
        LosesBefore(g, states, calls, i - 1) || Loses(g, states[i - 1], calls[i - 1]);
    }
  }

  /** Over every run, every directory is found by a path as long as no call hides one. */
  lemma {:induction false} RunFound(g: Geometry, states: seq<State>, calls: seq<Call>, i: nat)
    requires Run(g, states, calls) && i < |states| && AllFound(g, states[0])
    ensures Fine(g, states[i])
    ensures (forall k :: 0 <= k < i && Fine(g, states[k]) ==> !Hides(g, states[k], calls[k])) ==> AllFound(g, states[i])
  {
    hide Fine, Does, Hides, AllFound;
    if i > 0 {
      RunFound(g, states, calls, i - 1);
      RunConsistent(g, states, calls, i - 1);
      CallKeeps(g, states[i - 1], calls[i - 1], states[i]);
      if AllFound(g, states[i - 1]) {
        CallFound(g, states[i - 1], calls[i - 1], states[i]);
      }
    }
  }

  /** Chains start at their heads, pass no cluster twice and end in an end mark; no cluster is on two of
    * them. */
  ghost predicate ChainsHealthy(g: Geometry, fat: seq<nat>, chains: map<nat, seq<nat>>)
    requires g.dataEnd <= |fat|
  {
    && (forall h :: h in chains ==> ChainOk(g, fat, chains[h]) && chains[h][0] == h && Distinct(chains[h]))
    && (forall h, k, c :: On(chains, h, c) && On(chains, k, c) ==> h == k)
  }

  /** The slot of a file in place `i` of directory `d`: no chain for an empty file, and else a chain
    * that no other slot names, just long enough for the size. */
  ghost predicate FileHealthy(g: Geometry, cat: Catalog, s: Slot, d: nat, i: nat)
    requires g.spc > 0
  {
    if SizeOf(s) == 0 then FirstOf(s) == 0
    else
      && FirstOf(s) in cat.chains && FirstOf(s) in cat.refs && cat.refs[FirstOf(s)] == (d, i)
      && |cat.chains[FirstOf(s)]| == ClustersFor(g, SizeOf(s))
  }

  /** Every chain but the root's is named by a slot, and the slots of files are healthy. */
  ghost predicate NamesHealthy(g: Geometry, cat: Catalog, t: Tree)
    requires g.spc > 0
  {
    && (forall h {:trigger h in cat.refs} :: h in cat.chains && h != g.root ==> h in cat.refs && RefOk(cat, t, h))
    && (forall d, i {:trigger FileHealthy(g, cat, t[d][i], d, i)} ::
      d in t && 0 <= i < |t[d]| && IsEntry(t[d][i]) && !IsDir(t[d][i]) ==>
         FileHealthy(g, cat, t[d][i], d, i))
  }

  /** What consistency comes to, chain by chain and entry by entry. */
  ghost predicate Healthy(g: Geometry, v: Vol, cat: Catalog)
  {
    && Shaped(g, v) && Housed(g, v.data, cat)
    && ChainsHealthy(g, v.fat, cat.chains) && NamesHealthy(g, cat, TreeOf(g, v.data, cat))
    && Hung(g.root, cat)
  }

  lemma ChainsAreHealthy(g: Geometry, fat: seq<nat>, chains: map<nat, seq<nat>>)
    requires ChainsOk(g, fat, chains)
    ensures ChainsHealthy(g, fat, chains)
  {
    forall h | h in chains
      ensures ChainOk(g, fat, chains[h]) && chains[h][0] == h && Distinct(chains[h])
    {
      assert HeadOk(g, fat, chains, h);
      ChainAcyclic(g, fat, chains[h]);
    }
  }

  lemma SizedPositive(n: nat, size: nat, cb: nat)
    requires Sized(n, size, cb)
    ensures size > 0
  {
    MulMono(0, n - 1, cb);
  }

  lemma FileLength(g: Geometry, cat: Catalog, s: Slot, d: nat, i: nat)
    requires g.spc > 0 && EntryOk(cat, s, d, i, g.ClusterBytes()) && !IsDir(s)
    ensures FileHealthy(g, cat, s, d, i)
  {
    var h := FirstOf(s);
    if h != 0 {
      SizedPositive(|cat.chains[h]|, SizeOf(s), g.ClusterBytes());
      SizedUnique(|cat.chains[h]|, ClustersFor(g, SizeOf(s)), SizeOf(s), g.ClusterBytes());
    }
  }

  lemma NamesAreHealthy(g: Geometry, cat: Catalog, t: Tree)
    requires g.spc > 0 && TreeOk(g.root, cat, t, g.ClusterBytes())
    ensures NamesHealthy(g, cat, t)
  {
    forall h | h in cat.chains && h != g.root
      ensures h in cat.refs && RefOk(cat, t, h)
    {
      assert h in cat.chains.Keys;
    }
    forall d, i | d in t && 0 <= i < |t[d]| && IsEntry(t[d][i]) && !IsDir(t[d][i])
      ensures FileHealthy(g, cat, t[d][i], d, i)
    {
      FileLength(g, cat, t[d][i], d, i);
    }
  }

  lemma ConsistentHealthy(g: Geometry, v: Vol, cat: Catalog)
    requires Consistent(g, v, cat)
    ensures Healthy(g, v, cat)
  {
    ChainsAreHealthy(g, v.fat, cat.chains);
    NamesAreHealthy(g, cat, TreeOf(g, v.data, cat));
  }

  /** Free clusters and chain lengths add up to the data area. */
  ghost predicate Conserved(g: Geometry, s: State)
    requires Fine(g, s)
  {
    FreeClusters(g, s.v) + ChainSum(s.cat.chains) == g.dataEnd - 2
  }

  /** Over every run, every state is healthy; and clusters are conserved exactly as long as no call has
    * lost one, if none was lost to begin with. */
  lemma RunHealthy(g: Geometry, states: seq<State>, calls: seq<Call>, i: nat)
    requires Run(g, states, calls) && i < |states|
    ensures Fine(g, states[i]) && Healthy(g, states[i].v, states[i].cat)
    ensures Conserved(g, states[i]) <==> Conserved(g, states[0]) && !LosesBefore(g, states, calls, i)
  {
    hide TreeOk, TreeOf, Run, LosesBefore, Healthy;
    RunConsistent(g, states, calls, i);
    ConsistentHealthy(g, states[i].v, states[i].cat);
    RunConsistent(g, states, calls, 0);
    RunCovering(g, states, calls, i);
    Conservation(g, states[0].v.fat, states[0].cat.chains);
    Conservation(g, states[i].v.fat, states[i].cat.chains);
  }

  /** From call `from` on, no call of the run is about `names` or a part of it: where a call changes name
    * `n` in the directory that `ways[i]` leads to, `names` does not go through that place. */
  ghost predicate Spared(g: Geometry, states: seq<State>, calls: seq<Call>, ways: seq<seq<Name>>, names: seq<Name>,
      from: nat)
    requires Run(g, states, calls)
  {
    && |ways| == |calls|
    && forall i :: from <= i < |calls| && !calls[i].NoEffect? ==>
         && Rooted(g, states[i].v, states[i].cat) && Leads(g, states[i].v, states[i].cat, ways[i], calls[i].d)
         && !(ways[i] + [calls[i].n] <= names)
  }

  lemma SparedAt(g: Geometry, states: seq<State>, calls: seq<Call>, ways: seq<seq<Name>>, names: seq<Name>, from: nat,
      i: nat)
    requires Run(g, states, calls) && Spared(g, states, calls, ways, names, from) && from <= i < |calls|
    ensures |states| == |calls| + 1 && |ways| == |calls|
    ensures Fine(g, states[i]) && !calls[i].NoEffect? ==>
      Leads(g, states[i].v, states[i].cat, ways[i], calls[i].d) && !(ways[i] + [calls[i].n] <= names)
  {
    hide Happens, Leads;
  }

  /** Over every run, a path that no call is about keeps its meaning. */
  lemma {:induction false} RunFrame(g: Geometry, states: seq<State>, calls: seq<Call>, ways: seq<seq<Name>>,
      names: seq<Name>, from: nat, i: nat)
    requires Run(g, states, calls) && Spared(g, states, calls, ways, names, from) && from <= i < |states|
    requires names != [] && NoDots(names)
    ensures Fine(g, states[i]) && Fine(g, states[from])
    ensures MeaningOf(g, states[i].v, states[i].cat, names) == MeaningOf(g, states[from].v, states[from].cat, names)
    decreases i
  {
    hide Does, MeaningOf, Happens, TreeOf, DirAt, Leads, Spared, Consistent;
    RunConsistent(g, states, calls, i);
    if i > from {
      SparedAt(g, states, calls, ways, names, from, i - 1);
      RunFrame(g, states, calls, ways, names, from, i - 1);
      RunConsistent(g, states, calls, i - 1);
      OtherPathsKept(g, states[i - 1], calls[i - 1], states[i], ways[i - 1], names);
    }
  }

  lemma WriteNamed(g: Geometry, s: State, d: nat, at: nat, n: Name, data: seq<byte>, t: State)
    requires Fine(g, s) && Writes(g, s, d, at, n, data, t)
    ensures Nameable(n)
  {
  }

  lemma LeadsNoDots(g: Geometry, v: Vol, c: Catalog, way: seq<Name>, d: nat, n: Name)
    requires Rooted(g, v, c) && Leads(g, v, c, way, d) && !IsDotName(n)
    ensures NoDots(way + [n])
  {
  }

  /** The write has no data, or no long-name slot before the place of its entry reads as its name. */
  ghost predicate NotAliased(g: Geometry, s: State, call: Call)
    requires Fine(g, s) && call.Write?
  {
    || call.data == []
    || (call.d in s.cat.dirs && var slots := TreeIn(g, s)[call.d]; AliasFree(slots, call.n, EntryPlace(slots, call.n)))
  }

  /** Over every run, what a write that no alias takes put under a path is what the path holds, as long as
    * no later call is about it. */
  lemma RunKeepsWritten(g: Geometry, states: seq<State>, calls: seq<Call>, ways: seq<seq<Name>>, way: seq<Name>, k: nat,
      i: nat)
    requires Run(g, states, calls) && k < i < |states| && calls[k].Write?
    requires Rooted(g, states[k].v, states[k].cat) && Leads(g, states[k].v, states[k].cat, way, calls[k].d)
    requires Spared(g, states, calls, ways, way + [calls[k].n], k + 1)
    requires Fine(g, states[k]) ==> NotAliased(g, states[k], calls[k])
    ensures Fine(g, states[i])
    ensures MeaningOf(g, states[i].v, states[i].cat, way + [calls[k].n]) == File(calls[k].data)
  {
    hide MeaningOf, Happens, TreeOf, DirAt, FileWritten, Writes, Leads, Consistent, Spared;
    var call := calls[k];
    RunConsistent(g, states, calls, k);
    WriteNamed(g, states[k], call.d, call.at, call.n, call.data, states[k + 1]);
    WriteKeeps(g, states[k], call.d, call.at, call.n, call.data, states[k + 1]);
    WrittenMeaning(g, states[k].v, states[k].cat, states[k + 1].v, states[k + 1].cat, way, call.d, call.at, call.n,
      call.data);
    LeadsNoDots(g, states[k].v, states[k].cat, way, call.d, call.n);
    RunFrame(g, states, calls, ways, way + [call.n], k + 1, i);
  }

  // ── two runs ──

  /** The slots of the root after two files of one name were made on a freshly formatted volume. */
  lemma MadeTwice(slots: seq<Slot>, n: Name)
    requires |slots| > 1 && (forall i :: 0 <= i < |slots| ==> IsEnd(slots[i])) && Nameable(n)
    ensures var s := NewSlot(n, ATTR_ARCHIVE, 0); var one: seq<Slot> := slots[0 := s];
      var two: seq<Slot> := one[1 := s];
      && FirstFree(slots, 0) && FirstFree(one, 1) && Find(two, n) == 0
      && var left: seq<Slot> := two[0 := s[0 := DELETED]]; Find(left, n) == 1 && left[1] == s
  {
    NewMatches(n);
    var s := NewSlot(n, ATTR_ARCHIVE, 0);
    var two: seq<Slot> := slots[0 := s][1 := s];
    FindUnique(two, n, 0);
    var left: seq<Slot> := two[0 := s[0 := DELETED]];
    FindUnique(left, n, 1);
  }

  lemma FormattedRoot(g: Geometry, v: Vol)
    requires IsFormatted(g, v)
    ensures var s := State(v, Formatted(g));
      && Fine(g, s) && g.root in s.cat.dirs && 0 !in s.cat.dirs && g.root < TWO32 && FreeClusters(g, v) == g.dataEnd - 3
      && |TreeIn(g, s)[g.root]| > 1 && forall i :: 0 <= i < |TreeIn(g, s)[g.root]| ==> IsEnd(TreeIn(g, s)[g.root][i])
  {
    FormattedConsistent(g, v);
    OneClusterSlots(v.data, g.root, g.spc);
    ZeroSlots(v.data[g.root]);
  }

  lemma RootCreated(g: Geometry, s: State, at: nat, n: Name) returns (t: State)
    requires Fine(g, s) && CanCreate(g, s, g.root, at, n)
    ensures Does(g, s, Create(g.root, at, n), t) && Fine(g, t) && t.cat == s.cat
    ensures FreeClusters(g, t.v) == FreeClusters(g, s.v)
    ensures TreeIn(g, t)[g.root] == TreeIn(g, s)[g.root][at := NewSlot(n, ATTR_ARCHIVE, 0)]
  {
    hide Consistent, TreeOf, NewSlot, FirstFree, Changed, FreeClusters;
    t := AfterCreate(g, s, g.root, at, n);
    CreateKeeps(g, s, g.root, at, n);
    RewrittenCount(g, s.v, s.cat, t.v, g.root, at, n);
  }

  lemma CanDeleteFirst(g: Geometry, s: State, n: Name)
    requires Fine(g, s) && g.root in s.cat.dirs && |TreeIn(g, s)[g.root]| > 0 && Find(TreeIn(g, s)[g.root], n) == 0
    requires !IsDotName(n)
    ensures CanDelete(g, s, g.root, 0, n)
  {
  }

  lemma DeletedSlots(g: Geometry, s: State, t: State, at: nat, n: Name)
    requires Fine(g, s) && Fine(g, t) && EntryDeleted(g, s.v, s.cat, t.v, t.cat, g.root, at, n)
    ensures g.root in t.cat.dirs && at < |TreeIn(g, s)[g.root]|
    ensures TreeIn(g, t)[g.root] == TreeIn(g, s)[g.root][at := TreeIn(g, s)[g.root][at][0 := DELETED]]
  {
  }

  lemma FoundEmpty(g: Geometry, s: State, at: nat, n: Name)
    requires Fine(g, s) && g.root in s.cat.dirs && at < |TreeIn(g, s)[g.root]| && Find(TreeIn(g, s)[g.root], n) == at
    requires TreeIn(g, s)[g.root][at] == NewSlot(n, ATTR_ARCHIVE, 0)
    ensures MeaningOf(g, s.v, s.cat, [n]) == File([])
  {
    assert [n][..0] == [] && DirAt(TreeIn(g, s), g.root, []) == At(g.root);
    EmptySlot(g, s.v, s.cat, n);
  }

  /** A name made twice and deleted once is still there. */
  lemma DuplicateStays(g: Geometry, v: Vol, n: Name) returns (states: seq<State>)
    requires IsFormatted(g, v) && Nameable(n)
    ensures |states| == 4 && states[0] == State(v, Formatted(g))
    ensures Run(g, states, [Create(g.root, 0, n), Create(g.root, 1, n), Delete(g.root, 0, n)])
    ensures Fine(g, states[3]) && MeaningOf(g, states[3].v, states[3].cat, [n]) == File([])
  {
    hide Consistent, TreeOf, NewSlot, AfterDelete, AfterCreate, MeaningOf;
    var s0 := State(v, Formatted(g));
    FormattedRoot(g, v);
    MadeTwice(TreeIn(g, s0)[g.root], n);
    var s1 := RootCreated(g, s0, 0, n);
    var s2 := RootCreated(g, s1, 1, n);
    CanDeleteFirst(g, s2, n);
    DeleteKeeps(g, s2, g.root, 0, n);
    var s3 := AfterDelete(g, s2, g.root, 0, n);
    DeletedSlots(g, s2, s3, 0, n);
    states := [s0, s1, s2, s3];
    FoundEmpty(g, s3, 1, n);
  }

  lemma FreshRow(spc: nat, c: nat, d: nat) returns (row: seq<Sector>)
    requires spc > 0 && c < TWO32 && d < TWO32
    ensures |row| == spc && FreshDir(row, c, d)
  {
    hide DotSector;
    row := [DotSector(c, d)] + seq(spc - 1, i => ZeroSector());
  }

  /** A free cluster taken and filled as an empty directory. */
  lemma Taken(g: Geometry, s: State, d: nat) returns (c: nat, b: Vol)
    requires Fine(g, s) && d in s.cat.dirs && d < TWO32 && FreeClusters(g, s.v) > 0
    ensures TakesCluster(g, s, d, c, b)
  {
    hide TreeOf, TreeOk, ChainsOk, Housed, FreshDir, Building;
    var v := s.v;
    var free := CountWitness(v.fat, 2, g.dataEnd);
    c := LowestBelow(v.fat, 2, free);
    var row := FreshRow(g.spc, c, d);
    b := Vol(v.fat[c := END_OF_CHAIN], v.data[c := row]);
    OnePick(g, v, b, c);
  }

  lemma CreateThere(g: Geometry, s: State, at: nat, n: Name)
    requires Fine(g, s) && g.root in s.cat.dirs && FirstFree(TreeIn(g, s)[g.root], at) && Nameable(n)
    ensures CanCreate(g, s, g.root, at, n)
  {
  }

  lemma NothingHidden(g: Geometry, s: State, n: Name)
    requires Fine(g, s) && g.root in s.cat.dirs
    requires forall i :: 0 <= i < |TreeIn(g, s)[g.root]| ==> IsEnd(TreeIn(g, s)[g.root][i])
    ensures !Hides(g, s, Create(g.root, 0, n))
  {
  }

  lemma FirstMade(g: Geometry, v: Vol, n: Name) returns (s: State)
    requires IsFormatted(g, v) && Nameable(n)
    ensures Fine(g, State(v, Formatted(g))) && Does(g, State(v, Formatted(g)), Create(g.root, 0, n), s)
    ensures Fine(g, s) && s.cat == Formatted(g) && AllFound(g, s) && g.root < TWO32
    ensures FirstFree(TreeIn(g, s)[g.root], 1) && Find(TreeIn(g, s)[g.root], n) == 0
    ensures FreeClusters(g, s.v) == g.dataEnd - 3
  {
    hide Consistent, TreeOf, NewSlot, Does, Hides, AllFound, FreeClusters;
    var s0 := State(v, Formatted(g));
    FormattedWhole(g, v);
    FormattedRoot(g, v);
    MadeTwice(TreeIn(g, s0)[g.root], n);
    CreateThere(g, s0, 0, n);
    s := RootCreated(g, s0, 0, n);
    NothingHidden(g, s0, n);
    CallFound(g, s0, Create(g.root, 0, n), s);
    FindUnique(TreeIn(g, s)[g.root], n, 0);
  }

  lemma RootFound(g: Geometry, s: State)
    requires Fine(g, s)
    ensures Found(TreeIn(g, s), g.root, g.root)
  {
    assert DirAt(TreeIn(g, s), g.root, []) == At(g.root);
  }

  lemma PlaceIn(g: Geometry, s: State, d: nat, at: nat, n: Name, c: nat, b: Vol) returns (t: State)
    requires Fine(g, s) && TakesCluster(g, s, d, c, b) && FirstFree(TreeIn(g, s)[d], at) && Nameable(n)
    ensures Does(g, s, MakeDir(d, at, n, c), t) && t.cat == WithDir(s.cat, c, d, at)
  {
    BuiltKeeps(g, s.v, s.cat, b, [c], []);
    t := State(b.(data := WriteSlot(g, b.data, s.cat.chains[d], at, NewSlot(n, ATTR_DIRECTORY, c))),
      WithDir(s.cat, c, d, at));
    assert Places(g, s, d, at, n, c, b, t);
  }

  lemma DirBehind(g: Geometry, s: State, n: Name) returns (c: nat, t: State)
    requires Fine(g, s) && s.cat == Formatted(g) && AllFound(g, s) && g.root < TWO32 && Nameable(n)
    requires FirstFree(TreeIn(g, s)[g.root], 1) && Find(TreeIn(g, s)[g.root], n) == 0 && FreeClusters(g, s.v) > 0
    ensures Does(g, s, MakeDir(g.root, 1, n, c), t)
    ensures Fine(g, t) && c in t.cat.dirs && !Found(TreeIn(g, t), g.root, c)
  {
    hide Consistent, TreeOf, Does, Found, Find, FirstFree, TakesCluster, FreeClusters;
    var b;
    c, b := Taken(g, s, g.root);
    t := PlaceIn(g, s, g.root, 1, n, c, b);
    CallFound(g, s, MakeDir(g.root, 1, n, c), t);
    RootFound(g, t);
    assert t.cat.dirs == {g.root, c};
  }

  /** A directory made under the name of a file is on the volume, and no path leads to it. */
  lemma DirBehindFile(g: Geometry, v: Vol, n: Name) returns (states: seq<State>, c: nat)
    requires IsFormatted(g, v) && Nameable(n) && g.dataEnd > 3
    ensures |states| == 3 && states[0] == State(v, Formatted(g))
    ensures Run(g, states, [Create(g.root, 0, n), MakeDir(g.root, 1, n, c)])
    ensures Fine(g, states[2]) && c in states[2].cat.dirs && !Found(TreeIn(g, states[2]), g.root, c)
  {
    hide Consistent, TreeOf, Does, Hides, AllFound, Found, Find;
    var s0 := State(v, Formatted(g));
    var s1, s2;
    s1 := FirstMade(g, v, n);
    c, s2 := DirBehind(g, s1, n);
    states := [s0, s1, s2];
  }

  /** An empty directory made in the first free slot of `d`, told slot by slot. */
  lemma DirMade(g: Geometry, s: State, d: nat, at: nat, n: Name) returns (c: nat, t: State)
    requires Fine(g, s) && d in s.cat.dirs && d < TWO32 && FirstFree(TreeIn(g, s)[d], at) && Nameable(n)
    requires FreeClusters(g, s.v) > 0
    ensures Does(g, s, MakeDir(d, at, n, c), t) && Fine(g, t) && t.cat.dirs == s.cat.dirs + {c} && c !in s.cat.dirs
    ensures 0 < c < TWO32
    ensures TreeIn(g, t)[d] == TreeIn(g, s)[d][at := NewSlot(n, ATTR_DIRECTORY, c)] && HasEnd(TreeIn(g, t)[c])
    ensures forall e :: e in s.cat.dirs && e != d ==> TreeIn(g, t)[e] == TreeIn(g, s)[e]
    ensures FreeClusters(g, s.v) == FreeClusters(g, t.v) + 1
  {
    hide Consistent, TreeOf, NewSlot, FirstFree, Building, FreshDir, FreeClusters, WriteSlot, Untouched, SameBut,
      HasEnd, Vacant;
    var b;
    c, b := Taken(g, s, d);
    PickNew(g, s, b, [c], []);
    assert [c][0] == c;
    t := PlaceIn(g, s, d, at, n, c, b);
    MakeDirKeeps(g, s, d, at, n, c, t);
  }

  lemma {:induction false} FirstFreeBelow(slots: seq<Slot>, i: nat) returns (at: nat)
    requires i < |slots| && IsFree(slots[i])
    ensures FirstFree(slots, at)
  {
    if j: nat :| j < i && IsFree(slots[j]) {
      at := FirstFreeBelow(slots, j);
    } else {
      at := i;
    }
  }

  lemma RootFree(g: Geometry, s: State, n: Name)
    requires Fine(g, s) && g.root in s.cat.dirs && |TreeIn(g, s)[g.root]| > 1
    requires forall i :: 0 <= i < |TreeIn(g, s)[g.root]| ==> IsEnd(TreeIn(g, s)[g.root][i])
    ensures FirstFree(TreeIn(g, s)[g.root], 0) && Find(TreeIn(g, s)[g.root], n) == |TreeIn(g, s)[g.root]|
  {
  }

  lemma DeleteDone(g: Geometry, s: State, n: Name)
    requires Fine(g, s) && CanDelete(g, s, g.root, 0, n)
    ensures Does(g, s, Delete(g.root, 0, n), AfterDelete(g, s, g.root, 0, n))
  {
  }

  lemma InnerCutOff(g: Geometry, s0: State, s1: State, s2: State, n: Name, c: nat, at: nat, k: nat)
    requires Fine(g, s0) && Fine(g, s1) && Fine(g, s2) && Nameable(n) && c < TWO32 && 0 < k < TWO32
    requires g.root in s0.cat.dirs && c in s1.cat.dirs && c != g.root && g.root in s1.cat.dirs
    requires s1.cat.dirs <= s2.cat.dirs && k in s2.cat.dirs
    requires FirstFree(TreeIn(g, s0)[g.root], 0) && FirstFree(TreeIn(g, s1)[c], at)
    requires TreeIn(g, s1)[g.root] == TreeIn(g, s0)[g.root][0 := NewSlot(n, ATTR_DIRECTORY, c)]
    requires TreeIn(g, s2)[g.root] == TreeIn(g, s1)[g.root]
    requires TreeIn(g, s2)[c] == TreeIn(g, s1)[c][at := NewSlot(n, ATTR_DIRECTORY, k)]
    ensures CanDelete(g, s2, g.root, 0, n) && CutsOff(g, s2, g.root, n)
  {
    hide Consistent, TreeOf, NewSlot;
    DirSlot(n, c);
    DirSlot(n, k);
    FindUnique(TreeIn(g, s2)[g.root], n, 0);
    assert IsEntry(TreeIn(g, s2)[c][at]);
  }

  /** A directory with a directory in it, deleted: the cluster of the inner one is lost. */
  lemma TreeDeleted(g: Geometry, v: Vol, n: Name) returns (states: seq<State>, calls: seq<Call>)
    requires IsFormatted(g, v) && Nameable(n) && g.dataEnd > 4
    ensures |states| == 4 && states[0] == State(v, Formatted(g)) && Run(g, states, calls)
    ensures calls[0].MakeDir? && calls[1].MakeDir? && calls[1].d == calls[0].c && calls[2] == Delete(g.root, 0, n)
    ensures Fine(g, states[0]) && NoneLost(g, states[0]) && !NoneLost(g, states[3])
  {
    hide Consistent, TreeOf, NewSlot, Does, FreeClusters, AllFound, Find, NoneLost, AfterDelete, CanDelete, FirstFree;
    var s0 := State(v, Formatted(g));
    FormattedWhole(g, v);
    FormattedRoot(g, v);
    var c, k, s1, s2;
    RootFree(g, s0, n);
    c, s1 := DirMade(g, s0, g.root, 0, n);
    var i :| 0 <= i < |TreeIn(g, s1)[c]| && IsEnd(TreeIn(g, s1)[c][i]);
    var at := FirstFreeBelow(TreeIn(g, s1)[c], i);
    k, s2 := DirMade(g, s1, c, at, n);
    InnerCutOff(g, s0, s1, s2, n, c, at, k);
    var s3 := AfterDelete(g, s2, g.root, 0, n);
    assert Does(g, s2, Delete(g.root, 0, n), s3) by {
      DeleteDone(g, s2, n);
    }
    CallCovering(g, s2, Delete(g.root, 0, n), s3);
    states, calls := [s0, s1, s2, s3], [MakeDir(g.root, 0, n, c), MakeDir(c, at, n, k), Delete(g.root, 0, n)];
  }
}
