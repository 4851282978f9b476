/**
  * The four changes a volume goes through, each with the new catalog: an empty file is named, a
  * chain is given to a file, a directory is added, an entry is removed. Each keeps the volume
  * consistent, and every path that does not look up the changed name keeps its meaning.
  */
module FatSteps {
  import opened Bytes
  import opened FatLayout
  import opened FatDirectory
  import opened FatChains
  import opened FatTree
  import opened FatVolume

  /** Chain `h` is kept, links and bytes. */
  ghost predicate KeptChain(g: Geometry, data: seq<seq<Sector>>, cat: Catalog, after: seq<seq<Sector>>, next: Catalog,
      h: nat)
    requires Housed(g, data, cat) && Housed(g, after, next) && h in cat.chains
  {
    && h in next.chains && next.chains[h] == cat.chains[h]
    && Sectors(after, cat.chains[h], g.spc) == Sectors(data, cat.chains[h], g.spc)
  }

  /** Chains of files outside `gone` are kept. */
  ghost predicate Kept(g: Geometry, data: seq<seq<Sector>>, cat: Catalog, after: seq<seq<Sector>>, next: Catalog,
      gone: set<nat>)
    requires Housed(g, data, cat) && Housed(g, after, next)
  {
    forall h {:trigger KeptChain(g, data, cat, after, next, h)} ::
      h in cat.chains && h !in cat.dirs && h !in gone ==> KeptChain(g, data, cat, after, next, h)
  }

  /** Every path that does not look up `n` in directory `d` keeps its meaning, whatever directory it
    * starts from. */
  ghost predicate Untouched(g: Geometry, v: Vol, cat: Catalog, w: Vol, next: Catalog, d: nat, n: Name)
    requires Rooted(g, v, cat) && Rooted(g, w, next)
  {
    forall from, names {:trigger MeaningFrom(g, w, next, from, names)} ::
      from in cat.dirs && from in next.dirs && names != [] && NoDots(names)
        && Avoids(TreeOf(g, v.data, cat), from, names, d, n) ==>
        MeaningFrom(g, w, next, from, names) == MeaningFrom(g, v, cat, from, names)
  }

  /** What is gone was named by slot `i` of `d`, or in a directory that is gone. */
  ghost predicate GoneBy(cat: Catalog, next: Catalog, d: nat, i: nat, gone: set<nat>)
  {
    forall x :: x in gone ==> x in cat.refs && (cat.refs[x] == (d, i) || cat.refs[x].0 !in next.dirs)
  }

  lemma SlotFrame(g: Geometry, v: Vol, cat: Catalog, w: Vol, next: Catalog, s: Slot, e: nat, j: nat, d: nat, i: nat,
      gone: set<nat>)
    requires Housed(g, v.data, cat) && Housed(g, w.data, next) && 0 !in cat.chains && 0 !in next.chains
    requires Kept(g, v.data, cat, w.data, next, gone) && EntryOk(cat, s, e, j, g.ClusterBytes())
    requires GoneBy(cat, next, d, i, gone) && e in next.dirs && (gone != {} ==> (e, j) != (d, i))
    ensures SlotMeaning(g, w.data, next.chains, s) == SlotMeaning(g, v.data, cat.chains, s)
  {
    var h := FirstOf(s);
    if h != 0 && !IsDir(s) {
      assert KeptChain(g, v.data, cat, w.data, next, h);
    }
  }

  lemma MeaningFrame(g: Geometry, v: Vol, cat: Catalog, w: Vol, next: Catalog, d: nat, i: nat, n: Name, gone: set<nat>)
    requires Rooted(g, v, cat) && Rooted(g, w, next) && 0 !in cat.chains && 0 !in next.chains
    requires TreeOk(g.root, cat, TreeOf(g, v.data, cat), g.ClusterBytes())
    requires SameBut(TreeOf(g, v.data, cat), TreeOf(g, w.data, next), d, n)
    requires Kept(g, v.data, cat, w.data, next, gone)
    requires d in cat.dirs && i < |TreeOf(g, v.data, cat)[d]|
    requires GoneBy(cat, next, d, i, gone) && (gone != {} ==> NameOf(TreeOf(g, v.data, cat)[d][i]) == n)
    ensures Untouched(g, v, cat, w, next, d, n)
  {
    var t, u := TreeOf(g, v.data, cat), TreeOf(g, w.data, next);
    forall from, names | from in t && from in u && names != [] && NoDots(names) && Avoids(t, from, names, d, n)
      ensures MeaningFrom(g, w, next, from, names) == MeaningFrom(g, v, cat, from, names)
    {
      LookupFrame(t, u, from, names, d, n);
      var r := Lookup(t, from, names);
      if r.Hit? {
        HitEntry(g.root, cat, t, g.ClusterBytes(), from, names, d, i, n);
        SlotFrame(g, v, cat, w, next, t[r.dir][r.idx], r.dir, r.idx, d, i, gone);
      }
    }
  }

  /** The path still avoids the name after the change. */
  lemma AvoidsFrame(t: Tree, u: Tree, root: nat, names: seq<Name>, d: nat, n: Name)
    requires SameBut(t, u, d, n) && root in t && root in u
    requires NoDots(names) && Avoids(t, root, names, d, n)
    ensures Avoids(u, root, names, d, n)
  {
    forall k | 0 <= k < |names| && names[k] == n
      ensures DirAt(u, root, names[..k]) != At(d)
    {
      assert forall j :: 0 <= j < k ==> names[..k][..j] == names[..j];
      DirFrame(t, u, root, names[..k], d, n);
    }
  }

  // ── naming an empty file, and unnaming one ──

  ghost function Rewritten(g: Geometry, v: Vol, cat: Catalog, d: nat, i: nat, s: Slot): Vol
    requires Housed(g, v.data, cat) && d in cat.dirs && i < |TreeOf(g, v.data, cat)[d]|
  {
    v.(data := WriteSlot(g, v.data, cat.chains[d], i, s))
  }

  lemma RewrittenShape(g: Geometry, v: Vol, cat: Catalog, d: nat, i: nat, s: Slot)
    requires Shaped(g, v) && Housed(g, v.data, cat) && d in cat.dirs && i < |TreeOf(g, v.data, cat)[d]|
    ensures Shaped(g, Rewritten(g, v, cat, d, i, s))
  {
    WriteSlotFrame(g, v.data, cat.chains[d], i, s);
  }

  lemma WriteSlotKept(g: Geometry, fat: seq<nat>, data: seq<seq<Sector>>, cat: Catalog, d: nat, i: nat, s: Slot)
    requires ChainsOk(g, fat, cat.chains) && Housed(g, data, cat) && d in cat.dirs && i < |TreeOf(g, data, cat)[d]|
    requires Housed(g, WriteSlot(g, data, cat.chains[d], i, s), cat)
    ensures Kept(g, data, cat, WriteSlot(g, data, cat.chains[d], i, s), cat, {})
  {
    forall h | h in cat.chains && h !in cat.dirs
      ensures KeptChain(g, data, cat, WriteSlot(g, data, cat.chains[d], i, s), cat, h)
    {
      WriteSlotBytes(g, fat, data, cat, d, i, s, h);
    }
  }

  /** What writing a slot does to everything but the catalog. */
  lemma RewrittenParts(g: Geometry, v: Vol, cat: Catalog, d: nat, i: nat, s: Slot)
    requires Founded(g, v, cat) && d in cat.dirs && i < |TreeOf(g, v.data, cat)[d]|
    ensures var w := Rewritten(g, v, cat, d, i, s);
      && Shaped(g, w) && Housed(g, w.data, cat)
      && TreeOf(g, w.data, cat) == SetSlot(TreeOf(g, v.data, cat), d, i, s)
      && Kept(g, v.data, cat, w.data, cat, {})
  {
    WriteSlotTree(g, v.fat, v.data, cat, d, i, s);
    RewrittenShape(g, v, cat, d, i, s);
    WriteSlotKept(g, v.fat, v.data, cat, d, i, s);
  }

  lemma StepPlain(g: Geometry, v: Vol, cat: Catalog, d: nat, i: nat, s: Slot, n: Name)
    requires Consistent(g, v, cat) && d in cat.dirs && i < |TreeOf(g, v.data, cat)[d]|
    requires forall j :: 0 <= j < i ==> !IsEnd(TreeOf(g, v.data, cat)[d][j])
    requires var x := TreeOf(g, v.data, cat)[d][i];
      (IsLive(x) ==> NameOf(x) == n) && (IsEntry(x) ==> FirstOf(x) == 0)
    requires !IsEnd(s) && (IsLive(s) ==> NameOf(s) == n)
    requires IsEntry(s) ==> FirstOf(s) == 0 && SizeOf(s) == 0 && !IsDir(s)
    ensures var w := Rewritten(g, v, cat, d, i, s);
      && Consistent(g, w, cat) && Untouched(g, v, cat, w, cat, d, n)
      && TreeOf(g, w.data, cat) == SetSlot(TreeOf(g, v.data, cat), d, i, s)
      && SameBut(TreeOf(g, v.data, cat), TreeOf(g, w.data, cat), d, n)
  {
    var w := Rewritten(g, v, cat, d, i, s);
    var t := TreeOf(g, v.data, cat);
    RewrittenParts(g, v, cat, d, i, s);
    PutPlain(g.root, cat, t, d, i, s, g.ClusterBytes());
    SetSlotSame(g.root, cat, t, g.ClusterBytes(), d, i, s, n);
    MeaningFrame(g, v, cat, w, cat, d, i, n, {});
  }

  // ── removing an entry ──

  /** The catalog without `h` and what lies below it. */
  ghost function Without(cat: Catalog, h: nat): Catalog
  {
    Catalog(cat.chains - Gone(cat, h), cat.dirs - Gone(cat, h), cat.refs - Gone(cat, h))
  }

  lemma ErasedChains(g: Geometry, fat: seq<nat>, chains: map<nat, seq<nat>>, h: nat)
    requires ChainsOk(g, fat, chains) && h in chains && LinksInRange(fat)
    ensures g.InData(h) && h < |fat|
    ensures FreeFrom(fat, h) == Erased(fat, chains[h])
    ensures ChainsOk(g, Erased(fat, chains[h]), chains - {h}) && LinksInRange(Erased(fat, chains[h]))
  {
    assert HeadOk(g, fat, chains, h);
    FreeWholeChain(g, fat, chains[h]);
    var e := Erased(fat, chains[h]);
    forall x | x in chains && x != h
      ensures HeadOk(g, e, chains - {h}, x)
    {
      assert HeadOk(g, fat, chains, x);
      forall c | c in chains[x]
        ensures c !in chains[h]
      {
        assert On(chains, x, c) && (c in chains[h] ==> On(chains, h, c));
      }
      ChainFrame(g, fat, e, chains[x]);
    }
    assert forall x, c :: On(chains - {h}, x, c) ==> On(chains, x, c);
  }

  lemma FewerChains(g: Geometry, fat: seq<nat>, chains: map<nat, seq<nat>>, h: nat, gone: set<nat>)
    requires ChainsOk(g, fat, chains - {h}) && h in gone
    ensures ChainsOk(g, fat, chains - gone)
  {
    forall x | x in chains && x !in gone
      ensures HeadOk(g, fat, chains - gone, x)
    {
      assert HeadOk(g, fat, chains - {h}, x);
    }
    assert forall x, c :: On(chains - gone, x, c) ==> On(chains - {h}, x, c);
  }

  ghost function Removed(g: Geometry, v: Vol, cat: Catalog, d: nat, i: nat): Vol
    requires LinksInRange(v.fat) && Housed(g, v.data, cat) && d in cat.dirs && i < |TreeOf(g, v.data, cat)[d]|
    requires var h := FirstOf(TreeOf(g, v.data, cat)[d][i]); Linkable(h) ==> h < |v.fat|
  {
    var s := TreeOf(g, v.data, cat)[d][i];
    Vol(FreeFrom(v.fat, FirstOf(s)), WriteSlot(g, v.data, cat.chains[d], i, s[0 := DELETED]))
  }

  lemma DeletedSlot(s: Slot)
    ensures IsFree(s[0 := DELETED]) && !IsEnd(s[0 := DELETED])
  {
  }

  lemma ErasedShape(g: Geometry, v: Vol, ch: seq<nat>)
    requires Shaped(g, v)
    ensures Shaped(g, v.(fat := Erased(v.fat, ch)))
  {
  }

  lemma RemovedTree(g: Geometry, v: Vol, cat: Catalog, data: seq<seq<Sector>>, d: nat, i: nat, x: Slot, h: nat)
    requires Housed(g, v.data, cat) && Housed(g, data, cat) && d in cat.dirs && i < |TreeOf(g, v.data, cat)[d]|
    requires TreeOf(g, data, cat) == SetSlot(TreeOf(g, v.data, cat), d, i, x)
    ensures Housed(g, data, Without(cat, h))
    ensures TreeOf(g, data, Without(cat, h)) == SetSlot(TreeOf(g, v.data, cat), d, i, x) - Gone(cat, h)
  {
    hide Gone;
    assert TreeOf(g, data, Without(cat, h)) == TreeOf(g, data, cat) - Gone(cat, h);
  }

  lemma RemovedParts(g: Geometry, v: Vol, cat: Catalog, d: nat, i: nat)
    requires Founded(g, v, cat) && d in cat.dirs && i < |TreeOf(g, v.data, cat)[d]|
    requires var h := FirstOf(TreeOf(g, v.data, cat)[d][i]);
      h in cat.chains && Linkable(h) && h < |v.fat| && h in Gone(cat, h)
    ensures var t := TreeOf(g, v.data, cat); var s := t[d][i]; var h := FirstOf(s);
      var w := Removed(g, v, cat, d, i); var next := Without(cat, h);
      && w.fat == Erased(v.fat, cat.chains[h])
      && Shaped(g, w) && LinksInRange(w.fat) && ChainsOk(g, w.fat, next.chains)
      && Housed(g, w.data, cat) && Housed(g, w.data, next)
      && Kept(g, v.data, cat, w.data, cat, {})
      && TreeOf(g, w.data, next) == SetSlot(t, d, i, s[0 := DELETED]) - Gone(cat, h)
  {
    hide Gone;
    var s := TreeOf(g, v.data, cat)[d][i];
    var h := FirstOf(s);
    var x: Slot := s[0 := DELETED];
    ErasedChains(g, v.fat, cat.chains, h);
    FewerChains(g, Erased(v.fat, cat.chains[h]), cat.chains, h, Gone(cat, h));
    assert Removed(g, v, cat, d, i) == Rewritten(g, v, cat, d, i, x).(fat := Erased(v.fat, cat.chains[h]));
    assert Rewritten(g, v, cat, d, i, x) == v.(data := Removed(g, v, cat, d, i).data);
    RewrittenParts(g, v, cat, d, i, x);
    ErasedShape(g, Rewritten(g, v, cat, d, i, x), cat.chains[h]);
    RemovedTree(g, v, cat, Removed(g, v, cat, d, i).data, d, i, x, h);
  }

  lemma RemovedHead(g: Geometry, v: Vol, cat: Catalog, d: nat, i: nat)
    requires Consistent(g, v, cat) && d in cat.dirs && i < |TreeOf(g, v.data, cat)[d]|
    requires IsEntry(TreeOf(g, v.data, cat)[d][i]) && FirstOf(TreeOf(g, v.data, cat)[d][i]) != 0
    ensures var h := FirstOf(TreeOf(g, v.data, cat)[d][i]);
      h in cat.chains && g.InData(h) && Linkable(h) && h < |v.fat| && h in cat.refs && cat.refs[h] == (d, i)
        && h != g.root
  {
    var s := TreeOf(g, v.data, cat)[d][i];
    assert EntryOk(cat, s, d, i, g.ClusterBytes());
    assert HeadOk(g, v.fat, cat.chains, FirstOf(s));
  }

  lemma RemovedOk(g: Geometry, v: Vol, cat: Catalog, d: nat, i: nat, n: Name)
    requires Rooted(g, v, cat) && LinksInRange(v.fat) && d in cat.dirs && i < |TreeOf(g, v.data, cat)[d]|
    requires TreeOk(g.root, cat, TreeOf(g, v.data, cat), g.ClusterBytes())
    requires var t := TreeOf(g, v.data, cat); var s := t[d][i]; var h := FirstOf(s);
      && IsEntry(s) && NameOf(s) == n && h != 0 && Cut(g.root, cat, d, i, h, Gone(cat, h))
      && (Linkable(h) ==> h < |v.fat|)
    requires var t := TreeOf(g, v.data, cat); var s := t[d][i]; var h := FirstOf(s);
      var w := Removed(g, v, cat, d, i); var next := Without(cat, h);
      && Housed(g, w.data, cat) && Housed(g, w.data, next)
      && Kept(g, v.data, cat, w.data, cat, {})
      && TreeOf(g, w.data, next) == SetSlot(t, d, i, s[0 := DELETED]) - Gone(cat, h)
    ensures var t := TreeOf(g, v.data, cat); var h := FirstOf(t[d][i]);
      var w := Removed(g, v, cat, d, i); var next := Without(cat, h); var u := TreeOf(g, w.data, next);
      && TreeOk(g.root, next, u, g.ClusterBytes()) && Untouched(g, v, cat, w, next, d, n)
      && SameBut(t, u, d, n)
  {
    hide Gone;
    var t := TreeOf(g, v.data, cat);
    var h := FirstOf(t[d][i]);
    var x: Slot := t[d][i][0 := DELETED];
    var w, next, gone := Removed(g, v, cat, d, i), Without(cat, h), Gone(cat, h);
    PutRemoved(g.root, cat, t, d, i, x, g.ClusterBytes(), gone);
    RemoveSame(g.root, cat, t, g.ClusterBytes(), d, i, x, n, gone);
    forall e | e in cat.chains && e !in cat.dirs && e !in gone
      ensures KeptChain(g, v.data, cat, w.data, next, e)
    {
      assert KeptChain(g, v.data, cat, w.data, cat, e);
    }
    MeaningFrame(g, v, cat, w, next, d, i, n, gone);
  }

  /** Deleting an entry that owns a chain frees exactly that chain, and cuts off what lies below. */
  lemma StepRemove(g: Geometry, v: Vol, cat: Catalog, d: nat, i: nat, n: Name)
    requires Consistent(g, v, cat) && d in cat.dirs && i < |TreeOf(g, v.data, cat)[d]|
    requires var t := TreeOf(g, v.data, cat); var s := t[d][i];
      IsEntry(s) && NameOf(s) == n && FirstOf(s) != 0
    ensures var s := TreeOf(g, v.data, cat)[d][i]; var h := FirstOf(s);
      && h in cat.chains && Linkable(h) && h < |v.fat|
      && var w := Removed(g, v, cat, d, i); var next := Without(cat, h);
      && w.fat == Erased(v.fat, cat.chains[h])
      && Consistent(g, w, next) && Untouched(g, v, cat, w, next, d, n)
      && TreeOf(g, w.data, next) == SetSlot(TreeOf(g, v.data, cat), d, i, s[0 := DELETED]) - Gone(cat, h)
      && Cut(g.root, cat, d, i, h, Gone(cat, h))
      && SameBut(TreeOf(g, v.data, cat), TreeOf(g, w.data, next), d, n)
  {
    var t := TreeOf(g, v.data, cat);
    var s := t[d][i];
    var h := FirstOf(s);
    var x: Slot := s[0 := DELETED];
    GoneCut(g.root, cat, t, g.ClusterBytes(), d, i);
    RemovedHead(g, v, cat, d, i);
    RemovedParts(g, v, cat, d, i);
    RemovedOk(g, v, cat, d, i, n);
  }

  // ── giving clusters out ──

  /** The data areas agree outside `picks`. */
  ghost predicate OnlyPicks(data: seq<seq<Sector>>, next: seq<seq<Sector>>, picks: seq<nat>)
  {
    && |next| == |data|
    && (forall c :: 0 <= c < |data| ==> |next[c]| == |data[c]|)
    && (forall c :: 0 <= c < |data| && c !in picks ==> next[c] == data[c])
  }

  lemma HeadInChain(g: Geometry, fat: seq<nat>, chains: map<nat, seq<nat>>, h: nat)
    requires ChainsOk(g, fat, chains) && h in chains
    ensures h in chains[h]
  {
    assert HeadOk(g, fat, chains, h);
    assert chains[h][0] == h;
  }

  lemma PicksFresh(g: Geometry, fat: seq<nat>, chains: map<nat, seq<nat>>, picks: seq<nat>)
    requires ChainsOk(g, fat, chains) && LowestPicks(g, fat, picks)
    ensures forall h, c :: h in chains && c in picks ==> c !in chains[h]
    ensures forall c :: c in picks ==> c !in chains
  {
    forall h, c | h in chains && c in picks
      ensures c !in chains[h]
    {
      if c in chains[h] {
        assert HeadOk(g, fat, chains, h);
        ChainUsed(g, fat, chains[h], c);
      }
    }
    forall c | c in picks
      ensures c !in chains
    {
      if c in chains {
        HeadInChain(g, fat, chains, c);
      }
    }
  }

  lemma ChainedLinks(g: Geometry, fat: seq<nat>, picks: seq<nat>, next: seq<nat>)
    requires LinksInRange(fat) && LowestPicks(g, fat, picks) && Chained(fat, picks, next)
    ensures LinksInRange(next)
  {
    forall c | 0 <= c < |next| && Linkable(next[c])
      ensures next[c] < |next|
    {
      if c in picks {
        var k :| 0 <= k < |picks| && picks[k] == c;
        assert k < |picks| - 1 ==> next[picks[k]] == picks[k + 1];
      }
    }
  }

  lemma ChainedHeaded(g: Geometry, fat: seq<nat>, chains: map<nat, seq<nat>>, picks: seq<nat>, next: seq<nat>)
    requires Headed(g, fat, chains) && g.dataEnd <= END_MIN
    requires |picks| > 0 && LowestPicks(g, fat, picks) && Chained(fat, picks, next)
    requires forall h, x :: h in chains && x in picks ==> x !in chains[h]
    ensures Headed(g, next, chains[picks[0] := picks])
  {
    PicksMakeChain(g, fat, picks, next);
    var all := chains[picks[0] := picks];
    forall h | h in all
      ensures HeadOk(g, next, all, h)
    {
      if h != picks[0] {
        assert HeadOk(g, fat, chains, h);
        ChainFrame(g, fat, next, chains[h]);
      }
    }
  }

  lemma ChainedDisjoint(chains: map<nat, seq<nat>>, picks: seq<nat>)
    requires Disjoint(chains) && |picks| > 0
    requires forall h, x :: h in chains && x in picks ==> x !in chains[h]
    ensures Disjoint(chains[picks[0] := picks])
  {
    var all := chains[picks[0] := picks];
    forall a, b, c | On(all, a, c) && On(all, b, c)
      ensures a == b
    {
      assert a != picks[0] ==> On(chains, a, c);
      assert b != picks[0] ==> On(chains, b, c);
    }
  }

  /** Freshly linked clusters form one more chain beside the old ones. */
  lemma ChainedChains(g: Geometry, fat: seq<nat>, chains: map<nat, seq<nat>>, picks: seq<nat>, next: seq<nat>)
    requires ChainsOk(g, fat, chains) && g.dataEnd <= END_MIN
    requires |picks| > 0 && LowestPicks(g, fat, picks) && Chained(fat, picks, next)
    ensures ChainsOk(g, next, chains[picks[0] := picks])
  {
    PicksFresh(g, fat, chains, picks);
    ChainedHeaded(g, fat, chains, picks, next);
    ChainedDisjoint(chains, picks);
  }

  lemma PicksTree(g: Geometry, v: Vol, cat: Catalog, picks: seq<nat>, data: seq<seq<Sector>>)
    requires Founded(g, v, cat) && OnlyPicks(v.data, data, picks)
    requires forall h :: h in cat.chains ==> forall c :: c in picks ==> c !in cat.chains[h]
    ensures Housed(g, data, cat) && TreeOf(g, data, cat) == TreeOf(g, v.data, cat)
    ensures forall h :: h in cat.chains ==> Sectors(data, cat.chains[h], g.spc) == Sectors(v.data, cat.chains[h], g.spc)
  {
    forall h | h in cat.chains
      ensures ChainShaped(data, cat.chains[h], g.spc)
      ensures Sectors(data, cat.chains[h], g.spc) == Sectors(v.data, cat.chains[h], g.spc)
    {
      SectorsFrame(v.data, data, cat.chains[h], g.spc);
    }
    assert TreeOf(g, data, cat) == TreeOf(g, v.data, cat);
  }

  ghost function With(cat: Catalog, picks: seq<nat>, d: nat, i: nat): Catalog
    requires |picks| > 0
  {
    Catalog(cat.chains[picks[0] := picks], cat.dirs, cat.refs[picks[0] := (d, i)])
  }

  /** Given a filled chain `picks`, slot `i` of `d` is replaced by `s`. */
  ghost function Attached(g: Geometry, cat: Catalog, fat: seq<nat>, data: seq<seq<Sector>>, d: nat, i: nat,
      s: Slot): Vol
    requires Housed(g, data, cat) && d in cat.dirs && i < |TreeOf(g, data, cat)[d]|
  {
    Vol(fat, WriteSlot(g, data, cat.chains[d], i, s))
  }

  lemma KeptThrough(g: Geometry, data: seq<seq<Sector>>, mid: seq<seq<Sector>>, after: seq<seq<Sector>>, cat: Catalog)
    requires Housed(g, data, cat) && Housed(g, mid, cat) && Housed(g, after, cat)
    requires forall h :: h in cat.chains ==> Sectors(mid, cat.chains[h], g.spc) == Sectors(data, cat.chains[h], g.spc)
    requires Kept(g, mid, cat, after, cat, {})
    ensures Kept(g, data, cat, after, cat, {})
  {
    forall h | h in cat.chains && h !in cat.dirs
      ensures KeptChain(g, data, cat, after, cat, h)
    {
      assert KeptChain(g, mid, cat, after, cat, h);
    }
  }

  lemma AttachedTree(g: Geometry, v: Vol, cat: Catalog, fat: seq<nat>, data: seq<seq<Sector>>, d: nat, i: nat, s: Slot)
    requires Housed(g, v.data, cat) && ChainsOk(g, v.fat, cat.chains) && d in cat.dirs
    requires i < |TreeOf(g, v.data, cat)[d]|
    requires Housed(g, data, cat) && TreeOf(g, data, cat) == TreeOf(g, v.data, cat)
    requires forall h :: h in cat.chains ==>
      Sectors(data, cat.chains[h], g.spc) == Sectors(v.data, cat.chains[h], g.spc)
    ensures var w := Attached(g, cat, fat, data, d, i, s);
      && Housed(g, w.data, cat)
      && TreeOf(g, w.data, cat) == SetSlot(TreeOf(g, v.data, cat), d, i, s)
      && Kept(g, v.data, cat, w.data, cat, {})
  {
    WriteSlotTree(g, v.fat, data, cat, d, i, s);
    WriteSlotKept(g, v.fat, data, cat, d, i, s);
    KeptThrough(g, v.data, data, WriteSlot(g, data, cat.chains[d], i, s), cat);
  }

  lemma ChainedShape(g: Geometry, v: Vol, picks: seq<nat>, fat: seq<nat>, data: seq<seq<Sector>>)
    requires Shaped(g, v) && OnlyPicks(v.data, data, picks)
    requires LowestPicks(g, v.fat, picks) && Chained(v.fat, picks, fat)
    ensures Shaped(g, Vol(fat, data))
  {
    forall c | 0 <= c < |fat|
      ensures fat[c] < TWO28
    {
      if c in picks {
        var k :| 0 <= k < |picks| && picks[k] == c;
        assert k < |picks| - 1 ==> fat[picks[k]] == picks[k + 1];
      }
    }
  }

  /** What giving out `picks` and writing a slot does to everything but the catalog. */
  lemma AttachedParts(g: Geometry, v: Vol, cat: Catalog, picks: seq<nat>, fat: seq<nat>, data: seq<seq<Sector>>, d: nat,
      i: nat, s: Slot)
    requires Founded(g, v, cat) && d in cat.dirs && i < |TreeOf(g, v.data, cat)[d]|
    requires |picks| > 0 && LowestPicks(g, v.fat, picks) && Chained(v.fat, picks, fat) && OnlyPicks(v.data, data, picks)
    ensures Housed(g, data, cat) && TreeOf(g, data, cat) == TreeOf(g, v.data, cat)
    ensures picks[0] !in cat.chains && forall h, x :: h in cat.chains && x in picks ==> x !in cat.chains[h]
    ensures var w := Attached(g, cat, fat, data, d, i, s);
      && Shaped(g, w) && LinksInRange(w.fat) && ChainsOk(g, w.fat, cat.chains[picks[0] := picks])
      && Housed(g, w.data, cat)
      && TreeOf(g, w.data, cat) == SetSlot(TreeOf(g, v.data, cat), d, i, s)
      && Kept(g, v.data, cat, w.data, cat, {})
  {
    PicksFresh(g, v.fat, cat.chains, picks);
    PicksTree(g, v, cat, picks, data);
    ChainedLinks(g, v.fat, picks, fat);
    ChainedChains(g, v.fat, cat.chains, picks, fat);
    ChainedShape(g, v, picks, fat, data);
    AttachedTree(g, v, cat, fat, data, d, i, s);
    RewrittenShape(g, Vol(fat, data), cat, d, i, s);
  }

  lemma AttachedOk(g: Geometry, v: Vol, cat: Catalog, picks: seq<nat>, w: Vol, d: nat, i: nat, s: Slot, n: Name)
    requires Rooted(g, v, cat) && TreeOk(g.root, cat, TreeOf(g, v.data, cat), g.ClusterBytes())
    requires d in cat.dirs && i < |TreeOf(g, v.data, cat)[d]|
    requires |picks| > 0 && picks[0] != 0 && picks[0] !in cat.chains
    requires var x := TreeOf(g, v.data, cat)[d][i]; IsEntry(x) && FirstOf(x) == 0 && NameOf(x) == n
    requires IsEntry(s) && !IsDir(s) && NameOf(s) == n && FirstOf(s) == picks[0]
    requires Sized(|picks|, SizeOf(s), g.ClusterBytes())
    requires Housed(g, w.data, cat) && Housed(g, w.data, With(cat, picks, d, i))
    requires Kept(g, v.data, cat, w.data, cat, {})
    requires TreeOf(g, w.data, With(cat, picks, d, i)) == SetSlot(TreeOf(g, v.data, cat), d, i, s)
    ensures var next := With(cat, picks, d, i); var u := TreeOf(g, w.data, next);
      && TreeOk(g.root, next, u, g.ClusterBytes()) && Untouched(g, v, cat, w, next, d, n)
      && SameBut(TreeOf(g, v.data, cat), u, d, n)
  {
    var t := TreeOf(g, v.data, cat);
    var next := With(cat, picks, d, i);
    NoEndBefore(t[d], i);
    PutFile(g.root, cat, t, d, i, s, picks, g.ClusterBytes());
    SetSlotSame(g.root, cat, t, g.ClusterBytes(), d, i, s, n);
    forall h | h in cat.chains && h !in cat.dirs
      ensures KeptChain(g, v.data, cat, w.data, next, h)
    {
      assert KeptChain(g, v.data, cat, w.data, cat, h);
    }
    MeaningFrame(g, v, cat, w, next, d, i, n, {});
  }

  lemma SameDirsTree(g: Geometry, data: seq<seq<Sector>>, cat: Catalog, next: Catalog)
    requires Housed(g, data, cat) && Housed(g, data, next) && next.dirs == cat.dirs
    requires forall d :: d in cat.dirs ==> next.chains[d] == cat.chains[d]
    ensures TreeOf(g, data, next) == TreeOf(g, data, cat)
  {
  }

  /** An empty file receives a chain and a size. */
  lemma StepAttach(g: Geometry, v: Vol, cat: Catalog, picks: seq<nat>, fat: seq<nat>, data: seq<seq<Sector>>, d: nat,
      i: nat, s: Slot, n: Name)
    requires Consistent(g, v, cat) && d in cat.dirs && i < |TreeOf(g, v.data, cat)[d]|
    requires |picks| > 0 && LowestPicks(g, v.fat, picks) && Chained(v.fat, picks, fat) && OnlyPicks(v.data, data, picks)
    requires var x := TreeOf(g, v.data, cat)[d][i]; IsEntry(x) && FirstOf(x) == 0 && NameOf(x) == n
    requires IsEntry(s) && !IsDir(s) && NameOf(s) == n && FirstOf(s) == picks[0]
    requires Sized(|picks|, SizeOf(s), g.ClusterBytes())
    ensures Housed(g, data, cat) && TreeOf(g, data, cat) == TreeOf(g, v.data, cat)
    ensures var w := Attached(g, cat, fat, data, d, i, s); var next := With(cat, picks, d, i);
      && Consistent(g, w, next) && Untouched(g, v, cat, w, next, d, n)
      && TreeOf(g, w.data, next) == SetSlot(TreeOf(g, v.data, cat), d, i, s)
      && SameBut(TreeOf(g, v.data, cat), TreeOf(g, w.data, next), d, n)
  {
    AttachedParts(g, v, cat, picks, fat, data, d, i, s);
    var w, next := Attached(g, cat, fat, data, d, i, s), With(cat, picks, d, i);
    assert picks[0] != 0;
    ChainsHoused(g, w, next);
    SameDirsTree(g, w.data, cat, next);
    AttachedOk(g, v, cat, picks, w, d, i, s, n);
  }

  // ── adding a directory ──

  ghost function WithDir(cat: Catalog, c: nat, d: nat, i: nat): Catalog
  {
    Catalog(cat.chains[c := [c]], cat.dirs + {c}, cat.refs[c := (d, i)])
  }

  function ZeroSector(): Sector { Zeros(SECTOR_SIZE) }

  /** The first sector of a new directory: itself and its parent. */
  function DotSector(c: nat, parent: nat): Sector
    requires c < TWO32 && parent < TWO32
  {
    PutSlot(PutSlot(ZeroSector(), 0, NewSlot(SELF_NAME, ATTR_DIRECTORY, c)), 1,
      NewSlot(PARENT_NAME, ATTR_DIRECTORY, parent))
  }

  /** A freshly written directory cluster holds its two dot slots and ends there. */
  ghost predicate FreshDir(row: seq<Sector>, c: nat, parent: nat)
    requires c < TWO32 && parent < TWO32
  {
    && |row| > 0 && row[0] == DotSector(c, parent)
    && forall s :: 1 <= s < |row| ==> row[s] == ZeroSector()
  }

  /** Nothing but zeros from the third slot on. */
  ghost predicate ZerosBehind(slots: seq<Slot>)
  {
    forall j :: 2 <= j < |slots| ==> slots[j] == Zeros(SLOT_SIZE)
  }

  /** Two slots in use and nothing but end slots behind them. */
  lemma TailEnds(slots: seq<Slot>)
    requires |slots| > 2 && !IsEnd(slots[0]) && !IsEnd(slots[1]) && !IsEntry(slots[0]) && !IsEntry(slots[1])
    requires forall j :: 2 <= j < |slots| ==> IsEnd(slots[j])
    ensures Terminated(slots) && HasEnd(slots) && forall j :: 0 <= j < |slots| ==> !IsEntry(slots[j])
  {
    assert IsEnd(slots[2]);
  }

  lemma DotSectorSlots(c: nat, parent: nat)
    requires c < TWO32 && parent < TWO32
    ensures SlotIn(DotSector(c, parent), 0) == NewSlot(SELF_NAME, ATTR_DIRECTORY, c)
    ensures SlotIn(DotSector(c, parent), 1) == NewSlot(PARENT_NAME, ATTR_DIRECTORY, parent)
    ensures forall j :: 2 <= j < SLOTS_PER_SECTOR ==> SlotIn(DotSector(c, parent), j) == Zeros(SLOT_SIZE)
  {
    var one := PutSlot(ZeroSector(), 0, NewSlot(SELF_NAME, ATTR_DIRECTORY, c));
    forall j | 2 <= j < SLOTS_PER_SECTOR
      ensures SlotIn(DotSector(c, parent), j) == Zeros(SLOT_SIZE)
    {
      assert SlotIn(DotSector(c, parent), j) == SlotIn(one, j);
      assert SlotIn(one, j) == SlotIn(ZeroSector(), j);
    }
  }

  lemma FreshDirDots(row: seq<Sector>, c: nat, parent: nat)
    requires c < TWO32 && parent < TWO32 && FreshDir(row, c, parent)
    ensures |Slots(row)| >= SLOTS_PER_SECTOR
    ensures Slots(row)[0] == NewSlot(SELF_NAME, ATTR_DIRECTORY, c)
    ensures Slots(row)[1] == NewSlot(PARENT_NAME, ATTR_DIRECTORY, parent)
    ensures !IsEntry(Slots(row)[0]) && !IsEntry(Slots(row)[1]) && !IsEnd(Slots(row)[0]) && !IsEnd(Slots(row)[1])
  {
    DotSectorSlots(c, parent);
    assert Slots(row)[0] == SlotIn(row[0], 0) && Slots(row)[1] == SlotIn(row[0], 1);
    assert NameOf(Slots(row)[0])[0] == DOT && NameOf(Slots(row)[1])[0] == DOT;
  }

  lemma FreshDirTail(row: seq<Sector>, c: nat, parent: nat, j: nat)
    requires c < TWO32 && parent < TWO32 && FreshDir(row, c, parent) && 2 <= j < |Slots(row)|
    ensures Slots(row)[j] == Zeros(SLOT_SIZE)
  {
    hide DotSector;
    DotSectorSlots(c, parent);
    var k, e := j / SLOTS_PER_SECTOR, j % SLOTS_PER_SECTOR;
    assert Slots(row)[j] == SlotIn(row[k], e);
    assert k == 0 ==> e == j;
    assert SlotIn(ZeroSector(), e) == Zeros(SLOT_SIZE);
  }

  lemma FreshDirSlots(row: seq<Sector>, c: nat, parent: nat)
    requires c < TWO32 && parent < TWO32 && FreshDir(row, c, parent)
    ensures var slots := Slots(row);
      && |slots| >= SLOTS_PER_SECTOR && Terminated(slots) && HasEnd(slots)
      && (forall j :: 0 <= j < |slots| ==> !IsEntry(slots[j]))
      && ZerosBehind(slots)
  {
    var slots := Slots(row);
    forall j | 2 <= j < |slots|
      ensures slots[j] == Zeros(SLOT_SIZE) && IsEnd(slots[j])
    {
      FreshDirTail(row, c, parent, j);
    }
    FreshDirDots(row, c, parent);
    TailEnds(slots);
  }

  lemma OneClusterSlots(data: seq<seq<Sector>>, c: nat, spc: nat)
    requires spc > 0 && c < |data| && |data[c]| == spc
    ensures SlotsOf(data, [c], spc) == Slots(data[c])
  {
    var x := Sectors(data, [c], spc);
    forall j | 0 <= j < spc
      ensures x[j] == data[c][j]
    {
      SectorsAt(data, [c], spc, 0, j);
    }
    assert x == data[c];
  }

  lemma AddedTree(g: Geometry, data: seq<seq<Sector>>, cat: Catalog, c: nat, d: nat, i: nat)
    requires g.spc > 0 && Housed(g, data, cat) && Housed(g, data, WithDir(cat, c, d, i)) && c !in cat.chains
    requires c < |data| && |data[c]| == g.spc
    ensures TreeOf(g, data, WithDir(cat, c, d, i)) == TreeOf(g, data, cat)[c := Slots(data[c])]
  {
    OneClusterSlots(data, c, g.spc);
  }

  lemma AddedOk(g: Geometry, v: Vol, cat: Catalog, c: nat, w: Vol, row: seq<Sector>, d: nat, i: nat, s: Slot, n: Name)
    requires Rooted(g, v, cat) && TreeOk(g.root, cat, TreeOf(g, v.data, cat), g.ClusterBytes())
    requires d in cat.dirs && i < |TreeOf(g, v.data, cat)[d]|
    requires IsFree(TreeOf(g, v.data, cat)[d][i]) && forall j :: 0 <= j < i ==> !IsEnd(TreeOf(g, v.data, cat)[d][j])
    requires IsEntry(s) && IsDir(s) && NameOf(s) == n && FirstOf(s) == c && SizeOf(s) == 0
    requires c != 0 && c !in cat.chains && c < TWO32 && d < TWO32 && FreshDir(row, c, d)
    requires Housed(g, w.data, cat) && Housed(g, w.data, WithDir(cat, c, d, i)) && Kept(g, v.data, cat, w.data, cat, {})
    requires TreeOf(g, w.data, WithDir(cat, c, d, i)) == SetSlot(TreeOf(g, v.data, cat), d, i, s)[c := Slots(row)]
    ensures var next := WithDir(cat, c, d, i); var u := TreeOf(g, w.data, next);
      && TreeOk(g.root, next, u, g.ClusterBytes()) && Untouched(g, v, cat, w, next, d, n)
      && Kept(g, v.data, cat, w.data, next, {})
      && SameBut(TreeOf(g, v.data, cat), u, d, n)
  {
    hide FreshDir, Housed;
    var t := TreeOf(g, v.data, cat);
    var next := WithDir(cat, c, d, i);
    FreshDirSlots(row, c, d);
    PutDir(g.root, cat, t, d, i, s, c, Slots(row), g.ClusterBytes());
    AddSame(g.root, cat, t, g.ClusterBytes(), d, i, s, n, c, Slots(row));
    forall h | h in cat.chains && h !in cat.dirs
      ensures KeptChain(g, v.data, cat, w.data, next, h)
    {
      assert KeptChain(g, v.data, cat, w.data, cat, h);
    }
    MeaningFrame(g, v, cat, w, next, d, i, n, {});
  }

  /** An empty directory is added in cluster `c` under slot `i` of `d`. */
  lemma StepDir(g: Geometry, v: Vol, cat: Catalog, c: nat, fat: seq<nat>, data: seq<seq<Sector>>, d: nat, i: nat,
      s: Slot, n: Name)
    requires Consistent(g, v, cat) && d in cat.dirs && i < |TreeOf(g, v.data, cat)[d]|
    requires LowestPicks(g, v.fat, [c]) && Chained(v.fat, [c], fat) && OnlyPicks(v.data, data, [c])
    requires IsFree(TreeOf(g, v.data, cat)[d][i]) && forall j :: 0 <= j < i ==> !IsEnd(TreeOf(g, v.data, cat)[d][j])
    requires IsEntry(s) && IsDir(s) && NameOf(s) == n && FirstOf(s) == c && SizeOf(s) == 0
    requires c < TWO32 && d < TWO32 && FreshDir(data[c], c, d)
    ensures Housed(g, data, cat) && TreeOf(g, data, cat) == TreeOf(g, v.data, cat)
    ensures var w := Attached(g, cat, fat, data, d, i, s); var next := WithDir(cat, c, d, i);
      && Consistent(g, w, next) && Untouched(g, v, cat, w, next, d, n)
      && TreeOf(g, w.data, next) == SetSlot(TreeOf(g, v.data, cat), d, i, s)[c := Slots(data[c])]
      && Kept(g, v.data, cat, w.data, next, {})
      && SameBut(TreeOf(g, v.data, cat), TreeOf(g, w.data, next), d, n)
  {
    AttachedParts(g, v, cat, [c], fat, data, d, i, s);
    var w, next := Attached(g, cat, fat, data, d, i, s), WithDir(cat, c, d, i);
    assert [c][0] == c && c in [c] && c != 0;
    ChainsHoused(g, w, next);
    WriteSlotFrame(g, data, cat.chains[d], i, s);
    assert w.data[c] == data[c];
    AddedTree(g, w.data, cat, c, d, i);
    AddedOk(g, v, cat, c, w, data[c], d, i, s, n);
  }
}
