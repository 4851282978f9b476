/** What the calls that change the volume do to it as a whole, and how their effects add up. */
module FatWrite {
  import opened Bytes
  import opened FatLayout
  import opened FatDirectory
  import opened FatChains
  import opened FatTree
  import opened FatVolume
  import opened FatSteps
  import opened FatStream
  import opened FatScan
  import opened FatFill

  /** Between the trees, only directory `d` differs, and only in what name `n` means there. */
  ghost predicate Aside(t: Tree, u: Tree, d: nat, n: Name)
  {
    && d in t && d in u
    && SameBut(t, u, d, n)
    && forall e :: e in t && e in u && e != d ==> u[e] == t[e]
  }

  /** From one consistent volume to another, every path that does not look up `n` in `d` keeping its
    * meaning. */
  ghost predicate Changed(g: Geometry, v: Vol, c: Catalog, w: Vol, next: Catalog, d: nat, n: Name)
  {
    && Consistent(g, v, c) && Consistent(g, w, next)
    && Aside(TreeOf(g, v.data, c), TreeOf(g, w.data, next), d, n)
    && Untouched(g, v, c, w, next, d, n)
  }

  // ── creating ──

  /** An empty file named `n` stands in the first free slot of `d`; nothing else changed. */
  ghost predicate FileCreated(g: Geometry, v: Vol, w: Vol, cat: Catalog, d: nat, at: nat, n: Name)
  {
    && Changed(g, v, cat, w, cat, d, n)
    && FirstFree(TreeOf(g, v.data, cat)[d], at)
    && w == Rewritten(g, v, cat, d, at, NewSlot(n, ATTR_ARCHIVE, 0))
    && TreeOf(g, w.data, cat)[d] == TreeOf(g, v.data, cat)[d][at := NewSlot(n, ATTR_ARCHIVE, 0)]
  }

  lemma CreatedOk(g: Geometry, v: Vol, cat: Catalog, d: nat, at: nat, n: Name)
    requires Consistent(g, v, cat) && d in cat.dirs && FirstFree(TreeOf(g, v.data, cat)[d], at) && n[0] != 0
    ensures FileCreated(g, v, Rewritten(g, v, cat, d, at, NewSlot(n, ATTR_ARCHIVE, 0)), cat, d, at, n)
    ensures Consistent(g, Rewritten(g, v, cat, d, at, NewSlot(n, ATTR_ARCHIVE, 0)), cat)
  {
    var s := NewSlot(n, ATTR_ARCHIVE, 0);
    assert NameOf(s)[0] == s[0];
    StepPlain(g, v, cat, d, at, s, n);
  }

  // ── deleting ──

  /** The number of clusters of the entry that `n` names in `d`. */
  ghost function OldLength(g: Geometry, v: Vol, c: Catalog, d: nat, n: Name): nat
    requires Housed(g, v.data, c) && d in c.dirs
  {
    var slots := TreeOf(g, v.data, c)[d];
    var i := Find(slots, n);
    if i < |slots| && FirstOf(slots[i]) in c.chains then |c.chains[FirstOf(slots[i])]| else 0
  }

  /** The first entry named `n` in `d` is gone, and with it exactly its chain; what lay below it, with a
    * directory, is cut off. */
  ghost predicate EntryDeleted(g: Geometry, v: Vol, c: Catalog, w: Vol, next: Catalog, d: nat, at: nat, n: Name)
  {
    && Changed(g, v, c, w, next, d, n)
    && FirstMatch(TreeOf(g, v.data, c)[d], n, at)
    && var s := TreeOf(g, v.data, c)[d][at];
    && w.data == WriteSlot(g, v.data, c.chains[d], at, s[0 := DELETED])
    && (if FirstOf(s) == 0 then w.fat == v.fat && next == c
        else FirstOf(s) in c.chains && w.fat == Erased(v.fat, c.chains[FirstOf(s)]) && next == Without(c, FirstOf(s)))
    && TreeOf(g, w.data, next)[d] == TreeOf(g, v.data, c)[d][at := s[0 := DELETED]]
  }

  lemma DeletedPlain(g: Geometry, v: Vol, c: Catalog, d: nat, at: nat, n: Name)
    requires Consistent(g, v, c) && d in c.dirs && FirstMatch(TreeOf(g, v.data, c)[d], n, at) && !IsDotName(n)
    requires FirstOf(TreeOf(g, v.data, c)[d][at]) == 0
    ensures var s := TreeOf(g, v.data, c)[d][at];
      var w := Vol(v.fat, WriteSlot(g, v.data, c.chains[d], at, s[0 := DELETED]));
      EntryDeleted(g, v, c, w, c, d, at, n) && Consistent(g, w, c)
  {
    var t := TreeOf(g, v.data, c);
    var s := t[d][at];
    DeletedSlot(s);
    NoEndBefore(t[d], at);
    StepPlain(g, v, c, d, at, s[0 := DELETED], n);
  }

  lemma DeletedChain(g: Geometry, v: Vol, c: Catalog, d: nat, at: nat, n: Name)
    requires Consistent(g, v, c) && d in c.dirs && FirstMatch(TreeOf(g, v.data, c)[d], n, at) && !IsDotName(n)
    requires FirstOf(TreeOf(g, v.data, c)[d][at]) != 0
    ensures var s := TreeOf(g, v.data, c)[d][at]; var h := FirstOf(s);
      && h in c.chains && Linkable(h) && h < |v.fat|
      && var w := Vol(FreeFrom(v.fat, h), WriteSlot(g, v.data, c.chains[d], at, s[0 := DELETED]));
      EntryDeleted(g, v, c, w, Without(c, h), d, at, n) && d in Without(c, h).dirs && Consistent(g, w, Without(c, h))
  {
    hide Gone, TreeOf, TreeOk, Headed, Disjoint, Shaped, SameBut, Untouched, Erased, FreeFrom, WriteSlot;
    var t := TreeOf(g, v.data, c);
    StepRemove(g, v, c, d, at, n);
  }

  /** Deleting keeps the volume consistent. */
  lemma DeletedOk(g: Geometry, v: Vol, c: Catalog, d: nat, at: nat, n: Name) returns (next: Catalog)
    requires Consistent(g, v, c) && d in c.dirs && at < |TreeOf(g, v.data, c)[d]|
    requires Find(TreeOf(g, v.data, c)[d], n) == at
    requires !IsDotName(n)
    ensures var s := TreeOf(g, v.data, c)[d][at];
      && LinksInRange(v.fat) && |v.fat| == g.Entries() && (Linkable(FirstOf(s)) ==> FirstOf(s) < |v.fat|)
      && var w := Vol(FreeFrom(v.fat, FirstOf(s)), WriteSlot(g, v.data, c.chains[d], at, s[0 := DELETED]));
      EntryDeleted(g, v, c, w, next, d, at, n) && d in next.dirs && Consistent(g, w, next)
    ensures next == if FirstOf(TreeOf(g, v.data, c)[d][at]) == 0 then c
      else Without(c, FirstOf(TreeOf(g, v.data, c)[d][at]))
  {
    hide TreeOf, TreeOk, Headed, Disjoint, EntryDeleted, Erased, WriteSlot;
    var s := TreeOf(g, v.data, c)[d][at];
    assert FirstMatch(TreeOf(g, v.data, c)[d], n, at);
    if FirstOf(s) == 0 {
      next := c;
      DeletedPlain(g, v, c, d, at, n);
    } else {
      next := Without(c, FirstOf(s));
      DeletedChain(g, v, c, d, at, n);
    }
  }

  lemma ChainAllUsed(g: Geometry, fat: seq<nat>, ch: seq<nat>)
    requires ChainOk(g, fat, ch)
    ensures forall k :: 0 <= k < |ch| ==> 2 <= ch[k] < g.dataEnd && fat[ch[k]] != 0
    ensures forall x :: x in ch ==> g.InData(x)
  {
    forall k | 0 <= k < |ch|
      ensures 2 <= ch[k] < g.dataEnd && fat[ch[k]] != 0
    {
      assert g.InData(ch[k]);
      ChainUsed(g, fat, ch, ch[k]);
    }
  }

  lemma ChainErased(g: Geometry, v: Vol, ch: seq<nat>, fat: seq<nat>)
    requires g.dataEnd <= |v.fat| && ChainOk(g, v.fat, ch) && fat == Erased(v.fat, ch)
    ensures CountFree(fat, 2, g.dataEnd) == CountFree(v.fat, 2, g.dataEnd) + |ch|
    ensures forall x :: g.dataEnd <= x < |v.fat| ==> fat[x] == v.fat[x]
  {
    ChainAcyclic(g, v.fat, ch);
    ChainAllUsed(g, v.fat, ch);
    CountErased(v.fat, ch, 2, g.dataEnd);
  }

  /** Deleting gives back as many clusters as the entry had. */
  lemma DeletedCount(g: Geometry, v: Vol, c: Catalog, w: Vol, next: Catalog, d: nat, at: nat, n: Name)
    requires EntryDeleted(g, v, c, w, next, d, at, n)
    ensures FreeClusters(g, w) == FreeClusters(g, v) + OldLength(g, v, c, d, n)
    ensures TailUsed(g, v) ==> TailUsed(g, w)
  {
    hide ChainOk, CountFree, Erased, FirstOf, WriteSlot, Untouched, Kept;
    var slots := TreeOf(g, v.data, c)[d];
    FindUnique(slots, n, at);
    var h := FirstOf(slots[at]);
    if h != 0 {
      assert HeadOk(g, v.fat, c.chains, h);
      ChainErased(g, v, c.chains[h], w.fat);
    }
  }

  // ── one change after another ──

  lemma AsideTrans(t: Tree, u: Tree, x: Tree, d: nat, n: Name)
    requires Aside(t, u, d, n) && Aside(u, x, d, n) && x.Keys <= u.Keys
    ensures Aside(t, x, d, n)
  {
    forall e, m | e in t && e in x && !IsDotName(m) && !(e == d && m == n)
      ensures SameStep(t, x, e, m)
    {
      assert e in u;
      assert SameStep(t, u, e, m) && SameStep(u, x, e, m);
    }
  }

  lemma ChangedTrans(g: Geometry, v: Vol, c: Catalog, w: Vol, cw: Catalog, x: Vol, cx: Catalog, d: nat, n: Name)
    requires Changed(g, v, c, w, cw, d, n) && Changed(g, w, cw, x, cx, d, n) && cx.dirs <= cw.dirs
    ensures Changed(g, v, c, x, cx, d, n)
  {
    var t, u := TreeOf(g, v.data, c), TreeOf(g, w.data, cw);
    AsideTrans(t, u, TreeOf(g, x.data, cx), d, n);
    forall from, names | from in t && from in cx.dirs && names != [] && NoDots(names) && Avoids(t, from, names, d, n)
      ensures MeaningFrom(g, x, cx, from, names) == MeaningFrom(g, v, c, from, names)
    {
      assert from in u;
      AvoidsFrame(t, u, from, names, d, n);
      assert MeaningFrom(g, w, cw, from, names) == MeaningFrom(g, v, c, from, names);
    }
  }

  /** The way to the changed directory is as it was, and as safe. */
  lemma WayKept(root: nat, cat: Catalog, t: Tree, cb: nat, u: Tree, names: seq<Name>, d: nat, n: Name)
    requires TreeOk(root, cat, t, cb) && root in u && Aside(t, u, d, n)
    requires PathSafe(t, root, names) && DirAt(t, root, names) == At(d)
    ensures PathSafe(u, root, names) && DirAt(u, root, names) == At(d)
  {
    WayAvoids(root, cat, t, cb, names, d, n);
    forall k | 0 <= k <= |names|
      ensures DirAt(u, root, names[..k]) == DirAt(t, root, names[..k])
    {
      assert forall j :: 0 <= j < k ==> names[..k][..j] == names[..j];
      DirFrame(t, u, root, names[..k], d, n);
    }
    assert names[..|names|] == names;
    if names != [] && d == root {
      OnePath(root, cat, t, cb, names, []);
    }
  }

  lemma WayKeptIn(g: Geometry, v: Vol, c: Catalog, w: Vol, next: Catalog, names: seq<Name>, d: nat, n: Name)
    requires Changed(g, v, c, w, next, d, n)
    requires PathSafe(TreeOf(g, v.data, c), g.root, names) && DirAt(TreeOf(g, v.data, c), g.root, names) == At(d)
    ensures PathSafe(TreeOf(g, w.data, next), g.root, names) && DirAt(TreeOf(g, w.data, next), g.root, names) == At(d)
    ensures d in next.dirs
  {
    WayKept(g.root, c, TreeOf(g, v.data, c), g.ClusterBytes(), TreeOf(g, w.data, next), names, d, n);
  }

  /** A deleted entry leaves a free slot. */
  lemma DeletedLeavesFree(g: Geometry, v: Vol, c: Catalog, w: Vol, next: Catalog, d: nat, at: nat, n: Name)
    requires EntryDeleted(g, v, c, w, next, d, at, n)
    ensures !NoneFree(TreeOf(g, w.data, next)[d], |TreeOf(g, w.data, next)[d]|)
  {
    var s := TreeOf(g, v.data, c)[d][at];
    DeletedSlot(s);
    assert IsFree(TreeOf(g, w.data, next)[d][at]);
  }

  // ── replacing: what the first two steps of writing come to ──

  /** An empty file named `n` is what the name finds in `d`; the clusters of what it found before
    * are free again. */
  ghost predicate Replaced(g: Geometry, v: Vol, c: Catalog, w: Vol, next: Catalog, d: nat, at: nat, n: Name)
  {
    && Changed(g, v, c, w, next, d, n)
    && var slots := TreeOf(g, w.data, next)[d];
    && at < |slots| && Find(slots, n) == at && slots[at] == NewSlot(n, ATTR_ARCHIVE, 0)
    && FreeClusters(g, w) == FreeClusters(g, v) + OldLength(g, v, c, d, n)
    && (TailUsed(g, v) ==> TailUsed(g, w))
    && at == EntryPlace(TreeOf(g, v.data, c)[d], n)
    && (AliasFree(TreeOf(g, v.data, c)[d], n, at) <==> AliasFree(slots, n, at))
    && next.dirs <= c.dirs
  }

  /** The new entry is never behind the first match of its name. */
  lemma CreateAfterDelete(slots: seq<Slot>, i: nat, gone: Slot, at: nat, s: Slot, n: Name)
    requires FirstMatch(slots, n, i) && IsFree(gone)
    requires var mid: seq<Slot> := slots[i := gone]; FirstFree(mid, at)
    requires Matches(s, n)
    ensures at <= i && at == EntryPlace(slots, n) && Find(slots[i := gone][at := s], n) == at
    ensures AliasFree(slots, n, at) <==> AliasFree(slots[i := gone][at := s], n, at)
  {
    var mid: seq<Slot> := slots[i := gone];
    assert IsFree(mid[i]);
    assert forall j :: 0 <= j < at ==> mid[j] == slots[j] && mid[at := s][j] == slots[j];
    FindCreated(mid, at, s, n);
    PlaceUnique(slots, n, at);
  }

  lemma CreateAfresh(slots: seq<Slot>, at: nat, s: Slot, n: Name)
    requires Terminated(slots) && Find(slots, n) == |slots| && FirstFree(slots, at) && Matches(s, n)
    ensures at == EntryPlace(slots, n) && Find(slots[at := s], n) == at
    ensures AliasFree(slots, n, at) <==> AliasFree(slots[at := s], n, at)
  {
    forall j | 0 <= j < at
      ensures !Matches(slots[j], n)
    {
      if Matches(slots[j], n) {
        FindComplete(slots, n, j);
      }
    }
    assert forall j :: 0 <= j < at ==> slots[at := s][j] == slots[j];
    FindCreated(slots, at, s, n);
    PlaceUnique(slots, n, at);
  }

  lemma NewMatches(n: Name)
    requires n[0] != 0 && n[0] != DELETED
    ensures Matches(NewSlot(n, ATTR_ARCHIVE, 0), n)
  {
    var s := NewSlot(n, ATTR_ARCHIVE, 0);
    assert NameOf(s)[0] == s[0];
  }

  lemma RewrittenCount(g: Geometry, v: Vol, c: Catalog, w: Vol, d: nat, at: nat, n: Name)
    requires FileCreated(g, v, w, c, d, at, n)
    ensures FreeClusters(g, w) == FreeClusters(g, v) && (TailUsed(g, v) ==> TailUsed(g, w))
  {
  }

  lemma ReplacedAfterDelete(g: Geometry, v: Vol, c: Catalog, m: Vol, cm: Catalog, w: Vol, d: nat, i: nat, at: nat,
      n: Name)
    requires EntryDeleted(g, v, c, m, cm, d, i, n) && FileCreated(g, m, w, cm, d, at, n)
    requires n[0] != 0 && n[0] != DELETED
    ensures Replaced(g, v, c, w, cm, d, at, n)
  {
    var s := TreeOf(g, v.data, c)[d][i];
    DeletedSlot(s);
    NewMatches(n);
    CreateAfterDelete(TreeOf(g, v.data, c)[d], i, s[0 := DELETED], at, NewSlot(n, ATTR_ARCHIVE, 0), n);
    DeletedCount(g, v, c, m, cm, d, i, n);
    RewrittenCount(g, m, cm, w, d, at, n);
    ChangedTrans(g, v, c, m, cm, w, cm, d, n);
  }

  lemma ReplacedAfresh(g: Geometry, v: Vol, c: Catalog, w: Vol, d: nat, at: nat, n: Name)
    requires FileCreated(g, v, w, c, d, at, n) && Find(TreeOf(g, v.data, c)[d], n) == |TreeOf(g, v.data, c)[d]|
    requires n[0] != 0 && n[0] != DELETED
    ensures Replaced(g, v, c, w, c, d, at, n)
  {
    NewMatches(n);
    CreateAfresh(TreeOf(g, v.data, c)[d], at, NewSlot(n, ATTR_ARCHIVE, 0), n);
    RewrittenCount(g, v, c, w, d, at, n);
  }

  // ── the finished file ──

  /** The name finds a file in `d` that reads as `data`; its chain is as long as its size demands and
    * was paid for by free clusters and those of what the name found before. */
  ghost predicate FileWritten(g: Geometry, v: Vol, c: Catalog, w: Vol, next: Catalog, d: nat, at: nat, n: Name,
      data: seq<byte>)
  {
    && Changed(g, v, c, w, next, d, n)
    && var slots := TreeOf(g, w.data, next)[d];
    && at < |slots| && Find(slots, n) == at
    && !IsDir(slots[at]) && SizeOf(slots[at]) == |data| && next.dirs <= c.dirs
    && slots[at] == Stamp(NewSlot(n, ATTR_ARCHIVE, 0), FirstOf(slots[at]), |data|)
    && SlotMeaning(g, w.data, next.chains, slots[at]) == File(data)
    && FreeClusters(g, w) + |SlotChain(next, slots[at])| == FreeClusters(g, v) + OldLength(g, v, c, d, n)
  }

  lemma EmptySlot(g: Geometry, w: Vol, next: Catalog, n: Name)
    requires 0 !in next.chains
    ensures var s := NewSlot(n, ATTR_ARCHIVE, 0);
      !IsDir(s) && SizeOf(s) == 0 && SlotMeaning(g, w.data, next.chains, s) == File([]) && SlotChain(next, s) == []
  {
  }

  lemma WrittenEmpty(g: Geometry, v: Vol, c: Catalog, w: Vol, next: Catalog, d: nat, at: nat, n: Name)
    requires Replaced(g, v, c, w, next, d, at, n)
    ensures FileWritten(g, v, c, w, next, d, at, n, [])
  {
    hide TreeOf, Aside, Untouched, Founded, EntryPlace, IsPlace, AliasFree, FreeClusters, OldLength, Find;
    EmptySlot(g, w, next, n);
  }

  /** While a chain is built that no entry names yet, the volume stays consistent, and every path
    * keeps its meaning. */
  lemma BuiltKeeps(g: Geometry, v: Vol, c: Catalog, w: Vol, picks: seq<nat>, data: seq<byte>)
    requires Consistent(g, v, c) && Building(g, v, w, picks, data)
    ensures Consistent(g, w, c) && TreeOf(g, w.data, c) == TreeOf(g, v.data, c)
    ensures forall h :: h in c.chains ==> Sectors(w.data, c.chains[h], g.spc) == Sectors(v.data, c.chains[h], g.spc)
  {
    PicksFresh(g, v.fat, c.chains, picks);
    PicksTree(g, v, c, picks, w.data);
    ChainedLinks(g, v.fat, picks, w.fat);
    forall h | h in c.chains
      ensures HeadOk(g, w.fat, c.chains, h)
    {
      assert HeadOk(g, v.fat, c.chains, h);
      ChainFrame(g, v.fat, w.fat, c.chains[h]);
    }
  }

  lemma ConsistentRooted(g: Geometry, v: Vol, c: Catalog)
    requires Consistent(g, v, c)
    ensures Rooted(g, v, c)
  {
  }

  lemma SameMeaning(g: Geometry, v: Vol, c: Catalog, w: Vol, from: nat, names: seq<Name>)
    requires Rooted(g, v, c) && Rooted(g, w, c) && from in c.dirs && names != []
    requires TreeOf(g, w.data, c) == TreeOf(g, v.data, c)
    requires forall h :: h in c.chains ==> Sectors(w.data, c.chains[h], g.spc) == Sectors(v.data, c.chains[h], g.spc)
    ensures MeaningFrom(g, w, c, from, names) == MeaningFrom(g, v, c, from, names)
  {
  }

  lemma BuiltChanged(g: Geometry, v: Vol, c: Catalog, w: Vol, picks: seq<nat>, data: seq<byte>, d: nat, n: Name)
    requires Consistent(g, v, c) && Building(g, v, w, picks, data) && d in c.dirs
    ensures Changed(g, v, c, w, c, d, n) && TreeOf(g, w.data, c) == TreeOf(g, v.data, c)
  {
    hide TreeOf, TreeOk, Building;
    BuiltKeeps(g, v, c, w, picks, data);
    ConsistentRooted(g, v, c);
    ConsistentRooted(g, w, c);
    forall from, names | from in c.dirs && names != []
      ensures MeaningFrom(g, w, c, from, names) == MeaningFrom(g, v, c, from, names)
    {
      SameMeaning(g, v, c, w, from, names);
    }
  }

  /** An empty file named `n` is what the name finds in `d`. */
  ghost predicate EmptyEntry(g: Geometry, m: Vol, cm: Catalog, d: nat, at: nat, n: Name)
  {
    && Consistent(g, m, cm) && d in cm.dirs
    && at < |TreeOf(g, m.data, cm)[d]| && Find(TreeOf(g, m.data, cm)[d], n) == at
    && TreeOf(g, m.data, cm)[d][at] == NewSlot(n, ATTR_ARCHIVE, 0)
    && n[0] != 0 && n[0] != DELETED && !IsDotName(n)
  }

  lemma StampedSlot(n: Name, first: nat, size: nat)
    requires n[0] != 0 && n[0] != DELETED && !IsDotName(n) && first < TWO32 && size < TWO32
    ensures var s := Stamp(NewSlot(n, ATTR_ARCHIVE, 0), first, size);
      IsEntry(s) && Matches(s, n) && !IsDir(s) && FirstOf(s) == first && SizeOf(s) == size
    ensures IsEntry(NewSlot(n, ATTR_ARCHIVE, 0)) && !IsDir(NewSlot(n, ATTR_ARCHIVE, 0))
  {
    NewMatches(n);
    var s := Stamp(NewSlot(n, ATTR_ARCHIVE, 0), first, size);
    assert NameOf(s)[0] == s[0];
  }

  lemma FindStamped(slots: seq<Slot>, at: nat, s: Slot, n: Name)
    requires at < |slots| && Find(slots, n) == at && Matches(s, n)
    ensures Find(slots[at := s], n) == at
  {
    assert FirstMatch(slots, n, at);
    assert FirstMatch(slots[at := s], n, at);
    FindUnique(slots[at := s], n, at);
  }

  /** The named chain reads as the data. */
  lemma AttachedBytes(g: Geometry, m: Vol, cm: Catalog, b: Vol, picks: seq<nat>, d: nat, at: nat, data: seq<byte>,
      s: Slot)
    requires Consistent(g, m, cm) && Building(g, m, b, picks, data) && d in cm.dirs
    requires Housed(g, b.data, cm) && TreeOf(g, b.data, cm) == TreeOf(g, m.data, cm) && at < |TreeOf(g, m.data, cm)[d]|
    requires |picks| > 0 && Sized(|picks|, |data|, g.ClusterBytes())
    requires !IsDir(s) && FirstOf(s) == picks[0] && SizeOf(s) == |data|
    ensures var w := Attached(g, cm, b.fat, b.data, d, at, s);
      SlotMeaning(g, w.data, With(cm, picks, d, at).chains, s) == File(data)
  {
    var w := Attached(g, cm, b.fat, b.data, d, at, s);
    WriteSlotFrame(g, b.data, cm.chains[d], at, s);
    PicksFresh(g, m.fat, cm.chains, picks);
    SectorsFrame(b.data, w.data, picks, g.spc);
    SizeFits(g, |picks|, |data|);
    FilledReads(g, b.data, picks, data);
  }

  lemma AttachBuilt(g: Geometry, m: Vol, cm: Catalog, b: Vol, picks: seq<nat>, d: nat, at: nat, n: Name,
      data: seq<byte>, s: Slot)
    requires Consistent(g, m, cm) && Building(g, m, b, picks, data) && d in cm.dirs
    requires |picks| > 0 && Sized(|picks|, |data|, g.ClusterBytes())
    requires var slots := TreeOf(g, m.data, cm)[d];
      at < |slots| && Find(slots, n) == at && IsEntry(slots[at]) && FirstOf(slots[at]) == 0 && NameOf(slots[at]) == n
    requires IsEntry(s) && Matches(s, n) && !IsDir(s) && FirstOf(s) == picks[0] && SizeOf(s) == |data|
    ensures Housed(g, b.data, cm) && TreeOf(g, b.data, cm) == TreeOf(g, m.data, cm)
    ensures var w := Attached(g, cm, b.fat, b.data, d, at, s); var next := With(cm, picks, d, at);
      && Changed(g, m, cm, w, next, d, n)
      && TreeOf(g, w.data, next)[d] == TreeOf(g, m.data, cm)[d][at := s]
      && Find(TreeOf(g, w.data, next)[d], n) == at
      && SlotMeaning(g, w.data, next.chains, s) == File(data)
      && FreeClusters(g, m) == FreeClusters(g, w) + |picks|
  {
    hide TreeOk, Headed, Disjoint, LinksInRange, Filled, Untouched, SameBut, IsEntry, IsDir, FileBytes, Find;
    StepAttach(g, m, cm, picks, b.fat, b.data, d, at, s, n);
    CountChained(g, m.fat, picks, b.fat);
    FindStamped(TreeOf(g, m.data, cm)[d], at, s, n);
    AttachedBytes(g, m, cm, b, picks, d, at, data, s);
  }

  /** Naming the built chain completes the file. */
  lemma WrittenAttached(g: Geometry, m: Vol, cm: Catalog, b: Vol, picks: seq<nat>, d: nat, at: nat, n: Name,
      data: seq<byte>)
    requires EmptyEntry(g, m, cm, d, at, n) && Building(g, m, b, picks, data)
    requires |picks| > 0 && Sized(|picks|, |data|, g.ClusterBytes()) && |data| < TWO32
    ensures Housed(g, b.data, cm) && TreeOf(g, b.data, cm) == TreeOf(g, m.data, cm)
    ensures picks[0] < TWO32
    ensures var w := b.(data :=
      WriteSlot(g, b.data, cm.chains[d], at, Stamp(TreeOf(g, m.data, cm)[d][at], picks[0], |data|)));
      FileWritten(g, m, cm, w, With(cm, picks, d, at), d, at, n, data) && Consistent(g, w, With(cm, picks, d, at))
  {
    BuiltKeeps(g, m, cm, b, picks, data);
    StampedSlot(n, picks[0], |data|);
    var s := Stamp(TreeOf(g, m.data, cm)[d][at], picks[0], |data|);
    AttachBuilt(g, m, cm, b, picks, d, at, n, data, s);
  }

  /** The name finds an empty file in `d`, whatever it found before. */
  ghost predicate LeftEmpty(g: Geometry, v: Vol, c: Catalog, w: Vol, next: Catalog, d: nat, at: nat, n: Name)
  {
    && Changed(g, v, c, w, next, d, n) && next.dirs <= c.dirs
    && var slots := TreeOf(g, w.data, next)[d];
      at < |slots| && Find(slots, n) == at && slots[at] == NewSlot(n, ATTR_ARCHIVE, 0)
  }

  /** When an alias before the new entry receives the chain and the size, the entry stays empty. */
  lemma AliasPatched(g: Geometry, m: Vol, cm: Catalog, b: Vol, picks: seq<nat>, d: nat, at: nat, n: Name,
      data: seq<byte>, hit: nat, s: Slot)
    requires EmptyEntry(g, m, cm, d, at, n) && Building(g, m, b, picks, data)
    requires hit < at && Alias(TreeOf(g, m.data, cm)[d][hit], n)
    requires NameOf(s) == NameOf(TreeOf(g, m.data, cm)[d][hit]) && AttrOf(s) == AttrOf(TreeOf(g, m.data, cm)[d][hit])
    ensures Housed(g, b.data, cm) && TreeOf(g, b.data, cm) == TreeOf(g, m.data, cm)
    ensures LeftEmpty(g, m, cm, b.(data := WriteSlot(g, b.data, cm.chains[d], hit, s)), cm, d, at, n)
  {
    hide LinksInRange, Disjoint, NewSlot, Untouched;
    var t := TreeOf(g, m.data, cm);
    var x := t[d][hit];
    assert s[0] == NameOf(s)[0] == NameOf(x)[0] == x[0];
    BuiltChanged(g, m, cm, b, picks, data, d, n);
    var w := b.(data := WriteSlot(g, b.data, cm.chains[d], hit, s));
    NoEndBefore(t[d], hit);
    StepPlain(g, b, cm, d, hit, s, n);
    assert Changed(g, b, cm, w, cm, d, n);
    ChangedTrans(g, m, cm, b, cm, w, cm, d, n);
    FindFrame(t[d], hit, s, n);
  }

  /** When the clusters run out, the entry is as empty as it was made. */
  lemma ShortOfClusters(g: Geometry, m: Vol, cm: Catalog, b: Vol, picks: seq<nat>, data: seq<byte>, d: nat, at: nat,
      n: Name)
    requires EmptyEntry(g, m, cm, d, at, n) && Building(g, m, b, picks, data)
    ensures LeftEmpty(g, m, cm, b, cm, d, at, n)
  {
    BuiltChanged(g, m, cm, b, picks, data, d, n);
  }

  /** An entry that was replaced and then left empty. */
  lemma LeftTrans(g: Geometry, v: Vol, c: Catalog, m: Vol, cm: Catalog, w: Vol, next: Catalog, d: nat, at: nat, n: Name)
    requires Replaced(g, v, c, m, cm, d, at, n) && LeftEmpty(g, m, cm, w, next, d, at, n)
    ensures LeftEmpty(g, v, c, w, next, d, at, n)
  {
    ChangedTrans(g, v, c, m, cm, w, next, d, n);
  }

  lemma WrittenTrans(g: Geometry, v: Vol, c: Catalog, m: Vol, cm: Catalog, w: Vol, next: Catalog, d: nat, at: nat,
      n: Name, data: seq<byte>)
    requires Replaced(g, v, c, m, cm, d, at, n) && FileWritten(g, m, cm, w, next, d, at, n, data)
    ensures FileWritten(g, v, c, w, next, d, at, n, data)
  {
    ChangedTrans(g, v, c, m, cm, w, next, d, n);
    assert FirstOf(TreeOf(g, m.data, cm)[d][at]) == 0;
  }

  // ── adding a directory ──

  /** A new empty directory named `n` stands in the first free slot of `d`; its cluster `c` was the
    * lowest free one and holds the dot slots of itself and `d`. */
  ghost predicate DirCreated(g: Geometry, v: Vol, cat: Catalog, w: Vol, next: Catalog, d: nat, at: nat, n: Name, c: nat)
  {
    && Changed(g, v, cat, w, next, d, n)
    && FirstFree(TreeOf(g, v.data, cat)[d], at)
    && LowestFree(v.fat, c) && c < TWO32 && d < TWO32 && c in next.dirs
    && TreeOf(g, w.data, next)[d] == TreeOf(g, v.data, cat)[d][at := NewSlot(n, ATTR_DIRECTORY, c)]
    && |TreeOf(g, w.data, next)[c]| >= SLOTS_PER_SECTOR
    && TreeOf(g, w.data, next)[c][0] == NewSlot(SELF_NAME, ATTR_DIRECTORY, c)
    && TreeOf(g, w.data, next)[c][1] == NewSlot(PARENT_NAME, ATTR_DIRECTORY, d)
    && ZerosBehind(TreeOf(g, w.data, next)[c])
    && Vacant(TreeOf(g, w.data, next), c) && HasEnd(TreeOf(g, w.data, next)[c])
    && next == WithDir(cat, c, d, at) && Kept(g, v.data, cat, w.data, next, {})
    && FreeClusters(g, v) == FreeClusters(g, w) + 1
  }

  lemma OnePick(g: Geometry, v: Vol, w: Vol, c: nat)
    requires Shaped(g, v) && Shaped(g, w) && LowestFree(v.fat, c) && g.InData(c)
    requires w.fat == v.fat[c := END_OF_CHAIN] && |w.data| == |v.data|
    requires forall x :: 0 <= x < |v.data| && x != c ==> w.data[x] == v.data[x]
    ensures Building(g, v, w, [c], [])
  {
    assert forall x :: 0 <= x < |v.data| && x !in [c] ==> x != c by {
      assert c in [c];
    }
    assert ChainShaped(w.data, [c], g.spc);
  }

  lemma DirSlot(n: Name, c: nat)
    requires n[0] != 0 && n[0] != DELETED && !IsDotName(n) && c < TWO32
    ensures var s := NewSlot(n, ATTR_DIRECTORY, c);
      IsEntry(s) && IsDir(s) && NameOf(s) == n && FirstOf(s) == c && SizeOf(s) == 0
  {
    var s := NewSlot(n, ATTR_DIRECTORY, c);
    assert NameOf(s)[0] == s[0];
  }

  lemma FirstFreeSlot(slots: seq<Slot>, at: nat)
    requires FirstFree(slots, at)
    ensures at < |slots| && IsFree(slots[at]) && forall j :: 0 <= j < at ==> !IsEnd(slots[j])
  {
  }

  lemma AddAside(t: Tree, d: nat, at: nat, s: Slot, n: Name, c: nat, slots: seq<Slot>)
    requires d in t && at < |t[d]| && c !in t && SameBut(t, SetSlot(t, d, at, s)[c := slots], d, n)
    ensures Aside(t, SetSlot(t, d, at, s)[c := slots], d, n)
  {
  }

  lemma FreshElsewhere(g: Geometry, fat: seq<nat>, cat: Catalog, c: nat)
    requires ChainsOk(g, fat, cat.chains) && LowestPicks(g, fat, [c])
    ensures c !in cat.chains
  {
    PicksFresh(g, fat, cat.chains, [c]);
    assert [c][0] == c;
  }

  lemma AddBuilt(g: Geometry, v: Vol, cat: Catalog, b: Vol, d: nat, at: nat, n: Name, c: nat, s: Slot)
    requires Consistent(g, v, cat) && Building(g, v, b, [c], []) && d in cat.dirs
    requires FirstFree(TreeOf(g, v.data, cat)[d], at)
    requires IsEntry(s) && IsDir(s) && NameOf(s) == n && FirstOf(s) == c && SizeOf(s) == 0
    requires c < TWO32 && d < TWO32 && c < |b.data| && FreshDir(b.data[c], c, d)
    ensures Housed(g, b.data, cat) && TreeOf(g, b.data, cat) == TreeOf(g, v.data, cat)
    ensures var w := Attached(g, cat, b.fat, b.data, d, at, s); var next := WithDir(cat, c, d, at);
      && Changed(g, v, cat, w, next, d, n)
      && c != d && TreeOf(g, w.data, next)[d] == TreeOf(g, v.data, cat)[d][at := s]
      && TreeOf(g, w.data, next)[c] == Slots(b.data[c])
      && Kept(g, v.data, cat, w.data, next, {})
      && FreeClusters(g, v) == FreeClusters(g, w) + 1
  {
    hide TreeOk, TreeOf, FreshDir, LinksInRange, IsEntry, IsDir, SameBut, Untouched, FirstFree, Disjoint, Headed;
    FirstFreeSlot(TreeOf(g, v.data, cat)[d], at);
    StepDir(g, v, cat, c, b.fat, b.data, d, at, s, n);
    CountChained(g, v.fat, [c], b.fat);
    FreshElsewhere(g, v.fat, cat, c);
    AddAside(TreeOf(g, v.data, cat), d, at, s, n, c, Slots(b.data[c]));
  }

  lemma DirCreatedOk(g: Geometry, v: Vol, cat: Catalog, b: Vol, d: nat, at: nat, n: Name, c: nat)
    requires Consistent(g, v, cat) && Building(g, v, b, [c], []) && d in cat.dirs && LowestFree(v.fat, c)
    requires FirstFree(TreeOf(g, v.data, cat)[d], at) && n[0] != 0 && n[0] != DELETED && !IsDotName(n)
    requires c < TWO32 && d < TWO32 && c < |b.data| && FreshDir(b.data[c], c, d)
    ensures Housed(g, b.data, cat) && TreeOf(g, b.data, cat) == TreeOf(g, v.data, cat)
    ensures var w := b.(data := WriteSlot(g, b.data, cat.chains[d], at, NewSlot(n, ATTR_DIRECTORY, c)));
      var next := WithDir(cat, c, d, at);
      DirCreated(g, v, cat, w, next, d, at, n, c) && Consistent(g, w, next)
  {
    hide ZerosBehind, FreshDir, NewSlot;
    DirSlot(n, c);
    AddBuilt(g, v, cat, b, d, at, n, c, NewSlot(n, ATTR_DIRECTORY, c));
    FreshDirSlots(b.data[c], c, d);
    FreshDirDots(b.data[c], c, d);
  }
}
