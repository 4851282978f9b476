/**
  * Which directories are found: all of them by a path, as long as no call puts a name in front of a
  * directory of that name.
  */
module FatReach {
  import opened Bytes
  import opened FatLayout
  import opened FatDirectory
  import opened FatChains
  import opened FatTree
  import opened FatVolume
  import opened FatSteps
  import opened FatScan
  import opened FatFill
  import opened FatWrite
  import opened FatCalls

  // ── found by a path ──

  ghost predicate Found(t: Tree, root: nat, d: nat)
    requires root in t
  {
    exists names :: NoDots(names) && DirAt(t, root, names) == At(d)
  }

  /** The slot of a directory is the first of its name. */
  ghost predicate Shown(root: nat, cat: Catalog, t: Tree, d: nat)
  {
    d == root
    || (d in cat.refs
        && var at := cat.refs[d];
           at.0 in t && at.1 < |t[at.0]| && Find(t[at.0], NameOf(t[at.0][at.1])) == at.1)
  }

  ghost predicate AllShown(root: nat, cat: Catalog, t: Tree)
  {
    forall d :: d in t ==> Shown(root, cat, t, d)
  }

  lemma ShownStep(root: nat, cat: Catalog, t: Tree, cb: nat, d: nat)
    requires TreeOk(root, cat, t, cb) && d in t && d in cat.refs && Shown(root, cat, t, d) && d != root
    ensures var p := cat.refs[d].0; var i := cat.refs[d].1;
      p in t && i < |t[p]| && !IsDotName(NameOf(t[p][i])) && Step(t, p, NameOf(t[p][i])) == At(d)
  {
    assert RefOk(cat, t, d);
  }

  lemma FoundOn(t: Tree, root: nat, p: nat, n: Name, d: nat)
    requires root in t && p in t && Found(t, root, p) && !IsDotName(n) && Step(t, p, n) == At(d)
    ensures Found(t, root, d)
  {
    var names :| NoDots(names) && DirAt(t, root, names) == At(p);
    assert (names + [n])[..|names|] == names;
    assert DirAt(t, root, names + [n]) == At(d);
    assert NoDots(names + [n]);
  }

  lemma {:induction false} FoundFrom(root: nat, cat: Catalog, t: Tree, cb: nat, d: nat, k: nat)
    requires TreeOk(root, cat, t, cb) && AllShown(root, cat, t) && d in t && Up(cat.refs, d, k) == root
    ensures Found(t, root, d)
    decreases k
  {
    if d == root {
      assert DirAt(t, root, []) == At(root);
    } else {
      assert d in cat.chains.Keys && d in cat.refs && RefOk(cat, t, d) && Shown(root, cat, t, d);
      var p, i := cat.refs[d].0, cat.refs[d].1;
      FoundFrom(root, cat, t, cb, p, k - 1);
      ShownStep(root, cat, t, cb, d);
      FoundOn(t, root, p, NameOf(t[p][i]), d);
    }
  }

  /** All directories are found by paths exactly when the slot of each is the first of its name. */
  lemma FoundIff(root: nat, cat: Catalog, t: Tree, cb: nat)
    requires TreeOk(root, cat, t, cb)
    ensures (forall d :: d in t ==> Found(t, root, d)) <==> AllShown(root, cat, t)
  {
    if forall d :: d in t ==> Found(t, root, d) {
      forall d | d in t
        ensures Shown(root, cat, t, d)
      {
        assert Found(t, root, d);
        var names :| NoDots(names) && DirAt(t, root, names) == At(d);
        if names != [] {
          StepRef(root, cat, t, cb, DirAt(t, root, names[..|names| - 1]).dir, names[|names| - 1]);
        }
      }
    }
    if AllShown(root, cat, t) {
      forall d | d in t
        ensures Found(t, root, d)
      {
        assert Below(cat.refs, root, d);
        var k: nat :| Up(cat.refs, d, k) == root;
        FoundFrom(root, cat, t, cb, d, k);
      }
    }
  }

  // ── calls that put a name in front of a directory ──

  /** Picked clusters head no chain. */
  lemma PickNew(g: Geometry, m: State, b: Vol, picks: seq<nat>, data: seq<byte>)
    requires Fine(g, m) && Building(g, m.v, b, picks, data) && |picks| > 0
    ensures picks[0] !in m.cat.chains && picks[0] !in m.cat.dirs
  {
    PicksFresh(g, m.v.fat, m.cat.chains, picks);
  }

  /** Slot `i` is the entry of a directory. */
  ghost predicate DirSlotAt(t: Tree, d: nat, i: nat)
    requires d in t
  {
    i < |t[d]| && IsEntry(t[d][i]) && FirstOf(t[d][i]) in t
  }

  /** The call makes a directory that no path finds, or hides one that was found: it puts a new slot in
    * front of the directory of that name, or a new directory behind a slot of its name. */
  ghost predicate Hides(g: Geometry, s: State, call: Call)
    requires Fine(g, s)
  {
    match call
    case Create(d, at, n) => d in s.cat.dirs && var i := Find(TreeIn(g, s)[d], n);
      at < i && DirSlotAt(TreeIn(g, s), d, i)
    case MakeDir(d, at, n, _) => d in s.cat.dirs && var i := Find(TreeIn(g, s)[d], n);
      i < at || DirSlotAt(TreeIn(g, s), d, i)
    case _ => false
  }

  /** The directories of both catalogs are recorded in the same slots. */
  ghost predicate SameRefs(root: nat, cat: Catalog, next: Catalog)
  {
    forall x :: x in cat.dirs && x in next.dirs && x != root ==>
      x in cat.refs && x in next.refs && next.refs[x] == cat.refs[x]
  }

  /** A change of name `n` in `d` leaves every directory shown but that of the first slot of that name. */
  lemma ShownBut(root: nat, cat: Catalog, t: Tree, cb: nat, next: Catalog, u: Tree, d: nat, n: Name, x: nat)
    requires TreeOk(root, cat, t, cb) && TreeOk(root, next, u, cb) && Aside(t, u, d, n) && SameRefs(root, cat, next)
    requires x in t && x in u && x != root && Shown(root, cat, t, x) && cat.refs[x] != (d, Find(t[d], n))
    ensures Shown(root, next, u, x)
  {
    assert RefOk(cat, t, x) && RefOk(next, u, x);
    var p, i := cat.refs[x].0, cat.refs[x].1;
    assert SameStep(t, u, p, NameOf(t[p][i]));
  }

  /** The directory that the first slot of the name was the entry of. */
  lemma RefDir(root: nat, cat: Catalog, t: Tree, cb: nat, d: nat, i: nat, x: nat)
    requires TreeOk(root, cat, t, cb) && d in t && x in t
    ensures x in cat.refs && cat.refs[x] == (d, i) <==> DirSlotAt(t, d, i) && FirstOf(t[d][i]) == x
  {
    if x in cat.refs {
      assert RefOk(cat, t, x);
    }
    if DirSlotAt(t, d, i) {
      assert EntryOk(cat, t[d][i], d, i, cb);
    }
  }

  /** What a name that is there finds after a slot of the name is made. */
  lemma FirstPut(slots: seq<Slot>, at: nat, s: Slot, n: Name)
    requires Terminated(slots) && FirstFree(slots, at) && NameOf(s) == n && AttrOf(s) != ATTR_LFN
    requires Find(slots, n) < |slots|
    ensures var f := Find(slots, n);
      f != at && NameOf(slots[f]) == n && Find(slots[at := s], n) == if f < at then f else at
  {
    var f := Find(slots, n);
    assert FirstMatch(slots, n, f);
    assert slots[f][0] == NameOf(slots[f])[0] == NameOf(s)[0] == s[0];
    CreatedFinds(slots, at, s, n);
  }

  /** A slot made in the first free place of `d`; `next` may record a directory there. */
  lemma PutShown(root: nat, cat: Catalog, t: Tree, cb: nat, next: Catalog, u: Tree, d: nat, at: nat, s: Slot, n: Name)
    requires TreeOk(root, cat, t, cb) && TreeOk(root, next, u, cb) && Aside(t, u, d, n) && SameRefs(root, cat, next)
    requires AllShown(root, cat, t) && t.Keys <= u.Keys
    requires FirstFree(t[d], at) && u[d] == t[d][at := s] && NameOf(s) == n && AttrOf(s) != ATTR_LFN
    ensures (forall x :: x in t ==> Shown(root, next, u, x)) <==>
      !(at < Find(t[d], n) && DirSlotAt(t, d, Find(t[d], n)))
  {
    var f := Find(t[d], n);
    forall x | x in t && x != root && cat.refs[x] != (d, f)
      ensures Shown(root, next, u, x)
    {
      ShownBut(root, cat, t, cb, next, u, d, n, x);
    }
    if DirSlotAt(t, d, f) {
      var y := FirstOf(t[d][f]);
      RefDir(root, cat, t, cb, d, f, y);
      FirstPut(t[d], at, s, n);
      assert Shown(root, next, u, y) <==> f < at;
    }
    forall x | x in t && x != root && cat.refs[x] == (d, f)
      ensures DirSlotAt(t, d, f) && FirstOf(t[d][f]) == x
    {
      RefDir(root, cat, t, cb, d, f, x);
    }
  }

  /** When the directory that the first slot of the name was the entry of is gone, all others are shown. */
  lemma DropShown(root: nat, cat: Catalog, t: Tree, cb: nat, next: Catalog, u: Tree, d: nat, n: Name)
    requires TreeOk(root, cat, t, cb) && TreeOk(root, next, u, cb) && Aside(t, u, d, n) && SameRefs(root, cat, next)
    requires AllShown(root, cat, t) && u.Keys <= t.Keys
    requires DirSlotAt(t, d, Find(t[d], n)) ==> FirstOf(t[d][Find(t[d], n)]) !in u
    ensures AllShown(root, next, u)
  {
    forall x | x in u && x != root
      ensures Shown(root, next, u, x)
    {
      RefDir(root, cat, t, cb, d, Find(t[d], n), x);
      ShownBut(root, cat, t, cb, next, u, d, n, x);
    }
  }

  /** The catalog has lost the directory that the name found in `d`, if it found one, and no other. */
  ghost predicate Drops(g: Geometry, s: State, d: nat, n: Name, next: Catalog)
    requires Fine(g, s) && d in s.cat.dirs
  {
    && SameRefs(g.root, s.cat, next) && next.dirs <= s.cat.dirs
    && var i := Find(TreeIn(g, s)[d], n); DirSlotAt(TreeIn(g, s), d, i) ==> FirstOf(TreeIn(g, s)[d][i]) !in next.dirs
  }

  lemma FirstIsRef(g: Geometry, s: State, x: nat)
    requires Fine(g, s)
    ensures 0 !in s.cat.dirs && (x in s.cat.dirs && x != g.root ==> x in s.cat.refs)
  {
  }

  lemma DeleteDrops(g: Geometry, s: State, d: nat, at: nat, n: Name)
    requires Fine(g, s) && CanDelete(g, s, d, at, n)
    ensures Drops(g, s, d, n, AfterDelete(g, s, d, at, n).cat)
  {
    hide Consistent, TreeOf, FreeFrom, WriteSlot, Gone, NamesNone;
    DeleteGone(g, s, d, at, n);
    forall x
      ensures 0 !in s.cat.dirs && (x in s.cat.dirs && x != g.root ==> x in s.cat.refs)
    {
      FirstIsRef(g, s, x);
    }
  }

  lemma RenewDrops(g: Geometry, s: State, d: nat, at: nat, n: Name, m: State)
    requires Fine(g, s) && Renews(g, s, d, at, n, m)
    ensures d in s.cat.dirs && Drops(g, s, d, n, m.cat)
  {
    hide Consistent, CanDelete, CanCreate, TreeOf, AfterDelete;
    var i := Find(TreeIn(g, s)[d], n);
    if i == |TreeIn(g, s)[d]| {
      CreateParts(g, s, d, at, n);
      forall x
        ensures x in s.cat.dirs && x != g.root ==> x in s.cat.refs
      {
        FirstIsRef(g, s, x);
      }
    } else {
      DeleteKeeps(g, s, d, i, n);
      DeleteDrops(g, s, d, i, n);
      CreateParts(g, AfterDelete(g, s, d, i, n), d, at, n);
    }
  }

  lemma DropsWith(g: Geometry, s: State, d: nat, n: Name, cm: Catalog, picks: seq<nat>, at: nat)
    requires Fine(g, s) && d in s.cat.dirs && Drops(g, s, d, n, cm) && |picks| > 0 && picks[0] !in cm.dirs
    ensures Drops(g, s, d, n, With(cm, picks, d, at))
  {
  }

  lemma FillCatalog(g: Geometry, m: State, d: nat, at: nat, n: Name, data: seq<byte>, b: Vol, picks: seq<nat>, t: State)
    requires Fine(g, m) && EmptyEntry(g, m.v, m.cat, d, at, n) && Fills(g, m, d, at, n, data, b, picks, t)
    ensures t.cat == m.cat || (|picks| > 0 && picks[0] !in m.cat.dirs && t.cat == With(m.cat, picks, d, at))
  {
    hide EmptyEntry, Building, TreeOf, AliasFree, TreeOk, With;
    FillKeeps(g, m, d, at, n, data, b, picks, t);
    PickNew(g, m, b, picks, data);
  }

  lemma WriteDrops(g: Geometry, s: State, d: nat, at: nat, n: Name, data: seq<byte>, t: State)
    requires Fine(g, s) && Writes(g, s, d, at, n, data, t)
    ensures d in s.cat.dirs && Drops(g, s, d, n, t.cat)
  {
    hide Consistent, Renews, Fills, TreeOf, Drops, AliasFree, EmptyEntry;
    var m :| Renews(g, s, d, at, n, m) && (RenewKeeps(g, s, d, at, n, m); Finishes(g, m, d, at, n, data, t));
    RenewKeeps(g, s, d, at, n, m);
    RenewDrops(g, s, d, at, n, m);
    if data != [] {
      var b, picks :| Fills(g, m, d, at, n, data, b, picks, t);
      FillCatalog(g, m, d, at, n, data, b, picks, t);
      if t.cat != m.cat {
        DropsWith(g, s, d, n, m.cat, picks, at);
      }
    }
  }

  ghost predicate ShownIn(g: Geometry, s: State)
    requires Fine(g, s)
  {
    AllShown(g.root, s.cat, TreeIn(g, s))
  }

  lemma DropsShown(g: Geometry, s: State, d: nat, n: Name, t: State)
    requires Fine(g, s) && ShownIn(g, s) && Changed(g, s.v, s.cat, t.v, t.cat, d, n) && d in s.cat.dirs
    requires Drops(g, s, d, n, t.cat)
    ensures Fine(g, t) && ShownIn(g, t)
  {
    hide Founded, TreeOk, AllShown, Aside, Untouched, SameRefs, TreeOf, Find;
    DropShown(g.root, s.cat, TreeIn(g, s), g.ClusterBytes(), t.cat, TreeIn(g, t), d, n);
  }

  lemma CreateShown(g: Geometry, s: State, d: nat, at: nat, n: Name)
    requires Fine(g, s) && ShownIn(g, s) && CanCreate(g, s, d, at, n)
    ensures var t := AfterCreate(g, s, d, at, n); Fine(g, t) && (ShownIn(g, t) <==> !Hides(g, s, Create(d, at, n)))
  {
    hide Founded, TreeOk, Aside, Untouched, TreeOf, Find, FirstFree, NewSlot, DirSlotAt, Rewritten, Shown;
    var t := AfterCreate(g, s, d, at, n);
    CreateKeeps(g, s, d, at, n);
    forall x
      ensures x in s.cat.dirs && x != g.root ==> x in s.cat.refs
    {
      FirstIsRef(g, s, x);
    }
    PutShown(g.root, s.cat, TreeIn(g, s), g.ClusterBytes(), t.cat, TreeIn(g, t), d, at, NewSlot(n, ATTR_ARCHIVE, 0), n);
  }

  lemma NotFreeDir(t: Tree, d: nat, i: nat)
    requires d in t
    ensures DirSlotAt(t, d, i) ==> !IsFree(t[d][i])
  {
  }

  lemma ShownWith(g: Geometry, s: State, t: State, c: nat)
    requires Fine(g, s) && Fine(g, t) && t.cat.dirs == s.cat.dirs + {c}
    ensures ShownIn(g, t) <==>
      (forall x :: x in TreeIn(g, s) ==> Shown(g.root, t.cat, TreeIn(g, t), x)) && Shown(g.root, t.cat, TreeIn(g, t), c)
  {
    hide Shown, Consistent, TreeOf;
  }

  lemma DirRefs(g: Geometry, s: State, c: nat, d: nat, at: nat)
    requires Fine(g, s) && c !in s.cat.chains
    ensures SameRefs(g.root, s.cat, WithDir(s.cat, c, d, at)) && c != g.root
  {
  }

  /** The new directory is what its name finds exactly when no earlier slot carries the name. */
  lemma NewDirShown(g: Geometry, s: State, d: nat, at: nat, n: Name, c: nat, t: State)
    requires Fine(g, s) && DirCreated(g, s.v, s.cat, t.v, t.cat, d, at, n, c) && Nameable(n)
    requires t.cat == WithDir(s.cat, c, d, at) && c != g.root
    ensures d in s.cat.dirs && Fine(g, t) && (Shown(g.root, t.cat, TreeIn(g, t), c) <==> Find(TreeIn(g, s)[d], n) >= at)
  {
    hide Founded, Untouched, Aside, TreeOf, NewSlot;
    ChangedIn(g, s.v, s.cat, t.v, t.cat, d, n);
    DirSlot(n, c);
    CreatedFinds(TreeIn(g, s)[d], at, NewSlot(n, ATTR_DIRECTORY, c), n);
  }

  lemma MakeDirShown(g: Geometry, s: State, d: nat, at: nat, n: Name, c: nat, t: State)
    requires Fine(g, s) && ShownIn(g, s) && MakesDir(g, s, d, at, n, c, t)
    ensures Fine(g, t) && (ShownIn(g, t) <==> !Hides(g, s, MakeDir(d, at, n, c)))
  {
    hide Founded, TreeOk, Aside, Untouched, TreeOf, Find, NewSlot, WriteSlot, DirSlotAt, Shown, Building, FreshDir,
      FirstFree, AllShown, SameRefs;
    MakeDirKeeps(g, s, d, at, n, c, t);
    var b :| TakesCluster(g, s, d, c, b) && Places(g, s, d, at, n, c, b, t);
    PickNew(g, s, b, [c], []);
    DirRefs(g, s, c, d, at);
    var slot, f := NewSlot(n, ATTR_DIRECTORY, c), Find(TreeIn(g, s)[d], n);
    PutShown(g.root, s.cat, TreeIn(g, s), g.ClusterBytes(), t.cat, TreeIn(g, t), d, at, slot, n);
    NewDirShown(g, s, d, at, n, c, t);
    FirstFreeSlot(TreeIn(g, s)[d], at);
    NotFreeDir(TreeIn(g, s), d, f);
    ShownWith(g, s, t, c);
  }

  /** When every directory is found by a path, they are all still found after a call exactly when the
    * call hides none. */
  lemma CallShown(g: Geometry, s: State, call: Call, t: State)
    requires Fine(g, s) && ShownIn(g, s) && Does(g, s, call, t)
    ensures Fine(g, t) && (ShownIn(g, t) <==> !Hides(g, s, call))
  {
    hide Consistent, Changed, Renews, Fills, Writes, MakesDir, Building, CanDelete, CanCreate, TreeOf, Drops, AllShown,
      DirSlotAt;
    CallKeeps(g, s, call, t);
    match call
    case Create(d, at, n) =>
      CreateShown(g, s, d, at, n);
    case Delete(d, at, n) =>
      DeleteDrops(g, s, d, at, n);
      DropsShown(g, s, d, n, t);
    case Write(d, at, n, data) =>
      WriteDrops(g, s, d, at, n, data, t);
      DropsShown(g, s, d, n, t);
    case WriteShort(d, at, n, data) =>
      var m :| Renews(g, s, d, at, n, m) && Exhausts(g, m, data, t);
      RenewDrops(g, s, d, at, n, m);
      DropsShown(g, s, d, n, t);
    case MakeDir(d, at, n, c) =>
      MakeDirShown(g, s, d, at, n, c, t);
    case MakeDirFull(d, n, c) =>
      BuiltKeeps(g, s.v, s.cat, t.v, [c], []);
    case NoEffect =>
  }

  /** Every directory is found by a path. */
  ghost predicate AllFound(g: Geometry, s: State)
    requires Fine(g, s)
  {
    forall d :: d in s.cat.dirs ==> Found(TreeIn(g, s), g.root, d)
  }

  lemma FoundShown(g: Geometry, s: State)
    requires Fine(g, s)
    ensures AllFound(g, s) <==> ShownIn(g, s)
  {
    hide Found, AllShown;
    FoundIff(g.root, s.cat, TreeIn(g, s), g.ClusterBytes());
  }

  /** A volume on which every directory is found by a path stays one exactly when the call hides none. */
  lemma CallFound(g: Geometry, s: State, call: Call, t: State)
    requires Fine(g, s) && AllFound(g, s) && Does(g, s, call, t)
    ensures Fine(g, t) && (AllFound(g, t) <==> !Hides(g, s, call))
  {
    hide Consistent, Does, Hides, Found, AllShown, TreeOf;
    FoundShown(g, s);
    CallShown(g, s, call, t);
    FoundShown(g, t);
  }
}
