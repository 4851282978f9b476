/**
  * The calls that change the volume, told by what they do to it, failing ones included; and what
  * every one of them keeps.
  */
module FatCalls {
  import opened Bytes
  import opened FatLayout
  import opened FatDirectory
  import opened FatChains
  import opened FatTree
  import opened FatVolume
  import opened FatSteps
  import opened FatScan
  import opened FatFill
  import opened FatWrite

  datatype State = State(v: Vol, cat: Catalog)

  ghost predicate Fine(g: Geometry, s: State) { Consistent(g, s.v, s.cat) }

  ghost function TreeIn(g: Geometry, s: State): (t: Tree)
    requires Fine(g, s)
    ensures t.Keys == s.cat.dirs
  {
    TreeOf(g, s.v.data, s.cat)
  }

  /** A name that a file or directory can be made under. */
  predicate Nameable(n: Name) { n[0] != 0 && n[0] != DELETED && !IsDotName(n) }

  // ── what a call does ──

  ghost predicate CanCreate(g: Geometry, s: State, d: nat, at: nat, n: Name)
    requires Fine(g, s)
  {
    d in s.cat.dirs && FirstFree(TreeIn(g, s)[d], at) && n[0] != 0
  }

  /** The first free slot is overwritten by that of an empty file. */
  ghost function AfterCreate(g: Geometry, s: State, d: nat, at: nat, n: Name): State
    requires Fine(g, s) && CanCreate(g, s, d, at, n)
  {
    State(Rewritten(g, s.v, s.cat, d, at, NewSlot(n, ATTR_ARCHIVE, 0)), s.cat)
  }

  ghost predicate CanDelete(g: Geometry, s: State, d: nat, at: nat, n: Name)
    requires Fine(g, s)
  {
    && d in s.cat.dirs && at < |TreeIn(g, s)[d]| && Find(TreeIn(g, s)[d], n) == at
    && !IsDotName(n)
  }

  lemma DeleteFits(g: Geometry, s: State, d: nat, at: nat, n: Name)
    requires Fine(g, s) && CanDelete(g, s, d, at, n)
    ensures LinksInRange(s.v.fat) && var h := FirstOf(TreeIn(g, s)[d][at]); Linkable(h) ==> h < |s.v.fat|
  {
    var next := DeletedOk(g, s.v, s.cat, d, at, n);
  }

  /** The links from the entry's first cluster on are cleared, and its slot is marked. */
  ghost function AfterDelete(g: Geometry, s: State, d: nat, at: nat, n: Name): State
    requires Fine(g, s) && CanDelete(g, s, d, at, n)
  {
    var x := TreeIn(g, s)[d][at];
    DeleteFits(g, s, d, at, n);
    State(
      Vol(FreeFrom(s.v.fat, FirstOf(x)), WriteSlot(g, s.v.data, s.cat.chains[d], at, x[0 := DELETED])),
      if FirstOf(x) == 0 then s.cat else Without(s.cat, FirstOf(x)))
  }

  lemma CreateKeeps(g: Geometry, s: State, d: nat, at: nat, n: Name)
    requires Fine(g, s) && CanCreate(g, s, d, at, n)
    ensures var t := AfterCreate(g, s, d, at, n); Fine(g, t) && FileCreated(g, s.v, t.v, s.cat, d, at, n)
  {
    CreatedOk(g, s.v, s.cat, d, at, n);
  }

  lemma CreateParts(g: Geometry, s: State, d: nat, at: nat, n: Name)
    requires Fine(g, s) && CanCreate(g, s, d, at, n)
    ensures AfterCreate(g, s, d, at, n).cat == s.cat
  {
  }

  lemma DeleteKeeps(g: Geometry, s: State, d: nat, at: nat, n: Name)
    requires Fine(g, s) && CanDelete(g, s, d, at, n)
    ensures var t := AfterDelete(g, s, d, at, n);
      Fine(g, t) && d in t.cat.dirs && EntryDeleted(g, s.v, s.cat, t.v, t.cat, d, at, n)
  {
    hide Consistent, EntryDeleted, FreeFrom, WriteSlot, Erased;
    var next := DeletedOk(g, s.v, s.cat, d, at, n);
  }

  lemma RenewedEntry(g: Geometry, v: Vol, c: Catalog, m: Vol, cm: Catalog, d: nat, at: nat, n: Name)
    requires Replaced(g, v, c, m, cm, d, at, n) && Nameable(n)
    ensures Consistent(g, m, cm) && d in cm.dirs && EmptyEntry(g, m, cm, d, at, n)
  {
  }

  /** What the name finds is deleted, and an empty file takes the name. */
  ghost predicate Renews(g: Geometry, s: State, d: nat, at: nat, n: Name, m: State)
    requires Fine(g, s)
  {
    && d in s.cat.dirs && Nameable(n)
    && var i := Find(TreeIn(g, s)[d], n);
      if i == |TreeIn(g, s)[d]| then CanCreate(g, s, d, at, n) && m == AfterCreate(g, s, d, at, n)
      else
        && CanDelete(g, s, d, i, n)
        && (DeleteKeeps(g, s, d, i, n);
            var e := AfterDelete(g, s, d, i, n);
            CanCreate(g, e, d, at, n) && m == AfterCreate(g, e, d, at, n))
  }

  lemma RenewKeeps(g: Geometry, s: State, d: nat, at: nat, n: Name, m: State)
    requires Fine(g, s) && Renews(g, s, d, at, n, m)
    ensures Fine(g, m) && d in m.cat.dirs && Replaced(g, s.v, s.cat, m.v, m.cat, d, at, n)
    ensures EmptyEntry(g, m.v, m.cat, d, at, n)
  {
    hide Consistent, EntryDeleted, FileCreated, Replaced, EmptyEntry, AfterCreate, AfterDelete, CanCreate, CanDelete,
      Find;
    var i := Find(TreeIn(g, s)[d], n);
    if i == |TreeIn(g, s)[d]| {
      CreateKeeps(g, s, d, at, n);
      CreateParts(g, s, d, at, n);
      ReplacedAfresh(g, s.v, s.cat, m.v, d, at, n);
    } else {
      DeleteKeeps(g, s, d, i, n);
      var e := AfterDelete(g, s, d, i, n);
      CreateKeeps(g, e, d, at, n);
      CreateParts(g, e, d, at, n);
      ReplacedAfterDelete(g, s.v, s.cat, e.v, e.cat, m.v, d, i, at, n);
    }
    RenewedEntry(g, s.v, s.cat, m.v, m.cat, d, at, n);
  }

  ghost predicate Patches(g: Geometry, m: State, d: nat, at: nat, n: Name, data: seq<byte>, b: Vol, picks: seq<nat>,
      hit: nat, t: State)
    requires Fine(g, m) && d in m.cat.dirs
    requires |picks| > 0 && picks[0] < TWO32 && |data| < TWO32 && Building(g, m.v, b, picks, data)
  {
    BuiltKeeps(g, m.v, m.cat, b, picks, data);
    && FirstHit(TreeIn(g, m)[d], n, true, hit)
    && t.v == b.(data := WriteSlot(g, b.data, m.cat.chains[d], hit, Stamp(TreeIn(g, m)[d][hit], picks[0], |data|)))
    && t.cat == if hit == at then With(m.cat, picks, d, at) else m.cat
  }

  /** The built and filled chain `picks` is given, with the size, to the first slot that carries the
    * name, long-name slots included. */
  ghost predicate Fills(g: Geometry, m: State, d: nat, at: nat, n: Name, data: seq<byte>, b: Vol, picks: seq<nat>,
      t: State)
    requires Fine(g, m) && d in m.cat.dirs
  {
    && |picks| > 0 && picks[0] < TWO32 && Sized(|picks|, |data|, g.ClusterBytes()) && |data| < TWO32
    && Building(g, m.v, b, picks, data)
    && exists hit: nat :: Patches(g, m, d, at, n, data, b, picks, hit, t)
  }

  /** Every cluster of the data area is in use. */
  ghost predicate Full(g: Geometry, v: Vol)
    requires Shaped(g, v)
  {
    forall c :: g.InData(c) ==> v.fat[c] != 0
  }

  /** A cluster is taken for a directory in `d` and filled as an empty directory. */
  ghost predicate TakesCluster(g: Geometry, s: State, d: nat, c: nat, b: Vol)
    requires Fine(g, s)
  {
    && d in s.cat.dirs && d < TWO32 && c < TWO32
    && Building(g, s.v, b, [c], []) && c < |b.data| && FreshDir(b.data[c], c, d)
  }

  /** A call on name `n` of directory `d`, by how it ends. */
  datatype Call =
    | Create(d: nat, at: nat, n: Name)
    | Delete(d: nat, at: nat, n: Name)
    | Write(d: nat, at: nat, n: Name, data: seq<byte>)      // the call reports success
    | WriteShort(d: nat, at: nat, n: Name, data: seq<byte>) // the clusters ran out
    | MakeDir(d: nat, at: nat, n: Name, c: nat)
    | MakeDirFull(d: nat, n: Name, c: nat)                  // a cluster was taken, but no slot was free
    | NoEffect

  ghost predicate Finishes(g: Geometry, m: State, d: nat, at: nat, n: Name, data: seq<byte>, t: State)
    requires Fine(g, m) && d in m.cat.dirs
  {
    if data == [] then t == m else exists b, picks :: Fills(g, m, d, at, n, data, b, picks, t)
  }

  /** A write that reports success. */
  ghost predicate Writes(g: Geometry, s: State, d: nat, at: nat, n: Name, data: seq<byte>, t: State)
    requires Fine(g, s)
  {
    exists m :: Renews(g, s, d, at, n, m) && (RenewKeeps(g, s, d, at, n, m); Finishes(g, m, d, at, n, data, t))
  }

  ghost predicate Exhausts(g: Geometry, m: State, data: seq<byte>, t: State)
  {
    exists picks :: Building(g, m.v, t.v, picks, data) && Full(g, t.v) && t.cat == m.cat && data != []
  }

  /** A write that takes every free cluster and finds that they are too few. */
  ghost predicate RunsOut(g: Geometry, s: State, d: nat, at: nat, n: Name, data: seq<byte>, t: State)
    requires Fine(g, s)
  {
    exists m :: Renews(g, s, d, at, n, m) && Exhausts(g, m, data, t)
  }

  ghost predicate Places(g: Geometry, s: State, d: nat, at: nat, n: Name, c: nat, b: Vol, t: State)
    requires Fine(g, s) && TakesCluster(g, s, d, c, b)
  {
    BuiltKeeps(g, s.v, s.cat, b, [c], []);
    && FirstFree(TreeIn(g, s)[d], at)
    && t == State(b.(data := WriteSlot(g, b.data, s.cat.chains[d], at, NewSlot(n, ATTR_DIRECTORY, c))),
      WithDir(s.cat, c, d, at))
  }

  ghost predicate MakesDir(g: Geometry, s: State, d: nat, at: nat, n: Name, c: nat, t: State)
    requires Fine(g, s)
  {
    Nameable(n) && exists b :: TakesCluster(g, s, d, c, b) && Places(g, s, d, at, n, c, b, t)
  }

  /** What the call makes of the volume, in terms of the volume before it. */
  ghost predicate Does(g: Geometry, s: State, call: Call, t: State)
    requires Fine(g, s)
  {
    match call
    case Create(d, at, n) => CanCreate(g, s, d, at, n) && t == AfterCreate(g, s, d, at, n)
    case Delete(d, at, n) => CanDelete(g, s, d, at, n) && t == AfterDelete(g, s, d, at, n)
    case Write(d, at, n, data) => Writes(g, s, d, at, n, data, t)
    case WriteShort(d, at, n, data) => RunsOut(g, s, d, at, n, data, t)
    case MakeDir(d, at, n, c) => MakesDir(g, s, d, at, n, c, t)
    case MakeDirFull(d, n, c) => TakesCluster(g, s, d, c, t.v) && NoneFree(TreeIn(g, s)[d], |TreeIn(g, s)[d]|)
      && t.cat == s.cat
    case NoEffect => t == s
  }

  // ── what every call keeps ──

  lemma EntryFound(g: Geometry, m: State, d: nat, at: nat, n: Name)
    requires Fine(g, m) && EmptyEntry(g, m.v, m.cat, d, at, n)
    ensures d in m.cat.dirs && at < |TreeIn(g, m)[d]| && Find(TreeIn(g, m)[d], n) == at
  {
  }

  lemma LeftFine(g: Geometry, v: Vol, c: Catalog, w: Vol, next: Catalog, d: nat, at: nat, n: Name)
    requires LeftEmpty(g, v, c, w, next, d, at, n)
    ensures Consistent(g, w, next)
  {
  }

  lemma PatchKeeps(g: Geometry, m: State, d: nat, at: nat, n: Name, data: seq<byte>, b: Vol, picks: seq<nat>, hit: nat,
      t: State)
    requires Fine(g, m) && EmptyEntry(g, m.v, m.cat, d, at, n) && d in m.cat.dirs
    requires |picks| > 0 && picks[0] < TWO32 && |data| < TWO32 && Sized(|picks|, |data|, g.ClusterBytes())
    requires Building(g, m.v, b, picks, data) && Patches(g, m, d, at, n, data, b, picks, hit, t)
    ensures Fine(g, t)
    ensures if AliasFree(TreeIn(g, m)[d], n, at) then FileWritten(g, m.v, m.cat, t.v, t.cat, d, at, n, data)
      && t.cat == With(m.cat, picks, d, at)
      else LeftEmpty(g, m.v, m.cat, t.v, t.cat, d, at, n) && t.cat == m.cat
  {
    hide Consistent, Building, FileWritten, LeftEmpty, WriteSlot, Stamp, Find, AliasFree, Alias, FirstHit, EmptyEntry,
      Sized;
    EntryFound(g, m, d, at, n);
    var slots := TreeIn(g, m)[d];
    PatchHit(slots, n, at);
    if hit == at {
      WrittenAttached(g, m.v, m.cat, b, picks, d, at, n, data);
    } else {
      AliasPatched(g, m.v, m.cat, b, picks, d, at, n, data, hit, Stamp(slots[hit], picks[0], |data|));
      LeftFine(g, m.v, m.cat, t.v, t.cat, d, at, n);
    }
  }

  /** How a write ends: the new entry has received the data, or an alias before it has. */
  lemma FillKeeps(g: Geometry, m: State, d: nat, at: nat, n: Name, data: seq<byte>, b: Vol, picks: seq<nat>, t: State)
    requires Fine(g, m) && EmptyEntry(g, m.v, m.cat, d, at, n) && Fills(g, m, d, at, n, data, b, picks, t)
    ensures Fine(g, t)
    ensures if AliasFree(TreeIn(g, m)[d], n, at) then FileWritten(g, m.v, m.cat, t.v, t.cat, d, at, n, data)
      && t.cat == With(m.cat, picks, d, at)
      else LeftEmpty(g, m.v, m.cat, t.v, t.cat, d, at, n) && t.cat == m.cat
  {
    hide Consistent, Building, FileWritten, LeftEmpty, AliasFree, Patches, EmptyEntry, Sized;
    EntryFound(g, m, d, at, n);
    var hit: nat :| Patches(g, m, d, at, n, data, b, picks, hit, t);
    PatchKeeps(g, m, d, at, n, data, b, picks, hit, t);
  }

  lemma RenewPlace(g: Geometry, s: State, d: nat, at: nat, n: Name, m: State)
    requires Fine(g, s) && Fine(g, m) && Renews(g, s, d, at, n, m) && Replaced(g, s.v, s.cat, m.v, m.cat, d, at, n)
    requires d in m.cat.dirs
    ensures d in s.cat.dirs && at == EntryPlace(TreeIn(g, s)[d], n)
    ensures AliasFree(TreeIn(g, s)[d], n, at) <==> AliasFree(TreeIn(g, m)[d], n, at)
  {
  }

  /** What a write that reports success leaves: the file with the data when there is no data or no alias
    * is in the way, and else an empty file. */
  lemma WriteKeeps(g: Geometry, s: State, d: nat, at: nat, n: Name, data: seq<byte>, t: State)
    requires Fine(g, s) && Writes(g, s, d, at, n, data, t)
    ensures Fine(g, t) && d in s.cat.dirs && at == EntryPlace(TreeIn(g, s)[d], n)
    ensures if data == [] || AliasFree(TreeIn(g, s)[d], n, at)
      then FileWritten(g, s.v, s.cat, t.v, t.cat, d, at, n, data)
      else LeftEmpty(g, s.v, s.cat, t.v, t.cat, d, at, n)
  {
    hide Consistent, FileWritten, LeftEmpty, AliasFree, EmptyEntry, Fills, Renews, Replaced, EntryPlace, TreeOf;
    var m :| Renews(g, s, d, at, n, m) && (RenewKeeps(g, s, d, at, n, m); Finishes(g, m, d, at, n, data, t));
    RenewKeeps(g, s, d, at, n, m);
    RenewPlace(g, s, d, at, n, m);
    if data == [] {
      WrittenEmpty(g, s.v, s.cat, m.v, m.cat, d, at, n);
    } else {
      var b, picks :| Fills(g, m, d, at, n, data, b, picks, t);
      FillKeeps(g, m, d, at, n, data, b, picks, t);
      if AliasFree(TreeIn(g, s)[d], n, at) {
        WrittenTrans(g, s.v, s.cat, m.v, m.cat, t.v, t.cat, d, at, n, data);
      } else {
        LeftTrans(g, s.v, s.cat, m.v, m.cat, t.v, t.cat, d, at, n);
      }
    }
  }

  lemma ShortKeeps(g: Geometry, s: State, d: nat, at: nat, n: Name, data: seq<byte>, t: State)
    requires Fine(g, s) && RunsOut(g, s, d, at, n, data, t)
    ensures Fine(g, t) && d in s.cat.dirs && LeftEmpty(g, s.v, s.cat, t.v, t.cat, d, at, n)
  {
    hide Consistent, LeftEmpty, EmptyEntry, Renews, Replaced, TreeOf, LowestPicks, Chained, OnlyPicks, Filled;
    var m :| Renews(g, s, d, at, n, m) && Exhausts(g, m, data, t);
    RenewKeeps(g, s, d, at, n, m);
    RenewPlace(g, s, d, at, n, m);
    var picks :| Building(g, m.v, t.v, picks, data) && Full(g, t.v) && t.cat == m.cat && data != [];
    ShortOfClusters(g, m.v, m.cat, t.v, picks, data, d, at, n);
    LeftTrans(g, s.v, s.cat, m.v, m.cat, t.v, t.cat, d, at, n);
    LeftFine(g, s.v, s.cat, t.v, t.cat, d, at, n);
  }

  lemma PickLowest(g: Geometry, v: Vol, b: Vol, c: nat)
    requires Building(g, v, b, [c], [])
    ensures LowestFree(v.fat, c) && g.InData(c)
  {
    assert [c][0] == c;
    assert forall x :: 2 <= x < |v.fat| && v.fat[x] == 0 && x <= c ==> x in [c];
  }

  lemma MakeDirKeeps(g: Geometry, s: State, d: nat, at: nat, n: Name, c: nat, t: State)
    requires Fine(g, s) && MakesDir(g, s, d, at, n, c, t)
    ensures Fine(g, t) && DirCreated(g, s.v, s.cat, t.v, t.cat, d, at, n, c)
  {
    hide Consistent, DirCreated, FreshDir, WriteSlot, NewSlot, TreeOf, FirstFree;
    var b :| TakesCluster(g, s, d, c, b) && Places(g, s, d, at, n, c, b, t);
    BuiltKeeps(g, s.v, s.cat, b, [c], []);
    PickLowest(g, s.v, b, c);
    DirCreatedOk(g, s.v, s.cat, b, d, at, n, c);
  }

  lemma ChangedIn(g: Geometry, v: Vol, c: Catalog, w: Vol, next: Catalog, d: nat, n: Name)
    requires Changed(g, v, c, w, next, d, n)
    ensures d in c.dirs && Consistent(g, w, next)
  {
  }

  lemma ChangedByCreate(g: Geometry, s: State, d: nat, at: nat, n: Name)
    requires Fine(g, s) && CanCreate(g, s, d, at, n)
    requires var t := AfterCreate(g, s, d, at, n); Fine(g, t) && FileCreated(g, s.v, t.v, s.cat, d, at, n)
    ensures d in s.cat.dirs && var t := AfterCreate(g, s, d, at, n); Changed(g, s.v, s.cat, t.v, t.cat, d, n)
  {
  }

  lemma ChangedByDelete(g: Geometry, s: State, d: nat, at: nat, n: Name)
    requires Fine(g, s) && CanDelete(g, s, d, at, n)
    requires var t := AfterDelete(g, s, d, at, n); EntryDeleted(g, s.v, s.cat, t.v, t.cat, d, at, n)
    ensures d in s.cat.dirs && var t := AfterDelete(g, s, d, at, n); Changed(g, s.v, s.cat, t.v, t.cat, d, n)
  {
  }

  lemma TakenIn(g: Geometry, s: State, d: nat, c: nat, b: Vol)
    requires Fine(g, s) && TakesCluster(g, s, d, c, b)
    ensures d in s.cat.dirs && Building(g, s.v, b, [c], [])
  {
  }

  /** Every call, however it ends, keeps the volume consistent; and every path that does not look up
    * its name in its directory keeps its meaning. */
  lemma CallKeeps(g: Geometry, s: State, call: Call, t: State)
    requires Fine(g, s) && Does(g, s, call, t)
    ensures Fine(g, t)
    ensures !call.NoEffect? ==> call.d in s.cat.dirs && Changed(g, s.v, s.cat, t.v, t.cat, call.d, call.n)
  {
    hide Consistent, Changed, Renews, Fills, Writes, RunsOut, MakesDir, Building, AliasFree, CanDelete, CanCreate,
      TreeOf;
    match call
    case Create(d, at, n) =>
      CreateKeeps(g, s, d, at, n);
      ChangedByCreate(g, s, d, at, n);
    case Delete(d, at, n) =>
      DeleteKeeps(g, s, d, at, n);
      ChangedByDelete(g, s, d, at, n);
    case Write(d, at, n, data) =>
      WriteKeeps(g, s, d, at, n, data, t);
    case WriteShort(d, at, n, data) =>
      ShortKeeps(g, s, d, at, n, data, t);
    case MakeDir(d, at, n, c) =>
      MakeDirKeeps(g, s, d, at, n, c, t);
      ChangedIn(g, s.v, s.cat, t.v, t.cat, d, n);
    case MakeDirFull(d, n, c) =>
      TakenIn(g, s, d, c, t.v);
      BuiltChanged(g, s.v, s.cat, t.v, [c], [], d, n);
      ChangedIn(g, s.v, s.cat, t.v, t.cat, d, n);
    case NoEffect =>
  }

  // ── lost clusters ──

  /** What name `n` finds in `d` is a directory that names a chain. */
  ghost predicate CutsOff(g: Geometry, s: State, d: nat, n: Name)
    requires Fine(g, s)
  {
    && d in s.cat.dirs
    && var slots := TreeIn(g, s)[d]; var i := Find(slots, n);
      i < |slots| && !NamesNone(TreeIn(g, s), FirstOf(slots[i]))
  }

  /** The call leaves clusters in use that no entry names: it deletes or replaces a directory with chains
    * below it, an alias takes what it writes, its clusters run out, or its directory finds no slot. */
  ghost predicate Loses(g: Geometry, s: State, call: Call)
    requires Fine(g, s)
  {
    match call
    case Delete(d, at, n) => CutsOff(g, s, d, n)
    case Write(d, at, n, data) =>
      || CutsOff(g, s, d, n)
      || (data != [] && d in s.cat.dirs && !AliasFree(TreeIn(g, s)[d], n, EntryPlace(TreeIn(g, s)[d], n)))
    case WriteShort(d, at, n, data) =>
      || CutsOff(g, s, d, n)
      || (d in s.cat.dirs && FreeClusters(g, s.v) + OldLength(g, s.v, s.cat, d, n) > 0)
    case MakeDirFull(_, _, _) => true
    case _ => false
  }

  ghost predicate NoneLost(g: Geometry, s: State) { Covering(g, s.v.fat, s.cat.chains) }

  lemma ErasedCovering(g: Geometry, fat: seq<nat>, chains: map<nat, seq<nat>>, h: nat)
    requires ChainsOk(g, fat, chains) && h in chains
    ensures Covering(g, Erased(fat, chains[h]), chains - {h}) <==> Covering(g, fat, chains)
  {
    var e, rest := Erased(fat, chains[h]), chains - {h};
    if Covering(g, fat, chains) {
      forall c | g.InData(c) && e[c] != 0
        ensures exists x :: On(rest, x, c)
      {
        var x :| On(chains, x, c);
        assert On(rest, x, c);
      }
    }
    if Covering(g, e, rest) {
      forall c | g.InData(c) && fat[c] != 0
        ensures exists x :: On(chains, x, c)
      {
        if c in chains[h] {
          assert On(chains, h, c);
        } else {
          var x :| On(rest, x, c);
          assert On(chains, x, c);
        }
      }
    }
  }

  /** Cutting more off than the freed chain loses it. */
  lemma CutCovering(g: Geometry, fat: seq<nat>, chains: map<nat, seq<nat>>, h: nat, gone: set<nat>)
    requires ChainsOk(g, fat, chains) && h in chains && h in gone && gone <= chains.Keys
    ensures Covering(g, Erased(fat, chains[h]), chains - gone) <==> Covering(g, fat, chains) && gone == {h}
  {
    ErasedCovering(g, fat, chains, h);
    if gone != {h} {
      var y :| y in gone && y != h;
      assert HeadOk(g, fat, chains, y);
      HeadInChain(g, fat, chains, y);
      ChainUsed(g, fat, chains[y], y);
      assert On(chains, y, y);
      assert y in chains[h] ==> On(chains, h, y);
      forall x
        ensures !On(chains - gone, x, y)
      {
        assert On(chains - gone, x, y) ==> On(chains, x, y);
      }
    }
  }

  lemma ChainedCovering(g: Geometry, fat: seq<nat>, chains: map<nat, seq<nat>>, picks: seq<nat>, next: seq<nat>)
    requires ChainsOk(g, fat, chains) && |picks| > 0 && LowestPicks(g, fat, picks) && Chained(fat, picks, next)
    ensures Covering(g, next, chains[picks[0] := picks]) <==> Covering(g, fat, chains)
  {
    PicksFresh(g, fat, chains, picks);
    var all := chains[picks[0] := picks];
    if Covering(g, fat, chains) {
      forall c | g.InData(c) && next[c] != 0
        ensures exists h :: On(all, h, c)
      {
        if c in picks {
          assert On(all, picks[0], c);
        } else {
          var h :| On(chains, h, c);
          assert On(all, h, c);
        }
      }
    }
    if Covering(g, next, all) {
      forall c | g.InData(c) && fat[c] != 0
        ensures exists h :: On(chains, h, c)
      {
        assert c !in picks;
        var h :| On(all, h, c);
        assert On(chains, h, c);
      }
    }
  }

  /** Clusters that are taken and not named are lost. */
  lemma BuiltCovering(g: Geometry, v: Vol, c: Catalog, w: Vol, picks: seq<nat>, data: seq<byte>)
    requires Consistent(g, v, c) && Building(g, v, w, picks, data)
    ensures Covering(g, w.fat, c.chains) <==> Covering(g, v.fat, c.chains) && picks == []
  {
    if picks == [] {
      assert w.fat == v.fat;
    } else {
      PicksFresh(g, v.fat, c.chains, picks);
      PicksTaken(g, v.fat, picks, w.fat);
      assert picks[0] in picks && g.InData(picks[0]);
      assert forall h :: !On(c.chains, h, picks[0]);
    }
  }

  lemma CreateCovering(g: Geometry, s: State, d: nat, at: nat, n: Name)
    requires Fine(g, s) && CanCreate(g, s, d, at, n)
    ensures NoneLost(g, AfterCreate(g, s, d, at, n)) <==> NoneLost(g, s)
  {
  }

  lemma CutCoveringIn(g: Geometry, s: State, h: nat)
    requires Fine(g, s) && h in s.cat.chains && h in Gone(s.cat, h)
    ensures Covering(g, Erased(s.v.fat, s.cat.chains[h]), Without(s.cat, h).chains) <==>
      NoneLost(g, s) && Gone(s.cat, h) == {h}
  {
    hide Covering, TreeOk;
    CutCovering(g, s.v.fat, s.cat.chains, h, Gone(s.cat, h));
  }

  lemma DeleteGone(g: Geometry, s: State, d: nat, at: nat, n: Name)
    requires Fine(g, s) && CanDelete(g, s, d, at, n)
    ensures var h := FirstOf(TreeIn(g, s)[d][at]);
      if h == 0 then NamesNone(TreeIn(g, s), h)
      else h in Gone(s.cat, h) && (Gone(s.cat, h) == {h} <==> NamesNone(TreeIn(g, s), h))
  {
    hide Gone;
    var t := TreeIn(g, s);
    assert FirstMatch(t[d], n, at);
    if FirstOf(t[d][at]) != 0 {
      GoneCut(g.root, s.cat, t, g.ClusterBytes(), d, at);
      GoneAlone(g.root, s.cat, t, g.ClusterBytes(), d, at);
    }
  }

  lemma DeleteCovering(g: Geometry, s: State, d: nat, at: nat, n: Name)
    requires Fine(g, s) && CanDelete(g, s, d, at, n)
    ensures NoneLost(g, AfterDelete(g, s, d, at, n)) <==> NoneLost(g, s) && !CutsOff(g, s, d, n)
  {
    hide Covering, WriteSlot, Changed, Gone, NamesNone, TreeOf, Consistent;
    DeleteKeeps(g, s, d, at, n);
    DeleteGone(g, s, d, at, n);
    var h := FirstOf(TreeIn(g, s)[d][at]);
    if h != 0 {
      CutCoveringIn(g, s, h);
    }
  }

  lemma RenewCovering(g: Geometry, s: State, d: nat, at: nat, n: Name, m: State)
    requires Fine(g, s) && Renews(g, s, d, at, n, m)
    ensures NoneLost(g, m) <==> NoneLost(g, s) && !CutsOff(g, s, d, n)
  {
    hide Consistent, NamesNone, AfterCreate, AfterDelete, CanCreate, CanDelete, NoneLost;
    var i := Find(TreeIn(g, s)[d], n);
    if i == |TreeIn(g, s)[d]| {
      CreateCovering(g, s, d, at, n);
    } else {
      DeleteKeeps(g, s, d, i, n);
      DeleteCovering(g, s, d, i, n);
      CreateCovering(g, AfterDelete(g, s, d, i, n), d, at, n);
    }
  }

  lemma FillCovering(g: Geometry, m: State, d: nat, at: nat, n: Name, data: seq<byte>, b: Vol, picks: seq<nat>,
      t: State)
    requires Fine(g, m) && EmptyEntry(g, m.v, m.cat, d, at, n) && d in m.cat.dirs
    requires Fills(g, m, d, at, n, data, b, picks, t)
    ensures NoneLost(g, t) <==> NoneLost(g, m) && AliasFree(TreeIn(g, m)[d], n, at)
  {
    hide AliasFree, EmptyEntry, TreeOf, Covering, WriteSlot, Stamp;
    FillKeeps(g, m, d, at, n, data, b, picks, t);
    BuiltCovering(g, m.v, m.cat, b, picks, data);
    ChainedCovering(g, m.v.fat, m.cat.chains, picks, b.fat);
    var hit: nat :| Patches(g, m, d, at, n, data, b, picks, hit, t);
  }

  lemma WriteCovering(g: Geometry, s: State, d: nat, at: nat, n: Name, data: seq<byte>, t: State)
    requires Fine(g, s) && Writes(g, s, d, at, n, data, t)
    ensures NoneLost(g, t) <==> NoneLost(g, s) && !Loses(g, s, Write(d, at, n, data))
  {
    hide Consistent, AliasFree, EmptyEntry, Renews, Replaced, EntryPlace, TreeOf, Covering, Building;
    var m :| Renews(g, s, d, at, n, m) && (RenewKeeps(g, s, d, at, n, m); Finishes(g, m, d, at, n, data, t));
    RenewKeeps(g, s, d, at, n, m);
    RenewPlace(g, s, d, at, n, m);
    RenewCovering(g, s, d, at, n, m);
    if data != [] {
      var b, picks :| Fills(g, m, d, at, n, data, b, picks, t);
      FillCovering(g, m, d, at, n, data, b, picks, t);
    }
  }

  lemma FullCount(g: Geometry, v: Vol)
    requires Shaped(g, v)
    ensures Full(g, v) <==> FreeClusters(g, v) == 0
  {
    if Full(g, v) {
      assert forall c :: 2 <= c < g.dataEnd ==> g.InData(c);
      NoneCounted(v.fat, 2, g.dataEnd);
    } else {
      var c :| g.InData(c) && v.fat[c] == 0;
      CountPositive(v.fat, 2, g.dataEnd, c);
    }
  }

  /** When the clusters run out, those that were free are lost. */
  lemma ExhaustCovering(g: Geometry, m: State, data: seq<byte>, t: State)
    requires Fine(g, m) && Exhausts(g, m, data, t)
    ensures NoneLost(g, t) <==> NoneLost(g, m) && FreeClusters(g, m.v) == 0
  {
    hide Covering, TreeOk, TreeOf, Filled, OnlyPicks, Headed, Disjoint;
    var picks :| Building(g, m.v, t.v, picks, data) && Full(g, t.v) && t.cat == m.cat && data != [];
    BuiltCovering(g, m.v, m.cat, t.v, picks, data);
    CountChained(g, m.v.fat, picks, t.v.fat);
    FullCount(g, t.v);
  }

  lemma ShortCovering(g: Geometry, s: State, d: nat, at: nat, n: Name, data: seq<byte>, t: State)
    requires Fine(g, s) && RunsOut(g, s, d, at, n, data, t)
    ensures NoneLost(g, t) <==> NoneLost(g, s) && !Loses(g, s, WriteShort(d, at, n, data))
  {
    hide Consistent, Renews, TreeOf, Covering, Exhausts, EmptyEntry, Find;
    var m :| Renews(g, s, d, at, n, m) && Exhausts(g, m, data, t);
    RenewKeeps(g, s, d, at, n, m);
    RenewPlace(g, s, d, at, n, m);
    RenewCovering(g, s, d, at, n, m);
    ExhaustCovering(g, m, data, t);
  }

  lemma DirCovering(g: Geometry, s: State, d: nat, c: nat, b: Vol)
    requires Fine(g, s) && TakesCluster(g, s, d, c, b)
    ensures Covering(g, b.fat, s.cat.chains[c := [c]]) <==> NoneLost(g, s)
  {
    ChainedCovering(g, s.v.fat, s.cat.chains, [c], b.fat);
    assert [c][0] == c;
  }

  /** Clusters stay accounted for exactly when they were before and the call loses none: what is lost
    * stays lost. */
  lemma CallCovering(g: Geometry, s: State, call: Call, t: State)
    requires Fine(g, s) && Does(g, s, call, t)
    ensures NoneLost(g, t) <==> NoneLost(g, s) && !Loses(g, s, call)
  {
    hide Consistent, Renews, Fills, Writes, RunsOut, AliasFree, CanDelete, CanCreate, TreeOf, Covering, Chained,
      LowestPicks;
    match call
    case Create(d, at, n) =>
      CreateCovering(g, s, d, at, n);
    case Delete(d, at, n) =>
      DeleteCovering(g, s, d, at, n);
    case Write(d, at, n, data) =>
      WriteCovering(g, s, d, at, n, data, t);
    case WriteShort(d, at, n, data) =>
      ShortCovering(g, s, d, at, n, data, t);
    case MakeDir(d, at, n, c) =>
      var b :| TakesCluster(g, s, d, c, b) && Places(g, s, d, at, n, c, b, t);
      DirCovering(g, s, d, c, b);
    case MakeDirFull(d, n, c) =>
      BuiltCovering(g, s.v, s.cat, t.v, [c], []);
    case NoEffect =>
  }

  // ── past the data area ──

  /** The entries of the FAT that stand for no cluster of the data area are as they were. */
  ghost predicate SameTail(g: Geometry, fat: seq<nat>, next: seq<nat>)
  {
    |next| == |fat| && forall c :: 0 <= c < |fat| && !g.InData(c) ==> next[c] == fat[c]
  }

  lemma BuiltTail(g: Geometry, v: Vol, b: Vol, picks: seq<nat>, data: seq<byte>)
    requires Building(g, v, b, picks, data)
    ensures SameTail(g, v.fat, b.fat)
  {
    forall c | 0 <= c < |v.fat| && !g.InData(c)
      ensures b.fat[c] == v.fat[c]
    {
      assert c !in picks;
    }
  }

  lemma CreateTail(g: Geometry, s: State, d: nat, at: nat, n: Name)
    requires Fine(g, s) && CanCreate(g, s, d, at, n)
    ensures SameTail(g, s.v.fat, AfterCreate(g, s, d, at, n).v.fat)
  {
  }

  lemma DeleteTail(g: Geometry, s: State, d: nat, at: nat, n: Name)
    requires Fine(g, s) && CanDelete(g, s, d, at, n)
    ensures SameTail(g, s.v.fat, AfterDelete(g, s, d, at, n).v.fat)
  {
    hide TreeOf, TreeOk, FreeFrom, WriteSlot, Untouched, Aside, Without;
    DeleteKeeps(g, s, d, at, n);
    var h := FirstOf(TreeIn(g, s)[d][at]);
    if h != 0 {
      assert HeadOk(g, s.v.fat, s.cat.chains, h);
      ChainAllUsed(g, s.v.fat, s.cat.chains[h]);
    }
  }

  lemma RenewTail(g: Geometry, s: State, d: nat, at: nat, n: Name, m: State)
    requires Fine(g, s) && Renews(g, s, d, at, n, m)
    ensures SameTail(g, s.v.fat, m.v.fat)
  {
    hide Consistent, AfterCreate, AfterDelete, CanCreate, CanDelete;
    var i := Find(TreeIn(g, s)[d], n);
    if i == |TreeIn(g, s)[d]| {
      CreateTail(g, s, d, at, n);
    } else {
      DeleteKeeps(g, s, d, i, n);
      DeleteTail(g, s, d, i, n);
      CreateTail(g, AfterDelete(g, s, d, i, n), d, at, n);
    }
  }

  lemma FillTail(g: Geometry, m: State, d: nat, at: nat, n: Name, data: seq<byte>, b: Vol, picks: seq<nat>, t: State)
    requires Fine(g, m) && d in m.cat.dirs && Fills(g, m, d, at, n, data, b, picks, t)
    ensures SameTail(g, m.v.fat, t.v.fat)
  {
    hide Consistent, TreeOf, Building, WriteSlot, Stamp;
    var hit: nat :| Patches(g, m, d, at, n, data, b, picks, hit, t);
    BuiltTail(g, m.v, b, picks, data);
  }

  lemma TailTrans(g: Geometry, a: seq<nat>, b: seq<nat>, c: seq<nat>)
    requires SameTail(g, a, b) && SameTail(g, b, c)
    ensures SameTail(g, a, c)
  {
  }

  lemma TailStays(g: Geometry, fat: seq<nat>)
    ensures SameTail(g, fat, fat)
  {
  }

  lemma WriteTail(g: Geometry, s: State, d: nat, at: nat, n: Name, data: seq<byte>, t: State)
    requires Fine(g, s) && Writes(g, s, d, at, n, data, t)
    ensures SameTail(g, s.v.fat, t.v.fat)
  {
    hide Consistent, Renews, Fills, TreeOf, SameTail, EmptyEntry, Replaced;
    var m :| Renews(g, s, d, at, n, m) && (RenewKeeps(g, s, d, at, n, m); Finishes(g, m, d, at, n, data, t));
    RenewKeeps(g, s, d, at, n, m);
    RenewTail(g, s, d, at, n, m);
    if data != [] {
      var b, picks :| Fills(g, m, d, at, n, data, b, picks, t);
      FillTail(g, m, d, at, n, data, b, picks, t);
      TailTrans(g, s.v.fat, m.v.fat, t.v.fat);
    }
  }

  lemma ShortTail(g: Geometry, s: State, d: nat, at: nat, n: Name, data: seq<byte>, t: State)
    requires Fine(g, s) && RunsOut(g, s, d, at, n, data, t)
    ensures SameTail(g, s.v.fat, t.v.fat)
  {
    hide Consistent, Renews, TreeOf, SameTail, LowestPicks, Chained, OnlyPicks, Filled;
    var m :| Renews(g, s, d, at, n, m) && Exhausts(g, m, data, t);
    RenewTail(g, s, d, at, n, m);
    var picks :| Building(g, m.v, t.v, picks, data) && Full(g, t.v) && t.cat == m.cat && data != [];
    BuiltTail(g, m.v, t.v, picks, data);
    TailTrans(g, s.v.fat, m.v.fat, t.v.fat);
  }

  lemma TakenTail(g: Geometry, s: State, d: nat, c: nat, b: Vol)
    requires Fine(g, s) && TakesCluster(g, s, d, c, b)
    ensures SameTail(g, s.v.fat, b.fat)
  {
    hide Consistent, TreeOf, SameTail;
    TakenIn(g, s, d, c, b);
    BuiltTail(g, s.v, b, [c], []);
  }

  /** No call changes an entry of the FAT outside the data area. */
  lemma CallTail(g: Geometry, s: State, call: Call, t: State)
    requires Fine(g, s) && Does(g, s, call, t)
    ensures SameTail(g, s.v.fat, t.v.fat)
  {
    hide Consistent, Renews, Writes, RunsOut, CanDelete, CanCreate, AfterCreate, AfterDelete, TreeOf, SameTail,
      TakesCluster;
    match call
    case Create(d, at, n) =>
      CreateTail(g, s, d, at, n);
    case Delete(d, at, n) =>
      DeleteTail(g, s, d, at, n);
    case Write(d, at, n, data) =>
      WriteTail(g, s, d, at, n, data, t);
    case WriteShort(d, at, n, data) =>
      ShortTail(g, s, d, at, n, data, t);
    case MakeDir(d, at, n, c) =>
      var b :| TakesCluster(g, s, d, c, b) && Places(g, s, d, at, n, c, b, t);
      TakenTail(g, s, d, c, b);
    case MakeDirFull(d, n, c) =>
      TakenTail(g, s, d, c, t.v);
    case NoEffect =>
      TailStays(g, s.v.fat);
  }

  /** So whether the scan can leave the data area stays as it was. */
  lemma TailUsedKept(g: Geometry, v: Vol, w: Vol)
    requires Shaped(g, v) && Shaped(g, w) && SameTail(g, v.fat, w.fat)
    ensures TailUsed(g, w) <==> TailUsed(g, v)
  {
    assert forall c :: g.dataEnd <= c ==> !g.InData(c);
  }

  // ── when the driver's calls lose clusters ──

  /** The clusters that a write to `n` in `d` may use: the free ones and those of what it replaces. */
  ghost function SpaceFor(g: Geometry, s: State, d: nat, n: Name): nat
    requires Fine(g, s) && d in s.cat.dirs
  {
    FreeClusters(g, s.v) + OldLength(g, s.v, s.cat, d, n)
  }

  /** What a write of `data` to `n` in `d` will lose clusters by, told before the call: what it replaces is a
    * directory that names chains; the space suffices and an alias is in the way; or it does not suffice and
    * there is some. */
  ghost predicate WriteLoses(g: Geometry, s: State, d: nat, n: Name, data: seq<byte>)
    requires Fine(g, s) && d in s.cat.dirs
  {
    || CutsOff(g, s, d, n)
    || if SpaceFor(g, s, d, n) >= ClustersFor(g, |data|)
       then data != [] && !AliasFree(TreeIn(g, s)[d], n, EntryPlace(TreeIn(g, s)[d], n))
       else SpaceFor(g, s, d, n) > 0
  }

  lemma WriteLosesIs(g: Geometry, s: State, d: nat, at: nat, n: Name, data: seq<byte>)
    requires Fine(g, s) && d in s.cat.dirs
    ensures SpaceFor(g, s, d, n) >= ClustersFor(g, |data|) ==>
      (WriteLoses(g, s, d, n, data) <==> Loses(g, s, Write(d, at, n, data)))
    ensures SpaceFor(g, s, d, n) < ClustersFor(g, |data|) ==>
      (WriteLoses(g, s, d, n, data) <==> Loses(g, s, WriteShort(d, at, n, data)))
  {
  }

  /** Nothing past the data area has changed, and clusters are lost exactly when some were or the call
    * loses some. */
  ghost predicate Accounts(g: Geometry, s: State, t: State, loses: bool)
  {
    SameTail(g, s.v.fat, t.v.fat) && (NoneLost(g, t) <==> NoneLost(g, s) && !loses)
  }

  lemma CallAccounts(g: Geometry, s: State, call: Call, t: State)
    requires Fine(g, s) && Does(g, s, call, t)
    ensures Accounts(g, s, t, Loses(g, s, call))
  {
    hide Consistent, Does, Loses, NoneLost, SameTail;
    CallTail(g, s, call, t);
    CallCovering(g, s, call, t);
  }

  /** For a write, told before the call. */
  lemma WriteAccounts(g: Geometry, s: State, d: nat, at: nat, n: Name, data: seq<byte>, t: State, ok: bool)
    requires Fine(g, s) && d in s.cat.dirs && (ok <==> SpaceFor(g, s, d, n) >= ClustersFor(g, |data|))
    requires if ok then Does(g, s, Write(d, at, n, data), t) else Does(g, s, WriteShort(d, at, n, data), t)
    ensures Accounts(g, s, t, WriteLoses(g, s, d, n, data))
  {
    hide Consistent, Does, Loses, WriteLoses, Accounts, SpaceFor, ClustersFor;
    WriteLosesIs(g, s, d, at, n, data);
    if ok {
      CallAccounts(g, s, Write(d, at, n, data), t);
    } else {
      CallAccounts(g, s, WriteShort(d, at, n, data), t);
    }
  }
}
