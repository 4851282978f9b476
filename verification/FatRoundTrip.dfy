/**
  * Writing a file and reading it back through the driver, in reads of any sizes.
  */
module FatRoundTrip {
  import opened Bytes
  import opened FatLayout
  import opened FatDirectory
  import opened FatChains
  import opened FatTree
  import opened FatVolume
  import opened FatSteps
  import opened FatStream
  import opened FatScan
  import opened FatFill
  import opened FatWrite
  import opened FatCalls
  import opened FatMeaning
  import opened FatRuns
  import opened FatNames
  import opened FatPaths
  import opened FatDriver

  // ── the path of writing and the path of opening ──

  lemma EncodeSnoc(b: seq<Text>, f: Text)
    ensures Encode(b + [f]) == Encode(b) + [ShortName(f)]
  {
  }

  lemma DroppedLength(a: seq<Text>, f: Text)
    requires |a| > 0
    ensures |Dropped(a + [f])| == |Dropped(a)| + 1 <==> Dropped(a + [f]) == Dropped(a) + [f]
  {
    var n := |a| - 1;
    if f == [] {
      assert Dropped(a + [f]) == a;
      assert a[n] == [] ==> a == a[..n] + [f];
    } else {
      assert a[n] != [] ==> Dropped(a) == a;
    }
  }

  /** Where the two differ, they differ in the number of components. */
  lemma SplitLengths(path: Text)
    ensures |Components(path)| == |DirComponents(path)| + 1 <==>
      Components(path) == DirComponents(path) + [FileName(path)]
  {
    if LastIndex(path, SLASH) <= 0 {
      ShallowAgrees(path);
    } else {
      StrippedJoin(path);
      StrippedOver(DirPath(path), FileName(path));
      DirSplit(path);
      var q, f := Stripped(DirPath(path)), FileName(path);
      FieldsJoin(q, f);
      SplitFields(q + [SLASH] + f);
      SplitFields(q);
      DroppedLength(Fields(q), f);
    }
  }

  /** Opening looks up the names that writing used exactly when either the file name is not empty or
    * the directory part ends in a slash, not both. */
  lemma NamesAgree(path: Text)
    ensures Encode(Components(path)) == Encode(DirComponents(path)) + [ShortName(FileName(path))] <==>
      ((FileName(path) != []) != EndsInSlash(DirPath(path)))
  {
    hide Split, Components, DirComponents, ShortName, EndsInSlash, DirPath, FileName;
    OpenAgrees(path);
    var a, b, f := Components(path), DirComponents(path), FileName(path);
    if a == b + [f] {
      EncodeSnoc(b, f);
    } else {
      SplitLengths(path);
      assert |Encode(a)| == |a| && |Encode(b)| == |b|;
    }
  }

  /** "a/": writing makes an entry with a blank name inside a, and opening opens a itself.
    * "a//b": writing makes b inside a, and opening looks for b below a blank name. */
  lemma SlashesDisagree()
    ensures var a: Text := [65, SLASH]; Components(a) == [[65]] && DirComponents(a) + [FileName(a)] == [[65], []]
    ensures var b: Text := [65, SLASH, SLASH, 66];
      Components(b) == [[65], [], [66]] && DirComponents(b) + [FileName(b)] == [[65], [66]]
  {
    var a: Text := [65, SLASH];
    LastIndexIs(a, SLASH, 1);
    SplitPlain([65]);
    FirstSlashIs(a, 1);
    assert Split(a) == [a[..1]] + Split([]);
    DirSplit(a);
    assert DirPath(a) == [65] && FileName(a) == [] && DirComponents(a) == [[65]];
    assert [[65]] + [FileName(a)] == [[65], []];
    var b: Text := [65, SLASH, SLASH, 66];
    LastIndexIs(b, SLASH, 2);
    SplitPlain([66]);
    FirstSlashIs(b, 1);
    var r := AfterFirst(b);
    assert r == [SLASH, 66];
    FirstSlashIs(r, 0);
    assert AfterFirst(r) == [66] && r[..0] == [];
    assert Split(r) == [r[..0]] + Split([66]);
    assert Split(b) == [b[..1]] + Split(r);
    assert b[..1] == [65] && [b[..1]] + ([r[..0]] + [[66]]) == [[65], [], [66]];
    assert DirPath(b) == a && FileName(b) == [66];
    DirSplit(b);
  }

  /** What lies on the way to a directory is there. */
  lemma {:induction false} PrefixReached(t: Tree, root: nat, way: seq<Name>, k: nat)
    requires root in t && k <= |way| && DirAt(t, root, way).At?
    ensures DirAt(t, root, way[..k]).At?
    decreases |way|
  {
    if k < |way| {
      PrefixReached(t, root, way[..|way| - 1], k);
      assert way[..|way| - 1][..k] == way[..k];
    } else {
      assert way[..k] == way;
    }
  }

  lemma ReachedSafe(t: Tree, root: nat, way: seq<Name>, d: nat, n: Name)
    requires root in t && NoDots(way) && !IsDotName(n) && DirAt(t, root, way) == At(d) && Find(t[d], n) < |t[d]|
    ensures PathSafe(t, root, way + [n])
  {
    var names := way + [n];
    forall k | 0 <= k < |names|
      ensures DirAt(t, root, names[..k]).At?
    {
      assert names[..k] == way[..k];
      PrefixReached(t, root, way, k);
    }
    if way != [] {
      assert names[..1] == way[..1];
      PrefixReached(t, root, way, 1);
      assert way[..1][..0] == [];
    }
  }

  /** A written path can be walked by opening. */
  lemma WrittenSafe(g: Geometry, v: Vol, c: Catalog, w: Vol, next: Catalog, way: seq<Name>, d: nat, at: nat, n: Name,
      data: seq<byte>)
    requires FileWritten(g, v, c, w, next, d, at, n, data) && Leads(g, v, c, way, d) && !IsDotName(n)
    ensures Rooted(g, w, next) && PathSafe(TreeOf(g, w.data, next), g.root, way + [n])
    ensures d in next.dirs && at < |TreeOf(g, w.data, next)[d]|
    ensures Lookup(TreeOf(g, w.data, next), g.root, way + [n]) == Hit(d, at)
  {
    StillLeads(g, v, c, w, next, way, d, n);
    LastMeaning(g, w, next, way, d, n);
    ReachedSafe(TreeOf(g, w.data, next), g.root, way, d, n);
  }

  // ── reading a file to its end ──

  /** What the first `k` reads ask for. */
  ghost function Asked(cuts: seq<nat>, k: nat): nat
    requires k <= |cuts|
  {
    if k == 0 then 0 else Asked(cuts, k - 1) + cuts[k - 1]
  }

  /** Where the first `k` reads get to: never past the end. */
  ghost function Upto(cuts: seq<nat>, k: nat, size: nat): (n: nat)
    requires k <= |cuts|
    ensures n <= size
  {
    if Asked(cuts, k) < size then Asked(cuts, k) else size
  }

  /** The file of a slot stands open at byte `pos`. */
  ghost predicate HoldsFile(drv: Driver, file: FileData, ch: seq<nat>, data: seq<byte>, pos: nat)
    reads drv`disk, drv`cachePos, drv.fatCache, file
  {
    && drv.Ready() && drv.Readable(file, ch)
    && file != drv.rootDir && !file.isDirectory
    && file.position == pos <= file.size == |data|
    && Content(Sectors(drv.View().data, ch, drv.g.spc), |data|) == data
  }

  /** A prefix of the stream of a chain is the content of that size. */
  lemma StreamContent(g: Geometry, vdata: seq<seq<Sector>>, ch: seq<nat>, data: seq<byte>, from: nat, to: nat)
    requires ChainShaped(vdata, ch, g.spc) && Content(Sectors(vdata, ch, g.spc), |data|) == data
    requires from <= to <= |data| <= Total(g, ch)
    ensures Stream(g, vdata, ch)[from..to] == data[from..to]
  {
    var s := Stream(g, vdata, ch);
    forall i | from <= i < to
      ensures s[i] == data[i]
    {
    }
  }

  /** One read: the next bytes of the file, as many as asked for or as are left. */
  method ReadOn(drv: Driver, file: FileData, count: nat, ghost ch: seq<nat>, ghost data: seq<byte>, ghost pos: nat)
    returns (out: seq<byte>)
    requires HoldsFile(drv, file, ch, data, pos)
    modifies drv`cachePos, drv.fatCache, file`position, file`currentCluster, file`currentSector, file`size, file`buffer
    ensures var stop := if pos + count < |data| then pos + count else |data|;
      HoldsFile(drv, file, ch, data, stop) && out == data[pos..stop]
  {
    hide ViewOf, Shaped, ChainOk, Stream, Content;
    out := drv.Read(file, count, ch);
    StreamContent(drv.g, drv.View().data, ch, data, pos, file.position);
  }

  /** The bytes that the `k`-th read is to give. */
  ghost function Cut(data: seq<byte>, cuts: seq<nat>, k: nat): seq<byte>
    requires k < |cuts|
  {
    data[Upto(cuts, k, |data|)..Upto(cuts, k + 1, |data|)]
  }

  /** Each piece is what its read is to give. */
  ghost predicate PiecesOf(pieces: seq<seq<byte>>, data: seq<byte>, cuts: seq<nat>)
  {
    |pieces| <= |cuts| && forall k :: 0 <= k < |pieces| ==> pieces[k] == Cut(data, cuts, k)
  }

  lemma PiecesOn(pieces: seq<seq<byte>>, data: seq<byte>, cuts: seq<nat>, out: seq<byte>)
    requires PiecesOf(pieces, data, cuts) && |pieces| < |cuts| && out == Cut(data, cuts, |pieces|)
    ensures PiecesOf(pieces + [out], data, cuts)
  {
  }

  lemma NoPieces(data: seq<byte>, cuts: seq<nat>)
    ensures PiecesOf([], data, cuts)
  {
  }

  lemma HoldsReady(drv: Driver, file: FileData, ch: seq<nat>, data: seq<byte>, pos: nat)
    requires HoldsFile(drv, file, ch, data, pos)
    ensures drv.Ready()
  {
  }

  /** Reading in pieces of any sizes gives the bytes of the file in order, and nothing behind them. */
  method ReadPieces(drv: Driver, file: FileData, cuts: seq<nat>, ghost ch: seq<nat>, ghost data: seq<byte>)
    returns (pieces: seq<seq<byte>>)
    requires HoldsFile(drv, file, ch, data, 0)
    modifies drv`cachePos, drv.fatCache, file`position, file`currentCluster, file`currentSector, file`size, file`buffer
    ensures drv.Ready() && |pieces| == |cuts| && PiecesOf(pieces, data, cuts)
  {
    hide HoldsFile, Driver.Ready, PiecesOf;
    NoPieces(data, cuts);
    pieces := [];
    HoldsReady(drv, file, ch, data, 0);
    while |pieces| < |cuts|
      invariant |pieces| <= |cuts| && drv.Ready()
      invariant HoldsFile(drv, file, ch, data, Upto(cuts, |pieces|, |data|))
      invariant PiecesOf(pieces, data, cuts)
    {
      var i := |pieces|;
      var out := ReadOn(drv, file, cuts[i], ch, data, Upto(cuts, i, |data|));
      HoldsReady(drv, file, ch, data, Upto(cuts, i + 1, |data|));
      PiecesOn(pieces, data, cuts, out);
      pieces := pieces + [out];
    }
  }

  ghost function Joined(pieces: seq<seq<byte>>): seq<byte>
  {
    if pieces == [] then [] else Joined(pieces[..|pieces| - 1]) + pieces[|pieces| - 1]
  }

  /** The pieces put together are what one read of their total size gives. */
  lemma {:induction false} PiecesJoin(pieces: seq<seq<byte>>, data: seq<byte>, cuts: seq<nat>)
    requires PiecesOf(pieces, data, cuts)
    ensures Joined(pieces) == data[..Upto(cuts, |pieces|, |data|)]
    decreases |pieces|
  {
    if |pieces| > 0 {
      var n := |pieces| - 1;
      PiecesJoin(pieces[..n], data, cuts);
      assert pieces[n] == Cut(data, cuts, n);
    }
  }

  /** However a sequence of reads is cut, once it asks for the whole file it gives the whole file. */
  lemma PiecesWhole(pieces: seq<seq<byte>>, data: seq<byte>, cuts: seq<nat>)
    requires PiecesOf(pieces, data, cuts) && |pieces| == |cuts|
    ensures Asked(cuts, |cuts|) >= |data| ==> Joined(pieces) == data
    ensures forall k :: 0 <= k < |cuts| && Asked(cuts, k) >= |data| ==> pieces[k] == []
  {
    PiecesJoin(pieces, data, cuts);
    forall k | 0 <= k < |cuts| && Asked(cuts, k) >= |data|
      ensures pieces[k] == []
    {
      assert pieces[k] == Cut(data, cuts, k);
    }
  }

  // ── writing, opening, reading ──

  /** The slot that opening hits is the written file, standing at its start. */
  lemma OpenedWritten(drv: Driver, file: FileData, s: Slot, data: seq<byte>, d: nat, i: nat)
    requires drv.Ready() && Sound(drv.g, drv.View(), drv.cat) && file != drv.rootDir
    requires drv.Opens(file, s, drv.View(), SlotChain(drv.cat, s))
    requires EntryOk(drv.cat, s, d, i, drv.g.ClusterBytes()) && !IsDir(s) && SizeOf(s) == |data|
    requires SlotMeaning(drv.g, drv.View().data, drv.cat.chains, s) == File(data)
    ensures HoldsFile(drv, file, SlotChain(drv.cat, s), data, 0)
  {
    hide ViewOf, ChainOk;
    var g, v, cat := drv.g, drv.View(), drv.cat;
    EntryOpenable(g, v, cat, s, d, i);
    if FirstOf(s) !in cat.chains {
      assert data == [];
    }
  }

  lemma WrittenEntry(g: Geometry, v: Vol, c: Catalog, w: Vol, next: Catalog, d: nat, at: nat, n: Name, data: seq<byte>)
    requires FileWritten(g, v, c, w, next, d, at, n, data) && !IsDotName(n)
    ensures Consistent(g, w, next) && d in next.dirs && at < |TreeOf(g, w.data, next)[d]|
    ensures var s := TreeOf(g, w.data, next)[d][at];
      && EntryOk(next, s, d, at, g.ClusterBytes()) && !IsDir(s) && SizeOf(s) == |data|
      && SlotMeaning(g, w.data, next.chains, s) == File(data)
  {
    var t := TreeOf(g, w.data, next);
    assert FirstMatch(t[d], n, at);
  }

  lemma StillLeadsEmpty(g: Geometry, v: Vol, c: Catalog, w: Vol, next: Catalog, way: seq<Name>, d: nat, at: nat,
      n: Name)
    requires LeftEmpty(g, v, c, w, next, d, at, n) && Leads(g, v, c, way, d)
    ensures Consistent(g, w, next) && Leads(g, w, next, way, d)
    ensures at < |TreeOf(g, w.data, next)[d]| && Find(TreeOf(g, w.data, next)[d], n) == at
    ensures TreeOf(g, w.data, next)[d][at] == NewSlot(n, ATTR_ARCHIVE, 0)
  {
    StillLeads(g, v, c, w, next, way, d, n);
  }

  lemma EmptySafe(g: Geometry, w: Vol, next: Catalog, way: seq<Name>, d: nat, at: nat, n: Name)
    requires Consistent(g, w, next) && Leads(g, w, next, way, d) && !IsDotName(n) && n[0] != 0 && n[0] != DELETED
    requires at < |TreeOf(g, w.data, next)[d]| && Find(TreeOf(g, w.data, next)[d], n) == at
    requires TreeOf(g, w.data, next)[d][at] == NewSlot(n, ATTR_ARCHIVE, 0)
    ensures PathSafe(TreeOf(g, w.data, next), g.root, way + [n]) && d in next.dirs
    ensures Lookup(TreeOf(g, w.data, next), g.root, way + [n]) == Hit(d, at)
    ensures var s := TreeOf(g, w.data, next)[d][at];
      && EntryOk(next, s, d, at, g.ClusterBytes()) && !IsDir(s) && SizeOf(s) == 0
      && SlotMeaning(g, w.data, next.chains, s) == File([])
  {
    var t := TreeOf(g, w.data, next);
    LookupLast(t, g.root, way, d, n);
    ReachedSafe(t, g.root, way, d, n);
    EmptySlot(g, w, next, n);
  }

  /** The path names slot `at` of `d`, the sound entry of a file that holds `data`. */
  ghost predicate Leaf(g: Geometry, w: Vol, next: Catalog, names: seq<Name>, d: nat, at: nat, data: seq<byte>)
    requires Rooted(g, w, next)
  {
    var t := TreeOf(g, w.data, next);
    && names != [] && PathSafe(t, g.root, names) && Lookup(t, g.root, names) == Hit(d, at)
    && d in next.dirs && at < |t[d]| && EntryOk(next, t[d][at], d, at, g.ClusterBytes())
    && !IsDir(t[d][at]) && SizeOf(t[d][at]) == |data|
    && SlotMeaning(g, w.data, next.chains, t[d][at]) == File(data)
  }

  lemma WrittenLeaf(g: Geometry, v: Vol, c: Catalog, w: Vol, next: Catalog, way: seq<Name>, d: nat, at: nat, n: Name,
      data: seq<byte>)
    requires FileWritten(g, v, c, w, next, d, at, n, data) && Leads(g, v, c, way, d) && !IsDotName(n)
    ensures Rooted(g, w, next) && Leaf(g, w, next, way + [n], d, at, data)
    ensures MeaningOf(g, w, next, way + [n]) == File(data)
  {
    hide FileWritten, TreeOf, PathSafe, Lookup, EntryOk, MeaningOf, Leads, SlotMeaning;
    WrittenSafe(g, v, c, w, next, way, d, at, n, data);
    WrittenEntry(g, v, c, w, next, d, at, n, data);
    WrittenMeaning(g, v, c, w, next, way, d, at, n, data);
  }

  lemma EmptyLeaf(g: Geometry, v: Vol, c: Catalog, w: Vol, next: Catalog, way: seq<Name>, d: nat, at: nat, n: Name)
    requires LeftEmpty(g, v, c, w, next, d, at, n) && Leads(g, v, c, way, d) && !IsDotName(n) && n[0] != 0
    requires n[0] != DELETED
    ensures Rooted(g, w, next) && Leaf(g, w, next, way + [n], d, at, [])
  {
    hide LeftEmpty, TreeOf, PathSafe, Lookup, EntryOk, Leads, SlotMeaning, Find, Founded, TreeOk;
    StillLeadsEmpty(g, v, c, w, next, way, d, at, n);
    ConsistentRooted(g, w, next);
    EmptySafe(g, w, next, way, d, at, n);
  }

  /** Opens a path that names a file and reads it in pieces. */
  method OpenRead(drv: Driver, path: Text, cuts: seq<nat>, ghost d: nat, ghost at: nat, ghost data: seq<byte>)
    returns (pieces: seq<seq<byte>>)
    requires drv.Usable() && |path| < MAX_PATH
    requires Rooted(drv.g, drv.View(), drv.cat) && Leaf(drv.g, drv.View(), drv.cat, drv.Names(path), d, at, data)
    requires drv.Closed() != {}
    modifies drv`cachePos, drv.fatCache, drv.rootDir, drv.Closed()
    ensures drv.Ready() && drv.RootReady()
    ensures |pieces| == |cuts| && PiecesOf(pieces, data, cuts)
  {
    hide ViewOf, Shaped, TreeOk, Find, PathSafe, SlotsOf, ShortName, Driver.View, Lookup, DirAt, TreeOf, Consistent,
      Sound, Driver.Tree, Split, HoldsFile, Driver.Opens, SlotMeaning, EntryOk, Driver.Ready;
    drv.UsableRoot();
    ghost var v, t, names := drv.View(), drv.Tree(), drv.Names(path);
    var file := drv.Open(path);
    drv.UsableRoot();
    assert names[..|names|] == names;
    ghost var s := t[d][at];
    assert drv.Opens(file, s, v, SlotChain(drv.cat, s));
    OpenedWritten(drv, file, s, data, d, at);
    pieces := ReadPieces(drv, file, cuts, SlotChain(drv.cat, s), data);
  }

  /** A driver on a freshly formatted volume. */
  method Mount(g: Geometry, disk: seq<Sector>) returns (drv: Driver)
    requires g.Fits(disk) && IsFormatted(g, ViewOf(g, disk))
    ensures fresh(drv) && fresh(drv.fatCache) && fresh(drv.rootDir) && fresh(drv.files)
    ensures drv.Valid() && drv.g == g && drv.disk == disk && drv.cat == Formatted(g) && drv.Closed() != {}
  {
    FormattedConsistent(g, ViewOf(g, disk));
    drv := new Driver(g, disk, Formatted(g));
    assert drv.files[0] in drv.Closed();
  }

  /** Writing succeeds: the directory is there, with a slot for the name, and the clusters suffice. */
  ghost predicate Accepts(drv: Driver, path: Text, size: nat)
    requires drv.g.Fits(drv.disk) && Rooted(drv.g, drv.View(), drv.cat)
    reads drv`disk, drv`cat, drv.files
  {
    && drv.DirReached(path) && drv.Space(path) >= ClustersFor(drv.g, size)
    && drv.SlotRoom(drv.Tree()[DirAt(drv.Tree(), drv.g.root, drv.DirNames(path)).dir], ShortName(FileName(path)))
  }

  lemma WayLeads(g: Geometry, v: Vol, c: Catalog, way: seq<Name>, d: nat)
    requires Rooted(g, v, c) && PathSafe(TreeOf(g, v.data, c), g.root, way)
    requires DirAt(TreeOf(g, v.data, c), g.root, way) == At(d)
    ensures Leads(g, v, c, way, d)
  {
  }

  /** What is written to a path is what opening it and reading gives, in pieces of any sizes, exactly
    * when there is nothing to write or no alias is in the way; with an alias, reading gives nothing. */
  method WriteOpenRead(drv: Driver, path: Text, data: seq<byte>, cuts: seq<nat>)
    returns (ok: bool, pieces: seq<seq<byte>>)
    requires drv.Valid() && drv.PathText(path) && drv.ParentSafe(path) && drv.Writable(path) && |data| < TWO32
    requires drv.Space(path) >= ClustersFor(drv.g, |data|) || TailUsed(drv.g, drv.View())
    requires (FileName(path) != []) != EndsInSlash(DirPath(path))
    requires drv.Closed() != {}
    modifies drv`disk, drv`cachePos, drv`cat, drv.fatCache, drv.rootDir, drv.Closed()
    ensures ok <==> old(Accepts(drv, path, |data|))
    ensures drv.Valid()
    ensures ok && (data == [] || old(drv.Unaliased(path))) ==>
      MeaningOf(drv.g, drv.View(), drv.cat, drv.DirNames(path) + [ShortName(FileName(path))]) == File(data)
    ensures ok ==>
      |pieces| == |cuts| && PiecesOf(pieces, if data == [] || old(drv.Unaliased(path)) then data else [], cuts)
  {
    hide ViewOf, Shaped, TreeOk, Find, PathSafe, SlotsOf, ShortName, Driver.Ready, Driver.View, Lookup, DirAt, TreeOf,
      Consistent, Sound, Driver.Tree, Driver.SlotRoom, LeftEmpty, Does, Driver.Unaliased, ClustersFor, FileWritten,
      FreeClusters, OldLength, TailUsed, Split, HoldsFile, Driver.Standing, MeaningOf, Leads, Leaf;
    drv.ValidUsable();
    drv.UsableRoot();
    ghost var g, v, c, way, n := drv.g, drv.View(), drv.cat, drv.DirNames(path), ShortName(FileName(path));
    ghost var clear, held := drv.Unaliased(path), data;
    drv.NameNotZero(path);
    pieces := [];
    ghost var d, at;
    ok, d, at := drv.WriteFile(path, data);
    if !ok {
      return;
    }
    drv.ReadyFits();
    ghost var w, next := drv.View(), drv.cat;
    NamesAgree(path);
    WayLeads(g, v, c, way, d);
    drv.ValidUsable();
    drv.UsableRoot();
    if data == [] || clear {
      WrittenLeaf(g, v, c, w, next, way, d, at, n, data);
    } else {
      EmptyLeaf(g, v, c, w, next, way, d, at, n);
      held := [];
    }
    pieces := OpenRead(drv, path, cuts, d, at, held);
  }

  // ── from the ground up ──

  /** The root of a freshly formatted volume: nothing is found in it, and its first slot is free. */
  lemma EmptyRoot(g: Geometry, v: Vol, n: Name)
    requires IsFormatted(g, v)
    ensures Housed(g, v.data, Formatted(g))
    ensures var slots := TreeOf(g, v.data, Formatted(g))[g.root];
      |slots| > 0 && Find(slots, n) == |slots| && EntryPlace(slots, n) == 0 && !NoneFree(slots, |slots|)
  {
    FormattedConsistent(g, v);
    OneClusterSlots(v.data, g.root, g.spc);
    ZeroSlots(v.data[g.root]);
    var slots := TreeOf(g, v.data, Formatted(g))[g.root];
    assert slots == Slots(v.data[g.root]);
    assert IsEnd(slots[0]);
    PlaceUnique(slots, n, 0);
  }

  lemma PlainName(name: Text)
    requires name != [] && SLASH !in name
    ensures FileName(name) == name && DirPath(name) == [] && Encode(DirComponents(name)) == []
  {
    LastIndexIs(name, SLASH, -1);
  }

  /** A name without slashes is looked up and made in the root. */
  lemma InRoot(drv: Driver, name: Text)
    requires drv.Valid() && name != [] && SLASH !in name
    ensures Rooted(drv.g, drv.View(), drv.cat) && drv.Tree() == TreeOf(drv.g, drv.View().data, drv.cat)
    ensures FileName(name) == name && DirPath(name) == [] && drv.DirNames(name) == []
    ensures DirAt(drv.Tree(), drv.g.root, []) == At(drv.g.root) && drv.ParentSafe(name) && drv.DirReached(name)
    ensures drv.Space(name) == SpaceFor(drv.g, drv.Here(), drv.g.root, ShortName(name))
    ensures var slots := drv.Tree()[drv.g.root]; var n := ShortName(name);
      drv.Unaliased(name) <==> AliasFree(slots, n, EntryPlace(slots, n))
  {
    hide ViewOf, Driver.Ready, TreeOk, Shaped, LinksInRange, Find, EntryPlace, FreeClusters, ShortName, TreeOf, Split,
      FileName, DirPath, DirComponents, Encode, LastIndex, OldLength, AliasFree, Geometry.Valid;
    PlainName(name);
    drv.ValidUsable();
    drv.UsableRoot();
    RootDir(drv.g, drv.View(), drv.cat);
  }

  /** On a freshly formatted volume nothing is in the way of a first file. */
  lemma FirstFileFits(drv: Driver, name: Text, size: nat)
    requires drv.Valid() && drv.cat == Formatted(drv.g) && IsFormatted(drv.g, drv.View()) && drv.Closed() != {}
    requires name != [] && SLASH !in name && 0 !in name && !IsDotName(ShortName(name))
    requires ClustersFor(drv.g, size) <= drv.g.dataEnd - 3
    ensures drv.ParentSafe(name) && FileName(name) == name && DirPath(name) == [] && drv.Deletable(name)
    ensures drv.Space(name) >= ClustersFor(drv.g, size) && Accepts(drv, name, size) && drv.Unaliased(name)
    ensures drv.DirNames(name) == []
  {
    hide ViewOf, Driver.Ready, TreeOk, Shaped, LinksInRange, Find, NoneFree, EntryPlace, IsFormatted, ClustersFor,
      FreeClusters, Consistent, Sound, ShortName, TreeOf, Split, FileName, DirPath, Driver.DirNames, OldLength,
      Geometry.Valid, Driver.ParentSafe, Driver.Unaliased, Driver.DirReached, Driver.Space;
    drv.ReadyFits();
    FormattedConsistent(drv.g, drv.View());
    InRoot(drv, name);
    EmptyRoot(drv.g, drv.View(), ShortName(name));
  }

  /** A file of any plain name, written to a freshly formatted volume with room for it, is what reading
    * in any pieces gives. */
  method FirstFile(g: Geometry, disk: seq<Sector>, name: Text, data: seq<byte>, cuts: seq<nat>)
    returns (ok: bool, pieces: seq<seq<byte>>)
    requires g.Fits(disk) && IsFormatted(g, ViewOf(g, disk))
    requires name != [] && |name| < MAX_PATH && SLASH !in name && 0 !in name
    requires !IsDotName(ShortName(name)) && ShortName(name)[0] != DELETED
    requires |data| < TWO32 && ClustersFor(g, |data|) <= g.dataEnd - 3
    ensures ok && |pieces| == |cuts| && PiecesOf(pieces, data, cuts)
  {
    hide ViewOf, IsFormatted, ShortName, ClustersFor, FreeClusters, Formatted, Consistent, Accepts, PiecesOf,
      Driver.Unaliased, Driver.Space, Driver.Deletable, Driver.ParentSafe;
    var drv := Mount(g, disk);
    FirstFileFits(drv, name, |data|);
    ok, pieces := WriteOpenRead(drv, name, data, cuts);
  }

  // ── an alias on the volume ──

  /** The device with a long-name slot in the root's first place that reads as `n`. */
  function Aliased(g: Geometry, disk: seq<Sector>, n: Name): (r: seq<Sector>)
    requires g.Fits(disk)
  {
    RootSector(g, disk);
    disk[g.ClusterAt(g.root) := PutSlot(disk[g.ClusterAt(g.root)], 0, NewSlot(n, ATTR_LFN, 0))]
  }

  /** The root of a freshly formatted volume, one long-name slot added. */
  lemma AliasedSlots(slots: seq<Slot>, n: Name)
    requires |slots| > 1 && (forall i :: 0 <= i < |slots| ==> IsEnd(slots[i])) && n[0] != 0 && n[0] != DELETED
    ensures var s := NewSlot(n, ATTR_LFN, 0); var put: seq<Slot> := slots[0 := s];
      && !IsEnd(s) && !IsLive(s)
      && Find(put, n) == |put| && !NoneFree(put, |put|) && EntryPlace(put, n) == 1 && !AliasFree(put, n, 1)
  {
    var s := NewSlot(n, ATTR_LFN, 0);
    assert NameOf(s)[0] == s[0];
    var put: seq<Slot> := slots[0 := s];
    assert IsFree(put[1]) && Alias(put[0], n);
    PlaceUnique(put, n, 1);
  }

  lemma SameFree(g: Geometry, v: Vol, w: Vol)
    requires Shaped(g, v) && Shaped(g, w) && w.fat == v.fat
    ensures FreeClusters(g, w) == FreeClusters(g, v)
  {
  }

  /** The first slot of a root of one cluster lies in its first sector. */
  lemma RootRewritten(g: Geometry, v: Vol, s: Slot)
    requires Shaped(g, v) && Housed(g, v.data, Formatted(g)) && 0 < |TreeOf(g, v.data, Formatted(g))[g.root]|
    ensures Rewritten(g, v, Formatted(g), g.root, 0, s) == PutData(v, g.root, 0, PutSlot(v.data[g.root][0], 0, s))
  {
    hide PutSlot;
    assert Formatted(g).chains[g.root] == [g.root];
    assert 0 / SLOTS_PER_SECTOR == 0 && 0 / g.spc == 0 && 0 % g.spc == 0;
  }

  lemma AliasedView(g: Geometry, disk: seq<Sector>, n: Name)
    requires g.Fits(disk) && IsFormatted(g, ViewOf(g, disk))
    ensures g.Fits(Aliased(g, disk, n)) && Shaped(g, ViewOf(g, disk)) && Shaped(g, ViewOf(g, Aliased(g, disk, n)))
    ensures var v := ViewOf(g, disk);
      && Housed(g, v.data, Formatted(g)) && 0 < |TreeOf(g, v.data, Formatted(g))[g.root]|
      && ViewOf(g, Aliased(g, disk, n)) == Rewritten(g, v, Formatted(g), g.root, 0, NewSlot(n, ATTR_LFN, 0))
  {
    hide ViewOf, NewSlot, TreeOk, IsFormatted, Headed, Disjoint, LinksInRange, PutSlot, Rewritten, TreeOf, PutData,
      Geometry.ClusterAt;
    FormattedRoot(g, ViewOf(g, disk));
    RootSector(g, disk);
    RootRewritten(g, ViewOf(g, disk), NewSlot(n, ATTR_LFN, 0));
    PutSectorView(g, disk, g.root, 0, PutSlot(disk[g.ClusterAt(g.root)], 0, NewSlot(n, ATTR_LFN, 0)));
  }

  /** It is a consistent volume, on which the alias is in the way. */
  lemma AliasedVolume(g: Geometry, disk: seq<Sector>, n: Name)
    requires g.Fits(disk) && IsFormatted(g, ViewOf(g, disk)) && n[0] != 0 && n[0] != DELETED
    ensures g.Fits(Aliased(g, disk, n))
    ensures var s := State(ViewOf(g, Aliased(g, disk, n)), Formatted(g));
      && Fine(g, s) && g.root in s.cat.dirs && FreeClusters(g, s.v) == g.dataEnd - 3
      && var slots := TreeIn(g, s)[g.root];
      && Find(slots, n) == |slots| && !NoneFree(slots, |slots|) && !AliasFree(slots, n, EntryPlace(slots, n))
  {
    hide ViewOf, TreeOf, TreeOk, Headed, Disjoint, NewSlot, Find, NoneFree, AliasFree, IsFormatted, FreeClusters,
      Shaped;
    var v := ViewOf(g, disk);
    var alias := NewSlot(n, ATTR_LFN, 0);
    FormattedRoot(g, v);
    AliasedSlots(TreeOf(g, v.data, Formatted(g))[g.root], n);
    AliasedView(g, disk, n);
    StepPlain(g, v, Formatted(g), g.root, 0, alias, n);
    SameFree(g, v, ViewOf(g, Aliased(g, disk, n)));
  }

  lemma AliasedAccepts(drv: Driver, name: Text, size: nat)
    requires drv.Valid() && drv.g.root in drv.cat.dirs && name != [] && SLASH !in name
    requires FreeClusters(drv.g, drv.View()) >= ClustersFor(drv.g, size)
    requires var slots := TreeIn(drv.g, drv.Here())[drv.g.root]; !NoneFree(slots, |slots|)
    ensures Rooted(drv.g, drv.View(), drv.cat) && Accepts(drv, name, size)
  {
    hide ViewOf, Driver.Ready, TreeOk, TreeOf, ShortName, ClustersFor, FreeClusters, OldLength, Find, NoneFree,
      FileName, DirPath, Driver.DirNames, Driver.Space, Driver.ParentSafe, Driver.Unaliased;
    drv.ReadyFits();
    InRoot(drv, name);
  }

  /** A file written to a formatted volume with an alias in the way: the call succeeds, and reading gives nothing. */
  method AliasedFile(g: Geometry, blank: seq<Sector>, name: Text, data: seq<byte>, cuts: seq<nat>)
    returns (ok: bool, pieces: seq<seq<byte>>)
    requires g.Fits(blank) && IsFormatted(g, ViewOf(g, blank))
    requires name != [] && |name| < MAX_PATH && SLASH !in name && 0 !in name
    requires !IsDotName(ShortName(name)) && ShortName(name)[0] != DELETED
    requires 0 < |data| < TWO32 && ClustersFor(g, |data|) <= g.dataEnd - 3
    ensures ok && |pieces| == |cuts| && PiecesOf(pieces, [], cuts)
  {
    hide ViewOf, IsFormatted, ShortName, ClustersFor, FreeClusters, Formatted, TreeOk, TreeOf, Find, AliasFree,
      EntryPlace, NoneFree, Aliased, Headed, Disjoint, PiecesOf, Driver.Unaliased, Driver.Space, Driver.ParentSafe,
      Driver.DirReached, Driver.DirNames;
    ShortNotZero(name);
    AliasedVolume(g, blank, ShortName(name));
    var encoded := GetShortName(name);
    var short: Name := encoded[..];
    var drv := new Driver(g, Aliased(g, blank, short), Formatted(g));
    assert drv.files[0] in drv.Closed();
    InRoot(drv, name);
    AliasedAccepts(drv, name, |data|);
    assert data != [];
    ok, pieces := WriteOpenRead(drv, name, data, cuts);
  }

  // ── running out of clusters ──

  /** After a write, the slot and the clusters of the file are there for the next write to its name. */
  lemma WrittenRoom(g: Geometry, v: Vol, c: Catalog, w: Vol, next: Catalog, d: nat, at: nat, n: Name, data: seq<byte>)
    requires FileWritten(g, v, c, w, next, d, at, n, data) && !IsDotName(n)
    ensures Fine(g, State(v, c)) && Fine(g, State(w, next)) && d in c.dirs && d in next.dirs
    ensures Find(TreeOf(g, w.data, next)[d], n) < |TreeOf(g, w.data, next)[d]|
    ensures SpaceFor(g, State(w, next), d, n) == SpaceFor(g, State(v, c), d, n)
  {
  }

  /** The scan for a free cluster ends with the data area, so it cannot leave it. */
  lemma NoTail(g: Geometry, v: Vol)
    requires Shaped(g, v) && g.ScanEnd() == g.dataEnd
    ensures TailUsed(g, v)
  {
  }

  lemma AtRoot(g: Geometry, v: Vol, c: Catalog)
    requires Rooted(g, v, c)
    ensures Leads(g, v, c, [], g.root)
  {
  }

  lemma LeftBefore(g: Geometry, v: Vol, c: Catalog, w: Vol, next: Catalog, d: nat, at: nat, n: Name)
    requires LeftEmpty(g, v, c, w, next, d, at, n)
    ensures Consistent(g, v, c)
  {
  }

  /** The meaning of a name of the root after a write that ran out of clusters. */
  lemma EmptiedInRoot(g: Geometry, v: Vol, c: Catalog, w: Vol, next: Catalog, at: nat, n: Name)
    requires LeftEmpty(g, v, c, w, next, g.root, at, n) && !IsDotName(n)
    ensures Consistent(g, w, next) && MeaningOf(g, w, next, [n]) == File([])
  {
    hide LeftEmpty, TreeOf, DirAt, MeaningOf, TreeOk, Headed, Disjoint;
    LeftFine(g, v, c, w, next, g.root, at, n);
    LeftBefore(g, v, c, w, next, g.root, at, n);
    ConsistentRooted(g, v, c);
    AtRoot(g, v, c);
    EmptiedMap(g, v, c, w, next, [], g.root, at, n);
    assert [] + [n] == [n];
    assert NoDots([n]);
  }

  lemma WrittenInRoot(g: Geometry, v: Vol, c: Catalog, w: Vol, next: Catalog, at: nat, n: Name, data: seq<byte>)
    requires FileWritten(g, v, c, w, next, g.root, at, n, data) && !IsDotName(n)
    ensures Consistent(g, w, next) && MeaningOf(g, w, next, [n]) == File(data)
  {
    hide FileWritten, TreeOf, DirAt, MeaningOf, TreeOk, Headed, Disjoint;
    WrittenRoom(g, v, c, w, next, g.root, at, n, data);
    ConsistentRooted(g, v, c);
    AtRoot(g, v, c);
    WrittenMeaning(g, v, c, w, next, [], g.root, at, n, data);
    assert [] + [n] == [n];
  }

  lemma StartSpace(g: Geometry, s: State, n: Name)
    requires IsFormatted(g, s.v) && s.cat == Formatted(g)
    ensures Fine(g, s) && g.root in s.cat.dirs && SpaceFor(g, s, g.root, n) == g.dataEnd - 3
    ensures var slots := TreeIn(g, s)[g.root]; !NoneFree(slots, |slots|) && AliasFree(slots, n, EntryPlace(slots, n))
  {
    FormattedConsistent(g, s.v);
    EmptyRoot(g, s.v, n);
  }

  /** Writing a file of the root, told by the root's slots. */
  method WriteInRoot(drv: Driver, name: Text, data: seq<byte>) returns (ok: bool, ghost at: nat)
    requires drv.Valid() && TailUsed(drv.g, drv.View())
    requires name != [] && |name| < MAX_PATH && SLASH !in name && 0 !in name && |data| < TWO32 && drv.Writable(name)
    modifies drv`disk, drv`cachePos, drv`cat, drv.fatCache, drv.rootDir, drv.Closed()
    ensures drv.Valid() && drv.g.root in old(drv.cat).dirs
    ensures var s := old(drv.Here()); var slots := TreeIn(drv.g, s)[drv.g.root]; var n := ShortName(name);
      && (ok <==> drv.SlotRoom(slots, n) && SpaceFor(drv.g, s, drv.g.root, n) >= ClustersFor(drv.g, |data|))
      && (ok && AliasFree(slots, n, EntryPlace(slots, n)) ==>
        FileWritten(drv.g, s.v, s.cat, drv.View(), drv.cat, drv.g.root, at, n, data))
      && (!ok && drv.SlotRoom(slots, n) ==> LeftEmpty(drv.g, s.v, s.cat, drv.View(), drv.cat, drv.g.root, at, n))
  {
    hide ViewOf, Driver.Ready, Driver.View, TreeOk, TreeOf, ShortName, ClustersFor, FreeClusters, OldLength,
      FileWritten, LeftEmpty, Does, Find, TailUsed, AliasFree, EntryPlace, DirAt, FileName, DirPath, Accounts, NoneFree,
      Driver.ParentSafe, WriteLoses, Shaped, Driver.SlotRoom, Driver.DirNames, Driver.Unaliased, Driver.Space,
      Driver.DirReached, Headed, Disjoint;
    drv.ReadyFits();
    InRoot(drv, name);
    ghost var d;
    ok, d, at := drv.WriteFile(name, data);
  }

  /** A file that fits is written to a freshly formatted volume; then more than the volume holds is written
    * to the same name. The second call fails, and the file is empty. */
  method OverwriteRunsOut(g: Geometry, disk: seq<Sector>, name: Text, data: seq<byte>, more: seq<byte>)
    returns (first: bool, second: bool, ghost before: State, ghost after: State)
    requires g.Fits(disk) && IsFormatted(g, ViewOf(g, disk)) && g.ScanEnd() == g.dataEnd
    requires name != [] && |name| < MAX_PATH && SLASH !in name && 0 !in name
    requires !IsDotName(ShortName(name)) && ShortName(name)[0] != DELETED
    requires |data| < TWO32 && ClustersFor(g, |data|) <= g.dataEnd - 3
    requires |more| < TWO32 && ClustersFor(g, |more|) > g.dataEnd - 3
    ensures first && Fine(g, before) && MeaningOf(g, before.v, before.cat, [ShortName(name)]) == File(data)
    ensures !second && Fine(g, after) && MeaningOf(g, after.v, after.cat, [ShortName(name)]) == File([])
  {
    hide ViewOf, IsFormatted, ShortName, ClustersFor, FreeClusters, Formatted, TreeOk, TreeOf, FileWritten, LeftEmpty,
      Find, TailUsed, OldLength, MeaningOf, AliasFree, EntryPlace, NoneFree, Shaped, Headed, Disjoint, Driver.Ready,
      SpaceFor;
    var drv := Mount(g, disk);
    ghost var n := ShortName(name);
    drv.ReadyFits();
    ghost var start := drv.Here();
    StartSpace(g, start, n);
    drv.ViewShaped();
    NoTail(g, drv.View());
    ghost var at;
    first, at := WriteInRoot(drv, name, data);
    drv.ReadyFits();
    before := drv.Here();
    WrittenRoom(g, start.v, start.cat, before.v, before.cat, g.root, at, n, data);
    WrittenInRoot(g, start.v, start.cat, before.v, before.cat, at, n, data);
    drv.ViewShaped();
    NoTail(g, drv.View());
    second, at := WriteInRoot(drv, name, more);
    drv.ReadyFits();
    after := drv.Here();
    EmptiedInRoot(g, before.v, before.cat, after.v, after.cat, at, n);
  }

  /** Such a volume: fourteen clusters of four sectors. */
  lemma TightVolume() returns (g: Geometry, v: Vol)
    ensures IsFormatted(g, v) && g.ScanEnd() == g.dataEnd == 16 && g.DataClusters() == 14 && g.ClusterBytes() == 2048
  {
    g := Geometry(1, 1, 4, 2, 64, 8, 16);
    var row: seq<Sector> := [ZeroSector(), ZeroSector(), ZeroSector(), ZeroSector()];
    v := Vol(seq(128, i => if i == 2 then END_OF_CHAIN else 0), seq(16, i => if i < 2 then [] else row));
  }

  // ── the free count ──

  /** On a freshly formatted volume of at most 60000 clusters the reported count is two short, unless the
    * root is one of the last two clusters. */
  lemma FormattedMiscount(g: Geometry, v: Vol)
    requires IsFormatted(g, v) && g.dataEnd == g.DataClusters() + 2 <= 60002 && 4 <= g.dataEnd && g.root < g.dataEnd - 2
    ensures CountFree(v.fat, 2, Counted(g)) == FreeClusters(g, v) - 2
  {
    InfoAgrees(g, v);
    var k := Counted(g);
    assert forall c :: k <= c < g.dataEnd ==> g.InData(c);
    CountParts(v.fat, 2, k, g.dataEnd);
    AllFree(v.fat, k, g.dataEnd);
  }

  /** A volume of fourteen clusters, thirteen of them free, on which eleven are reported. */
  lemma SmallVolume() returns (g: Geometry, v: Vol)
    ensures IsFormatted(g, v) && g.DataClusters() == 14
    ensures FreeClusters(g, v) == 13 && CountFree(v.fat, 2, Counted(g)) == 11
  {
    g := Geometry(1, 1, 1, 2, 20, 6, 16);
    v := Vol(seq(128, i => if i == 2 then END_OF_CHAIN else 0), seq(16, i => if i < 2 then [] else [ZeroSector()]));
    FormattedConsistent(g, v);
    FormattedMiscount(g, v);
  }
}
