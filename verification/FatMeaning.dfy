/**
  * What paths mean after a call: the path that the call is about, all that lies below it, and all
  * other paths.
  */
module FatMeaning {
  import opened Bytes
  import opened FatLayout
  import opened FatDirectory
  import opened FatChains
  import opened FatTree
  import opened FatVolume
  import opened FatSteps
  import opened FatWrite
  import opened FatCalls

  // ── the path of a change, and all others ──

  /** `way` leads from the root to directory `d`. */
  ghost predicate Leads(g: Geometry, v: Vol, c: Catalog, way: seq<Name>, d: nat)
    requires Rooted(g, v, c)
  {
    NoDots(way) && DirAt(TreeOf(g, v.data, c), g.root, way) == At(d)
  }

  lemma PrefixMade(names: seq<Name>, k: nat, way: seq<Name>, n: Name)
    requires k < |names| && names[..k] == way && names[k] == n
    ensures way + [n] <= names
  {
    assert names[..k + 1] == way + [n];
  }

  /** A path that does not go through `way + [n]` never looks up `n` in the directory of `way`. */
  lemma OtherPathsAvoid(root: nat, cat: Catalog, t: Tree, cb: nat, way: seq<Name>, d: nat, n: Name, names: seq<Name>)
    requires TreeOk(root, cat, t, cb) && NoDots(way) && DirAt(t, root, way) == At(d)
    requires NoDots(names) && !(way + [n] <= names)
    ensures Avoids(t, root, names, d, n)
  {
    forall k | 0 <= k < |names| && names[k] == n
      ensures DirAt(t, root, names[..k]) != At(d)
    {
      if names[..k] == way {
        PrefixMade(names, k, way, n);
      }
      if DirAt(t, root, names[..k]) == At(d) {
        OnePath(root, cat, t, cb, names[..k], way);
      }
    }
  }

  lemma ChangedElsewhere(g: Geometry, v: Vol, c: Catalog, w: Vol, next: Catalog, way: seq<Name>, d: nat, n: Name,
      names: seq<Name>)
    requires Changed(g, v, c, w, next, d, n) && Leads(g, v, c, way, d)
    requires names != [] && NoDots(names) && !(way + [n] <= names)
    ensures MeaningOf(g, w, next, names) == MeaningOf(g, v, c, names)
  {
    hide MeaningFrom, TreeOf, DirAt, Avoids;
    OtherPathsAvoid(g.root, c, TreeOf(g, v.data, c), g.ClusterBytes(), way, d, n, names);
  }

  lemma NothingDone(g: Geometry, s: State, t: State)
    requires Fine(g, s) && Does(g, s, NoEffect, t)
    ensures t == s
  {
  }

  /** The frame of every call, however it ends: all paths but those through the changed one mean what
    * they meant, absent ones included. */
  lemma OtherPathsKept(g: Geometry, s: State, call: Call, t: State, way: seq<Name>, names: seq<Name>)
    requires Fine(g, s) && Does(g, s, call, t)
    requires !call.NoEffect? ==> Leads(g, s.v, s.cat, way, call.d) && !(way + [call.n] <= names)
    requires names != [] && NoDots(names)
    ensures Fine(g, t) && MeaningOf(g, t.v, t.cat, names) == MeaningOf(g, s.v, s.cat, names)
  {
    hide Does, MeaningFrom, TreeOf, DirAt, Avoids;
    CallKeeps(g, s, call, t);
    if !call.NoEffect? {
      ChangedElsewhere(g, s.v, s.cat, t.v, t.cat, way, call.d, call.n, names);
    } else {
      NothingDone(g, s, t);
    }
  }

  /** The way to the changed directory still leads there. */
  lemma StillLeads(g: Geometry, v: Vol, c: Catalog, w: Vol, next: Catalog, way: seq<Name>, d: nat, n: Name)
    requires Changed(g, v, c, w, next, d, n) && Leads(g, v, c, way, d)
    ensures Leads(g, w, next, way, d)
  {
    var t := TreeOf(g, v.data, c);
    WayAvoids(g.root, c, t, g.ClusterBytes(), way, d, n);
    DirFrame(t, TreeOf(g, w.data, next), g.root, way, d, n);
  }

  lemma LookupLast(t: Tree, root: nat, way: seq<Name>, d: nat, n: Name)
    requires root in t && DirAt(t, root, way) == At(d)
    ensures Lookup(t, root, way + [n]) == if Find(t[d], n) < |t[d]| then Hit(d, Find(t[d], n)) else NoHit
  {
    assert (way + [n])[..|way|] == way;
  }

  /** What a change says about the changed directory. */
  lemma ChangedFacts(g: Geometry, v: Vol, c: Catalog, w: Vol, next: Catalog, d: nat, n: Name)
    requires Changed(g, v, c, w, next, d, n)
    ensures Rooted(g, v, c) && Rooted(g, w, next) && d in c.dirs && d in next.dirs && 0 !in c.chains
    ensures Terminated(TreeOf(g, v.data, c)[d])
  {
  }

  lemma LastMeaning(g: Geometry, w: Vol, next: Catalog, way: seq<Name>, d: nat, n: Name)
    requires Rooted(g, w, next) && Leads(g, w, next, way, d)
    ensures d in next.dirs
    ensures var slots := TreeOf(g, w.data, next)[d]; var i := Find(slots, n);
      && Lookup(TreeOf(g, w.data, next), g.root, way + [n]) == (if i < |slots| then Hit(d, i) else NoHit)
      && MeaningOf(g, w, next, way + [n]) ==
        if i < |slots| then SlotMeaning(g, w.data, next.chains, slots[i]) else Absent
  {
    LookupLast(TreeOf(g, w.data, next), g.root, way, d, n);
  }

  /** After writing, the path is a file that holds the data, whatever it was before. */
  lemma WrittenMeaning(g: Geometry, v: Vol, c: Catalog, w: Vol, next: Catalog, way: seq<Name>, d: nat, at: nat, n: Name,
      data: seq<byte>)
    requires FileWritten(g, v, c, w, next, d, at, n, data) && Leads(g, v, c, way, d)
    ensures MeaningOf(g, w, next, way + [n]) == File(data)
  {
    hide Changed, Consistent, TreeOf, DirAt, Lookup, MeaningOf, Leads, Rooted, Find, SlotMeaning, Terminated;
    ChangedFacts(g, v, c, w, next, d, n);
    StillLeads(g, v, c, w, next, way, d, n);
    LastMeaning(g, w, next, way, d, n);
  }

  /** After deleting, the path is absent exactly when the directory held the name once. */
  lemma DeletedMeaning(g: Geometry, v: Vol, c: Catalog, w: Vol, next: Catalog, way: seq<Name>, d: nat, at: nat, n: Name)
    requires EntryDeleted(g, v, c, w, next, d, at, n) && Leads(g, v, c, way, d)
    ensures MeaningOf(g, w, next, way + [n]) == Absent <==>
      forall j :: at < j < |TreeOf(g, v.data, c)[d]| ==> !Matches(TreeOf(g, v.data, c)[d][j], n)
  {
    hide Changed, Consistent, TreeOf, DirAt, Lookup, MeaningOf, Leads, Rooted, Find, Terminated;
    ChangedFacts(g, v, c, w, next, d, n);
    StillLeads(g, v, c, w, next, way, d, n);
    LastMeaning(g, w, next, way, d, n);
    var slots := TreeOf(g, v.data, c)[d];
    DeletedSlot(slots[at]);
    DeletedFinds(slots, at, slots[at][0 := DELETED], n);
  }

  lemma CreatedMeaning(g: Geometry, v: Vol, c: Catalog, w: Vol, way: seq<Name>, d: nat, at: nat, n: Name)
    requires FileCreated(g, v, w, c, d, at, n) && Leads(g, v, c, way, d) && n[0] != 0 && n[0] != DELETED
    ensures var was := Find(TreeOf(g, v.data, c)[d], n);
      && Lookup(TreeOf(g, w.data, c), g.root, way + [n]) == Hit(d, if was < at then was else at)
      && (was >= at ==> MeaningOf(g, w, c, way + [n]) == File([]))
  {
    hide Changed, Consistent, TreeOf, DirAt, Lookup, MeaningOf, Leads, Rooted, Find, SlotMeaning, Terminated;
    ChangedFacts(g, v, c, w, c, d, n);
    StillLeads(g, v, c, w, c, way, d, n);
    LastMeaning(g, w, c, way, d, n);
    NewMatches(n);
    CreatedFinds(TreeOf(g, v.data, c)[d], at, NewSlot(n, ATTR_ARCHIVE, 0), n);
    EmptySlot(g, w, c, n);
  }

  lemma FolderMeaning(g: Geometry, w: Vol, next: Catalog, s: Slot)
    requires IsDir(s)
    ensures SlotMeaning(g, w.data, next.chains, s) == Folder(FirstOf(s))
  {
  }

  lemma NothingFound(slots: seq<Slot>, m: Name)
    requires !IsDotName(m) && forall j :: 0 <= j < |slots| ==> !IsEntry(slots[j])
    ensures Find(slots, m) == |slots|
  {
  }

  lemma StepTo(t: Tree, d: nat, n: Name)
    requires d in t
    ensures var i := Find(t[d], n);
      if i < |t[d]| && FirstOf(t[d][i]) in t then Step(t, d, n) == At(FirstOf(t[d][i])) else !Step(t, d, n).At?
  {
  }

  /** What lies below `way + [n]` is what is found from the directory that the name leads to. */
  lemma MeaningBelow(g: Geometry, w: Vol, next: Catalog, way: seq<Name>, d: nat, n: Name, rest: seq<Name>)
    requires Rooted(g, w, next) && Leads(g, w, next, way, d) && rest != []
    ensures d in next.dirs
    ensures var p := Step(TreeOf(g, w.data, next), d, n);
      MeaningOf(g, w, next, way + [n] + rest) == if p.At? then MeaningFrom(g, w, next, p.dir, rest) else Absent
  {
    var u := TreeOf(g, w.data, next);
    assert (way + [n])[..|way|] == way;
    assert DirAt(u, g.root, way + [n]) == Step(u, d, n);
    LookupJoin(u, g.root, way + [n], rest);
  }

  /** Nothing is found in an empty directory. */
  lemma VacantMeaning(g: Geometry, w: Vol, next: Catalog, k: nat, rest: seq<Name>)
    requires Rooted(g, w, next) && k in next.dirs && rest != [] && NoDots(rest) && Vacant(TreeOf(g, w.data, next), k)
    ensures MeaningFrom(g, w, next, k, rest) == Absent
  {
    var u := TreeOf(g, w.data, next);
    NothingFound(u[k], rest[0]);
    if |rest| > 1 {
      assert rest == [rest[0]] + rest[1..] && [rest[0]][..0] == [];
      LookupJoin(u, k, [rest[0]], rest[1..]);
    }
  }

  lemma DirCreatedMeaning(g: Geometry, v: Vol, c: Catalog, w: Vol, next: Catalog, way: seq<Name>, d: nat, at: nat,
      n: Name, k: nat)
    requires DirCreated(g, v, c, w, next, d, at, n, k) && Leads(g, v, c, way, d) && Nameable(n)
    requires Find(TreeOf(g, v.data, c)[d], n) >= at
    ensures MeaningOf(g, w, next, way + [n]) == Folder(k)
    ensures forall rest :: rest != [] && NoDots(rest) ==> MeaningOf(g, w, next, way + [n] + rest) == Absent
  {
    hide Changed, Consistent, TreeOf, DirAt, Lookup, MeaningOf, MeaningFrom, Leads, Rooted, Find, SlotMeaning,
      Terminated, Vacant, Step;
    ChangedFacts(g, v, c, w, next, d, n);
    StillLeads(g, v, c, w, next, way, d, n);
    LastMeaning(g, w, next, way, d, n);
    DirSlot(n, k);
    CreatedFinds(TreeOf(g, v.data, c)[d], at, NewSlot(n, ATTR_DIRECTORY, k), n);
    FolderMeaning(g, w, next, NewSlot(n, ATTR_DIRECTORY, k));
    forall rest | rest != [] && NoDots(rest)
      ensures MeaningOf(g, w, next, way + [n] + rest) == Absent
    {
      MeaningBelow(g, w, next, way, d, n, rest);
      StepTo(TreeOf(g, w.data, next), d, n);
      VacantMeaning(g, w, next, k, rest);
    }
  }

  // ── all paths after a call ──

  /** The path `way + [n]` means `m`, nothing lies below it, and all other paths mean what they meant. */
  ghost predicate OnlyChange(g: Geometry, v: Vol, c: Catalog, w: Vol, next: Catalog, way: seq<Name>, n: Name,
      m: Meaning)
    requires Rooted(g, v, c) && Rooted(g, w, next)
  {
    forall names {:trigger MeaningOf(g, w, next, names)} :: names != [] && NoDots(names) ==>
      MeaningOf(g, w, next, names) ==
        if names == way + [n] then m else if way + [n] <= names then Absent else MeaningOf(g, v, c, names)
  }

  lemma OnlyBy(g: Geometry, v: Vol, c: Catalog, w: Vol, next: Catalog, way: seq<Name>, d: nat, n: Name, m: Meaning)
    requires Changed(g, v, c, w, next, d, n) && Leads(g, v, c, way, d) && Rooted(g, w, next)
    requires MeaningOf(g, w, next, way + [n]) == m
    requires forall rest :: rest != [] && NoDots(rest) ==> MeaningOf(g, w, next, way + [n] + rest) == Absent
    ensures OnlyChange(g, v, c, w, next, way, n, m)
  {
    hide Changed, TreeOf, DirAt, MeaningOf, Leads;
    ChangedFacts(g, v, c, w, next, d, n);
    forall names | names != [] && NoDots(names)
      ensures MeaningOf(g, w, next, names) ==
        if names == way + [n] then m else if way + [n] <= names then Absent else MeaningOf(g, v, c, names)
    {
      if !(way + [n] <= names) {
        ChangedElsewhere(g, v, c, w, next, way, d, n, names);
      } else if names != way + [n] {
        var rest := names[|way| + 1..];
        assert names == way + [n] + rest;
      }
    }
  }

  /** Below a file, or a name that is not there, nothing is found. */
  lemma NothingBelow(g: Geometry, w: Vol, next: Catalog, way: seq<Name>, d: nat, n: Name)
    requires Rooted(g, w, next) && Leads(g, w, next, way, d) && d in next.dirs
    requires !Step(TreeOf(g, w.data, next), d, n).At?
    ensures forall rest :: rest != [] && NoDots(rest) ==> MeaningOf(g, w, next, way + [n] + rest) == Absent
  {
    hide TreeOf, DirAt, MeaningOf, Leads, Step;
    forall rest | rest != [] && NoDots(rest)
      ensures MeaningOf(g, w, next, way + [n] + rest) == Absent
    {
      MeaningBelow(g, w, next, way, d, n, rest);
    }
  }

  /** The slot of a file leads into no directory. */
  lemma FileStep(g: Geometry, w: Vol, next: Catalog, d: nat, at: nat, n: Name)
    requires Consistent(g, w, next) && d in next.dirs && at < |TreeOf(g, w.data, next)[d]| && !IsDotName(n)
    requires Find(TreeOf(g, w.data, next)[d], n) == at && !IsDir(TreeOf(g, w.data, next)[d][at])
    ensures !Step(TreeOf(g, w.data, next), d, n).At?
  {
    var u := TreeOf(g, w.data, next);
    if Step(u, d, n).At? {
      StepRef(g.root, next, u, g.ClusterBytes(), d, n);
      assert false;
    }
  }

  /** After writing: the path is the file, nothing lies below it, all other paths are as they were. */
  lemma WrittenMap(g: Geometry, v: Vol, c: Catalog, w: Vol, next: Catalog, way: seq<Name>, d: nat, at: nat, n: Name,
      data: seq<byte>)
    requires FileWritten(g, v, c, w, next, d, at, n, data) && Leads(g, v, c, way, d) && !IsDotName(n)
    ensures Rooted(g, v, c) && Rooted(g, w, next) && OnlyChange(g, v, c, w, next, way, n, File(data))
  {
    hide Founded, TreeOk, Aside, Untouched, TreeOf, DirAt, MeaningOf, Leads, Find, Step, SlotMeaning;
    ChangedFacts(g, v, c, w, next, d, n);
    StillLeads(g, v, c, w, next, way, d, n);
    WrittenMeaning(g, v, c, w, next, way, d, at, n, data);
    FileStep(g, w, next, d, at, n);
    NothingBelow(g, w, next, way, d, n);
    OnlyBy(g, v, c, w, next, way, d, n, File(data));
  }

  /** The same for an empty file that a write has left behind. */
  lemma EmptiedMap(g: Geometry, v: Vol, c: Catalog, w: Vol, next: Catalog, way: seq<Name>, d: nat, at: nat, n: Name)
    requires LeftEmpty(g, v, c, w, next, d, at, n) && Leads(g, v, c, way, d) && !IsDotName(n)
    ensures Rooted(g, v, c) && Rooted(g, w, next) && OnlyChange(g, v, c, w, next, way, n, File([]))
  {
    hide Founded, Aside, Untouched, TreeOf, DirAt, MeaningOf, Leads, Find, Step, SlotMeaning, NewSlot;
    ChangedFacts(g, v, c, w, next, d, n);
    StillLeads(g, v, c, w, next, way, d, n);
    LastMeaning(g, w, next, way, d, n);
    EmptySlot(g, w, next, n);
    FileStep(g, w, next, d, at, n);
    NothingBelow(g, w, next, way, d, n);
    OnlyBy(g, v, c, w, next, way, d, n, File([]));
  }

  /** Every path means what it meant. */
  ghost predicate NoChange(g: Geometry, v: Vol, c: Catalog, w: Vol, next: Catalog)
    requires Rooted(g, v, c) && Rooted(g, w, next)
  {
    forall names {:trigger MeaningOf(g, w, next, names)} :: names != [] && NoDots(names) ==>
      MeaningOf(g, w, next, names) == MeaningOf(g, v, c, names)
  }

  /** Slot `i` of `d`, an entry, is as it was, with all that it stands for. */
  ghost predicate SameEntry(g: Geometry, v: Vol, c: Catalog, w: Vol, next: Catalog, d: nat, i: nat)
    requires Rooted(g, v, c) && Rooted(g, w, next)
  {
    && d in c.dirs && d in next.dirs && i < |TreeOf(g, v.data, c)[d]| && i < |TreeOf(g, w.data, next)[d]|
    && var s := TreeOf(g, v.data, c)[d][i];
      && TreeOf(g, w.data, next)[d][i] == s && EntryOk(c, s, d, i, g.ClusterBytes())
      && (FirstOf(s) in c.dirs <==> FirstOf(s) in next.dirs)
      && SlotMeaning(g, w.data, next.chains, s) == SlotMeaning(g, v.data, c.chains, s)
  }

  /** What the path means after a change when the name finds an entry that is as it was. */
  lemma FoundSame(g: Geometry, v: Vol, c: Catalog, w: Vol, next: Catalog, way: seq<Name>, d: nat, n: Name, i: nat)
    requires Changed(g, v, c, w, next, d, n) && Leads(g, v, c, way, d) && Rooted(g, v, c) && Rooted(g, w, next)
    requires SameEntry(g, v, c, w, next, d, i) && Find(TreeOf(g, w.data, next)[d], n) == i
    ensures var s := TreeOf(g, v.data, c)[d][i];
      && MeaningOf(g, w, next, way + [n]) == SlotMeaning(g, v.data, c.chains, s)
      && forall rest :: rest != [] && NoDots(rest) ==>
        MeaningOf(g, w, next, way + [n] + rest) ==
          if FirstOf(s) in c.dirs then MeaningFrom(g, v, c, FirstOf(s), rest) else Absent
  {
    hide Founded, TreeOf, DirAt, MeaningOf, MeaningFrom, Leads, Find, Step, SlotMeaning, Avoids, Aside;
    StillLeads(g, v, c, w, next, way, d, n);
    LastMeaning(g, w, next, way, d, n);
    var s := TreeOf(g, v.data, c)[d][i];
    forall rest | rest != [] && NoDots(rest)
      ensures MeaningOf(g, w, next, way + [n] + rest) ==
        if FirstOf(s) in c.dirs then MeaningFrom(g, v, c, FirstOf(s), rest) else Absent
    {
      MeaningBelow(g, w, next, way, d, n, rest);
      StepTo(TreeOf(g, w.data, next), d, n);
      if FirstOf(s) in c.dirs {
        BelowAvoids(g.root, c, TreeOf(g, v.data, c), g.ClusterBytes(), FirstOf(s), rest, d, n);
      }
    }
  }

  lemma FoundThere(g: Geometry, v: Vol, c: Catalog, w: Vol, next: Catalog, way: seq<Name>, d: nat, n: Name, i: nat)
    requires Rooted(g, v, c) && Rooted(g, w, next) && Leads(g, v, c, way, d)
    requires SameEntry(g, v, c, w, next, d, i) && Find(TreeOf(g, v.data, c)[d], n) == i
    ensures var s := TreeOf(g, v.data, c)[d][i];
      && MeaningOf(g, v, c, way + [n]) == SlotMeaning(g, v.data, c.chains, s)
      && forall rest :: rest != [] && NoDots(rest) ==>
        MeaningOf(g, v, c, way + [n] + rest) ==
          if FirstOf(s) in c.dirs then MeaningFrom(g, v, c, FirstOf(s), rest) else Absent
  {
    hide TreeOf, DirAt, MeaningOf, MeaningFrom, Leads, Find, Step, SlotMeaning;
    LastMeaning(g, v, c, way, d, n);
    StepTo(TreeOf(g, v.data, c), d, n);
    var s := TreeOf(g, v.data, c)[d][i];
    forall rest | rest != [] && NoDots(rest)
      ensures MeaningOf(g, v, c, way + [n] + rest) ==
        if FirstOf(s) in c.dirs then MeaningFrom(g, v, c, FirstOf(s), rest) else Absent
    {
      MeaningBelow(g, v, c, way, d, n, rest);
    }
  }

  /** What the path means is what it meant when the name finds the entry it found, as it was. */
  lemma NothingNew(g: Geometry, v: Vol, c: Catalog, w: Vol, next: Catalog, way: seq<Name>, d: nat, n: Name, i: nat)
    requires Changed(g, v, c, w, next, d, n) && Leads(g, v, c, way, d) && Rooted(g, v, c) && Rooted(g, w, next)
    requires SameEntry(g, v, c, w, next, d, i)
    requires Find(TreeOf(g, v.data, c)[d], n) == i && Find(TreeOf(g, w.data, next)[d], n) == i
    ensures NoChange(g, v, c, w, next)
  {
    hide Founded, TreeOf, TreeOk, DirAt, MeaningOf, MeaningFrom, Leads, Find, Step, SlotMeaning, Aside, Untouched,
      SameEntry;
    FoundSame(g, v, c, w, next, way, d, n, i);
    FoundThere(g, v, c, w, next, way, d, n, i);
    forall names | names != [] && NoDots(names)
      ensures MeaningOf(g, w, next, names) == MeaningOf(g, v, c, names)
    {
      if !(way + [n] <= names) {
        ChangedElsewhere(g, v, c, w, next, way, d, n, names);
      } else if names != way + [n] {
        var rest := names[|way| + 1..];
        assert names == way + [n] + rest;
      }
    }
  }

  /** A slot keeps what it stands for when its chain is kept. */
  lemma KeptMeaning(g: Geometry, v: Vol, c: Catalog, w: Vol, next: Catalog, s: Slot, e: nat, j: nat)
    requires Housed(g, v.data, c) && Housed(g, w.data, next) && 0 !in c.chains && 0 !in next.chains
    requires EntryOk(c, s, e, j, g.ClusterBytes())
    requires FirstOf(s) in c.chains && !IsDir(s) ==> KeptChain(g, v.data, c, w.data, next, FirstOf(s))
    ensures SlotMeaning(g, w.data, next.chains, s) == SlotMeaning(g, v.data, c.chains, s)
  {
  }

  lemma NewIsFile(n: Name)
    ensures !IsDir(NewSlot(n, ATTR_ARCHIVE, 0))
  {
  }

  lemma FoundEntry(g: Geometry, v: Vol, c: Catalog, d: nat, n: Name)
    requires Consistent(g, v, c) && d in c.dirs && !IsDotName(n)
    requires Find(TreeOf(g, v.data, c)[d], n) < |TreeOf(g, v.data, c)[d]|
    ensures var i := Find(TreeOf(g, v.data, c)[d], n); EntryOk(c, TreeOf(g, v.data, c)[d][i], d, i, g.ClusterBytes())
    ensures 0 !in c.chains
  {
    var t := TreeOf(g, v.data, c);
    var i := Find(t[d], n);
    assert FirstMatch(t[d], n, i);
    assert EntryOk(c, t[d][i], d, i, g.ClusterBytes());
  }

  lemma CreatedSame(g: Geometry, v: Vol, c: Catalog, w: Vol, d: nat, at: nat, n: Name, i: nat)
    requires FileCreated(g, v, w, c, d, at, n) && Rooted(g, v, c) && Rooted(g, w, c) && d in c.dirs && !IsDotName(n)
    requires i < at && Find(TreeOf(g, v.data, c)[d], n) == i
    ensures SameEntry(g, v, c, w, c, d, i)
  {
    hide SlotMeaning, WriteSlot;
    var t := TreeOf(g, v.data, c);
    FoundEntry(g, v, c, d, n);
    RewrittenParts(g, v, c, d, at, NewSlot(n, ATTR_ARCHIVE, 0));
    var h := FirstOf(t[d][i]);
    if h in c.chains && !IsDir(t[d][i]) {
      assert KeptChain(g, v.data, c, w.data, c, h);
    }
    KeptMeaning(g, v, c, w, c, t[d][i], d, i);
  }

  /** After creating a file: when the name found an earlier slot, no path changes its meaning; else the
    * path is an empty file, nothing lies below it, and all other paths are as they were. */
  lemma CreatedMap(g: Geometry, v: Vol, c: Catalog, w: Vol, way: seq<Name>, d: nat, at: nat, n: Name)
    requires FileCreated(g, v, w, c, d, at, n) && Leads(g, v, c, way, d) && Nameable(n)
    ensures Rooted(g, v, c) && Rooted(g, w, c)
    ensures if Find(TreeOf(g, v.data, c)[d], n) < at then NoChange(g, v, c, w, c)
      else OnlyChange(g, v, c, w, c, way, n, File([]))
  {
    hide Founded, TreeOk, Aside, Untouched, TreeOf, DirAt, MeaningOf, Leads, Find, Step, SlotMeaning, NewSlot,
      SameEntry, FirstFree;
    ChangedFacts(g, v, c, w, c, d, n);
    StillLeads(g, v, c, w, c, way, d, n);
    CreatedMeaning(g, v, c, w, way, d, at, n);
    NewMatches(n);
    CreatedFinds(TreeOf(g, v.data, c)[d], at, NewSlot(n, ATTR_ARCHIVE, 0), n);
    var was := Find(TreeOf(g, v.data, c)[d], n);
    FirstFreeSlot(TreeOf(g, v.data, c)[d], at);
    if was < at {
      CreatedSame(g, v, c, w, d, at, n, was);
      NothingNew(g, v, c, w, c, way, d, n, was);
    } else {
      NewIsFile(n);
      FileStep(g, w, c, d, at, n);
      NothingBelow(g, w, c, way, d, n);
      OnlyBy(g, v, c, w, c, way, d, n, File([]));
    }
  }

  lemma NewHead(g: Geometry, v: Vol, c: Catalog, k: nat)
    requires Founded(g, v, c) && LowestFree(v.fat, k)
    ensures k !in c.chains
  {
    if k in c.chains {
      HeadInChain(g, v.fat, c.chains, k);
      assert HeadOk(g, v.fat, c.chains, k);
      ChainUsed(g, v.fat, c.chains[k], k);
      assert false;
    }
  }

  lemma DirCreatedSame(g: Geometry, v: Vol, c: Catalog, w: Vol, next: Catalog, d: nat, at: nat, n: Name, k: nat, i: nat)
    requires DirCreated(g, v, c, w, next, d, at, n, k) && Rooted(g, v, c) && Rooted(g, w, next) && d in c.dirs
    requires !IsDotName(n)
    requires i < at && Find(TreeOf(g, v.data, c)[d], n) == i
    ensures SameEntry(g, v, c, w, next, d, i)
  {
    hide SlotMeaning, Untouched, Aside, Vacant, NewSlot, TreeOf, TreeOk, Headed, Disjoint, HasEnd, IsDir, Find;
    var s := TreeOf(g, v.data, c)[d][i];
    FoundEntry(g, v, c, d, n);
    NewHead(g, v, c, k);
    var h := FirstOf(s);
    if h in c.chains && !IsDir(s) {
      assert KeptChain(g, v.data, c, w.data, next, h);
    }
    KeptMeaning(g, v, c, w, next, s, d, i);
  }

  /** The same for a directory. */
  lemma DirCreatedMap(g: Geometry, v: Vol, c: Catalog, w: Vol, next: Catalog, way: seq<Name>, d: nat, at: nat, n: Name,
      k: nat)
    requires DirCreated(g, v, c, w, next, d, at, n, k) && Leads(g, v, c, way, d) && Nameable(n)
    ensures Rooted(g, v, c) && Rooted(g, w, next)
    ensures if Find(TreeOf(g, v.data, c)[d], n) < at then NoChange(g, v, c, w, next)
      else OnlyChange(g, v, c, w, next, way, n, Folder(k))
  {
    hide Founded, TreeOk, Aside, Untouched, TreeOf, DirAt, MeaningOf, Leads, Find, SlotMeaning, NewSlot, SameEntry,
      FirstFree, Kept, Vacant;
    ChangedFacts(g, v, c, w, next, d, n);
    DirSlot(n, k);
    CreatedFinds(TreeOf(g, v.data, c)[d], at, NewSlot(n, ATTR_DIRECTORY, k), n);
    var was := Find(TreeOf(g, v.data, c)[d], n);
    FirstFreeSlot(TreeOf(g, v.data, c)[d], at);
    if was < at {
      DirCreatedSame(g, v, c, w, next, d, at, n, k, was);
      NothingNew(g, v, c, w, next, way, d, n, was);
    } else {
      DirCreatedMeaning(g, v, c, w, next, way, d, at, n, k);
      OnlyBy(g, v, c, w, next, way, d, n, Folder(k));
    }
  }

  /** What a name finds once its first slot is deleted. */
  lemma LaterMatch(slots: seq<Slot>, at: nat, n: Name)
    requires FirstMatch(slots, n, at)
    ensures var rest: seq<Slot> := slots[at := slots[at][0 := DELETED]]; var j := Find(rest, n);
      j < |slots| ==> at < j && Matches(slots[j], n) && rest[j] == slots[j] && forall i :: at < i < j ==>
        !Matches(slots[i], n)
  {
    var rest: seq<Slot> := slots[at := slots[at][0 := DELETED]];
    var j := Find(rest, n);
    if j < |slots| {
      assert FirstMatch(rest, n, j);
      assert forall i :: at < i < j ==> rest[i] == slots[i];
    }
  }

  lemma DeletedSame(g: Geometry, v: Vol, c: Catalog, w: Vol, next: Catalog, d: nat, at: nat, n: Name, j: nat)
    requires EntryDeleted(g, v, c, w, next, d, at, n) && Rooted(g, v, c) && Rooted(g, w, next) && d in c.dirs
    requires d in next.dirs && !IsDotName(n)
    requires at < j < |TreeOf(g, v.data, c)[d]| && Matches(TreeOf(g, v.data, c)[d][j], n)
    ensures SameEntry(g, v, c, w, next, d, j)
  {
    hide SlotMeaning, Untouched, SameBut, Gone, WriteSlot, Erased;
    var t := TreeOf(g, v.data, c);
    var s := t[d][j];
    assert EntryOk(c, s, d, j, g.ClusterBytes());
    var h := FirstOf(s);
    if FirstOf(t[d][at]) != 0 {
      GoneCut(g.root, c, t, g.ClusterBytes(), d, at);
      CutApart(g.root, c, s, d, j, g.ClusterBytes(), d, at, FirstOf(t[d][at]), Gone(c, FirstOf(t[d][at])));
    }
    if h in c.chains && !IsDir(s) {
      WriteSlotBytes(g, v.fat, v.data, c, d, at, t[d][at][0 := DELETED], h);
    }
    KeptMeaning(g, v, c, w, next, s, d, j);
  }

  /** After deleting: without a later slot of the name nothing is left of the path and below it; with one,
    * the path means what that slot stands for. All other paths are as they were. */
  lemma DeletedMap(g: Geometry, v: Vol, c: Catalog, w: Vol, next: Catalog, way: seq<Name>, d: nat, at: nat, n: Name)
    requires EntryDeleted(g, v, c, w, next, d, at, n) && Leads(g, v, c, way, d) && !IsDotName(n)
    ensures Rooted(g, v, c) && Rooted(g, w, next) && d in c.dirs && d in next.dirs
    ensures var slots := TreeOf(g, v.data, c)[d]; var j := Find(TreeOf(g, w.data, next)[d], n);
      if j == |slots| then OnlyChange(g, v, c, w, next, way, n, Absent)
      else
        && at < j < |slots| && Matches(slots[j], n) && (forall i :: at < i < j ==> !Matches(slots[i], n))
        && forall names :: names != [] && NoDots(names) ==>
          MeaningOf(g, w, next, names) ==
            if !(way + [n] <= names) then MeaningOf(g, v, c, names)
            else if names == way + [n] then SlotMeaning(g, v.data, c.chains, slots[j])
            else if FirstOf(slots[j]) in c.dirs then MeaningFrom(g, v, c, FirstOf(slots[j]), names[|way| + 1..])
            else Absent
  {
    hide Founded, TreeOk, Aside, Untouched, TreeOf, DirAt, MeaningOf, MeaningFrom, Leads, Find, Step, SlotMeaning,
      SameEntry, WriteSlot, Erased, Without;
    ChangedFacts(g, v, c, w, next, d, n);
    StillLeads(g, v, c, w, next, way, d, n);
    LastMeaning(g, w, next, way, d, n);
    var slots := TreeOf(g, v.data, c)[d];
    var j := Find(TreeOf(g, w.data, next)[d], n);
    LaterMatch(slots, at, n);
    if j == |slots| {
      StepTo(TreeOf(g, w.data, next), d, n);
      NothingBelow(g, w, next, way, d, n);
      OnlyBy(g, v, c, w, next, way, d, n, Absent);
    } else {
      DeletedSame(g, v, c, w, next, d, at, n, j);
      FoundSame(g, v, c, w, next, way, d, n, j);
      forall names | names != [] && NoDots(names)
        ensures MeaningOf(g, w, next, names) ==
            if !(way + [n] <= names) then MeaningOf(g, v, c, names)
            else if names == way + [n] then SlotMeaning(g, v.data, c.chains, slots[j])
            else if FirstOf(slots[j]) in c.dirs then MeaningFrom(g, v, c, FirstOf(slots[j]), names[|way| + 1..])
            else Absent
      {
        if !(way + [n] <= names) {
          ChangedElsewhere(g, v, c, w, next, way, d, n, names);
        } else if names != way + [n] {
          assert names == way + [n] + names[|way| + 1..];
        }
      }
    }
  }
}
