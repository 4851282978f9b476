/**
  * The directory tree as a map from directory heads to their slots: what a consistent tree is,
  * how paths are looked up in it, and which lookups an update of one slot leaves alone.
  */
module FatTree {
  import opened Bytes
  import opened FatDirectory

  type Tree = map<nat, seq<Slot>>

  const SPACE: byte := 32
  const DOT: byte := 46
  const SELF_NAME: Name := [DOT, SPACE, SPACE, SPACE, SPACE, SPACE, SPACE, SPACE, SPACE, SPACE, SPACE]
  const PARENT_NAME: Name := [DOT, DOT, SPACE, SPACE, SPACE, SPACE, SPACE, SPACE, SPACE, SPACE, SPACE]

  predicate IsDotName(n: Name) { n == SELF_NAME || n == PARENT_NAME }

  /** A live slot that stands for a file or a directory of its own. */
  predicate IsEntry(s: Slot) { IsLive(s) && !IsDotName(NameOf(s)) }

  /** Which clusters hang together, which heads are directories, and which slot names each head. */
  datatype Catalog = Catalog(chains: map<nat, seq<nat>>, dirs: set<nat>, refs: map<nat, (nat, nat)>)

  /** `n` clusters of `clusterBytes` are just enough for `size` bytes. */
  ghost predicate Sized(n: nat, size: nat, clusterBytes: nat)
  {
    n > 0 && (n - 1) * clusterBytes < size <= n * clusterBytes
  }

  ghost predicate EntryOk(cat: Catalog, s: Slot, d: nat, i: nat, clusterBytes: nat)
  {
    var h := FirstOf(s);
    if h == 0 then SizeOf(s) == 0 && !IsDir(s)
    else
      && h in cat.refs && h in cat.chains
      && cat.refs[h] == (d, i)
      && (IsDir(s) <==> h in cat.dirs)
      && if IsDir(s) then SizeOf(s) == 0 else Sized(|cat.chains[h]|, SizeOf(s), clusterBytes)
  }

  /** The slot recorded for head `h` is an entry that names `h`. */
  ghost predicate RefOk(cat: Catalog, t: Tree, h: nat)
    requires h in cat.refs
  {
    var at := cat.refs[h];
    at.0 in t && at.1 < |t[at.0]| && IsEntry(t[at.0][at.1]) && FirstOf(t[at.0][at.1]) == h
  }

  /** The directory `k` levels above `d`, by the slots that are recorded. */
  ghost function Up(refs: map<nat, (nat, nat)>, d: nat, k: nat): nat
    decreases k
  {
    if k == 0 || d !in refs then d else Up(refs, refs[d].0, k - 1)
  }

  /** `d` is `top` or lies below it. */
  ghost predicate Below(refs: map<nat, (nat, nat)>, top: nat, d: nat)
  {
    exists k: nat :: Up(refs, d, k) == top
  }

  /** Every directory hangs under the root. */
  ghost predicate Hung(root: nat, cat: Catalog)
  {
    forall d {:trigger Below(cat.refs, root, d)} :: d in cat.dirs ==> Below(cat.refs, root, d)
  }

  /** Every directory is terminated and hangs under the root, every entry is sound, and every chain but
    * the root's is named by exactly one entry. */
  ghost predicate TreeOk(root: nat, cat: Catalog, t: Tree, clusterBytes: nat)
  {
    && cat.dirs <= cat.chains.Keys
    && root in cat.dirs
    && 0 !in cat.chains
    && t.Keys == cat.dirs
    && cat.refs.Keys == cat.chains.Keys - {root}
    && Hung(root, cat)
    && (forall d :: d in t ==> Terminated(t[d]))
    && (forall h {:trigger RefOk(cat, t, h)} :: h in cat.refs ==> RefOk(cat, t, h))
    && (forall d, i {:trigger EntryOk(cat, t[d][i], d, i, clusterBytes)} ::
         d in t && 0 <= i < |t[d]| && IsEntry(t[d][i]) ==> EntryOk(cat, t[d][i], d, i, clusterBytes))
  }

  ghost function SetSlot(t: Tree, d: nat, i: nat, s: Slot): (r: Tree)
    requires d in t && i < |t[d]|
    ensures r.Keys == t.Keys
  {
    var row: seq<Slot> := t[d];
    var changed: seq<Slot> := row[i := s];
    t[d := changed]
  }

  // ── hanging under the root ──

  /** Going up from `d` meets nothing but `dirs`, and there both records agree. */
  lemma {:induction false} UpSame(refs: map<nat, (nat, nat)>, next: map<nat, (nat, nat)>, dirs: set<nat>, d: nat,
      k: nat)
    requires d in dirs
    requires forall e :: e in dirs && e in refs ==> e in next && next[e] == refs[e] && refs[e].0 in dirs
    requires forall e :: e in dirs && e in next ==> e in refs
    ensures Up(next, d, k) == Up(refs, d, k)
    decreases k
  {
    if k > 0 && d in refs {
      UpSame(refs, next, dirs, refs[d].0, k - 1);
    }
  }

  lemma {:induction false} UpAdd(refs: map<nat, (nat, nat)>, d: nat, j: nat, k: nat)
    ensures Up(refs, Up(refs, d, j), k) == Up(refs, d, j + k)
    decreases j
  {
    if j > 0 && d in refs {
      UpAdd(refs, refs[d].0, j - 1, k);
    }
  }

  lemma HungSame(root: nat, cat: Catalog, next: Catalog)
    requires Hung(root, cat) && next.dirs <= cat.dirs
    requires forall e :: e in next.dirs && e in cat.refs ==>
      e in next.refs && next.refs[e] == cat.refs[e] && cat.refs[e].0 in next.dirs
    requires forall e :: e in next.dirs && e in next.refs ==> e in cat.refs
    ensures Hung(root, next)
  {
    forall d | d in next.dirs
      ensures Below(next.refs, root, d)
    {
      assert Below(cat.refs, root, d);
      var k: nat :| Up(cat.refs, d, k) == root;
      UpSame(cat.refs, next.refs, next.dirs, d, k);
    }
  }

  /** What every slot on record lies in is a directory. */
  ghost predicate InDirs(cat: Catalog)
  {
    forall x :: x in cat.refs ==> cat.refs[x].0 in cat.dirs
  }

  lemma RefsInDirs(root: nat, cat: Catalog, t: Tree, cb: nat)
    requires TreeOk(root, cat, t, cb)
    ensures InDirs(cat) && Hung(root, cat)
  {
    forall x | x in cat.refs
      ensures cat.refs[x].0 in cat.dirs
    {
      assert RefOk(cat, t, x);
    }
  }

  lemma HungWith(root: nat, cat: Catalog, h: nat, ch: seq<nat>, d: nat, at: nat)
    requires InDirs(cat) && Hung(root, cat) && h !in cat.dirs
    ensures Hung(root, Catalog(cat.chains[h := ch], cat.dirs, cat.refs[h := (d, at)]))
  {
    HungSame(root, cat, Catalog(cat.chains[h := ch], cat.dirs, cat.refs[h := (d, at)]));
  }

  lemma HungDir(root: nat, cat: Catalog, c: nat, d: nat, at: nat)
    requires InDirs(cat) && Hung(root, cat) && c !in cat.dirs && d in cat.dirs
    ensures Hung(root, Catalog(cat.chains[c := [c]], cat.dirs + {c}, cat.refs[c := (d, at)]))
  {
    var next := Catalog(cat.chains[c := [c]], cat.dirs + {c}, cat.refs[c := (d, at)]);
    forall e | e in next.dirs
      ensures Below(next.refs, root, e)
    {
      var from := if e == c then d else e;
      assert Below(cat.refs, root, from);
      var k: nat :| Up(cat.refs, from, k) == root;
      UpSame(cat.refs, next.refs, cat.dirs, from, k);
      if e == c {
        assert Up(next.refs, c, k + 1) == root;
      }
    }
  }

  // ── cutting off what lies below an entry ──

  /** The head `h` and all that lies below it. */
  ghost function Gone(cat: Catalog, h: nat): set<nat>
  {
    set x | x in cat.chains.Keys && Below(cat.refs, h, x)
  }

  /** `gone` can be cut off at slot `i` of directory `d`, which names `h`: it holds `h` and, with a
    * directory, all that is named in it. */
  ghost predicate Cut(root: nat, cat: Catalog, d: nat, i: nat, h: nat, gone: set<nat>)
  {
    && h in gone && d !in gone && root !in gone
    && h in cat.refs && cat.refs[h] == (d, i)
    && (forall x :: x in cat.refs && cat.refs[x].0 in gone ==> x in gone)
    && (forall x :: x in gone ==> x in cat.refs && (x == h || cat.refs[x].0 in gone))
  }

  /** Nothing lies below itself. */
  lemma {:induction false} NoLoop(refs: map<nat, (nat, nat)>, root: nat, d: nat, p: nat, j: nat)
    requires p > 0 && Up(refs, d, p) == d && Up(refs, d, j) == root && root !in refs
    ensures d == root
    decreases j
  {
    if j <= p {
      UpAdd(refs, d, j, p - j);
    } else {
      UpAdd(refs, d, p, j - p);
      NoLoop(refs, root, d, p, j - p);
    }
  }

  lemma NotBelow(root: nat, cat: Catalog, t: Tree, cb: nat, d: nat, h: nat)
    requires TreeOk(root, cat, t, cb) && d in t && h in cat.refs && cat.refs[h].0 == d
    ensures d !in Gone(cat, h) && root !in Gone(cat, h)
  {
    assert forall k: nat :: Up(cat.refs, root, k) == root;
    if d in Gone(cat, h) {
      var k: nat :| Up(cat.refs, d, k) == h;
      UpAdd(cat.refs, d, k, 1);
      assert Up(cat.refs, h, 1) == d;
      assert Below(cat.refs, root, d);
      var j: nat :| Up(cat.refs, d, j) == root;
      NoLoop(cat.refs, root, d, k + 1, j);
      assert false;
    }
  }

  lemma GoneCut(root: nat, cat: Catalog, t: Tree, cb: nat, d: nat, i: nat)
    requires TreeOk(root, cat, t, cb) && d in t && i < |t[d]| && IsEntry(t[d][i]) && FirstOf(t[d][i]) != 0
    ensures Cut(root, cat, d, i, FirstOf(t[d][i]), Gone(cat, FirstOf(t[d][i])))
  {
    var h := FirstOf(t[d][i]);
    var gone := Gone(cat, h);
    assert EntryOk(cat, t[d][i], d, i, cb);
    NotBelow(root, cat, t, cb, d, h);
    assert Up(cat.refs, h, 0) == h;
    forall x | x in cat.refs && cat.refs[x].0 in gone
      ensures x in gone
    {
      var k: nat :| Up(cat.refs, cat.refs[x].0, k) == h;
      assert Up(cat.refs, x, k + 1) == h;
    }
    RefsInDirs(root, cat, t, cb);
    forall x | x in gone
      ensures x in cat.refs && (x == h || cat.refs[x].0 in gone)
    {
      var k: nat :| Up(cat.refs, x, k) == h;
      if x != h {
        assert Up(cat.refs, cat.refs[x].0, k - 1) == h;
      }
    }
  }

  lemma HungCut(root: nat, cat: Catalog, d: nat, i: nat, h: nat, gone: set<nat>)
    requires InDirs(cat) && Hung(root, cat) && Cut(root, cat, d, i, h, gone)
    ensures Hung(root, Catalog(cat.chains - gone, cat.dirs - gone, cat.refs - gone))
  {
    HungSame(root, cat, Catalog(cat.chains - gone, cat.dirs - gone, cat.refs - gone));
  }

  /** An entry outside what is cut off, but for the one cut, names no head of it. */
  lemma CutApart(root: nat, cat: Catalog, s: Slot, e: nat, j: nat, cb: nat, d: nat, i: nat, h: nat, gone: set<nat>)
    requires Cut(root, cat, d, i, h, gone) && EntryOk(cat, s, e, j, cb) && 0 !in cat.chains
    requires cat.refs.Keys <= cat.chains.Keys
    requires e !in gone && (e, j) != (d, i)
    ensures FirstOf(s) !in gone
  {
  }

  // ── updates that keep a tree consistent ──

  /** Filling or emptying a slot that owns no chain. */
  lemma PutPlain(root: nat, cat: Catalog, t: Tree, d: nat, i: nat, s: Slot, cb: nat)
    requires TreeOk(root, cat, t, cb) && d in t && i < |t[d]|
    requires forall j :: 0 <= j < i ==> !IsEnd(t[d][j])
    requires IsEntry(t[d][i]) ==> FirstOf(t[d][i]) == 0
    requires !IsEnd(s)
    requires IsEntry(s) ==> FirstOf(s) == 0 && SizeOf(s) == 0 && !IsDir(s)
    ensures TreeOk(root, cat, SetSlot(t, d, i, s), cb)
  {
    var r := SetSlot(t, d, i, s);
    TerminatedPut(t[d], i, s);
    forall h | h in cat.refs
      ensures RefOk(cat, r, h)
    {
      assert RefOk(cat, t, h);
      assert h in cat.chains.Keys;
      assert cat.refs[h] != (d, i);
    }
    forall e, j | e in r && 0 <= j < |r[e]| && IsEntry(r[e][j])
      ensures EntryOk(cat, r[e][j], e, j, cb)
    {
      if (e, j) != (d, i) {
        assert EntryOk(cat, t[e][j], e, j, cb);
      }
    }
  }

  /** Naming a new chain of a file by an entry that owned none. */
  lemma PutFile(root: nat, cat: Catalog, t: Tree, d: nat, i: nat, s: Slot, ch: seq<nat>, cb: nat)
    requires TreeOk(root, cat, t, cb) && d in t && i < |t[d]|
    requires IsEntry(t[d][i]) && FirstOf(t[d][i]) == 0
    requires IsEntry(s) && !IsDir(s) && |ch| > 0 && FirstOf(s) == ch[0] && Sized(|ch|, SizeOf(s), cb)
    requires ch[0] != 0 && ch[0] !in cat.chains
    ensures TreeOk(root, Catalog(cat.chains[ch[0] := ch], cat.dirs, cat.refs[ch[0] := (d, i)]), SetSlot(t, d, i, s), cb)
  {
    hide Hung, InDirs;
    var r := SetSlot(t, d, i, s);
    var next := Catalog(cat.chains[ch[0] := ch], cat.dirs, cat.refs[ch[0] := (d, i)]);
    NoEndBefore(t[d], i);
    TerminatedPut(t[d], i, s);
    RefsInDirs(root, cat, t, cb);
    HungWith(root, cat, ch[0], ch, d, i);
    forall h | h in next.refs
      ensures RefOk(next, r, h)
    {
      if h != ch[0] {
        assert RefOk(cat, t, h);
      }
    }
    forall e, j | e in r && 0 <= j < |r[e]| && IsEntry(r[e][j])
      ensures EntryOk(next, r[e][j], e, j, cb)
    {
      if (e, j) != (d, i) {
        assert EntryOk(cat, t[e][j], e, j, cb);
      }
    }
  }

  /** Adding an empty directory under a free slot. */
  lemma PutDir(root: nat, cat: Catalog, t: Tree, d: nat, i: nat, s: Slot, c: nat, slots: seq<Slot>, cb: nat)
    requires TreeOk(root, cat, t, cb) && d in t && i < |t[d]|
    requires IsFree(t[d][i]) && forall j :: 0 <= j < i ==> !IsEnd(t[d][j])
    requires IsEntry(s) && IsDir(s) && FirstOf(s) == c && SizeOf(s) == 0
    requires c != 0 && c !in cat.chains
    requires Terminated(slots) && forall j :: 0 <= j < |slots| ==> !IsEntry(slots[j])
    ensures TreeOk(root, Catalog(cat.chains[c := [c]], cat.dirs + {c}, cat.refs[c := (d, i)]),
      SetSlot(t, d, i, s)[c := slots], cb)
  {
    hide Hung, InDirs;
    var r := SetSlot(t, d, i, s)[c := slots];
    var next := Catalog(cat.chains[c := [c]], cat.dirs + {c}, cat.refs[c := (d, i)]);
    TerminatedPut(t[d], i, s);
    RefsInDirs(root, cat, t, cb);
    HungDir(root, cat, c, d, i);
    forall h | h in next.refs
      ensures RefOk(next, r, h)
    {
      if h != c {
        assert RefOk(cat, t, h);
      }
    }
    forall e, j | e in r && 0 <= j < |r[e]| && IsEntry(r[e][j])
      ensures EntryOk(next, r[e][j], e, j, cb)
    {
      if (e, j) != (d, i) {
        assert EntryOk(cat, t[e][j], e, j, cb);
      }
    }
  }

  /** No entry is left in directory `h`; true of every head that is not a directory. */
  ghost predicate Vacant(t: Tree, h: nat)
  {
    h in t ==> forall j :: 0 <= j < |t[h]| ==> !IsEntry(t[h][j])
  }

  /** No chain is named in directory `h`; true of every head that is not a directory. */
  ghost predicate NamesNone(t: Tree, h: nat)
  {
    h in t ==> forall j :: 0 <= j < |t[h]| && IsEntry(t[h][j]) ==> FirstOf(t[h][j]) == 0
  }

  lemma {:induction false} NextBelow(refs: map<nat, (nat, nat)>, h: nat, x: nat, k: nat) returns (y: nat)
    requires Up(refs, x, k) == h && x != h
    ensures y in refs && refs[y].0 == h
    decreases k
  {
    if refs[x].0 == h {
      y := x;
    } else {
      y := NextBelow(refs, h, refs[x].0, k - 1);
    }
  }

  /** With an entry nothing but its own head is cut off exactly when it is not a directory that names a
    * chain. */
  lemma GoneAlone(root: nat, cat: Catalog, t: Tree, cb: nat, d: nat, i: nat)
    requires TreeOk(root, cat, t, cb) && d in t && i < |t[d]| && IsEntry(t[d][i]) && FirstOf(t[d][i]) != 0
    ensures Gone(cat, FirstOf(t[d][i])) == {FirstOf(t[d][i])} <==> NamesNone(t, FirstOf(t[d][i]))
  {
    var h := FirstOf(t[d][i]);
    GoneCut(root, cat, t, cb, d, i);
    if NamesNone(t, h) {
      forall y | y in cat.refs
        ensures cat.refs[y].0 != h
      {
        assert RefOk(cat, t, y);
      }
      forall x | x in Gone(cat, h)
        ensures x == h
      {
        var k: nat :| Up(cat.refs, x, k) == h;
        if x != h {
          var y := NextBelow(cat.refs, h, x, k);
          assert false;
        }
      }
    } else {
      var j :| 0 <= j < |t[h]| && IsEntry(t[h][j]) && FirstOf(t[h][j]) != 0;
      assert EntryOk(cat, t[h][j], h, j, cb);
      var y := FirstOf(t[h][j]);
      assert Up(cat.refs, y, 1) == h;
      assert y in Gone(cat, h) && y != h;
    }
  }

  /** Removing an entry with its chain, and what lies below it. */
  lemma PutRemoved(root: nat, cat: Catalog, t: Tree, d: nat, i: nat, s: Slot, cb: nat, gone: set<nat>)
    requires TreeOk(root, cat, t, cb) && d in t && i < |t[d]|
    requires IsEntry(t[d][i]) && FirstOf(t[d][i]) != 0 && Cut(root, cat, d, i, FirstOf(t[d][i]), gone)
    requires !IsEnd(s) && !IsEntry(s)
    ensures TreeOk(root, Catalog(cat.chains - gone, cat.dirs - gone, cat.refs - gone), SetSlot(t, d, i, s) - gone, cb)
  {
    hide Hung, InDirs;
    var h := FirstOf(t[d][i]);
    var r := SetSlot(t, d, i, s) - gone;
    var next := Catalog(cat.chains - gone, cat.dirs - gone, cat.refs - gone);
    NoEndBefore(t[d], i);
    TerminatedPut(t[d], i, s);
    RefsInDirs(root, cat, t, cb);
    HungCut(root, cat, d, i, h, gone);
    forall x | x in next.refs
      ensures RefOk(next, r, x)
    {
      assert RefOk(cat, t, x);
    }
    forall e, j | e in r && 0 <= j < |r[e]| && IsEntry(r[e][j])
      ensures EntryOk(next, r[e][j], e, j, cb)
    {
      assert EntryOk(cat, t[e][j], e, j, cb);
      CutApart(root, cat, t[e][j], e, j, cb, d, i, h, gone);
    }
  }

  // ── looking up paths ──

  /** The outcome of following names through directories. */
  datatype Place = At(dir: nat) | Missing | NotADir

  /** One lookup step from directory `d`. */
  ghost function Step(t: Tree, d: nat, n: Name): (p: Place)
    requires d in t
    ensures p.At? ==> p.dir in t
  {
    var i := Find(t[d], n);
    if i == |t[d]| then Missing
    else if FirstOf(t[d][i]) in t then At(FirstOf(t[d][i]))
    else NotADir
  }

  /** The directory that `names` lead to from `d`. */
  ghost function DirAt(t: Tree, d: nat, names: seq<Name>): (p: Place)
    requires d in t
    ensures p.At? ==> p.dir in t
    decreases |names|
  {
    if names == [] then At(d)
    else
      var n := |names| - 1;
      var p := DirAt(t, d, names[..n]);
      if p.At? then Step(t, p.dir, names[n]) else p
  }

  datatype Hit = Hit(dir: nat, idx: nat) | NoHit

  /** The slot that a whole path names. */
  ghost function Lookup(t: Tree, d: nat, names: seq<Name>): (r: Hit)
    requires d in t && names != []
    ensures r.Hit? ==> r.dir in t && r.idx < |t[r.dir]| && Matches(t[r.dir][r.idx], names[|names| - 1])
  {
    var n := |names| - 1;
    var p := DirAt(t, d, names[..n]);
    if p.At? && Find(t[p.dir], names[n]) < |t[p.dir]| then Hit(p.dir, Find(t[p.dir], names[n])) else NoHit
  }

  ghost predicate NoDots(names: seq<Name>)
  {
    forall k :: 0 <= k < |names| ==> !IsDotName(names[k])
  }

  /** Following one name of a dot-free path enters a directory whose recorded slot is that entry. */
  lemma StepRef(root: nat, cat: Catalog, t: Tree, cb: nat, d: nat, n: Name)
    requires TreeOk(root, cat, t, cb) && d in t && !IsDotName(n) && Step(t, d, n).At?
    ensures var i := Find(t[d], n); var s := t[d][i];
      && FirstOf(s) == Step(t, d, n).dir
      && IsEntry(s) && NameOf(s) == n && IsDir(s) && SizeOf(s) == 0
      && FirstOf(s) in cat.refs && cat.refs[FirstOf(s)] == (d, i) && FirstOf(s) != root
  {
    var i := Find(t[d], n);
    assert FirstMatch(t[d], n, i);
    assert EntryOk(cat, t[d][i], d, i, cb);
  }

  /** A directory of a consistent tree is reached from the root by one dot-free path at most. */
  lemma {:induction false} OnePath(root: nat, cat: Catalog, t: Tree, cb: nat, a: seq<Name>, b: seq<Name>)
    requires TreeOk(root, cat, t, cb) && NoDots(a) && NoDots(b)
    requires DirAt(t, root, a).At? && DirAt(t, root, a) == DirAt(t, root, b)
    ensures a == b
    decreases |a| + |b|
  {
    if |a| > 0 {
      StepRef(root, cat, t, cb, DirAt(t, root, a[..|a| - 1]).dir, a[|a| - 1]);
    }
    if |b| > 0 {
      StepRef(root, cat, t, cb, DirAt(t, root, b[..|b| - 1]).dir, b[|b| - 1]);
    }
    if |a| > 0 && |b| > 0 {
      OnePath(root, cat, t, cb, a[..|a| - 1], b[..|b| - 1]);
      assert a == a[..|a| - 1] + [a[|a| - 1]] && b == b[..|b| - 1] + [b[|b| - 1]];
    }
  }

  /** Following names in two parts. */
  lemma {:induction false} DirAtJoin(t: Tree, from: nat, a: seq<Name>, b: seq<Name>)
    requires from in t
    ensures var p := DirAt(t, from, a); DirAt(t, from, a + b) == if p.At? then DirAt(t, p.dir, b) else p
    decreases |b|
  {
    if b == [] {
      assert a + b == a;
    } else {
      var n := |b| - 1;
      DirAtJoin(t, from, a, b[..n]);
      assert (a + b)[..|a + b| - 1] == a + b[..n];
    }
  }

  lemma LookupJoin(t: Tree, from: nat, a: seq<Name>, b: seq<Name>)
    requires from in t && b != []
    ensures var p := DirAt(t, from, a); Lookup(t, from, a + b) == if p.At? then Lookup(t, p.dir, b) else NoHit
  {
    var n := |b| - 1;
    DirAtJoin(t, from, a, b[..n]);
    assert (a + b)[..|a + b| - 1] == a + b[..n];
  }

  /** A dot-free path leads down: going up again as often gets back to where it started. */
  lemma {:induction false} LeadsDown(root: nat, cat: Catalog, t: Tree, cb: nat, from: nat, names: seq<Name>)
    requires TreeOk(root, cat, t, cb) && from in t && NoDots(names) && DirAt(t, from, names).At?
    ensures Up(cat.refs, DirAt(t, from, names).dir, |names|) == from
    decreases |names|
  {
    if names != [] {
      var k := |names| - 1;
      LeadsDown(root, cat, t, cb, from, names[..k]);
      StepRef(root, cat, t, cb, DirAt(t, from, names[..k]).dir, names[k]);
    }
  }

  /** The path never looks up `n` in directory `d`. */
  ghost predicate Avoids(t: Tree, root: nat, names: seq<Name>, d: nat, n: Name)
    requires root in t
  {
    forall k :: 0 <= k < |names| && names[k] == n ==> DirAt(t, root, names[..k]) != At(d)
  }

  /** On the way to a directory, a dot-free path does not look anything up in that directory. */
  lemma WayAvoids(root: nat, cat: Catalog, t: Tree, cb: nat, names: seq<Name>, d: nat, n: Name)
    requires TreeOk(root, cat, t, cb) && NoDots(names) && DirAt(t, root, names) == At(d)
    ensures Avoids(t, root, names, d, n)
  {
    forall k | 0 <= k < |names| && names[k] == n
      ensures DirAt(t, root, names[..k]) != At(d)
    {
      if DirAt(t, root, names[..k]) == At(d) {
        OnePath(root, cat, t, cb, names[..k], names);
      }
    }
  }

  /** From a directory that lies in `d`, a dot-free path never gets back to `d`. */
  lemma BelowAvoids(root: nat, cat: Catalog, t: Tree, cb: nat, e: nat, names: seq<Name>, d: nat, n: Name)
    requires TreeOk(root, cat, t, cb) && e in t && e in cat.refs && cat.refs[e].0 == d && NoDots(names)
    ensures Avoids(t, e, names, d, n)
  {
    RefsInDirs(root, cat, t, cb);
    NotBelow(root, cat, t, cb, d, e);
    assert forall k: nat :: Up(cat.refs, d, k) != e;
    forall k | 0 <= k < |names| && names[k] == n
      ensures DirAt(t, e, names[..k]) != At(d)
    {
      if DirAt(t, e, names[..k]) == At(d) {
        LeadsDown(root, cat, t, cb, e, names[..k]);
      }
    }
  }

  /** Looking up `n` in `d` meets the same slot in both trees and goes on in both or in neither. */
  ghost predicate SameStep(t: Tree, u: Tree, d: nat, n: Name)
  {
    && d in t && d in u && |t[d]| == |u[d]|
    && Find(u[d], n) == Find(t[d], n)
    && (Find(t[d], n) < |t[d]| ==>
      var i := Find(t[d], n);
      u[d][i] == t[d][i] && (FirstOf(t[d][i]) in t <==> FirstOf(t[d][i]) in u))
  }

  /** Two trees that differ only in what name `n` means in directory `d`. */
  ghost predicate SameBut(t: Tree, u: Tree, d: nat, n: Name)
  {
    forall e, m :: e in t && e in u && !IsDotName(m) && !(e == d && m == n) ==> SameStep(t, u, e, m)
  }

  lemma {:induction false} DirFrame(t: Tree, u: Tree, root: nat, names: seq<Name>, d: nat, n: Name)
    requires SameBut(t, u, d, n) && root in t && root in u
    requires NoDots(names) && Avoids(t, root, names, d, n)
    ensures DirAt(u, root, names) == DirAt(t, root, names)
    decreases |names|
  {
    if names != [] {
      var k := |names| - 1;
      assert forall j :: 0 <= j < k ==> names[..k][..j] == names[..j];
      DirFrame(t, u, root, names[..k], d, n);
      var p := DirAt(t, root, names[..k]);
      if p.At? {
        assert SameStep(t, u, p.dir, names[k]);
      }
    }
  }

  /** A path that avoids the changed name leads to the same slot with the same content. */
  lemma LookupFrame(t: Tree, u: Tree, root: nat, names: seq<Name>, d: nat, n: Name)
    requires SameBut(t, u, d, n) && root in t && root in u && names != []
    requires NoDots(names) && Avoids(t, root, names, d, n)
    ensures Lookup(u, root, names) == Lookup(t, root, names)
    ensures var r := Lookup(t, root, names);
      r.Hit? ==> r.dir in u && r.idx < |u[r.dir]| && u[r.dir][r.idx] == t[r.dir][r.idx]
  {
    var k := |names| - 1;
    assert forall j :: 0 <= j < k ==> names[..k][..j] == names[..j];
    DirFrame(t, u, root, names[..k], d, n);
    var p := DirAt(t, root, names[..k]);
    if p.At? {
      assert SameStep(t, u, p.dir, names[k]);
    }
  }

  /** What a dot-free path hits is a sound entry, and not the slot of the name it avoids. */
  lemma HitEntry(root: nat, cat: Catalog, t: Tree, cb: nat, from: nat, names: seq<Name>, d: nat, i: nat, n: Name)
    requires TreeOk(root, cat, t, cb) && from in t && names != [] && NoDots(names) && Avoids(t, from, names, d, n)
    requires Lookup(t, from, names).Hit?
    requires d in t && i < |t[d]|
    ensures var r := Lookup(t, from, names);
      && IsEntry(t[r.dir][r.idx])
      && EntryOk(cat, t[r.dir][r.idx], r.dir, r.idx, cb)
      && (NameOf(t[d][i]) == n ==> (r.dir, r.idx) != (d, i))
  {
    assert DirAt(t, from, names[..|names| - 1]) == At(Lookup(t, from, names).dir);
  }

  /** Changing one slot that carries no other name than `n`, before and after. */
  lemma SetSlotSame(root: nat, cat: Catalog, t: Tree, cb: nat, d: nat, i: nat, s: Slot, n: Name)
    requires TreeOk(root, cat, t, cb) && d in t && i < |t[d]|
    requires !IsEnd(s) && forall j :: 0 <= j < i ==> !IsEnd(t[d][j])
    requires IsLive(t[d][i]) ==> NameOf(t[d][i]) == n
    requires IsLive(s) ==> NameOf(s) == n
    ensures SameBut(t, SetSlot(t, d, i, s), d, n)
  {
    var u := SetSlot(t, d, i, s);
    forall e, m | e in t && e in u && !IsDotName(m) && !(e == d && m == n)
      ensures SameStep(t, u, e, m)
    {
      if e == d {
        FindFrame(t[d], i, s, m);
        var q := Find(t[d], m);
        assert q < |t[d]| ==> FirstMatch(t[d], m, q);
      }
    }
  }

  /** The same, with what lies below the removed entry gone. */
  lemma RemoveSame(root: nat, cat: Catalog, t: Tree, cb: nat, d: nat, i: nat, s: Slot, n: Name, gone: set<nat>)
    requires TreeOk(root, cat, t, cb) && d in t && i < |t[d]|
    requires IsEntry(t[d][i]) && NameOf(t[d][i]) == n && FirstOf(t[d][i]) != 0
    requires Cut(root, cat, d, i, FirstOf(t[d][i]), gone)
    requires !IsEnd(s) && !IsLive(s)
    ensures SameBut(t, SetSlot(t, d, i, s) - gone, d, n)
  {
    var h := FirstOf(t[d][i]);
    var u := SetSlot(t, d, i, s) - gone;
    NoEndBefore(t[d], i);
    SetSlotSame(root, cat, t, cb, d, i, s, n);
    forall e, m | e in t && e in u && !IsDotName(m) && !(e == d && m == n)
      ensures SameStep(t, u, e, m)
    {
      assert SameStep(t, SetSlot(t, d, i, s), e, m);
      var q := Find(t[e], m);
      if q < |t[e]| {
        assert FirstMatch(t[e], m, q);
        assert EntryOk(cat, t[e][q], e, q, cb);
        CutApart(root, cat, t[e][q], e, q, cb, d, i, h, gone);
      }
    }
  }

  /** The same, with a directory added under the changed slot. */
  lemma AddSame(root: nat, cat: Catalog, t: Tree, cb: nat, d: nat, i: nat, s: Slot, n: Name, c: nat, slots: seq<Slot>)
    requires TreeOk(root, cat, t, cb) && d in t && i < |t[d]|
    requires IsFree(t[d][i]) && forall j :: 0 <= j < i ==> !IsEnd(t[d][j])
    requires !IsEnd(s) && (IsLive(s) ==> NameOf(s) == n)
    requires c != 0 && c !in cat.chains
    ensures SameBut(t, SetSlot(t, d, i, s)[c := slots], d, n)
  {
    var u := SetSlot(t, d, i, s)[c := slots];
    SetSlotSame(root, cat, t, cb, d, i, s, n);
    forall e, m | e in t && e in u && !IsDotName(m) && !(e == d && m == n)
      ensures SameStep(t, u, e, m)
    {
      assert SameStep(t, SetSlot(t, d, i, s), e, m);
      var q := Find(t[e], m);
      if q < |t[e]| {
        assert FirstMatch(t[e], m, q);
        assert EntryOk(cat, t[e][q], e, q, cb);
      }
    }
  }
}
