/**
  * Paths: the components that opening a path walks through, and the directory and file name that
  * creating, writing and deleting split it into. The two agree on some paths only.
  */
module FatPaths {
  import opened Bytes
  import opened FatDirectory
  import opened FatNames

  const SLASH: byte := 47

  // ── as opening reads a path ──

  ghost predicate IsFirst(p: Text, n: int)
  {
    0 <= n <= |p| && (n < |p| ==> p[n] == SLASH) && forall k :: 0 <= k < n ==> p[k] != SLASH
  }

  lemma {:induction false} FirstExists(p: Text, lo: nat)
    requires lo <= |p| && forall k :: 0 <= k < lo ==> p[k] != SLASH
    ensures exists n :: IsFirst(p, n)
    decreases |p| - lo
  {
    if lo == |p| || p[lo] == SLASH {
      assert IsFirst(p, lo);
    } else {
      FirstExists(p, lo + 1);
    }
  }

  /** The index of the first slash, or the length of the path. */
  ghost function FirstSlash(p: Text): (n: nat)
    ensures IsFirst(p, n)
  {
    FirstExists(p, 0);
    var n :| IsFirst(p, n);
    n
  }

  /** What is left of a path after its first component and the slash behind it. */
  ghost function AfterFirst(p: Text): (r: Text)
    requires p != []
    ensures |r| < |p|
  {
    var n := FirstSlash(p);
    if n < |p| then p[n + 1..] else []
  }

  ghost function Split(p: Text): seq<Text>
    decreases |p|
  {
    if p == [] then [] else [p[..FirstSlash(p)]] + Split(AfterFirst(p))
  }

  function Stripped(path: Text): Text
  {
    if path != [] && path[0] == SLASH then path[1..] else path
  }

  ghost function Components(path: Text): seq<Text> { Split(Stripped(path)) }

  // ── as creating, writing and deleting read it ──

  ghost function DirPath(path: Text): Text
  {
    var slash := LastIndex(path, SLASH);
    if slash >= 0 then path[..slash] else []
  }

  ghost function FileName(path: Text): Text { path[LastIndex(path, SLASH) + 1..] }

  predicate NamesRoot(dirPath: Text) { dirPath == [] || dirPath == [SLASH] }

  /** The components of the parent directory. */
  ghost function DirComponents(path: Text): seq<Text>
  {
    if NamesRoot(DirPath(path)) then [] else Components(DirPath(path))
  }

  ghost function Encode(components: seq<Text>): (names: seq<Name>)
    ensures |names| == |components|
    ensures forall k :: 0 <= k < |names| ==> names[k] == ShortName(components[k])
  {
    seq(|components|, k requires 0 <= k < |components| => ShortName(components[k]))
  }

  /** Splitting, one component at a time. */
  lemma SplitOn(rest: Text, all: seq<Text>, k: nat)
    requires k <= |all| && rest != [] && Split(rest) == all[k..]
    ensures k < |all| && all[k] == rest[..FirstSlash(rest)] && Split(AfterFirst(rest)) == all[k + 1..]
  {
    assert all[k..][1..] == all[k + 1..];
    assert Split(rest)[1..] == Split(AfterFirst(rest));
  }

  // ── when the two agree ──

  /** The pieces between slashes, empty ones included. */
  ghost function Fields(p: Text): (f: seq<Text>)
    ensures |f| > 0
    decreases |p|
  {
    var n := FirstSlash(p);
    if n == |p| then [p] else [p[..n]] + Fields(p[n + 1..])
  }

  lemma FirstSlashIs(p: Text, n: nat)
    requires IsFirst(p, n)
    ensures FirstSlash(p) == n
  {
    var m := FirstSlash(p);
    assert !(m < n) && !(n < m);
  }

  lemma {:induction false} FieldsJoin(q: Text, f: Text)
    requires SLASH !in f
    ensures Fields(q + [SLASH] + f) == Fields(q) + [f]
    decreases |q|
  {
    var p := q + [SLASH] + f;
    var n := FirstSlash(q);
    FirstSlashIs(p, n);
    if n == |q| {
      assert p[n + 1..] == f && p[..n] == q;
      FirstSlashIs(f, |f|);
    } else {
      assert p[n + 1..] == q[n + 1..] + [SLASH] + f && p[..n] == q[..n];
      FieldsJoin(q[n + 1..], f);
    }
  }

  /** A row of fields without an empty last one. */
  ghost function Dropped(f: seq<Text>): seq<Text>
    requires |f| > 0
  {
    if f[|f| - 1] == [] then f[..|f| - 1] else f
  }

  lemma DroppedCons(h: Text, f: seq<Text>)
    requires |f| > 0
    ensures Dropped([h] + f) == [h] + Dropped(f)
  {
  }

  /** Opening drops an empty last field. */
  lemma {:induction false} SplitFields(p: Text)
    ensures Split(p) == Dropped(Fields(p))
    decreases |p|
  {
    if p != [] {
      var n := FirstSlash(p);
      var head, rest := p[..n], AfterFirst(p);
      assert Split(p) == [head] + Split(rest);
      if n < |p| {
        assert Fields(p) == [head] + Fields(rest);
        SplitFields(rest);
        DroppedCons(head, Fields(rest));
      } else {
        assert head == p && Fields(p) == [p];
      }
    }
  }

  lemma {:induction false} LastField(p: Text)
    ensures Fields(p)[|Fields(p)| - 1] == [] <==> p == [] || p[|p| - 1] == SLASH
    decreases |p|
  {
    var n := FirstSlash(p);
    if n < |p| {
      LastField(p[n + 1..]);
    }
  }

  ghost predicate EndsInSlash(p: Text) { p != [] && p[|p| - 1] == SLASH }

  lemma SplitPlain(f: Text)
    requires SLASH !in f
    ensures Split(f) == if f == [] then [] else [f]
  {
    FirstSlashIs(f, |f|);
    if f != [] {
      assert f[..|f|] == f && AfterFirst(f) == [];
      assert Split(f) == [f] + Split([]);
    }
  }

  lemma ShallowAgrees(path: Text)
    requires LastIndex(path, SLASH) <= 0
    ensures DirPath(path) == [] && DirComponents(path) == []
    ensures Components(path) == if FileName(path) == [] then [] else [FileName(path)]
  {
    assert Stripped(path) == FileName(path);
    SplitPlain(FileName(path));
  }

  lemma StrippedOver(dir: Text, f: Text)
    requires dir != []
    ensures Stripped(dir + [SLASH] + f) == Stripped(dir) + [SLASH] + f
    ensures EndsInSlash(dir) <==> Stripped(dir) == [] || Stripped(dir)[|Stripped(dir)| - 1] == SLASH
  {
    var p := dir + [SLASH] + f;
    if dir[0] == SLASH {
      assert p[1..] == dir[1..] + [SLASH] + f;
    }
  }

  lemma StrippedJoin(path: Text)
    requires LastIndex(path, SLASH) > 0
    ensures SLASH !in FileName(path) && DirPath(path) != []
    ensures path == DirPath(path) + [SLASH] + FileName(path)
    ensures Stripped(path) == Stripped(DirPath(path)) + [SLASH] + FileName(path)
  {
    var slash := LastIndex(path, SLASH);
    assert path == path[..slash] + [SLASH] + path[slash + 1..];
    StrippedOver(DirPath(path), FileName(path));
  }

  lemma DirSplit(path: Text)
    ensures DirComponents(path) == Split(Stripped(DirPath(path)))
  {
    assert Split([]) == [];
  }

  lemma DroppedSnoc(a: seq<Text>, f: Text)
    requires |a| > 0
    ensures Dropped(a + [f]) == Dropped(a) + [f] <==> ((f != []) != (a[|a| - 1] == []))
  {
    var n := |a| - 1;
    if f == [] {
      assert Dropped(a + [f]) == a;
      assert a[n] == [] ==> a == a[..n] + [f];
    } else {
      assert |Dropped(a + [f])| == |a| + 1;
    }
  }

  lemma SplitAgrees(q: Text, f: Text)
    requires SLASH !in f
    ensures Split(q + [SLASH] + f) == Split(q) + [f] <==> ((f != []) != (q == [] || q[|q| - 1] == SLASH))
  {
    FieldsJoin(q, f);
    SplitFields(q + [SLASH] + f);
    SplitFields(q);
    LastField(q);
    DroppedSnoc(Fields(q), f);
  }

  lemma DeepAgrees(path: Text)
    requires LastIndex(path, SLASH) > 0
    ensures Components(path) == DirComponents(path) + [FileName(path)] <==>
      ((FileName(path) != []) != EndsInSlash(DirPath(path)))
  {
    StrippedJoin(path);
    StrippedOver(DirPath(path), FileName(path));
    DirSplit(path);
    SplitAgrees(Stripped(DirPath(path)), FileName(path));
  }

  /** Opening walks the parent's components and then the file name exactly when either the file
    * name is not empty or the directory part ends in a slash, not both. */
  lemma OpenAgrees(path: Text)
    ensures Components(path) == DirComponents(path) + [FileName(path)] <==>
      ((FileName(path) != []) != EndsInSlash(DirPath(path)))
  {
    if LastIndex(path, SLASH) <= 0 {
      ShallowAgrees(path);
    } else {
      DeepAgrees(path);
    }
  }

  // ── paths as they are written ──

  /** Components one after another, a slash between them. */
  function Joined(parts: seq<Text>): Text
  {
    if parts == [] then []
    else if |parts| == 1 then parts[0]
    else parts[0] + [47] + Joined(parts[1..])
  }

  predicate Plain(parts: seq<Text>) { forall k :: 0 <= k < |parts| ==> parts[k] != [] && 47 !in parts[k] }

  lemma SplitHead(head: Text, rest: Text)
    requires 47 !in head
    ensures Split(head + [47] + rest) == [head] + Split(rest)
  {
    var p := head + [47] + rest;
    FirstSlashIs(p, |head|);
    assert p[..|head|] == head && p[|head| + 1..] == rest;
  }

  lemma {:induction false} SplitJoined(parts: seq<Text>)
    requires Plain(parts)
    ensures Split(Joined(parts)) == parts
    ensures parts != [] ==> Joined(parts) != [] && Joined(parts)[0] != 47
  {
    hide Split;
    if parts == [] {
      SplitPlain([]);
    } else if |parts| == 1 {
      SplitPlain(parts[0]);
    } else {
      SplitJoined(parts[1..]);
      SplitHead(parts[0], Joined(parts[1..]));
    }
  }

  /** Opening walks through the components that a path is written with, with or without a slash in front. */
  lemma JoinedComponents(parts: seq<Text>)
    requires Plain(parts)
    ensures Components(Joined(parts)) == parts && Components([47] + Joined(parts)) == parts
  {
    SplitJoined(parts);
    assert ([47] + Joined(parts))[1..] == Joined(parts);
  }

  lemma ParentOf(dir: Text, name: Text)
    requires 47 !in name
    ensures DirPath(dir + [47] + name) == dir && FileName(dir + [47] + name) == name
    ensures DirPath(name) == [] && FileName(name) == name
  {
    LastIndexIs(dir + [47] + name, SLASH, |dir|);
    LastIndexIs(name, SLASH, -1);
    assert (dir + [47] + name)[|dir| + 1..] == name;
  }

  /** And the writing calls take the last one for the name and the others for the directory. */
  lemma JoinedParent(parts: seq<Text>, name: Text)
    requires Plain(parts) && 47 !in name
    ensures var path := if parts == [] then name else Joined(parts) + [47] + name;
      DirComponents(path) == DirComponents([47] + path) == parts && FileName(path) == FileName([47] + path) == name
  {
    hide DirPath, FileName, Components;
    ParentOf(Joined(parts), name);
    ParentOf([47] + Joined(parts), name);
    assert [] + [47] + name == [47] + name;
    assert [47] + Joined(parts) + [47] + name == [47] + (Joined(parts) + [47] + name);
    SplitJoined(parts);
    JoinedComponents(parts);
  }

  // ── the loops ──

  /** The finding loop of opening, one component on. */
  method NextComponent(path: Text) returns (name: Text, rest: Text)
    requires path != []
    ensures name == path[..FirstSlash(path)] && rest == AfterFirst(path)
  {
    var len := 0;
    while len < |path| && path[len] != SLASH
      invariant len <= |path| && forall k :: 0 <= k < len ==> path[k] != SLASH
    {
      len := len + 1;
    }
    FirstSlashIs(path, len);
    name := path[..len];
    rest := path[len..];
    if rest != [] && rest[0] == SLASH {
      rest := rest[1..];
    }
  }

  /** The splitting that every writing call starts with. */
  method SplitPath(path: Text) returns (dirPath: Text, fileName: Text)
    ensures dirPath == DirPath(path) && fileName == FileName(path)
  {
    var slash := FindLast(path, SLASH);
    if slash >= 0 {
      dirPath, fileName := path[..slash], path[slash + 1..];
    } else {
      dirPath, fileName := [], path;
    }
  }
}
