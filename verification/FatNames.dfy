/** 8.3 names: encoding a file name into eleven bytes, and printing eleven bytes as a name. */
module FatNames {
  import opened Bytes
  import opened FatDirectory
  import opened FatTree

  type Text = seq<byte> // a C string without its final zero

  const BASE_SIZE := 8

  predicate IsLower(c: byte) { 97 <= c <= 122 }

  function Upper(c: byte): byte { if IsLower(c) then c - 32 else c }

  ghost predicate IsLast(s: Text, c: byte, r: int)
  {
    -1 <= r < |s| && (r >= 0 ==> s[r] == c) && forall k :: r < k < |s| ==> s[k] != c
  }

  lemma LastExists(s: Text, c: byte)
    ensures exists r :: IsLast(s, c, r)
  {
    if s == [] {
      assert IsLast(s, c, -1);
    } else if s[|s| - 1] == c {
      assert IsLast(s, c, |s| - 1);
    } else {
      LastExists(s[..|s| - 1], c);
      var r :| IsLast(s[..|s| - 1], c, r);
      assert IsLast(s, c, r);
    }
  }

  /** The last index of `c`, or -1. */
  ghost function LastIndex(s: Text, c: byte): (r: int)
    ensures IsLast(s, c, r)
  {
    LastExists(s, c);
    var r :| IsLast(s, c, r);
    r
  }

  lemma LastIndexIs(s: Text, c: byte, r: int)
    requires IsLast(s, c, r)
    ensures LastIndex(s, c) == r
  {
    var q := LastIndex(s, c);
    assert !(q < r) && !(r < q);
  }

  method FindLast(s: Text, c: byte) returns (r: int)
    ensures r == LastIndex(s, c)
  {
    r := -1;
    for i := 0 to |s|
      invariant -1 <= r < i
      invariant r >= 0 ==> s[r] == c
      invariant forall k :: r < k < i ==> s[k] != c
    {
      if s[i] == c {
        r := i;
      }
    }
    LastIndexIs(s, c, r);
  }

  /** Where the base of a name ends: at its last dot, at its end, or after eight bytes. */
  ghost function BaseLength(name: Text): (n: nat)
    ensures n <= BASE_SIZE && n <= |name|
  {
    var dot := LastIndex(name, DOT);
    var n := if dot >= 0 then dot else |name|;
    if n > BASE_SIZE then BASE_SIZE else n
  }

  ghost function ShortByte(name: Text, k: nat): byte
  {
    if k < BASE_SIZE then
      if k < BaseLength(name) then Upper(name[k]) else SPACE
    else
      var dot := LastIndex(name, DOT);
      if dot >= 0 && dot + 1 + (k - BASE_SIZE) < |name| then Upper(name[dot + 1 + (k - BASE_SIZE)]) else SPACE
  }

  /** The eleven bytes a name is stored and searched under. */
  ghost function ShortName(name: Text): (n: Name)
    ensures forall k :: 0 <= k < NAME_SIZE ==> n[k] == ShortByte(name, k)
  {
    seq(NAME_SIZE, k requires 0 <= k < NAME_SIZE => ShortByte(name, k))
  }

  /** The encoder, byte by byte. */
  method GetShortName(name: Text) returns (out: array<byte>)
    ensures fresh(out) && out.Length == NAME_SIZE && out[..] == ShortName(name)
  {
    out := new byte[NAME_SIZE](i => SPACE);
    ghost var short := ShortName(name);
    var dot := FindLast(name, DOT);
    var baseLen := if dot >= 0 then dot else |name|;
    if baseLen > BASE_SIZE {
      baseLen := BASE_SIZE;
    }
    for i := 0 to baseLen
      invariant forall k :: 0 <= k < NAME_SIZE ==> out[k] == if k < i then short[k] else SPACE
    {
      out[i] := Upper(name[i]);
    }
    if dot >= 0 {
      var extLen := 0;
      while dot + 1 + extLen < |name| && extLen < NAME_SIZE - BASE_SIZE
        invariant 0 <= extLen <= NAME_SIZE - BASE_SIZE && dot + 1 + extLen <= |name|
        invariant forall k :: 0 <= k < NAME_SIZE ==> out[k] == if k < BASE_SIZE + extLen then short[k] else SPACE
      {
        out[BASE_SIZE + extLen] := Upper(name[dot + 1 + extLen]);
        extLen := extLen + 1;
      }
    }
  }

  // ── which names are encoded alike ──

  /** The same byte, or the two cases of one letter. */
  predicate SameLetter(a: byte, b: byte)
  {
    a == b || (97 <= a <= 122 && b == a - 32) || (97 <= b <= 122 && a == b - 32)
  }

  lemma UpperAlike(a: byte, b: byte)
    ensures Upper(a) == Upper(b) <==> SameLetter(a, b)
    ensures 97 <= a <= 122 ==> 65 <= Upper(a) <= 90
  {
  }

  ghost predicate SameButCase(s: Text, t: Text)
  {
    |s| == |t| && forall k :: 0 <= k < |s| ==> SameLetter(s[k], t[k])
  }

  /** A name with a last dot: its base, cut to eight bytes, and its extension, cut to three, each in upper
    * case and padded with spaces. */
  lemma EncodedDotted(base: Text, ext: Text)
    requires DOT !in ext
    ensures var n := ShortName(base + [46] + ext);
      && (forall k :: 0 <= k < 8 ==> n[k] == if k < |base| then Upper(base[k]) else 32)
      && (forall k :: 8 <= k < 11 ==> n[k] == if k - 8 < |ext| then Upper(ext[k - 8]) else 32)
  {
    LastIndexIs(base + [46] + ext, DOT, |base|);
  }

  /** A name without a dot is all base. */
  lemma EncodedPlain(name: Text)
    requires DOT !in name
    ensures forall k :: 0 <= k < 11 ==> ShortName(name)[k] == if k < 8 && k < |name| then Upper(name[k]) else 32
  {
    LastIndexIs(name, DOT, -1);
  }

  function Cut(s: Text, n: nat): Text { if |s| > n then s[..n] else s }

  /** What the base has beyond eight bytes, and the extension beyond three, does not matter. */
  lemma EncodedCut(base: Text, ext: Text)
    requires DOT !in ext
    ensures ShortName(base + [46] + ext) == ShortName(Cut(base, 8) + [46] + Cut(ext, 3))
  {
    hide ShortName, ShortByte, Upper;
    var b, e := Cut(base, 8), Cut(ext, 3);
    EncodedDotted(base, ext);
    EncodedDotted(b, e);
    var m, n := ShortName(base + [46] + ext), ShortName(b + [46] + e);
    forall k | 0 <= k < NAME_SIZE
      ensures m[k] == n[k]
    {
      assert k >= 8 && k - 8 < |e| ==> e[k - 8] == ext[k - 8];
      assert k < 8 && k < |b| ==> b[k] == base[k];
    }
  }

  lemma SameLast(s: Text, t: Text)
    requires SameButCase(s, t)
    ensures LastIndex(s, DOT) == LastIndex(t, DOT)
  {
    forall k | 0 <= k < |s|
      ensures s[k] == DOT <==> t[k] == DOT
    {
      assert SameLetter(s[k], t[k]);
    }
    LastIndexIs(t, DOT, LastIndex(s, DOT));
  }

  /** The case of letters does not matter. */
  lemma CaseBlind(s: Text, t: Text)
    requires SameButCase(s, t)
    ensures ShortName(s) == ShortName(t)
  {
    SameLast(s, t);
    forall k | 0 <= k < |s|
      ensures Upper(s[k]) == Upper(t[k])
    {
      assert SameLetter(s[k], t[k]);
    }
    assert BaseLength(s) == BaseLength(t);
    forall k | 0 <= k < NAME_SIZE
      ensures ShortByte(s, k) == ShortByte(t, k)
    {
    }
  }

  /** An 8.3 name: base and extension are not cut, do not end in a space, and a dot is followed by an
    * extension. */
  ghost predicate FitsShort(s: Text)
  {
    var dot := LastIndex(s, DOT);
    && (s != [] ==> s[|s| - 1] != 32)
    && if dot < 0 then |s| <= 8
       else dot <= 8 && 0 < |s| - dot - 1 <= 3 && (dot > 0 ==> s[dot - 1] != 32)
  }

  lemma NoLonger(s: Text, t: Text)
    requires FitsShort(s) && FitsShort(t) && ShortName(s) == ShortName(t)
    ensures BaseLength(s) <= BaseLength(t) && LastIndex(s, DOT) <= LastIndex(t, DOT) && |s| <= |t|
  {
    var a, b := BaseLength(s), BaseLength(t);
    if a > 0 {
      assert ShortName(s)[a - 1] == Upper(s[a - 1]) && ShortName(t)[a - 1] == ShortByte(t, a - 1) != SPACE;
    }
    var d, e := LastIndex(s, DOT), LastIndex(t, DOT);
    if d >= 0 {
      var k := BASE_SIZE + |s| - d - 2;
      assert ShortName(s)[k] == Upper(s[|s| - 1]);
      assert ShortName(t)[k] != SPACE;
    }
  }

  /** Two 8.3 names are one name for the driver exactly when they differ in the case of letters only. */
  lemma EncodedAlike(s: Text, t: Text)
    requires FitsShort(s) && FitsShort(t)
    ensures ShortName(s) == ShortName(t) <==> SameButCase(s, t)
  {
    if SameButCase(s, t) {
      CaseBlind(s, t);
    }
    if ShortName(s) == ShortName(t) {
      NoLonger(s, t);
      NoLonger(t, s);
      var dot := LastIndex(s, DOT);
      forall k | 0 <= k < |s|
        ensures SameLetter(s[k], t[k])
      {
        if k != dot {
          var j := if dot < 0 || k < dot then k else BASE_SIZE + k - dot - 1;
          assert ShortName(s)[j] == Upper(s[k]) && ShortName(t)[j] == Upper(t[k]);
          UpperAlike(s[k], t[k]);
        }
      }
    }
  }

  // ── printing ──

  /** The end of `n[lo..hi]` without its trailing spaces. */
  function TrimEnd(n: Name, lo: nat, hi: nat): (e: nat)
    requires lo <= hi <= NAME_SIZE
    ensures lo <= e <= hi
    ensures e > lo ==> n[e - 1] != SPACE
    ensures forall k :: e <= k < hi ==> n[k] == SPACE
    decreases hi
  {
    if hi > lo && n[hi - 1] == SPACE then TrimEnd(n, lo, hi - 1) else hi
  }

  /** The text that a directory listing shows for a name. */
  function Printed(n: Name): (s: Text)
    ensures |s| < 13
  {
    var base, ext := TrimEnd(n, 0, BASE_SIZE), TrimEnd(n, BASE_SIZE, NAME_SIZE);
    n[..base] + if ext > BASE_SIZE then [DOT] + n[BASE_SIZE..ext] else []
  }

  method FindTrimEnd(n: Name, lo: nat, hi: nat) returns (e: nat)
    requires lo <= hi <= NAME_SIZE
    ensures e == TrimEnd(n, lo, hi)
  {
    e := hi;
    while e > lo && n[e - 1] == SPACE
      invariant lo <= e <= hi
      invariant TrimEnd(n, lo, hi) == TrimEnd(n, lo, e)
    {
      e := e - 1;
    }
  }

  /** The conversion loop of the listing, filling a 13-byte buffer that also holds the final zero. */
  method PrintName(n: Name) returns (name: array<byte>, pos: nat)
    ensures fresh(name) && name.Length == 13 && pos < 13 && name[pos] == 0 && name[..pos] == Printed(n)
  {
    name := new byte[13](i => 0);
    pos := 0;
    ghost var text := Printed(n);
    var baseEnd := FindTrimEnd(n, 0, BASE_SIZE);
    var extEnd := FindTrimEnd(n, BASE_SIZE, NAME_SIZE);
    for i := 0 to baseEnd
      invariant pos == i && forall k :: 0 <= k < pos ==> name[k] == text[k]
    {
      name[pos] := n[i];
      pos := pos + 1;
    }
    if extEnd > BASE_SIZE {
      name[pos] := DOT;
      pos := pos + 1;
      for i := BASE_SIZE to extEnd
        invariant pos == baseEnd + 1 + (i - BASE_SIZE)
        invariant forall k :: 0 <= k < pos ==> name[k] == text[k]
      {
        name[pos] := n[i];
        pos := pos + 1;
      }
    }
    name[pos] := 0;
    assert name[..pos] == text;
  }

  ghost predicate NoLower(n: Name)
  {
    forall k :: 0 <= k < NAME_SIZE ==> !IsLower(n[k])
  }

  lemma UpperOnly(s: Text)
    ensures NoLower(ShortName(s))
  {
  }

  lemma PlainBack(n: Name)
    requires NoLower(n) && TrimEnd(n, BASE_SIZE, NAME_SIZE) == BASE_SIZE
    requires forall k :: 0 <= k < BASE_SIZE ==> n[k] != DOT
    ensures ShortName(Printed(n)) == n
  {
    var base := TrimEnd(n, 0, BASE_SIZE);
    assert Printed(n) == n[..base];
    LastIndexIs(Printed(n), DOT, -1);
  }

  lemma ExtendedBack(n: Name)
    requires NoLower(n) && TrimEnd(n, BASE_SIZE, NAME_SIZE) > BASE_SIZE
    requires forall k :: BASE_SIZE <= k < NAME_SIZE ==> n[k] != DOT
    ensures ShortName(Printed(n)) == n
  {
    LastIndexIs(Printed(n), DOT, TrimEnd(n, 0, BASE_SIZE));
  }

  lemma DotInBase(n: Name, k: nat)
    requires TrimEnd(n, BASE_SIZE, NAME_SIZE) == BASE_SIZE && k < BASE_SIZE && n[k] == DOT
    ensures ShortName(Printed(n)) != n
  {
    var base := TrimEnd(n, 0, BASE_SIZE);
    assert Printed(n) == n[..base] && k < base;
    var dot := LastIndex(Printed(n), DOT);
    assert dot >= 0 && ShortByte(Printed(n), dot) == SPACE;
  }

  lemma DotInExtension(n: Name, k: nat)
    requires BASE_SIZE <= k < NAME_SIZE && n[k] == DOT
    ensures ShortName(Printed(n)) != n
  {
    var base, ext := TrimEnd(n, 0, BASE_SIZE), TrimEnd(n, BASE_SIZE, NAME_SIZE);
    var s := Printed(n);
    assert n[k] != SPACE && k < ext;
    assert s[base + 1 + (k - BASE_SIZE)] == DOT;
    assert LastIndex(s, DOT) > base;
    assert |s| == base + 1 + (ext - BASE_SIZE);
    assert ShortByte(s, ext - 1) == SPACE;
    assert ShortName(s)[ext - 1] == SPACE && n[ext - 1] != SPACE;
  }

  /** Printing and encoding gives the name back exactly when nothing in it is lower case, its
    * extension holds no dot, and its base holds none either unless an extension follows. (A name with
    * a zero byte does not print as a C string.) */
  lemma PrintedRoundTrip(n: Name)
    requires 0 !in n
    ensures ShortName(Printed(n)) == n <==>
      && NoLower(n)
      && (forall k :: BASE_SIZE <= k < NAME_SIZE ==> n[k] != DOT)
      && (TrimEnd(n, BASE_SIZE, NAME_SIZE) == BASE_SIZE ==> forall k :: 0 <= k < BASE_SIZE ==> n[k] != DOT)
  {
    if !NoLower(n) {
      UpperOnly(Printed(n));
    } else if k :| BASE_SIZE <= k < NAME_SIZE && n[k] == DOT {
      DotInExtension(n, k);
    } else if TrimEnd(n, BASE_SIZE, NAME_SIZE) == BASE_SIZE {
      if k :| 0 <= k < BASE_SIZE && n[k] == DOT {
        DotInBase(n, k);
      } else {
        PlainBack(n);
      }
    } else {
      ExtendedBack(n);
    }
  }

  /** Two dots are encoded as the name of a directory's own slot, and one dot as a blank name: as
    * components of a path they do not lead up, or stay. */
  lemma DotsMisread()
    ensures ShortName([DOT, DOT]) == SELF_NAME
    ensures ShortName([DOT]) == seq(NAME_SIZE, k => SPACE)
  {
    LastIndexIs([DOT, DOT], DOT, 1);
    LastIndexIs([DOT], DOT, 0);
    var a, b := ShortName([DOT, DOT]), ShortName([DOT]);
    forall k | 0 <= k < NAME_SIZE
      ensures a[k] == (if k == 0 then DOT else SPACE) && b[k] == SPACE
    {
      assert a[k] == ShortByte([DOT, DOT], k) && b[k] == ShortByte([DOT], k);
    }
  }
}
