/** Cluster chains: following, counting, freeing, allocating and building them in the FAT. */
module FatChains {
  import opened FatLayout
  import opened FatDirectory

  // ── well-formed chains ──

  ghost predicate ChainOk(g: Geometry, fat: seq<nat>, ch: seq<nat>)
  {
    && g.dataEnd <= |fat| && g.dataEnd <= END_MIN
    && |ch| > 0
    && (forall k :: 0 <= k < |ch| ==> g.InData(ch[k]))
    && (forall k :: 0 <= k < |ch| - 1 ==> fat[ch[k]] == ch[k + 1])
    && fat[ch[|ch| - 1]] >= END_MIN
  }

  lemma {:induction false} ChainShift(g: Geometry, fat: seq<nat>, ch: seq<nat>, i: nat, j: nat, d: nat)
    requires ChainOk(g, fat, ch) && i < j && j + d < |ch| && ch[i] == ch[j]
    ensures ch[i + d] == ch[j + d]
  {
    if d > 0 {
      ChainShift(g, fat, ch, i, j, d - 1);
      assert fat[ch[i + d - 1]] == ch[i + d] && fat[ch[j + d - 1]] == ch[j + d];
    }
  }

  /** A chain that reaches an end mark cannot pass a cluster twice. */
  lemma ChainAcyclic(g: Geometry, fat: seq<nat>, ch: seq<nat>)
    requires ChainOk(g, fat, ch)
    ensures Distinct(ch)
  {
    forall i, j | 0 <= i < j < |ch|
      ensures ch[i] != ch[j]
    {
      var d := |ch| - 1 - j;
      assert fat[ch[i + d]] == ch[i + d + 1];
      if ch[i] == ch[j] {
        ChainShift(g, fat, ch, i, j, d);
      }
    }
  }

  lemma {:induction false} ChainPrefix(g: Geometry, fat: seq<nat>, a: seq<nat>, b: seq<nat>, k: nat)
    requires ChainOk(g, fat, a) && ChainOk(g, fat, b) && a[0] == b[0] && k < |a| && k < |b|
    ensures forall i :: 0 <= i <= k ==> a[i] == b[i]
  {
    if k > 0 {
      ChainPrefix(g, fat, a, b, k - 1);
      assert fat[a[k - 1]] == a[k] && fat[b[k - 1]] == b[k];
    }
  }

  /** The chain of a head is determined by the FAT. */
  lemma ChainUnique(g: Geometry, fat: seq<nat>, a: seq<nat>, b: seq<nat>)
    requires ChainOk(g, fat, a) && ChainOk(g, fat, b) && a[0] == b[0]
    ensures a == b
  {
    var last := if |a| < |b| then |a| - 1 else |b| - 1;
    assert last + 1 < |a| ==> fat[a[last]] == a[last + 1];
    assert last + 1 < |b| ==> fat[b[last]] == b[last + 1];
    ChainPrefix(g, fat, a, b, last);
  }

  /** A chain none of whose links changed is still a chain. */
  lemma ChainFrame(g: Geometry, fat: seq<nat>, next: seq<nat>, ch: seq<nat>)
    requires ChainOk(g, fat, ch) && |next| == |fat|
    requires forall c :: c in ch ==> next[c] == fat[c]
    ensures ChainOk(g, next, ch)
  {
  }

  // ── counting free entries ──

  ghost function CountFree(fat: seq<nat>, lo: nat, hi: nat): (n: nat)
    requires hi <= |fat|
    ensures lo <= hi ==> n <= hi - lo
    decreases hi
  {
    if lo >= hi then 0
    else CountFree(fat, lo, hi - 1) + if fat[hi - 1] == 0 then 1 else 0
  }

  lemma {:induction false} CountPut(fat: seq<nat>, lo: nat, hi: nat, c: nat, x: nat)
    requires lo <= hi <= |fat| && c < |fat|
    ensures CountFree(fat[c := x], lo, hi) ==
            CountFree(fat, lo, hi) + if lo <= c < hi then (if x == 0 then 1 else 0) - (if fat[c] == 0 then 1 else 0)
              else 0
    decreases hi
  {
    if lo < hi {
      CountPut(fat, lo, hi - 1, c, x);
    }
  }

  lemma {:induction false} CountPositive(fat: seq<nat>, lo: nat, hi: nat, c: nat)
    requires lo <= c < hi <= |fat| && fat[c] == 0
    ensures CountFree(fat, lo, hi) > 0
    decreases hi
  {
    if c < hi - 1 {
      CountPositive(fat, lo, hi - 1, c);
    }
  }

  lemma {:induction false} CountWitness(fat: seq<nat>, lo: nat, hi: nat) returns (c: nat)
    requires lo <= hi <= |fat| && CountFree(fat, lo, hi) > 0
    ensures lo <= c < hi && fat[c] == 0
    decreases hi
  {
    if fat[hi - 1] == 0 {
      c := hi - 1;
    } else {
      c := CountWitness(fat, lo, hi - 1);
    }
  }

  lemma {:induction false} NoneCounted(fat: seq<nat>, lo: nat, hi: nat)
    requires lo <= hi <= |fat| && forall c :: lo <= c < hi ==> fat[c] != 0
    ensures CountFree(fat, lo, hi) == 0
    decreases hi
  {
    if lo < hi {
      NoneCounted(fat, lo, hi - 1);
    }
  }

  ghost function FreeEntries(fat: seq<nat>, lo: nat, hi: nat): set<nat>
    requires hi <= |fat|
  {
    set c: nat | lo <= c < hi && fat[c] == 0
  }

  lemma FreeEntriesOn(fat: seq<nat>, lo: nat, hi: nat)
    requires lo < hi <= |fat|
    ensures var s := FreeEntries(fat, lo, hi - 1);
      FreeEntries(fat, lo, hi) == (if fat[hi - 1] == 0 then s + {hi - 1} else s) && hi - 1 !in s
  {
  }

  /** Counted one by one, or as a set. */
  lemma {:induction false} CountedSet(fat: seq<nat>, lo: nat, hi: nat)
    requires hi <= |fat|
    ensures CountFree(fat, lo, hi) == |FreeEntries(fat, lo, hi)|
    decreases hi
  {
    if lo >= hi {
      assert FreeEntries(fat, lo, hi) == {};
    } else {
      hide FreeEntries;
      CountedSet(fat, lo, hi - 1);
      FreeEntriesOn(fat, lo, hi);
    }
  }

  // ── freeing ──

  predicate Linkable(c: nat) { 2 <= c < END_MIN }

  /** The eight highest links end a chain; the others lead on, but for 0 and 1. */
  lemma LinkKinds(x: nat)
    requires x < 0x1000_0000
    ensures x >= END_MIN <==> x / 8 == 33554431
    ensures Linkable(x) <==> x / 8 != 33554431 && x != 0 && x != 1
  {
  }

  /** Every link that the freeing loop would follow names an entry of the FAT. */
  ghost predicate LinksInRange(fat: seq<nat>)
  {
    forall c :: 0 <= c < |fat| && Linkable(fat[c]) ==> fat[c] < |fat|
  }

  ghost function Used(fat: seq<nat>): nat
  {
    |fat| - CountFree(fat, 0, |fat|)
  }

  lemma UsedFalls(fat: seq<nat>, c: nat)
    requires c < |fat|
    ensures fat[c] != 0 ==> Used(fat[c := 0]) < Used(fat)
    ensures fat[c] == 0 ==> Used(fat[c := 0]) == Used(fat)
  {
    CountPut(fat, 0, |fat|, c, 0);
  }

  /** The FAT after the freeing loop started at `c`; it ends on cyclic and crossing chains too. */
  ghost function FreeFrom(fat: seq<nat>, c: nat): (r: seq<nat>)
    requires LinksInRange(fat) && (Linkable(c) ==> c < |fat|)
    ensures |r| == |fat|
    decreases Used(fat), c
  {
    if Linkable(c) then
      UsedFalls(fat, c);
      FreeFrom(fat[c := 0], fat[c])
    else fat
  }

  /** The `k`-th cluster met when following links from `c`, staying put once a link ends. */
  ghost function Follow(fat: seq<nat>, c: nat, k: nat): (x: nat)
    requires LinksInRange(fat) && (Linkable(c) ==> c < |fat|)
    ensures Linkable(x) ==> x < |fat|
    decreases k
  {
    if k == 0 || !Linkable(c) then c else Follow(fat, fat[c], k - 1)
  }

  ghost predicate Visits(fat: seq<nat>, c: nat, x: nat)
    requires LinksInRange(fat) && (Linkable(c) ==> c < |fat|)
  {
    Linkable(x) && exists k: nat :: Follow(fat, c, k) == x
  }

  /** A walk in the FAT with `c` cleared is a walk in the FAT itself, or ends on `c`. */
  lemma {:induction false} FollowBack(fat: seq<nat>, c: nat, d: nat, x: nat, k: nat)
    requires LinksInRange(fat) && Linkable(c) && c < |fat| && Linkable(x) && (Linkable(d) ==> d < |fat|)
    requires Follow(fat[c := 0], d, k) == x
    ensures x == c || Follow(fat, d, k) == x
    decreases k
  {
    if k > 0 && Linkable(d) && d != c {
      FollowBack(fat, c, fat[d], x, k - 1);
    }
  }

  lemma {:induction false} FollowSplit(fat: seq<nat>, d: nat, j: nat, k: nat)
    requires LinksInRange(fat) && (Linkable(d) ==> d < |fat|) && j <= k
    requires Linkable(Follow(fat, d, j))
    ensures Follow(fat, d, k) == Follow(fat, Follow(fat, d, j), k - j)
    decreases j
  {
    if j > 0 && Linkable(d) {
      FollowSplit(fat, fat[d], j - 1, k - 1);
    }
  }

  lemma {:induction false} FollowClear(fat: seq<nat>, c: nat, d: nat, k: nat)
    requires LinksInRange(fat) && c < |fat| && (Linkable(d) ==> d < |fat|)
    requires forall j: nat :: j <= k ==> Follow(fat, d, j) != c
    ensures Follow(fat[c := 0], d, k) == Follow(fat, d, k)
    decreases k
  {
    assert Follow(fat, d, 0) == d;
    if k > 0 && Linkable(d) {
      forall j: nat | j <= k - 1
        ensures Follow(fat, fat[d], j) != c
      {
        assert Follow(fat, d, j + 1) == Follow(fat, fat[d], j);
      }
      FollowClear(fat, c, fat[d], k - 1);
    }
  }

  /** A walk from `c` to another cluster can be shortened to one that leaves `c` only once. */
  lemma {:induction false} FollowOver(fat: seq<nat>, c: nat, x: nat, k: nat)
    requires LinksInRange(fat) && Linkable(c) && c < |fat| && Linkable(x) && x != c
    requires Follow(fat, c, k) == x
    ensures Visits(fat[c := 0], fat[c], x)
    decreases k
  {
    if j: nat :| j < k && Follow(fat, fat[c], j) == c {
      FollowSplit(fat, fat[c], j, k - 1);
      FollowOver(fat, c, x, k - 1 - j);
    } else {
      FollowClear(fat, c, fat[c], k - 1);
      assert Follow(fat[c := 0], fat[c], k - 1) == x;
    }
  }

  /** Exactly the clusters on the way from `c` become free; every other entry keeps its value. */
  lemma {:induction false} FreeFromExact(fat: seq<nat>, c: nat, x: nat)
    requires LinksInRange(fat) && (Linkable(c) ==> c < |fat|) && x < |fat|
    ensures FreeFrom(fat, c)[x] == if Visits(fat, c, x) then 0 else fat[x]
    decreases Used(fat), c
  {
    if Linkable(c) {
      var next := fat[c := 0];
      UsedFalls(fat, c);
      FreeFromExact(next, fat[c], x);
      if Visits(next, fat[c], x) {
        var k: nat :| Follow(next, fat[c], k) == x;
        FollowBack(fat, c, fat[c], x, k);
        assert Follow(fat, c, 0) == c;
        assert Follow(fat, c, k + 1) == Follow(fat, fat[c], k);
        assert Visits(fat, c, x);
      } else if Visits(fat, c, x) {
        var k: nat :| Follow(fat, c, k) == x;
        if x != c {
          FollowOver(fat, c, x, k);
        }
      } else {
        assert Follow(fat, c, 0) == c;
      }
    }
  }

  /** The FAT with the clusters of `ch` cleared. */
  ghost function Erased(fat: seq<nat>, ch: seq<nat>): (r: seq<nat>)
    ensures |r| == |fat|
    ensures forall c :: 0 <= c < |fat| ==> r[c] == if c in ch then 0 else fat[c]
  {
    seq(|fat|, c requires 0 <= c < |fat| => if c in ch then 0 else fat[c])
  }

  lemma {:induction false} FreeSuffix(g: Geometry, fat: seq<nat>, ch: seq<nat>, k: nat)
    requires LinksInRange(fat) && ChainOk(g, fat, ch) && Distinct(ch) && k < |ch|
    ensures FreeFrom(Erased(fat, ch[..k]), ch[k]) == Erased(fat, ch)
    decreases |ch| - k
  {
    var m := Erased(fat, ch[..k]);
    assert ch[k] !in ch[..k];
    assert m[ch[k] := 0] == Erased(fat, ch[..k + 1]);
    if k + 1 < |ch| {
      assert fat[ch[k]] == ch[k + 1];
      FreeSuffix(g, fat, ch, k + 1);
    } else {
      assert ch[..k + 1] == ch;
    }
  }

  /** Freeing from the head of a well-formed chain clears exactly that chain. */
  lemma FreeWholeChain(g: Geometry, fat: seq<nat>, ch: seq<nat>)
    requires LinksInRange(fat) && ChainOk(g, fat, ch)
    ensures FreeFrom(fat, ch[0]) == Erased(fat, ch)
  {
    ChainAcyclic(g, fat, ch);
    assert Erased(fat, ch[..0]) == fat;
    FreeSuffix(g, fat, ch, 0);
  }

  /** Clearing distinct used clusters adds their number to the free count. */
  lemma {:induction false} CountErased(fat: seq<nat>, ch: seq<nat>, lo: nat, hi: nat)
    requires lo <= hi <= |fat| && Distinct(ch)
    requires forall k :: 0 <= k < |ch| ==> lo <= ch[k] < hi && fat[ch[k]] != 0
    ensures CountFree(Erased(fat, ch), lo, hi) == CountFree(fat, lo, hi) + |ch|
  {
    if |ch| == 0 {
      assert Erased(fat, ch) == fat;
    } else {
      var n := |ch| - 1;
      assert ch == ch[..n] + [ch[n]];
      assert ch[n] !in ch[..n];
      CountErased(fat, ch[..n], lo, hi);
      assert Erased(fat, ch) == Erased(fat, ch[..n])[ch[n] := 0];
      CountPut(Erased(fat, ch[..n]), lo, hi, ch[n], 0);
    }
  }

  // ── allocating and linking ──

  ghost predicate LowestFree(fat: seq<nat>, c: nat)
  {
    2 <= c < |fat| && fat[c] == 0 && forall k :: 2 <= k < c ==> fat[k] != 0
  }

  lemma LowestBelow(fat: seq<nat>, from: nat, c: nat) returns (low: nat)
    requires 2 <= from <= c < |fat| && fat[c] == 0 && forall k :: 2 <= k < from ==> fat[k] != 0
    ensures LowestFree(fat, low) && from <= low <= c
    decreases c - from
  {
    if fat[from] == 0 {
      low := from;
    } else {
      low := LowestBelow(fat, from + 1, c);
    }
  }

  /** `picks` are the lowest free clusters of the data area, in increasing order. */
  ghost predicate LowestPicks(g: Geometry, fat: seq<nat>, picks: seq<nat>)
  {
    && g.dataEnd <= |fat|
    && (forall k :: 0 <= k < |picks| ==> g.InData(picks[k]) && fat[picks[k]] == 0)
    && (forall i, j :: 0 <= i < j < |picks| ==> picks[i] < picks[j])
    && (forall c :: 2 <= c < |fat| && fat[c] == 0 && |picks| > 0 && c <= picks[|picks| - 1] ==> c in picks)
  }

  /** `next` is `fat` with `picks` linked in order and closed by an end mark. */
  ghost predicate Chained(fat: seq<nat>, picks: seq<nat>, next: seq<nat>)
  {
    && |next| == |fat|
    && (forall k :: 0 <= k < |picks| ==> picks[k] < |fat|)
    && (forall c :: 0 <= c < |fat| && c !in picks ==> next[c] == fat[c])
    && (forall k :: 0 <= k < |picks| - 1 ==> next[picks[k]] == picks[k + 1])
    && (|picks| > 0 ==> next[picks[|picks| - 1]] == END_OF_CHAIN)
  }

  /** What is linked is not free. */
  lemma LinkedUsed(g: Geometry, fat: seq<nat>, picks: seq<nat>, cur: seq<nat>)
    requires LowestPicks(g, fat, picks) && Chained(fat, picks, cur)
    ensures forall x :: x in picks ==> x < |cur| && cur[x] != 0
  {
    forall x | x in picks
      ensures x < |cur| && cur[x] != 0
    {
      var k :| 0 <= k < |picks| && picks[k] == x;
      assert k < |picks| - 1 ==> cur[picks[k]] == picks[k + 1];
    }
  }

  lemma PicksOn(g: Geometry, fat: seq<nat>, picks: seq<nat>, cur: seq<nat>, c: nat)
    requires LowestPicks(g, fat, picks) && Chained(fat, picks, cur) && c !in picks
    requires LowestFree(cur, c) && g.InData(c) && forall x :: x in picks ==> x < |cur| && cur[x] != 0
    ensures LowestPicks(g, fat, picks + [c])
  {
    var all := picks + [c];
    forall d | 2 <= d < |fat| && fat[d] == 0 && d <= c
      ensures d in all
    {
      assert d !in picks ==> cur[d] == fat[d];
    }
    assert fat[c] == 0 && (|picks| > 0 ==> c > picks[|picks| - 1]);
  }

  lemma ChainedOn(g: Geometry, fat: seq<nat>, picks: seq<nat>, cur: seq<nat>, c: nat)
    requires LowestPicks(g, fat, picks) && Chained(fat, picks, cur) && c !in picks && c < |cur|
    ensures var marked := cur[c := END_OF_CHAIN];
      Chained(fat, picks + [c], if |picks| == 0 then marked else marked[picks[|picks| - 1] := c])
  {
  }

  /** One round of the write loop: the lowest free entry is taken and linked behind the last pick. */
  lemma ExtendPicks(g: Geometry, fat: seq<nat>, picks: seq<nat>, cur: seq<nat>, c: nat)
    requires LowestPicks(g, fat, picks) && Chained(fat, picks, cur)
    requires LowestFree(cur, c) && g.InData(c)
    ensures LowestPicks(g, fat, picks + [c])
    ensures var marked := cur[c := END_OF_CHAIN];
      Chained(fat, picks + [c], if |picks| == 0 then marked else marked[picks[|picks| - 1] := c])
  {
    LinkedUsed(g, fat, picks, cur);
    assert c !in picks;
    PicksOn(g, fat, picks, cur, c);
    ChainedOn(g, fat, picks, cur, c);
  }

  lemma PicksMakeChain(g: Geometry, fat: seq<nat>, picks: seq<nat>, next: seq<nat>)
    requires g.dataEnd <= END_MIN && |picks| > 0
    requires LowestPicks(g, fat, picks) && Chained(fat, picks, next)
    ensures ChainOk(g, next, picks) && Distinct(picks)
  {
  }

  /** Building a chain of n clusters takes n from the free count. */
  lemma CountChained(g: Geometry, fat: seq<nat>, picks: seq<nat>, next: seq<nat>)
    requires LowestPicks(g, fat, picks) && Chained(fat, picks, next) && 2 <= g.dataEnd
    ensures CountFree(fat, 2, g.dataEnd) == CountFree(next, 2, g.dataEnd) + |picks|
  {
    forall k | 0 <= k < |picks|
      ensures next[picks[k]] != 0
    {
      if k < |picks| - 1 {
        assert next[picks[k]] == picks[k + 1];
      }
    }
    CountErased(next, picks, 2, g.dataEnd);
    assert Erased(next, picks) == fat;
  }
}
