/**
  * The five-sector window over the FAT is transparent: any run of lookups, updates and data writes
  * through it gives the answers, and leaves the device, that working on the device itself would.
  */
module FatCache {
  import opened Bytes
  import opened FatLayout
  import opened FatDriver

  datatype Call = Ask(c: nat) | Update(c: nat, value: nat) | Fill(c: nat, s: nat, b: Sector)

  ghost predicate Proper(g: Geometry, call: Call)
  {
    match call
    case Ask(c) => c < g.Entries()
    case Update(c, _) => c < g.Entries()
    case Fill(c, s, _) => g.InData(c) && s < g.spc
  }

  ghost predicate AllProper(g: Geometry, calls: seq<Call>)
  {
    forall k :: 0 <= k < |calls| ==> Proper(g, calls[k])
  }

  /** What a lookup answers on the device: the low 28 bits of its entry. */
  ghost function Answer(g: Geometry, disk: seq<Sector>, call: Call): nat
    requires g.Fits(disk) && Proper(g, call)
  {
    if call.Ask? then EntryWord(g, disk, call.c) % TWO28 else 0
  }

  /** The device after one call, with no cache in between. */
  ghost function Applied(g: Geometry, disk: seq<Sector>, call: Call): (r: seq<Sector>)
    requires g.Fits(disk) && Proper(g, call)
    ensures |r| == |disk|
  {
    match call
    case Ask(_) => disk
    case Update(c, value) =>
      PutEntryView(g, disk, c, value);
      PutEntry(g, disk, c, value)
    case Fill(c, s, b) =>
      g.SectorInRange(c, s);
      disk[g.ClusterAt(c) + s := b]
  }

  ghost function Replayed(g: Geometry, disk: seq<Sector>, calls: seq<Call>): (r: seq<Sector>)
    requires g.Fits(disk) && AllProper(g, calls)
    ensures |r| == |disk| && g.Fits(r)
  {
    if calls == [] then disk
    else Applied(g, Replayed(g, disk, calls[..|calls| - 1]), calls[|calls| - 1])
  }

  /** Each lookup answers the low 28 bits of its entry as the calls before it leave them on the device. */
  ghost predicate Right(g: Geometry, disk: seq<Sector>, calls: seq<Call>, answers: seq<nat>)
    requires g.Fits(disk) && AllProper(g, calls)
  {
    && |answers| <= |calls|
    && forall k :: 0 <= k < |answers| ==> answers[k] == Answer(g, Replayed(g, disk, calls[..k]), calls[k])
  }

  lemma NoneReplayed(g: Geometry, disk: seq<Sector>, calls: seq<Call>)
    requires g.Fits(disk)
    ensures Replayed(g, disk, calls[..0]) == disk
  {
  }

  lemma ReplayOn(g: Geometry, disk: seq<Sector>, calls: seq<Call>, k: nat)
    requires g.Fits(disk) && AllProper(g, calls) && k < |calls|
    ensures Replayed(g, disk, calls[..k + 1]) == Applied(g, Replayed(g, disk, calls[..k]), calls[k])
  {
    assert calls[..k + 1][..k] == calls[..k];
  }

  lemma LinkIs(g: Geometry, disk: seq<Sector>, c: nat)
    requires g.Fits(disk) && c < g.Entries()
    ensures c < |ViewOf(g, disk).fat| && ViewOf(g, disk).fat[c] == EntryWord(g, disk, c) % TWO28
  {
  }

  lemma RightStart(g: Geometry, disk: seq<Sector>, calls: seq<Call>)
    requires g.Fits(disk) && AllProper(g, calls)
    ensures Right(g, disk, calls, [])
  {
  }

  lemma RightOn(g: Geometry, disk: seq<Sector>, calls: seq<Call>, answers: seq<nat>, answer: nat)
    requires g.Fits(disk) && AllProper(g, calls)
    requires |answers| < |calls| && Right(g, disk, calls, answers)
    requires answer == Answer(g, Replayed(g, disk, calls[..|answers|]), calls[|answers|])
    ensures Right(g, disk, calls, answers + [answer])
  {
  }

  method Run(drv: Driver, calls: seq<Call>) returns (answers: seq<nat>)
    requires drv.Ready() && AllProper(drv.g, calls)
    modifies drv`disk, drv`cachePos, drv.fatCache
    ensures drv.Ready() && drv.g.Fits(old(drv.disk)) && drv.disk == Replayed(drv.g, old(drv.disk), calls)
    ensures |answers| == |calls| && Right(drv.g, old(drv.disk), calls, answers)
  {
    hide ViewOf, Driver.Ready, Right, Replayed;
    drv.ReadyFits();
    ghost var disk := drv.disk;
    answers := [];
    RightStart(drv.g, disk, calls);
    NoneReplayed(drv.g, disk, calls);
    for k := 0 to |calls|
      invariant drv.Ready() && drv.disk == Replayed(drv.g, disk, calls[..k])
      invariant |answers| == k && Right(drv.g, disk, calls, answers)
    {
      drv.ReadyFits();
      assert Proper(drv.g, calls[k]);
      ReplayOn(drv.g, disk, calls, k);
      var answer := 0;
      match calls[k] {
        case Ask(c) =>
          answer := drv.NextCluster(c);
          LinkIs(drv.g, drv.disk, c);
        case Update(c, value) =>
          drv.SetCluster(c, value);
        case Fill(c, s, b) =>
          drv.WriteSector(drv.g.ClusterToLba(c) + s, b, c, s);
      }
      RightOn(drv.g, disk, calls, answers, answer);
      answers := answers + [answer];
    }
    assert calls[..|calls|] == calls;
  }

  lemma WordKept(g: Geometry, disk: seq<Sector>, call: Call, c: nat)
    requires g.Fits(disk) && Proper(g, call) && c < g.Entries()
    ensures EntryWord(g, Applied(g, disk, call), c) / TWO28 == EntryWord(g, disk, c) / TWO28
    ensures !(call.Update? && call.c == c) ==> EntryWord(g, Applied(g, disk, call), c) == EntryWord(g, disk, c)
  {
    match call
    case Ask(_) =>
    case Update(e, value) =>
      PutEntryWords(g, disk, e, value, c);
    case Fill(e, s, b) =>
      g.SectorInRange(e, s);
  }

  /** Over every run the top four bits of every word of the FAT stay as they were, and a word that no
    * call updates stays as it was altogether. */
  lemma {:induction false} WordsKept(g: Geometry, disk: seq<Sector>, calls: seq<Call>, c: nat)
    requires g.Fits(disk) && AllProper(g, calls) && c < g.Entries()
    ensures EntryWord(g, Replayed(g, disk, calls), c) / TWO28 == EntryWord(g, disk, c) / TWO28
    ensures (forall k :: 0 <= k < |calls| && calls[k].Update? ==> calls[k].c != c) ==>
      EntryWord(g, Replayed(g, disk, calls), c) == EntryWord(g, disk, c)
    decreases |calls|
  {
    if calls != [] {
      var n := |calls| - 1;
      WordsKept(g, disk, calls[..n], c);
      WordKept(g, Replayed(g, disk, calls[..n]), calls[n], c);
    }
  }
}
