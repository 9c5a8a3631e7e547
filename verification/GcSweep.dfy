/** The sweep phase, `gc_store`, over one blob store. */
module GcSweep {
  import opened Entries
  import Gc
  import GcMark

  datatype Report = Report(total: nat, keptByPins: nat, keptByReachability: nat, deleted: nat,
                           candidates: seq<Hash>, deleteErrors: seq<Hash>)

  /** Reading the pinners of a hash; None is an error of the pin registry. */
  type PinReader = Hash -> Option<set<nat>>

  /** What the sweep is given besides the store: the marks, the pins, which
      deletions go through, and whether it only reports. */
  datatype Sweep = Sweep(reachable: set<Hash>, pinners: PinReader, deletable: Hash -> bool, dryRun: bool) {
    predicate Pinned(h: Hash) {
      pinners(h).Some? && pinners(h).value != {}
    }

    predicate Candidate(h: Hash) {
      pinners(h) == Some({}) && h !in reachable
    }

    predicate Removes(h: Hash) {
      Candidate(h) && !dryRun && deletable(h)
    }
  }

  function Filter(hashes: seq<Hash>, p: Hash -> bool): seq<Hash> {
    if hashes == [] then []
    else
      var init, last := hashes[..|hashes| - 1], hashes[|hashes| - 1];
      if p(last) then Filter(init, p) + [last] else Filter(init, p)
  }

  /** The hashes that satisfy `p`, each as often as it is listed. */
  lemma {:induction false} FilterMeans(hashes: seq<Hash>, p: Hash -> bool, h: Hash)
    ensures multiset(Filter(hashes, p))[h] == if p(h) then multiset(hashes)[h] else 0
  {
    if hashes != [] {
      var init, last := hashes[..|hashes| - 1], hashes[|hashes| - 1];
      assert hashes == init + [last];
      FilterMeans(init, p, h);
    }
  }

  /** The report after a prefix of the listing. */
  ghost predicate Accounts(s: Sweep, hashes: seq<Hash>, r: Report) {
    && r.total == |hashes|
    && r.keptByPins == |Filter(hashes, (h: Hash) => s.Pinned(h))|
    && r.keptByReachability == |Filter(hashes, (h: Hash) => !s.Pinned(h) && h in s.reachable)|
    && r.candidates == Filter(hashes, (h: Hash) => s.Candidate(h))
    && r.deleted == |Filter(hashes, (h: Hash) => s.Removes(h))|
    && r.deleteErrors == Filter(hashes, (h: Hash) => s.Candidate(h) && !s.dryRun && !s.deletable(h))
    && r.total == r.keptByPins + r.keptByReachability + |r.candidates|
    && (if s.dryRun then r.deleted == 0 && r.deleteErrors == [] else r.deleted + |r.deleteErrors| == |r.candidates|)
  }

  /** Neither pinned nor reachable, and it can be deleted. */
  predicate Unwanted(s: Sweep, h: Hash) {
    s.pinners(h) == Some({}) && h !in s.reachable && s.deletable(h)
  }

  /** `gc_store`: every listed blob is either pinned, or reachable, or a
      candidate, and exactly the candidates that can be deleted disappear, in
      a real run. A failing pin lookup ends the run; what was deleted before
      was neither pinned nor reachable. */
  method GcStore(s: Sweep, hashes: seq<Hash>, store: set<Hash>) returns (r: Option<Report>, store': set<Hash>)
    ensures store' <= store
    ensures forall h :: h in store && h !in store' ==> h in hashes && s.Removes(h)
    ensures r.Some? ==> Accounts(s, hashes, r.value)
    ensures r.Some? ==> forall h :: h in store ==> (h in store' <==> !(h in hashes && s.Removes(h)))
    ensures r.None? <==> exists h :: h in hashes && s.pinners(h).None?
    ensures s.dryRun ==> store' == store
    ensures forall h :: h in store && h !in store' ==>
              s.pinners(h) == Some({}) && h !in s.reachable && s.deletable(h) && !s.dryRun
    ensures r.Some? && !s.dryRun ==> forall h :: h in hashes && Unwanted(s, h) ==> h !in store'
  {
    store' := store;
    var report := Report(0, 0, 0, 0, [], []);
    for i := 0 to |hashes|
      invariant Accounts(s, hashes[..i], report)
      invariant store' <= store && (s.dryRun ==> store' == store)
      invariant forall h :: h in store ==> (h in store' <==> !(h in hashes[..i] && s.Removes(h)))
      invariant forall h :: h in hashes[..i] ==> s.pinners(h).Some?
    {
      var h := hashes[i];
      assert hashes[..i + 1] == hashes[..i] + [h];
      assert hashes[..i + 1][..i] == hashes[..i];
      report := report.(total := report.total + 1);
      var pinners := s.pinners(h);
      if pinners.None? {
        r := None;
        return;
      }
      if pinners.value != {} {
        report := report.(keptByPins := report.keptByPins + 1);
      } else if h in s.reachable {
        report := report.(keptByReachability := report.keptByReachability + 1);
      } else {
        report := report.(candidates := report.candidates + [h]);
        if !s.dryRun {
          if s.deletable(h) {
            report := report.(deleted := report.deleted + 1);
            store' := store' - {h};
          } else {
            report := report.(deleteErrors := report.deleteErrors + [h]);
          }
        }
      }
    }
    assert hashes[..|hashes|] == hashes;
    r := Some(report);
  }

  /** Mark, then sweep, as the garbage collection command does. Nothing pinned
      goes and, if no directory is referenced under two keys, nothing live goes;
      everything else that is listed and can be deleted does go. An unreadable
      root stops the command, but a missing one makes every unpinned blob
      garbage, snapshots or not. */
  method CollectGarbage(load: GcMark.Loader, root: GcMark.RootFile, snapshots: seq<GcMark.Ref>, pinners: PinReader,
                        deletable: Hash -> bool, hashes: seq<Hash>, store: set<Hash>, ghost stored: set<Hash>)
    returns (r: Option<Report>, store': set<Hash>)
    requires forall q :: load(q).Some? ==> q.hash in stored
    ensures store' <= store
    ensures forall h :: h in store && h !in store' ==> pinners(h) == Some({})
    ensures root.Corrupt? ==> r == None && store' == store
    ensures r.None? <==> root.Corrupt? || exists h :: h in hashes && pinners(h).None?
    ensures root.Readable? ==>
              var w := GcMark.World(load, root.dir, snapshots);
              && (GcMark.OneKey(w) ==> forall h :: h in store && GcMark.Live(w, h) ==> h in store')
              && (r.Some? ==>
                    forall h :: h in hashes && pinners(h) == Some({}) && deletable(h) && !GcMark.Live(w, h) ==>
                                h !in store')
    ensures root.Missing? && r.Some? ==>
              forall h :: h in hashes && pinners(h) == Some({}) && deletable(h) ==> h !in store'
  {
    var marked := GcMark.CollectReachable(load, root, snapshots, stored);
    if marked.Failed? {
      return None, store;
    }
    r, store' := GcStore(Sweep(marked.live, pinners, deletable, false), hashes, store);
  }

  // ------------------------------------------------ a directory that is lost

  /** A root with one child directory, which holds one file. */
  function Family(f: FileRef, readable: bool): GcMark.World {
    var d := Gc.Snapshot(map["a" := f], map[], map[]);
    GcMark.World(r => if readable && r == GcMark.Ref(1, None) then Some(d) else None,
                 Gc.Snapshot(map[], map[], map["d" := DirRef(None, 1, None, None, None)]), [])
  }

  lemma ReadableIsLive(f: FileRef)
    requires !IsTombstone(f)
    ensures GcMark.Live(Family(f, true), f.hash)
  {
    var w, r := Family(f, true), GcMark.Ref(1, None);
    assert "d" in w.root.dirs && r == GcMark.RefOf(w.root.dirs["d"]);
    GcMark.ReachStart(w, r);
    var d := w.load(r).value;
    assert "a" in d.files && f.hash in Gc.KeptBy(d.files["a"]);
    assert Gc.Keeps(d, f.hash);
  }

  lemma UnreadableIsNotLive(f: FileRef)
    ensures !GcMark.Live(Family(f, false), f.hash)
  {}

  /** A directory that cannot be loaded makes its content garbage: the blob that
      is live while the directory loads is deleted once it does not. */
  method UnreadableDirectoryIsSwept(f: FileRef) returns (r: Option<Report>, store': set<Hash>)
    requires !IsTombstone(f)
    ensures GcMark.Live(Family(f, true), f.hash) && r.Some? && store' == {}
  {
    var w := Family(f, false);
    ReadableIsLive(f);
    UnreadableIsNotLive(f);
    r, store' := CollectGarbage(w.load, GcMark.Readable(w.root), w.snapshots, (h: Hash) => Some({}), (h: Hash) => true,
                                [f.hash], {f.hash}, {});
  }
}
