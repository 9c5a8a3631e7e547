/** The mark phase, `collect_fs_reachable_hashes`: a worklist traversal of the
    stored directories, over a graph that may be cyclic, shared or damaged. */
module GcMark {
  import opened Entries
  import opened Gc

  /** A reference to a stored directory and the key it is decrypted with. */
  datatype Ref = Ref(hash: Hash, key: Option<nat>)

  function RefOf(d: DirRef): Ref {
    Ref(d.hash, d.key)
  }

  ghost predicate Refers(d: Snapshot, r: Ref) {
    || (exists b :: b in d.shards && r == RefOf(d.shards[b]))
    || (exists n :: n in d.dirs && r == RefOf(d.dirs[n]))
  }

  /** Reading, decrypting and decoding a directory; None on any failure. */
  type Loader = Ref -> Option<Snapshot>

  /** What the collector starts from: the root directory, and the snapshot
      roots with the root key. */
  datatype World = World(load: Loader, root: Snapshot, snapshots: seq<Ref>)

  /** `r` is reached by `n` loadable references from the starting points. */
  ghost predicate ReachIn(w: World, r: Ref, n: nat)
    decreases n
  {
    if n == 0 then Refers(w.root, r) || r in w.snapshots
    else exists q :: ReachIn(w, q, n - 1) && w.load(q).Some? && Refers(w.load(q).value, r)
  }

  ghost predicate Reachable(w: World, r: Ref) {
    exists n: nat :: ReachIn(w, r, n)
  }

  /** The content hashes that must survive. */
  ghost predicate Live(w: World, h: Hash) {
    Keeps(w.root, h) || exists r :: Reachable(w, r) && w.load(r).Some? && Keeps(w.load(r).value, h)
  }

  /** A step down from a stored directory: into a shard or a child directory. */
  datatype Edge = IntoShard(bucket: nat) | IntoChild(name: string)

  function RefAt(d: Snapshot, e: Edge): Option<DirRef> {
    match e
    case IntoShard(b) => Get(d.shards, b)
    case IntoChild(name) => Get(d.dirs, name)
  }

  /** The directory found below `d` by loading it step by step. */
  function Descend(w: World, d: Snapshot, edges: seq<Edge>): Option<Snapshot>
    decreases edges
  {
    if edges == [] then Some(d)
    else
      match RefAt(d, edges[0])
      case None => None
      case Some(r) =>
        match w.load(Ref(r.hash, r.key))
        case None => None
        case Some(below) => Descend(w, below, edges[1..])
  }

  /** The root, or a snapshot's root if it loads. */
  function StartDir(w: World, start: Option<nat>): Option<Snapshot> {
    match start
    case None => Some(w.root)
    case Some(i) => if i < |w.snapshots| then w.load(w.snapshots[i]) else None
  }

  /** `d` is found by descending from the root or from a snapshot. */
  ghost predicate Found(w: World, d: Snapshot) {
    exists start: Option<nat>, edges :: FoundAt(w, d, start, edges)
  }

  predicate FoundAt(w: World, d: Snapshot, start: Option<nat>, edges: seq<Edge>) {
    StartDir(w, start).Some? && Descend(w, StartDir(w, start).value, edges) == Some(d)
  }

  /** `d` is the root or is loaded by a reachable reference. */
  ghost predicate Loaded(w: World, d: Snapshot) {
    d == w.root || exists r :: Reachable(w, r) && w.load(r) == Some(d)
  }

  lemma RefAtRefers(d: Snapshot, e: Edge)
    requires RefAt(d, e).Some?
    ensures Refers(d, Ref(RefAt(d, e).value.hash, RefAt(d, e).value.key))
  {
    match e
    case IntoShard(b) => assert b in d.shards;
    case IntoChild(name) => assert name in d.dirs;
  }

  lemma {:induction false} DescendLoaded(w: World, d: Snapshot, edges: seq<Edge>)
    requires Loaded(w, d) && Descend(w, d, edges).Some?
    ensures Loaded(w, Descend(w, d, edges).value)
    decreases edges
  {
    if edges != [] {
      var r := Ref(RefAt(d, edges[0]).value.hash, RefAt(d, edges[0]).value.key);
      RefAtRefers(d, edges[0]);
      if d == w.root {
        ReachStart(w, r);
      } else {
        var q :| Reachable(w, q) && w.load(q) == Some(d);
        ReachStep(w, q, r);
      }
      DescendLoaded(w, w.load(r).value, edges[1..]);
    }
  }

  lemma {:induction false} DescendOn(w: World, d: Snapshot, edges: seq<Edge>, e: Edge)
    requires Descend(w, d, edges).Some?
    ensures Descend(w, d, edges + [e]) == Descend(w, Descend(w, d, edges).value, [e])
    decreases edges
  {
    if edges == [] {
      assert edges + [e] == [e];
    } else {
      var r := RefAt(d, edges[0]).value;
      assert (edges + [e])[1..] == edges[1..] + [e];
      DescendOn(w, w.load(Ref(r.hash, r.key)).value, edges[1..], e);
    }
  }

  lemma RefersAt(d: Snapshot, r: Ref) returns (e: Edge)
    requires Refers(d, r)
    ensures RefAt(d, e).Some? && r == Ref(RefAt(d, e).value.hash, RefAt(d, e).value.key)
  {
    if b :| b in d.shards && r == RefOf(d.shards[b]) {
      e := IntoShard(b);
    } else {
      var n :| n in d.dirs && r == RefOf(d.dirs[n]);
      e := IntoChild(n);
    }
  }

  lemma FoundBelow(w: World, d: Snapshot, r: Ref)
    requires Found(w, d) && Refers(d, r) && w.load(r).Some?
    ensures Found(w, w.load(r).value)
  {
    var start: Option<nat>, edges :| FoundAt(w, d, start, edges);
    var e := RefersAt(d, r);
    DescendOn(w, StartDir(w, start).value, edges, e);
    assert [e][1..] == [];
    assert FoundAt(w, w.load(r).value, start, edges + [e]);
  }

  lemma RootIsFound(w: World)
    ensures Found(w, w.root)
  {
    assert FoundAt(w, w.root, None, []);
  }

  lemma {:induction false} ReachedIsFound(w: World, r: Ref, n: nat)
    requires ReachIn(w, r, n) && w.load(r).Some?
    ensures Found(w, w.load(r).value)
    decreases n
  {
    if n > 0 {
      var q := ReachedFrom(w, r, n);
      ReachedIsFound(w, q, n - 1);
      FoundBelow(w, w.load(q).value, r);
    } else if r in w.snapshots {
      var i: nat :| i < |w.snapshots| && w.snapshots[i] == r;
      assert FoundAt(w, w.load(r).value, Some(i), []);
    } else {
      RootIsFound(w);
      FoundBelow(w, w.root, r);
    }
  }

  lemma FoundIffLoaded(w: World, d: Snapshot)
    ensures Found(w, d) <==> Loaded(w, d)
  {
    if Found(w, d) {
      var start: Option<nat>, edges :| FoundAt(w, d, start, edges);
      if start.Some? {
        ReachStart(w, w.snapshots[start.value]);
      }
      DescendLoaded(w, StartDir(w, start).value, edges);
    } else if d == w.root {
      RootIsFound(w);
    } else if r :| Reachable(w, r) && w.load(r) == Some(d) {
      var n: nat :| ReachIn(w, r, n);
      ReachedIsFound(w, r, n);
    }
  }

  /** The content that must survive is exactly that of the files found by
      descending from the root or a snapshot through shards and child
      directories, with all the versions their links lead to. */
  lemma LiveIff(w: World, h: Hash)
    ensures Live(w, h) <==>
            exists d, name :: Found(w, d) && name in d.files && h in KeptBy(d.files[name])
  {
    if Live(w, h) {
      if Keeps(w.root, h) {
        RootIsFound(w);
        var name :| name in w.root.files && h in KeptBy(w.root.files[name]);
      } else {
        var r :| Reachable(w, r) && w.load(r).Some? && Keeps(w.load(r).value, h);
        FoundIffLoaded(w, w.load(r).value);
        var name :| name in w.load(r).value.files && h in KeptBy(w.load(r).value.files[name]);
      }
    }
    if d, name :| Found(w, d) && name in d.files && h in KeptBy(d.files[name]) {
      FoundIffLoaded(w, d);
      assert Keeps(d, h);
    }
  }

  /** Whatever keys a directory is referenced under, they load the same. */
  ghost predicate OneKey(w: World) {
    forall q, r :: Reachable(w, q) && Reachable(w, r) && q.hash == r.hash ==> w.load(q) == w.load(r)
  }

  lemma ReachStep(w: World, q: Ref, r: Ref)
    requires Reachable(w, q) && w.load(q).Some? && Refers(w.load(q).value, r)
    ensures Reachable(w, r)
  {
    var n: nat :| ReachIn(w, q, n);
    assert ReachIn(w, r, n + 1);
  }

  lemma ReachStart(w: World, r: Ref)
    requires Refers(w.root, r) || r in w.snapshots
    ensures Reachable(w, r)
  {
    assert ReachIn(w, r, 0);
  }

  /** What the directories loaded through the references `seen` keep alive. */
  ghost predicate KeptIn(w: World, seen: set<Ref>, h: Hash) {
    Keeps(w.root, h) || exists r :: r in seen && w.load(r).Some? && Keeps(w.load(r).value, h)
  }

  ghost predicate OnePerHash(seen: set<Ref>) {
    forall q, r :: q in seen && r in seen && q.hash == r.hash ==> q == r
  }

  /** The result in every case: exactly what is kept by the directories loaded
      through some set of references with one for each hash that the root, the
      snapshots or a directory so loaded refer to; the first snapshot's is
      among them. */
  ghost predicate FirstKeyWins(w: World, live: set<Hash>) {
    exists seen :: FirstKeys(w, seen) && Follows(w, seen) && forall h :: h in live <==> KeptIn(w, seen, h)
  }

  ghost predicate FirstKeys(w: World, seen: set<Ref>) {
    OnePerHash(seen) && (w.snapshots != [] ==> w.snapshots[0] in seen)
  }

  /** Every hash met on the way has its reference in `seen`. */
  ghost predicate Follows(w: World, seen: set<Ref>) {
    forall r :: (Refers(w.root, r) || r in w.snapshots ||
                 exists q :: q in seen && w.load(q).Some? && Refers(w.load(q).value, r)) ==> HasHash(seen, r.hash)
  }

  ghost predicate HasHash(seen: set<Ref>, h: Hash) {
    exists q :: q in seen && q.hash == h
  }

  // ----------------------------------------------------- state of the loops

  /** The marked hashes, the two queues and the visited hashes. The proofs add
      `seen`, the references behind the visited hashes. */
  datatype Marks = Marks(live: set<Hash>, dirs: seq<Snapshot>, refs: seq<Ref>, visited: set<Hash>)

  /** Everything found so far is really reachable. */
  ghost predicate Sound(w: World, m: Marks, seen: set<Ref>) {
    && (forall h :: h in m.live ==> Live(w, h))
    && (forall r :: r in m.refs ==> Reachable(w, r))
    && (forall r :: r in seen ==> Reachable(w, r) && r.hash in m.visited)
    && (forall h :: h in m.visited ==> exists r :: r in seen && r.hash == h)
    && (forall d :: d in m.dirs ==> d == w.root || exists r :: r in seen && w.load(r) == Some(d))
  }

  /** The marks are exactly those of the directories taken off the queue. */
  ghost predicate Exact(w: World, m: Marks, seen: set<Ref>) {
    && OnePerHash(seen)
    && (forall h :: h in m.live ==> KeptIn(w, seen, h))
    && (w.root in m.dirs || MarkedAll(w.root, m))
    && (forall r :: r in seen && w.load(r).Some? ==> w.load(r).value in m.dirs || MarkedAll(w.load(r).value, m))
  }

  ghost predicate MarkedAll(d: Snapshot, m: Marks) {
    forall h :: Keeps(d, h) ==> h in m.live
  }

  /** A directory whose content is marked and whose references are queued. */
  ghost predicate Done(d: Snapshot, m: Marks) {
    && (forall h :: Keeps(d, h) ==> h in m.live)
    && (forall r :: Refers(d, r) ==> r.hash in m.visited || r in m.refs)
  }

  /** Nothing reachable is forgotten: it is marked, or still in a queue. */
  ghost predicate Closed(w: World, m: Marks, seen: set<Ref>) {
    && (w.root in m.dirs || Done(w.root, m))
    && (forall r :: r in w.snapshots ==> r.hash in m.visited || r in m.refs)
    && (forall r :: r in seen && w.load(r).Some? ==> w.load(r).value in m.dirs || Done(w.load(r).value, m))
  }

  /** The visited hashes include those of the starting points, and lead on. */
  ghost predicate LeadsOn(w: World, m: Marks) {
    && (forall r :: Refers(w.root, r) || r in w.snapshots ==> r.hash in m.visited)
    && (forall q :: Onward(w, m, q))
  }

  ghost predicate Onward(w: World, m: Marks, q: Ref) {
    Reachable(w, q) && q.hash in m.visited && w.load(q).Some? ==>
      forall r :: Refers(w.load(q).value, r) ==> r.hash in m.visited
  }

  lemma ClosedLeadsOn(w: World, m: Marks, seen: set<Ref>)
    requires OneKey(w) && Sound(w, m, seen) && Closed(w, m, seen) && m.dirs == [] && m.refs == []
    ensures LeadsOn(w, m)
  {
    forall q
      ensures Onward(w, m, q)
    {
      if Reachable(w, q) && q.hash in m.visited {
        var p :| p in seen && p.hash == q.hash;
        assert w.load(p) == w.load(q);
      }
    }
  }

  lemma {:induction false} ClosedSeesAll(w: World, m: Marks, r: Ref, n: nat)
    requires LeadsOn(w, m) && ReachIn(w, r, n)
    ensures r.hash in m.visited
    decreases n
  {
    if n > 0 {
      var q := ReachedFrom(w, r, n);
      ClosedSeesAll(w, m, q, n - 1);
      assert Onward(w, m, q);
    }
  }

  lemma ReachedFrom(w: World, r: Ref, n: nat) returns (q: Ref)
    requires ReachIn(w, r, n) && n > 0
    ensures ReachIn(w, q, n - 1) && Reachable(w, q) && w.load(q).Some? && Refers(w.load(q).value, r)
  {
    q :| ReachIn(w, q, n - 1) && w.load(q).Some? && Refers(w.load(q).value, r);
  }

  lemma ClosedMarksAll(w: World, m: Marks, seen: set<Ref>, h: Hash)
    requires OneKey(w) && Sound(w, m, seen) && Closed(w, m, seen) && m.dirs == [] && m.refs == []
    ensures Live(w, h) ==> h in m.live
  {
    if Live(w, h) && !Keeps(w.root, h) {
      var r :| Reachable(w, r) && w.load(r).Some? && Keeps(w.load(r).value, h);
      var n: nat :| ReachIn(w, r, n);
      ClosedLeadsOn(w, m, seen);
      ClosedSeesAll(w, m, r, n);
      var p :| p in seen && p.hash == r.hash;
      assert w.load(p) == w.load(r);
    }
  }

  // ------------------------------------------------------------- the loops

  /** Queue every child directory referenced from a snapshot. */
  method QueueRefs(d: Snapshot, refs: seq<Ref>) returns (refs': seq<Ref>)
    ensures refs <= refs' && forall r :: r in refs' <==> r in refs || Refers(d, r)
  {
    refs' := refs;
    var shards := d.shards.Keys;
    while shards != {}
      invariant shards <= d.shards.Keys && refs <= refs'
      invariant forall r :: r in refs' <==>
                            r in refs || exists b :: b in d.shards.Keys - shards && r == RefOf(d.shards[b])
      decreases shards
    {
      var b :| b in shards;
      shards := shards - {b};
      refs' := refs' + [RefOf(d.shards[b])];
    }
    ghost var mid := refs';
    var dirs := d.dirs.Keys;
    while dirs != {}
      invariant dirs <= d.dirs.Keys && refs <= refs'
      invariant forall r :: r in refs' <==> r in mid || exists n :: n in d.dirs.Keys - dirs && r == RefOf(d.dirs[n])
      decreases dirs
    {
      var n :| n in dirs;
      dirs := dirs - {n};
      refs' := refs' + [RefOf(d.dirs[n])];
    }
  }

  /** Take one directory off the queue: mark its content, queue its children. */
  method VisitDir(w: World, m: Marks, ghost seen: set<Ref>) returns (m': Marks)
    requires m.dirs != [] && Sound(w, m, seen)
    ensures m'.dirs == m.dirs[1..] && m'.visited == m.visited && m.refs <= m'.refs
    ensures Sound(w, m', seen) && (Closed(w, m, seen) ==> Closed(w, m', seen))
    ensures Exact(w, m, seen) ==> Exact(w, m', seen)
  {
    var d := m.dirs[0];
    var live := CollectHashes(d, m.live);
    var refs := QueueRefs(d, m.refs);
    m' := Marks(live, m.dirs[1..], refs, m.visited);
    VisitedDirSound(w, m, m', seen);
    VisitedDirClosed(w, m, m', seen);
    if Exact(w, m, seen) {
      VisitedDirExact(w, m, m', seen);
    }
  }

  lemma VisitedDirExact(w: World, m: Marks, m': Marks, seen: set<Ref>)
    requires m.dirs != [] && Sound(w, m, seen) && Exact(w, m, seen) && m'.dirs == m.dirs[1..]
    requires forall h :: h in m'.live <==> h in m.live || Keeps(m.dirs[0], h)
    ensures Exact(w, m', seen)
  {
    var d := m.dirs[0];
    assert d in m.dirs && MarkedAll(d, m');
    assert forall e :: e in m.dirs ==> e == d || e in m'.dirs;
    assert forall e :: MarkedAll(e, m) ==> MarkedAll(e, m');
    forall h | Keeps(d, h)
      ensures KeptIn(w, seen, h)
    {
      if d != w.root {
        var r :| r in seen && w.load(r) == Some(d);
      }
    }
  }

  lemma VisitedDirSound(w: World, m: Marks, m': Marks, seen: set<Ref>)
    requires m.dirs != [] && Sound(w, m, seen)
    requires m'.dirs == m.dirs[1..] && m'.visited == m.visited
    requires forall h :: h in m'.live <==> h in m.live || Keeps(m.dirs[0], h)
    requires forall r :: r in m'.refs <==> r in m.refs || Refers(m.dirs[0], r)
    ensures Sound(w, m', seen)
  {
    var d := m.dirs[0];
    assert d in m.dirs;
    assert forall e :: e in m'.dirs ==> e in m.dirs;
    forall h | Keeps(d, h)
      ensures Live(w, h)
    {
      if d != w.root {
        var r :| r in seen && w.load(r) == Some(d);
      }
    }
    forall r | Refers(d, r)
      ensures Reachable(w, r)
    {
      if d == w.root {
        ReachStart(w, r);
      } else {
        var q :| q in seen && w.load(q) == Some(d);
        ReachStep(w, q, r);
      }
    }
  }

  lemma VisitedDirClosed(w: World, m: Marks, m': Marks, seen: set<Ref>)
    requires m.dirs != [] && m'.dirs == m.dirs[1..] && m'.visited == m.visited
    requires forall h :: h in m'.live <==> h in m.live || Keeps(m.dirs[0], h)
    requires forall r :: r in m'.refs <==> r in m.refs || Refers(m.dirs[0], r)
    ensures Closed(w, m, seen) ==> Closed(w, m', seen)
  {
    assert Done(m.dirs[0], m');
    assert forall d :: d in m.dirs ==> d == m.dirs[0] || d in m'.dirs;
    assert forall d :: Done(d, m) ==> Done(d, m');
  }

  /** What taking references off the queue keeps. */
  ghost predicate Continues(w: World, m: Marks, seen: set<Ref>, m': Marks, seen': set<Ref>) {
    && Sound(w, m', seen') && seen <= seen'
    && (Closed(w, m, seen) ==> Closed(w, m', seen'))
    && (Exact(w, m, seen) ==> Exact(w, m', seen'))
  }

  /** Take one reference off the queue and load its directory, once per hash. */
  method VisitRef(w: World, m: Marks, ghost seen: set<Ref>) returns (m': Marks, ghost seen': set<Ref>)
    requires m.refs != [] && Sound(w, m, seen)
    ensures m'.refs == m.refs[1..] && m'.live == m.live
    ensures m'.visited == m.visited + {m.refs[0].hash}
    ensures m.refs[0].hash in m.visited || w.load(m.refs[0]).None? ==> m'.dirs == m.dirs
    ensures Continues(w, m, seen, m', seen') && (m.refs[0].hash !in m.visited ==> m.refs[0] in seen')
  {
    var r := m.refs[0];
    if r.hash in m.visited {
      m', seen' := m.(refs := m.refs[1..]), seen;
      SkippedRef(w, m, m', seen);
    } else {
      var loaded := w.load(r);
      var dirs := m.dirs + (if loaded.Some? then [loaded.value] else []);
      m' := Marks(m.live, dirs, m.refs[1..], m.visited + {r.hash});
      seen' := seen + {r};
      LoadedRef(w, m, m', seen);
    }
  }

  lemma SkippedRef(w: World, m: Marks, m': Marks, seen: set<Ref>)
    requires m.refs != [] && m.refs[0].hash in m.visited && Sound(w, m, seen) && m' == m.(refs := m.refs[1..])
    ensures Continues(w, m, seen, m', seen)
  {
    assert forall d :: MarkedAll(d, m) ==> MarkedAll(d, m');
    if Closed(w, m, seen) {
      SkippedClosed(w, m, m', seen);
    }
  }

  lemma SkippedClosed(w: World, m: Marks, m': Marks, seen: set<Ref>)
    requires m.refs != [] && m.refs[0].hash in m.visited && m' == m.(refs := m.refs[1..])
    requires Closed(w, m, seen)
    ensures Closed(w, m', seen)
  {
    var r := m.refs[0];
    assert r in m.refs && forall q :: q in m.refs ==> q == r || q in m'.refs;
    assert forall d :: Done(d, m) ==> Done(d, m');
  }

  lemma LoadedRef(w: World, m: Marks, m': Marks, seen: set<Ref>)
    requires m.refs != [] && m.refs[0].hash !in m.visited && Sound(w, m, seen)
    requires var r := m.refs[0];
             m' == Marks(m.live, m.dirs + (if w.load(r).Some? then [w.load(r).value] else []), m.refs[1..],
                         m.visited + {r.hash})
    ensures Continues(w, m, seen, m', seen + {m.refs[0]})
  {
    var r := m.refs[0];
    assert r in m.refs;
    LoadedSound(w, m, m', r, seen, seen + {r});
    if Exact(w, m, seen) {
      LoadedExact(w, m, m', r, seen, seen + {r});
    }
    if Closed(w, m, seen) {
      LoadedClosed(w, m, m', r, seen);
    }
  }

  lemma LoadedClosed(w: World, m: Marks, m': Marks, r: Ref, seen: set<Ref>)
    requires Closed(w, m, seen) && m.refs != [] && m.refs[0] == r && m'.refs == m.refs[1..] && m'.live == m.live
    requires m'.visited == m.visited + {r.hash}
    requires m'.dirs == m.dirs + (if w.load(r).Some? then [w.load(r).value] else [])
    ensures Closed(w, m', seen + {r})
  {
    assert forall q :: q in m.refs ==> q == r || q in m'.refs;
    assert forall d :: Done(d, m) ==> Done(d, m');
    assert w.load(r).Some? ==> m'.dirs[|m.dirs|] == w.load(r).value;
  }

  lemma LoadedExact(w: World, m: Marks, m': Marks, r: Ref, seen: set<Ref>, seen': set<Ref>)
    requires Sound(w, m, seen) && Exact(w, m, seen) && r.hash !in m.visited
    requires m'.live == m.live && seen' == seen + {r}
    requires m'.dirs == m.dirs + (if w.load(r).Some? then [w.load(r).value] else [])
    ensures Exact(w, m', seen')
  {
    assert forall d :: MarkedAll(d, m) ==> MarkedAll(d, m');
    assert w.load(r).Some? ==> m'.dirs[|m.dirs|] == w.load(r).value;
    forall h | h in m'.live
      ensures KeptIn(w, seen', h)
    {
      if !Keeps(w.root, h) {
        var q :| q in seen && w.load(q).Some? && Keeps(w.load(q).value, h);
        assert q in seen';
      }
    }
  }

  /** The inner loop: load until no reference is left. Either nothing new was
      loaded, or a stored directory was visited for the first time. */
  method DrainRefs(w: World, m: Marks, ghost seen: set<Ref>, ghost stored: set<Hash>)
    returns (m': Marks, ghost seen': set<Ref>)
    requires Sound(w, m, seen) && forall r :: w.load(r).Some? ==> r.hash in stored
    ensures m'.refs == [] && stored - m'.visited <= stored - m.visited
    ensures stored - m'.visited == stored - m.visited ==> m'.dirs == m.dirs
    ensures Continues(w, m, seen, m', seen')
    ensures m.refs != [] && m.refs[0].hash !in m.visited ==> m.refs[0] in seen'
  {
    m', seen' := m, seen;
    while m'.refs != []
      invariant (m'.visited == m.visited && m'.refs == m.refs) ||
                (m.refs != [] && m.refs[0].hash !in m.visited ==> m.refs[0] in seen')
      invariant Continues(w, m, seen, m', seen')
      invariant stored - m'.visited <= stored - m.visited
      invariant stored - m'.visited == stored - m.visited ==> m'.dirs == m.dirs
      decreases stored - m'.visited, |m'.refs|
    {
      m', seen' := VisitRef(w, m', seen');
    }
  }

  lemma LoadedSound(w: World, m: Marks, m': Marks, r: Ref, seen: set<Ref>, seen': set<Ref>)
    requires Sound(w, m, seen) && Reachable(w, r)
    requires m' == Marks(m.live, m'.dirs, m'.refs, m.visited + {r.hash}) && seen' == seen + {r}
    requires forall q :: q in m'.refs ==> q in m.refs
    requires forall d :: d in m'.dirs ==> d in m.dirs || w.load(r) == Some(d)
    ensures Sound(w, m', seen')
  {
    forall h | h in m'.visited
      ensures exists q :: q in seen' && q.hash == h
    {
      if h == r.hash {
        assert r in seen';
      } else {
        var q :| q in seen && q.hash == h;
        assert q in seen';
      }
    }
    forall d | d in m'.dirs
      ensures d == w.root || exists q :: q in seen' && w.load(q) == Some(d)
    {
      if w.load(r) == Some(d) {
        assert r in seen';
      } else if d != w.root {
        var q :| q in seen && w.load(q) == Some(d);
        assert q in seen';
      }
    }
  }

  /** The root file on disk. */
  datatype RootFile = Missing | Corrupt | Readable(dir: Snapshot)

  datatype Outcome = Failed | Marked(live: set<Hash>)

  /** `collect_fs_reachable_hashes`. It terminates on every finite store, with
      whatever cycles, and returns only live hashes; if no directory is
      referenced under two keys it returns all of them, and in any case those of
      the directories loaded under one key for each hash. A root that cannot be
      read at all yields the empty set, even when there are snapshots. */
  method CollectReachable(load: Loader, root: RootFile, snapshots: seq<Ref>, ghost stored: set<Hash>)
    returns (out: Outcome)
    requires forall r :: load(r).Some? ==> r.hash in stored
    ensures root.Corrupt? ==> out == Failed
    ensures root.Missing? ==> out == Marked({})
    ensures root.Readable? ==>
              var w := World(load, root.dir, snapshots);
              && out.Marked?
              && (forall h :: h in out.live ==> Live(w, h))
              && (OneKey(w) ==> forall h :: Live(w, h) ==> h in out.live)
              && FirstKeyWins(w, out.live)
  {
    match root {
      case Corrupt => return Failed;
      case Missing => return Marked({});
      case Readable(dir) =>
        var w := World(load, dir, snapshots);
        var m := Marks({}, [dir], snapshots, {});
        ghost var seen: set<Ref> := {};
        forall r | r in snapshots { ReachStart(w, r); }
        assert dir in m.dirs;
        while m.dirs != []
          invariant Sound(w, m, seen) && Closed(w, m, seen)
          invariant m.dirs == [] ==> m.refs == []
          invariant Exact(w, m, seen)
          invariant FirstKeys(w, seen) || (m.visited == {} && snapshots != [] && m.refs == snapshots && m.dirs != [])
          decreases stored - m.visited, |m.dirs|
        {
          m := VisitDir(w, m, seen);
          m, seen := DrainRefs(w, m, seen, stored);
        }
        forall h | OneKey(w) && Live(w, h)
          ensures h in m.live
        {
          ClosedMarksAll(w, m, seen, h);
        }
        out := Marked(m.live);
        ExactIsFirstKeys(w, m, seen);
    }
  }

  lemma ExactIsFirstKeys(w: World, m: Marks, seen: set<Ref>)
    requires Exact(w, m, seen) && FirstKeys(w, seen) && m.dirs == [] && m.refs == []
    requires Sound(w, m, seen) && Closed(w, m, seen)
    ensures FirstKeyWins(w, m.live)
  {
    forall r: Ref | r.hash in m.visited
      ensures HasHash(seen, r.hash)
    {
      var q :| q in seen && q.hash == r.hash;
    }
    assert Follows(w, seen);
    forall h | KeptIn(w, seen, h)
      ensures h in m.live
    {
      if Keeps(w.root, h) {
        assert MarkedAll(w.root, m);
      } else {
        var r :| r in seen && w.load(r).Some? && Keeps(w.load(r).value, h);
        assert MarkedAll(w.load(r).value, m);
      }
    }
  }

  // -------------------------------------------------- two keys for one hash

  /** A directory with one file, stored encrypted: a snapshot refers to it with
      the root key, which is none, and the root with the right key. */
  function TwoKeys(f: FileRef, key: nat): World {
    var d := Snapshot(map["a" := f], map[], map[]);
    World(r => if r == Ref(1, Some(key)) then Some(d) else None,
          Snapshot(map[], map[], map["d" := DirRef(None, 1, None, None, Some(key))]), [Ref(1, None)])
  }

  /** The wrong key is tried first and the right one never: live content is not
      marked. */
  lemma TwoKeysLoseContent(f: FileRef, key: nat, live: set<Hash>)
    requires !IsTombstone(f) && FirstKeyWins(TwoKeys(f, key), live)
    ensures Live(TwoKeys(f, key), f.hash) && f.hash !in live && !OneKey(TwoKeys(f, key))
  {
    var w, r := TwoKeys(f, key), Ref(1, Some(key));
    assert "d" in w.root.dirs && r == RefOf(w.root.dirs["d"]);
    ReachStart(w, r);
    ReachStart(w, Ref(1, None));
    var d := w.load(r).value;
    assert "a" in d.files && f.hash in KeptBy(d.files["a"]);
    assert Keeps(d, f.hash);
    var seen :| FirstKeys(w, seen) && Follows(w, seen) && forall h :: h in live <==> KeptIn(w, seen, h);
    assert w.snapshots[0] == Ref(1, None) && Ref(1, None).hash == r.hash && r !in seen;
    assert !Keeps(w.root, f.hash);
  }
}
