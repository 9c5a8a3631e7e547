/** Garbage collection: which content a directory keeps alive, the mark phase
    over the graph of stored directories, and the sweep against pins. */
module Gc {
  import opened Entries

  // ------------------------------------------------------- version chains

  /** The content hashes of a file and of every version it links to. */
  function Versions(f: FileRef): set<Hash> {
    {f.hash} + VersionsOf(f.prev) + VersionsOf(f.firstVersion)
  }

  function VersionsOf(f: Option<FileRef>): set<Hash> {
    match f
    case None => {}
    case Some(g) => Versions(g)
  }

  /** What one directory entry keeps alive: a tombstone skips its own hash. */
  function KeptBy(f: FileRef): set<Hash> {
    if IsTombstone(f) then VersionsOf(f.prev) + VersionsOf(f.firstVersion) else Versions(f)
  }

  /** The version reached from `f` by following `prev` links, where a step is
      true, and `firstVersion` links, where it is false. */
  function Along(f: FileRef, route: seq<bool>): Option<FileRef> {
    if route == [] then Some(f)
    else
      match (if route[0] then f.prev else f.firstVersion)
      case None => None
      case Some(g) => Along(g, route[1..])
  }

  /** `h` is the hash of the version at the end of `route`. */
  predicate HashAlong(f: FileRef, route: seq<bool>, h: Hash) {
    Along(f, route).Some? && Along(f, route).value.hash == h
  }

  lemma {:induction false} HashOnRoute(f: FileRef, route: seq<bool>, h: Hash)
    requires HashAlong(f, route, h)
    ensures h in Versions(f)
    decreases f
  {
    if route != [] {
      HashOnRoute((if route[0] then f.prev else f.firstVersion).value, route[1..], h);
    }
  }

  lemma {:induction false} RouteToHash(f: FileRef, h: Hash) returns (route: seq<bool>)
    requires h in Versions(f)
    ensures HashAlong(f, route, h)
    decreases f
  {
    if h == f.hash {
      route := [];
    } else {
      var prev := h in VersionsOf(f.prev);
      var g := (if prev then f.prev else f.firstVersion).value;
      var rest := RouteToHash(g, h);
      route := [prev] + rest;
      assert route[1..] == rest && Along(f, route) == Along(g, rest);
    }
  }

  /** An entry keeps alive exactly the hashes of the versions its links lead to,
      and its own unless it is a tombstone. */
  lemma KeptByIff(f: FileRef, h: Hash)
    ensures h in KeptBy(f) <==>
            exists route :: HashAlong(f, route, h) && (route != [] || f.refType != Some(Tombstone))
  {
    if h in KeptBy(f) {
      if f.refType != Some(Tombstone) {
        var route := RouteToHash(f, h);
      } else {
        var prev := h in VersionsOf(f.prev);
        var g := (if prev then f.prev else f.firstVersion).value;
        var rest := RouteToHash(g, h);
        assert ([prev] + rest)[1..] == rest && Along(f, [prev] + rest) == Along(g, rest);
        assert HashAlong(f, [prev] + rest, h);
      }
    }
    if exists route :: HashAlong(f, route, h) && (route != [] || f.refType != Some(Tombstone)) {
      var route :| HashAlong(f, route, h) && (route != [] || f.refType != Some(Tombstone));
      HashOnRoute(f, route, h);
      if route != [] {
        HashOnRoute((if route[0] then f.prev else f.firstVersion).value, route[1..], h);
      }
    }
  }

  function Weight(f: FileRef): nat {
    1 + WeightOf(f.prev) + WeightOf(f.firstVersion)
  }

  function WeightOf(f: Option<FileRef>): nat {
    match f
    case None => 0
    case Some(g) => Weight(g)
  }

  function StackWeight(stack: seq<FileRef>): nat {
    if stack == [] then 0 else StackWeight(stack[..|stack| - 1]) + Weight(stack[|stack| - 1])
  }

  function StackVersions(stack: seq<FileRef>): set<Hash> {
    if stack == [] then {} else StackVersions(stack[..|stack| - 1]) + Versions(stack[|stack| - 1])
  }

  lemma StackPush(stack: seq<FileRef>, f: FileRef)
    ensures StackWeight(stack + [f]) == StackWeight(stack) + Weight(f)
    ensures StackVersions(stack + [f]) == StackVersions(stack) + Versions(f)
  {
    assert (stack + [f])[..|stack|] == stack;
  }

  /** `add_versions_iterative`: a version chain walked with an explicit stack. */
  method AddVersions(root: FileRef, acc: set<Hash>) returns (acc': set<Hash>)
    ensures acc' == acc + Versions(root)
  {
    acc' := acc;
    var stack := [root];
    StackPush([], root);
    assert [] + [root] == stack;
    while stack != []
      invariant acc' + StackVersions(stack) == acc + Versions(root)
      decreases StackWeight(stack)
    {
      var fr := stack[|stack| - 1];
      stack := stack[..|stack| - 1];
      acc' := acc' + {fr.hash};
      StackPushOption(stack, fr.prev);
      stack := stack + Just(fr.prev);
      StackPushOption(stack, fr.firstVersion);
      stack := stack + Just(fr.firstVersion);
    }
  }

  /** A linked version as a list of at most one to push. */
  function Just(f: Option<FileRef>): seq<FileRef> {
    match f
    case None => []
    case Some(g) => [g]
  }

  lemma StackPushOption(stack: seq<FileRef>, f: Option<FileRef>)
    ensures StackWeight(stack + Just(f)) == StackWeight(stack) + WeightOf(f)
    ensures StackVersions(stack + Just(f)) == StackVersions(stack) + VersionsOf(f)
  {
    if f.Some? {
      StackPush(stack, f.value);
    } else {
      assert stack + Just(f) == stack;
    }
  }

  /** A stored directory, as far as the collector looks at it. */
  datatype Snapshot = Snapshot(files: map<string, FileRef>, shards: map<nat, DirRef>, dirs: map<string, DirRef>)

  ghost predicate Keeps(d: Snapshot, h: Hash) {
    exists n :: n in d.files && h in KeptBy(d.files[n])
  }

  /** `collect_hashes_from_dir`. */
  method CollectHashes(d: Snapshot, acc: set<Hash>) returns (acc': set<Hash>)
    ensures forall h :: h in acc' <==> h in acc || Keeps(d, h)
  {
    acc' := acc;
    var todo := d.files.Keys;
    while todo != {}
      invariant todo <= d.files.Keys
      invariant forall h :: h in acc' <==> h in acc || exists n :: n in d.files.Keys - todo && h in KeptBy(d.files[n])
      decreases todo
    {
      var n :| n in todo;
      todo := todo - {n};
      ghost var before := acc';
      var f := d.files[n];
      if IsTombstone(f) {
        if f.prev.Some? {
          acc' := AddVersions(f.prev.value, acc');
        }
        if f.firstVersion.Some? {
          acc' := AddVersions(f.firstVersion.value, acc');
        }
      } else {
        acc' := AddVersions(f, acc');
      }
      assert acc' == before + KeptBy(f);
      forall h
        ensures h in acc' <==> h in acc || exists m :: m in d.files.Keys - todo && h in KeptBy(d.files[m])
      {
        if h in acc' && h !in acc && h !in KeptBy(f) {
          var m :| m in d.files.Keys - (todo + {n}) && h in KeptBy(d.files[m]);
        }
      }
    }
  }

  // -------------------------------------------------------- file deletions

  /** `FileRef::from_deleted`. */
  function FromDeleted(previous: FileRef, seconds: U32, nanos: U32): FileRef {
    var first := match previous.firstVersion case Some(f) => f case None => previous;
    var count := match previous.versionCount case Some(c) => c case None => 1;
    FileRef(Some(Tombstone), previous.hash, previous.size, Some(seconds), Some(nanos), previous.mediaType,
            Some(previous), Some(if count + 1 < 0x1_0000_0000 then count + 1 else count), Some(first))
  }

  /** The tombstone of an entry carries the time of the deletion and, besides
      its links, the entry's own hash, size and type; it counts one version
      more, up to the largest number. */
  lemma DeletedFields(f: FileRef, seconds: U32, nanos: U32)
    ensures var t := FromDeleted(f, seconds, nanos);
            && t.refType == Some(Tombstone) && t.seconds == Some(seconds) && t.nanos == Some(nanos)
            && t.hash == f.hash && t.size == f.size && t.mediaType == f.mediaType && t.prev == Some(f)
            && t.firstVersion == (if f.firstVersion.Some? then f.firstVersion else Some(f))
            && (f.versionCount == None ==> t.versionCount == Some(2))
            && (f.versionCount.Some? && f.versionCount.value < 0xFFFF_FFFF ==>
                  t.versionCount == Some(f.versionCount.value + 1))
            && (f.versionCount == Some(0xFFFF_FFFF) ==> t.versionCount == f.versionCount)
  {}

  /** Deleting keeps alive exactly what the entry kept alive, if and only if the
      entry was live or a tombstone whose own hash is in its chain. */
  lemma DeleteKeepsIff(f: FileRef, seconds: U32, nanos: U32)
    ensures KeptBy(FromDeleted(f, seconds, nanos)) == KeptBy(f) <==> !IsTombstone(f) || f.hash in KeptBy(f)
  {
    var t := FromDeleted(f, seconds, nanos);
    assert KeptBy(t) == Versions(f) + VersionsOf(t.firstVersion);
    assert VersionsOf(t.firstVersion) <= Versions(f);
    assert KeptBy(t) == Versions(f);
    assert IsTombstone(f) ==> Versions(f) == {f.hash} + KeptBy(f);
  }

  lemma TombstoneKeepsItself(g: FileRef, seconds: U32, nanos: U32)
    ensures var t := FromDeleted(g, seconds, nanos); IsTombstone(t) && t.hash in KeptBy(t)
  {
    assert g.hash in Versions(g);
  }

  function DeleteTimes(f: FileRef, times: seq<(U32, U32)>): FileRef {
    if times == [] then f
    else
      var last := times[|times| - 1];
      FromDeleted(DeleteTimes(f, times[..|times| - 1]), last.0, last.1)
  }

  /** Any number of `file_delete` calls keeps alive what the entry kept alive,
      starting from a live entry or from a tombstone made by an earlier one. */
  lemma {:induction false} DeletesKeepContent(f: FileRef, times: seq<(U32, U32)>)
    requires !IsTombstone(f) || exists g, s, n :: f == FromDeleted(g, s, n)
    ensures KeptBy(DeleteTimes(f, times)) == KeptBy(f)
  {
    if times != [] {
      var init := times[..|times| - 1];
      DeletesKeepContent(f, init);
      var cur := DeleteTimes(f, init);
      if init != [] {
        TombstoneKeepsItself(DeleteTimes(f, init[..|init| - 1]), init[|init| - 1].0, init[|init| - 1].1);
      } else if IsTombstone(f) {
        var g, s, n :| f == FromDeleted(g, s, n);
        TombstoneKeepsItself(g, s, n);
      }
      DeleteKeepsIff(cur, times[|times| - 1].0, times[|times| - 1].1);
    }
  }
}
