/** Last-write-wins merge of a snapshot into an unsharded directory, and what
    it guarantees when replicas exchange snapshots. */
module Lww {
  import opened Entries

  /** The later of two candidates; the first one keeps a tie. */
  function Newer(a: Option<Entry>, b: Option<Entry>): Option<Entry> {
    match (a, b)
    case (_, None) => a
    case (None, _) => b
    case (Some(x), Some(y)) => if EntryStamp(y) > EntryStamp(x) then b else a
  }

  /** A local entry, then the remote directory, then the remote file of a name,
      each replacing the previous only with a later timestamp. */
  function Race(local: Option<Entry>, remote: Dir, name: string): Option<Entry> {
    Newer(Newer(local, remote.DirAt(name)), remote.FileAt(name))
  }

  /** What one name means after a merge. */
  function Winner(local: Dir, remote: Dir, name: string): Option<Entry> {
    Race(local.At(name), remote, name)
  }

  function WonBy(local: Dir, remote: Dir, name: string, file: bool): bool {
    var w := Winner(local, remote, name);
    w.Some? && w.value.FileEntry? == file
  }

  function MergeDir(local: Dir, remote: Dir): Dir {
    var names := local.Names() + remote.Names();
    Dir(map n | n in names && WonBy(local, remote, n, true) :: Winner(local, remote, n).value.file,
        map n | n in names && WonBy(local, remote, n, false) :: Winner(local, remote, n).value.dir)
  }

  /** `MergeDir` is the pointwise winner, and never leaves a name that is both
      a file and a directory, whatever the remote snapshot holds. */
  lemma MergeDirAt(local: Dir, remote: Dir)
    ensures MergeDir(local, remote).Disjoint()
    ensures forall n :: MergeDir(local, remote).At(n) == Winner(local, remote, n)
  {
    forall n
      ensures MergeDir(local, remote).At(n) == Winner(local, remote, n)
    {
      if n !in local.Names() + remote.Names() {
        assert Winner(local, remote, n) == None;
      }
    }
  }

  /** With well-formed nanoseconds, a remote entry takes a name from a local one
      exactly when its seconds are later, or equal with later nanoseconds; this
      holds for a file against a file, a directory against a directory, and each
      against the other. An unset time counts as zero. */
  lemma LaterEntryWins(local: Dir, remote: Dir, name: string, l: Entry, r: Entry)
    requires match l case FileEntry(f) => Get(local.files, name) == Some(f) && name !in local.dirs
                     case DirEntry(d) => Get(local.dirs, name) == Some(d) && name !in local.files
    requires match r case FileEntry(f) => Get(remote.files, name) == Some(f) && name !in remote.dirs
                     case DirEntry(d) => Get(remote.dirs, name) == Some(d) && name !in remote.files
    requires OrZero(match l case FileEntry(f) => f.nanos case DirEntry(d) => d.nanos) < 1_000_000_000
    requires OrZero(match r case FileEntry(f) => f.nanos case DirEntry(d) => d.nanos) < 1_000_000_000
    ensures var ls := match l case FileEntry(f) => f.seconds case DirEntry(d) => d.seconds;
            var ln := match l case FileEntry(f) => f.nanos case DirEntry(d) => d.nanos;
            var rs := match r case FileEntry(f) => f.seconds case DirEntry(d) => d.seconds;
            var rn := match r case FileEntry(f) => f.nanos case DirEntry(d) => d.nanos;
            var (s, s') := (if ls.Some? then ls.value else 0, if rs.Some? then rs.value else 0);
            var (n, n') := (if ln.Some? then ln.value else 0, if rn.Some? then rn.value else 0);
            var merged := MergeDir(local, remote);
            var winner := if s' > s || (s' == s && n' > n) then r else l;
            match winner
            case FileEntry(f) => Get(merged.files, name) == Some(f) && name !in merged.dirs
            case DirEntry(d) => Get(merged.dirs, name) == Some(d) && name !in merged.files
  {
    var ls := match l case FileEntry(f) => f.seconds case DirEntry(d) => d.seconds;
    var ln := match l case FileEntry(f) => f.nanos case DirEntry(d) => d.nanos;
    var rs := match r case FileEntry(f) => f.seconds case DirEntry(d) => d.seconds;
    var rn := match r case FileEntry(f) => f.nanos case DirEntry(d) => d.nanos;
    MergeDirAt(local, remote);
    StampIsLexicographic(ls, ln, rs, rn);
    assert MergeDir(local, remote).At(name) == Newer(Some(l), Some(r));
  }

  /** A name on one side only is taken over or kept as it is. */
  lemma UncontestedEntryStays(local: Dir, remote: Dir, name: string)
    requires name !in local.files || name !in local.dirs
    ensures var m := MergeDir(local, remote);
            && (name !in remote.files && name !in remote.dirs ==>
                  Get(m.files, name) == Get(local.files, name) && Get(m.dirs, name) == Get(local.dirs, name))
            && (name !in local.files && name !in local.dirs && (name !in remote.files || name !in remote.dirs) ==>
                  Get(m.files, name) == Get(remote.files, name) && Get(m.dirs, name) == Get(remote.dirs, name))
  {
    MergeDirAt(local, remote);
    assert MergeDir(local, remote).At(name) == Winner(local, remote, name);
  }

  /** A snapshot with both a file and a directory of one name offers the file
      only if it is later than the directory. */
  lemma FileNeedsToBeLater(local: Dir, remote: Dir, name: string)
    requires name !in local.files && name !in local.dirs && name in remote.files && name in remote.dirs
    requires OrZero(remote.files[name].nanos) < 1_000_000_000 && OrZero(remote.dirs[name].nanos) < 1_000_000_000
    ensures var f, d, m := remote.files[name], remote.dirs[name], MergeDir(local, remote);
            var later := OrZero(f.seconds) > OrZero(d.seconds) ||
                         (OrZero(f.seconds) == OrZero(d.seconds) && OrZero(f.nanos) > OrZero(d.nanos));
            && (later ==> Get(m.files, name) == Some(f) && name !in m.dirs)
            && (!later ==> Get(m.dirs, name) == Some(d) && name !in m.files)
  {
    var f, d := remote.files[name], remote.dirs[name];
    MergeDirAt(local, remote);
    StampIsLexicographic(d.seconds, d.nanos, f.seconds, f.nanos);
    assert MergeDir(local, remote).At(name) == Newer(Some(DirEntry(d)), Some(FileEntry(f)));
  }

  /** Any disjoint directory with the right winners is the merge. */
  lemma MergeDirUnique(local: Dir, remote: Dir, result: Dir)
    requires result.Disjoint()
    requires forall n :: result.At(n) == Winner(local, remote, n)
    ensures result == MergeDir(local, remote)
  {
    MergeDirAt(local, remote);
    SameEntriesSameDir(result, MergeDir(local, remote));
  }

  /** One step of the directory loop of `merge_entries_local`: the new state
      and whether the name's child actor handle is dropped. */
  function PlaceDir(cur: Dir, name: string, remote: DirRef): (r: (Dir, bool))
    requires cur.Disjoint()
    ensures r.0.Disjoint()
    ensures r.0.At(name) == Newer(cur.At(name), Some(DirEntry(remote)))
    ensures forall n :: n != name ==> r.0.At(n) == cur.At(n)
    ensures r.1 <==> cur.At(name).Some? && r.0.At(name) != cur.At(name)
  {
    var ts := EntryStamp(DirEntry(remote));
    if name in cur.files then
      if ts > EntryStamp(FileEntry(cur.files[name]))
      then (Dir(cur.files - {name}, cur.dirs[name := remote]), true) else (cur, false)
    else if name in cur.dirs then
      if ts > EntryStamp(DirEntry(cur.dirs[name]))
      then (Dir(cur.files, cur.dirs[name := remote]), true) else (cur, false)
    else
      (Dir(cur.files, cur.dirs[name := remote]), false)
  }

  /** One step of the file loop; only a displaced directory had a handle. */
  function PlaceFile(cur: Dir, name: string, remote: FileRef): (r: (Dir, bool))
    requires cur.Disjoint()
    ensures r.0.Disjoint()
    ensures r.0.At(name) == Newer(cur.At(name), Some(FileEntry(remote)))
    ensures forall n :: n != name ==> r.0.At(n) == cur.At(n)
    ensures r.1 <==> name in cur.dirs && r.0.At(name) != cur.At(name)
  {
    var ts := EntryStamp(FileEntry(remote));
    if name in cur.dirs then
      if ts > EntryStamp(DirEntry(cur.dirs[name]))
      then (Dir(cur.files[name := remote], cur.dirs - {name}), true) else (cur, false)
    else if name in cur.files then
      if ts > EntryStamp(FileEntry(cur.files[name]))
      then (Dir(cur.files[name := remote], cur.dirs), false) else (cur, false)
    else
      (Dir(cur.files[name := remote], cur.dirs), false)
  }

  /** The handles that survive: those whose name still means the same entry. */
  ghost function Kept(handles: set<string>, before: Dir, after: Dir): set<string> {
    set n | n in handles && after.At(n) == before.At(n)
  }

  /** `merge_entries_local`. `handles` are the names of the child directories
      with a running actor; exactly those whose entry was replaced lose it. */
  method MergeEntriesLocal(local: Dir, handles: set<string>, remote: Dir)
    returns (merged: Dir, handles': set<string>)
    requires local.Disjoint() && handles <= local.dirs.Keys
    ensures merged.Disjoint()
    ensures merged == MergeDir(local, remote)
    ensures handles' == Kept(handles, local, merged)
    ensures handles' <= merged.dirs.Keys
  {
    var mid, handles1 := MergeRemoteDirs(local, handles, remote.dirs);
    merged, handles' := MergeRemoteFiles(mid, handles1, remote.files);
    forall n
      ensures merged.At(n) == Winner(local, remote, n)
    {
      assert mid.At(n) == Newer(local.At(n), remote.DirAt(n));
    }
    MergeDirUnique(local, remote, merged);
    forall n | n in handles && merged.At(n) == local.At(n)
      ensures mid.At(n) == local.At(n)
    {
      assert mid.At(n) == Newer(local.At(n), remote.DirAt(n));
    }
  }

  method MergeRemoteDirs(local: Dir, handles: set<string>, dirs: map<string, DirRef>)
    returns (merged: Dir, handles': set<string>)
    requires local.Disjoint() && handles <= local.dirs.Keys
    ensures merged.Disjoint()
    ensures forall n :: merged.At(n) == Newer(local.At(n), Dir(map[], dirs).DirAt(n))
    ensures handles' == Kept(handles, local, merged) && handles' <= merged.dirs.Keys
  {
    merged, handles' := local, handles;
    var todo := dirs.Keys;
    while todo != {}
      invariant todo <= dirs.Keys && merged.Disjoint()
      invariant forall n :: n in todo ==> merged.At(n) == local.At(n)
      invariant forall n :: n !in todo ==> merged.At(n) == Newer(local.At(n), Dir(map[], dirs).DirAt(n))
      invariant handles' == Kept(handles, local, merged)
      decreases todo
    {
      var name :| name in todo;
      var (next, drop) := PlaceDir(merged, name, dirs[name]);
      merged, todo := next, todo - {name};
      if drop {
        handles' := handles' - {name};
      }
    }
  }

  method MergeRemoteFiles(local: Dir, handles: set<string>, files: map<string, FileRef>)
    returns (merged: Dir, handles': set<string>)
    requires local.Disjoint() && handles <= local.dirs.Keys
    ensures merged.Disjoint()
    ensures forall n :: merged.At(n) == Newer(local.At(n), Dir(files, map[]).FileAt(n))
    ensures handles' == Kept(handles, local, merged) && handles' <= merged.dirs.Keys
  {
    merged, handles' := local, handles;
    var todo := files.Keys;
    while todo != {}
      invariant todo <= files.Keys && merged.Disjoint()
      invariant forall n :: n in todo ==> merged.At(n) == local.At(n)
      invariant forall n :: n !in todo ==> merged.At(n) == Newer(local.At(n), Dir(files, map[]).FileAt(n))
      invariant handles' == Kept(handles, local, merged)
      decreases todo
    {
      var name :| name in todo;
      var (next, drop) := PlaceFile(merged, name, files[name]);
      merged, todo := next, todo - {name};
      if drop {
        handles' := handles' - {name};
      }
    }
  }
}
