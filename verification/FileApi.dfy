/** `file_put_sync`, `file_get` and `file_delete` over a sharded directory: what
    a caller reads is decided by the last call on that name alone. */
module FileApi {
  import opened Entries
  import opened ShardTree
  import opened Sharding
  import Gc

  datatype Call =
    | FilePut(name: string, file: FileRef)
    | FileGet(name: string)
    | FileDelete(name: string, seconds: U32, nanos: U32)
    | ShardNode(at: seq<nat>)

  /** The closure each call runs on the value slot of its path. */
  function RequestOf(c: Call): Request {
    match c
    case FilePut(name, file) => OnFile(name, _ => Some(file))
    case FileGet(name) => OnFile(name, v => v)
    case FileDelete(name, seconds, nanos) => OnFile(name, v => Deleted(v, seconds, nanos))
    case ShardNode(at) => DoShard(at)
  }

  function Deleted(v: Option<FileRef>, seconds: U32, nanos: U32): Option<FileRef> {
    match v
    case Some(f) => Some(Gc.FromDeleted(f, seconds, nanos))
    case None => None
  }

  /** Tombstones read as absent. */
  function Live(v: Option<FileRef>): Option<FileRef> {
    if v.Some? && !IsTombstone(v.value) then v else None
  }

  /** What `file_get` returns. */
  function Fetched(xxh: NameHash, n: Node, name: string): Option<FileRef> {
    Live(Seen(xxh, n, name))
  }

  /** `file_get` returns the stored entry if there is one and it is not a
      tombstone, and nothing otherwise. */
  lemma GetReturnsTheEntryIff(xxh: NameHash, n: Node, name: string, f: FileRef)
    ensures Fetched(xxh, n, name) == Some(f) <==> Seen(xxh, n, name) == Some(f) && f.refType != Some(Tombstone)
  {}

  /** On an unsharded directory the stored entry is the one in its file map. */
  lemma GetReadsTheFileMap(xxh: NameHash, n: Node, name: string)
    requires n.level == None && SLASH !in name && name !in n.here.dirs
    ensures name in n.here.files && n.here.files[name].refType != Some(Tombstone) ==>
              Fetched(xxh, n, name) == Some(n.here.files[name])
    ensures name !in n.here.files || n.here.files[name].refType == Some(Tombstone) ==> Fetched(xxh, n, name) == None
  {
    SlashFreeIsItsSegment(name);
  }

  /** What each call leaves in the slot of its name: a put its file, a get what
      it found, and a delete nothing if there was nothing, and otherwise a
      tombstone of the given time that keeps the old entry. */
  lemma CallLeaves(xxh: NameHash, n: Node, c: Call)
    requires Placed(xxh, n) && Allowed(xxh, n, RequestOf(c))
    requires c.FilePut? || c.FileGet? || c.FileDelete? ==> c.name !in Flat(n).dirs
    ensures var n' := Apply(xxh, n, RequestOf(c));
            match c
            case FilePut(name, file) => Seen(xxh, n', name) == Some(file)
            case FileGet(name) => Seen(xxh, n', name) == Seen(xxh, n, name)
            case FileDelete(name, seconds, nanos) => LeavesTombstone(Seen(xxh, n, name), Seen(xxh, n', name),
                                                                     seconds, nanos)
            case ShardNode(_) => Flat(n') == Flat(n)
  {
    ApplyIsInvisible(xxh, n, RequestOf(c));
    if RequestOf(c).OnFile? {
      var name := RequestOf(c).name;
      SlashFreeIsItsSegment(name);
      SeenAfterTask(xxh, n, name, RequestOf(c).task, name);
    }
  }

  predicate LeavesTombstone(before: Option<FileRef>, after: Option<FileRef>, seconds: U32, nanos: U32) {
    match (before, after)
    case (None, None) => true
    case (Some(f), Some(t)) =>
      && t.refType == Some(Tombstone) && t.hash == f.hash && t.seconds == Some(seconds) && t.nanos == Some(nanos)
      && t.prev == Some(f) && t.firstVersion == (if f.firstVersion.Some? then f.firstVersion else Some(f))
    case _ => false
  }

  function RunCalls(xxh: NameHash, n: Node, cs: seq<Call>): Node
    decreases cs
  {
    if cs == [] then n else RunCalls(xxh, Apply(xxh, n, RequestOf(cs[0])), cs[1..])
  }

  ghost predicate CallsAllowed(xxh: NameHash, n: Node, cs: seq<Call>)
    decreases cs
  {
    cs != [] ==> Allowed(xxh, n, RequestOf(cs[0])) && CallsAllowed(xxh, Apply(xxh, n, RequestOf(cs[0])), cs[1..])
  }

  /** A plain map of live files, seen at one name. */
  function Expected(v: Option<FileRef>, cs: seq<Call>, name: string): Option<FileRef>
    decreases cs
  {
    if cs == [] then v
    else
      match cs[0]
      case FilePut(k, file) =>
        var put := if file.refType == Some(Tombstone) then None else Some(file);
        Expected(if k == name then put else v, cs[1..], name)
      case FileDelete(k, _, _) => Expected(if k == name then None else v, cs[1..], name)
      case _ => Expected(v, cs[1..], name)
  }

  lemma CallStep(xxh: NameHash, n: Node, c: Call, name: string)
    requires Placed(xxh, n) && Allowed(xxh, n, RequestOf(c)) && SlashFree(name) && name !in Flat(n).dirs
    ensures var n' := Apply(xxh, n, RequestOf(c));
            && Placed(xxh, n') && name !in Flat(n').dirs
            && Fetched(xxh, n', name) == Expected(Fetched(xxh, n, name), [c], name)
  {
    ApplyIsInvisible(xxh, n, RequestOf(c));
    SeenIsFlatSeen(xxh, n, name);
    SeenIsFlatSeen(xxh, Apply(xxh, n, RequestOf(c)), name);
    FlatCallStep(Flat(n), c, name);
  }

  lemma FlatCallStep(d: Dir, c: Call, name: string)
    requires (RequestOf(c).OnFile? ==> SlashFree(RequestOf(c).name)) && SlashFree(name) && name !in d.dirs
    ensures var d' := FlatApply(d, RequestOf(c));
            name !in d'.dirs && Live(FlatSeen(d', name)) == Expected(Live(FlatSeen(d, name)), [c], name)
  {
    SlashFreeIsItsSegment(name);
    if RequestOf(c).OnFile? {
      SlashFreeIsItsSegment(RequestOf(c).name);
    }
    assert [c][1..] == [];
  }

  /** In every run of puts, gets and deletes on slash-free names, interleaved
      with sharding, `file_get` returns what the last put or delete of that very
      name left. */
  lemma {:induction false} GetReturnsLastWrite(xxh: NameHash, n: Node, cs: seq<Call>, name: string)
    requires Placed(xxh, n) && CallsAllowed(xxh, n, cs) && SlashFree(name) && name !in Flat(n).dirs
    ensures Fetched(xxh, RunCalls(xxh, n, cs), name) == Expected(Fetched(xxh, n, name), cs, name)
    decreases cs
  {
    if cs != [] {
      CallStep(xxh, n, cs[0], name);
      assert [cs[0]][1..] == [];
      GetReturnsLastWrite(xxh, Apply(xxh, n, RequestOf(cs[0])), cs[1..], name);
    }
  }
}
