/** The `shard` transition, runs of file operations interleaved with it, and
    the two places where the code stops being invisible to its callers. */
module Sharding {
  import opened Entries
  import opened Lww
  import opened ShardTree

  /** The entries of `d` whose whole key falls into bucket `b`. */
  function Part(xxh: NameHash, d: Dir, level: nat, b: nat): Dir {
    Dir(map k | k in d.files && Bucket(xxh, k, level) == b :: d.files[k],
        map k | k in d.dirs && Bucket(xxh, k, level) == b :: d.dirs[k])
  }

  function UsedBuckets(xxh: NameHash, d: Dir, level: nat): set<nat> {
    set k | k in d.Names() :: Bucket(xxh, k, level)
  }

  lemma UsedBucketsBelow256(xxh: NameHash, d: Dir, level: nat)
    ensures forall b :: b in UsedBuckets(xxh, d, level) ==> 0 <= b < 256
  {}

  /** The bucket whose shard `shard` opens first. */
  function FirstUsed(xxh: NameHash, d: Dir, level: nat): (b: nat)
    requires UsedBuckets(xxh, d, level) != {}
    ensures b in UsedBuckets(xxh, d, level)
    ensures forall c :: c in UsedBuckets(xxh, d, level) ==> b <= c
  {
    UsedBucketsBelow256(xxh, d, level);
    assert exists x :: x in UsedBuckets(xxh, d, level) && 0 <= x < 256;
    Least(UsedBuckets(xxh, d, level), 0)
  }

  lemma PartAt(xxh: NameHash, d: Dir, level: nat, b: nat)
    ensures d.Disjoint() ==> Part(xxh, d, level, b).Disjoint()
    ensures forall k :: Part(xxh, d, level, b).At(k) == if Bucket(xxh, k, level) == b then d.At(k) else None
  {}

  datatype Outcome =
    | Sharded(node: Node)
    | AlreadySharded
    | TooDeep(failed: nat)  // the shard whose actor could not be opened

  /** `shard`: empty buckets get no shard, the others one each. At the maximum
      level the first shard cannot be opened and the call fails half-way. */
  function Shard(xxh: NameHash, n: Node): Outcome {
    var used := UsedBuckets(xxh, n.here, n.link);
    if n.level.Some? then AlreadySharded
    else if used != {} && n.link >= MAX_SHARD_LEVEL then TooDeep(FirstUsed(xxh, n.here, n.link))
    else Sharded(Node(n.link, EMPTY_DIR, Some(n.link),
                      map b | b in used :: Leaf(n.link, Part(xxh, n.here, n.link, b))))
  }

  /** A fresh shard of a directory at level `link`. */
  function Leaf(link: nat, here: Dir): Node {
    Node(link + 1, here, None, map[])
  }

  /** The smallest member of `s` from `i` on, below 256. */
  function Least(s: set<nat>, i: nat): (m: nat)
    requires exists x :: x in s && i <= x < 256
    ensures m in s && forall x :: x in s && i <= x < 256 ==> m <= x
    decreases 256 - i
  {
    if i in s then i else Least(s, i + 1)
  }

  lemma ShardedNode(xxh: NameHash, n: Node)
    requires Placed(xxh, n) && Shard(xxh, n).Sharded?
    ensures var n' := Shard(xxh, n).node;
            && Placed(xxh, n') && n'.link == n.link
            && forall k :: EntryAt(xxh, n', k) == EntryAt(xxh, n, k)
    ensures var n' := Shard(xxh, n).node;
            && n'.here.files == map[] && n'.here.dirs == map[]
            && forall b :: b in n'.shards <==> exists k :: k in n.here.Names() && Bucket(xxh, k, n.link) == b
  {
    var n' := Shard(xxh, n).node;
    forall b | b in n'.shards
      ensures Placed(xxh, n'.shards[b])
      ensures forall k :: EntryAt(xxh, n'.shards[b], k) == if Bucket(xxh, k, n.link) == b then n.here.At(k) else None
    {
      PartAt(xxh, n.here, n.link, b);
    }
    PlaceShards(xxh, n');
    forall k
      ensures EntryAt(xxh, n', k) == EntryAt(xxh, n, k)
    {
      var b := Bucket(xxh, k, n.link);
      if b in n'.shards {
        assert Route(xxh, n', k) == Some(b);
      } else {
        assert k !in n.here.Names();
      }
    }
  }

  /** `shard` on the node reached through the shards `at`; requests that find
      no such node or an already sharded one are refused. */
  function ShardAt(xxh: NameHash, n: Node, at: seq<nat>): Node
    decreases at
  {
    if at == [] then
      match Shard(xxh, n)
      case Sharded(n') => n'
      case _ => n
    else if at[0] in n.shards then n.(shards := n.shards[at[0] := ShardAt(xxh, n.shards[at[0]], at[1..])])
    else n
  }

  /** The request does not hit the depth limit. */
  predicate Shardable(xxh: NameHash, n: Node, at: seq<nat>)
    decreases at
  {
    if at == [] then !Shard(xxh, n).TooDeep?
    else at[0] in n.shards ==> Shardable(xxh, n.shards[at[0]], at[1..])
  }

  lemma {:induction false} ShardAtPlaced(xxh: NameHash, n: Node, at: seq<nat>)
    requires Placed(xxh, n) && Shardable(xxh, n, at)
    ensures Placed(xxh, ShardAt(xxh, n, at)) && ShardAt(xxh, n, at).link == n.link
    ensures forall k :: EntryAt(xxh, ShardAt(xxh, n, at), k) == EntryAt(xxh, n, k)
    decreases at
  {
    if at == [] {
      if Shard(xxh, n).Sharded? {
        ShardedNode(xxh, n);
      }
    } else if at[0] in n.shards {
      ShardAtPlaced(xxh, n.shards[at[0]], at[1..]);
      ReplaceShard(xxh, n, at[0], ShardAt(xxh, n.shards[at[0]], at[1..]));
    }
  }

  // ---------------------------------------------------------------- runs

  /** A client request: run a task on a name, or shard some node. */
  datatype Request = OnFile(name: string, task: Task) | DoShard(at: seq<nat>)

  function Apply(xxh: NameHash, n: Node, r: Request): Node {
    match r
    case OnFile(name, task) => FileOp(xxh, n, name, task)
    case DoShard(at) => ShardAt(xxh, n, at)
  }

  function Answer(xxh: NameHash, n: Node, r: Request): Option<FileRef> {
    match r
    case OnFile(name, _) => Seen(xxh, n, name)
    case DoShard(_) => None
  }

  /** The same requests on a plain map, where sharding is nothing at all. */
  function FlatApply(d: Dir, r: Request): Dir {
    match r
    case OnFile(name, task) => FlatFileOp(d, name, task)
    case DoShard(_) => d
  }

  function FlatAnswer(d: Dir, r: Request): Option<FileRef> {
    match r
    case OnFile(name, _) => FlatSeen(d, name)
    case DoShard(_) => None
  }

  ghost predicate Allowed(xxh: NameHash, n: Node, r: Request) {
    match r
    case OnFile(name, _) => SlashFree(name)
    case DoShard(at) => Shardable(xxh, n, at)
  }

  function Run(xxh: NameHash, n: Node, rs: seq<Request>): Node
    decreases rs
  {
    if rs == [] then n else Run(xxh, Apply(xxh, n, rs[0]), rs[1..])
  }

  function Answers(xxh: NameHash, n: Node, rs: seq<Request>): seq<Option<FileRef>>
    decreases rs
  {
    if rs == [] then [] else [Answer(xxh, n, rs[0])] + Answers(xxh, Apply(xxh, n, rs[0]), rs[1..])
  }

  function FlatRun(d: Dir, rs: seq<Request>): Dir
    decreases rs
  {
    if rs == [] then d else FlatRun(FlatApply(d, rs[0]), rs[1..])
  }

  function FlatAnswers(d: Dir, rs: seq<Request>): seq<Option<FileRef>>
    decreases rs
  {
    if rs == [] then [] else [FlatAnswer(d, rs[0])] + FlatAnswers(FlatApply(d, rs[0]), rs[1..])
  }

  ghost predicate AllAllowed(xxh: NameHash, n: Node, rs: seq<Request>)
    decreases rs
  {
    rs != [] ==> Allowed(xxh, n, rs[0]) && AllAllowed(xxh, Apply(xxh, n, rs[0]), rs[1..])
  }

  lemma ApplyIsInvisible(xxh: NameHash, n: Node, r: Request)
    requires Placed(xxh, n) && Allowed(xxh, n, r)
    ensures Placed(xxh, Apply(xxh, n, r))
    ensures Flat(Apply(xxh, n, r)) == FlatApply(Flat(n), r)
    ensures Answer(xxh, n, r) == FlatAnswer(Flat(n), r)
  {
    var n' := Apply(xxh, n, r);
    FlatDisjoint(xxh, n);
    match r {
      case OnFile(name, task) =>
        FileOpPlaced(xxh, n, name, task);
        forall k { FileOpAt(xxh, n, name, task, k); }
        SeenIsFlatSeen(xxh, n, name);
        FlatFileOpAt(Flat(n), name, task);
      case DoShard(at) =>
        ShardAtPlaced(xxh, n, at);
    }
    forall k
      ensures Flat(n').At(k) == FlatApply(Flat(n), r).At(k)
    {
      FlatAt(xxh, n, k);
      FlatAt(xxh, n', k);
    }
    FlatDisjoint(xxh, n');
    SameEntriesSameDir(Flat(n'), FlatApply(Flat(n), r));
  }

  /** Sharding is invisible: in every run of file operations on slash-free
      names, interleaved with sharding any nodes at any depth below the limit,
      each name stays where routing looks for it, every answer is the one a
      plain map gives, and the merged snapshot is that plain map. */
  lemma {:induction false} ShardingIsInvisible(xxh: NameHash, n: Node, rs: seq<Request>)
    requires Placed(xxh, n) && AllAllowed(xxh, n, rs)
    ensures Placed(xxh, Run(xxh, n, rs))
    ensures Flat(Run(xxh, n, rs)) == FlatRun(Flat(n), rs)
    ensures Answers(xxh, n, rs) == FlatAnswers(Flat(n), rs)
    decreases rs
  {
    if rs != [] {
      ApplyIsInvisible(xxh, n, rs[0]);
      ShardingIsInvisible(xxh, Apply(xxh, n, rs[0]), rs[1..]);
    }
  }

  // ------------------------------------------------- where it is visible

  /** The entry a name reaches after a call of `shard`, failed or not. A failed
      call keeps the local maps, but the header already lists the shard that
      cannot be opened, and everything routed to it is lost to callers. */
  function EntryAfterShard(xxh: NameHash, n: Node, key: string): Option<Entry> {
    match Shard(xxh, n)
    case Sharded(n') => EntryAt(xxh, n', key)
    case AlreadySharded => EntryAt(xxh, n, key)
    case TooDeep(b) => if Bucket(xxh, key, n.link) == b then None else n.here.At(key)
  }

  /** `shard` keeps every entry reachable if and only if it is not called on a
      non-empty, unsharded directory at the maximum level; there it loses exactly
      the names of the smallest bucket in use. */
  lemma ShardKeepsEntriesIff(xxh: NameHash, n: Node)
    requires Placed(xxh, n)
    ensures (forall k :: EntryAfterShard(xxh, n, k) == EntryAt(xxh, n, k))
            <==> !(n.level.None? && n.link == MAX_SHARD_LEVEL && n.here.Names() != {})
    ensures n.level.None? && n.link == MAX_SHARD_LEVEL && n.here.Names() != {} ==>
              forall k :: EntryAfterShard(xxh, n, k) != EntryAt(xxh, n, k) <==>
                k in n.here.Names() &&
                forall j :: j in n.here.Names() ==> Bucket(xxh, k, n.link) <= Bucket(xxh, j, n.link)
  {
    match Shard(xxh, n)
    case Sharded(n') =>
      ShardedNode(xxh, n);
      if n.here.Names() != {} {
        var k :| k in n.here.Names();
        assert Bucket(xxh, k, n.link) in UsedBuckets(xxh, n.here, n.link);
      }
    case AlreadySharded =>
    case TooDeep(b) =>
      var k :| k in n.here.Names() && Bucket(xxh, k, n.link) == b;
      assert EntryAfterShard(xxh, n, k) != EntryAt(xxh, n, k);
      forall j | j in n.here.Names()
        ensures b <= Bucket(xxh, j, n.link)
      {
        assert Bucket(xxh, j, n.link) in UsedBuckets(xxh, n.here, n.link);
      }
  }

  /** Sharding sends a stored key where a lookup of it will be routed, or the
      key was already hidden by a child directory. */
  ghost predicate Aligned(xxh: NameHash, n: Node, key: string) {
    key in n.here.files && FirstSegment(key) !in n.here.dirs ==>
      Bucket(xxh, key, n.link) == Bucket(xxh, FirstSegment(key), n.link)
  }

  ghost predicate LookupKept(xxh: NameHash, n: Node, path: string)
    requires Shard(xxh, n).Sharded?
  {
    Seen(xxh, Shard(xxh, n).node, path) == Seen(xxh, n, path)
  }

  /** Sharding buckets by the whole key but routing buckets by the first
      segment. For arbitrary keys, sharding an unsharded directory keeps every
      lookup if and only if the two buckets agree for each stored key that is
      not already hidden by a child directory. */
  lemma ShardKeepsLookupsIff(xxh: NameHash, n: Node)
    requires Placed(xxh, n) && Shard(xxh, n).Sharded?
    ensures (forall path :: LookupKept(xxh, n, path)) <==> (forall key :: Aligned(xxh, n, key))
  {
    forall path
      ensures LookupKept(xxh, n, path) <==> Aligned(xxh, n, path)
    {
      SeenAfterShard(xxh, n, path);
    }
  }

  lemma SeenAfterShard(xxh: NameHash, n: Node, path: string)
    requires Placed(xxh, n) && Shard(xxh, n).Sharded?
    ensures Seen(xxh, n, path) == FlatSeen(n.here, path)
    ensures Seen(xxh, Shard(xxh, n).node, path) ==
            if Bucket(xxh, path, n.link) == Bucket(xxh, FirstSegment(path), n.link)
            then FlatSeen(n.here, path) else None
  {
    var n' := Shard(xxh, n).node;
    var b := Bucket(xxh, FirstSegment(path), n.link);
    assert forall k :: k in n.here.Names() ==> Bucket(xxh, k, n.link) in n'.shards;
    if b in n'.shards {
      assert Route(xxh, n', FirstSegment(path)) == Some(b);
      assert Route(xxh, n'.shards[b], FirstSegment(path)) == None;
    } else {
      assert FirstSegment(path) !in n.here.dirs;
    }
  }
}
