/** One logical directory spread over hash shards: how names are routed, what
    sharding moves, and why none of it shows in the flat view. */
module ShardTree {
  import opened Entries
  import opened Lww

  const MAX_SHARD_LEVEL: nat := 7
  const SLASH: char := '/'

  type Word64 = x: nat | x <= U64_MAX

  /** `xxh3_64`: an arbitrary function from names to 64-bit words. */
  type NameHash = string -> Word64

  /** Byte number `i` of a word, least significant first. */
  function ByteOf(w: nat, i: nat): (b: nat)
    ensures b < 256
  {
    if i == 0 then w % 256 else ByteOf(w / 256, i - 1)
  }

  /** `shard_bucket_for`: byte number `level` of the hash of the name. */
  function Bucket(xxh: NameHash, name: string, level: nat): (b: nat)
    ensures b < 256
  {
    ByteOf(xxh(name), level)
  }

  /** The low `k` bytes of a word, put together again. */
  function Spelled(w: nat, k: nat): nat {
    if k == 0 then 0 else Spelled(w, k - 1) + Pow256(k - 1) * ByteOf(w, k - 1)
  }

  lemma {:induction false} SpelledStep(w: nat, k: nat)
    ensures Spelled(w, k + 1) == w % 256 + 256 * Spelled(w / 256, k)
  {
    if k > 0 {
      SpelledStep(w, k - 1);
      assert ByteOf(w, k) == ByteOf(w / 256, k - 1);
      assert Pow256(k) * ByteOf(w, k) == 256 * (Pow256(k - 1) * ByteOf(w / 256, k - 1));
    }
  }

  lemma {:induction false} BytesSpellWord(w: nat, k: nat)
    requires w < Pow256(k)
    ensures Spelled(w, k) == w
  {
    if k > 0 {
      SpelledStep(w, k - 1);
      BytesSpellWord(w / 256, k - 1);
    }
  }

  /** A name's bucket is the digit at its shard level when the hash is written in
      base 256: what is below it is less than that place, what is above it a
      multiple of the next. */
  lemma BucketIsDigitOfHash(xxh: NameHash, name: string, level: nat) returns (above: nat, below: nat)
    ensures xxh(name) == above * Pow256(level + 1) + Bucket(xxh, name, level) * Pow256(level) + below
    ensures below < Pow256(level)
  {
    above, below := ByteOfPlace(xxh(name), level);
  }

  lemma {:induction false} ByteOfPlace(w: nat, i: nat) returns (above: nat, below: nat)
    ensures w == above * Pow256(i + 1) + ByteOf(w, i) * Pow256(i) + below && below < Pow256(i)
  {
    if i == 0 {
      above, below := w / 256, 0;
    } else {
      var hi, lo := ByteOfPlace(w / 256, i - 1);
      above, below := hi, 256 * lo + w % 256;
      var b := ByteOf(w, i);
      Times256(hi, Pow256(i));
      Times256(b, Pow256(i - 1));
    }
  }

  lemma Times256(x: nat, y: nat)
    ensures x * (256 * y) == 256 * (x * y)
  {}

  /** The buckets of a name at the eight levels are the eight bytes of its hash,
      so names with different hashes are told apart at some level. */
  lemma BucketsSpellHash(xxh: NameHash, name: string, other: string)
    ensures Spelled(xxh(name), MAX_SHARD_LEVEL + 1) == xxh(name)
    ensures xxh(name) != xxh(other) ==>
              exists level :: 0 <= level <= MAX_SHARD_LEVEL && Bucket(xxh, name, level) != Bucket(xxh, other, level)
  {
    EightBytes();
    BytesSpellWord(xxh(name), 8);
    BytesSpellWord(xxh(other), 8);
    if forall level :: 0 <= level <= MAX_SHARD_LEVEL ==> Bucket(xxh, name, level) == Bucket(xxh, other, level) {
      forall i | 0 <= i < 8
        ensures ByteOf(xxh(name), i) == ByteOf(xxh(other), i)
      {
        assert Bucket(xxh, name, i) == Bucket(xxh, other, i);
      }
      SameBytesSameWord(xxh(name), xxh(other), 8);
    }
  }

  lemma {:induction false} SameBytesSameWord(v: nat, w: nat, k: nat)
    requires forall i :: 0 <= i < k ==> ByteOf(v, i) == ByteOf(w, i)
    ensures Spelled(v, k) == Spelled(w, k)
  {
    if k > 0 {
      SameBytesSameWord(v, w, k - 1);
    }
  }

  /** The part of a path before its first slash. */
  function FirstSegment(path: string): (seg: string)
    ensures |seg| <= |path| && seg == path[..|seg|] && SLASH !in seg
    ensures |seg| < |path| ==> path[|seg|] == SLASH
  {
    if path == [] || path[0] == SLASH then [] else [path[0]] + FirstSegment(path[1..])
  }

  ghost predicate SlashFree(name: string) {
    SLASH !in name
  }

  lemma SlashFreeIsItsSegment(name: string)
    ensures SlashFree(name) <==> FirstSegment(name) == name
  {}

  /** A directory actor's layout. `link` is the shard level its parent link
      carries (0 unless it is itself a shard), `here` its own two maps, and
      `level` and `shards` its header once it has been sharded. */
  datatype Node = Node(link: nat, here: Dir, level: Option<nat>, shards: map<nat, Node>)

  /** The shard a key is sent to, if that shard exists. */
  function Route(xxh: NameHash, n: Node, key: string): Option<nat> {
    if n.level.Some? && Bucket(xxh, key, n.level.value) in n.shards
    then Some(Bucket(xxh, key, n.level.value)) else None
  }

  /** `export_merged_snapshot`: this node's maps with those of its shards
      inserted in bucket order, later insertions overwriting earlier ones. */
  function Flat(n: Node): Dir
    decreases n, 257
  {
    FlatUpTo(n, 256)
  }

  function FlatUpTo(n: Node, i: nat): Dir
    decreases n, i
  {
    if i == 0 then n.here
    else
      var before := FlatUpTo(n, i - 1);
      if i - 1 in n.shards then
        Overlay(before, Flat(n.shards[i - 1]))
      else before
  }

  /** Every entry of `top` inserted into `base`. */
  function Overlay(base: Dir, top: Dir): Dir {
    Dir(base.files + top.files, base.dirs + top.dirs)
  }

  /** Every key of the subtree lives where its own bucket sends it: in that
      bucket's shard if there is one, and otherwise in this node. */
  ghost predicate Placed(xxh: NameHash, n: Node) {
    && n.link <= MAX_SHARD_LEVEL
    && n.here.Disjoint()
    && (n.level.None? ==> n.shards == map[])
    && (n.level.Some? ==> n.level.value == n.link)
    && (forall k :: k in n.here.Names() ==> Route(xxh, n, k) == None)
    && (forall b :: b in n.shards ==>
          b < 256 && n.shards[b].link == n.link + 1 && Placed(xxh, n.shards[b]))
    && (forall b, k :: b in n.shards && k in Flat(n.shards[b]).Names() ==> Bucket(xxh, k, n.link) == b)
  }

  /** The entry of a key found by following its bucket down the shards. */
  function EntryAt(xxh: NameHash, n: Node, key: string): Option<Entry> {
    match Route(xxh, n, key)
    case Some(b) => EntryAt(xxh, n.shards[b], key)
    case None => n.here.At(key)
  }

  lemma {:induction false} FlatUpToAt(xxh: NameHash, n: Node, i: nat, key: string)
    requires Placed(xxh, n)
    ensures !(key in FlatUpTo(n, i).files && key in FlatUpTo(n, i).dirs)
    ensures FlatUpTo(n, i).At(key) ==
            var r := Route(xxh, n, key);
            if r.Some? && r.value < i then Flat(n.shards[r.value]).At(key) else n.here.At(key)
    decreases n, i
  {
    if i > 0 {
      FlatUpToAt(xxh, n, i - 1, key);
      if i - 1 in n.shards {
        FlatUpToAt(xxh, n.shards[i - 1], 256, key);
        if Route(xxh, n, key) == Some(i - 1) {
          assert key !in FlatUpTo(n, i - 1).Names();
        } else {
          assert key !in Flat(n.shards[i - 1]).Names();
        }
      }
    }
  }

  lemma FlatDisjoint(xxh: NameHash, n: Node)
    requires Placed(xxh, n)
    ensures Flat(n).Disjoint()
  {
    forall k
      ensures !(k in Flat(n).files && k in Flat(n).dirs)
    {
      FlatUpToAt(xxh, n, 256, k);
    }
  }

  /** Flat logical view: the merged snapshot holds a key exactly when following
      its bucket finds it, with the same entry. */
  lemma {:induction false} FlatAt(xxh: NameHash, n: Node, key: string)
    requires Placed(xxh, n)
    ensures Flat(n).At(key) == EntryAt(xxh, n, key)
  {
    FlatUpToAt(xxh, n, 256, key);
    match Route(xxh, n, key)
    case Some(b) => FlatAt(xxh, n.shards[b], key);
    case None =>
  }

  /** Rebuilding the invariant from what following the buckets finds. */
  lemma PlaceShards(xxh: NameHash, n: Node)
    requires n.link <= MAX_SHARD_LEVEL && n.here.Disjoint() && n.level == Some(n.link)
    requires forall k :: k in n.here.Names() ==> Route(xxh, n, k) == None
    requires forall b :: b in n.shards ==> b < 256 && n.shards[b].link == n.link + 1 && Placed(xxh, n.shards[b])
    requires forall b, k :: b in n.shards && EntryAt(xxh, n.shards[b], k).Some? ==> Bucket(xxh, k, n.link) == b
    ensures Placed(xxh, n)
  {
    forall b, k | b in n.shards && k in Flat(n.shards[b]).Names()
      ensures Bucket(xxh, k, n.link) == b
    {
      FlatAt(xxh, n.shards[b], k);
    }
  }

  /** The entries of a shard belong to its bucket. */
  lemma ShardEntries(xxh: NameHash, n: Node, b: nat)
    requires Placed(xxh, n) && b in n.shards
    ensures forall k :: EntryAt(xxh, n.shards[b], k).Some? ==> Bucket(xxh, k, n.link) == b
  {
    forall k | EntryAt(xxh, n.shards[b], k).Some?
      ensures Bucket(xxh, k, n.link) == b
    {
      FlatAt(xxh, n.shards[b], k);
      assert k in Flat(n.shards[b]).Names();
    }
  }

  /** What a `FileOp` finds: nothing here if the first segment names a child
      directory, because the operation is then forwarded to that child. */
  function FlatSeen(d: Dir, path: string): Option<FileRef> {
    if FirstSegment(path) in d.dirs then None else Get(d.files, path)
  }

  /** A `FileOp` on a plain map. */
  function FlatFileOp(d: Dir, path: string, task: Task): Dir {
    if FirstSegment(path) in d.dirs then d
    else Dir(Put(d.files, path, task(Get(d.files, path))), d.dirs)
  }

  /** What a `FileOp` finds in the sharded layout: routing uses the bucket of
      the first segment and passes the whole path down. */
  function Seen(xxh: NameHash, n: Node, path: string): Option<FileRef> {
    match Route(xxh, n, FirstSegment(path))
    case Some(b) => Seen(xxh, n.shards[b], path)
    case None => FlatSeen(n.here, path)
  }

  function FileOp(xxh: NameHash, n: Node, path: string, task: Task): Node {
    match Route(xxh, n, FirstSegment(path))
    case Some(b) => n.(shards := n.shards[b := FileOp(xxh, n.shards[b], path, task)])
    case None => n.(here := FlatFileOp(n.here, path, task))
  }

  lemma {:induction false} SeenIsFlatSeen(xxh: NameHash, n: Node, name: string)
    requires Placed(xxh, n) && SlashFree(name)
    ensures Seen(xxh, n, name) == FlatSeen(Flat(n), name)
  {
    SlashFreeIsItsSegment(name);
    FlatAt(xxh, n, name);
    match Route(xxh, n, name)
    case Some(b) =>
      SeenIsFlatSeen(xxh, n.shards[b], name);
      FlatAt(xxh, n.shards[b], name);
    case None =>
  }

  /** The slot a slash-free `FileOp` leaves for its own name. */
  function SlotAfter(before: Option<Entry>, task: Task): Option<Entry> {
    match before
    case Some(DirEntry(_)) => before
    case Some(FileEntry(f)) => (match task(Some(f)) case Some(g) => Some(FileEntry(g)) case None => None)
    case None => (match task(None) case Some(g) => Some(FileEntry(g)) case None => None)
  }

  lemma FlatFileOpAt(d: Dir, name: string, task: Task)
    requires d.Disjoint() && SlashFree(name)
    ensures FlatFileOp(d, name, task).Disjoint()
    ensures forall k :: FlatFileOp(d, name, task).At(k) == if k == name then SlotAfter(d.At(name), task) else d.At(k)
  {
    SlashFreeIsItsSegment(name);
  }

  lemma {:induction false} FileOpAt(xxh: NameHash, n: Node, name: string, task: Task, k: string)
    requires Placed(xxh, n) && SlashFree(name)
    ensures EntryAt(xxh, FileOp(xxh, n, name, task), k) ==
            if k == name then SlotAfter(EntryAt(xxh, n, name), task) else EntryAt(xxh, n, k)
  {
    SlashFreeIsItsSegment(name);
    match Route(xxh, n, name)
    case Some(b) => FileOpAt(xxh, n.shards[b], name, task, k);
    case None => FlatFileOpAt(n.here, name, task);
  }

  lemma {:induction false} FileOpPlaced(xxh: NameHash, n: Node, name: string, task: Task)
    requires Placed(xxh, n) && SlashFree(name)
    ensures Placed(xxh, FileOp(xxh, n, name, task)) && FileOp(xxh, n, name, task).link == n.link
  {
    SlashFreeIsItsSegment(name);
    match Route(xxh, n, name)
    case Some(b) =>
      FileOpPlaced(xxh, n.shards[b], name, task);
      forall k { FileOpAt(xxh, n.shards[b], name, task, k); }
      ReplaceShard(xxh, n, b, FileOp(xxh, n.shards[b], name, task));
    case None =>
      FlatFileOpAt(n.here, name, task);
  }

  /** A task on a slash-free name that is no child directory runs on what is
      found there and leaves its result there, in whatever shard that is; and
      it leaves what is found under every other name. */
  lemma SeenAfterTask(xxh: NameHash, n: Node, name: string, task: Task, other: string)
    requires Placed(xxh, n) && SLASH !in name && SLASH !in other && name !in Flat(n).dirs
    ensures Seen(xxh, FileOp(xxh, n, name, task), other) ==
            if other == name then task(Seen(xxh, n, name)) else Seen(xxh, n, other)
  {
    var n' := FileOp(xxh, n, name, task);
    FileOpPlaced(xxh, n, name, task);
    FileOpAt(xxh, n, name, task, other);
    SeenIsFlatSeen(xxh, n, other);
    SeenIsFlatSeen(xxh, n', other);
    FlatAt(xxh, n, other);
    FlatAt(xxh, n', other);
    FlatDisjoint(xxh, n);
    FlatDisjoint(xxh, n');
    SlashFreeIsItsSegment(other);
  }

  /** What is found on a slash-free name is its file, wherever it is stored. */
  lemma SeenIsTheFile(xxh: NameHash, n: Node, name: string)
    requires Placed(xxh, n) && SLASH !in name
    ensures Seen(xxh, n, name) == if name in Flat(n).files then Some(Flat(n).files[name]) else None
  {
    SeenIsFlatSeen(xxh, n, name);
    SlashFreeIsItsSegment(name);
    FlatDisjoint(xxh, n);
  }

  /** Nothing of this directory is found or touched on a path that leads into one
      of its child directories. */
  lemma ChildTakesThePath(d: Dir, path: string, name: string, task: Task)
    requires name in d.dirs && SLASH !in name && (path == name || (name + [SLASH] <= path))
    ensures FlatSeen(d, path) == None && FlatFileOp(d, path, task) == d
  {
    SegmentOf(path, name);
  }

  lemma {:induction false} SegmentOf(path: string, name: string)
    requires SLASH !in name && (path == name || name + [SLASH] <= path)
    ensures FirstSegment(path) == name
  {
    if name != [] {
      assert path[0] == name[0];
      assert name + [SLASH] <= path ==> name[1..] + [SLASH] <= path[1..];
      SegmentOf(path[1..], name[1..]);
    } else if path != [] {
      assert path[0] == ([] + [SLASH])[0];
    }
  }

  /** Replacing one shard by another whose entries belong to the bucket. */
  lemma ReplaceShard(xxh: NameHash, n: Node, b: nat, shard: Node)
    requires Placed(xxh, n) && b in n.shards
    requires Placed(xxh, shard) && shard.link == n.link + 1
    requires forall k :: EntryAt(xxh, shard, k).Some? ==>
               EntryAt(xxh, n.shards[b], k).Some? || Bucket(xxh, k, n.link) == b
    ensures Placed(xxh, n.(shards := n.shards[b := shard]))
  {
    forall c | c in n.shards { ShardEntries(xxh, n, c); }
    PlaceShards(xxh, n.(shards := n.shards[b := shard]));
  }
}
