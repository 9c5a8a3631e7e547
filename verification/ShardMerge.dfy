/** Merging a snapshot into a sharded directory, compared with merging it into
    the flat view. */
module ShardMerge {
  import opened Entries
  import opened Lww
  import opened ShardTree
  import opened Sharding

  /** `merge_snapshot`: an unsharded node merges locally; a sharded one splits
      the snapshot by bucket and hands each part to the shard of that bucket.
      A part whose shard does not exist is dropped. */
  function MergeNode(xxh: NameHash, n: Node, s: Dir): Node
    decreases n, 0
  {
    if n.level.None? then n.(here := MergeDir(n.here, s))
    else n.(shards := map b | b in n.shards :: MergeShard(xxh, n.shards[b], Part(xxh, s, n.level.value, b)))
  }

  function MergeShard(xxh: NameHash, shard: Node, part: Dir): Node
    decreases shard, 1
  {
    if part == EMPTY_DIR then shard else MergeNode(xxh, shard, part)
  }

  /** A snapshot entry of this name gets to a leaf of the layout. */
  predicate Reaches(xxh: NameHash, n: Node, name: string) {
    n.level.None? || (Route(xxh, n, name).Some? && Reaches(xxh, n.shards[Route(xxh, n, name).value], name))
  }

  /** What a name means after a merge into the layout. */
  function Delivery(xxh: NameHash, n: Node, s: Dir, name: string): Option<Entry> {
    if Reaches(xxh, n, name) then Race(EntryAt(xxh, n, name), s, name) else EntryAt(xxh, n, name)
  }

  lemma {:induction false} MergeNodeAt(xxh: NameHash, n: Node, s: Dir, k: string)
    requires Placed(xxh, n)
    ensures EntryAt(xxh, MergeNode(xxh, n, s), k) == Delivery(xxh, n, s, k)
    decreases n, 0
  {
    if n.level.None? {
      MergeDirAt(n.here, s);
    } else if Route(xxh, n, k).Some? {
      var b := Route(xxh, n, k).value;
      assert Route(xxh, MergeNode(xxh, n, s), k) == Some(b);
      MergeShardAt(xxh, n.shards[b], s, n.link, b, k);
    }
  }

  /** One shard's share of a merge; other buckets' entries stay out. */
  lemma {:induction false} MergeShardAt(xxh: NameHash, shard: Node, s: Dir, level: nat, b: nat, k: string)
    requires Placed(xxh, shard)
    ensures EntryAt(xxh, MergeShard(xxh, shard, Part(xxh, s, level, b)), k) ==
            if Bucket(xxh, k, level) == b then Delivery(xxh, shard, s, k) else EntryAt(xxh, shard, k)
    decreases shard, 1
  {
    var part := Part(xxh, s, level, b);
    assert part.FileAt(k) == if Bucket(xxh, k, level) == b then s.FileAt(k) else None;
    assert part.DirAt(k) == if Bucket(xxh, k, level) == b then s.DirAt(k) else None;
    if part != EMPTY_DIR {
      MergeNodeAt(xxh, shard, part, k);
    }
  }

  lemma {:induction false} MergeNodePlaced(xxh: NameHash, n: Node, s: Dir)
    requires Placed(xxh, n)
    ensures Placed(xxh, MergeNode(xxh, n, s)) && MergeNode(xxh, n, s).link == n.link
    decreases n, 0
  {
    var n' := MergeNode(xxh, n, s);
    if n.level.None? {
      MergeDirAt(n.here, s);
    } else {
      forall b | b in n.shards
        ensures Placed(xxh, n'.shards[b]) && n'.shards[b].link == n.link + 1
        ensures forall k :: EntryAt(xxh, n'.shards[b], k).Some? ==> Bucket(xxh, k, n.link) == b
      {
        ShardEntries(xxh, n, b);
        MergeShardPlaced(xxh, n.shards[b], s, n.link, b);
      }
      PlaceShards(xxh, n');
    }
  }

  lemma {:induction false} MergeShardPlaced(xxh: NameHash, shard: Node, s: Dir, level: nat, b: nat)
    requires Placed(xxh, shard)
    requires forall k :: EntryAt(xxh, shard, k).Some? ==> Bucket(xxh, k, level) == b
    ensures var m := MergeShard(xxh, shard, Part(xxh, s, level, b));
            && Placed(xxh, m) && m.link == shard.link
            && forall k :: EntryAt(xxh, m, k).Some? ==> Bucket(xxh, k, level) == b
    decreases shard, 1
  {
    MergeNodePlaced(xxh, shard, Part(xxh, s, level, b));
    forall k { MergeShardAt(xxh, shard, s, level, b, k); }
  }

  function Restrict(d: Dir, keep: set<string>): Dir {
    Dir(map k | k in d.files && k in keep :: d.files[k], map k | k in d.dirs && k in keep :: d.dirs[k])
  }

  lemma RestrictAt(d: Dir, keep: set<string>, k: string)
    ensures Restrict(d, keep).FileAt(k) == if k in keep then d.FileAt(k) else None
    ensures Restrict(d, keep).DirAt(k) == if k in keep then d.DirAt(k) else None
  {}

  ghost function Delivered(xxh: NameHash, n: Node, s: Dir): set<string> {
    set k | k in s.Names() && Reaches(xxh, n, k)
  }

  /** Merging commutes with flattening, for exactly the entries that reach a
      leaf: nothing else in the snapshot has any effect. */
  lemma MergeCommutesWithFlat(xxh: NameHash, n: Node, s: Dir)
    requires Placed(xxh, n)
    ensures Placed(xxh, MergeNode(xxh, n, s))
    ensures Flat(MergeNode(xxh, n, s)) == MergeDir(Flat(n), Restrict(s, Delivered(xxh, n, s)))
  {
    var n', s' := MergeNode(xxh, n, s), Restrict(s, Delivered(xxh, n, s));
    MergeNodePlaced(xxh, n, s);
    FlatDisjoint(xxh, n');
    forall k
      ensures Flat(n').At(k) == Winner(Flat(n), s', k)
    {
      FlatAt(xxh, n, k);
      FlatAt(xxh, n', k);
      MergeNodeAt(xxh, n, s, k);
      RestrictAt(s, Delivered(xxh, n, s), k);
    }
    MergeDirUnique(Flat(n), s', Flat(n'));
  }

  /** The sharded merge is the flat merge if and only if every entry whose
      bucket is missing on the way down would have lost anyway. */
  lemma MergeIsFlatMergeIff(xxh: NameHash, n: Node, s: Dir)
    requires Placed(xxh, n)
    ensures Flat(MergeNode(xxh, n, s)) == MergeDir(Flat(n), s)
            <==> forall k :: k in s.Names() && !Reaches(xxh, n, k) ==> Winner(Flat(n), s, k) == Flat(n).At(k)
  {
    var n' := MergeNode(xxh, n, s);
    MergeNodePlaced(xxh, n, s);
    MergeDirAt(Flat(n), s);
    FlatDisjoint(xxh, n');
    forall k
      ensures Flat(n').At(k) == MergeDir(Flat(n), s).At(k) <==>
              (k in s.Names() && !Reaches(xxh, n, k) ==> Winner(Flat(n), s, k) == Flat(n).At(k))
    {
      FlatAt(xxh, n, k);
      FlatAt(xxh, n', k);
      MergeNodeAt(xxh, n, s, k);
    }
    if forall k :: k in s.Names() && !Reaches(xxh, n, k) ==> Winner(Flat(n), s, k) == Flat(n).At(k) {
      SameEntriesSameDir(Flat(n'), MergeDir(Flat(n), s));
    }
  }

  /** Every node that is sharded has a shard for each of the 256 buckets. */
  ghost predicate AllBuckets(n: Node) {
    n.level.Some? ==> forall b :: 0 <= b < 256 ==> b in n.shards && AllBuckets(n.shards[b])
  }

  lemma {:induction false} AllBucketsReach(xxh: NameHash, n: Node, name: string)
    requires AllBuckets(n)
    ensures Reaches(xxh, n, name)
  {
    if n.level.Some? {
      var b := Bucket(xxh, name, n.level.value);
      assert b in n.shards;
      AllBucketsReach(xxh, n.shards[b], name);
    }
  }

  /** Into an unsharded directory, and into one whose buckets all have shards,
      the whole snapshot is merged. */
  lemma FullMerge(xxh: NameHash, n: Node, s: Dir)
    requires Placed(xxh, n) && AllBuckets(n)
    ensures Flat(MergeNode(xxh, n, s)) == MergeDir(Flat(n), s)
  {
    forall k | k in s.Names() { AllBucketsReach(xxh, n, k); }
    MergeIsFlatMergeIff(xxh, n, s);
  }

  /** A directory that has just been sharded takes up every entry whose name it
      already had, and what is merged under the names it had not is dropped
      unless it shares a bucket with one of them. */
  lemma MergeAfterShard(xxh: NameHash, n: Node, s: Dir, name: string)
    requires Placed(xxh, n) && n.level.None? && Shard(xxh, n).Sharded?
    ensures var n' := Shard(xxh, n).node;
            var known := exists k :: k in n.here.Names() && Bucket(xxh, k, n.link) == Bucket(xxh, name, n.link);
            Flat(MergeNode(xxh, n', s)).At(name) ==
            if known then MergeDir(n.here, s).At(name) else n.here.At(name)
  {
    var n' := Shard(xxh, n).node;
    var b := Bucket(xxh, name, n.link);
    ShardedNode(xxh, n);
    MergeNodePlaced(xxh, n', s);
    MergeNodeAt(xxh, n', s, name);
    FlatAt(xxh, MergeNode(xxh, n', s), name);
    MergeDirAt(n.here, s);
    assert b in n'.shards <==> exists k :: k in n.here.Names() && Bucket(xxh, k, n.link) == b;
    if b in n'.shards {
      assert Route(xxh, n', name) == Some(b) && Reaches(xxh, n'.shards[b], name);
    }
  }
}
