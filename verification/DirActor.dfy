/** The directory actor as an object: its maps and its shard actors are updated
    in place, and each method is proved against the layout functions. */
module DirActorObject {
  import opened Entries
  import opened Lww
  import opened ShardTree
  import opened Sharding
  import ShardMerge

  /** The outcome of `shard`; `FailedAt` names the shard that could not be opened. */
  datatype ShardResult = Done | Refused | FailedAt(bucket: nat)

  class DirActor {
    const xxh: NameHash
    /** Shard level of the parent link; 0 for a root or a plain child. */
    const link: nat
    var files: map<string, FileRef>
    var dirs: map<string, DirRef>
    var level: Option<nat>
    var shards: map<nat, DirActor>
    /** A shard listed in the header whose actor could not be opened. */
    var broken: Option<nat>
    ghost var repr: set<object>

    /** The shard actors are valid and share nothing with each other. */
    ghost predicate Valid()
      reads this, repr
      decreases repr
      ensures Valid() ==> this in repr
    {
      && this in repr
      && broken == None
      && (level.None? ==> shards == map[])
      && (forall b :: b in shards ==> Owns(b) && shards[b].Valid())
      && (forall b, c :: b in shards && c in shards && b != c ==> Apart(b, c))
    }

    ghost predicate Owns(b: nat)
      requires b in shards
      reads this, repr
    {
      b < 256 && shards[b] in repr && shards[b].repr <= repr - {this} && shards[b].xxh == xxh
    }

    ghost predicate Apart(b: nat, c: nat)
      requires b in shards && c in shards && shards[b] in repr && shards[c] in repr
      reads this, repr
    {
      shards[b].repr !! shards[c].repr
    }

    /** The layout this actor and its shards make up. */
    ghost function Layout(): Node
      requires Valid()
      reads this, repr
      decreases repr
    {
      Node(link, Dir(files, dirs), level, map b | b in shards :: shards[b].Layout())
    }

    lemma ShardLayout(b: nat)
      requires Valid() && b in shards
      ensures Owns(b) && shards[b].Valid() && b in Layout().shards && Layout().shards[b] == shards[b].Layout()
    {}

    lemma LayoutIs(m: map<nat, Node>)
      requires Valid() && m.Keys == shards.Keys && forall b :: b in shards ==> m[b] == shards[b].Layout()
      ensures Layout() == Node(link, Dir(files, dirs), level, m)
    {
      assert Layout().shards == m;
    }

    constructor (xxh: NameHash, link: nat, here: Dir)
      ensures Valid() && fresh(repr) && repr == {this}
      ensures this.xxh == xxh && Layout() == Node(link, here, None, map[])
    {
      this.xxh, this.link, this.files, this.dirs := xxh, link, here.files, here.dirs;
      level, shards, broken := None, map[], None;
      repr := {this};
    }

    /** A shard none of whose objects changed is what it was. */
    twostate lemma ShardUntouched(b: nat)
      requires old(Valid()) && b in old(shards)
      requires forall o :: o in old(shards[b].repr) ==> unchanged(o)
      ensures old(shards[b]).Valid() && old(shards[b]).repr == old(shards[b].repr)
      ensures old(shards[b]).Layout() == old(shards[b].Layout())
    {
      assert old(shards[b]) in old(shards[b].repr);
    }

    /** A call into one shard, which may have allocated shards of its own,
        leaves this actor and the other shards alone. */
    twostate lemma OneShardCalled(index: nat)
      requires old(Valid()) && index in shards
      requires unchanged(`files, `dirs, `level, `shards, `broken) && repr == old(repr) + shards[index].repr
      requires forall o :: o in old(repr) && o != this && o !in old(shards[index].repr) ==> unchanged(o)
      requires shards[index].Valid() && fresh(shards[index].repr - old(shards[index].repr))
      ensures Valid()
      ensures Layout() == old(Layout()).(shards := old(Layout()).shards[index := shards[index].Layout()])
    {
      forall b | b in shards && b != index
        ensures Owns(b) && shards[b].Valid() && shards[b].Layout() == old(shards[b].Layout())
        ensures shards[b].repr == old(shards[b].repr)
      {
        assert old(Owns(b) && Apart(b, index));
        ShardUntouched(b);
      }
      CalledShardApart(index);
      assert Valid();
      LayoutIs(old(Layout()).shards[index := shards[index].Layout()]);
    }

    twostate lemma CalledShardApart(index: nat)
      requires old(Valid()) && index in shards && shards == old(shards) && repr == old(repr) + shards[index].repr
      requires shards[index].Valid() && fresh(shards[index].repr - old(shards[index].repr))
      requires forall b :: b in shards && b != index ==> shards[b].repr == old(shards[b].repr)
      ensures Owns(index) && forall b :: b in shards ==> shards[b] in repr
      ensures forall b, c :: b in shards && c in shards && b != c ==> Apart(b, c)
    {
      assert old(Owns(index));
      forall b | b in shards
        ensures shards[b] in repr
      {
        assert old(Owns(b));
      }
      forall b, c | b in shards && c in shards && b != c
        ensures Apart(b, c)
      {
        assert old(Owns(b) && Owns(c) && Apart(b, c));
      }
    }

    /** A `FileOp` message: routed to the shard of its name, or run on the local
        slot, taking the value out and putting back what the task leaves. */
    method FileOp(name: string, task: Task) returns (seen: Option<FileRef>)
      requires Valid() && SlashFree(name)
      modifies repr
      ensures Valid() && repr == old(repr)
      ensures seen == Seen(xxh, old(Layout()), name)
      ensures Layout() == ShardTree.FileOp(xxh, old(Layout()), name, task)
      decreases repr
    {
      SlashFreeIsItsSegment(name);
      if level.Some? && Bucket(xxh, name, level.value) in shards {
        var index := Bucket(xxh, name, level.value);
        assert Owns(index);
        seen := shards[index].FileOp(name, task);
        OneShardCalled(index);
      } else {
        seen := FileOpHere(name, task);
      }
    }

    method FileOpHere(name: string, task: Task) returns (seen: Option<FileRef>)
      requires Valid() && SlashFree(name)
      modifies this`files
      ensures Valid() && repr == old(repr)
      ensures seen == FlatSeen(old(Layout()).here, name)
      ensures Layout() == old(Layout()).(here := FlatFileOp(old(Layout()).here, name, task))
    {
      SlashFreeIsItsSegment(name);
      if name in dirs {
        return None;
      }
      seen := Get(files, name);
      files := Put(files, name, task(seen));
      OnlyOwnFields();
    }

    /** Changing only this actor's own maps keeps every shard as it is. */
    twostate lemma OnlyOwnFields()
      requires old(Valid())
      requires shards == old(shards) && repr == old(repr) && broken == None
      requires level.None? ==> shards == map[]
      requires forall o :: o in old(repr) && o != this ==> unchanged(o)
      ensures Valid()
      ensures Layout() == Node(link, Dir(files, dirs), level, old(Layout()).shards)
    {
      forall b | b in shards
        ensures shards[b].Valid() && shards[b].Layout() == old(shards[b].Layout())
        ensures shards[b].repr == old(shards[b].repr)
      {
        assert old(Owns(b));
        ShardUntouched(b);
      }
      assert forall b, c :: b in shards && c in shards && b != c ==> old(Apart(b, c));
      assert Valid();
      LayoutIs(old(Layout()).shards);
    }

    /** `shard`: one new actor per non-empty bucket, and the local maps cleared.
        At the maximum level the first of them cannot be opened; the header is
        already changed then and the local maps are left as they are. */
    method Shard() returns (r: ShardResult)
      requires Valid()
      modifies this
      ensures Valid() <==> !r.FailedAt?
      ensures fresh(repr - old(repr))
      ensures var outcome := Sharding.Shard(xxh, old(Layout()));
              match r
              case Done => outcome == Sharding.Sharded(Layout())
              case Refused => outcome == Sharding.AlreadySharded && Layout() == old(Layout())
              case FailedAt(b) => outcome == Sharding.TooDeep(b) && broken == Some(b) && level == Some(link)
                                  && Dir(files, dirs) == old(Layout()).here
    {
      if level.Some? {
        return Refused;
      }
      var states := Distribute(xxh, files, dirs, link);
      level := Some(link);
      OnlyOwnFields();
      r := OpenShards(states);
      ShardLeaves(xxh, link, old(Dir(files, dirs)), states);
      if r == Done {
        label allOpen:
        files, dirs := map[], map[];
        OnlyOwnFields@allOpen();
      }
    }

    /** The second loop of `shard`: list a shard and open its actor for every
        non-empty state. */
    method OpenShards(states: seq<Dir>) returns (r: ShardResult)
      requires Valid() && level == Some(link) && shards == map[] && |states| == 256
      modifies this
      ensures fresh(repr - old(repr))
      ensures level == old(level) && files == old(files) && dirs == old(dirs)
      ensures match FirstFilled(states, 0)
              case Some(b) =>
                if link >= MAX_SHARD_LEVEL then r == FailedAt(b) && broken == Some(b)
                else r == Done && Valid() && Layout() == old(Layout()).(shards := Leaves(link, states))
              case None => r == Done && Valid() && Layout() == old(Layout())
    {
      r := Done;
      assert Leaves(link, states[..0]) == map[];
      for i := 0 to 256
        invariant r == Done && Valid() && fresh(repr - old(repr))
        invariant level == old(level) && files == old(files) && dirs == old(dirs)
        invariant Layout() == old(Layout()).(shards := Leaves(link, states[..i]))
        invariant link >= MAX_SHARD_LEVEL ==> FirstFilled(states, 0) == FirstFilled(states, i)
      {
        LeavesStep(link, states, i);
        if states[i] != EMPTY_DIR {
          if link + 1 > MAX_SHARD_LEVEL {
            broken := Some(i);
            return FailedAt(i);
          }
          OpenShard(i, states[i]);
        }
      }
      LeavesAll(link, states);
    }

    /** Opens the actor of a shard and lists it. */
    method OpenShard(i: nat, state: Dir)
      requires Valid() && level.Some? && i < 256 && i !in shards
      modifies this
      ensures Valid() && fresh(repr - old(repr))
      ensures level == old(level) && files == old(files) && dirs == old(dirs) && shards.Keys == old(shards.Keys) + {i}
      ensures Layout() == old(Layout()).(shards := old(Layout()).shards[i := Leaf(link, state)])
    {
      ghost var before := Layout();
      var shard := new DirActor(xxh, link + 1, state);
      assert Valid() && Layout() == before;
      AddShard(i, shard);
    }

    method AddShard(i: nat, shard: DirActor)
      requires Valid() && level.Some? && i < 256 && i !in shards
      requires shard.Valid() && shard.repr == {shard} && shard.xxh == xxh && shard !in repr
      modifies this
      ensures Valid() && repr == old(repr) + {shard}
      ensures level == old(level) && files == old(files) && dirs == old(dirs) && shards.Keys == old(shards.Keys) + {i}
      ensures Layout() == old(Layout()).(shards := old(Layout()).shards[i := old(shard.Layout())])
    {
      shards := shards[i := shard];
      repr := repr + {shard};
      assert shard.Valid() && shard.Layout() == old(shard.Layout());
      ShardAdded(i);
      LayoutIs(old(Layout()).shards[i := shard.Layout()]);
    }

    twostate lemma ShardAdded(i: nat)
      requires old(Valid()) && level.Some? && i < 256 && i in shards && i !in old(shards)
      requires unchanged(`files, `dirs, `level, `broken) && shards == old(shards)[i := shards[i]]
      requires repr == old(repr) + {shards[i]} && shards[i] !in old(repr)
      requires shards[i].Valid() && shards[i].repr == {shards[i]} && shards[i].xxh == xxh
      requires forall o :: o in old(repr) && o != this ==> unchanged(o)
      ensures Valid()
      ensures forall b :: b in old(shards) ==> shards[b].Layout() == old(shards[b].Layout())
    {
      forall b | b in old(shards)
        ensures Owns(b) && shards[b].Valid() && shards[b].Layout() == old(shards[b].Layout())
      {
        assert old(Owns(b));
        ShardUntouched(b);
      }
      NewShardApart(i);
    }

    /** The new shard `i` shares nothing with the old ones. */
    twostate lemma NewShardApart(i: nat)
      requires old(Valid()) && i in shards && i !in old(shards) && shards == old(shards)[i := shards[i]]
      requires repr == old(repr) + {shards[i]}
      requires shards[i].repr == {shards[i]} && shards[i] !in old(repr)
      requires forall o :: o in old(repr) && o != this ==> unchanged(o)
      ensures forall b :: b in shards ==> shards[b] in repr
      ensures forall b, c :: b in shards && c in shards && b != c ==> Apart(b, c)
    {
      forall b | b in old(shards)
        ensures shards[b].repr == old(shards[b].repr) && shards[b].repr <= old(repr) && shards[b] in repr
      {
        assert old(Owns(b));
        ShardUntouched(b);
      }
      forall b, c | b in shards && c in shards && b != c
        ensures Apart(b, c)
      {
        assert b != i && c != i ==> old(Apart(b, c));
      }
    }

    /** `shard` on the actor reached through the shards `at`. */
    method ShardAt(at: seq<nat>) returns (ok: bool)
      requires Valid()
      modifies repr
      ensures ok <==> Shardable(xxh, old(Layout()), at)
      ensures ok ==> Valid() && fresh(repr - old(repr)) && Layout() == Sharding.ShardAt(xxh, old(Layout()), at)
      decreases at, 1
    {
      ok := true;
      if at == [] {
        var r := Shard();
        ok := !r.FailedAt?;
      } else if at[0] in shards {
        ShardLayout(at[0]);
        ok := ShardBelow(at[0], at[1..]);
      }
    }

    method ShardBelow(index: nat, at: seq<nat>) returns (ok: bool)
      requires Valid() && index in shards
      modifies repr
      ensures ok <==> Shardable(xxh, old(shards[index].Layout()), at)
      ensures ok ==> Valid() && fresh(repr - old(repr))
      ensures ok ==>
                Layout() == old(Layout()).(shards := old(Layout()).shards[
                                index := Sharding.ShardAt(xxh, old(shards[index].Layout()), at)])
      decreases at, 2
    {
      assert Owns(index);
      var shard := shards[index];
      ok := shard.ShardAt(at);
      if ok {
        ghost var child := shard.Layout();
        repr := repr + shard.repr;
        assert shard.Valid() && shard.Layout() == child;
        OneShardCalled(index);
      }
    }

    /** `export_merged_snapshot`. */
    method ExportMergedSnapshot() returns (merged: Dir)
      requires Valid()
      ensures merged == Flat(Layout())
      decreases repr, 1
    {
      merged := Dir(files, dirs);
      ghost var n := Layout();
      for i := 0 to 256
        invariant Valid() && Layout() == n && merged == FlatUpTo(n, i)
      {
        if i in shards {
          var shard := ExportShard(i);
          merged := Overlay(merged, shard);
        }
      }
    }

    method ExportShard(i: nat) returns (merged: Dir)
      requires Valid() && i in shards
      ensures i in Layout().shards && merged == Flat(Layout().shards[i])
      decreases repr, 0
    {
      ShardLayout(i);
      merged := shards[i].ExportMergedSnapshot();
    }

    /** `merge_snapshot`. */
    method MergeSnapshot(snapshot: Dir)
      requires Valid() && NoClash(Layout())
      modifies repr
      ensures Valid() && repr == old(repr)
      ensures Layout() == ShardMerge.MergeNode(xxh, old(Layout()), snapshot)
      decreases repr, 2
    {
      if level.None? {
        var merged, _ := MergeEntriesLocal(Dir(files, dirs), {}, snapshot);
        files, dirs := merged.files, merged.dirs;
        OnlyOwnFields();
      } else {
        MergeIntoShards(snapshot);
      }
    }

    /** `merge_snapshot_into_shards`. */
    method MergeIntoShards(snapshot: Dir)
      requires Valid() && NoClash(Layout()) && level.Some?
      modifies repr
      ensures Valid() && repr == old(repr)
      ensures Layout() == ShardMerge.MergeNode(xxh, old(Layout()), snapshot)
      decreases repr, 1
    {
      ghost var start := Layout();
      ghost var goal := ShardMerge.MergeNode(xxh, start, snapshot);
      ShardsBelow256();
      for i := 0 to 256
        invariant Valid() && repr == old(repr)
        invariant Layout() == Between(start, goal, i)
      {
        BetweenStep(start, goal, i);
        if i in shards {
          assert Layout().shards[i] == start.shards[i];
          MergeOneBucket(snapshot, i);
        } else {
          assert i !in Layout().shards;
        }
      }
      BetweenAll(start, goal);
    }

    lemma ShardsBelow256()
      requires Valid()
      ensures forall b :: b in Layout().shards ==> b < 256
    {
      forall b | b in shards
        ensures b < 256
      {
        assert Owns(b);
      }
    }

    method MergeOneBucket(snapshot: Dir, i: nat)
      requires Valid() && level.Some? && i in shards && NoClash(shards[i].Layout())
      modifies repr
      ensures Valid() && repr == old(repr)
      ensures var part := Part(xxh, snapshot, old(level).value, i);
              var merged := ShardMerge.MergeShard(xxh, old(shards[i].Layout()), part);
              Layout() == old(Layout()).(shards := old(Layout()).shards[i := merged])
      decreases repr, 0
    {
      assert Owns(i);
      var part := Part(xxh, snapshot, level.value, i);
      if part != EMPTY_DIR {
        shards[i].MergeSnapshot(part);
        OneShardCalled(i);
      } else {
        assert Layout().shards[i] == shards[i].Layout();
      }
    }
  }

  /** The entries of a directory split into 256 buckets. */
  method Distribute(xxh: NameHash, files: map<string, FileRef>, dirs: map<string, DirRef>, level: nat)
    returns (states: seq<Dir>)
    ensures |states| == 256
    ensures forall b :: 0 <= b < 256 ==> states[b] == Part(xxh, Dir(files, dirs), level, b)
  {
    states := DistributeDirs(xxh, dirs, level);
    var todo := files.Keys;
    assert files - todo == map[];
    while todo != {}
      invariant todo <= files.Keys && |states| == 256
      invariant forall b :: 0 <= b < 256 ==> states[b] == Part(xxh, Dir(files - todo, dirs), level, b)
      decreases todo
    {
      var name :| name in todo;
      assert files - (todo - {name}) - {name} == files - todo;
      todo := todo - {name};
      AddFileToPart(xxh, Dir(files - todo, dirs), name, level);
      var index := Bucket(xxh, name, level);
      states := states[index := states[index].(files := states[index].files[name := files[name]])];
    }
    assert files - {} == files;
  }

  method DistributeDirs(xxh: NameHash, dirs: map<string, DirRef>, level: nat) returns (states: seq<Dir>)
    ensures |states| == 256
    ensures forall b :: 0 <= b < 256 ==> states[b] == Part(xxh, Dir(map[], dirs), level, b)
  {
    states := seq(256, _ => EMPTY_DIR);
    var todo := dirs.Keys;
    assert dirs - todo == map[];
    while todo != {}
      invariant todo <= dirs.Keys && |states| == 256
      invariant forall b :: 0 <= b < 256 ==> states[b] == Part(xxh, Dir(map[], dirs - todo), level, b)
      decreases todo
    {
      var name :| name in todo;
      assert dirs - (todo - {name}) - {name} == dirs - todo;
      todo := todo - {name};
      AddDirToPart(xxh, Dir(map[], dirs - todo), name, level);
      var index := Bucket(xxh, name, level);
      states := states[index := states[index].(dirs := states[index].dirs[name := dirs[name]])];
    }
    assert dirs - {} == dirs;
  }

  lemma AddDirToPart(xxh: NameHash, d: Dir, name: string, level: nat)
    requires name in d.dirs
    ensures forall b :: Part(xxh, d, level, b) ==
                        var rest := Part(xxh, d.(dirs := d.dirs - {name}), level, b);
                        if b == Bucket(xxh, name, level) then rest.(dirs := rest.dirs[name := d.dirs[name]]) else rest
  {}

  lemma AddFileToPart(xxh: NameHash, d: Dir, name: string, level: nat)
    requires name in d.files
    ensures forall b :: Part(xxh, d, level, b) ==
                        var rest := Part(xxh, d.(files := d.files - {name}), level, b);
                        if b != Bucket(xxh, name, level) then rest
                        else rest.(files := rest.files[name := d.files[name]])
  {}

  /** A bucket is used exactly when its part of the directory is not empty. */
  lemma UsedBucketsArePartsKept(xxh: NameHash, d: Dir, level: nat)
    ensures forall b :: b in UsedBuckets(xxh, d, level) <==>
                        0 <= b < 256 && Part(xxh, d, level, b) != EMPTY_DIR
  {
    forall b | 0 <= b < 256 && Part(xxh, d, level, b) != EMPTY_DIR
      ensures b in UsedBuckets(xxh, d, level)
    {
      var part := Part(xxh, d, level, b);
      assert part.files != map[] || part.dirs != map[];
      var k :| k in part.files || k in part.dirs;
      assert k in d.Names();
    }
  }

  /** The shards of the non-empty states, by index. */
  ghost function Leaves(link: nat, states: seq<Dir>): map<nat, Node> {
    map b: nat | b < |states| && states[b] != EMPTY_DIR :: Leaf(link, states[b])
  }

  /** The first non-empty state from index `i` on. */
  ghost function FirstFilled(states: seq<Dir>, i: nat): Option<nat>
    decreases |states| - i
  {
    if i >= |states| then None else if states[i] != EMPTY_DIR then Some(i) else FirstFilled(states, i + 1)
  }

  lemma LeavesAll(link: nat, states: seq<Dir>)
    ensures Leaves(link, states[..|states|]) == Leaves(link, states)
    ensures FirstFilled(states, 0).None? ==> Leaves(link, states) == map[]
  {
    assert states[..|states|] == states;
    FilledBeyond(states, 0);
  }

  lemma {:induction false} FilledBeyond(states: seq<Dir>, i: nat)
    ensures match FirstFilled(states, i)
            case Some(b) =>
              i <= b < |states| && states[b] != EMPTY_DIR && forall c :: i <= c < b ==> states[c] == EMPTY_DIR
            case None => forall c :: i <= c < |states| ==> states[c] == EMPTY_DIR
    decreases |states| - i
  {
    if i < |states| && states[i] == EMPTY_DIR {
      FilledBeyond(states, i + 1);
    }
  }

  lemma LeavesStep(link: nat, states: seq<Dir>, i: nat)
    requires i < |states|
    ensures i !in Leaves(link, states[..i])
    ensures Leaves(link, states[..i + 1]) ==
            if states[i] == EMPTY_DIR then Leaves(link, states[..i])
            else Leaves(link, states[..i])[i := Leaf(link, states[i])]
  {}

  /** The used buckets are those with a non-empty state. */
  lemma FilledBuckets(xxh: NameHash, link: nat, here: Dir, states: seq<Dir>)
    requires |states| == 256
    requires forall b :: 0 <= b < 256 ==> states[b] == Part(xxh, here, link, b)
    ensures forall b :: b in UsedBuckets(xxh, here, link) <==> 0 <= b < 256 && states[b] != EMPTY_DIR
    ensures match FirstFilled(states, 0)
            case Some(first) => UsedBuckets(xxh, here, link) != {} && FirstUsed(xxh, here, link) == first
            case None => UsedBuckets(xxh, here, link) == {} && here == EMPTY_DIR && Leaves(link, states) == map[]
  {
    UsedBucketsArePartsKept(xxh, here, link);
    FilledBeyond(states, 0);
    match FirstFilled(states, 0) {
      case Some(first) => assert first in UsedBuckets(xxh, here, link);
      case None =>
        assert UsedBuckets(xxh, here, link) == {};
        NoUsedBuckets(xxh, here, link);
    }
  }

  /** What opening the shards means for `shard` as a whole. */
  lemma ShardLeaves(xxh: NameHash, link: nat, here: Dir, states: seq<Dir>)
    requires |states| == 256
    requires forall b :: 0 <= b < 256 ==> states[b] == Part(xxh, here, link, b)
    ensures Sharding.Shard(xxh, Node(link, here, None, map[])) ==
            var first := FirstFilled(states, 0);
            if first.Some? && link >= MAX_SHARD_LEVEL then TooDeep(first.value)
            else Sharded(Node(link, EMPTY_DIR, Some(link), Leaves(link, states)))
    ensures FirstFilled(states, 0).None? ==> Leaves(link, states) == map[] && here == EMPTY_DIR
  {
    var used := UsedBuckets(xxh, here, link);
    FilledBuckets(xxh, link, here, states);
    LeavesByUsed(link, used, states);
    assert (map b | b in used :: Leaf(link, Part(xxh, here, link, b))) == (map b | b in used :: Leaf(link, states[b]));
  }

  lemma LeavesByUsed(link: nat, used: set<nat>, states: seq<Dir>)
    requires forall b :: b in used <==> 0 <= b < |states| && states[b] != EMPTY_DIR
    ensures (map b | b in used :: Leaf(link, states[b])) == Leaves(link, states)
  {}

  lemma NoUsedBuckets(xxh: NameHash, d: Dir, level: nat)
    requires UsedBuckets(xxh, d, level) == {}
    ensures d == EMPTY_DIR
  {
    forall k
      ensures k !in d.Names()
    {
      assert k in d.Names() ==> Bucket(xxh, k, level) in UsedBuckets(xxh, d, level);
    }
  }

  /** No name of the subtree is both a file and a directory of one actor. */
  ghost predicate NoClash(n: Node) {
    n.here.Disjoint() && forall b :: b in n.shards ==> NoClash(n.shards[b])
  }

  /** `goal`'s shards below bucket `i`, `start`'s from there on. */
  ghost function Between(start: Node, goal: Node, i: nat): Node
    requires goal.shards.Keys == start.shards.Keys
  {
    start.(shards := map b | b in start.shards :: if b < i then goal.shards[b] else start.shards[b])
  }

  lemma BetweenAll(start: Node, goal: Node)
    requires goal.shards.Keys == start.shards.Keys && goal == start.(shards := goal.shards)
    requires forall b :: b in start.shards ==> b < 256
    ensures Between(start, goal, 256) == goal
  {
    assert Between(start, goal, 256).shards == goal.shards;
  }

  lemma BetweenStep(start: Node, goal: Node, i: nat)
    requires goal.shards.Keys == start.shards.Keys
    ensures Between(start, goal, 0) == start
    ensures i !in start.shards ==> Between(start, goal, i + 1) == Between(start, goal, i)
    ensures i in start.shards ==>
              var before := Between(start, goal, i);
              && before.shards[i] == start.shards[i]
              && Between(start, goal, i + 1) == before.(shards := before.shards[i := goal.shards[i]])
  {}
}
