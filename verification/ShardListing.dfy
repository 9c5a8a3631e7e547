/** Paging over a sharded directory: a page lists the merged snapshot, so what a
    caller sees does not depend on the layout, even if it changes between pages. */
module ShardListing {
  import opened Entries
  import opened Listing
  import opened ShardTree
  import opened Sharding
  import DirActorObject

  /** The entry is in the flat view. */
  predicate InDir(d: Dir, e: Item) {
    if e.kind.Directory? then e.name in d.dirs else e.name in d.files
  }

  /** `s` holds the names of `d` in key order. */
  ghost predicate Shows(s: Snapshot, d: Dir) {
    s.Valid() && forall e :: s.Has(e) <==> InDir(d, e)
  }

  /** A name inserted into an ordered map's keys. */
  method InsertName(names: seq<string>, name: string) returns (more: seq<string>)
    requires SortedNames(names) && name !in names
    ensures SortedNames(more) && forall x :: x in more <==> x == name || x in names
  {
    var i := 0;
    while i < |names| && Less(names[i], name)
      invariant 0 <= i <= |names| && forall k :: 0 <= k < i ==> Less(names[k], name)
    {
      i := i + 1;
    }
    more := names[..i] + [name] + names[i..];
    forall k | i <= k < |names|
      ensures Less(name, names[k])
    {
      LessTotal(name, names[i]);
      assert names[i] in names;
      if k > i {
        LessTrans(name, names[i], names[k]);
      }
    }
    InsertedHas(names, i, name, more);
  }

  lemma InsertedHas(names: seq<string>, i: nat, name: string, more: seq<string>)
    requires i <= |names| && more == names[..i] + [name] + names[i..]
    ensures forall x :: x in more <==> x == name || x in names
  {
    assert names == names[..i] + names[i..];
  }

  /** The keys of a map, collected in order. */
  method SortKeys(keys: set<string>) returns (names: seq<string>)
    ensures SortedNames(names) && forall x :: x in names <==> x in keys
  {
    names := [];
    var todo := keys;
    while todo != {}
      invariant todo <= keys && SortedNames(names) && forall x :: x in names <==> x in keys - todo
      decreases todo
    {
      var name :| name in todo;
      todo := todo - {name};
      names := InsertName(names, name);
    }
  }

  /** `list_entries` of a directory actor: a page of its merged snapshot. */
  method ListActor(actor: DirActorObject.DirActor, cursor: Cursor, limit: nat)
    returns (out: seq<Item>, next: Cursor, ghost s: Snapshot)
    requires actor.Valid()
    ensures Shows(s, Flat(actor.Layout())) && IsPage(s, cursor, limit, out)
    ensures next == if out == [] then None else Some(out[|out| - 1])
  {
    var merged := actor.ExportMergedSnapshot();
    var dirs := SortKeys(merged.dirs.Keys);
    var files := SortKeys(merged.files.Keys);
    s := Snapshot(dirs, files);
    out, next := ListEntries(Snapshot(dirs, files), cursor, limit);
  }

  /** The layouts a directory goes through, and the requests in between. */
  ghost predicate Evolves(xxh: NameHash, nodes: seq<Node>, between: seq<seq<Request>>) {
    && |nodes| == |between| + 1 && Placed(xxh, nodes[0])
    && forall i :: 0 <= i < |between| ==>
         AllAllowed(xxh, nodes[i], between[i]) && nodes[i + 1] == Run(xxh, nodes[i], between[i])
  }

  /** Each page was taken of the merged snapshot of the layout of its time. */
  ghost predicate Paged(visits: seq<Visit>, nodes: seq<Node>) {
    && |visits| == |nodes| && Paging(visits, None)
    && forall i :: 0 <= i < |visits| ==> Shows(visits[i].snapshot, Flat(nodes[i]))
  }

  /** The plain map a directory is, page by page. */
  function Plain(d: Dir, between: seq<seq<Request>>): Dir {
    if between == [] then d
    else FlatRun(Plain(d, between[..|between| - 1]), between[|between| - 1])
  }

  lemma {:induction false} EvolvesPlainly(xxh: NameHash, nodes: seq<Node>, between: seq<seq<Request>>, i: nat)
    requires Evolves(xxh, nodes, between) && i < |nodes|
    ensures Placed(xxh, nodes[i]) && Flat(nodes[i]) == Plain(Flat(nodes[0]), between[..i])
  {
    if i > 0 {
      EvolvesPlainly(xxh, nodes, between, i - 1);
      ShardingIsInvisible(xxh, nodes[i - 1], between[i - 1]);
      assert between[..i][..i - 1] == between[..i - 1];
    }
  }

  lemma {:induction false} ShardsOnly(d: Dir, rs: seq<Request>)
    requires forall i :: 0 <= i < |rs| ==> rs[i].DoShard?
    ensures FlatRun(d, rs) == d
    decreases rs
  {
    if rs != [] {
      ShardsOnly(d, rs[1..]);
    }
  }

  lemma {:induction false} PlainUnderSharding(d: Dir, between: seq<seq<Request>>)
    requires forall i, j :: 0 <= i < |between| && 0 <= j < |between[i]| ==> between[i][j].DoShard?
    ensures Plain(d, between) == d
  {
    if between != [] {
      PlainUnderSharding(d, between[..|between| - 1]);
      ShardsOnly(d, between[|between| - 1]);
    }
  }

  /** While names are put, deleted and sharded between the pages, paging to the
      empty page lists in order, and exactly once, every entry that the plain map
      given the same operations holds throughout. */
  lemma PagingSeesThePlainMap(xxh: NameHash, nodes: seq<Node>, between: seq<seq<Request>>, visits: seq<Visit>)
    requires Evolves(xxh, nodes, between) && Paged(visits, nodes)
    ensures Increasing(Listed(visits))
    ensures forall e :: (forall i :: 0 <= i < |nodes| ==> InDir(Plain(Flat(nodes[0]), between[..i]), e)) ==>
              e in Listed(visits)
  {
    PagingIsReliable(visits);
    forall e | forall i :: 0 <= i < |nodes| ==> InDir(Plain(Flat(nodes[0]), between[..i]), e)
      ensures e in Listed(visits)
    {
      forall v | v in visits
        ensures v.snapshot.Has(e)
      {
        var i :| 0 <= i < |visits| && visits[i] == v;
        EvolvesPlainly(xxh, nodes, between, i);
        assert InDir(Plain(Flat(nodes[0]), between[..i]), e);
      }
    }
  }

  /** If the directory is only sharded between the pages, they list exactly what
      it holds. */
  lemma ShardingDoesNotDisturbPaging(xxh: NameHash, nodes: seq<Node>, between: seq<seq<Request>>, visits: seq<Visit>)
    requires Evolves(xxh, nodes, between) && Paged(visits, nodes)
    requires forall i, j :: 0 <= i < |between| && 0 <= j < |between[i]| ==> between[i][j].DoShard?
    ensures Increasing(Listed(visits)) && forall e :: e in Listed(visits) <==> InDir(Flat(nodes[0]), e)
  {
    forall i | 0 <= i < |visits|
      ensures Flat(nodes[i]) == Flat(nodes[0])
    {
      EvolvesPlainly(xxh, nodes, between, i);
      PlainUnderSharding(Flat(nodes[0]), between[..i]);
    }
    forall e, v | v in visits
      ensures v.snapshot.Has(e) <==> InDir(Flat(nodes[0]), e)
    {
      var i :| 0 <= i < |visits| && visits[i] == v;
    }
    PagingIsReliable(visits);
    ListedIsSeen(visits, None, Flat(nodes[0]));
  }

  lemma {:induction false} ListedIsSeen(visits: seq<Visit>, cursor: Cursor, d: Dir)
    requires Paging(visits, cursor) && forall e, v :: v in visits && v.snapshot.Has(e) ==> InDir(d, e)
    ensures forall e :: e in Listed(visits) ==> InDir(d, e)
    decreases visits
  {
    assert visits[0] in visits;
    if |visits| > 1 {
      ListedIsSeen(visits[1..], NextCursor(cursor, visits[0].page), d);
    } else {
      assert Listed(visits[1..]) == [];
    }
  }
}
