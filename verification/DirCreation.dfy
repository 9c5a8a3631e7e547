/** What creating a directory means for the whole tree, and exactly when doing
    it again does nothing. */
module DirCreation {
  import opened Entries
  import opened DirStates
  import opened Actors
  import opened SaveProtocol
  import opened SaveWalk
  import opened SaveRuns
  import opened Delivery

  /** `CreateDir` on a tree: followed down the child directories its segments
      name, where a path that runs out goes on as one empty segment. */
  function TreeCreate(t: Tree, path: Path): Tree {
    if First(path) in t.dirs then
      t.(dirs := t.dirs[First(path) := TreeCreate(t.dirs[First(path)], Rest(path))])
    else if path in t.dirs then t
    else Tree(Without(t.files, path), t.dirs[path := Tree(Extract(t.files, path), map[])])
  }

  lemma {:induction false} TreeCreateIsOp(t: Tree, path: Path, promoted: State)
    ensures TreeOp(t, path, CreateDir, promoted) == TreeCreate(t, path)
  {
    if First(path) in t.dirs {
      TreeCreateIsOp(t.dirs[First(path)], Rest(path), promoted);
    }
  }

  /** What is left of the path in the directory that serves the operation. */
  function Remainder(t: Tree, path: Path): Path {
    if First(path) in t.dirs then Remainder(t.dirs[First(path)], Rest(path)) else path
  }

  /** The directory that serves the operation already has a child so named. */
  predicate Lands(t: Tree, path: Path) {
    if First(path) in t.dirs then Lands(t.dirs[First(path)], Rest(path)) else path in t.dirs
  }

  lemma {:induction false} CreateLeavesAloneIff(t: Tree, path: Path)
    ensures TreeCreate(t, path) == t <==> Lands(t, path)
  {
    if First(path) in t.dirs {
      CreateLeavesAloneIff(t.dirs[First(path)], Rest(path));
      var t' := TreeCreate(t, path);
      if TreeCreate(t.dirs[First(path)], Rest(path)) == t.dirs[First(path)] {
        assert t'.dirs == t.dirs;
      } else {
        assert t'.dirs[First(path)] != t.dirs[First(path)];
      }
    } else if path !in t.dirs {
      assert path in TreeCreate(t, path).dirs;
    }
  }

  /** A slash-free name is never found existing: it is followed into the child
      of that name, as the empty segment, and so on down. */
  lemma {:induction false} OneSegmentNeverLands(t: Tree, path: Path)
    requires |path| == 1
    ensures !Lands(t, path) && |Remainder(t, path)| == 1
  {
    assert First(path) == path;
    if First(path) in t.dirs {
      OneSegmentNeverLands(t.dirs[First(path)], Rest(path));
    }
  }

  /** Creating a directory again leaves the tree alone if and only if the name
      that was left for the serving directory contains a slash. */
  lemma {:induction false} CreateAgainIff(t: Tree, path: Path)
    ensures var t' := TreeCreate(t, path); TreeCreate(t', path) == t' <==> |Remainder(t, path)| > 1
  {
    var t' := TreeCreate(t, path);
    CreateLeavesAloneIff(t', path);
    LandsAfterCreate(t, path);
  }

  lemma {:induction false} LandsAfterCreate(t: Tree, path: Path)
    ensures Lands(TreeCreate(t, path), path) <==> |Remainder(t, path)| > 1
  {
    var t' := TreeCreate(t, path);
    if First(path) in t.dirs {
      LandsAfterCreate(t.dirs[First(path)], Rest(path));
    } else if |path| == 1 {
      OneSegmentNeverLands(t', path);
    } else {
      assert First(path) != path;
    }
  }

  /** Creating a slash-free directory twice: the second time makes a directory
      with the empty name in the first. */
  lemma SecondCreateMakesEmptyName(t: Tree, name: Path)
    requires |name| == 1 && name !in t.dirs
    ensures var once := TreeCreate(t, name); var twice := TreeCreate(once, name);
            && name in once.dirs && once.dirs[name].dirs == map[]
            && name in twice.dirs && twice.dirs[name].dirs.Keys == {[""]}
  {
    assert First(name) == name && First([""]) == [""];
  }

  /** A client's request to create a directory, in a tree with nothing
      undelivered: it can be served, and then it leaves the tree in memory
      alone if and only if it landed on an existing name, which no slash-free
      name does. */
  lemma CreateRequestIff(y: System, path: Path, c: Choice) returns (es: seq<Event>)
    requires IdleInv(y.root, y.store, y.disk) && Settled(y.root)
    ensures var t := Memory(y.root); var t' := Memory(Run(Next(y, Client(path, CreateDir)), es).root);
            && t' == TreeCreate(t, path)
            && (t' == t <==> Lands(t, path))
            && (|path| == 1 ==> t' != t)
  {
    es := RequestIsServed(y, path, CreateDir, c);
    TreeCreateIsOp(Memory(y.root), path, c.promoted);
    CreateLeavesAloneIff(Memory(y.root), path);
    if |path| == 1 {
      OneSegmentNeverLands(Memory(y.root), path);
    }
  }
}
