/** Promoting path prefixes into child directories: `create_dir_at`,
    `promote_prefix` and the recursive `optimize_dir_structure`. */
module Promotion {
  import opened Entries
  import opened DirStates

  const PROMOTION_THRESHOLD: nat := 10

  /** The files under `prefix/`. */
  function Group(files: map<Path, FileRef>, prefix: Path): set<Path> {
    set k | k in files && Below(prefix, k)
  }

  /** `name` is a first segment shared by more than the threshold of files. */
  predicate IsBig(files: map<Path, FileRef>, name: Path) {
    |name| == 1 && |Group(files, name)| > PROMOTION_THRESHOLD
  }

  /** A first segment is big when eleven files or more lie below it. */
  lemma IsBigIff(files: map<Path, FileRef>, name: Path)
    requires |name| == 1
    ensures IsBig(files, name) <==> |(set k | k in files && |k| > 1 && k[0] == name[0])| >= 11
  {
    assert forall k: Path :: |k| > 1 && k[0] == name[0] <==> Below(name, k);
    assert (set k | k in files && |k| > 1 && k[0] == name[0]) == Group(files, name);
  }

  function Kept(files: map<Path, FileRef>): map<Path, FileRef> {
    map k | k in files && !(|k| > 1 && IsBig(files, First(k))) :: files[k]
  }

  /** What `optimize_dir_structure` makes of a directory of files: exactly the
      big first segments become children, holding the files below them,
      optimized in turn. */
  ghost predicate Optimized(files: map<Path, FileRef>, s: State)
    decreases s
  {
    && s.files == Kept(files)
    && (forall n :: n in s.dirs <==> IsBig(files, n))
    && (forall n :: n in s.dirs ==> s.dirs[n].Of? && Optimized(Extract(files, n), s.dirs[n].content))
  }

  /** There is only one such state, so no iteration order can matter. */
  lemma {:induction false} OptimizedUnique(files: map<Path, FileRef>, s: State, t: State)
    requires Optimized(files, s) && Optimized(files, t)
    ensures s == t
    decreases s
  {
    forall n
      ensures Get(s.dirs, n) == Get(t.dirs, n)
    {
      assert n in s.dirs <==> IsBig(files, n);
      if n in s.dirs {
        OptimizedUnique(Extract(files, n), s.dirs[n].content, t.dirs[n].content);
      }
    }
    SameGetsSameMap(s.dirs, t.dirs);
  }

  // ---------------------------------------------------------- lookups kept

  /** The key a lookup of `path` ends at: the path itself, unless the path runs
      out at a child directory, where an empty segment is looked up instead. */
  function Target(s: State, path: Path): Path {
    if First(path) in s.dirs then
      match s.dirs[First(path)]
      case Zero => path
      case Of(c) => First(path) + Target(c, Rest(path))
    else path
  }

  /** `path` names a directory below `s`. */
  predicate IsDir(s: State, path: Path) {
    && First(path) in s.dirs
    && (|path| == 1 || (s.dirs[First(path)].Of? && IsDir(s.dirs[First(path)].content, path[1..])))
  }

  lemma {:induction false} TargetOfNonDir(s: State, path: Path)
    requires !IsDir(s, path)
    ensures Target(s, path) == path
  {
    if First(path) in s.dirs && s.dirs[First(path)].Of? {
      TargetOfNonDir(s.dirs[First(path)].content, path[1..]);
      assert First(path) + path[1..] == path;
    }
  }

  /** Every lookup in the optimized tree is a lookup of its target among the
      original files. */
  lemma {:induction false} OptimizedLookup(files: map<Path, FileRef>, s: State, path: Path)
    requires Optimized(files, s)
    ensures Lookup(s, path) == Get(files, Target(s, path))
    decreases s
  {
    var name := First(path);
    if name in s.dirs {
      var c := s.dirs[name].content;
      OptimizedLookup(Extract(files, name), c, Rest(path));
      ExtractGet(files, name, Target(c, Rest(path)));
    }
  }

  /** Hence every path keeps its file unless it is exactly a promoted prefix. */
  lemma OptimizedKeepsLookups(files: map<Path, FileRef>, s: State, path: Path)
    requires Optimized(files, s) && !IsDir(s, path)
    ensures Lookup(s, path) == Get(files, path)
  {
    OptimizedLookup(files, s, path);
    TargetOfNonDir(s, path);
  }

  // ------------------------------------------- nothing lost, nothing doubled

  /** Every file of the tree whose position spells out `key`. */
  function Stored(s: State, key: Path): seq<FileRef> {
    (if key in s.files then [s.files[key]] else []) +
    (if |key| > 1 && First(key) in s.dirs && s.dirs[First(key)].Of?
     then Stored(s.dirs[First(key)].content, key[1..]) else [])
  }

  /** Each original file is stored exactly once, under its own path, and the
      tree holds nothing else: the file count is conserved. */
  lemma {:induction false} OptimizedConserves(files: map<Path, FileRef>, s: State, key: Path)
    requires Optimized(files, s)
    ensures Stored(s, key) == if key in files then [files[key]] else []
    ensures forall n :: n in s.dirs ==> |n| == 1
    decreases s
  {
    var name := First(key);
    if |key| > 1 && name in s.dirs {
      OptimizedConserves(Extract(files, name), s.dirs[name].content, key[1..]);
      ExtractGet(files, name, key[1..]);
      assert name + key[1..] == key;
    }
  }

  /** No directory of the tree keeps more than the threshold of its own files
      under one first segment. */
  ghost predicate Spread(s: State) {
    && (forall name :: !IsBig(s.files, name))
    && (forall n :: n in s.dirs ==> s.dirs[n].Of? ==> Spread(s.dirs[n].content))
  }

  lemma {:induction false} OptimizedSpreads(files: map<Path, FileRef>, s: State)
    requires Optimized(files, s)
    ensures Spread(s)
    decreases s
  {
    forall name
      ensures !IsBig(s.files, name)
    {
      KeptGroupSmall(files, name);
    }
    forall n | n in s.dirs
      ensures Spread(s.dirs[n].content)
    {
      OptimizedSpreads(Extract(files, n), s.dirs[n].content);
    }
  }

  lemma KeptGroupSmall(files: map<Path, FileRef>, name: Path)
    ensures !IsBig(Kept(files), name)
  {
    var group := Group(Kept(files), name);
    if |name| == 1 && group != {} {
      var l :| l in group;
      assert l in files && First(l) == name;
      assert group <= Group(files, name);
      SubsetSize(group, Group(files, name));
    }
  }

  lemma {:induction false} SubsetSize<T>(a: set<T>, b: set<T>)
    requires a <= b
    ensures |a| <= |b|
  {
    if a != {} {
      var x :| x in a;
      SubsetSize(a - {x}, b - {x});
    }
  }

  // --------------------------------------------- making one child directory

  /** `create_dir_at` and `promote_prefix`: the files below `name` leave this
      directory, and the child that holds them appears. */
  function AddChild(s: State, name: Path, child: State): State {
    State(Without(s.files, name), s.dirs[name := Of(child)])
  }

  /** Creating a slash-free name changes no lookup except that of the name. */
  lemma CreateKeepsLookups(s: State, name: Path, path: Path)
    requires |name| == 1 && name !in s.dirs && path != name
    ensures Lookup(AddChild(s, name, State(Extract(s.files, name), map[])), path) == Lookup(s, path)
  {
    if First(path) == name {
      assert |path| > 1 by { assert path[..1] == name; }
      assert name + path[1..] == path;
      ExtractGet(s.files, name, path[1..]);
      assert Lookup(State(Extract(s.files, name), map[]), Rest(path)) == Get(s.files, path);
    } else {
      assert Get(Without(s.files, name), path) == Get(s.files, path);
    }
  }

  /** Promoting one changes no lookup except those of the names promoted. */
  lemma PromoteKeepsLookups(s: State, name: Path, child: State, path: Path)
    requires |name| == 1 && name !in s.dirs && Optimized(Extract(s.files, name), child)
    requires IsDir(AddChild(s, name, child), path) ==> IsDir(s, path)
    ensures Lookup(AddChild(s, name, child), path) == Lookup(s, path)
  {
    if First(path) == name {
      assert name + path[1..] == path;
      ExtractGet(s.files, name, path[1..]);
      assert !IsDir(s, path);
      OptimizedKeepsLookups(Extract(s.files, name), child, path[1..]);
    } else {
      assert Get(Without(s.files, name), path) == Get(s.files, path);
    }
  }

  /** Neither loses a file or stores one twice. */
  lemma AddChildConserves(s: State, name: Path, child: State, key: Path)
    requires |name| == 1 && name !in s.dirs
    requires child == State(Extract(s.files, name), map[]) || Optimized(Extract(s.files, name), child)
    ensures Stored(AddChild(s, name, child), key) == Stored(s, key)
  {
    var s' := AddChild(s, name, child);
    WithoutGet(s.files, name, key);
    if First(key) == name && |key| > 1 {
      ChildStores(s, name, child, key);
      assert key !in s'.files && s'.dirs[name] == Of(child);
    } else {
      assert Get(s'.files, key) == Get(s.files, key);
    }
  }

  lemma ChildStores(s: State, name: Path, child: State, key: Path)
    requires |name| == 1 && |key| > 1 && First(key) == name
    requires child == State(Extract(s.files, name), map[]) || Optimized(Extract(s.files, name), child)
    ensures Stored(child, key[1..]) == if key in s.files then [s.files[key]] else []
  {
    assert name + key[1..] == key;
    ExtractGet(s.files, name, key[1..]);
    if Optimized(Extract(s.files, name), child) {
      OptimizedConserves(Extract(s.files, name), child, key[1..]);
    }
  }

  // --------------------------------------------------- the loops of the code

  /** The first loop: the groups by first segment. */
  method GroupByFirstSegment(files: map<Path, FileRef>) returns (groups: map<Path, set<Path>>)
    ensures forall n :: n in groups ==> |n| == 1 && groups[n] == Group(files, n)
    ensures forall n :: IsBig(files, n) ==> n in groups
  {
    groups := map[];
    var todo := files.Keys;
    while todo != {}
      invariant todo <= files.Keys
      invariant groups.Keys == set k | k in files && k !in todo && |k| > 1 :: First(k)
      invariant forall n :: n in groups ==> groups[n] == Group(files, n) - todo
      decreases todo
    {
      var path :| path in todo;
      todo := todo - {path};
      if |path| > 1 {
        var name := First(path);
        var group := if name in groups then groups[name] else {};
        groups := groups[name := group + {path}];
      }
    }
    BigIsGrouped(files, groups.Keys);
  }

  lemma BigIsGrouped(files: map<Path, FileRef>, names: set<Path>)
    requires names == set k | k in files && |k| > 1 :: First(k)
    ensures forall n :: IsBig(files, n) ==> n in names
  {
    forall n | IsBig(files, n)
      ensures n in names
    {
      var k :| k in Group(files, n);
      assert First(k) == n;
    }
  }

  /** The inner loop: move one group into a child, one path at a time. */
  method MoveGroup(files: map<Path, FileRef>, name: Path, paths: set<Path>)
    returns (rest: map<Path, FileRef>, child: map<Path, FileRef>)
    requires forall k :: k in paths ==> Below(name, k)
    ensures rest == files - paths
    ensures forall k: Path :: Get(child, k) == if name + k in paths then Get(files, name + k) else None
  {
    rest, child := files, map[];
    var todo := paths;
    while todo != {}
      invariant todo <= paths && rest == files - (paths - todo)
      invariant forall k: Path :: Get(child, k) == if name + k in paths - todo then Get(files, name + k) else None
      decreases todo
    {
      var path :| path in todo;
      todo := todo - {path};
      assert name + path[|name|..] == path;
      if path in rest {
        child := child[path[|name|..] := rest[path]];
        rest := rest - {path};
      }
    }
  }

  /** The local files once the groups in `moved` have left. */
  ghost function Remaining(files: map<Path, FileRef>, moved: set<Path>): map<Path, FileRef> {
    map k | k in files && !(|k| > 1 && First(k) in moved) :: files[k]
  }

  lemma RemainingStep(files: map<Path, FileRef>, moved: set<Path>, name: Path)
    requires name !in moved && |name| == 1
    ensures Remaining(files, moved + {name}) == Remaining(files, moved) - Group(files, name)
    ensures forall k: Path :: Get(Extract(files, name), k) ==
              if name + k in Group(files, name) then Get(Remaining(files, moved), name + k) else None
  {
    forall k: Path
      ensures Get(Extract(files, name), k) ==
              if name + k in Group(files, name) then Get(Remaining(files, moved), name + k) else None
    {
      ExtractGet(files, name, k);
      assert (name + k)[..1] == name;
    }
  }

  /** Paths have at most `d` segments; serves termination only. */
  predicate Bounded(files: map<Path, FileRef>, d: nat) {
    forall k :: k in files ==> |k| <= d
  }

  lemma {:induction false} BoundExists(files: map<Path, FileRef>) returns (d: nat)
    ensures Bounded(files, d)
  {
    d := 0;
    var todo := files.Keys;
    while todo != {}
      invariant todo <= files.Keys
      invariant forall k :: k in files && k !in todo ==> |k| <= d
      decreases todo
    {
      var k :| k in todo;
      todo := todo - {k};
      d := if |k| > d then |k| else d;
    }
  }

  lemma ExtractBounded(files: map<Path, FileRef>, name: Path, d: nat)
    requires Bounded(files, d) && IsBig(files, name)
    ensures d > 0 && Bounded(Extract(files, name), d - 1)
  {
    var l :| l in Group(files, name);
    forall k | k in Extract(files, name)
      ensures |k| <= d - 1
    {
      ExtractGet(files, name, k);
    }
  }

  /** `optimize_dir_structure`, taking the groups in whatever order the hash
      map yields them. */
  method OptimizeDirStructure(files: map<Path, FileRef>, ghost d: nat) returns (s: State)
    requires Bounded(files, d)
    ensures Optimized(files, s)
    decreases d, 1
  {
    var groups := GroupByFirstSegment(files);
    var rest, dirs: map<Path, DirHash> := files, map[];
    var todo := groups.Keys;
    assert Remaining(files, {}) == files;
    while todo != {}
      invariant todo <= groups.Keys && todo !! dirs.Keys
      invariant forall n :: n in dirs ==> IsBig(files, n)
      invariant forall n :: IsBig(files, n) ==> n in dirs || n in todo
      invariant rest == Remaining(files, dirs.Keys)
      invariant Children(files, dirs)
      decreases todo
    {
      var name :| name in todo;
      todo := todo - {name};
      if |groups[name]| > PROMOTION_THRESHOLD {
        var optimized;
        rest, optimized := PromoteGroup(files, d, dirs.Keys, name, groups[name], rest);
        assert dirs[name := Of(optimized)].Keys == dirs.Keys + {name};
        dirs := dirs[name := Of(optimized)];
      }
    }
    AllMoved(files, dirs.Keys);
    s := State(rest, dirs);
  }

  lemma AllMoved(files: map<Path, FileRef>, moved: set<Path>)
    requires forall n :: n in moved <==> IsBig(files, n)
    ensures Remaining(files, moved) == Kept(files)
  {}

  /** Every child made so far is the optimization of its share. */
  ghost predicate Children(files: map<Path, FileRef>, dirs: map<Path, DirHash>) {
    forall n :: n in dirs ==> dirs[n].Of? && Optimized(Extract(files, n), dirs[n].content)
  }

  method PromoteGroup(ghost files: map<Path, FileRef>, ghost d: nat, ghost moved: set<Path>, name: Path,
                      group: set<Path>, rest: map<Path, FileRef>)
    returns (rest': map<Path, FileRef>, optimized: State)
    requires Bounded(files, d) && IsBig(files, name) && name !in moved
    requires group == Group(files, name) && rest == Remaining(files, moved)
    ensures rest' == Remaining(files, moved + {name})
    ensures Optimized(Extract(files, name), optimized)
    decreases d, 0
  {
    ExtractBounded(files, name, d);
    RemainingStep(files, moved, name);
    var child;
    rest', child := MoveGroup(rest, name, group);
    SameGetsSameMap(child, Extract(files, name));
    optimized := OptimizeDirStructure(child, d - 1);
  }

  /** `extract_child_dir_state`. */
  method ExtractChildDirState(files: map<Path, FileRef>, prefix: Path)
    returns (rest: map<Path, FileRef>, child: map<Path, FileRef>)
    ensures rest == Without(files, prefix) && child == Extract(files, prefix)
  {
    rest, child := MoveGroup(files, prefix, Group(files, prefix));
    forall k: Path
      ensures Get(child, k) == Get(Extract(files, prefix), k)
    {
      assert (prefix + k)[..|prefix|] == prefix;
      ExtractGet(files, prefix, k);
    }
    SameGetsSameMap(child, Extract(files, prefix));
  }

  /** `promote_prefix`: nothing happens to a name that is a child already;
      otherwise its files move into an optimized child. Either way the only
      lookups that may change are those of the directories made. */
  method PromotePrefix(s: State, name: Path) returns (s': State)
    requires |name| == 1
    ensures name in s.dirs ==> s' == s
    ensures name !in s.dirs ==>
              exists child :: Optimized(Extract(s.files, name), child) && s' == AddChild(s, name, child)
    ensures forall path: Path :: (IsDir(s', path) ==> IsDir(s, path)) ==> Lookup(s', path) == Lookup(s, path)
  {
    if name in s.dirs {
      return s;
    }
    var rest, files := ExtractChildDirState(s.files, name);
    ghost var d := BoundExists(files);
    var child := OptimizeDirStructure(files, d);
    s' := State(rest, s.dirs[name := Of(child)]);
    assert s' == AddChild(s, name, child);
    forall path: Path | IsDir(s', path) ==> IsDir(s, path)
      ensures Lookup(s', path) == Lookup(s, path)
    {
      PromoteKeepsLookups(s, name, child, path);
    }
  }
}
