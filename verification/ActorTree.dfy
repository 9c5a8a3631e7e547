/** What the steps of directory actors mean for the tree they hold in memory:
    messages about hashes and dirt mean nothing, an operation means what it
    says, and only in the directory of the actor that ran it. */
module ActorTree {
  import opened Entries
  import opened DirStates
  import opened Actors
  import opened SaveProtocol
  import opened ActorShape
  import SaveRuns
  import Promotion

  /** `FileOp` lookup in a tree. */
  function TreeLookup(t: Tree, path: Path): Option<FileRef> {
    if First(path) in t.dirs then TreeLookup(t.dirs[First(path)], Rest(path)) else Get(t.files, path)
  }

  predicate TreeIsDir(t: Tree, path: Path) {
    First(path) in t.dirs && (|path| == 1 || TreeIsDir(t.dirs[First(path)], path[1..]))
  }

  lemma {:induction false} StoredLookup(h: DirHash, path: Path)
    ensures TreeLookup(TreeOf(h), path) == LookupHash(h, path)
    decreases h
  {
    if h.Of? && First(path) in h.content.dirs {
      StoredLookup(h.content.dirs[First(path)], Rest(path));
    }
  }

  lemma {:induction false} StoredIsDir(s: State, path: Path)
    ensures TreeIsDir(TreeOf(Of(s)), path) <==> Promotion.IsDir(s, path)
    decreases s
  {
    if First(path) in s.dirs && s.dirs[First(path)].Of? && |path| > 1 {
      StoredIsDir(s.dirs[First(path)].content, path[1..]);
    }
  }

  /** The actor is about to run an operation itself rather than forward it. */
  predicate Executing(n: Actor) {
    && n.boot.Running? && n.phase.Idle? && n.inbox != [] && n.inbox[0].PathOp?
    && First(n.inbox[0].path) !in n.state.dirs
  }

  /** The mailbox and the dirty flag are not part of the tree. */
  lemma MemoryOfParts(n: Actor, n': Actor)
    requires n'.boot == n.boot && n'.state == n.state && n'.kids == n.kids
    ensures Memory(n') == Memory(n)
  {
    if n.boot.Running? {
      MemoryIs(n', Memory(n).dirs);
    }
  }

  lemma ForwardKeepsMemory(n: Actor, name: Path, m: Msg)
    requires n.boot.Running? && name in n.state.dirs
    ensures Memory(Forward(n, name, m)) == Memory(n)
  {
    var kid := if name in n.kids then n.kids[name] else Spawn(FromHash(n.state.dirs[name]));
    MemoryOfParts(kid, kid.(inbox := kid.inbox + [m]));
    MemoryIs(Forward(n, name, m), Memory(n).dirs);
  }

  lemma UpdateKeepsMemory(n: Actor, name: Path, hash: DirHash)
    requires n.boot.Running? && name in n.kids && name in n.state.dirs
    ensures Memory(HandleUpdate(n, name, hash).actor) == Memory(n)
  {
    MemoryIs(HandleUpdate(n, name, hash).actor, Memory(n).dirs);
  }

  lemma BeginKeepsMemory(n: Actor, isRoot: bool)
    requires n.boot.Running?
    ensures Memory(BeginSave(n, isRoot).actor) == Memory(n)
  {
    var n' := BeginSave(n, isRoot).actor;
    forall k | k in n.kids
      ensures Memory(n'.kids[k]) == Memory(n.kids[k])
    {
      MemoryOfParts(n.kids[k], n'.kids[k]);
    }
    MemoryIs(n', Memory(n).dirs);
  }

  lemma FinishKeepsMemory(n: Actor, replies: map<Path, Option<DirHash>>)
    requires n.boot.Running? && replies.Keys <= n.kids.Keys
    ensures Memory(FinishSave(n, replies).actor) == Memory(n)
  {
    MemoryIs(FinishSave(n, replies).actor, Memory(n).dirs);
  }

  /** Starting, forwarding, marking, hash updates and saving leave the tree alone. */
  lemma BookkeepingKeepsMemory(n: Actor, isRoot: bool, store: set<State>, c: Choice)
    requires Shaped(n) && !Executing(n)
    ensures Memory(OwnStep(n, isRoot, store, c).actor) == Memory(n)
  {
    if !n.boot.Running? {
      StartKeepsMemory(n, store);
    } else if n.phase.Saving? {
      FinishKeepsMemory(n, n.phase.replies);
    } else if n.inbox != [] {
      var n1 := n.(inbox := n.inbox[1..]);
      MemoryOfParts(n, n1);
      match n.inbox[0]
      case PathOp(path, op) => ForwardKeepsMemory(n1, First(path), PathOp(Rest(path), op));
      case MarkAsDirty => MemoryOfParts(n1, n1.(dirty := true));
      case UpdateHash(name, hash) => UpdateKeepsMemory(n1, name, hash);
      case SaveIfDirty => BeginKeepsMemory(n1, isRoot);
    }
  }

  lemma StartKeepsMemory(n: Actor, store: set<State>)
    requires n.kids == map[] && !n.boot.Running?
    ensures Memory(Start(n, store).actor) == Memory(n)
  {
    var n' := Start(n, store).actor;
    if n' != n {
      MemoryIs(n', Memory(n).dirs);
    }
  }

  /** The tree after a new child `name` has been spawned. */
  lemma AddKidMemory(n: Actor, name: Path, child: State)
    requires n.boot.Running?
    ensures Memory(AddKid(n, name, child)) ==
            Tree(Without(n.state.files, name), Memory(n).dirs[name := TreeOf(Of(child))])
  {
    assert Memory(Spawn(WithState(child))) == TreeOf(Of(child));
    MemoryIs(AddKid(n, name, child), Memory(n).dirs[name := TreeOf(Of(child))]);
  }

  lemma MarkDirtyMemory(n: Actor, blobs: set<State>)
    ensures Memory(MarkDirty(n, blobs).actor) == Memory(n)
  {
    MemoryOfParts(n, MarkDirty(n, blobs).actor);
  }

  lemma RunTaskMemory(n: Actor, path: Path, task: Task, c: Choice)
    requires n.boot.Running?
    ensures var value := task(Get(n.state.files, path));
            var files := Put(n.state.files, path, value);
            Memory(RunTask(n, path, task, c).actor) ==
            if value.Some? && Promotes(files, path)
            then Tree(Without(files, First(path)), Memory(n).dirs[First(path) := TreeOf(Of(c.promoted))])
            else Tree(files, Memory(n).dirs)
  {
    var files := Put(n.state.files, path, task(Get(n.state.files, path)));
    var n1 := n.(state := n.state.(files := files));
    MemoryIs(n1, Memory(n).dirs);
    AddKidMemory(n1, First(path), c.promoted);
    MarkDirtyMemory(n1, {});
    MarkDirtyMemory(AddKid(n1, First(path), c.promoted), c.blobs);
  }

  /** A file task changes exactly the slot of its path, however many prefixes
      it causes to be promoted; only the names of the directories it makes may
      change what they mean. */
  lemma TaskMeaning(n: Actor, isRoot: bool, store: set<State>, c: Choice, other: Path)
    requires Executing(n) && n.inbox[0].op.FileTask? && GoodChoice(n, store, c)
    ensures var t, t', path := Memory(n), Memory(OwnStep(n, isRoot, store, c).actor), n.inbox[0].path;
            (TreeIsDir(t', other) ==> TreeIsDir(t, other)) ==>
              TreeLookup(t', other) ==
              if other == path then n.inbox[0].op.task(TreeLookup(t, path)) else TreeLookup(t, other)
  {
    var t, path, n1 := Memory(n), n.inbox[0].path, n.(inbox := n.inbox[1..]);
    var value := n.inbox[0].op.task(Get(n.state.files, path));
    var files := Put(n.state.files, path, value);
    PutGet(n.state.files, path, value);
    MemoryOfParts(n, n1);
    RunTaskMemory(n1, path, n.inbox[0].op.task, c);
    var mid := Tree(files, t.dirs);
    assert TreeIsDir(mid, other) <==> TreeIsDir(t, other);
    if value.Some? && Promotes(files, path) {
      PromotedLookup(mid, First(path), c.promoted, other);
    }
  }

  /** A task that leaves a file promotes the path's first segment exactly when
      the path goes below it and eleven files or more do then. */
  lemma TaskPromotesIff(n: Actor, path: Path, task: Task, c: Choice)
    requires n.boot.Running? && path[..1] !in n.state.dirs
    ensures var value := task(Get(n.state.files, path));
            var files := if value.Some? then n.state.files[path := value.value] else n.state.files - {path};
            var below := set k | k in files && |k| > 1 && k[0] == path[0];
            path[..1] in RunTask(n, path, task, c).actor.state.dirs <==> value.Some? && |path| > 1 && |below| >= 11
  {
    var value := task(Get(n.state.files, path));
    var files := Put(n.state.files, path, value);
    var name: Path := path[..1];
    assert name[0] == path[0];
    Promotion.IsBigIff(files, name);
  }

  /** A promoted child seen from its parent's tree. */
  lemma PromotedLookup(t: Tree, name: Path, child: State, other: Path)
    requires |name| == 1 && name !in t.dirs && Promotion.Optimized(Extract(t.files, name), child)
    ensures var t' := Tree(Without(t.files, name), t.dirs[name := TreeOf(Of(child))]);
            (TreeIsDir(t', other) ==> TreeIsDir(t, other)) ==> TreeLookup(t', other) == TreeLookup(t, other)
  {
    if First(other) != name {
      assert Get(Without(t.files, name), other) == Get(t.files, other);
    } else if |other| > 1 {
      StoredLookup(Of(child), other[1..]);
      StoredIsDir(child, other[1..]);
      assert name + other[1..] == other;
      ExtractGet(t.files, name, other[1..]);
      if !Promotion.IsDir(child, other[1..]) {
        Promotion.OptimizedKeepsLookups(Extract(t.files, name), child, other[1..]);
      }
    }
  }

  /** Creating a directory keeps every lookup except that of its own name, if
      and only if the name is slash-free or nothing is stored below it: a name
      with slashes takes its files to where no lookup is routed. */
  lemma CreateMeaningIff(n: Actor, isRoot: bool, store: set<State>, c: Choice)
    requires Executing(n) && n.inbox[0].op.CreateDir? && n.inbox[0].path !in n.state.dirs
    ensures var t, t', name := Memory(n), Memory(OwnStep(n, isRoot, store, c).actor), n.inbox[0].path;
            (forall other: Path :: other != name ==> SameLookup(t, t', other))
            <==> |name| == 1 || forall k :: k in n.state.files ==> !Below(name, k)
  {
    var t, name, n1 := Memory(n), n.inbox[0].path, n.(inbox := n.inbox[1..]);
    var child := State(Extract(n.state.files, name), map[]);
    MemoryOfParts(n, n1);
    AddKidMemory(n1, name, child);
    MarkDirtyMemory(AddKid(n1, name, child), {});
    var t' := Tree(Without(t.files, name), t.dirs[name := TreeOf(Of(child))]);
    if |name| == 1 || forall k :: k in t.files ==> !Below(name, k) {
      forall other: Path | other != name
        ensures SameLookup(t, t', other)
      {
        CreatedLookup(t, name, child, other);
      }
    } else {
      var k :| k in t.files && Below(name, k);
      CreatedLookup(t, name, child, k);
      assert k != name && !SameLookup(t, t', k);
    }
  }

  predicate SameLookup(t: Tree, t': Tree, path: Path) {
    TreeLookup(t', path) == TreeLookup(t, path)
  }

  lemma CreatedLookup(t: Tree, name: Path, child: State, other: Path)
    requires First(name) !in t.dirs && name !in t.dirs && other != name
    requires child == State(Extract(t.files, name), map[])
    ensures var t' := Tree(Without(t.files, name), t.dirs[name := TreeOf(Of(child))]);
            SameLookup(t, t', other) <==> (|name| == 1 || !(other in t.files && Below(name, other)))
  {
    if |name| > 1 {
      assert |First(other)| == 1;
      if Below(name, other) {
        assert First(other) == First(name);
      }
    } else if First(other) == name {
      assert |other| > 1 by { assert other[..1] == name; }
      assert name + other[1..] == other;
      ExtractGet(t.files, name, other[1..]);
      StoredLookup(Of(child), other[1..]);
      assert name == First(name);
    } else {
      assert Get(Without(t.files, name), other) == Get(t.files, other);
    }
  }

  // ----------------------------------------------- steps deep in the tree

  /** `t` with the subtree reached through `at` replaced. */
  function Graft(t: Tree, at: seq<Path>, sub: Tree): Tree
    decreases at
  {
    if at == [] then sub
    else if at[0] in t.dirs then t.(dirs := t.dirs[at[0] := Graft(t.dirs[at[0]], at[1..], sub)])
    else t
  }

  function ActorAt(n: Actor, at: seq<Path>): Option<Actor>
    decreases at
  {
    if at == [] then Some(n) else if at[0] in n.kids then ActorAt(n.kids[at[0]], at[1..]) else None
  }

  lemma KidMemory(n: Actor, name: Path, kid: Actor, up: Up)
    requires n.boot.Running? && name in n.kids && name in n.state.dirs
    ensures Memory(Receive(n.(kids := n.kids[name := kid]), name, up)) ==
            Memory(n).(dirs := Memory(n).dirs[name := Memory(kid)])
    ensures Memory(n).dirs[name] == Memory(n.kids[name])
  {
    var n1 := n.(kids := n.kids[name := kid]);
    MemoryIs(n1, Memory(n).dirs[name := Memory(kid)]);
    MemoryOfParts(n1, Receive(n1, name, up));
  }

  /** A step of one actor changes the whole tree only inside that actor's
      directory. */
  lemma {:induction false} StepStaysInItsDirectory(n: Actor, isRoot: bool, at: seq<Path>, store: set<State>, c: Choice)
    requires Shaped(n)
    ensures match ActorAt(n, at)
            case None => Memory(StepAt(n, isRoot, at, store, c).actor) == Memory(n)
            case Some(a) =>
              var r := OwnStep(a, isRoot && at == [], store, c);
              Memory(StepAt(n, isRoot, at, store, c).actor) == Graft(Memory(n), at, Memory(r.actor))
    decreases at
  {
    if at != [] && at[0] in n.kids {
      var kid := n.kids[at[0]];
      var r := StepAt(kid, false, at[1..], store, c);
      StepStaysInItsDirectory(kid, false, at[1..], store, c);
      KidMemory(n, at[0], r.actor, r.up);
      assert ActorAt(n, at) == ActorAt(kid, at[1..]);
    }
  }

  /** Hence a step that runs no operation changes nothing anywhere. */
  lemma BookkeepingIsInvisible(n: Actor, isRoot: bool, at: seq<Path>, store: set<State>, c: Choice)
    requires Shaped(n) && (ActorAt(n, at).Some? ==> !Executing(ActorAt(n, at).value))
    ensures Memory(StepAt(n, isRoot, at, store, c).actor) == Memory(n)
  {
    StepStaysInItsDirectory(n, isRoot, at, store, c);
    if ActorAt(n, at).Some? {
      ShapedAt(n, at);
      BookkeepingKeepsMemory(ActorAt(n, at).value, isRoot && at == [], store, c);
      GraftSame(n, at);
    }
  }

  lemma {:induction false} ShapedAt(n: Actor, at: seq<Path>)
    requires Shaped(n) && ActorAt(n, at).Some?
    ensures Shaped(ActorAt(n, at).value)
    decreases at
  {
    if at != [] {
      ShapedAt(n.kids[at[0]], at[1..]);
    }
  }

  lemma {:induction false} GraftSame(n: Actor, at: seq<Path>)
    requires Shaped(n) && ActorAt(n, at).Some?
    ensures Graft(Memory(n), at, Memory(ActorAt(n, at).value)) == Memory(n)
    decreases at
  {
    if at != [] {
      GraftSame(n.kids[at[0]], at[1..]);
      assert Memory(n).dirs[at[0]] == Memory(n.kids[at[0]]);
    }
  }

  // ---------------------------------------------------------- every run

  /** In every run, however its saves are timed and whatever they publish, a step
      that runs no operation leaves the tree in memory alone. */
  lemma {:induction false} OnlyOperationsChangeMemory(y: SaveRuns.System, es: seq<SaveRuns.Event>, e: SaveRuns.Event)
    requires SaveRuns.Initial(y)
    ensures var before := SaveRuns.Run(y, es).root;
            && Shaped(before)
            && ((e.Step? && ActorAt(before, e.at).Some? && Executing(ActorAt(before, e.at).value))
                || Memory(SaveRuns.Next(SaveRuns.Run(y, es), e).root) == Memory(before))
    decreases |es|
  {
    var y1 := SaveRuns.Run(y, es);
    if es != [] {
      var last := es[|es| - 1];
      OnlyOperationsChangeMemory(y, es[..|es| - 1], last);
      NextShaped(SaveRuns.Run(y, es[..|es| - 1]), last);
    }
    match e
    case Client(path, op) => MemoryOfParts(y1.root, Send(y1.root, PathOp(path, op)));
    case RequestSave => MemoryOfParts(y1.root, Send(y1.root, SaveIfDirty));
    case Step(at, c) =>
      if ActorAt(y1.root, at).None? || !Executing(ActorAt(y1.root, at).value) {
        BookkeepingIsInvisible(y1.root, true, at, y1.store, c);
      }
  }

  lemma NextShaped(y: SaveRuns.System, e: SaveRuns.Event)
    requires Shaped(y.root)
    ensures Shaped(SaveRuns.Next(y, e).root)
  {
    match e
    case Client(path, op) => SendShaped(y.root, PathOp(path, op));
    case RequestSave => SendShaped(y.root, SaveIfDirty);
    case Step(at, c) => StepAtShaped(y.root, true, at, y.store, c);
  }
}
