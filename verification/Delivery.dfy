/** Operations on their way through the actors: a message is never lost, and an
    operation delivered to a tree with nothing else undelivered does to the tree
    in memory what it does to a tree. */
module Delivery {
  import opened Entries
  import opened DirStates
  import opened Actors
  import opened SaveProtocol
  import opened SaveWalk
  import opened SaveRuns
  import opened ActorTree
  import Promotion

  /** A running actor that has a child directory of the path's first segment
      passes the operation on, at the end of the child's mailbox; the child is
      opened under its hash if it was not open; and nothing else changes. */
  lemma OperationIsForwarded(n: Actor, path: Path, op: Op, rest: seq<Msg>, isRoot: bool, store: set<State>, c: Choice)
    requires n.boot.Running? && n.phase.Idle? && n.inbox == [PathOp(path, op)] + rest && path[..1] in n.state.dirs
    ensures var r := OwnStep(n, isRoot, store, c); var name := path[..1];
            var below := PathOp(if |path| == 1 then [""] else path[1..], op);
            && r.up == Quiet && r.blobs == {} && r.actor.inbox == rest
            && r.actor == n.(inbox := rest, kids := n.kids[name := r.actor.kids[name]])
            && (name in n.kids ==> r.actor.kids[name] == n.kids[name].(inbox := n.kids[name].inbox + [below]))
            && (name !in n.kids ==>
                  r.actor.kids[name] == Actor(FromHash(n.state.dirs[name]), EMPTY_STATE, false, map[], [below], Idle))
  {
    assert n.inbox[1..] == rest;
  }

  /** Every message that is not served stays in its mailbox, in order. */
  lemma MailIsServedInOrder(n: Actor, isRoot: bool, store: set<State>, c: Choice)
    ensures var n' := OwnStep(n, isRoot, store, c).actor;
            n'.inbox == n.inbox || (n.inbox != [] && n.boot.Running? && n.phase.Idle? && n'.inbox == n.inbox[1..])
  {}

  /** A new hash of a child is entered, and the actor becomes dirty and says so
      if it was not; a known one, or one of a name that is no child, does nothing. */
  lemma AnnouncementIsEntered(n: Actor, name: Path, hash: DirHash, rest: seq<Msg>, isRoot: bool, store: set<State>,
                              c: Choice)
    requires n.boot.Running? && n.phase.Idle? && n.inbox == [UpdateHash(name, hash)] + rest
    ensures var r := OwnStep(n, isRoot, store, c); var n' := n.(inbox := rest);
            && r.blobs == {}
            && (Get(n.state.dirs, name) == Some(hash) || name !in n.state.dirs ==> r.actor == n' && r.up == Quiet)
            && (Get(n.state.dirs, name) != Some(hash) && name in n.state.dirs ==>
                  && r.actor == n'.(dirty := true, state := State(n.state.files, n.state.dirs[name := hash]))
                  && (r.up == Dirtied <==> !n.dirty) && (n.dirty ==> r.up == Quiet))
  {
    assert n.inbox[1..] == rest;
  }

  /** An actor spawned with a state stores it and announces its hash; one spawned
      from a hash loads it, and never runs if there is nothing to load. */
  lemma ActorStarts(n: Actor, isRoot: bool, store: set<State>, c: Choice)
    requires !n.boot.Running?
    ensures var r := OwnStep(n, isRoot, store, c);
            && (n.boot.WithState? ==>
                  var s := n.boot.initial;
                  r == Effect(n.(boot := Running, state := s), Announce(Of(s)), {s}))
            && (n.boot.FromHash? ==>
                  && r.up == Quiet && r.blobs == {}
                  && (r.actor.boot.Running? <==> n.boot.hash.Of? && n.boot.hash.content in store)
                  && (r.actor.boot.Running? ==> r.actor == n.(boot := Running, state := n.boot.hash.content))
                  && (!r.actor.boot.Running? ==> r.actor == n))
  {}

  // --------------------------------------------------- an operation on a tree

  /** What an operation does to a tree, followed down the child directories its
      segments name, where a path that runs out goes on as one empty segment;
      `promoted` is what a promoted child is turned into. */
  function TreeOp(t: Tree, path: Path, op: Op, promoted: State): Tree {
    if First(path) in t.dirs then
      t.(dirs := t.dirs[First(path) := TreeOp(t.dirs[First(path)], Rest(path), op, promoted)])
    else
      match op
      case CreateDir =>
        if path in t.dirs then t
        else Tree(Without(t.files, path), t.dirs[path := Tree(Extract(t.files, path), map[])])
      case FileTask(task) =>
        var value := task(Get(t.files, path));
        var files := Put(t.files, path, value);
        if value.Some? && Promotes(files, path)
        then Tree(Without(files, First(path)), t.dirs[First(path) := TreeOf(Of(promoted))])
        else Tree(files, t.dirs)
  }

  /** The choice fits the promotion that the operation causes, if any. */
  ghost predicate ChoiceFits(t: Tree, path: Path, op: Op, store: set<State>, c: Choice) {
    if First(path) in t.dirs then ChoiceFits(t.dirs[First(path)], Rest(path), op, store, c)
    else
      op.FileTask? ==>
        var files := Put(t.files, path, op.task(Get(t.files, path)));
        Promotes(files, path) ==>
          Promotion.Optimized(Extract(files, First(path)), c.promoted) && RefsLoad(store + c.blobs, c.promoted)
  }

  /** The task makes the serving directory promote the path's first segment. */
  predicate PromotesAt(t: Tree, path: Path, task: Task) {
    if First(path) in t.dirs then PromotesAt(t.dirs[First(path)], Rest(path), task)
    else
      var value := task(Get(t.files, path));
      value.Some? && Promotes(Put(t.files, path, value), path)
  }

  // ------------------------------------------------- the actors that serve it

  /** The actor and the store after the steps of the actors at `ats`. */
  function Steps(n: Actor, isRoot: bool, ats: seq<seq<Path>>, store: set<State>, c: Choice): (Actor, set<State>)
    decreases |ats|
  {
    if ats == [] then (n, store)
    else
      var r := StepAt(n, isRoot, ats[0], store, c);
      Steps(r.actor, isRoot, ats[1..], store + r.blobs, c)
  }

  /** The same steps, seen from the parent. */
  function Lifted(name: Path, ats: seq<seq<Path>>): seq<seq<Path>> {
    seq(|ats|, i requires 0 <= i < |ats| => [name] + ats[i])
  }

  lemma {:induction false} LiftSteps(n: Actor, isRoot: bool, name: Path, ats: seq<seq<Path>>, store: set<State>,
                                     c: Choice)
    requires n.boot.Running? && name in n.kids && name in n.state.dirs
    ensures var (kid, store') := Steps(n.kids[name], false, ats, store, c);
            var r := Steps(n, isRoot, Lifted(name, ats), store, c);
            r.1 == store' && Memory(r.0) == Memory(n).(dirs := Memory(n).dirs[name := Memory(kid)])
    decreases |ats|
  {
    var m := Memory(n);
    if ats == [] {
      assert m.dirs[name] == Memory(n.kids[name]);
      assert m.dirs[name := Memory(n.kids[name])] == m.dirs;
    } else {
      var n1 := LiftStep(n, isRoot, name, ats[0], store, c);
      var r := StepAt(n.kids[name], false, ats[0], store, c);
      assert Lifted(name, ats)[0] == [name] + ats[0] && Lifted(name, ats)[1..] == Lifted(name, ats[1..]);
      LiftSteps(n1, isRoot, name, ats[1..], store + r.blobs, c);
      TwicePut(m, name, Memory(r.actor), Memory(Steps(n.kids[name], false, ats, store, c).0));
    }
  }

  lemma TwicePut(m: Tree, name: Path, a: Tree, b: Tree)
    ensures m.(dirs := m.dirs[name := a]).(dirs := m.dirs[name := a][name := b]) == m.(dirs := m.dirs[name := b])
  {
    assert m.dirs[name := a][name := b] == m.dirs[name := b];
  }

  lemma LiftStep(n: Actor, isRoot: bool, name: Path, at: seq<Path>, store: set<State>, c: Choice) returns (n1: Actor)
    requires n.boot.Running? && name in n.kids && name in n.state.dirs
    ensures var r := StepAt(n.kids[name], false, at, store, c);
            && StepAt(n, isRoot, [name] + at, store, c) == Effect(n1, Quiet, r.blobs)
            && n1.boot.Running? && name in n1.kids && name in n1.state.dirs && n1.kids[name] == r.actor
            && Memory(n1) == Memory(n).(dirs := Memory(n).dirs[name := Memory(r.actor)])
  {
    var r := StepAt(n.kids[name], false, at, store, c);
    n1 := Receive(n.(kids := n.kids[name := r.actor]), name, r.up);
    assert ([name] + at)[1..] == at;
    KidMemory(n, name, r.actor, r.up);
  }

  /** An actor about to serve an operation, with all else delivered. */
  ghost predicate Serving(n: Actor, path: Path, op: Op, store: set<State>) {
    && Inv(n, store) && !n.boot.WithState? && KidsSettled(n)
    && n.inbox == [PathOp(path, op)]
  }

  lemma StartServing(n: Actor, path: Path, op: Op, isRoot: bool, store: set<State>, c: Choice)
    requires Serving(n, path, op, store) && n.boot.FromHash?
    ensures var r := StepAt(n, isRoot, [], store, c);
            r.blobs == {} && Serving(r.actor, path, op, store) && r.actor.boot.Running? && Memory(r.actor) == Memory(n)
  {
    assert store + {} == store;
    OwnStepInv(n, isRoot, store, c);
    StartKeepsMemory(n, store);
  }

  lemma ForwardServing(n: Actor, path: Path, op: Op, isRoot: bool, store: set<State>, c: Choice)
    requires Serving(n, path, op, store) && n.boot.Running? && First(path) in n.state.dirs
    ensures var r := StepAt(n, isRoot, [], store, c); var n1 := r.actor;
            && r.blobs == {} && n1.boot.Running? && Memory(n1) == Memory(n)
            && First(path) in n1.kids && First(path) in n1.state.dirs
            && Serving(n1.kids[First(path)], Rest(path), op, store)
            && Memory(n1.kids[First(path)]) == Memory(n).dirs[First(path)]
  {
    var name, m := First(path), PathOp(Rest(path), op);
    var n1 := n.(inbox := n.inbox[1..]);
    assert store + {} == store;
    OwnStepInv(n, isRoot, store, c);
    MemoryOfParts(n, n1);
    ForwardKeepsMemory(n1, name, m);
    var kid := if name in n.kids then n.kids[name] else Spawn(FromHash(n.state.dirs[name]));
    MemoryOfParts(kid, Send(kid, m));
    assert Send(kid, m).inbox == [m];
  }

  lemma RunServing(n: Actor, path: Path, op: Op, isRoot: bool, store: set<State>, c: Choice)
    requires Serving(n, path, op, store) && n.boot.Running? && First(path) !in n.state.dirs
    ensures Memory(StepAt(n, isRoot, [], store, c).actor) == TreeOp(Memory(n), path, op, c.promoted)
  {
    var n1 := n.(inbox := n.inbox[1..]);
    MemoryOfParts(n, n1);
    if op.FileTask? {
      RunTaskMemory(n1, path, op.task, c);
    } else if path !in n.state.dirs {
      var child := State(Extract(n.state.files, path), map[]);
      AddKidMemory(n1, path, child);
      MarkDirtyMemory(AddKid(n1, path, child), {});
      assert TreeOf(Of(child)) == Tree(child.files, map[]);
    }
  }

  /** Delivered through the actors, opening those on the way, the operation does
      to the tree in memory what it does to a tree. */
  lemma {:induction false} OperationIsServed(n: Actor, path: Path, op: Op, isRoot: bool, store: set<State>, c: Choice)
    returns (ats: seq<seq<Path>>)
    requires Serving(n, path, op, store)
    ensures Memory(Steps(n, isRoot, ats, store, c).0) == TreeOp(Memory(n), path, op, c.promoted)
    decreases Memory(n), n.boot.FromHash?
  {
    var r := StepAt(n, isRoot, [], store, c);
    assert store + {} == store;
    if n.boot.FromHash? {
      StartServing(n, path, op, isRoot, store, c);
      var rest := OperationIsServed(r.actor, path, op, isRoot, store, c);
      ats := [[]] + rest;
      assert ats[1..] == rest;
    } else if First(path) in n.state.dirs {
      ForwardServing(n, path, op, isRoot, store, c);
      var name := First(path);
      var below := OperationIsServed(r.actor.kids[name], Rest(path), op, false, store, c);
      LiftSteps(r.actor, isRoot, name, below, store, c);
      ats := [[]] + Lifted(name, below);
      assert ats[1..] == Lifted(name, below);
    } else {
      RunServing(n, path, op, isRoot, store, c);
      ats := [[]];
      assert ats[1..] == [];
    }
  }

  lemma {:induction false} StepsAreRun(y: System, ats: seq<seq<Path>>, c: Choice) returns (es: seq<Event>)
    ensures Run(y, es).root == Steps(y.root, true, ats, y.store, c).0
    decreases |ats|
  {
    if ats == [] {
      es := [];
    } else {
      var rest := StepsAreRun(Next(y, Step(ats[0], c)), ats[1..], c);
      es := [Step(ats[0], c)] + rest;
      RunFrom(y, Step(ats[0], c), rest);
    }
  }

  lemma {:induction false} RunFrom(y: System, e: Event, es: seq<Event>)
    ensures Run(y, [e] + es) == Run(Next(y, e), es)
    decreases |es|
  {
    if es == [] {
      assert [e] + es == [e];
      RunSingle(y, e);
    } else {
      var init, last := es[..|es| - 1], es[|es| - 1];
      assert ([e] + es)[..|es|] == [e] + init;
      RunFrom(y, e, init);
    }
  }

  /** A client's operation on a tree with nothing undelivered can be served. */
  lemma RequestIsServed(y: System, path: Path, op: Op, c: Choice) returns (es: seq<Event>)
    requires IdleInv(y.root, y.store, y.disk) && Settled(y.root)
    ensures Memory(Run(Next(y, Client(path, op)), es).root) == TreeOp(Memory(y.root), path, op, c.promoted)
  {
    var y1, m := Next(y, Client(path, op)), PathOp(path, op);
    AppendInv(y.root, m, y.store);
    MemoryOfParts(y.root, Send(y.root, m));
    assert Send(y.root, m).inbox == [m];
    var ats := OperationIsServed(y1.root, path, op, true, y1.store, c);
    es := StepsAreRun(y1, ats, c);
  }

  // ------------------------------------------------------------ file tasks

  /** Where a lookup of the path ends: the path itself, unless it runs out at a
      child directory, where an empty segment is looked up instead. */
  function TreeTarget(t: Tree, path: Path): Path {
    if First(path) in t.dirs then First(path) + TreeTarget(t.dirs[First(path)], Rest(path)) else path
  }

  /** A place that the task has not turned into a directory by a promotion. */
  predicate StillAPlace(t: Tree, path: Path, task: Task, promoted: State, other: Path) {
    PromotesAt(t, path, task) ==> !TreeIsDir(TreeOp(t, path, FileTask(task), promoted), TreeTarget(t, other))
  }

  /** A file task on a tree changes what is found at the place its path leads to,
      to what the task makes of it, and nothing anywhere else, apart from places
      that a promotion has turned into directories. */
  lemma {:induction false} TaskLookup(t: Tree, path: Path, task: Task, store: set<State>, c: Choice, other: Path)
    requires ChoiceFits(t, path, FileTask(task), store, c) && StillAPlace(t, path, task, c.promoted, other)
    ensures var t' := TreeOp(t, path, FileTask(task), c.promoted);
            TreeLookup(t', other) ==
            if TreeTarget(t, other) == TreeTarget(t, path) then task(TreeLookup(t, path)) else TreeLookup(t, other)
    decreases t
  {
    var name, t' := First(path), TreeOp(t, path, FileTask(task), c.promoted);
    if name in t.dirs {
      var child := t.dirs[name];
      if First(other) == name {
        TargetBelow(t', name, TreeTarget(child, Rest(other)));
        TaskLookup(child, Rest(path), task, store, c, Rest(other));
        SameBelow(name, TreeTarget(child, Rest(other)), TreeTarget(child, Rest(path)));
      } else {
        assert TreeTarget(t, path)[..1] == name;
        FirstOfTarget(t, other);
      }
    } else {
      TaskLookupHere(t, path, task, store, c, other);
    }
  }

  lemma FirstOfTarget(t: Tree, path: Path)
    ensures TreeTarget(t, path)[..1] == First(path)
  {}

  lemma TargetBelow(t: Tree, name: Path, below: Path)
    requires |name| == 1 && name in t.dirs
    ensures TreeIsDir(t, name + below) <==> TreeIsDir(t.dirs[name], below)
  {
    assert First(name + below) == name && (name + below)[1..] == below;
  }

  lemma SameBelow(name: Path, a: Path, b: Path)
    requires |name| == 1
    ensures name + a == name + b <==> a == b
  {
    assert (name + a)[1..] == a && (name + b)[1..] == b;
  }

  lemma TaskLookupHere(t: Tree, path: Path, task: Task, store: set<State>, c: Choice, other: Path)
    requires First(path) !in t.dirs
    requires ChoiceFits(t, path, FileTask(task), store, c) && StillAPlace(t, path, task, c.promoted, other)
    ensures var t' := TreeOp(t, path, FileTask(task), c.promoted);
            TreeLookup(t', other) ==
            if TreeTarget(t, other) == path then task(TreeLookup(t, path)) else TreeLookup(t, other)
  {
    var value := task(Get(t.files, path));
    var files := Put(t.files, path, value);
    var mid := Tree(files, t.dirs);
    PutGet(t.files, path, value);
    FirstOfTarget(t, other);
    if First(other) !in t.dirs {
      assert TreeTarget(t, other) == other;
      if value.Some? && Promotes(files, path) {
        PromotedLookup(mid, First(path), c.promoted, other);
      }
    }
  }

  /** A client's file task on a tree with nothing undelivered, with unopened
      children or not: served, it has changed what is found at its path to what
      the task makes of what was found before, and kept everything else. */
  lemma TaskRequestIsServed(y: System, path: Path, task: Task, c: Choice) returns (es: seq<Event>)
    requires IdleInv(y.root, y.store, y.disk) && Settled(y.root)
    requires ChoiceFits(Memory(y.root), path, FileTask(task), y.store, c)
    ensures var t := Memory(y.root); var t' := Memory(Run(Next(y, Client(path, FileTask(task))), es).root);
            && (StillAPlace(t, path, task, c.promoted, path) ==> TreeLookup(t', path) == task(TreeLookup(t, path)))
            && forall other: Path :: KeptByTask(t, path, task, c.promoted, other) ==>
                 TreeLookup(t', other) == TreeLookup(t, other)
  {
    var t := Memory(y.root);
    es := RequestIsServed(y, path, FileTask(task), c);
    if StillAPlace(t, path, task, c.promoted, path) {
      TaskLookup(t, path, task, y.store, c, path);
    }
    forall other: Path | KeptByTask(t, path, task, c.promoted, other)
      ensures TreeLookup(TreeOp(t, path, FileTask(task), c.promoted), other) == TreeLookup(t, other)
    {
      TaskLookup(t, path, task, y.store, c, other);
    }
  }

  /** Another place, and still one. */
  predicate KeptByTask(t: Tree, path: Path, task: Task, promoted: State, other: Path) {
    TreeTarget(t, other) != TreeTarget(t, path) && StillAPlace(t, path, task, promoted, other)
  }

  // ------------------------------------------------- a fitting choice exists

  /** Every set of files has an optimized state whose children can be stored. */
  lemma {:induction false} OptimizedExists(files: map<Path, FileRef>, d: nat) returns (s: State, blobs: set<State>)
    requires Promotion.Bounded(files, d)
    ensures Promotion.Optimized(files, s) && RefsLoad(blobs, s)
    decreases d
  {
    var dirs: map<Path, DirHash> := map[];
    blobs := {};
    var all: set<Path> := set k | k in files && |k| > 1 :: First(k);
    var todo: set<Path> := set n | n in all && Promotion.IsBig(files, n);
    Promotion.BigIsGrouped(files, all);
    while todo != {}
      invariant forall n :: Promotion.IsBig(files, n) <==> n in dirs || n in todo
      invariant Promotion.Children(files, dirs)
      invariant RefsLoad(blobs, State(map[], dirs))
      decreases todo
    {
      var name :| name in todo;
      Promotion.ExtractBounded(files, name, d);
      var child, more := OptimizedExists(Extract(files, name), d - 1);
      var grown := blobs + more + {child};
      forall k | k in dirs { LoadableMono(blobs, grown, dirs[k]); }
      forall k | k in child.dirs { LoadableMono(more, grown, child.dirs[k]); }
      assert Loadable(grown, Of(child));
      dirs, blobs, todo := dirs[name := Of(child)], grown, todo - {name};
    }
    s := State(Promotion.Kept(files), dirs);
  }

  /** So every file task can be served, whatever it promotes. */
  lemma {:induction false} FittingChoice(t: Tree, path: Path, op: Op, store: set<State>) returns (c: Choice)
    ensures ChoiceFits(t, path, op, store, c)
    decreases t
  {
    if First(path) in t.dirs {
      c := FittingChoice(t.dirs[First(path)], Rest(path), op, store);
    } else if op.CreateDir? {
      c := Choice(EMPTY_STATE, {});
    } else {
      var files := Extract(Put(t.files, path, op.task(Get(t.files, path))), First(path));
      var d := Promotion.BoundExists(files);
      var s, blobs := OptimizedExists(files, d);
      c := Choice(s, blobs);
      forall k | k in s.dirs { LoadableMono(blobs, store + blobs, s.dirs[k]); }
    }
  }
}
