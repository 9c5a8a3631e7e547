/** What holds of the actors in every run, however its saves are timed and
    whatever they publish. */
module ActorShape {
  import opened Entries
  import opened DirStates
  import opened Actors
  import opened SaveProtocol

  /** Open children are children, and only they announce and answer. */
  ghost predicate Shaped(n: Actor) {
    && (if n.boot.Running? then n.kids.Keys <= n.state.dirs.Keys else n.kids == map[] && !n.dirty)
    && FromKids(n.inbox, n.kids.Keys)
    && (n.phase.Saving? ==> n.phase.replies.Keys <= n.kids.Keys)
    && (forall k :: k in n.kids ==> Shaped(n.kids[k]))
  }

  lemma PutKidShaped(n: Actor, name: Path, kid: Actor)
    requires n.boot.Running? && Shaped(kid) && name in n.state.dirs
    requires n.kids.Keys <= n.state.dirs.Keys && FromKids(n.inbox, n.kids.Keys)
    requires n.phase.Saving? ==> n.phase.replies.Keys <= n.kids.Keys
    requires forall k :: k in n.kids && k != name ==> Shaped(n.kids[k])
    ensures Shaped(n.(kids := n.kids[name := kid]))
  {}

  lemma SendShaped(n: Actor, m: Msg)
    requires Shaped(n) && (m.UpdateHash? ==> m.name in n.kids)
    ensures Shaped(Send(n, m))
  {}

  lemma HandlePathOpShaped(n: Actor, path: Path, op: Op, c: Choice)
    requires Shaped(n) && n.boot.Running? && n.phase.Idle?
    ensures Shaped(HandlePathOp(n, path, op, c).actor)
  {
    if First(path) in n.state.dirs {
      var kid := if First(path) in n.kids then n.kids[First(path)] else Spawn(FromHash(n.state.dirs[First(path)]));
      SendShaped(kid, PathOp(Rest(path), op));
      PutKidShaped(n, First(path), Send(kid, PathOp(Rest(path), op)));
    } else if op.FileTask? {
      var files := Put(n.state.files, path, op.task(Get(n.state.files, path)));
      AddKidShaped(n, files, First(path), c.promoted);
    } else {
      AddKidShaped(n, n.state.files, path, State(Extract(n.state.files, path), map[]));
    }
  }

  lemma AddKidShaped(n: Actor, files: map<Path, FileRef>, name: Path, child: State)
    requires Shaped(n) && n.boot.Running? && n.phase.Idle?
    ensures var n' := AddKid(n.(state := n.state.(files := files)), name, child);
            Shaped(n') && Shaped(n'.(dirty := true))
    ensures Shaped(n.(state := n.state.(files := files), dirty := true))
  {
    var n1 := n.(state := State(Without(files, name), n.state.dirs[name := Zero]));
    PutKidShaped(n1, name, Spawn(WithState(child)));
    PutKidShaped(n1.(dirty := true), name, Spawn(WithState(child)));
  }

  lemma BeginShaped(n: Actor, isRoot: bool)
    requires Shaped(n) && n.boot.Running?
    ensures Shaped(BeginSave(n, isRoot).actor)
  {
    forall k | k in n.kids { SendShaped(n.kids[k], SaveIfDirty); }
  }

  lemma OwnStepShaped(n: Actor, isRoot: bool, store: set<State>, c: Choice)
    requires Shaped(n)
    ensures Shaped(OwnStep(n, isRoot, store, c).actor)
  {
    if n.boot.Running? && n.phase.Idle? && n.inbox != [] {
      var n1 := n.(inbox := n.inbox[1..]);
      PopShaped(n);
      match n.inbox[0]
      case PathOp(path, op) => HandlePathOpShaped(n1, path, op, c);
      case MarkAsDirty => SameShape(n1, MarkDirty(n1, {}).actor);
      case UpdateHash(name, hash) => SameShape(n1, HandleUpdate(n1, name, hash).actor);
      case SaveIfDirty => BeginShaped(n1, isRoot);
    } else if n.boot.Running? && n.phase.Saving? {
      SameShape(n, FinishSave(n, n.phase.replies).actor);
    }
  }

  lemma PopShaped(n: Actor)
    requires Shaped(n) && n.inbox != []
    ensures Shaped(n.(inbox := n.inbox[1..]))
  {
    assert forall i :: 0 <= i < |n.inbox[1..]| ==> n.inbox[1..][i] == n.inbox[i + 1];
  }

  lemma SameShape(n: Actor, n': Actor)
    requires Shaped(n) && n.boot.Running? && n'.boot == n.boot && n'.kids == n.kids && n'.inbox == n.inbox
    requires n'.state.dirs.Keys == n.state.dirs.Keys && (n'.phase == n.phase || n'.phase.Idle?)
    ensures Shaped(n')
  {}

  lemma {:induction false} StepAtShaped(n: Actor, isRoot: bool, at: seq<Path>, store: set<State>, c: Choice)
    requires Shaped(n)
    ensures Shaped(StepAt(n, isRoot, at, store, c).actor)
    decreases at
  {
    if at == [] {
      OwnStepShaped(n, isRoot, store, c);
    } else if at[0] in n.kids {
      StepAtShaped(n.kids[at[0]], false, at[1..], store, c);
      var r := StepAt(n.kids[at[0]], false, at[1..], store, c);
      var n1 := n.(kids := n.kids[at[0] := r.actor]);
      PutKidShaped(n, at[0], r.actor);
      if r.up.Dirtied? {
        SendShaped(n1, MarkAsDirty);
      } else if r.up.Announce? {
        SendShaped(n1, UpdateHash(at[0], r.up.hash));
      }
    }
  }

  // --------------------------------------------------- no dangling references

  /** Following `h` never leads to a state that is not stored; it may lead to
      the placeholder, which does not load. */
  ghost predicate Anchored(store: set<State>, h: DirHash) {
    h.Of? ==> h.content in store && AllAnchored(store, h.content)
  }

  ghost predicate AllAnchored(store: set<State>, s: State) {
    forall k :: k in s.dirs ==> Anchored(store, s.dirs[k])
  }

  lemma {:induction false} AnchoredMono(store: set<State>, store': set<State>, h: DirHash)
    requires Anchored(store, h) && store <= store'
    ensures Anchored(store', h)
  {
    if h.Of? {
      forall k | k in h.content.dirs { AnchoredMono(store, store', h.content.dirs[k]); }
    }
  }

  lemma {:induction false} LoadableIsAnchored(store: set<State>, h: DirHash)
    requires Loadable(store, h)
    ensures Anchored(store, h)
  {
    forall k | k in h.content.dirs { LoadableIsAnchored(store, h.content.dirs[k]); }
  }

  /** An anchored reference does not begin to load when the store grows. */
  lemma {:induction false} AnchoredLoads(store: set<State>, store': set<State>, h: DirHash)
    requires Anchored(store, h) && Loadable(store', h)
    ensures Loadable(store, h)
  {
    forall k | k in h.content.dirs { AnchoredLoads(store, store', h.content.dirs[k]); }
  }

  ghost predicate MsgAnchored(store: set<State>, m: Msg) {
    m.UpdateHash? ==> Anchored(store, m.hash)
  }

  ghost predicate ReplyAnchored(store: set<State>, reply: Option<DirHash>) {
    reply.Some? ==> Anchored(store, reply.value)
  }

  /** Every hash an actor or its children hold or have been sent is anchored. */
  ghost predicate Rooted(n: Actor, store: set<State>) {
    && AllAnchored(store, n.state)
    && (n.boot.WithState? ==> AllAnchored(store, n.boot.initial))
    && (n.boot.FromHash? ==> Anchored(store, n.boot.hash))
    && (forall i :: 0 <= i < |n.inbox| ==> MsgAnchored(store, n.inbox[i]))
    && (n.phase.Saving? ==> forall k :: k in n.phase.replies ==> ReplyAnchored(store, n.phase.replies[k]))
    && (forall k :: k in n.kids ==> Rooted(n.kids[k], store))
  }

  lemma {:induction false} RootedMono(n: Actor, store: set<State>, store': set<State>)
    requires Rooted(n, store) && store <= store'
    ensures Rooted(n, store')
  {
    forall h | Anchored(store, h) { AnchoredMono(store, store', h); }
    forall k | k in n.kids { RootedMono(n.kids[k], store, store'); }
  }

  ghost predicate UpAnchored(store: set<State>, up: Up) {
    && (up.Announce? ==> Anchored(store, up.hash))
    && (up.Reply? ==> ReplyAnchored(store, up.saved))
  }

  /** A step's result, in the store it leaves. */
  ghost predicate RootedEffect(r: Effect, store: set<State>) {
    Rooted(r.actor, store + r.blobs) && UpAnchored(store + r.blobs, r.up)
  }

  lemma SendRooted(n: Actor, m: Msg, store: set<State>)
    requires Rooted(n, store) && MsgAnchored(store, m)
    ensures Rooted(Send(n, m), store)
  {}

  lemma PutKidRooted(n: Actor, name: Path, kid: Actor, store: set<State>)
    requires Rooted(n, store) && Rooted(kid, store)
    ensures Rooted(n.(kids := n.kids[name := kid]), store)
  {}

  /** Other files, dirt and fewer messages do not matter. */
  lemma PartsRooted(n: Actor, n': Actor, store: set<State>)
    requires Rooted(n, store) && n'.boot == n.boot && n'.kids == n.kids && AllAnchored(store, n'.state)
    requires n'.phase == n.phase || n'.phase.Idle? || n'.phase == Saving(map[])
    requires forall i :: 0 <= i < |n'.inbox| ==> MsgAnchored(store, n'.inbox[i])
    ensures Rooted(n', store)
  {}

  lemma AddKidRooted(n: Actor, files: map<Path, FileRef>, name: Path, child: State, store: set<State>)
    requires Rooted(n, store) && AllAnchored(store, child)
    ensures var n' := AddKid(n.(state := n.state.(files := files)), name, child);
            Rooted(n', store) && Rooted(n'.(dirty := true), store)
  {
    var n1 := n.(state := State(Without(files, name), n.state.dirs[name := Zero]));
    PartsRooted(n, n1, store);
    PartsRooted(n, n1.(dirty := true), store);
    assert Rooted(Spawn(WithState(child)), store);
    PutKidRooted(n1, name, Spawn(WithState(child)), store);
    PutKidRooted(n1.(dirty := true), name, Spawn(WithState(child)), store);
  }

  lemma PathOpRooted(n: Actor, path: Path, op: Op, store: set<State>, c: Choice)
    requires Rooted(n, store)
    requires op.FileTask? && First(path) !in n.state.dirs &&
             Promotes(Put(n.state.files, path, op.task(Get(n.state.files, path))), path) ==>
               RefsLoad(store + c.blobs, c.promoted)
    ensures RootedEffect(HandlePathOp(n, path, op, c), store)
  {
    var r := HandlePathOp(n, path, op, c);
    RootedMono(n, store, store + r.blobs);
    if First(path) in n.state.dirs {
      var kid := if First(path) in n.kids then n.kids[First(path)] else Spawn(FromHash(n.state.dirs[First(path)]));
      SendRooted(kid, PathOp(Rest(path), op), store + r.blobs);
      PutKidRooted(n, First(path), Send(kid, PathOp(Rest(path), op)), store + r.blobs);
    } else if op.FileTask? {
      TaskRooted(n, path, op.task, store, c);
    } else {
      AddKidRooted(n, n.state.files, path, State(Extract(n.state.files, path), map[]), store + r.blobs);
    }
  }

  lemma TaskRooted(n: Actor, path: Path, task: Task, store: set<State>, c: Choice)
    requires Rooted(n, store)
    requires Promotes(Put(n.state.files, path, task(Get(n.state.files, path))), path) ==>
               RefsLoad(store + c.blobs, c.promoted)
    ensures RootedEffect(RunTask(n, path, task, c), store)
  {
    var r := RunTask(n, path, task, c);
    var value := task(Get(n.state.files, path));
    var files := Put(n.state.files, path, value);
    RootedMono(n, store, store + r.blobs);
    if value.Some? && Promotes(files, path) {
      forall k | k in c.promoted.dirs { LoadableIsAnchored(store + c.blobs, c.promoted.dirs[k]); }
      AddKidRooted(n, files, First(path), c.promoted, store + r.blobs);
    } else {
      PartsRooted(n, r.actor, store + r.blobs);
    }
  }

  lemma FinishRooted(n: Actor, store: set<State>)
    requires Rooted(n, store) && n.phase.Saving?
    ensures RootedEffect(FinishSave(n, n.phase.replies), store)
  {
    var r := FinishSave(n, n.phase.replies);
    RootedMono(n, store, store + r.blobs);
    forall k | k in r.actor.state.dirs
      ensures Anchored(store + r.blobs, r.actor.state.dirs[k])
    {
      assert k in n.phase.replies ==> ReplyAnchored(store + r.blobs, n.phase.replies[k]);
    }
    PartsRooted(n, r.actor, store + r.blobs);
  }

  lemma BeginRooted(n: Actor, isRoot: bool, store: set<State>)
    requires Rooted(n, store)
    ensures RootedEffect(BeginSave(n, isRoot), store)
  {
    assert store + {} == store;
    forall k | k in n.kids { SendRooted(n.kids[k], SaveIfDirty, store); }
  }

  lemma StartRooted(n: Actor, store: set<State>)
    requires Rooted(n, store)
    ensures RootedEffect(Start(n, store), store)
  {
    var r := Start(n, store);
    RootedMono(n, store, store + r.blobs);
  }

  lemma OwnStepRooted(n: Actor, isRoot: bool, store: set<State>, c: Choice)
    requires Rooted(n, store) && GoodChoice(n, store, c)
    ensures RootedEffect(OwnStep(n, isRoot, store, c), store)
  {
    assert store + {} == store;
    if !n.boot.Running? {
      StartRooted(n, store);
    } else if n.phase.Saving? {
      FinishRooted(n, store);
    } else if n.inbox != [] {
      var n1 := n.(inbox := n.inbox[1..]);
      PartsRooted(n, n1, store);
      match n.inbox[0]
      case PathOp(path, op) => PathOpRooted(n1, path, op, store, c);
      case MarkAsDirty => PartsRooted(n1, MarkDirty(n1, {}).actor, store);
      case UpdateHash(name, hash) =>
        assert MsgAnchored(store, n.inbox[0]);
        PartsRooted(n1, HandleUpdate(n1, name, hash).actor, store);
      case SaveIfDirty => BeginRooted(n1, isRoot, store);
    }
  }

  lemma ReceiveRooted(n: Actor, name: Path, up: Up, store: set<State>)
    requires Rooted(n, store) && UpAnchored(store, up)
    ensures Rooted(Receive(n, name, up), store)
  {
    match up
    case Quiet =>
    case Dirtied => SendRooted(n, MarkAsDirty, store);
    case Announce(h) => SendRooted(n, UpdateHash(name, h), store);
    case Reply(h) =>
  }

  lemma {:induction false} StepAtRooted(n: Actor, isRoot: bool, at: seq<Path>, store: set<State>, c: Choice)
    requires Rooted(n, store) && GoodChoiceAt(n, at, store, c)
    ensures RootedEffect(StepAt(n, isRoot, at, store, c), store)
    decreases at
  {
    assert store + {} == store;
    if at == [] {
      OwnStepRooted(n, isRoot, store, c);
    } else if at[0] in n.kids {
      var r := StepAt(n.kids[at[0]], false, at[1..], store, c);
      StepAtRooted(n.kids[at[0]], false, at[1..], store, c);
      RootedMono(n, store, store + r.blobs);
      PutKidRooted(n, at[0], r.actor, store + r.blobs);
      ReceiveRooted(n.(kids := n.kids[at[0] := r.actor]), at[0], r.up, store + r.blobs);
    }
  }
}
