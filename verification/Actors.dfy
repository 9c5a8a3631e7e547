/** Directory actors and their mailboxes. Each actor owns one directory state
    and serves its messages in order; a child tells its parent that it became
    dirty or under what hash it first saved itself. Saving is a message too: an
    actor passes it on to its children and serves nothing else until all of
    them have answered, while they go on working through their own mailboxes. */
module Actors {
  import opened Entries
  import opened DirStates
  import Promotion

  datatype Op = FileTask(task: Task) | CreateDir

  datatype Msg =
    | PathOp(path: Path, op: Op)
    | MarkAsDirty
    | UpdateHash(name: Path, hash: DirHash)
    | SaveIfDirty

  /** A spawned actor first saves the state it was given or loads its hash. */
  datatype Boot = WithState(initial: State) | FromHash(hash: DirHash) | Running

  /** The answers of the children an actor is waiting for. */
  datatype Phase = Idle | Saving(replies: map<Path, Option<DirHash>>)

  /** `kids` are the children with an open handle, by name. */
  datatype Actor = Actor(boot: Boot, state: State, dirty: bool, kids: map<Path, Actor>, inbox: seq<Msg>, phase: Phase)

  /** What an actor sends its parent in one step. */
  datatype Up = Quiet | Dirtied | Announce(hash: DirHash) | Reply(saved: Option<DirHash>)

  datatype Effect = Effect(actor: Actor, up: Up, blobs: set<State>)

  function Spawn(boot: Boot): Actor {
    Actor(boot, EMPTY_STATE, false, map[], [], Idle)
  }

  // ------------------------------------------------------ one actor's step

  function MarkDirty(n: Actor, blobs: set<State>): Effect {
    if n.dirty then Effect(n, Quiet, blobs) else Effect(n.(dirty := true), Dirtied, blobs)
  }

  /** `create_dir_at` and `promote_prefix`: the child gets its files as initial
      state and a placeholder hash until it has saved. */
  function AddKid(n: Actor, name: Path, child: State): Actor {
    n.(state := State(Without(n.state.files, name), n.state.dirs[name := Zero]),
       kids := n.kids[name := Spawn(WithState(child))])
  }

  predicate Promotes(files: map<Path, FileRef>, path: Path) {
    |path| > 1 && Promotion.IsBig(files, First(path))
  }

  function Send(n: Actor, m: Msg): Actor {
    n.(inbox := n.inbox + [m])
  }

  /** A child actor gets a message; it is opened from its hash if need be. */
  function Forward(n: Actor, name: Path, m: Msg): Actor
    requires name in n.state.dirs
  {
    var kid := if name in n.kids then n.kids[name] else Spawn(FromHash(n.state.dirs[name]));
    n.(kids := n.kids[name := Send(kid, m)])
  }

  /** A decision of the environment: the optimized state of a promoted child
      and the blobs its own children were stored under. */
  datatype Choice = Choice(promoted: State, blobs: set<State>)

  function RunTask(n: Actor, path: Path, task: Task, c: Choice): Effect {
    var value := task(Get(n.state.files, path));
    var files := Put(n.state.files, path, value);
    var n1 := n.(state := n.state.(files := files));
    if value.Some? && Promotes(files, path)
    then MarkDirty(AddKid(n1, First(path), c.promoted), c.blobs)
    else MarkDirty(n1, {})
  }

  function HandlePathOp(n: Actor, path: Path, op: Op, c: Choice): Effect {
    if First(path) in n.state.dirs then Effect(Forward(n, First(path), PathOp(Rest(path), op)), Quiet, {})
    else
      match op
      case FileTask(task) => RunTask(n, path, task, c)
      case CreateDir =>
        if path in n.state.dirs then Effect(n, Quiet, {})
        else MarkDirty(AddKid(n, path, State(Extract(n.state.files, path), map[])), {})
  }

  function HandleUpdate(n: Actor, name: Path, hash: DirHash): Effect {
    if name !in n.state.dirs || n.state.dirs[name] == hash then Effect(n, Quiet, {})
    else MarkDirty(n.(state := n.state.(dirs := n.state.dirs[name := hash])), {})
  }

  /** The start of `save_if_dirty`: a clean child answers at once; otherwise every
      open child is asked to save. The root always asks. */
  function BeginSave(n: Actor, isRoot: bool): Effect {
    if !n.dirty && !isRoot then Effect(n, Reply(None), {})
    else Effect(n.(phase := Saving(map[]), kids := map k | k in n.kids :: Send(n.kids[k], SaveIfDirty)), Quiet, {})
  }

  /** `process_msg`. */
  function Handle(n: Actor, m: Msg, isRoot: bool, c: Choice): Effect {
    match m
    case PathOp(path, op) => HandlePathOp(n, path, op, c)
    case MarkAsDirty => MarkDirty(n, {})
    case UpdateHash(name, hash) => HandleUpdate(n, name, hash)
    case SaveIfDirty => BeginSave(n, isRoot)
  }

  /** The first thing `run` does: save the given state and announce its hash,
      or load; an actor that cannot load never gets to its mailbox. */
  function Start(n: Actor, store: set<State>): Effect {
    match n.boot
    case WithState(s) => Effect(n.(boot := Running, state := s), Announce(Of(s)), {s})
    case FromHash(Of(s)) =>
      if s in store then Effect(n.(boot := Running, state := s), Quiet, {}) else Effect(n, Quiet, {})
    case _ => Effect(n, Quiet, {})
  }

  /** The reference to a child once its answer has been entered. */
  function RefAfter(dirs: map<Path, DirHash>, replies: map<Path, Option<DirHash>>, name: Path): DirHash
    requires name in dirs
  {
    if name in replies && replies[name].Some? then replies[name].value else dirs[name]
  }

  /** The end of `save_if_dirty`: the children's new hashes are entered, and the
      state is saved if it was dirty or changed. */
  function FinishSave(n: Actor, replies: map<Path, Option<DirHash>>): Effect {
    var state := State(n.state.files, map k | k in n.state.dirs :: RefAfter(n.state.dirs, replies, k));
    if n.dirty || state != n.state
    then Effect(n.(state := state, dirty := false, phase := Idle), Reply(Some(Of(state))), {state})
    else Effect(n.(phase := Idle), Reply(None), {})
  }

  function OwnStep(n: Actor, isRoot: bool, store: set<State>, c: Choice): Effect {
    if !n.boot.Running? then Start(n, store)
    else
      match n.phase
      case Saving(replies) => if replies.Keys == n.kids.Keys then FinishSave(n, replies) else Effect(n, Quiet, {})
      case Idle =>
        if n.inbox == [] then Effect(n, Quiet, {})
        else Handle(n.(inbox := n.inbox[1..]), n.inbox[0], isRoot, c)
  }

  function Receive(n: Actor, name: Path, up: Up): Actor {
    match up
    case Quiet => n
    case Dirtied => Send(n, MarkAsDirty)
    case Announce(h) => Send(n, UpdateHash(name, h))
    case Reply(h) => if n.phase.Saving? then n.(phase := Saving(n.phase.replies[name := h])) else n
  }

  /** A step of the actor reached through the children `at`. */
  function StepAt(n: Actor, isRoot: bool, at: seq<Path>, store: set<State>, c: Choice): Effect
    decreases at
  {
    if at == [] then OwnStep(n, isRoot, store, c)
    else if at[0] !in n.kids then Effect(n, Quiet, {})
    else
      var r := StepAt(n.kids[at[0]], false, at[1..], store, c);
      Effect(Receive(n.(kids := n.kids[at[0] := r.actor]), at[0], r.up), Quiet, r.blobs)
  }

  /** The loop that enters the answers, in whatever order they are kept. */
  method EnterReplies(n: Actor, replies: map<Path, Option<DirHash>>) returns (r: Effect)
    ensures r == FinishSave(n, replies)
  {
    var dirs, dirty := n.state.dirs, n.dirty;
    var todo := replies.Keys;
    while todo != {}
      invariant todo <= replies.Keys && dirs.Keys == n.state.dirs.Keys
      invariant forall k :: k in dirs ==>
                  dirs[k] == if k in todo then n.state.dirs[k] else RefAfter(n.state.dirs, replies, k)
      invariant dirty <==> n.dirty || dirs != n.state.dirs
      decreases todo
    {
      var name :| name in todo;
      todo := todo - {name};
      if replies[name].Some? && name in dirs && dirs[name] != replies[name].value {
        dirs := dirs[name := replies[name].value];
        dirty := true;
      }
    }
    assert dirs == map k | k in n.state.dirs :: RefAfter(n.state.dirs, replies, k);
    var state := State(n.state.files, dirs);
    if dirty {
      r := Effect(n.(state := state, dirty := false, phase := Idle), Reply(Some(Of(state))), {state});
    } else {
      r := Effect(n.(phase := Idle), Reply(None), {});
    }
  }

  // ------------------------------------------------- trees, and what loads

  datatype Tree = Tree(files: map<Path, FileRef>, dirs: map<Path, Tree>)

  /** The directory tree a hash stands for. */
  function TreeOf(h: DirHash): Tree {
    match h
    case Zero => Tree(map[], map[])
    case Of(s) => Tree(s.files, map k | k in s.dirs :: TreeOf(s.dirs[k]))
  }

  /** The tree the actors hold in memory. */
  function Memory(n: Actor): Tree {
    match n.boot
    case WithState(s) => TreeOf(Of(s))
    case FromHash(h) => TreeOf(h)
    case Running =>
      Tree(n.state.files,
           map k | k in n.state.dirs :: if k in n.kids then Memory(n.kids[k]) else TreeOf(n.state.dirs[k]))
  }

  lemma MemoryIs(n: Actor, m: map<Path, Tree>)
    requires n.boot.Running? && m.Keys == n.state.dirs.Keys
    requires forall k :: k in m ==> m[k] == if k in n.kids then Memory(n.kids[k]) else TreeOf(n.state.dirs[k])
    ensures Memory(n) == Tree(n.state.files, m)
  {
    assert Memory(n).dirs == m;
  }

  /** Loading `h` from the store, and every directory below it, succeeds. */
  ghost predicate Loadable(store: set<State>, h: DirHash) {
    && h.Of? && h.content in store
    && forall k :: k in h.content.dirs ==> Loadable(store, h.content.dirs[k])
  }

  /** Every directory below `s` loads. */
  ghost predicate RefsLoad(store: set<State>, s: State) {
    forall k :: k in s.dirs ==> Loadable(store, s.dirs[k])
  }

  lemma {:induction false} LoadableMono(store: set<State>, store': set<State>, h: DirHash)
    requires Loadable(store, h) && store <= store'
    ensures Loadable(store', h)
  {
    forall k | k in h.content.dirs
      ensures Loadable(store', h.content.dirs[k])
    {
      LoadableMono(store, store', h.content.dirs[k]);
    }
  }

  /** Two loadable hashes that stand for the same tree are the same hash. */
  lemma {:induction false} TreeOfInjective(store: set<State>, h: DirHash, h': DirHash)
    requires Loadable(store, h) && Loadable(store, h') && TreeOf(h) == TreeOf(h')
    ensures h == h'
  {
    var s, s' := h.content, h'.content;
    assert s.dirs.Keys == TreeOf(h).dirs.Keys == TreeOf(h').dirs.Keys == s'.dirs.Keys;
    forall k | k in s.dirs
      ensures s.dirs[k] == s'.dirs[k]
    {
      assert TreeOf(h).dirs[k] == TreeOf(s.dirs[k]) && TreeOf(h').dirs[k] == TreeOf(s'.dirs[k]);
      TreeOfInjective(store, s.dirs[k], s'.dirs[k]);
    }
    assert s.dirs == s'.dirs;
  }
}
