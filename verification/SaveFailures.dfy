/** Runs from a freshly loaded, empty root in which a save begins at a bad time:
    what it publishes does not load, or is not what is in memory. */
module SaveFailures {
  import opened Entries
  import opened DirStates
  import opened Actors
  import opened SaveProtocol
  import opened ActorShape
  import opened SaveWalk
  import opened SaveRuns

  const OUTER: Path := ["outer"]
  const INNER: Path := ["inner"]
  const FILE: Path := ["file"]

  const NO_CHOICE := Choice(EMPTY_STATE, {})

  function Go(at: seq<Path>): Event {
    Step(at, NO_CHOICE)
  }

  /** Some run leads from `y` to `y'`. */
  ghost predicate Reaches(y: System, y': System) {
    exists es :: Run(y, es) == y'
  }

  lemma ReachSelf(y: System)
    ensures Reaches(y, y)
  {
    assert Run(y, []) == y;
  }

  lemma ReachStep(y0: System, y: System, e: Event, y': System)
    requires Reaches(y0, y) && Next(y, e) == y'
    ensures Reaches(y0, y')
  {
    var es :| Run(y0, es) == y;
    assert (es + [e])[..|es|] == es;
    assert Run(y0, es + [e]) == y';
  }

  /** A step of the tree below the root, or of the root itself. */
  lemma ReachGo(y0: System, y: System, at: seq<Path>, r: Effect, y': System)
    requires Reaches(y0, y) && StepAt(y.root, true, at, y.store, NO_CHOICE) == r
    requires y'.root == r.actor && y'.store == y.store + r.blobs
    requires y'.disk == if r.up.Reply? && r.up.saved.Some? &&
      r.up.saved.value.Of? then r.up.saved.value.content else y.disk
    ensures Reaches(y0, y')
  {
    ReachStep(y0, y, Go(at), y');
  }

  /** A message of a client. */
  lemma ReachMail(y0: System, y: System, e: Event, m: Msg, inbox: seq<Msg>)
    requires Reaches(y0, y) && inbox == y.root.inbox + [m]
    requires (e == RequestSave && m == SaveIfDirty) || (m.PathOp? && e == Client(m.path, m.op))
    ensures Reaches(y0, y.(root := y.root.(inbox := inbox)))
  {
    ReachStep(y0, y, e, y.(root := y.root.(inbox := inbox)));
  }

  // ------------------------------------- steps of actors with one child each

  function OneDir(name: Path, ref: DirHash): State {
    State(map[], map[name := ref])
  }

  /** A running actor with one child directory, whose actor is open. */
  function WithChild(name: Path, ref: DirHash, dirty: bool, kid: Actor, inbox: seq<Msg>, phase: Phase): Actor {
    Actor(Running, OneDir(name, ref), dirty, map[name := kid], inbox, phase)
  }

  /** A running actor without children. */
  function Childless(state: State, dirty: bool, inbox: seq<Msg>): Actor {
    Actor(Running, state, dirty, map[], inbox, Idle)
  }

  function OneFile(file: FileRef): State {
    State(map[FILE := file], map[])
  }

  /** The closure of a put. */
  function PutOf(file: FileRef): Op {
    FileTask(_ => Some(file))
  }

  /** A child that has been created and has not started. */
  function Newborn(inbox: seq<Msg>): Actor {
    Actor(WithState(EMPTY_STATE), EMPTY_STATE, false, map[], inbox, Idle)
  }

  lemma StepCreate(name: Path, dirty: bool, rest: seq<Msg>, isRoot: bool, store: set<State>)
    requires |name| == 1
    ensures OwnStep(Childless(EMPTY_STATE, dirty, [PathOp(name, CreateDir)] + rest), isRoot, store, NO_CHOICE) ==
            Effect(WithChild(name, Zero, true, Newborn([]), rest, Idle), if dirty then Quiet else Dirtied, {})
  {
    assert ([PathOp(name, CreateDir)] + rest)[1..] == rest;
    assert Extract(EMPTY_STATE.files, name) == map[] && Without(EMPTY_STATE.files, name) == map[];
  }

  lemma StepAsk(name: Path, ref: DirHash, dirty: bool, kid: Actor, rest: seq<Msg>, isRoot: bool, store: set<State>)
    requires dirty || isRoot
    ensures OwnStep(WithChild(name, ref, dirty, kid, [SaveIfDirty] + rest, Idle), isRoot, store, NO_CHOICE) ==
            Effect(WithChild(name, ref, dirty, Send(kid, SaveIfDirty), rest, Saving(map[])), Quiet, {})
  {
    assert ([SaveIfDirty] + rest)[1..] == rest;
    var kids := map[name := kid];
    assert (map k | k in kids :: Send(kids[k], SaveIfDirty)) == map[name := Send(kid, SaveIfDirty)];
  }

  lemma StepStart(inbox: seq<Msg>, store: set<State>)
    ensures OwnStep(Newborn(inbox), false, store, NO_CHOICE) ==
            Effect(Childless(EMPTY_STATE, false, inbox), Announce(Of(EMPTY_STATE)), {EMPTY_STATE})
  {}

  lemma StepDecline(state: State, store: set<State>)
    ensures OwnStep(Childless(state, false, [SaveIfDirty]), false, store, NO_CHOICE) ==
            Effect(Childless(state, false, []), Reply(None), {})
  {}

  lemma StepFinish(name: Path, ref: DirHash, kid: Actor, inbox: seq<Msg>, reply: Option<DirHash>, isRoot: bool,
                   store: set<State>)
    ensures var ref' := if reply.Some? then reply.value else ref;
            OwnStep(WithChild(name, ref, true, kid, inbox, Saving(map[name := reply])), isRoot, store, NO_CHOICE) ==
            Effect(WithChild(name, ref', false, kid, inbox, Idle), Reply(Some(Of(OneDir(name, ref')))),
                   {OneDir(name, ref')})
  {
    var ref' := if reply.Some? then reply.value else ref;
    var dirs := map[name := ref];
    assert (map k | k in dirs :: RefAfter(dirs, map[name := reply], k)) == map[name := ref'];
  }

  /** An operation below the child is passed on to it. */
  lemma StepForward(name: Path, p: Path, op: Op, ref: DirHash, dirty: bool, kid: Actor, rest: seq<Msg>, isRoot: bool,
                    store: set<State>)
    requires |name| == 1
    ensures OwnStep(WithChild(name, ref, dirty, kid, [PathOp(name + p, op)] + rest, Idle), isRoot, store, NO_CHOICE) ==
            Effect(WithChild(name, ref, dirty, Send(kid, PathOp(p, op)), rest, Idle), Quiet, {})
  {
    assert ([PathOp(name + p, op)] + rest)[1..] == rest;
    assert First(name + p) == name && Rest(name + p) == p;
    assert map[name := kid][name := Send(kid, PathOp(p, op))] == map[name := Send(kid, PathOp(p, op))];
  }

  lemma StepUpdate(name: Path, ref: DirHash, h: DirHash, dirty: bool, kid: Actor, rest: seq<Msg>, isRoot: bool,
                   store: set<State>)
    requires dirty || h != ref
    ensures OwnStep(WithChild(name, ref, dirty, kid, [UpdateHash(name, h)] + rest, Idle), isRoot, store, NO_CHOICE) ==
            Effect(WithChild(name, h, true, kid, rest, Idle), if dirty then Quiet else Dirtied, {})
  {
    assert ([UpdateHash(name, h)] + rest)[1..] == rest;
    assert map[name := ref][name := h] == map[name := h];
  }

  lemma StepMark(name: Path, ref: DirHash, kid: Actor, isRoot: bool, store: set<State>)
    ensures OwnStep(WithChild(name, ref, true, kid, [MarkAsDirty], Idle), isRoot, store, NO_CHOICE) ==
            Effect(WithChild(name, ref, true, kid, [], Idle), Quiet, {})
  {
    assert [MarkAsDirty][1..] == [];
  }

  lemma StepFirstMark(name: Path, ref: DirHash, kid: Actor, store: set<State>)
    ensures OwnStep(WithChild(name, ref, false, kid, [MarkAsDirty], Idle), true, store, NO_CHOICE) ==
            Effect(WithChild(name, ref, true, kid, [], Idle), Dirtied, {})
  {
    assert [MarkAsDirty][1..] == [];
  }

  lemma StepPut(file: FileRef, store: set<State>)
    ensures OwnStep(Childless(EMPTY_STATE, false, [PathOp(FILE, PutOf(file))]), false, store, NO_CHOICE) ==
            Effect(Childless(OneFile(file), true, []), Dirtied, {})
  {}

  lemma StepSaveChildless(state: State, store: set<State>)
    ensures var asked := Actor(Running, state, true, map[], [], Saving(map[]));
            && OwnStep(Childless(state, true, [SaveIfDirty]), false, store, NO_CHOICE) == Effect(asked, Quiet, {})
            && OwnStep(asked, false, store, NO_CHOICE) ==
               Effect(Childless(state, false, []), Reply(Some(Of(state))), {state})
  {
    assert (map k | k in state.dirs :: RefAfter(state.dirs, map[], k)) == state.dirs;
  }

  /** A step of the child, seen from its parent. */
  lemma StepBelow(name: Path, ref: DirHash, dirty: bool, kid: Actor, inbox: seq<Msg>, phase: Phase, isRoot: bool,
                  at: seq<Path>, store: set<State>, r: Effect)
    requires StepAt(kid, false, at, store, NO_CHOICE) == r
    ensures StepAt(WithChild(name, ref, dirty, kid, inbox, phase), isRoot, [name] + at, store, NO_CHOICE) ==
            Effect(Receive(WithChild(name, ref, dirty, r.actor, inbox, phase), name, r.up), Quiet, r.blobs)
  {
    assert ([name] + at)[1..] == at;
    assert map[name := kid][name := r.actor] == map[name := r.actor];
  }

  /** The three ways in which a child's own step shows. */
  lemma KidMoves(name: Path, ref: DirHash, dirty: bool, kid: Actor, inbox: seq<Msg>, phase: Phase, isRoot: bool,
                 store: set<State>, kid': Actor, blobs: set<State>)
    requires OwnStep(kid, false, store, NO_CHOICE) == Effect(kid', Quiet, blobs)
    ensures StepAt(WithChild(name, ref, dirty, kid, inbox, phase), isRoot, [name], store, NO_CHOICE) ==
            Effect(WithChild(name, ref, dirty, kid', inbox, phase), Quiet, blobs)
  {
    assert [name] + [] == [name];
    StepBelow(name, ref, dirty, kid, inbox, phase, isRoot, [], store, Effect(kid', Quiet, blobs));
  }

  lemma KidTells(name: Path, ref: DirHash, dirty: bool, kid: Actor, inbox: seq<Msg>, phase: Phase, isRoot: bool,
                 store: set<State>, kid': Actor, up: Up, blobs: set<State>)
    requires OwnStep(kid, false, store, NO_CHOICE) == Effect(kid', up, blobs) && (up.Dirtied? || up.Announce?)
    ensures var m := if up.Dirtied? then MarkAsDirty else UpdateHash(name, up.hash);
            StepAt(WithChild(name, ref, dirty, kid, inbox, phase), isRoot, [name], store, NO_CHOICE) ==
            Effect(WithChild(name, ref, dirty, kid', inbox + [m], phase), Quiet, blobs)
  {
    assert [name] + [] == [name];
    StepBelow(name, ref, dirty, kid, inbox, phase, isRoot, [], store, Effect(kid', up, blobs));
  }

  lemma KidReplies(name: Path, ref: DirHash, dirty: bool, kid: Actor, inbox: seq<Msg>, isRoot: bool,
                   store: set<State>, kid': Actor, reply: Option<DirHash>, blobs: set<State>)
    requires OwnStep(kid, false, store, NO_CHOICE) == Effect(kid', Reply(reply), blobs)
    ensures StepAt(WithChild(name, ref, dirty, kid, inbox, Saving(map[])), isRoot, [name], store, NO_CHOICE) ==
            Effect(WithChild(name, ref, dirty, kid', inbox, Saving(map[name := reply])), Quiet, blobs)
  {
    assert [name] + [] == [name];
    StepBelow(name, ref, dirty, kid, inbox, Saving(map[]), isRoot, [], store, Effect(kid', Reply(reply), blobs));
  }

  // -------------------------------- a directory created just before the save

  const BLANK: State := EMPTY_STATE
  const PLACEHOLDER: State := OneDir(INNER, Zero)
  const NEWS: seq<Msg> := [UpdateHash(INNER, Of(EMPTY_STATE))]
  const IDLE_CHILD: Actor := Childless(EMPTY_STATE, false, [])
  const FRESH := System(IDLE_CHILD, {}, BLANK)

  /** An actor that has just created `INNER` saves, in five stages. */
  const MOTHER := WithChild(INNER, Zero, true, Newborn([]), [SaveIfDirty], Idle)
  const ASKING := WithChild(INNER, Zero, true, Newborn([SaveIfDirty]), [], Saving(map[]))
  const TOLD := WithChild(INNER, Zero, true, Childless(BLANK, false, [SaveIfDirty]), NEWS, Saving(map[]))
  const ANSWERED := WithChild(INNER, Zero, true, IDLE_CHILD, NEWS, Saving(map[INNER := None]))
  const DANGLING := WithChild(INNER, Zero, false, IDLE_CHILD, NEWS, Idle)

  lemma MotherAsks(isRoot: bool, store: set<State>)
    ensures OwnStep(MOTHER, isRoot, store, NO_CHOICE) == Effect(ASKING, Quiet, {})
  {
    StepAsk(INNER, Zero, true, Newborn([]), [], isRoot, store);
    assert Send(Newborn([]), SaveIfDirty) == Newborn([SaveIfDirty]);
    assert [SaveIfDirty] + [] == [SaveIfDirty];
  }

  lemma ChildStarts(isRoot: bool, store: set<State>)
    ensures StepAt(ASKING, isRoot, [INNER], store, NO_CHOICE) == Effect(TOLD, Quiet, {BLANK})
  {
    StepStart([SaveIfDirty], store);
    KidTells(INNER, Zero, true, Newborn([SaveIfDirty]), [], Saving(map[]), isRoot, store,
             Childless(BLANK, false, [SaveIfDirty]), Announce(Of(BLANK)), {BLANK});
    assert [] + NEWS == NEWS;
  }

  lemma ChildDeclines(isRoot: bool, store: set<State>)
    ensures StepAt(TOLD, isRoot, [INNER], store, NO_CHOICE) == Effect(ANSWERED, Quiet, {})
  {
    StepDecline(BLANK, store);
    KidReplies(INNER, Zero, true, Childless(BLANK, false, [SaveIfDirty]), NEWS, isRoot, store, IDLE_CHILD, None, {});
  }

  lemma MotherSaves(isRoot: bool, store: set<State>)
    ensures OwnStep(ANSWERED, isRoot, store, NO_CHOICE) ==
            Effect(DANGLING, Reply(Some(Of(PLACEHOLDER))), {PLACEHOLDER})
  {
    StepFinish(INNER, Zero, IDLE_CHILD, NEWS, None, isRoot, store);
  }

  /** A fresh root is asked to create a directory; `rest` has arrived since. */
  lemma CreateAtRoot(name: Path, rest: seq<Msg>)
    requires |name| == 1
    requires Reaches(FRESH, System(Childless(BLANK, false, [PathOp(name, CreateDir)] + rest), {}, BLANK))
    ensures Reaches(FRESH, System(WithChild(name, Zero, true, Newborn([]), rest, Idle), {}, BLANK))
  {
    var none: set<State> := {};
    assert none + {} == none;
    var n, n' := Childless(BLANK, false, [PathOp(name, CreateDir)] + rest),
      WithChild(name, Zero, true, Newborn([]), rest, Idle);
    StepCreate(name, false, rest, true, {});
    ReachGo(FRESH, System(n, {}, BLANK), [], Effect(n', Dirtied, {}), System(n', {}, BLANK));
  }

  lemma CreateRequested(name: Path)
    ensures Reaches(FRESH, System(Childless(BLANK, false, [PathOp(name, CreateDir)]), {}, BLANK))
  {
    ReachSelf(FRESH);
    assert [] + [PathOp(name, CreateDir)] == [PathOp(name, CreateDir)];
    ReachMail(FRESH, FRESH, Client(name, CreateDir), PathOp(name, CreateDir), [PathOp(name, CreateDir)]);
  }

  lemma MotherIsReached()
    ensures Reaches(FRESH, System(MOTHER, {}, BLANK))
  {
    var y := System(Childless(BLANK, false, [PathOp(INNER, CreateDir)]), {}, BLANK);
    var inbox := [PathOp(INNER, CreateDir)] + [SaveIfDirty];
    CreateRequested(INNER);
    ReachMail(FRESH, y, RequestSave, SaveIfDirty, inbox);
    assert y.(root := y.root.(inbox := inbox)) == System(Childless(BLANK, false, inbox), {}, BLANK);
    CreateAtRoot(INNER, [SaveIfDirty]);
  }

  lemma MotherReaches()
    ensures Reaches(System(MOTHER, {}, BLANK), System(DANGLING, {BLANK, PLACEHOLDER}, PLACEHOLDER))
  {
    var y0 := System(MOTHER, {}, BLANK);
    var none: set<State> := {};
    assert none + {} == none && none + {BLANK} == {BLANK} && {BLANK} + {} == {BLANK};
    assert {BLANK} + {PLACEHOLDER} == {BLANK, PLACEHOLDER};
    ReachSelf(y0);
    MotherAsks(true, {});
    ReachGo(y0, y0, [], Effect(ASKING, Quiet, {}), System(ASKING, {}, BLANK));
    ChildStarts(true, {});
    ReachGo(y0, System(ASKING, {}, BLANK), [INNER], Effect(TOLD, Quiet, {BLANK}), System(TOLD, {BLANK}, BLANK));
    ChildDeclines(true, {BLANK});
    ReachGo(y0, System(TOLD, {BLANK}, BLANK), [INNER], Effect(ANSWERED, Quiet, {}), System(ANSWERED, {BLANK}, BLANK));
    MotherSaves(true, {BLANK});
    ReachGo(y0, System(ANSWERED, {BLANK}, BLANK), [], Effect(DANGLING, Reply(Some(Of(PLACEHOLDER))), {PLACEHOLDER}),
            System(DANGLING, {BLANK, PLACEHOLDER}, PLACEHOLDER));
  }

  /** Creating a directory and saving right away: the new actor answers the save
      before its parent has read its announcement, so the root is published with
      the placeholder hash and cannot be reloaded. */
  lemma CreateThenSave() returns (y: System, y': System)
    ensures Initial(FRESH) && Reaches(FRESH, y) && Begins(y, Go([])) && !KidsSettled(y.root)
    ensures Reaches(y, y') && y'.root.phase.Idle? && !RefsLoad(y'.store, y'.disk)
  {
    y, y' := System(MOTHER, {}, BLANK), System(DANGLING, {BLANK, PLACEHOLDER}, PLACEHOLDER);
    MotherIsReached();
    MotherReaches();
    assert !Settled(MOTHER.kids[INNER]);
    assert !Loadable(y'.store, PLACEHOLDER.dirs[INNER]);
  }

  // ------------------------------------ an operation waiting in a child's mail

  /** The root with the open child `OUTER`, which is in state `kid`. */
  function Top(ref: DirHash, dirty: bool, kid: Actor, inbox: seq<Msg>, phase: Phase): Actor {
    WithChild(OUTER, ref, dirty, kid, inbox, phase)
  }

  /** `OUTER` is open, clean and stored under the root's reference. */
  const OPEN := System(Top(Of(EMPTY_STATE), true, IDLE_CHILD, [], Idle), {EMPTY_STATE}, EMPTY_STATE)

  lemma OpenIsReached()
    ensures Reaches(FRESH, OPEN)
  {
    var none: set<State> := {};
    var inbox := [UpdateHash(OUTER, Of(BLANK))];
    assert none + {BLANK} == {BLANK} && {BLANK} + {} == {BLANK} && [] + inbox == inbox && inbox + [] == inbox;
    assert [PathOp(OUTER, CreateDir)] + [] == [PathOp(OUTER, CreateDir)];
    CreateRequested(OUTER);
    CreateAtRoot(OUTER, []);
    var newborn, told := Top(Zero, true, Newborn([]), [], Idle), Top(Zero, true, IDLE_CHILD, inbox, Idle);
    StepStart([], {});
    KidTells(OUTER, Zero, true, Newborn([]), [], Idle, true, {}, IDLE_CHILD, Announce(Of(BLANK)), {BLANK});
    ReachGo(FRESH, System(newborn, {}, BLANK), [OUTER], Effect(told, Quiet, {BLANK}), System(told, {BLANK}, BLANK));
    StepUpdate(OUTER, Zero, Of(BLANK), true, IDLE_CHILD, [], true, {BLANK});
    ReachGo(FRESH, System(told, {BLANK}, BLANK), [], Effect(OPEN.root, Quiet, {}), OPEN);
  }

  /** `OUTER` has been sent an operation of a client. */
  lemma SendBelow(y: System, ref: DirHash, kid: Actor, p: Path, op: Op)
    requires Reaches(FRESH, y) && y.root == Top(ref, true, kid, [], Idle)
    ensures Reaches(FRESH, y.(root := Top(ref, true, Send(kid, PathOp(p, op)), [], Idle)))
  {
    var inbox := [PathOp(OUTER + p, op)];
    assert [] + inbox == inbox && inbox + [] == inbox && y.store + {} == y.store;
    ReachMail(FRESH, y, Client(OUTER + p, op), PathOp(OUTER + p, op), inbox);
    var mid := Top(ref, true, kid, inbox, Idle);
    assert y.root.(inbox := inbox) == mid;
    StepForward(OUTER, p, op, ref, true, kid, [], true, y.store);
    ReachGo(FRESH, y.(root := mid), [], Effect(Top(ref, true, Send(kid, PathOp(p, op)), [], Idle), Quiet, {}),
            y.(root := Top(ref, true, Send(kid, PathOp(p, op)), [], Idle)));
  }

  /** A save has been requested, and then begun. */
  lemma AskBelow(y0: System, y: System, ref: DirHash, kid: Actor)
    requires Reaches(y0, y) && y.root == Top(ref, true, kid, [], Idle)
    ensures Reaches(y0, y.(root := Top(ref, true, kid, [SaveIfDirty], Idle)))
  {
    assert [] + [SaveIfDirty] == [SaveIfDirty];
    ReachMail(y0, y, RequestSave, SaveIfDirty, [SaveIfDirty]);
    assert y.root.(inbox := [SaveIfDirty]) == Top(ref, true, kid, [SaveIfDirty], Idle);
  }

  lemma BeginBelow(y0: System, y: System, ref: DirHash, kid: Actor)
    requires Reaches(y0, y) && y.root == Top(ref, true, kid, [SaveIfDirty], Idle)
    ensures Reaches(y0, y.(root := Top(ref, true, Send(kid, SaveIfDirty), [], Saving(map[]))))
  {
    assert [SaveIfDirty] + [] == [SaveIfDirty] && y.store + {} == y.store;
    StepAsk(OUTER, ref, true, kid, [], true, y.store);
    ReachGo(y0, y, [], Effect(Top(ref, true, Send(kid, SaveIfDirty), [], Saving(map[])), Quiet, {}),
            y.(root := Top(ref, true, Send(kid, SaveIfDirty), [], Saving(map[]))));
  }

  const QUEUE: seq<Msg> := [PathOp(INNER, CreateDir)]
  const WAITING := System(Top(Of(EMPTY_STATE), true, Childless(EMPTY_STATE, false, QUEUE), [SaveIfDirty], Idle),
                          {EMPTY_STATE}, EMPTY_STATE)

  lemma WaitingIsReached()
    ensures Reaches(FRESH, WAITING)
  {
    OpenIsReached();
    SendBelow(OPEN, Of(BLANK), IDLE_CHILD, INNER, CreateDir);
    assert Send(IDLE_CHILD, PathOp(INNER, CreateDir)) ==
      Childless(BLANK, false, QUEUE) by { assert [] + QUEUE == QUEUE; }
    AskBelow(FRESH, OPEN.(root := Top(Of(BLANK), true, Childless(BLANK, false, QUEUE), [], Idle)), Of(BLANK),
             Childless(BLANK, false, QUEUE));
  }

  /** The root waiting for `OUTER`, whose mark is in its mailbox. */
  function Watching(kid: Actor): System {
    System(Top(Of(EMPTY_STATE), true, kid, [MarkAsDirty], Saving(map[])), {EMPTY_STATE}, EMPTY_STATE)
  }

  lemma WaitingReachesMother()
    ensures Reaches(WAITING, Watching(MOTHER))
  {
    var kid, queued := Childless(BLANK, false, QUEUE), Childless(BLANK, false, QUEUE + [SaveIfDirty]);
    ReachSelf(WAITING);
    BeginBelow(WAITING, WAITING, Of(BLANK), kid);
    assert Send(kid, SaveIfDirty) == queued;
    var y := System(Top(Of(BLANK), true, queued, [], Saving(map[])), {BLANK}, BLANK);
    StepCreate(INNER, false, [SaveIfDirty], false, {BLANK});
    KidTells(OUTER, Of(BLANK), true, queued, [], Saving(map[]), true, {BLANK}, MOTHER, Dirtied, {});
    assert [] + [MarkAsDirty] == [MarkAsDirty] && {BLANK} + {} == {BLANK};
    ReachGo(WAITING, y, [OUTER], Effect(Watching(MOTHER).root, Quiet, {}), Watching(MOTHER));
  }

  /** A step of `OUTER` or of its own child that only changes `OUTER`. */
  lemma WatchGo(kid: Actor, at: seq<Path>, kid': Actor, blobs: set<State>)
    requires Reaches(WAITING, Watching(kid)) && blobs <= {EMPTY_STATE}
    requires StepAt(kid, false, at, {EMPTY_STATE}, NO_CHOICE) == Effect(kid', Quiet, blobs)
    ensures Reaches(WAITING, Watching(kid'))
  {
    assert {BLANK} + blobs == {BLANK};
    StepBelow(OUTER, Of(BLANK), true, kid, [MarkAsDirty], Saving(map[]), true, at, {BLANK}, Effect(kid', Quiet, blobs));
    ReachGo(WAITING, Watching(kid), [OUTER] + at, Effect(Watching(kid').root, Quiet, blobs), Watching(kid'));
  }

  lemma WaitingReachesAnswered()
    ensures Reaches(WAITING, Watching(ANSWERED))
  {
    WaitingReachesMother();
    MotherAsks(false, {BLANK});
    WatchGo(MOTHER, [], ASKING, {});
    ChildStarts(false, {BLANK});
    WatchGo(ASKING, [INNER], TOLD, {BLANK});
    ChildDeclines(false, {BLANK});
    WatchGo(TOLD, [INNER], ANSWERED, {});
  }

  /** What the root publishes: a directory below it refers to the placeholder. */
  function Misled(): System {
    System(Top(Of(PLACEHOLDER), false, DANGLING, [MarkAsDirty], Idle),
           {EMPTY_STATE} + {PLACEHOLDER} + {OneDir(OUTER, Of(PLACEHOLDER))}, OneDir(OUTER, Of(PLACEHOLDER)))
  }

  lemma WaitingReachesMisled()
    ensures Reaches(WAITING, Misled())
  {
    var replied := Top(Of(BLANK), true, DANGLING, [MarkAsDirty], Saving(map[OUTER := Some(Of(PLACEHOLDER))]));
    WaitingReachesAnswered();
    MotherSaves(false, {BLANK});
    KidReplies(OUTER, Of(BLANK), true, ANSWERED, [MarkAsDirty], true, {BLANK}, DANGLING, Some(Of(PLACEHOLDER)),
               {PLACEHOLDER});
    ReachGo(WAITING, Watching(ANSWERED), [OUTER], Effect(replied, Quiet, {PLACEHOLDER}),
            System(replied, {BLANK} + {PLACEHOLDER}, BLANK));
    StepFinish(OUTER, Of(BLANK), DANGLING, [MarkAsDirty], Some(Of(PLACEHOLDER)), true, {BLANK} + {PLACEHOLDER});
    ReachGo(WAITING, System(replied, {BLANK} + {PLACEHOLDER}, BLANK), [],
            Effect(Misled().root, Reply(Some(Of(Misled().disk))), {Misled().disk}), Misled());
  }

  /** An operation waiting in the mailbox of a clean open child: the child runs
      it before it serves the save, and publishes a directory that does not
      load. Nothing else was amiss when the save began. */
  lemma WaitingOperationDisturbs() returns (y: System, y': System)
    ensures Initial(FRESH) && Reaches(FRESH, y) && Begins(y, Go([]))
    ensures IdleInv(y.root, y.store, y.disk) && Sound(y.root, y.store) && NoUpdates(y.root.inbox)
    ensures y.root.kids == map[OUTER := Childless(BLANK, false, [PathOp(INNER, CreateDir)])]
    ensures Reaches(y, y') && y'.root.phase.Idle? && !RefsLoad(y'.store, y'.disk)
  {
    y, y' := WAITING, Misled();
    WaitingIsReached();
    WaitingReachesMisled();
    WaitingIsIdle();
    assert !Loadable(y'.store, Of(PLACEHOLDER)) by { assert !Loadable(y'.store, PLACEHOLDER.dirs[INNER]); }
    assert y'.disk.dirs[OUTER] == Of(PLACEHOLDER);
  }

  lemma WaitingIsIdle()
    ensures IdleInv(WAITING.root, WAITING.store, WAITING.disk) && Sound(WAITING.root, WAITING.store)
  {
    var n, kid := WAITING.root, Childless(BLANK, false, QUEUE);
    NotAnnounced(n.inbox, OUTER, Of(BLANK));
    assert Linked(n, OUTER, {BLANK});
    MemoryIs(kid, map[]);
    assert TreeOf(Of(BLANK)) == Tree(map[], map[]);
    assert SoundAt(n, OUTER, {BLANK});
  }

  // ---------------------------------------- an announcement read after a save

  const LATE: seq<Msg> := [UpdateHash(INNER, Of(EMPTY_STATE)), MarkAsDirty]

  /** An actor with the new child `INNER`, which has a put in its mailbox, has
      been asked to save. The child starts and runs the put; everything is
      saved; and only then does the actor read what the child had told it. */
  function Stocked(file: FileRef): Actor {
    WithChild(INNER, Zero, true, Newborn([PathOp(FILE, PutOf(file))]), [SaveIfDirty], Idle)
  }

  function Started(file: FileRef): Actor {
    WithChild(INNER, Zero, true, Childless(EMPTY_STATE, false, [PathOp(FILE, PutOf(file))]), [SaveIfDirty] + NEWS, Idle)
  }

  function Behind(file: FileRef): Actor {
    WithChild(INNER, Zero, true, Childless(OneFile(file), true, []), [SaveIfDirty] + LATE, Idle)
  }

  function Overtaking(kid: Actor, replies: map<Path, Option<DirHash>>): Actor {
    WithChild(INNER, Zero, true, kid, LATE, Saving(replies))
  }

  function SavingChild(file: FileRef): Actor {
    Actor(Running, OneFile(file), true, map[], [], Saving(map[]))
  }

  function Kept(file: FileRef): State {
    OneDir(INNER, Of(OneFile(file)))
  }

  function Saved(file: FileRef): Actor {
    WithChild(INNER, Of(OneFile(file)), false, Childless(OneFile(file), false, []), LATE, Idle)
  }

  function Stale(file: FileRef, dirty: bool, inbox: seq<Msg>): Actor {
    WithChild(INNER, Of(EMPTY_STATE), dirty, Childless(OneFile(file), false, []), inbox, Idle)
  }

  lemma StockedStarts(file: FileRef, isRoot: bool, store: set<State>)
    ensures StepAt(Stocked(file), isRoot, [INNER], store, NO_CHOICE) == Effect(Started(file), Quiet, {BLANK})
  {
    var put := [PathOp(FILE, PutOf(file))];
    StepStart(put, store);
    KidTells(INNER, Zero, true, Newborn(put), [SaveIfDirty], Idle, isRoot, store,
             Childless(BLANK, false, put), Announce(Of(BLANK)), {BLANK});
  }

  lemma StartedPuts(file: FileRef, isRoot: bool, store: set<State>)
    ensures StepAt(Started(file), isRoot, [INNER], store, NO_CHOICE) == Effect(Behind(file), Quiet, {})
  {
    StepPut(file, store);
    KidTells(INNER, Zero, true, Childless(BLANK, false, [PathOp(FILE, PutOf(file))]), [SaveIfDirty] + NEWS, Idle,
             isRoot, store, Childless(OneFile(file), true, []), Dirtied, {});
    assert ([SaveIfDirty] + NEWS) + [MarkAsDirty] == [SaveIfDirty] + LATE;
  }

  lemma BehindAsks(file: FileRef, isRoot: bool, store: set<State>)
    ensures OwnStep(Behind(file), isRoot, store, NO_CHOICE) ==
            Effect(Overtaking(Childless(OneFile(file), true, [SaveIfDirty]), map[]), Quiet, {})
  {
    var kid := Childless(OneFile(file), true, []);
    StepAsk(INNER, Zero, true, kid, LATE, isRoot, store);
    assert Send(kid, SaveIfDirty) == Childless(OneFile(file), true, [SaveIfDirty]);
  }

  lemma ChildBegins(file: FileRef, isRoot: bool, store: set<State>)
    ensures StepAt(Overtaking(Childless(OneFile(file), true, [SaveIfDirty]), map[]), isRoot, [INNER], store,
                   NO_CHOICE) ==
            Effect(Overtaking(SavingChild(file), map[]), Quiet, {})
  {
    StepSaveChildless(OneFile(file), store);
    KidMoves(INNER, Zero, true, Childless(OneFile(file), true, [SaveIfDirty]), LATE, Saving(map[]), isRoot, store,
             SavingChild(file), {});
  }

  lemma ChildSaves(file: FileRef, isRoot: bool, store: set<State>)
    ensures StepAt(Overtaking(SavingChild(file), map[]), isRoot, [INNER], store, NO_CHOICE) ==
            Effect(Overtaking(Childless(OneFile(file), false, []), map[INNER := Some(Of(OneFile(file)))]), Quiet,
                   {OneFile(file)})
  {
    StepSaveChildless(OneFile(file), store);
    KidReplies(INNER, Zero, true, SavingChild(file), LATE, isRoot, store, Childless(OneFile(file), false, []),
               Some(Of(OneFile(file))), {OneFile(file)});
  }

  lemma OvertakingSaves(file: FileRef, isRoot: bool, store: set<State>)
    ensures OwnStep(Overtaking(Childless(OneFile(file), false, []), map[INNER := Some(Of(OneFile(file)))]), isRoot,
                    store, NO_CHOICE) ==
            Effect(Saved(file), Reply(Some(Of(Kept(file)))), {Kept(file)})
  {
    StepFinish(INNER, Zero, Childless(OneFile(file), false, []), LATE, Some(Of(OneFile(file))), isRoot, store);
  }

  lemma SavedReadsNews(file: FileRef, isRoot: bool, store: set<State>)
    ensures OwnStep(Saved(file), isRoot, store, NO_CHOICE) == Effect(Stale(file, true, [MarkAsDirty]), Dirtied, {})
    ensures OwnStep(Stale(file, true, [MarkAsDirty]), isRoot, store, NO_CHOICE) ==
            Effect(Stale(file, true, []), Quiet, {})
  {
    assert FILE in OneFile(file).files && OneFile(file) != BLANK;
    assert [UpdateHash(INNER, Of(BLANK))] + [MarkAsDirty] == LATE;
    StepUpdate(INNER, Of(OneFile(file)), Of(BLANK), false, Childless(OneFile(file), false, []), [MarkAsDirty],
               isRoot, store);
    StepMark(INNER, Of(BLANK), Childless(OneFile(file), false, []), isRoot, store);
  }

  /** The next save of such an actor, with nothing undelivered. */
  function Relapsing(file: FileRef, kid: Actor, replies: map<Path, Option<DirHash>>): Actor {
    WithChild(INNER, Of(EMPTY_STATE), true, kid, [], Saving(replies))
  }

  lemma StaleAsks(file: FileRef, isRoot: bool, store: set<State>)
    ensures OwnStep(Stale(file, true, [SaveIfDirty]), isRoot, store, NO_CHOICE) ==
            Effect(Relapsing(file, Childless(OneFile(file), false, [SaveIfDirty]), map[]), Quiet, {})
  {
    var kid := Childless(OneFile(file), false, []);
    assert [SaveIfDirty] + [] == [SaveIfDirty];
    StepAsk(INNER, Of(BLANK), true, kid, [], isRoot, store);
    assert Send(kid, SaveIfDirty) == Childless(OneFile(file), false, [SaveIfDirty]);
  }

  lemma StaleChildDeclines(file: FileRef, isRoot: bool, store: set<State>)
    ensures StepAt(Relapsing(file, Childless(OneFile(file), false, [SaveIfDirty]), map[]), isRoot, [INNER], store,
                   NO_CHOICE) ==
            Effect(Relapsing(file, Childless(OneFile(file), false, []), map[INNER := None]), Quiet, {})
  {
    StepDecline(OneFile(file), store);
    KidReplies(INNER, Of(BLANK), true, Childless(OneFile(file), false, [SaveIfDirty]), [], isRoot, store,
               Childless(OneFile(file), false, []), None, {});
  }

  lemma StaleSaves(file: FileRef, isRoot: bool, store: set<State>)
    ensures var lost := OneDir(INNER, Of(EMPTY_STATE));
            OwnStep(Relapsing(file, Childless(OneFile(file), false, []), map[INNER := None]), isRoot, store,
                    NO_CHOICE) ==
            Effect(Stale(file, false, []), Reply(Some(Of(lost))), {lost})
  {
    StepFinish(INNER, Of(BLANK), Childless(OneFile(file), false, []), [], None, isRoot, store);
  }

  // ------------------------------------------------- with the root as actor

  lemma StockedIsReached(file: FileRef)
    ensures Reaches(FRESH, System(Stocked(file), {}, BLANK))
  {
    var none: set<State> := {};
    var forwarded, put := [PathOp(INNER + FILE, PutOf(file))], [PathOp(FILE, PutOf(file))];
    assert none + {} == none && [PathOp(INNER, CreateDir)] + [] == [PathOp(INNER, CreateDir)];
    assert [] + forwarded == forwarded && forwarded + [] == forwarded && [] + put == put;
    CreateRequested(INNER);
    CreateAtRoot(INNER, []);
    var y := System(WithChild(INNER, Zero, true, Newborn([]), [], Idle), {}, BLANK);
    ReachMail(FRESH, y, Client(INNER + FILE, PutOf(file)), PathOp(INNER + FILE, PutOf(file)), forwarded);
    var y1 := System(WithChild(INNER, Zero, true, Newborn([]), forwarded, Idle), {}, BLANK);
    assert y1 == y.(root := y.root.(inbox := forwarded));
    StepForward(INNER, FILE, PutOf(file), Zero, true, Newborn([]), [], true, {});
    assert Send(Newborn([]), PathOp(FILE, PutOf(file))) == Newborn(put);
    var y2 := System(WithChild(INNER, Zero, true, Newborn(put), [], Idle), {}, BLANK);
    ReachGo(FRESH, y1, [], Effect(y2.root, Quiet, {}), y2);
    assert [] + [SaveIfDirty] == [SaveIfDirty];
    ReachMail(FRESH, y2, RequestSave, SaveIfDirty, [SaveIfDirty]);
    assert y2.(root := y2.root.(inbox := [SaveIfDirty])) == System(Stocked(file), {}, BLANK);
  }

  lemma OvertakingIsReached(file: FileRef)
    ensures Reaches(FRESH, System(Overtaking(SavingChild(file), map[]), {BLANK}, BLANK))
  {
    var none: set<State> := {};
    assert none + {BLANK} == {BLANK} && {BLANK} + {} == {BLANK};
    StockedIsReached(file);
    StockedStarts(file, true, {});
    ReachGo(FRESH, System(Stocked(file), {}, BLANK), [INNER], Effect(Started(file), Quiet, {BLANK}),
            System(Started(file), {BLANK}, BLANK));
    StartedPuts(file, true, {BLANK});
    ReachGo(FRESH, System(Started(file), {BLANK}, BLANK), [INNER], Effect(Behind(file), Quiet, {}),
            System(Behind(file), {BLANK}, BLANK));
    var asked := Overtaking(Childless(OneFile(file), true, [SaveIfDirty]), map[]);
    BehindAsks(file, true, {BLANK});
    ReachGo(FRESH, System(Behind(file), {BLANK}, BLANK), [], Effect(asked, Quiet, {}), System(asked, {BLANK}, BLANK));
    ChildBegins(file, true, {BLANK});
    ReachGo(FRESH, System(asked, {BLANK}, BLANK), [INNER], Effect(Overtaking(SavingChild(file), map[]), Quiet, {}),
            System(Overtaking(SavingChild(file), map[]), {BLANK}, BLANK));
  }

  /** The blobs and the disk after the first save. */
  function AfterSave(file: FileRef, root: Actor): System {
    System(root, {EMPTY_STATE} + {OneFile(file)} + {Kept(file)}, Kept(file))
  }

  lemma SavedIsReached(file: FileRef)
    ensures Reaches(FRESH, AfterSave(file, Saved(file)))
  {
    OvertakingIsReached(file);
    var done := Overtaking(Childless(OneFile(file), false, []), map[INNER := Some(Of(OneFile(file)))]);
    ChildSaves(file, true, {BLANK});
    ReachGo(FRESH, System(Overtaking(SavingChild(file), map[]), {BLANK}, BLANK), [INNER],
            Effect(done, Quiet, {OneFile(file)}), System(done, {BLANK} + {OneFile(file)}, BLANK));
    OvertakingSaves(file, true, {BLANK} + {OneFile(file)});
    ReachGo(FRESH, System(done, {BLANK} + {OneFile(file)}, BLANK), [],
            Effect(Saved(file), Reply(Some(Of(Kept(file)))), {Kept(file)}), AfterSave(file, Saved(file)));
  }

  lemma StaleIsReached(file: FileRef)
    ensures Reaches(FRESH, AfterSave(file, Stale(file, true, [SaveIfDirty])))
  {
    var store := AfterSave(file, Saved(file)).store;
    assert store + {} == store && [] + [SaveIfDirty] == [SaveIfDirty];
    SavedIsReached(file);
    SavedReadsNews(file, true, store);
    ReachGo(FRESH, AfterSave(file, Saved(file)), [], Effect(Stale(file, true, [MarkAsDirty]), Dirtied, {}),
            AfterSave(file, Stale(file, true, [MarkAsDirty])));
    ReachGo(FRESH, AfterSave(file, Stale(file, true, [MarkAsDirty])), [], Effect(Stale(file, true, []), Quiet, {}),
            AfterSave(file, Stale(file, true, [])));
    ReachMail(FRESH, AfterSave(file, Stale(file, true, [])), RequestSave, SaveIfDirty, [SaveIfDirty]);
    var y := AfterSave(file, Stale(file, true, []));
    assert y.(root := y.root.(inbox := [SaveIfDirty])) == AfterSave(file, Stale(file, true, [SaveIfDirty]));
  }

  /** What the second save publishes. */
  function Lost(file: FileRef): System {
    var lost := OneDir(INNER, Of(EMPTY_STATE));
    System(Stale(file, false, []), AfterSave(file, Saved(file)).store + {lost}, lost)
  }

  lemma StaleReachesLost(file: FileRef)
    ensures Reaches(AfterSave(file, Stale(file, true, [SaveIfDirty])), Lost(file))
  {
    var y := AfterSave(file, Stale(file, true, [SaveIfDirty]));
    var asked := Relapsing(file, Childless(OneFile(file), false, [SaveIfDirty]), map[]);
    var done := Relapsing(file, Childless(OneFile(file), false, []), map[INNER := None]);
    assert y.store + {} == y.store;
    ReachSelf(y);
    StaleAsks(file, true, y.store);
    ReachGo(y, y, [], Effect(asked, Quiet, {}), y.(root := asked));
    StaleChildDeclines(file, true, y.store);
    ReachGo(y, y.(root := asked), [INNER], Effect(done, Quiet, {}), y.(root := done));
    StaleSaves(file, true, y.store);
    ReachGo(y, y.(root := done), [], Effect(Lost(file).root, Reply(Some(Of(Lost(file).disk))), {Lost(file).disk}),
            Lost(file));
  }

  function FilesIn(t: Tree, name: Path): Option<map<Path, FileRef>> {
    if name in t.dirs then Some(t.dirs[name].files) else None
  }

  /** A save that overtakes an announcement loses data later: it publishes the
      right tree, but the announcement is read afterwards and puts the old hash
      back, and the next save, begun while no message is undelivered anywhere,
      publishes a tree without the file. The tree was not sound by then. */
  lemma LateAnnouncementLosesData(file: FileRef) returns (saved: System, stale: System, lost: System)
    ensures Initial(FRESH) && Reaches(FRESH, saved) && Published(saved)
    ensures Reaches(FRESH, stale) && Begins(stale, Go([])) && stale.root.inbox == [SaveIfDirty]
    ensures KidsSettled(stale.root) && !Sound(stale.root, stale.store)
    ensures Reaches(stale, lost) && lost.root.phase.Idle? && RefsLoad(lost.store, lost.disk)
    ensures FilesIn(TreeOf(Of(lost.disk)), INNER) == Some(map[])
    ensures FilesIn(Memory(lost.root), INNER) == Some(map[FILE := file])
  {
    saved, stale, lost := AfterSave(file, Saved(file)), AfterSave(file, Stale(file, true, [SaveIfDirty])), Lost(file);
    SavedIsReached(file);
    SavedIsPublished(file);
    StaleIsReached(file);
    StaleReachesLost(file);
    LostShows(file);
    assert Settled(Childless(OneFile(file), false, []));
    StaleIsUnsound(file, true, [SaveIfDirty], stale.store);
  }

  lemma SavedIsPublished(file: FileRef)
    ensures Published(AfterSave(file, Saved(file)))
  {
    var y, s, kid := AfterSave(file, Saved(file)), OneFile(file), Childless(OneFile(file), false, []);
    assert s in y.store && Loadable(y.store, Of(s));
    MemoryIs(kid, map[]);
    MemoryIs(y.root, map[INNER := Memory(kid)]);
    assert TreeOf(Of(y.disk)).dirs == map[INNER := TreeOf(Of(s))];
    assert TreeOf(Of(s)) == Tree(s.files, map[]);
  }

  lemma StaleIsUnsound(file: FileRef, dirty: bool, inbox: seq<Msg>, store: set<State>)
    ensures !Sound(Stale(file, dirty, inbox), store)
  {
    var n, kid := Stale(file, dirty, inbox), Childless(OneFile(file), false, []);
    assert FILE in Memory(kid).files && FILE !in TreeOf(Of(BLANK)).files;
    assert n.state.dirs[INNER] == Of(BLANK) && n.kids[INNER] == kid;
    assert !SoundAt(n, INNER, store);
  }

  lemma LostShows(file: FileRef)
    ensures var y := Lost(file);
            && RefsLoad(y.store, y.disk)
            && FilesIn(TreeOf(Of(y.disk)), INNER) == Some(map[]) && FilesIn(Memory(y.root), INNER) ==
              Some(map[FILE := file])
  {
    var y := Lost(file);
    assert BLANK in y.store && Loadable(y.store, Of(BLANK));
    assert y.disk.dirs[INNER] == Of(BLANK);
    assert TreeOf(Of(y.disk)).dirs[INNER] == TreeOf(Of(BLANK));
    assert Memory(y.root).dirs[INNER] == Memory(y.root.kids[INNER]);
  }

  // ------------------------------------------------------ one level deeper

  /** `OUTER` goes through the same stages below the root. */
  lemma DeepStockedIsReached(file: FileRef)
    ensures Reaches(FRESH, System(Top(Of(BLANK), true, Stocked(file), [], Saving(map[])), {BLANK}, BLANK))
  {
    var put := [PathOp(FILE, PutOf(file))];
    var kid0, kid1 := Childless(BLANK, false, QUEUE), WithChild(INNER, Zero, true, Newborn([]), [], Idle);
    OpenIsReached();
    SendBelow(OPEN, Of(BLANK), IDLE_CHILD, INNER, CreateDir);
    assert Send(IDLE_CHILD, PathOp(INNER, CreateDir)) == kid0 by { assert [] + QUEUE == QUEUE; }
    DeepCreate(kid0, kid1);
    var y := System(Top(Of(BLANK), true, kid1, [], Idle), {BLANK}, BLANK);
    SendBelow(y, Of(BLANK), kid1, INNER + FILE, PutOf(file));
    DeepPut(file, kid1);
    var kid2 := WithChild(INNER, Zero, true, Newborn(put), [], Idle);
    AskBelow(FRESH, y.(root := Top(Of(BLANK), true, kid2, [], Idle)), Of(BLANK), kid2);
    BeginBelow(FRESH, y.(root := Top(Of(BLANK), true, kid2, [SaveIfDirty], Idle)), Of(BLANK), kid2);
    assert Send(kid2, SaveIfDirty) == Stocked(file) by { assert [] + [SaveIfDirty] == [SaveIfDirty]; }
  }

  lemma DeepCreate(kid0: Actor, kid1: Actor)
    requires kid0 == Childless(EMPTY_STATE, false, QUEUE) && kid1 == WithChild(INNER, Zero, true, Newborn([]), [], Idle)
    requires Reaches(FRESH, System(Top(Of(EMPTY_STATE), true, kid0, [], Idle), {EMPTY_STATE}, EMPTY_STATE))
    ensures Reaches(FRESH, System(Top(Of(EMPTY_STATE), true, kid1, [], Idle), {EMPTY_STATE}, EMPTY_STATE))
  {
    var y := System(Top(Of(BLANK), true, kid0, [], Idle), {BLANK}, BLANK);
    assert {BLANK} + {} == {BLANK} && [] + [MarkAsDirty] == [MarkAsDirty] && QUEUE + [] == QUEUE;
    StepCreate(INNER, false, [], false, {BLANK});
    KidTells(OUTER, Of(BLANK), true, kid0, [], Idle, true, {BLANK}, kid1, Dirtied, {});
    var marked := Top(Of(BLANK), true, kid1, [MarkAsDirty], Idle);
    ReachGo(FRESH, y, [OUTER], Effect(marked, Quiet, {}), y.(root := marked));
    StepMark(OUTER, Of(BLANK), kid1, true, {BLANK});
    ReachGo(FRESH, y.(root := marked), [], Effect(Top(Of(BLANK), true, kid1, [], Idle), Quiet, {}),
            y.(root := Top(Of(BLANK), true, kid1, [], Idle)));
  }

  lemma DeepPut(file: FileRef, kid1: Actor)
    requires kid1 == WithChild(INNER, Zero, true, Newborn([]), [], Idle)
    requires Reaches(FRESH, System(Top(Of(EMPTY_STATE), true, Send(kid1, PathOp(INNER + FILE, PutOf(file))), [], Idle),
                                   {EMPTY_STATE}, EMPTY_STATE))
    ensures var kid2 := WithChild(INNER, Zero, true, Newborn([PathOp(FILE, PutOf(file))]), [], Idle);
            Reaches(FRESH, System(Top(Of(EMPTY_STATE), true, kid2, [], Idle), {EMPTY_STATE}, EMPTY_STATE))
  {
    var forwarded, put := [PathOp(INNER + FILE, PutOf(file))], [PathOp(FILE, PutOf(file))];
    var sent := WithChild(INNER, Zero, true, Newborn([]), forwarded, Idle);
    var kid2 := WithChild(INNER, Zero, true, Newborn(put), [], Idle);
    assert [] + forwarded == forwarded && forwarded + [] == forwarded && [] + put == put && {BLANK} + {} == {BLANK};
    assert Send(kid1, PathOp(INNER + FILE, PutOf(file))) == sent;
    StepForward(INNER, FILE, PutOf(file), Zero, true, Newborn([]), [], false, {BLANK});
    assert Send(Newborn([]), PathOp(FILE, PutOf(file))) == Newborn(put);
    KidMoves(OUTER, Of(BLANK), true, sent, [], Idle, true, {BLANK}, kid2, {});
    ReachGo(FRESH, System(Top(Of(BLANK), true, sent, [], Idle), {BLANK}, BLANK), [OUTER],
            Effect(Top(Of(BLANK), true, kid2, [], Idle), Quiet, {}),
            System(Top(Of(BLANK), true, kid2, [], Idle), {BLANK}, BLANK));
  }

  /** A quiet step of `OUTER`'s subtree while the root waits for it. */
  lemma DeepGo(y0: System, y: System, ref: DirHash, kid: Actor, at: seq<Path>, kid': Actor, blobs: set<State>)
    requires Reaches(y0, y) && y.root == Top(ref, true, kid, [], Saving(map[]))
    requires StepAt(kid, false, at, y.store, NO_CHOICE) == Effect(kid', Quiet, blobs)
    ensures Reaches(y0, System(Top(ref, true, kid', [], Saving(map[])), y.store + blobs, y.disk))
  {
    var n' := Top(ref, true, kid', [], Saving(map[]));
    StepBelow(OUTER, ref, true, kid, [], Saving(map[]), true, at, y.store, Effect(kid', Quiet, blobs));
    ReachGo(y0, y, [OUTER] + at, Effect(n', Quiet, blobs), System(n', y.store + blobs, y.disk));
  }

  function Waits(kid: Actor, store: set<State>): System {
    System(Top(Of(EMPTY_STATE), true, kid, [], Saving(map[])), store, EMPTY_STATE)
  }

  lemma DeepSavedIsReached(file: FileRef)
    ensures var done := Overtaking(Childless(OneFile(file), false, []), map[INNER := Some(Of(OneFile(file)))]);
            Reaches(FRESH, System(Top(Of(BLANK), true, done, [], Saving(map[])), {BLANK} + {OneFile(file)}, BLANK))
  {
    assert {BLANK} + {BLANK} == {BLANK} && {BLANK} + {} == {BLANK};
    DeepStockedIsReached(file);
    StockedStarts(file, false, {BLANK});
    DeepGo(FRESH, Waits(Stocked(file), {BLANK}), Of(BLANK), Stocked(file), [INNER], Started(file), {BLANK});
    StartedPuts(file, false, {BLANK});
    DeepGo(FRESH, Waits(Started(file), {BLANK}), Of(BLANK), Started(file), [INNER], Behind(file), {});
    var asked := Overtaking(Childless(OneFile(file), true, [SaveIfDirty]), map[]);
    BehindAsks(file, false, {BLANK});
    DeepGo(FRESH, Waits(Behind(file), {BLANK}), Of(BLANK), Behind(file), [], asked, {});
    ChildBegins(file, false, {BLANK});
    DeepGo(FRESH, Waits(asked, {BLANK}), Of(BLANK), asked, [INNER], Overtaking(SavingChild(file), map[]), {});
    ChildSaves(file, false, {BLANK});
    DeepGo(FRESH, Waits(Overtaking(SavingChild(file), map[]), {BLANK}), Of(BLANK),
           Overtaking(SavingChild(file), map[]), [INNER],
             Overtaking(Childless(OneFile(file), false, []), map[INNER := Some(Of(OneFile(file)))]), {OneFile(file)});
  }

  /** The store and the disk after the root has published everything. */
  function AfterDeepSave(file: FileRef, root: Actor): System {
    var top := OneDir(OUTER, Of(Kept(file)));
    System(root, {EMPTY_STATE} + {OneFile(file)} + {Kept(file)} + {top}, top)
  }

  lemma DeepPublishedIsReached(file: FileRef)
    ensures Reaches(FRESH, AfterDeepSave(file, Top(Of(Kept(file)), false, Saved(file), [], Idle)))
  {
    var store := {BLANK} + {OneFile(file)};
    var done := Overtaking(Childless(OneFile(file), false, []), map[INNER := Some(Of(OneFile(file)))]);
    var replied := Top(Of(BLANK), true, Saved(file), [], Saving(map[OUTER := Some(Of(Kept(file)))]));
    DeepSavedIsReached(file);
    OvertakingSaves(file, false, store);
    KidReplies(OUTER, Of(BLANK), true, done, [], true, store, Saved(file), Some(Of(Kept(file))), {Kept(file)});
    ReachGo(FRESH, System(Top(Of(BLANK), true, done, [], Saving(map[])), store, BLANK), [OUTER],
            Effect(replied, Quiet, {Kept(file)}), System(replied, store + {Kept(file)}, BLANK));
    StepFinish(OUTER, Of(BLANK), Saved(file), [], Some(Of(Kept(file))), true, store + {Kept(file)});
    var y := AfterDeepSave(file, Top(Of(Kept(file)), false, Saved(file), [], Idle));
    ReachGo(FRESH, System(replied, store + {Kept(file)}, BLANK), [],
            Effect(y.root, Reply(Some(Of(y.disk))), {y.disk}), y);
  }

  /** `OUTER` has read the late announcement, and so it is dirty, and so is the
      root; a save has been requested, and nothing else is undelivered. */
  function DeepStale(file: FileRef): System {
    AfterDeepSave(file, Top(Of(Kept(file)), true, Stale(file, true, []), [SaveIfDirty], Idle))
  }

  lemma DeepStaleIsReached(file: FileRef)
    ensures Reaches(FRESH, DeepStale(file))
  {
    var ref, y := Of(Kept(file)), AfterDeepSave(file, Top(Of(Kept(file)), false, Saved(file), [], Idle));
    assert y.store + {} == y.store && [] + [MarkAsDirty] == [MarkAsDirty];
    DeepPublishedIsReached(file);
    SavedReadsNews(file, false, y.store);
    KidTells(OUTER, ref, false, Saved(file), [], Idle, true, y.store, Stale(file, true, [MarkAsDirty]), Dirtied, {});
    var marked := Top(ref, false, Stale(file, true, [MarkAsDirty]), [MarkAsDirty], Idle);
    ReachGo(FRESH, y, [OUTER], Effect(marked, Quiet, {}), y.(root := marked));
    var read := Top(ref, false, Stale(file, true, []), [MarkAsDirty], Idle);
    KidMoves(OUTER, ref, false, Stale(file, true, [MarkAsDirty]), [MarkAsDirty], Idle, true, y.store,
             Stale(file, true, []), {});
    ReachGo(FRESH, y.(root := marked), [OUTER], Effect(read, Quiet, {}), y.(root := read));
    var dirty := Top(ref, true, Stale(file, true, []), [], Idle);
    StepFirstMark(OUTER, ref, Stale(file, true, []), y.store);
    ReachGo(FRESH, y.(root := read), [], Effect(dirty, Dirtied, {}), y.(root := dirty));
    AskBelow(FRESH, y.(root := dirty), ref, Stale(file, true, []));
  }

  /** The same loss one level down. Every reference of the root to a clean child
      is right, as there is no clean child; but the tree is not sound, and so
      no save begun here publishes it. */
  lemma LateAnnouncementBelowLosesData(file: FileRef) returns (y: System, lost: System)
    ensures Initial(FRESH) && Reaches(FRESH, y) && Begins(y, Go([])) && y.root.inbox == [SaveIfDirty]
    ensures KidsSettled(y.root) && RefsCurrent(y.root) && !Sound(y.root, y.store)
    ensures forall save :: OneSave(y, save) ==> !Published(Run(y, save))
    ensures Reaches(y, lost) && lost.root.phase.Idle? && lost.disk == OneDir(OUTER, Of(OneDir(INNER, Of(EMPTY_STATE))))
  {
    y, lost := DeepStale(file), DeepLost(file);
    DeepStaleIsReached(file);
    var kid := Stale(file, true, []);
    assert Settled(Childless(OneFile(file), false, [])) && Settled(kid);
    StaleIsUnsound(file, true, [], y.store);
    assert y.root.kids[OUTER] == kid && !SoundAt(y.root, OUTER, y.store);
    DeepStaleIsWild(file);
    DeepStaleReachesLost(file);
    forall save | OneSave(y, save)
      ensures !Published(Run(y, save))
    {
      WildSaveIff(y, save);
    }
  }

  lemma DeepStaleIsWild(file: FileRef)
    ensures Wild(DeepStale(file))
  {
    var y := DeepStale(file);
    assert OneFile(file) in y.store && Kept(file) in y.store && BLANK in y.store;
    assert Anchored(y.store, Of(OneFile(file))) && Anchored(y.store, Of(BLANK));
    assert Kept(file).dirs == map[INNER := Of(OneFile(file))];
    assert Anchored(y.store, Of(Kept(file)));
    var grandkid, kid := Childless(OneFile(file), false, []), Stale(file, true, []);
    assert Rooted(grandkid, y.store);
    assert kid.state.dirs == map[INNER := Of(BLANK)] && kid.kids == map[INNER := grandkid];
    assert Rooted(kid, y.store);
  }

  function DeepLost(file: FileRef): System {
    var y, lost := DeepStale(file), OneDir(INNER, Of(EMPTY_STATE));
    System(Top(Of(lost), false, Stale(file, false, []), [], Idle), y.store + {lost} + {OneDir(OUTER, Of(lost))},
           OneDir(OUTER, Of(lost)))
  }

  lemma DeepStaleReachesLost(file: FileRef)
    ensures Reaches(DeepStale(file), DeepLost(file))
  {
    var y, ref, lost := DeepStale(file), Of(Kept(file)), OneDir(INNER, Of(EMPTY_STATE));
    var kid, asked := Stale(file, true, [SaveIfDirty]),
      Relapsing(file, Childless(OneFile(file), false, [SaveIfDirty]), map[]);
    var done := Relapsing(file, Childless(OneFile(file), false, []), map[INNER := None]);
    assert y.store + {} == y.store;
    ReachSelf(y);
    BeginBelow(y, y, ref, Stale(file, true, []));
    assert Send(Stale(file, true, []), SaveIfDirty) == kid by { assert [] + [SaveIfDirty] == [SaveIfDirty]; }
    StaleAsks(file, false, y.store);
    DeepGo(y, y.(root := Top(ref, true, kid, [], Saving(map[]))), ref, kid, [], asked, {});
    StaleChildDeclines(file, false, y.store);
    DeepGo(y, y.(root := Top(ref, true, asked, [], Saving(map[]))), ref, asked, [INNER], done, {});
    StaleSaves(file, false, y.store);
    var replied := Top(ref, true, Stale(file, false, []), [], Saving(map[OUTER := Some(Of(lost))]));
    KidReplies(OUTER, ref, true, done, [], true, y.store, Stale(file, false, []), Some(Of(lost)), {lost});
    ReachGo(y, y.(root := Top(ref, true, done, [], Saving(map[]))), [OUTER], Effect(replied, Quiet, {lost}),
            System(replied, y.store + {lost}, y.disk));
    StepFinish(OUTER, ref, Stale(file, false, []), [], Some(Of(lost)), true, y.store + {lost});
    ReachGo(y, System(replied, y.store + {lost}, y.disk), [],
            Effect(DeepLost(file).root, Reply(Some(Of(DeepLost(file).disk))), {DeepLost(file).disk}), DeepLost(file));
  }
}
