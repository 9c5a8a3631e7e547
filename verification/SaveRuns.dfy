/** The system of actors, store and root file in every run: exactly when a save
    publishes the tree in memory, and that it always does in runs whose saves
    are well timed. */
module SaveRuns {
  import opened Entries
  import opened DirStates
  import opened Actors
  import opened SaveProtocol
  import opened ActorShape
  import opened SaveWalk

  /** The root actor, the blob store, and the root file on disk. */
  datatype System = System(root: Actor, store: set<State>, disk: State)

  datatype Event =
    | Client(path: Path, op: Op)
    | RequestSave
    | Step(at: seq<Path>, choice: Choice)

  /** The root's answer to a save request comes with the file it wrote. */
  function Next(y: System, e: Event): System {
    match e
    case Client(path, op) => y.(root := Send(y.root, PathOp(path, op)))
    case RequestSave => y.(root := Send(y.root, SaveIfDirty))
    case Step(at, c) =>
      var r := StepAt(y.root, true, at, y.store, c);
      System(r.actor, y.store + r.blobs,
             if r.up.Reply? && r.up.saved.Some? && r.up.saved.value.Of? then r.up.saved.value.content else y.disk)
  }

  function Run(y: System, es: seq<Event>): System {
    if es == [] then y else Next(Run(y, es[..|es| - 1]), es[|es| - 1])
  }

  /** The disk and the store hold exactly the tree in memory: the root file and
      every directory below it load, and give what the actors hold. */
  ghost predicate Published(y: System) {
    RefsLoad(y.store, y.disk) && TreeOf(Of(y.disk)) == Memory(y.root)
  }

  /** The root serves a save request in this step. */
  predicate Begins(y: System, e: Event) {
    && e.Step? && e.at == []
    && y.root.boot.Running? && y.root.phase.Idle? && y.root.inbox != [] && y.root.inbox[0].SaveIfDirty?
  }

  /** A root that has just loaded its file. */
  ghost predicate Initial(y: System) {
    y.root == Actor(Running, y.disk, false, map[], [], Idle) && RefsLoad(y.store, y.disk)
  }

  /** The environment's choices fit the steps of a run. */
  ghost predicate GoodChoices(y: System, es: seq<Event>) {
    forall i :: 0 <= i < |es| ==> GoodEvent(Run(y, es[..i]), es[i])
  }

  ghost predicate GoodEvent(y: System, e: Event) {
    e.Step? ==> GoodChoiceAt(y.root, e.at, y.store, e.choice)
  }

  // ----------------------------------------------------------- in every run

  /** A clean root's state is what is on disk. */
  ghost predicate OnDisk(root: Actor, disk: State) {
    !root.dirty ==> root.state == disk
  }

  /** What holds however the saves of a run are timed. */
  ghost predicate Wild(y: System) {
    y.root.boot.Running? && Rooted(y.root, y.store) && OnDisk(y.root, y.disk)
  }

  lemma StepOnDisk(y: System, at: seq<Path>, c: Choice)
    requires y.root.boot.Running? && OnDisk(y.root, y.disk)
    ensures var y' := Next(y, Step(at, c)); y'.root.boot.Running? && OnDisk(y'.root, y'.disk)
  {
    if at == [] {
      OwnStepClean(y.root, y.store, c);
    }
  }

  /** An own step leaves the state alone, or the actor dirty, or saves it. */
  lemma OwnStepClean(n: Actor, store: set<State>, c: Choice)
    requires n.boot.Running?
    ensures var r := OwnStep(n, true, store, c);
            && r.actor.boot.Running?
            && (r.up.Reply? && r.up.saved.Some? ==> r.up.saved.value == Of(r.actor.state))
            && (r.actor.dirty || (r.up.Reply? && r.up.saved.Some?) || (r.actor.state == n.state && !n.dirty))
  {}

  lemma NextWild(y: System, e: Event)
    requires Wild(y) && GoodEvent(y, e)
    ensures Wild(Next(y, e))
  {
    match e
    case Client(path, op) => SendRooted(y.root, PathOp(path, op), y.store);
    case RequestSave => SendRooted(y.root, SaveIfDirty, y.store);
    case Step(at, c) =>
      StepAtRooted(y.root, true, at, y.store, c);
      StepOnDisk(y, at, c);
  }

  lemma {:induction false} RunWild(y: System, es: seq<Event>)
    requires Initial(y) && GoodChoices(y, es)
    ensures Wild(Run(y, es))
    decreases |es|
  {
    if es == [] {
      forall k | k in y.disk.dirs { LoadableIsAnchored(y.store, y.disk.dirs[k]); }
    } else {
      var init := es[..|es| - 1];
      forall i | 0 <= i < |init|
        ensures GoodEvent(Run(y, init[..i]), init[i])
      {
        assert init[..i] == es[..i];
      }
      RunWild(y, init);
      NextWild(Run(y, init), es[|es| - 1]);
    }
  }

  // ----------------------------------------------------------- one save

  /** During a save begun by `base`, up to the messages that have arrived since. */
  ghost predicate Underway(y: System, base: Actor) {
    && base.boot.Running? && base.phase.Idle? && OnDisk(base, y.disk)
    && KidsSettled(base) && Walking(base, y.root, y.store)
  }

  /** A save that begins with its children settled is under way. */
  lemma SaveBegins(y: System, e: Event)
    requires OnDisk(y.root, y.disk) && Begins(y, e) && KidsSettled(y.root)
    ensures Underway(Next(y, e), y.root.(inbox := y.root.inbox[1..]))
    ensures Next(y, e).store == y.store && Next(y, e).disk == y.disk
  {
    assert y.store + {} == y.store;
    WalkBegins(y.root.(inbox := y.root.inbox[1..]), true, y.store);
  }

  /** What has come of a save begun by `base`. */
  ghost predicate Completed(y: System, base: Actor) {
    y.root == SaveTree(base, true).actor && Written(base, true, y.store) && y.disk == y.root.state
  }

  /** The messages that a root's mailbox may get during a save. */
  function Arrived(e: Event): seq<Msg> {
    match e
    case Client(path, op) => [PathOp(path, op)]
    case RequestSave => [SaveIfDirty]
    case Step(_, _) => []
  }

  function WithMail(n: Actor, e: Event): Actor {
    n.(inbox := n.inbox + Arrived(e))
  }

  /** Whatever happens next, the save goes on or is complete. */
  lemma UnderwayStep(y: System, base: Actor, e: Event)
    requires Underway(y, base)
    ensures y.store <= Next(y, e).store
    ensures Next(y, e).root.phase.Saving? ==> Underway(Next(y, e), WithMail(base, e))
    ensures Next(y, e).root.phase.Idle? ==> Completed(Next(y, e), WithMail(base, e))
  {
    match e
    case Client(path, op) => MailJoinsWalk(base, y.root, PathOp(path, op), y.store);
    case RequestSave => MailJoinsWalk(base, y.root, SaveIfDirty, y.store);
    case Step(at, c) =>
      assert base.inbox + [] == base.inbox;
      var r := StepAt(y.root, true, at, y.store, c);
      WalkStep(base, y.root, true, at, y.store, c);
      if r.up.Reply? {
        SaveFields(base, true);
        SaveAnswer(base, true, y.store + r.blobs);
      }
  }

  /** The events of `es` take `y` through one save: it begins with the first of
      them and is answered with the last. */
  ghost predicate OneSave(y: System, es: seq<Event>) {
    && es != [] && Begins(y, es[0])
    && (forall i :: 0 < i < |es| ==> Run(y, es[..i]).root.phase.Saving?)
    && Run(y, es).root.phase.Idle?
  }

  lemma {:induction false} OneSaveUnderway(y: System, es: seq<Event>, i: nat) returns (base: Actor)
    requires OnDisk(y.root, y.disk) && KidsSettled(y.root) && es != [] && Begins(y, es[0])
    requires forall j :: 0 < j < |es| ==> Run(y, es[..j]).root.phase.Saving?
    requires 0 < i < |es|
    ensures base == y.root.(inbox := base.inbox) && Underway(Run(y, es[..i]), base) && y.store <= Run(y, es[..i]).store
    decreases i
  {
    if i == 1 {
      assert es[..1][..0] == [] && es[..1][0] == es[0];
      SaveBegins(y, es[0]);
      base := y.root.(inbox := y.root.inbox[1..]);
    } else {
      var before := OneSaveUnderway(y, es, i - 1);
      assert es[..i][..i - 1] == es[..i - 1] && es[..i][i - 1] == es[i - 1];
      UnderwayStep(Run(y, es[..i - 1]), before, es[i - 1]);
      base := WithMail(before, es[i - 1]);
    }
  }

  lemma OneSaveCompleted(y: System, es: seq<Event>) returns (base: Actor)
    requires OnDisk(y.root, y.disk) && KidsSettled(y.root) && OneSave(y, es)
    ensures base == y.root.(inbox := base.inbox) && Completed(Run(y, es), base) && y.store <= Run(y, es).store
  {
    assert es[..|es|] == es;
    SaveBegins(y, es[0]);
    RunSingle(y, es[0]);
    var first := [es[0]];
    assert |es| == 1 ==> es == first;
    assert |es| > 1;
    var before := OneSaveUnderway(y, es, |es| - 1);
    UnderwayStep(Run(y, es[..|es| - 1]), before, es[|es| - 1]);
    base := WithMail(before, es[|es| - 1]);
  }

  lemma RunSingle(y: System, e: Event)
    ensures Run(y, [e]) == Next(y, e)
  {
    assert [e][..0] == [];
  }

  /** One save in any run, whatever happened before: begun while no message is
      undelivered below the root, and interleaved with anything else, it
      publishes the tree in memory if and only if the tree of actors was sound
      when it began. */
  lemma SaveIsExactIff(y0: System, es: seq<Event>, save: seq<Event>)
    requires Initial(y0) && GoodChoices(y0, es)
    requires var y := Run(y0, es); KidsSettled(y.root) && OneSave(y, save)
    ensures var y := Run(y0, es); Published(Run(y, save)) <==> Sound(y.root, y.store)
  {
    RunWild(y0, es);
    WildSaveIff(Run(y0, es), save);
  }

  lemma WildSaveIff(y: System, save: seq<Event>)
    requires Wild(y) && KidsSettled(y.root) && OneSave(y, save)
    ensures Published(Run(y, save)) <==> Sound(y.root, y.store)
  {
    var base := OneSaveCompleted(y, save);
    var y' := Run(y, save);
    SettledRuns(base);
    SaveTreeIff(base, true, y'.store);
    SaveKeepsMemory(base, true);
    SoundMail(y.root, base.inbox, y'.store);
    SoundGrows(y.root, y.store, y'.store);
  }

  // ---------------------------------------------- runs with well-timed saves

  /** A save begins only while no message is undelivered below the root and no
      announcement waits at the root. Everything else happens at any time. */
  ghost predicate Enabled(y: System, e: Event) {
    GoodEvent(y, e) && (Begins(y, e) ==> KidsSettled(y.root) && NoUpdates(y.root.inbox))
  }

  ghost predicate AllEnabled(y: System, es: seq<Event>) {
    forall i :: 0 <= i < |es| ==> Enabled(Run(y, es[..i]), es[i])
  }

  /** Between saves. */
  ghost predicate IdleInv(n: Actor, store: set<State>, disk: State) {
    n.boot.Running? && Inv(n, store) && OnDisk(n, disk)
  }

  /** During a well-timed save. */
  ghost predicate UnderwayWell(y: System, base: Actor) {
    Underway(y, base) && Inv(base, y.store) && NoUpdates(base.inbox)
  }

  ghost predicate SystemInv(y: System) {
    if y.root.phase.Idle? then IdleInv(y.root, y.store, y.disk) else exists base :: UnderwayWell(y, base)
  }

  lemma NoUpdatesRefs(n: Actor, store: set<State>)
    requires n.boot.Running? && Inv(n, store) && KidsSettled(n) && NoUpdates(n.inbox)
    ensures RefsCurrent(n)
  {
    forall k | k in n.kids && !n.kids[k].dirty
      ensures n.state.dirs[k] == Of(n.kids[k].state)
    {
      assert Linked(n, k, store);
      NotAnnounced(n.inbox, k, n.state.dirs[k]);
    }
  }

  /** A well-timed save publishes the tree and leaves the invariant. */
  lemma CompletedWell(y: System, base: Actor)
    requires Completed(y, base) && base.boot.Running? && Inv(base, y.store)
    requires KidsSettled(base) && NoUpdates(base.inbox)
    ensures IdleInv(y.root, y.store, y.disk) && Published(y) && Memory(y.root) == Memory(base)
  {
    NoUpdatesRefs(base, y.store);
    SaveAssembles(base, true, y.store, y.store);
    SaveFields(base, true);
    SaveAnswer(base, true, y.store);
    AssembledTree(base, y.root, y.store);
    AssembledInv(base, y.root, y.store);
  }

  /** A step of a well-timed save keeps it well-timed or publishes the tree. */
  lemma UnderwayWellStep(y: System, base: Actor, e: Event)
    requires UnderwayWell(y, base)
    ensures SystemInv(Next(y, e))
    ensures Next(y, e).root.phase.Idle? ==> Published(Next(y, e)) && Memory(Next(y, e).root) == Memory(base)
  {
    var base', y' := WithMail(base, e), Next(y, e);
    UnderwayStep(y, base, e);
    InvMono(base, y.store, y'.store);
    if e.Step? {
      assert base.inbox + [] == base.inbox;
    } else {
      AppendInv(base, Arrived(e)[0], y'.store);
    }
    if y'.root.phase.Idle? {
      CompletedWell(y', base');
      MailIsNotMemory(base, base'.inbox);
    } else {
      assert UnderwayWell(y', base');
    }
  }

  lemma NextInv(y: System, e: Event)
    requires SystemInv(y) && Enabled(y, e)
    ensures SystemInv(Next(y, e))
  {
    if y.root.phase.Saving? {
      var base :| UnderwayWell(y, base);
      UnderwayWellStep(y, base, e);
    } else if Begins(y, e) {
      var base := y.root.(inbox := y.root.inbox[1..]);
      SaveBegins(y, e);
      ServedInv(y.root, base, base, y.store);
      assert UnderwayWell(Next(y, e), base);
    } else {
      IdleStep(y, e);
    }
  }

  lemma IdleStep(y: System, e: Event)
    requires IdleInv(y.root, y.store, y.disk) && Enabled(y, e) && !Begins(y, e)
    ensures IdleInv(Next(y, e).root, Next(y, e).store, Next(y, e).disk)
  {
    match e
    case Client(path, op) => AppendInv(y.root, PathOp(path, op), y.store);
    case RequestSave => AppendInv(y.root, SaveIfDirty, y.store);
    case Step(at, c) =>
      StepAtInv(y.root, true, at, y.store, c);
      StepOnDisk(y, at, c);
  }

  lemma {:induction false} RunInv(y: System, es: seq<Event>)
    requires SystemInv(y) && AllEnabled(y, es)
    ensures SystemInv(Run(y, es))
    decreases |es|
  {
    if es != [] {
      var init := es[..|es| - 1];
      forall i | 0 <= i < |init|
        ensures Enabled(Run(y, init[..i]), init[i])
      {
        assert init[..i] == es[..i];
      }
      RunInv(y, init);
      NextInv(Run(y, init), es[|es| - 1]);
    }
  }

  /** In every run in which saves begin only while no message is undelivered below
      the root and no announcement waits at the root, whenever a save is
      answered, reloading what is on disk gives the tree in memory, and
      answering it did not change that tree. */
  lemma ReloadGivesMemory(y: System, es: seq<Event>, e: Event)
    requires Initial(y) && AllEnabled(y, es)
    requires Run(y, es).root.phase.Saving? && Next(Run(y, es), e).root.phase.Idle?
    ensures Published(Next(Run(y, es), e))
    ensures Memory(Next(Run(y, es), e).root) == Memory(Run(y, es).root)
  {
    RunInv(y, es);
    var y1 := Run(y, es);
    var base :| UnderwayWell(y1, base);
    UnderwayWellStep(y1, base, e);
    WalkKeepsMemory(base, y1.root, y1.store);
  }

  // ------------------------------------------- at the moment of the answer

  /** What the root is about to reference once the answers are in. */
  ghost predicate AnswersStand(n: Actor, store: set<State>)
    requires n.phase.Saving?
  {
    forall k :: k in n.state.dirs ==>
      var ref := RefAfter(n.state.dirs, n.phase.replies, k);
      Loadable(store, ref) && TreeOf(ref) == MemoryAt(n, k)
  }

  /** Any save of any run, however many messages were waiting when it began: the
      step that answers it publishes the tree in memory if and only if what the
      root is about to reference stands for it. */
  lemma AnswerIsExactIff(y0: System, es: seq<Event>, c: Choice)
    requires Initial(y0) && GoodChoices(y0, es)
    requires var y := Run(y0, es); y.root.phase.Saving? && y.root.phase.replies.Keys == y.root.kids.Keys
    ensures var y := Run(y0, es); Published(Next(y, Step([], c))) <==> AnswersStand(y.root, y.store)
  {
    RunWild(y0, es);
    AnswerPublishes(Run(y0, es), c);
  }

  lemma AnswerPublishes(y: System, c: Choice)
    requires Wild(y) && y.root.phase.Saving? && y.root.phase.replies.Keys == y.root.kids.Keys
    ensures Published(Next(y, Step([], c))) <==> AnswersStand(y.root, y.store)
  {
    var n, y' := y.root, Next(y, Step([], c));
    FinishLeaves(n, n.phase.replies, y.disk);
    var s := y'.root.state;
    assert y'.disk == s;
    PublishedByDirs(y'.root, s, y'.store);
    forall k | k in s.dirs { RefLoads(y, k, y'.store); }
  }

  lemma FinishLeaves(n: Actor, replies: map<Path, Option<DirHash>>, disk: State)
    requires OnDisk(n, disk)
    ensures var r := FinishSave(n, replies); var n' := r.actor;
            && n'.boot == n.boot && n'.kids == n.kids && n'.state.dirs.Keys == n.state.dirs.Keys
            && n'.state == (if r.up.saved.Some? then r.up.saved.value.content else disk)
            && forall k :: k in n.state.dirs ==>
                 n'.state.dirs[k] == RefAfter(n.state.dirs, replies, k) &&
                 (k in n.kids || k !in replies ==> MemoryAt(n', k) == MemoryAt(n, k))
  {}

  lemma RefLoads(y: System, k: Path, store': set<State>)
    requires Wild(y) && y.root.phase.Saving? && k in y.root.state.dirs && y.store <= store'
    ensures var ref := RefAfter(y.root.state.dirs, y.root.phase.replies, k);
            Loadable(store', ref) <==> Loadable(y.store, ref)
  {
    var ref := RefAfter(y.root.state.dirs, y.root.phase.replies, k);
    assert k in y.root.phase.replies ==> ReplyAnchored(y.store, y.root.phase.replies[k]);
    if Loadable(y.store, ref) {
      LoadableMono(y.store, store', ref);
    }
    if Loadable(store', ref) {
      AnchoredLoads(y.store, store', ref);
    }
  }
}
