/** What every step of the actors keeps between saves: dirt is known upwards or
    a mark is on its way, and a clean child is what its parent's reference loads
    or the announcement that makes it so is on its way. */
module SaveProtocol {
  import opened Entries
  import opened DirStates
  import opened Actors
  import Promotion

  ghost predicate HasMark(inbox: seq<Msg>) {
    exists i :: 0 <= i < |inbox| && inbox[i].MarkAsDirty?
  }

  /** The hash of child `name` once every announcement in the mailbox has been
      processed, given the hash `current` now. */
  function Announced(inbox: seq<Msg>, name: Path, current: DirHash): DirHash {
    if inbox == [] then current
    else Announced(inbox[1..], name,
                   if inbox[0].UpdateHash? && inbox[0].name == name then inbox[0].hash else current)
  }

  lemma {:induction false} AnnouncedSnoc(inbox: seq<Msg>, m: Msg, name: Path, current: DirHash)
    ensures Announced(inbox + [m], name, current) ==
            if m.UpdateHash? && m.name == name then m.hash else Announced(inbox, name, current)
  {
    if inbox == [] {
      assert (inbox + [m])[1..] == [];
    } else {
      var next := if inbox[0].UpdateHash? && inbox[0].name == name then inbox[0].hash else current;
      assert (inbox + [m])[1..] == inbox[1..] + [m];
      AnnouncedSnoc(inbox[1..], m, name, next);
    }
  }

  /** An unannounced reference is not about to change. */
  lemma {:induction false} NotAnnounced(inbox: seq<Msg>, name: Path, current: DirHash)
    requires forall i :: 0 <= i < |inbox| && inbox[i].UpdateHash? ==> inbox[i].name != name
    ensures Announced(inbox, name, current) == current
  {
    if inbox != [] {
      assert forall i :: 0 <= i < |inbox[1..]| ==> inbox[1..][i] == inbox[i + 1];
      NotAnnounced(inbox[1..], name, current);
    }
  }

  lemma MarkSnoc(inbox: seq<Msg>, m: Msg)
    ensures HasMark(inbox + [m]) <==> HasMark(inbox) || m.MarkAsDirty?
  {
    if HasMark(inbox) {
      var i :| 0 <= i < |inbox| && inbox[i].MarkAsDirty?;
      assert (inbox + [m])[i].MarkAsDirty?;
    }
    if m.MarkAsDirty? {
      assert (inbox + [m])[|inbox|].MarkAsDirty?;
    }
  }

  lemma MarkPop(inbox: seq<Msg>)
    requires inbox != []
    ensures HasMark(inbox) <==> inbox[0].MarkAsDirty? || HasMark(inbox[1..])
  {
    assert inbox == [inbox[0]] + inbox[1..];
    if HasMark(inbox[1..]) {
      var i :| 0 <= i < |inbox[1..]| && inbox[1..][i].MarkAsDirty?;
      assert inbox[i + 1].MarkAsDirty?;
    }
    if HasMark(inbox) && !inbox[0].MarkAsDirty? {
      var i :| 0 <= i < |inbox| && inbox[i].MarkAsDirty?;
      assert inbox[1..][i - 1].MarkAsDirty?;
    }
  }

  // -------------------------------------------------------------- invariant

  ghost predicate NoSaves(inbox: seq<Msg>) {
    forall i :: 0 <= i < |inbox| ==> !inbox[i].SaveIfDirty?
  }

  /** Announcements come from open children. */
  ghost predicate FromKids(inbox: seq<Msg>, kids: set<Path>) {
    forall i :: 0 <= i < |inbox| && inbox[i].UpdateHash? ==> inbox[i].name in kids
  }

  /** Child `kid`, referenced by `ref` once all announcements are in. */
  ghost predicate Agrees(kid: Actor, knows: bool, ref: DirHash, store: set<State>) {
    && (kid.dirty ==> knows)
    && (kid.boot.Running? && !kid.dirty ==> ref == Of(kid.state) && kid.state in store)
    && (kid.boot.FromHash? ==> ref == kid.boot.hash)
    && NoSaves(kid.inbox)
  }

  /** The parent knows that it has dirt below, or will. */
  ghost predicate Knows(n: Actor) {
    n.dirty || HasMark(n.inbox)
  }

  ghost predicate Linked(n: Actor, name: Path, store: set<State>)
    requires name in n.kids && name in n.state.dirs
  {
    Agrees(n.kids[name], Knows(n), Announced(n.inbox, name, n.state.dirs[name]), store)
  }

  ghost predicate Inv(n: Actor, store: set<State>) {
    && n.phase.Idle?
    && match n.boot
       case WithState(s) => Unstarted(n) && RefsLoad(store, s)
       case FromHash(h) => Unstarted(n) && n.inbox != [] && Loadable(store, h)
       case Running =>
         && n.kids.Keys <= n.state.dirs.Keys
         && (forall k :: k in n.state.dirs && k !in n.kids ==> Loadable(store, n.state.dirs[k]))
         && FromKids(n.inbox, n.kids.Keys)
         && (forall k :: k in n.kids ==> Inv(n.kids[k], store) && Linked(n, k, store))
  }

  ghost predicate Unstarted(n: Actor) {
    n.kids == map[] && !n.dirty && forall i :: 0 <= i < |n.inbox| ==> n.inbox[i].PathOp?
  }

  lemma {:induction false} InvMono(n: Actor, store: set<State>, store': set<State>)
    requires Inv(n, store) && store <= store'
    ensures Inv(n, store')
  {
    match n.boot
    case WithState(s) =>
      forall k | k in s.dirs { LoadableMono(store, store', s.dirs[k]); }
    case FromHash(h) =>
      LoadableMono(store, store', h);
    case Running =>
      forall k | k in n.state.dirs && k !in n.kids { LoadableMono(store, store', n.state.dirs[k]); }
      forall k | k in n.kids
        ensures Inv(n.kids[k], store') && Linked(n, k, store')
      {
        InvMono(n.kids[k], store, store');
        assert Linked(n, k, store);
      }
  }

  // --------------------------------------------------- every step keeps it

  /** How an actor may change in one step, as its parent sees it. */
  ghost predicate Evolves(n: Actor, n': Actor, up: Up) {
    && (n'.dirty ==> n.dirty || up.Dirtied?)
    && (n.dirty ==> n'.dirty)
    && !up.Reply?
    && match n.boot
       case Running => n'.boot.Running? && !up.Announce? && (!n'.dirty ==> n'.state == n.state)
       case WithState(s) => n'.boot.Running? && n'.state == s && up == Announce(Of(s))
       case FromHash(h) => up.Quiet? && (n'.boot == n.boot || (n'.boot.Running? && Of(n'.state) == h))
  }

  /** The environment's choice fits the promotion this step performs, if any. */
  ghost predicate GoodChoice(n: Actor, store: set<State>, c: Choice) {
    n.boot.Running? && n.phase.Idle? && n.inbox != [] && n.inbox[0].PathOp? && n.inbox[0].op.FileTask? ==>
      var path := n.inbox[0].path;
      var files := Put(n.state.files, path, n.inbox[0].op.task(Get(n.state.files, path)));
      First(path) !in n.state.dirs && Promotes(files, path) ==>
        && Promotion.Optimized(Extract(files, First(path)), c.promoted)
        && RefsLoad(store + c.blobs, c.promoted)
  }

  /** `n'` has the children of `n` and owes them the same references. */
  ghost predicate SameLinks(n: Actor, n': Actor) {
    && n.boot.Running? && n'.boot.Running? && n'.phase.Idle? && n'.kids == n.kids
    && n.kids.Keys <= n.state.dirs.Keys && n'.state.dirs.Keys == n.state.dirs.Keys
    && FromKids(n'.inbox, n'.kids.Keys)
    && (Knows(n) ==> Knows(n'))
    && (forall k :: k in n.state.dirs && k !in n.kids ==> n'.state.dirs[k] == n.state.dirs[k])
    && (forall k :: k in n.kids ==>
          Announced(n'.inbox, k, n'.state.dirs[k]) == Announced(n.inbox, k, n.state.dirs[k]))
  }

  lemma SameLinksInv(n: Actor, n': Actor, store: set<State>)
    requires Inv(n, store) && SameLinks(n, n')
    ensures Inv(n', store)
  {
    forall k | k in n'.kids
      ensures Inv(n'.kids[k], store) && Linked(n', k, store)
    {
      assert Linked(n, k, store);
    }
  }

  /** An actor about to serve a message, and the actor without it. */
  ghost predicate Popped(n0: Actor, n: Actor, store: set<State>) {
    n0.boot.Running? && Inv(n0, store) && n0.inbox != [] && n == n0.(inbox := n0.inbox[1..])
  }

  lemma PopFromKids(n0: Actor, n: Actor, store: set<State>)
    requires Popped(n0, n, store)
    ensures FromKids(n.inbox, n.kids.Keys)
  {
    assert forall i :: 0 <= i < |n.inbox| ==> n.inbox[i] == n0.inbox[i + 1];
  }

  /** Serving anything but an announcement, with the references unchanged. */
  lemma ServedInv(n0: Actor, n: Actor, n': Actor, store: set<State>)
    requires Popped(n0, n, store) && !n0.inbox[0].UpdateHash?
    requires n'.boot.Running? && n'.phase.Idle? && n'.inbox == n.inbox && n'.kids == n.kids
    requires n'.state.dirs == n.state.dirs && (n0.inbox[0].MarkAsDirty? || n.dirty ==> n'.dirty)
    ensures Inv(n', store)
  {
    PopFromKids(n0, n, store);
    MarkPop(n0.inbox);
    SameLinksInv(n0, n', store);
  }

  /** Serving an announcement. */
  lemma UpdateInv(n0: Actor, n: Actor, n': Actor, store: set<State>)
    requires Popped(n0, n, store) && n0.inbox[0].UpdateHash?
    requires n'.boot.Running? && n'.phase.Idle? && n'.inbox == n.inbox && n'.kids == n.kids && (n.dirty ==> n'.dirty)
    requires n'.state.dirs == n.state.dirs[n0.inbox[0].name := n0.inbox[0].hash]
    ensures Inv(n', store)
  {
    assert n0.inbox[0].name in n0.kids;
    PopFromKids(n0, n, store);
    MarkPop(n0.inbox);
    SameLinksInv(n0, n', store);
  }

  /** A client's operation or a save request can join a mailbox. */
  lemma AppendInv(n: Actor, m: Msg, store: set<State>)
    requires Inv(n, store) && (m.PathOp? || (m.SaveIfDirty? && n.boot.Running?))
    ensures Inv(Send(n, m), store)
  {
    if n.boot.Running? {
      forall k | k in n.kids
        ensures Announced(n.inbox + [m], k, n.state.dirs[k]) == Announced(n.inbox, k, n.state.dirs[k])
      {
        AnnouncedSnoc(n.inbox, m, k, n.state.dirs[k]);
      }
      MarkSnoc(n.inbox, m);
      SameLinksInv(n, Send(n, m), store);
    }
  }

  /** `n` with one more child, or another one in its place. */
  lemma PutKidInv(n: Actor, name: Path, kid: Actor, store: set<State>)
    requires n.boot.Running? && n.phase.Idle? && FromKids(n.inbox, n.kids.Keys)
    requires n.kids.Keys <= n.state.dirs.Keys && name in n.state.dirs
    requires forall k :: k in n.state.dirs && k !in n.kids && k != name ==> Loadable(store, n.state.dirs[k])
    requires forall k :: k in n.kids && k != name ==> Inv(n.kids[k], store) && Linked(n, k, store)
    requires Inv(kid, store)
    requires Agrees(kid, Knows(n), Announced(n.inbox, name, n.state.dirs[name]), store)
    ensures Inv(n.(kids := n.kids[name := kid]), store)
  {
    var n' := n.(kids := n.kids[name := kid]);
    forall k | k in n'.kids
      ensures Inv(n'.kids[k], store) && Linked(n', k, store)
    {
      assert k != name ==> Linked(n, k, store);
    }
  }

  lemma ForwardInv(n0: Actor, n: Actor, name: Path, m: Msg, store: set<State>)
    requires Popped(n0, n, store) && n0.inbox[0].PathOp? && m.PathOp? && name in n.state.dirs
    ensures Inv(Forward(n, name, m), store)
  {
    ServedInv(n0, n, n, store);
    if name in n.kids {
      assert Linked(n, name, store);
      AppendInv(n.kids[name], m, store);
      PutKidInv(n, name, Send(n.kids[name], m), store);
    } else {
      NotAnnounced(n.inbox, name, n.state.dirs[name]);
      PutKidInv(n, name, Send(Spawn(FromHash(n.state.dirs[name])), m), store);
    }
  }

  /** A new child joins a parent that is dirty, with its announcement to come. */
  lemma AddKidInv(n: Actor, n1: Actor, name: Path, child: State, store: set<State>, store': set<State>)
    requires n.boot.Running? && Inv(n, store) && name !in n.state.dirs && store <= store' && RefsLoad(store', child)
    requires n1 == n.(state := n.state.(files := n1.state.files))
    ensures Inv(AddKid(n1, name, child).(dirty := true), store')
  {
    InvMono(n, store, store');
    var n2 := n1.(state := State(Without(n1.state.files, name), n.state.dirs[name := Zero]), dirty := true);
    forall k | k in n2.kids
      ensures Inv(n2.kids[k], store') && Linked(n2, k, store')
    {
      assert Linked(n, k, store');
    }
    PutKidInv(n2, name, Spawn(WithState(child)), store');
    assert n2.(kids := n2.kids[name := Spawn(WithState(child))]) == AddKid(n1, name, child).(dirty := true);
  }

  lemma MarkDirtyIs(n: Actor, blobs: set<State>)
    ensures MarkDirty(n, blobs).actor == n.(dirty := true)
  {}

  lemma TaskInv(n0: Actor, n: Actor, store: set<State>, c: Choice)
    requires Popped(n0, n, store) && n0.inbox[0].PathOp? && n0.inbox[0].op.FileTask?
    requires First(n0.inbox[0].path) !in n.state.dirs && GoodChoice(n0, store, c)
    ensures var r := RunTask(n, n0.inbox[0].path, n0.inbox[0].op.task, c);
            Inv(r.actor, store + r.blobs) && Evolves(n0, r.actor, r.up)
  {
    var path := n0.inbox[0].path;
    var value := n0.inbox[0].op.task(Get(n.state.files, path));
    var files := Put(n.state.files, path, value);
    var n1 := n.(state := n.state.(files := files));
    if value.Some? && Promotes(files, path) {
      ServedInv(n0, n, n, store);
      AddKidInv(n, n1, First(path), c.promoted, store, store + c.blobs);
      MarkDirtyIs(AddKid(n1, First(path), c.promoted), c.blobs);
    } else {
      assert store + {} == store;
      ServedInv(n0, n, n1.(dirty := true), store);
      MarkDirtyIs(n1, {});
    }
  }

  lemma CreateInv(n0: Actor, n: Actor, store: set<State>)
    requires Popped(n0, n, store) && n0.inbox[0].PathOp? && n0.inbox[0].path !in n.state.dirs
    ensures var child := State(Extract(n.state.files, n0.inbox[0].path), map[]);
            var r := MarkDirty(AddKid(n, n0.inbox[0].path, child), {});
            Inv(r.actor, store + r.blobs) && Evolves(n0, r.actor, r.up)
  {
    assert store + {} == store;
    var path := n0.inbox[0].path;
    var child := State(Extract(n.state.files, path), map[]);
    ServedInv(n0, n, n, store);
    AddKidInv(n, n, path, child, store, store);
    MarkDirtyIs(AddKid(n, path, child), {});
  }

  lemma PathOpInv(n0: Actor, n: Actor, store: set<State>, c: Choice)
    requires Popped(n0, n, store) && n0.inbox[0].PathOp? && GoodChoice(n0, store, c)
    ensures var r := HandlePathOp(n, n0.inbox[0].path, n0.inbox[0].op, c);
            Inv(r.actor, store + r.blobs) && Evolves(n0, r.actor, r.up)
  {
    var path, op := n0.inbox[0].path, n0.inbox[0].op;
    assert store + {} == store;
    if First(path) in n.state.dirs {
      ForwardInv(n0, n, First(path), PathOp(Rest(path), op), store);
    } else if op.FileTask? {
      TaskInv(n0, n, store, c);
    } else if path in n.state.dirs {
      ServedInv(n0, n, n, store);
    } else {
      CreateInv(n0, n, store);
    }
  }

  lemma HandleUpdateInv(n0: Actor, n: Actor, store: set<State>)
    requires Popped(n0, n, store) && n0.inbox[0].UpdateHash?
    ensures var r := HandleUpdate(n, n0.inbox[0].name, n0.inbox[0].hash);
            Inv(r.actor, store + r.blobs) && Evolves(n0, r.actor, r.up)
  {
    var name, hash := n0.inbox[0].name, n0.inbox[0].hash;
    assert store + {} == store;
    assert name in n0.kids;
    assert n.state.dirs[name] == hash ==> n.state.dirs[name := hash] == n.state.dirs;
    UpdateInv(n0, n, HandleUpdate(n, name, hash).actor, store);
  }

  lemma StartInv(n: Actor, store: set<State>)
    requires Inv(n, store) && !n.boot.Running?
    ensures var r := Start(n, store); Inv(r.actor, store + r.blobs) && Evolves(n, r.actor, r.up)
  {
    var r := Start(n, store);
    InvMono(n, store, store + r.blobs);
    if n.boot.FromHash? {
      assert Loadable(store, n.boot.hash);
    }
  }

  /** Starting, and serving any message but a save request, keep the invariant. */
  lemma OwnStepInv(n: Actor, isRoot: bool, store: set<State>, c: Choice)
    requires Inv(n, store) && GoodChoice(n, store, c) && !(n.boot.Running? && n.inbox == [])
    requires n.boot.Running? ==> !n.inbox[0].SaveIfDirty?
    ensures var r := OwnStep(n, isRoot, store, c);
            Inv(r.actor, store + r.blobs) && Evolves(n, r.actor, r.up)
  {
    if !n.boot.Running? {
      StartInv(n, store);
    } else {
      var n1 := n.(inbox := n.inbox[1..]);
      match n.inbox[0]
      case PathOp(_, _) => PathOpInv(n, n1, store, c);
      case MarkAsDirty =>
        assert store + {} == store;
        ServedInv(n, n1, n1.(dirty := true), store);
        MarkDirtyIs(n1, {});
      case UpdateHash(_, _) => HandleUpdateInv(n, n1, store);
    }
  }

  ghost predicate GoodChoiceAt(n: Actor, at: seq<Path>, store: set<State>, c: Choice)
    decreases at
  {
    if at == [] then GoodChoice(n, store, c)
    else at[0] in n.kids ==> GoodChoiceAt(n.kids[at[0]], at[1..], store, c)
  }

  /** A message from child `name` arrives. */
  lemma ReceiveInv(n: Actor, name: Path, up: Up, store: set<State>)
    requires n.boot.Running? && n.phase.Idle? && name in n.kids && n.kids.Keys <= n.state.dirs.Keys && !up.Reply?
    requires forall k :: k in n.state.dirs && k !in n.kids ==> Loadable(store, n.state.dirs[k])
    requires FromKids(n.inbox, n.kids.Keys)
    requires forall k :: k in n.kids ==> Inv(n.kids[k], store)
    requires forall k :: k in n.kids ==>
               var ref := Announced(n.inbox, k, n.state.dirs[k]);
               Agrees(n.kids[k], Knows(n) || up.Dirtied?, if up.Announce? && k == name then up.hash else ref, store)
    ensures Inv(Receive(n, name, up), store)
  {
    var n' := Receive(n, name, up);
    if up.Dirtied? || up.Announce? {
      var m := if up.Dirtied? then MarkAsDirty else UpdateHash(name, up.hash);
      MarkSnoc(n.inbox, m);
      forall k | k in n.kids
        ensures Linked(n', k, store)
      {
        AnnouncedSnoc(n.inbox, m, k, n.state.dirs[k]);
      }
    }
  }

  /** What a child's step leaves of the agreement with its parent. */
  lemma EvolvesAgrees(kid: Actor, kid': Actor, up: Up, knows: bool, ref: DirHash, store: set<State>)
    requires Agrees(kid, knows, ref, store) && Evolves(kid, kid', up) && NoSaves(kid'.inbox)
    requires kid.boot.WithState? ==> kid.boot.initial in store
    requires kid.boot.FromHash? ==> Loadable(store, kid.boot.hash)
    ensures Agrees(kid', knows || up.Dirtied?, if up.Announce? then up.hash else ref, store)
  {}

  /** A child's step, seen from its parent. */
  lemma KidStepInv(n: Actor, name: Path, r: Effect, store: set<State>)
    requires n.boot.Running? && Inv(n, store) && name in n.kids
    requires Inv(r.actor, store + r.blobs) && Evolves(n.kids[name], r.actor, r.up) && NoSaves(r.actor.inbox)
    requires n.kids[name].boot.WithState? ==> n.kids[name].boot.initial in r.blobs
    ensures Inv(Receive(n.(kids := n.kids[name := r.actor]), name, r.up), store + r.blobs)
  {
    var n1 := n.(kids := n.kids[name := r.actor]);
    var store' := store + r.blobs;
    InvMono(n, store, store');
    forall k | k in n1.kids
      ensures var ref := Announced(n1.inbox, k, n1.state.dirs[k]);
              Agrees(n1.kids[k], Knows(n1) || r.up.Dirtied?,
                     if r.up.Announce? && k == name then r.up.hash else ref, store')
    {
      assert Linked(n, k, store');
      if k == name {
        EvolvesAgrees(n.kids[name], r.actor, r.up, Knows(n), Announced(n.inbox, k, n.state.dirs[k]), store');
      }
    }
    ReceiveInv(n1, name, r.up, store');
  }

  lemma NoSavesStep(n: Actor, at: seq<Path>, store: set<State>, c: Choice)
    requires NoSaves(n.inbox)
    ensures NoSaves(StepAt(n, false, at, store, c).actor.inbox)
  {}

  /** A step anywhere in the tree keeps the invariant, unless it is the root
      serving a save request. */
  lemma {:induction false} StepAtInv(n: Actor, isRoot: bool, at: seq<Path>, store: set<State>, c: Choice)
    requires Inv(n, store) && GoodChoiceAt(n, at, store, c)
    requires at == [] && n.boot.Running? && n.inbox != [] ==> !n.inbox[0].SaveIfDirty?
    ensures var r := StepAt(n, isRoot, at, store, c);
            && Inv(r.actor, store + r.blobs)
            && (Evolves(n, r.actor, r.up) || r == Effect(n, Quiet, {}))
            && (r != Effect(n, Quiet, {}) && n.boot.WithState? ==> n.boot.initial in r.blobs)
    decreases at
  {
    if at == [] {
      if n.boot.Running? && n.inbox == [] {
        assert store + {} == store;
      } else {
        OwnStepInv(n, isRoot, store, c);
      }
    } else if at[0] !in n.kids {
      assert store + {} == store;
    } else {
      var kid := n.kids[at[0]];
      var r := StepAt(kid, false, at[1..], store, c);
      assert Linked(n, at[0], store);
      StepAtInv(kid, false, at[1..], store, c);
      if r == Effect(kid, Quiet, {}) {
        assert store + {} == store && n.kids[at[0] := kid] == n.kids;
      } else {
        NoSavesStep(kid, at[1..], store, c);
        KidStepInv(n, at[0], r, store);
      }
    }
  }
}
