/** The save as a walk through the actors, interleaved with everything else they
    do: what an undisturbed walk computes, and exactly when that is the tree in
    memory. */
module SaveWalk {
  import opened Entries
  import opened DirStates
  import opened Actors
  import opened SaveProtocol
  import opened ActorShape

  // ------------------------------------------ the save as one recursive call

  datatype SaveResult = SaveResult(actor: Actor, hash: Option<DirHash>)

  /** Children first, then their hashes into this state, then this state. */
  function SaveTree(n: Actor, isRoot: bool): SaveResult
    decreases n, 1
  {
    if !n.dirty && !isRoot then SaveResult(n, None)
    else
      var r := FinishSave(n.(kids := SavedKids(n)), Replies(n));
      SaveResult(r.actor, r.up.saved)
  }

  function SavedKids(n: Actor): map<Path, Actor>
    decreases n, 0
  {
    map k | k in n.kids :: SaveTree(n.kids[k], false).actor
  }

  function Replies(n: Actor): map<Path, Option<DirHash>>
    decreases n, 0
  {
    map k | k in n.kids :: SaveTree(n.kids[k], false).hash
  }

  /** Everything such a save writes is in the store. */
  ghost predicate Written(n: Actor, isRoot: bool, store: set<State>) {
    n.dirty || isRoot ==>
      && (forall k :: k in n.kids ==> Written(n.kids[k], false, store))
      && FinishSave(n.(kids := SavedKids(n)), Replies(n)).blobs <= store
  }

  lemma {:induction false} WrittenMono(n: Actor, isRoot: bool, store: set<State>, store': set<State>)
    requires Written(n, isRoot, store) && store <= store'
    ensures Written(n, isRoot, store')
  {
    if n.dirty || isRoot {
      forall k | k in n.kids
        ensures Written(n.kids[k], false, store')
      {
        WrittenMono(n.kids[k], false, store, store');
      }
    }
  }

  /** The fields of a saved actor. */
  lemma SaveFields(n: Actor, isRoot: bool)
    requires n.dirty || isRoot
    ensures var n' := SaveTree(n, isRoot).actor;
            && n'.boot == n.boot && !n'.dirty && n'.inbox == n.inbox && n'.phase.Idle? && n'.kids == SavedKids(n)
            && n'.state.files == n.state.files && n'.state.dirs.Keys == n.state.dirs.Keys
            && (forall k :: k in n.state.dirs ==> n'.state.dirs[k] == RefAfter(n.state.dirs, Replies(n), k))
            && (forall k :: k in n.state.dirs && k !in n.kids ==> n'.state.dirs[k] == n.state.dirs[k])
  {
    assert Replies(n).Keys == n.kids.Keys;
  }

  /** What a save answers. */
  lemma SaveAnswer(n: Actor, isRoot: bool, store: set<State>)
    requires (n.dirty || isRoot) && Written(n, isRoot, store)
    ensures var r := SaveTree(n, isRoot);
            && (r.hash.Some? ==> r.hash.value == Of(r.actor.state) && r.actor.state in store)
            && (r.hash.None? ==> !n.dirty && r.actor.state == n.state)
  {}

  // ------------------------------------------------------------- quiet trees

  /** No message is undelivered here or below, and everyone is up. */
  ghost predicate Settled(n: Actor) {
    n.boot.Running? && n.phase.Idle? && n.inbox == [] && forall k :: k in n.kids ==> Settled(n.kids[k])
  }

  ghost predicate KidsSettled(n: Actor) {
    forall k :: k in n.kids ==> Settled(n.kids[k])
  }

  /** Every clean open child is referenced under the hash of its own state. */
  ghost predicate RefsCurrent(n: Actor) {
    forall k :: k in n.kids && k in n.state.dirs && !n.kids[k].dirty ==> n.state.dirs[k] == Of(n.kids[k].state)
  }

  lemma SettledRefs(n: Actor, store: set<State>)
    requires Inv(n, store) && Settled(n)
    ensures RefsCurrent(n)
    ensures forall k :: k in n.kids && !n.dirty ==> !n.kids[k].dirty
  {
    forall k | k in n.kids
      ensures !n.kids[k].dirty ==> n.state.dirs[k] == Of(n.kids[k].state)
      ensures !n.dirty ==> !n.kids[k].dirty
    {
      assert Linked(n, k, store);
    }
  }

  /** A clean settled subtree is already in the store, whole. */
  lemma {:induction false} CleanIsStored(n: Actor, store: set<State>)
    requires Inv(n, store) && Settled(n) && !n.dirty
    ensures RefsLoad(store, n.state) && TreeOf(Of(n.state)) == Memory(n)
  {
    SettledRefs(n, store);
    forall k | k in n.state.dirs
      ensures Loadable(store, n.state.dirs[k])
      ensures TreeOf(n.state.dirs[k]) == if k in n.kids then Memory(n.kids[k]) else TreeOf(n.state.dirs[k])
    {
      if k in n.kids {
        assert Linked(n, k, store);
        CleanIsStored(n.kids[k], store);
      }
    }
    MemoryIs(n, TreeOf(Of(n.state)).dirs);
  }

  lemma {:induction false} SaveKeepsSettled(n: Actor)
    requires Settled(n)
    ensures Settled(SaveTree(n, false).actor)
  {
    if n.dirty {
      forall k | k in n.kids
        ensures Settled(SavedKids(n)[k])
      {
        SaveKeepsSettled(n.kids[k]);
      }
    }
  }

  // -------------------------------------------- what the recursive save does

  /** `n'` is the settled `n` after saving: clean, the same tree, all stored. */
  ghost predicate Flushed(n: Actor, n': Actor, store: set<State>) {
    && Inv(n', store) && Settled(n') && !n'.dirty
    && Loadable(store, Of(n'.state))
    && TreeOf(Of(n'.state)) == Memory(n) == Memory(n')
  }

  /** `n'` carries the flushed children of `n` and references them. */
  ghost predicate Assembled(n: Actor, n': Actor, store: set<State>) {
    && n.boot.Running? && n.kids.Keys <= n.state.dirs.Keys
    && n'.boot.Running? && n'.phase.Idle? && !n'.dirty && n'.kids.Keys == n.kids.Keys
    && n'.state.files == n.state.files && n'.state.dirs.Keys == n.state.dirs.Keys
    && (forall k :: k in n.state.dirs && k !in n.kids ==>
          n'.state.dirs[k] == n.state.dirs[k] && Loadable(store, n'.state.dirs[k]))
    && (forall k :: k in n.kids ==> FlushedUnder(n.kids[k], n'.kids[k], n'.state.dirs[k], store))
  }

  ghost predicate FlushedUnder(kid: Actor, kid': Actor, ref: DirHash, store: set<State>) {
    Flushed(kid, kid', store) && ref == Of(kid'.state)
  }

  lemma AssembledTree(n: Actor, n': Actor, store: set<State>)
    requires Assembled(n, n', store)
    ensures RefsLoad(store, n'.state) && TreeOf(Of(n'.state)) == Memory(n) == Memory(n')
  {
    var m := TreeOf(Of(n'.state)).dirs;
    forall k | k in n.kids
      ensures m[k] == Memory(n.kids[k]) == Memory(n'.kids[k]) && Loadable(store, n'.state.dirs[k])
    {
      assert FlushedUnder(n.kids[k], n'.kids[k], n'.state.dirs[k], store);
    }
    MemoryIs(n, m);
    MemoryIs(n', m);
  }

  ghost predicate NoUpdates(inbox: seq<Msg>) {
    forall i :: 0 <= i < |inbox| ==> !inbox[i].UpdateHash?
  }

  lemma AssembledInv(n: Actor, n': Actor, store: set<State>)
    requires Assembled(n, n', store) && NoUpdates(n'.inbox)
    ensures Inv(n', store)
  {
    forall k | k in n'.kids
      ensures Inv(n'.kids[k], store) && Linked(n', k, store)
    {
      assert FlushedUnder(n.kids[k], n'.kids[k], n'.state.dirs[k], store);
      NotAnnounced(n'.inbox, k, n'.state.dirs[k]);
    }
  }

  /** One child's share of a save. */
  lemma {:induction false} SaveKid(n: Actor, k: Path, store: set<State>, store': set<State>)
    requires n.boot.Running? && Inv(n, store) && KidsSettled(n) && k in n.kids && store <= store'
    requires !n.kids[k].dirty ==> n.state.dirs[k] == Of(n.kids[k].state)
    requires Written(n.kids[k], false, store')
    ensures FlushedUnder(n.kids[k], SavedKids(n)[k], RefAfter(n.state.dirs, Replies(n), k), store')
    decreases n, 0
  {
    assert Linked(n, k, store);
    var kid := n.kids[k];
    InvMono(kid, store, store');
    if kid.dirty {
      SaveAssembles(kid, false, store, store');
      SaveFields(kid, false);
      SaveAnswer(kid, false, store');
      AssembledTree(kid, SavedKids(n)[k], store');
      AssembledInv(kid, SavedKids(n)[k], store');
      SaveKeepsSettled(kid);
    } else {
      CleanIsStored(kid, store');
    }
  }

  /** A save flushes the children and references them, if the clean ones were
      referenced rightly to begin with. */
  lemma {:induction false} SaveAssembles(n: Actor, isRoot: bool, store: set<State>, store': set<State>)
    requires n.boot.Running? && Inv(n, store) && KidsSettled(n) && (isRoot || Settled(n)) && (n.dirty || isRoot)
    requires isRoot ==> RefsCurrent(n)
    requires store <= store' && Written(n, isRoot, store')
    ensures Assembled(n, SaveTree(n, isRoot).actor, store')
    decreases n, 2
  {
    if !isRoot {
      SettledRefs(n, store);
    }
    SaveFields(n, isRoot);
    KidsFlushed(n, store, store');
    forall k | k in n.state.dirs && k !in n.kids { LoadableMono(store, store', n.state.dirs[k]); }
  }

  lemma {:induction false} KidsFlushed(n: Actor, store: set<State>, store': set<State>)
    requires n.boot.Running? && Inv(n, store) && KidsSettled(n) && RefsCurrent(n) && store <= store'
    requires forall k :: k in n.kids ==> Written(n.kids[k], false, store')
    ensures forall k :: k in n.kids ==>
              FlushedUnder(n.kids[k], SavedKids(n)[k], RefAfter(n.state.dirs, Replies(n), k), store')
    decreases n, 1
  {
    forall k | k in n.kids
      ensures FlushedUnder(n.kids[k], SavedKids(n)[k], RefAfter(n.state.dirs, Replies(n), k), store')
    {
      SaveKid(n, k, store, store');
    }
  }

  // ------------------------------------------------- exactly when it is right

  /** What a save will reference stands for what is in memory: an unopened child
      loads; a dirty one is sound itself; and a clean one, which will not be
      saved, is referenced under a hash that loads and holds its tree. */
  ghost predicate Sound(n: Actor, store: set<State>)
    decreases n, 1
  {
    forall k :: k in n.state.dirs ==> SoundAt(n, k, store)
  }

  ghost predicate SoundAt(n: Actor, k: Path, store: set<State>)
    requires k in n.state.dirs
    decreases n, 0
  {
    if k !in n.kids then Loadable(store, n.state.dirs[k])
    else if n.kids[k].dirty then Sound(n.kids[k], store)
    else Loadable(store, n.state.dirs[k]) && TreeOf(n.state.dirs[k]) == Memory(n.kids[k])
  }

  /** What memory holds at one of an actor's directories. */
  function MemoryAt(n: Actor, k: Path): Tree
    requires k in n.state.dirs
  {
    if k in n.kids then Memory(n.kids[k]) else TreeOf(n.state.dirs[k])
  }

  /** A state is the tree in memory exactly when it is so at every directory. */
  lemma PublishedByDirs(n: Actor, s: State, store: set<State>)
    requires n.boot.Running? && s.files == n.state.files && s.dirs.Keys == n.state.dirs.Keys
    ensures RefsLoad(store, s) && TreeOf(Of(s)) == Memory(n) <==>
            forall k :: k in s.dirs ==> Loadable(store, s.dirs[k]) && TreeOf(s.dirs[k]) == MemoryAt(n, k)
  {
    var m := map k | k in n.state.dirs :: MemoryAt(n, k);
    MemoryIs(n, m);
    assert TreeOf(Of(s)).dirs.Keys == m.Keys;
    if forall k :: k in s.dirs ==> Loadable(store, s.dirs[k]) && TreeOf(s.dirs[k]) == MemoryAt(n, k) {
      assert TreeOf(Of(s)).dirs == m;
    } else if TreeOf(Of(s)) == Memory(n) {
      forall k | k in s.dirs
        ensures TreeOf(s.dirs[k]) == MemoryAt(n, k)
      {
        assert TreeOf(Of(s)).dirs[k] == m[k];
      }
    }
  }

  /** Only actors that have started are dirty. */
  ghost predicate DirtyRuns(n: Actor) {
    (n.dirty ==> n.boot.Running?) && forall k :: k in n.kids ==> DirtyRuns(n.kids[k])
  }

  lemma {:induction false} SettledRuns(n: Actor)
    requires n.boot.Running? && KidsSettled(n)
    ensures DirtyRuns(n)
  {
    forall k | k in n.kids { SettledRuns(n.kids[k]); }
  }

  /** The recursive save of any tree of actors publishes the tree in memory if and
      only if the tree is sound. */
  lemma {:induction false} SaveTreeIff(n: Actor, isRoot: bool, store: set<State>)
    requires n.boot.Running? && DirtyRuns(n) && (n.dirty || isRoot) && Written(n, isRoot, store)
    ensures var n' := SaveTree(n, isRoot).actor;
            RefsLoad(store, n'.state) && TreeOf(Of(n'.state)) == Memory(n) <==> Sound(n, store)
  {
    var n' := SaveTree(n, isRoot).actor;
    SaveFields(n, isRoot);
    forall k | k in n.state.dirs
      ensures Loadable(store, n'.state.dirs[k]) && TreeOf(n'.state.dirs[k]) == MemoryAt(n, k) <==> SoundAt(n, k, store)
    {
      if k in n.kids && n.kids[k].dirty {
        SaveTreeIff(n.kids[k], false, store);
        SaveAnswer(n.kids[k], false, store);
      }
    }
    PublishedByDirs(n, n'.state, store);
  }

  /** Mail does not matter to soundness. */
  lemma SoundMail(n: Actor, inbox: seq<Msg>, store: set<State>)
    ensures Sound(n.(inbox := inbox), store) <==> Sound(n, store)
  {
    var n' := n.(inbox := inbox);
    assert forall k :: k in n.state.dirs ==> (SoundAt(n', k, store) <==> SoundAt(n, k, store));
  }

  /** Nor do blobs that come to the store, as no reference dangles. */
  lemma {:induction false} SoundGrows(n: Actor, store: set<State>, store': set<State>)
    requires Rooted(n, store) && store <= store'
    ensures Sound(n, store') <==> Sound(n, store)
  {
    forall k | k in n.state.dirs
      ensures SoundAt(n, k, store') <==> SoundAt(n, k, store)
    {
      if Loadable(store, n.state.dirs[k]) {
        LoadableMono(store, store', n.state.dirs[k]);
      }
      if Loadable(store', n.state.dirs[k]) {
        AnchoredLoads(store, store', n.state.dirs[k]);
      }
      if k in n.kids && n.kids[k].dirty {
        SoundGrows(n.kids[k], store, store');
      }
    }
  }

  /** While the invariant holds, soundness comes down to the root's children. */
  lemma {:induction false} SoundIfCurrent(n: Actor, store: set<State>)
    requires n.boot.Running? && Inv(n, store) && KidsSettled(n)
    ensures Sound(n, store) <==> RefsCurrent(n)
  {
    forall k | k in n.state.dirs
      ensures SoundAt(n, k, store) <==> (k in n.kids && !n.kids[k].dirty ==> n.state.dirs[k] == Of(n.kids[k].state))
    {
      if k in n.kids {
        assert Linked(n, k, store);
        var kid := n.kids[k];
        if kid.dirty {
          SettledRefs(kid, store);
          SoundIfCurrent(kid, store);
        } else {
          CleanIsStored(kid, store);
          CleanRefIff(n.state.dirs[k], kid, store);
        }
      }
    }
  }

  lemma CleanRefIff(h: DirHash, kid: Actor, store: set<State>)
    requires kid.state in store && RefsLoad(store, kid.state) && TreeOf(Of(kid.state)) == Memory(kid)
    ensures Loadable(store, h) && TreeOf(h) == Memory(kid) <==> h == Of(kid.state)
  {
    if Loadable(store, h) && TreeOf(h) == Memory(kid) {
      TreeOfInjective(store, h, Of(kid.state));
    }
  }

  // ---------------------------------------------------- the interleaved walk

  /** A child of a saving actor: asked, or saving itself, or done. */
  ghost predicate KidWalks(kid0: Actor, kid: Actor, reply: Option<Option<DirHash>>, store: set<State>)
    decreases kid0, 2
  {
    match reply
    case Some(hash) => SaveTree(kid0, false) == SaveResult(kid, hash) && Written(kid0, false, store)
    case None => kid == Send(kid0, SaveIfDirty) || (kid0.dirty && Walking(kid0, kid, store))
  }

  /** `n` is in the middle of the save it began as `n0`. */
  ghost predicate Walking(n0: Actor, n: Actor, store: set<State>)
    decreases n0, 1
  {
    && n.phase.Saving? && n == n0.(phase := n.phase, kids := n.kids)
    && n.phase.replies.Keys <= n0.kids.Keys && KidsWalk(n0, n.kids, n.phase.replies, store)
  }

  ghost predicate KidsWalk(n0: Actor, kids: map<Path, Actor>, replies: map<Path, Option<DirHash>>, store: set<State>)
    decreases n0, 0
  {
    && kids.Keys == n0.kids.Keys
    && forall k :: k in n0.kids ==> KidWalks(n0.kids[k], kids[k], Get(replies, k), store)
  }

  lemma {:induction false} WalkingMono(n0: Actor, n: Actor, store: set<State>, store': set<State>)
    requires Walking(n0, n, store) && store <= store'
    ensures Walking(n0, n, store')
    decreases n0, 0
  {
    forall k | k in n0.kids
      ensures KidWalks(n0.kids[k], n.kids[k], Get(n.phase.replies, k), store')
    {
      KidWalksMono(n0.kids[k], n.kids[k], Get(n.phase.replies, k), store, store');
    }
  }

  lemma {:induction false} KidWalksMono(kid0: Actor, kid: Actor, reply: Option<Option<DirHash>>,
                                        store: set<State>, store': set<State>)
    requires KidWalks(kid0, kid, reply, store) && store <= store'
    ensures KidWalks(kid0, kid, reply, store')
    decreases kid0, 1
  {
    if reply.Some? {
      WrittenMono(kid0, false, store, store');
    } else if kid != Send(kid0, SaveIfDirty) {
      WalkingMono(kid0, kid, store, store');
    }
  }

  /** Nothing happens in a settled tree. */
  lemma {:induction false} SettledIsStill(n: Actor, at: seq<Path>, store: set<State>, c: Choice)
    requires Settled(n)
    ensures StepAt(n, false, at, store, c) == Effect(n, Quiet, {})
    decreases at
  {
    if at != [] && at[0] in n.kids {
      SettledIsStill(n.kids[at[0]], at[1..], store, c);
      assert n.kids[at[0] := n.kids[at[0]]] == n.kids;
    }
  }

  lemma WalkBegins(n: Actor, isRoot: bool, store: set<State>)
    requires (n.dirty || isRoot) && n.phase.Idle?
    ensures BeginSave(n, isRoot).up.Quiet? && BeginSave(n, isRoot).blobs == {}
    ensures Walking(n, BeginSave(n, isRoot).actor, store)
  {}

  /** When the last answer is in, the actor does what the recursive save does. */
  lemma WalkFinishes(n0: Actor, n: Actor, isRoot: bool, store: set<State>)
    requires Walking(n0, n, store) && n0.phase.Idle? && (n0.dirty || isRoot) && n.phase.replies.Keys == n.kids.Keys
    ensures var r := FinishSave(n, n.phase.replies);
            SaveTree(n0, isRoot) == SaveResult(r.actor, r.up.saved) && Written(n0, isRoot, store + r.blobs)
  {
    var r := FinishSave(n, n.phase.replies);
    forall k | k in n0.kids
      ensures SaveTree(n0.kids[k], false) == SaveResult(n.kids[k], n.phase.replies[k])
      ensures Written(n0.kids[k], false, store + r.blobs)
    {
      assert KidWalks(n0.kids[k], n.kids[k], Get(n.phase.replies, k), store);
      WrittenMono(n0.kids[k], false, store, store + r.blobs);
    }
    assert n.kids == SavedKids(n0) && n.phase.replies == Replies(n0);
    assert r.blobs == FinishSave(n0.(kids := SavedKids(n0)), Replies(n0)).blobs;
  }

  /** A step below a walking actor: the child walks on or answers. */
  lemma {:induction false} KidWalkStep(kid0: Actor, kid: Actor, reply: Option<Option<DirHash>>, at: seq<Path>,
                                       store: set<State>, c: Choice)
    requires Settled(kid0) && KidWalks(kid0, kid, reply, store)
    ensures var r := StepAt(kid, false, at, store, c);
            && (r.up.Quiet? || (r.up.Reply? && reply.None?))
            && KidWalks(kid0, r.actor, if r.up.Reply? then Some(r.up.saved) else reply, store + r.blobs)
    decreases at, 1
  {
    assert store + {} == store;
    if reply.Some? {
      SaveKeepsSettled(kid0);
      SettledIsStill(kid, at, store, c);
    } else if kid == Send(kid0, SaveIfDirty) {
      if at != [] {
        StillBelow(kid0, kid, at, store, c);
      } else {
        assert kid.inbox[1..] == [] && kid.(inbox := []) == kid0;
        if kid0.dirty {
          WalkBegins(kid0, false, store);
        }
      }
    } else {
      WalkStep(kid0, kid, false, at, store, c);
    }
  }

  /** The children of an actor that has only been asked are still. */
  lemma StillBelow(n0: Actor, n: Actor, at: seq<Path>, store: set<State>, c: Choice)
    requires Settled(n0) && n.kids == n0.kids && at != []
    ensures StepAt(n, false, at, store, c) == Effect(n, Quiet, {})
  {
    if at[0] in n.kids {
      SettledIsStill(n.kids[at[0]], at[1..], store, c);
      assert n.kids[at[0] := n.kids[at[0]]] == n.kids;
    }
  }

  /** Every step of an undisturbed walk, by whichever actor, continues the walk
      or completes it with the result of the recursive save. */
  lemma {:induction false} WalkStep(n0: Actor, n: Actor, isRoot: bool, at: seq<Path>, store: set<State>, c: Choice)
    requires n0.boot.Running? && n0.phase.Idle? && KidsSettled(n0) && (n0.dirty || isRoot) && Walking(n0, n, store)
    ensures var r := StepAt(n, isRoot, at, store, c);
            || (r.up.Quiet? && Walking(n0, r.actor, store + r.blobs))
            || (r.up.Reply? && SaveTree(n0, isRoot) == SaveResult(r.actor, r.up.saved)
                && Written(n0, isRoot, store + r.blobs))
    decreases at, 0
  {
    assert store + {} == store;
    if at == [] {
      if n.phase.replies.Keys == n.kids.Keys {
        WalkFinishes(n0, n, isRoot, store);
      }
    } else if at[0] in n.kids {
      var k := at[0];
      assert KidWalks(n0.kids[k], n.kids[k], Get(n.phase.replies, k), store);
      KidWalkStep(n0.kids[k], n.kids[k], Get(n.phase.replies, k), at[1..], store, c);
      WalkOn(n0, n, k, StepAt(n.kids[k], false, at[1..], store, c), store);
    }
  }

  lemma WalkOn(n0: Actor, n: Actor, k: Path, r: Effect, store: set<State>)
    requires Walking(n0, n, store) && k in n0.kids && (r.up.Quiet? || r.up.Reply?)
    requires var reply := if r.up.Reply? then Some(r.up.saved) else Get(n.phase.replies, k);
             KidWalks(n0.kids[k], r.actor, reply, store + r.blobs)
    ensures Walking(n0, Receive(n.(kids := n.kids[k := r.actor]), k, r.up), store + r.blobs)
  {
    var replies := n.phase.replies;
    var replies' := if r.up.Reply? then replies[k := r.up.saved] else replies;
    WalkingMono(n0, n, store, store + r.blobs);
    KidsWalkOn(n0, n.kids, replies, k, r.actor, replies', store + r.blobs);
    assert Receive(n.(kids := n.kids[k := r.actor]), k, r.up) ==
           n0.(phase := Saving(replies'), kids := n.kids[k := r.actor]);
  }

  lemma KidsWalkOn(n0: Actor, kids: map<Path, Actor>, replies: map<Path, Option<DirHash>>, k: Path, kid: Actor,
                   replies': map<Path, Option<DirHash>>, store: set<State>)
    requires KidsWalk(n0, kids, replies, store) && k in n0.kids
    requires forall j :: j != k ==> Get(replies', j) == Get(replies, j)
    requires KidWalks(n0.kids[k], kid, Get(replies', k), store)
    ensures KidsWalk(n0, kids[k := kid], replies', store)
  {
    forall j | j in n0.kids
      ensures KidWalks(n0.kids[j], kids[k := kid][j], Get(replies', j), store)
    {
      assert j != k ==> KidWalks(n0.kids[j], kids[j], Get(replies, j), store);
    }
  }

  /** A walk never gets stuck: some actor can always take it further. */
  lemma {:induction false} WalkIsNeverStuck(n0: Actor, n: Actor, isRoot: bool, store: set<State>, c: Choice)
    returns (at: seq<Path>)
    requires n0.boot.Running? && KidsSettled(n0) && Walking(n0, n, store)
    ensures StepAt(n, isRoot, at, store, c).actor != n
    decreases n0
  {
    if n.phase.replies.Keys == n.kids.Keys {
      at := [];
    } else {
      var k :| k in n.kids && k !in n.phase.replies;
      var kid0, kid := n0.kids[k], n.kids[k];
      assert KidWalks(kid0, kid, None, store);
      if kid == Send(kid0, SaveIfDirty) {
        at := [k];
        assert kid.inbox[1..] == [];
      } else {
        var below := WalkIsNeverStuck(kid0, kid, false, store, c);
        at := [k] + below;
        assert at[1..] == below;
      }
      KidStepShows(n, isRoot, at, store, c);
    }
  }

  lemma KidStepShows(n: Actor, isRoot: bool, at: seq<Path>, store: set<State>, c: Choice)
    requires at != [] && at[0] in n.kids && StepAt(n.kids[at[0]], false, at[1..], store, c).actor != n.kids[at[0]]
    ensures StepAt(n, isRoot, at, store, c).actor != n
  {
    var r := StepAt(n.kids[at[0]], false, at[1..], store, c);
    assert StepAt(n, isRoot, at, store, c).actor.kids[at[0]] == r.actor;
  }

  /** A message that joins the mailbox does not disturb the walk. */
  lemma MailJoinsWalk(n0: Actor, n: Actor, m: Msg, store: set<State>)
    requires Walking(n0, n, store)
    ensures Walking(Send(n0, m), Send(n, m), store)
  {
    var n0' := Send(n0, m);
    forall k | k in n0'.kids
      ensures KidWalks(n0'.kids[k], n.kids[k], Get(n.phase.replies, k), store)
    {
      assert KidWalks(n0.kids[k], n.kids[k], Get(n.phase.replies, k), store);
    }
    assert KidsWalk(n0', n.kids, n.phase.replies, store);
  }

  /** Saving does not touch the tree in memory. */
  lemma {:induction false} SaveKeepsMemory(n: Actor, isRoot: bool)
    ensures Memory(SaveTree(n, isRoot).actor) == Memory(n)
  {
    var n' := SaveTree(n, isRoot).actor;
    if (n.dirty || isRoot) && n.boot.Running? {
      SaveFields(n, isRoot);
      forall k | k in n.kids
        ensures Memory(n'.kids[k]) == Memory(n.kids[k])
      {
        SaveKeepsMemory(n.kids[k], false);
      }
      MemoryIs(n', Memory(n).dirs);
    }
  }

  lemma MailIsNotMemory(n: Actor, inbox: seq<Msg>)
    ensures Memory(n.(inbox := inbox)) == Memory(n)
  {
    if n.boot.Running? {
      MemoryIs(n.(inbox := inbox), Memory(n).dirs);
    }
  }

  lemma {:induction false} WalkKeepsMemory(n0: Actor, n: Actor, store: set<State>)
    requires n0.boot.Running? && KidsSettled(n0) && Walking(n0, n, store)
    ensures Memory(n) == Memory(n0)
  {
    forall k | k in n0.kids
      ensures Memory(n.kids[k]) == Memory(n0.kids[k])
    {
      var kid0, kid := n0.kids[k], n.kids[k];
      assert KidWalks(kid0, kid, Get(n.phase.replies, k), store);
      if k in n.phase.replies {
        SaveKeepsMemory(kid0, false);
      } else if kid == Send(kid0, SaveIfDirty) {
        MailIsNotMemory(kid0, kid.inbox);
      } else {
        WalkKeepsMemory(kid0, kid, store);
      }
    }
    MemoryIs(n, Memory(n0).dirs);
  }
}
