/** The registry-backed pin set. Calls of `pin_hash`, `unpin_hash` and
    `unpin_hash_all` run concurrently, each as separate lock, read and write
    steps; the registry only accepts a write that beats the stored revision. */
module Pins {
  import opened Entries
  import opened Registry

  type Context = nat

  /** A registry row of the pinner; the payload is the encoded pin set. */
  type Row = Message<Option<set<Context>>>

  datatype Op = Pin(context: Context) | Unpin(context: Context) | UnpinAll

  /** Where a call is. It holds its lock from `Holding` to `Written`. */
  datatype Phase =
    | Waiting
    | Holding
    | Loaded(pins: set<Context>, revision: nat)
    | Written(reply: Option<bool>)
    | Returned(reply: Option<bool>)

  datatype Call = Call(op: Op, hash: Hash, phase: Phase) {
    predicate Locked() {
      phase.Holding? || phase.Loaded? || phase.Written?
    }
  }

  /** `log` lists the calls in the order in which they took effect. */
  datatype System = System(rows: map<nat, Row>, calls: map<nat, Call>, log: seq<Effect>)

  datatype Effect = Effect(id: nat, op: Op, hash: Hash, reply: Option<bool>)

  /** `lock_for_hash`: the first byte of the hash modulo 64. */
  function LockIndex(h: Hash): nat {
    (h / 0x100_0000_0000_0000_0000_0000_0000_0000_0000_0000_0000_0000_0000_0000_0000_0000) % 64
  }

  // ------------------------------------------------ what a call is meant to do

  function Applied(op: Op, pins: set<Context>): set<Context> {
    match op
    case Pin(c) => pins + {c}
    case Unpin(c) => pins - {c}
    case UnpinAll => {}
  }

  /** Only `unpin_hash` reports: whether nothing pins the hash any more. */
  function Reply(op: Op, pins: set<Context>): Option<bool> {
    if op.Unpin? then Some(Applied(op, pins) == {}) else None
  }

  // ------------------------------------------------------------ what it does

  /** `get_internal`: the pin set and the revision of a row. */
  function Load(rows: map<nat, Row>, h: Hash): (set<Context>, nat) {
    if h !in rows then ({}, 0)
    else (match rows[h].data case Some(pins) => pins case None => {}, rows[h].revision)
  }

  /** u64 addition in a release build. */
  function Increment(revision: nat): nat {
    if revision < U64_MAX then revision + 1 else 0
  }

  lemma IncrementWraps(revision: nat)
    requires revision <= U64_MAX
    ensures Increment(revision) == (revision + 1) % 0x1_0000_0000_0000_0000
  {}

  /** `save_internal`: an empty set deletes the row, any other is offered to the
      registry as a new message. `digest` is BLAKE3 of the encoded set. */
  function SaveRow(rows: map<nat, Row>, h: Hash, pins: set<Context>, revision: nat,
                   digest: set<Context> -> Hash): map<nat, Row> {
    if pins == {} then rows - {h}
    else Stored(rows, Message(RegistryType, h, revision, digest(pins), Some(pins)))
  }

  /** The write step of a call that has read `pins` at `revision`. */
  function WriteRow(rows: map<nat, Row>, call: Call, pins: set<Context>, revision: nat,
                    digest: set<Context> -> Hash): map<nat, Row> {
    match call.op
    case Pin(c) => SaveRow(rows, call.hash, pins + {c}, Increment(revision), digest)
    case Unpin(c) => if c !in pins then rows else SaveRow(rows, call.hash, pins - {c}, Increment(revision), digest)
    case UnpinAll => if pins == {} then rows else SaveRow(rows, call.hash, {}, Increment(revision), digest)
  }

  /** The next step of call `id`, if it can take one; a waiting call takes the
      lock only while no other call of its lock class holds it. */
  function StepOf(y: System, id: nat, digest: set<Context> -> Hash): System {
    if id !in y.calls then y
    else
      var call := y.calls[id];
      match call.phase
      case Waiting =>
        if LockFree(y, call.hash) then y.(calls := y.calls[id := call.(phase := Holding)]) else y
      case Holding =>
        var (pins, revision) := Load(y.rows, call.hash);
        y.(calls := y.calls[id := call.(phase := Loaded(pins, revision))])
      case Loaded(pins, revision) =>
        var reply := Reply(call.op, pins);
        System(WriteRow(y.rows, call, pins, revision, digest),
               y.calls[id := call.(phase := Written(reply))],
               y.log + [Effect(id, call.op, call.hash, reply)])
      case Written(reply) => y.(calls := y.calls[id := call.(phase := Returned(reply))])
      case Returned(_) => y
  }

  predicate LockFree(y: System, h: Hash) {
    forall c :: c in y.calls && LockIndex(y.calls[c].hash) == LockIndex(h) ==> !y.calls[c].Locked()
  }

  // --------------------------------------------------------------- invariant

  /** Lock holders exclude each other, and what a holder has read is current. */
  ghost predicate Inv(y: System) {
    && (forall h :: h in y.rows ==> y.rows[h].revision <= U64_MAX)
    && (forall c, d :: c in y.calls && d in y.calls && c != d && y.calls[c].Locked() && y.calls[d].Locked() ==>
          LockIndex(y.calls[c].hash) != LockIndex(y.calls[d].hash))
    && (forall c :: c in y.calls && y.calls[c].phase.Loaded? ==>
          Load(y.rows, y.calls[c].hash) == (y.calls[c].phase.pins, y.calls[c].phase.revision))
  }

  /** The pin sets after a log, started from `pins0`. */
  ghost function Replay(pins0: Hash -> set<Context>, log: seq<Effect>, h: Hash): set<Context> {
    if log == [] then pins0(h)
    else
      var before, last := Replay(pins0, log[..|log| - 1], h), log[|log| - 1];
      if last.hash == h then Applied(last.op, before) else before
  }

  /** Every reply in the log is the right one at its place. */
  ghost predicate Replied(pins0: Hash -> set<Context>, log: seq<Effect>) {
    forall i :: 0 <= i < |log| ==> log[i].reply == Reply(log[i].op, Replay(pins0, log[..i], log[i].hash))
  }

  /** The registry refines the map of pin sets that the log describes, and what
      a finished call returned is what the log says it did. */
  ghost predicate Refines(pins0: Hash -> set<Context>, y: System) {
    && (forall h: Hash :: Load(y.rows, h).0 == Replay(pins0, y.log, h))
    && Replied(pins0, y.log)
    && Logged(y)
  }

  predicate Finished(call: Call) {
    call.phase.Written? || call.phase.Returned?
  }

  /** The log has exactly one entry for each finished call, and no others. */
  ghost predicate Logged(y: System) {
    && (forall i, j :: 0 <= i < j < |y.log| ==> y.log[i].id != y.log[j].id)
    && (forall i :: 0 <= i < |y.log| ==>
          y.log[i].id in y.calls && Finished(y.calls[y.log[i].id]) && y.log[i] == EffectOf(y, y.log[i].id))
    && (forall c :: c in y.calls && Finished(y.calls[c]) ==> EffectOf(y, c) in y.log)
  }

  function EffectOf(y: System, c: nat): Effect
    requires c in y.calls && Finished(y.calls[c])
  {
    Effect(c, y.calls[c].op, y.calls[c].hash, y.calls[c].phase.reply)
  }

  /** A write under the lock leaves the pin set the operation means, if and only
      if the revision did not wrap around or no new row was needed; it never
      touches another hash. */
  lemma WriteIsExactIff(rows: map<nat, Row>, call: Call, digest: set<Context> -> Hash)
    requires call.hash in rows ==> rows[call.hash].revision <= U64_MAX
    ensures var (pins, revision) := Load(rows, call.hash);
            var rows' := WriteRow(rows, call, pins, revision, digest);
            && (Load(rows', call.hash).0 == Applied(call.op, pins)
                <==> revision < U64_MAX || Applied(call.op, pins) == {} || Applied(call.op, pins) == pins)
            && forall h: Hash :: h != call.hash ==> Load(rows', h) == Load(rows, h)
  {}

  // -------------------------------------------------------------------- runs

  datatype Event = Begin(id: nat, op: Op, hash: Hash) | Step(id: nat)

  function Next(y: System, e: Event, digest: set<Context> -> Hash): System {
    match e
    case Begin(id, op, hash) => if id in y.calls then y else y.(calls := y.calls[id := Call(op, hash, Waiting)])
    case Step(id) => StepOf(y, id, digest)
  }

  /** A call that is about to write still has a revision left, or needs none:
      its write leaves the pin set empty or as it is. */
  predicate Fits(y: System, e: Event) {
    e.Step? && e.id in y.calls && y.calls[e.id].phase.Loaded? ==>
      var pins := y.calls[e.id].phase.pins;
      var applied := Applied(y.calls[e.id].op, pins);
      y.calls[e.id].phase.revision < U64_MAX || applied == {} || applied == pins
  }

  lemma NextKeepsRevisions(y: System, e: Event, digest: set<Context> -> Hash)
    requires Inv(y)
    ensures var y' := Next(y, e, digest); forall h :: h in y'.rows ==> y'.rows[h].revision <= U64_MAX
  {}

  lemma NextKeepsLocks(y: System, e: Event, digest: set<Context> -> Hash)
    requires Inv(y)
    ensures var y' := Next(y, e, digest);
            forall c, d :: c in y'.calls && d in y'.calls && c != d && y'.calls[c].Locked() && y'.calls[d].Locked() ==>
              LockIndex(y'.calls[c].hash) != LockIndex(y'.calls[d].hash)
  {}

  lemma NextKeepsReads(y: System, e: Event, digest: set<Context> -> Hash)
    requires Inv(y)
    ensures var y' := Next(y, e, digest);
            forall c :: c in y'.calls && y'.calls[c].phase.Loaded? ==>
              Load(y'.rows, y'.calls[c].hash) == (y'.calls[c].phase.pins, y'.calls[c].phase.revision)
  {
    var y' := Next(y, e, digest);
    if e.Step? && e.id in y.calls && y.calls[e.id].phase.Loaded? {
      var call := y.calls[e.id];
      forall c | c in y'.calls && y'.calls[c].phase.Loaded?
        ensures Load(y'.rows, y'.calls[c].hash) == (y'.calls[c].phase.pins, y'.calls[c].phase.revision)
      {
        assert c != e.id && y.calls[c].Locked() && call.Locked();
        OtherRows(y.rows, call, call.phase.pins, call.phase.revision, digest, y.calls[c].hash);
      }
    }
  }

  lemma OtherRows(rows: map<nat, Row>, call: Call, pins: set<Context>, revision: nat,
                  digest: set<Context> -> Hash, h: Hash)
    requires h != call.hash
    ensures Load(WriteRow(rows, call, pins, revision, digest), h) == Load(rows, h)
  {}

  /** The write step is the one step that changes pin sets, and it changes them
      the way the log entry it adds says, if and only if its revision fits. */
  lemma NextRefinesIff(pins0: Hash -> set<Context>, y: System, e: Event, digest: set<Context> -> Hash)
    requires Inv(y) && Refines(pins0, y)
    ensures Refines(pins0, Next(y, e, digest)) <==> Fits(y, e)
  {
    if e.Step? && e.id in y.calls && y.calls[e.id].phase.Loaded? {
      var call := y.calls[e.id];
      var effect := Effect(e.id, call.op, call.hash, Reply(call.op, call.phase.pins));
      WriteRefinesIff(pins0, y.rows, y.log, call, effect, digest);
      WriteReplies(pins0, y.log, effect);
      WriteLogged(y, e.id, digest);
    } else {
      OtherLogged(y, e, digest);
    }
  }

  lemma WriteRefinesIff(pins0: Hash -> set<Context>, rows: map<nat, Row>, log: seq<Effect>, call: Call, effect: Effect,
                        digest: set<Context> -> Hash)
    requires Load(rows, call.hash).1 <= U64_MAX && effect.op == call.op && effect.hash == call.hash
    requires forall h: Hash :: Load(rows, h).0 == Replay(pins0, log, h)
    ensures var (pins, revision) := Load(rows, call.hash);
            var rows' := WriteRow(rows, call, pins, revision, digest);
            var applied := Applied(call.op, pins);
            (forall h: Hash :: Load(rows', h).0 == Replay(pins0, log + [effect], h)) <==>
            revision < U64_MAX || applied == {} || applied == pins
  {
    var (pins, revision) := Load(rows, call.hash);
    var rows' := WriteRow(rows, call, pins, revision, digest);
    assert (log + [effect])[..|log|] == log;
    WriteIsExactIff(rows, call, digest);
    forall h: Hash
      ensures h != call.hash ==> Load(rows', h).0 == Replay(pins0, log + [effect], h)
    {
      if h != call.hash {
        OtherRows(rows, call, pins, revision, digest, h);
      }
    }
    assert Replay(pins0, log + [effect], call.hash) == Applied(call.op, pins);
  }

  lemma WriteReplies(pins0: Hash -> set<Context>, log: seq<Effect>, effect: Effect)
    requires Replied(pins0, log) && effect.reply == Reply(effect.op, Replay(pins0, log, effect.hash))
    ensures Replied(pins0, log + [effect])
  {
    var log' := log + [effect];
    forall i | 0 <= i < |log'|
      ensures log'[i].reply == Reply(log'[i].op, Replay(pins0, log'[..i], log'[i].hash))
    {
      assert log'[..i] == log[..i];
      assert i == |log| ==> log[..i] == log;
    }
  }

  lemma WriteLogged(y: System, id: nat, digest: set<Context> -> Hash)
    requires Logged(y) && id in y.calls && y.calls[id].phase.Loaded?
    ensures Logged(StepOf(y, id, digest))
  {
    var y' := StepOf(y, id, digest);
    assert y'.log == y.log + [EffectOf(y', id)];
    forall c | c in y'.calls && Finished(y'.calls[c])
      ensures EffectOf(y', c) in y'.log
    {
      if c != id {
        assert EffectOf(y', c) == EffectOf(y, c);
      } else {
        assert y'.log[|y.log|] == EffectOf(y', c);
      }
    }
    forall i | 0 <= i < |y.log|
      ensures y.log[i].id != id && y.log[i] == EffectOf(y', y.log[i].id)
    {}
  }

  lemma OtherLogged(y: System, e: Event, digest: set<Context> -> Hash)
    requires Logged(y) && !(e.Step? && e.id in y.calls && y.calls[e.id].phase.Loaded?)
    ensures Logged(Next(y, e, digest)) && Next(y, e, digest).log == y.log && Next(y, e, digest).rows == y.rows
  {
    var y' := Next(y, e, digest);
    forall c
      ensures SameEffect(y, y', c)
    {}
    SameLogged(y, y');
  }

  ghost predicate SameEffect(y: System, y': System, c: nat) {
    && (c in y.calls && Finished(y.calls[c]) <==> c in y'.calls && Finished(y'.calls[c]))
    && (c in y.calls && Finished(y.calls[c]) && c in y'.calls && Finished(y'.calls[c]) ==>
          EffectOf(y', c) == EffectOf(y, c))
  }

  lemma SameLogged(y: System, y': System)
    requires Logged(y) && y'.log == y.log && forall c :: SameEffect(y, y', c)
    ensures Logged(y')
  {
    forall c | c in y'.calls && Finished(y'.calls[c])
      ensures EffectOf(y', c) in y'.log
    {
      assert SameEffect(y, y', c);
    }
    forall i | 0 <= i < |y.log|
      ensures y.log[i].id in y'.calls && Finished(y'.calls[y.log[i].id]) && y.log[i] == EffectOf(y', y.log[i].id)
    {
      assert SameEffect(y, y', y.log[i].id);
    }
  }

  function Run(y: System, es: seq<Event>, digest: set<Context> -> Hash): System
    decreases es
  {
    if es == [] then y else Run(Next(y, es[0], digest), es[1..], digest)
  }

  ghost predicate AllFit(y: System, es: seq<Event>, digest: set<Context> -> Hash)
    decreases es
  {
    es != [] ==> Fits(y, es[0]) && AllFit(Next(y, es[0], digest), es[1..], digest)
  }

  ghost predicate RefinesThroughout(pins0: Hash -> set<Context>, y: System, es: seq<Event>,
                                    digest: set<Context> -> Hash)
    decreases es
  {
    Refines(pins0, y) && (es != [] ==> RefinesThroughout(pins0, Next(y, es[0], digest), es[1..], digest))
  }

  lemma NextKeepsInv(y: System, e: Event, digest: set<Context> -> Hash)
    requires Inv(y)
    ensures Inv(Next(y, e, digest))
  {
    NextKeepsLocks(y, e, digest);
    NextKeepsReads(y, e, digest);
    NextKeepsRevisions(y, e, digest);
  }

  /** No update is lost: over every interleaving of any calls, from any initial
      registry, the stored pin sets are at every point those that the calls
      produce one after the other in the order of their writes, and each
      `unpin_hash` answered whether the set it left was empty, if and only if no
      write that needs a revision finds the last one used up. */
  lemma {:induction false} PinsAreAtomicIff(pins0: Hash -> set<Context>, y: System, es: seq<Event>,
                                            digest: set<Context> -> Hash)
    requires Inv(y) && Refines(pins0, y)
    ensures RefinesThroughout(pins0, y, es, digest) <==> AllFit(y, es, digest)
    decreases es
  {
    if es != [] {
      var next := Next(y, es[0], digest);
      NextKeepsInv(y, es[0], digest);
      NextRefinesIff(pins0, y, es[0], digest);
      if Refines(pins0, next) {
        PinsAreAtomicIff(pins0, next, es[1..], digest);
      } else {
        assert !RefinesThroughout(pins0, next, es[1..], digest);
      }
    }
  }

  /** In particular at the end of the run. */
  lemma {:induction false} PinsAreAtomic(pins0: Hash -> set<Context>, y: System, es: seq<Event>,
                                         digest: set<Context> -> Hash)
    requires Inv(y) && Refines(pins0, y) && AllFit(y, es, digest)
    ensures Inv(Run(y, es, digest)) && Refines(pins0, Run(y, es, digest))
    decreases es
  {
    if es != [] {
      NextKeepsInv(y, es[0], digest);
      NextRefinesIff(pins0, y, es[0], digest);
      PinsAreAtomic(pins0, Next(y, es[0], digest), es[1..], digest);
    }
  }

  /** The pins that a row holds: those of its payload. */
  function RowPins(row: Option<Row>): set<Context> {
    if row.Some? && row.value.data.Some? then row.value.data.value else {}
  }

  /** A pin adds its context and answers nothing, an unpin removes it and answers
      whether nothing is left, and unpinning all leaves nothing. */
  predicate Does(op: Op, before: set<Context>, after: set<Context>, reply: Option<bool>) {
    && (op.Pin? ==> after == before + {op.context} && reply == None)
    && (op.Unpin? ==> after == before - {op.context} && reply == Some(after == {}))
    && (op.UnpinAll? ==> after == {} && reply == None)
  }

  /** The write step of a call that has read the current row, with a revision
      left, does that. A hash that lost its pins has no row, one that is pinned
      or keeps some the next revision; a row that nothing was removed from
      stays, and so do the rows of other hashes. */
  lemma WriteStepMeaning(y: System, id: nat, digest: set<Context> -> Hash)
    requires Inv(y) && id in y.calls && y.calls[id].phase.Loaded? && y.calls[id].phase.revision < U64_MAX
    ensures var h, y' := y.calls[id].hash, StepOf(y, id, digest);
            var before, after := RowPins(Get(y.rows, h)), RowPins(Get(y'.rows, h));
            && y'.calls.Keys == y.calls.Keys && y'.calls[id].phase.Written?
            && (forall k :: k != h ==> Get(y'.rows, k) == Get(y.rows, k))
            && (before != {} && after == {} ==> h !in y'.rows)
            && (after != {} && (after != before || y.calls[id].op.Pin?) ==>
                  y'.rows[h].revision == 1 + (if h in y.rows then y.rows[h].revision else 0))
            && (after == before && !y.calls[id].op.Pin? ==> Get(y'.rows, h) == Get(y.rows, h))
            && Does(y.calls[id].op, before, after, y'.calls[id].phase.reply)
  {}

  /** In the log of every run, each unpin answered whether the set was empty
      after it, and the other calls answered nothing. */
  lemma LogAnswers(pins0: Hash -> set<Context>, y: System, i: nat)
    requires Refines(pins0, y) && i < |y.log|
    ensures var e := y.log[i];
            && (e.op.Unpin? ==> e.reply == Some(Replay(pins0, y.log[..i + 1], e.hash) == {}))
            && (!e.op.Unpin? ==> e.reply == None)
  {
    assert y.log[..i + 1][..i] == y.log[..i];
  }

  // ------------------------------------------------------------ no deadlock

  function StepsLeft(phase: Phase): nat {
    match phase
    case Waiting => 4
    case Holding => 3
    case Loaded(_, _) => 2
    case Written(_) => 1
    case Returned(_) => 0
  }

  /** A call that holds its lock, or finds it free, runs to its end alone. */
  lemma {:induction false} CallFinishes(y: System, id: nat, digest: set<Context> -> Hash) returns (es: seq<Event>)
    requires id in y.calls
    requires y.calls[id].phase.Waiting? ==> LockFree(y, y.calls[id].hash)
    ensures var y' := Run(y, es, digest);
            && y'.calls.Keys == y.calls.Keys && y'.calls[id].phase.Returned?
            && forall c :: c in y.calls && c != id ==> y'.calls[c] == y.calls[c]
    decreases StepsLeft(y.calls[id].phase)
  {
    es := [];
    if !y.calls[id].phase.Returned? {
      var rest := CallFinishes(StepOf(y, id, digest), id, digest);
      es := [Step(id)] + rest;
      assert es[1..] == rest;
    }
  }

  lemma {:induction false} RunAppend(y: System, es: seq<Event>, fs: seq<Event>, digest: set<Context> -> Hash)
    ensures Run(y, es + fs, digest) == Run(Run(y, es, digest), fs, digest)
    decreases es
  {
    if es == [] {
      assert es + fs == fs;
    } else {
      assert (es + fs)[1..] == es[1..] + fs;
      RunAppend(Next(y, es[0], digest), es[1..], fs, digest);
    }
  }

  function Unreturned(y: System): set<nat> {
    set c | c in y.calls && !y.calls[c].phase.Returned?
  }

  /** The locks never deadlock: from every state, reached or not, some steps
      bring every call that has begun to its end. */
  lemma {:induction false} CallsFinish(y: System, digest: set<Context> -> Hash) returns (es: seq<Event>)
    ensures Run(y, es, digest).calls.Keys == y.calls.Keys && Unreturned(Run(y, es, digest)) == {}
    decreases Unreturned(y)
  {
    es := [];
    if Unreturned(y) != {} {
      var id :| id in Unreturned(y);
      if locked :| locked in Unreturned(y) && y.calls[locked].Locked() {
        id := locked;
      }
      var own := CallFinishes(y, id, digest);
      var y' := Run(y, own, digest);
      assert Unreturned(y') == Unreturned(y) - {id};
      var rest := CallsFinish(y', digest);
      es := own + rest;
      RunAppend(y, own, rest, digest);
    }
  }

  /** A call on a pinner with nothing under way: four steps after it has begun it
      has returned, and the hash's pins are what it means. */
  lemma CallAlone(y: System, id: nat, op: Op, h: Hash, digest: set<Context> -> Hash)
    requires Inv(y) && id !in y.calls && Unreturned(y) == {}
    requires h in y.rows ==> y.rows[h].revision < U64_MAX
    ensures var y' := Run(y, [Begin(id, op, h), Step(id), Step(id), Step(id), Step(id)], digest);
            var before, after := RowPins(Get(y.rows, h)), RowPins(Get(y'.rows, h));
            && (forall k :: k != h ==> Get(y'.rows, k) == Get(y.rows, k))
            && id in y'.calls && y'.calls[id].phase.Returned? && Does(op, before, after, y'.calls[id].phase.reply)
  {
    var y1 := Next(y, Begin(id, op, h), digest);
    var y3 := StepOf(StepOf(y1, id, digest), id, digest);
    forall c | c in y.calls
      ensures y.calls[c].phase.Returned?
    {
      assert c !in Unreturned(y);
    }
    NextKeepsInv(y, Begin(id, op, h), digest);
    ReadAlone(y1, id, digest);
    WriteStepMeaning(y3, id, digest);
    TwoSteps(y1, id, digest);
    TwoSteps(y3, id, digest);
    RunAppend(y1, [Step(id), Step(id)], [Step(id), Step(id)], digest);
    assert [Step(id), Step(id)] + [Step(id), Step(id)] == [Step(id), Step(id), Step(id), Step(id)];
    assert [Begin(id, op, h), Step(id), Step(id), Step(id), Step(id)][1..] == [Step(id), Step(id), Step(id), Step(id)];
  }

  lemma TwoSteps(y: System, id: nat, digest: set<Context> -> Hash)
    ensures Run(y, [Step(id), Step(id)], digest) == StepOf(StepOf(y, id, digest), id, digest)
  {
    assert [Step(id), Step(id)][1..] == [Step(id)] && [Step(id)][1..] == [];
    assert Run(StepOf(y, id, digest), [Step(id)], digest) == Run(StepOf(StepOf(y, id, digest), id, digest), [], digest);
  }

  lemma ReadAlone(y: System, id: nat, digest: set<Context> -> Hash)
    requires Inv(y) && id in y.calls && y.calls[id].phase.Waiting? && LockFree(y, y.calls[id].hash)
    ensures var y' := StepOf(StepOf(y, id, digest), id, digest); var call := y.calls[id];
            var (pins, revision) := Load(y.rows, call.hash);
            Inv(y') && y'.rows == y.rows && id in y'.calls && y'.calls[id] == call.(phase := Loaded(pins, revision))
  {
    NextKeepsInv(y, Step(id), digest);
    NextKeepsInv(StepOf(y, id, digest), Step(id), digest);
  }

  /** Hashes with the same first byte share a lock, and so do first bytes that
      differ by 64. */
  lemma LockIsFirstByte(byte: nat, rest: nat)
    requires byte < 256 && rest < 0x100_0000_0000_0000_0000_0000_0000_0000_0000_0000_0000_0000_0000_0000_0000_0000
    ensures LockIndex(byte * 0x100_0000_0000_0000_0000_0000_0000_0000_0000_0000_0000_0000_0000_0000_0000_0000 + rest)
            == byte % 64
  {}

  /** A fresh pinner over existing rows meets the requirements. */
  lemma FreshPinner(rows: map<nat, Row>)
    requires forall h :: h in rows ==> rows[h].revision <= U64_MAX
    ensures var y := System(rows, map[], []);
            Inv(y) && Refines((h: Hash) => Load(rows, h).0, y)
  {}

  /** At the last revision the wrapped write is refused without an error: a pin
      is reported done but not stored. */
  lemma PinLostAtLastRevision(h: Hash, a: Context, b: Context, digest: set<Context> -> Hash)
    requires a != b
    ensures var rows: map<nat, Row> := map[h := Message(RegistryType, h, U64_MAX, digest({a}), Some({a}))];
            var call := Call(Pin(b), h, Waiting);
            b !in Load(WriteRow(rows, call, {a}, U64_MAX, digest), h).0
  {}
}
