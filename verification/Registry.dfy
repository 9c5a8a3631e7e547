/** Registry entries as a convergent register: message order, one backend, and
    writes fanned out to several backends under a policy. */
module Registry {
  import opened Entries

  datatype MessageType = StreamType | RegistryType

  datatype Message<+D> = Message(kind: MessageType, key: nat, revision: nat, hash: Hash, data: D)

  /** `Ord for StreamMessage`: the higher revision wins, and on a tie the
      smaller hash. */
  predicate Wins<D>(a: Message<D>, b: Message<D>) {
    a.revision > b.revision || (a.revision == b.revision && a.hash < b.hash)
  }

  predicate ShouldStore<D>(m: Message<D>, existing: Option<Message<D>>) {
    m.kind.StreamType? || existing.None? || Wins(m, existing.value)
  }

  type Rows<D> = map<nat, Message<D>>

  function Stored<D>(rows: Rows<D>, m: Message<D>): Rows<D> {
    if ShouldStore(m, Get(rows, m.key)) then rows[m.key := m] else rows
  }

  /** `MemoryRegistry`. */
  class MemoryRegistry<D(!new)> {
    var data: Rows<D>

    constructor ()
      ensures data == map[]
    {
      data := map[];
    }

    method Read(key: nat) returns (m: Option<Message<D>>)
      ensures m == Get(data, key)
    {
      m := if key in data then Some(data[key]) else None;
    }

    method Set(m: Message<D>)
      modifies this
      ensures data == Stored(old(data), m)
      ensures m.kind.RegistryType? && m.key in old(data) ==>
                var e := old(data)[m.key];
                data == if m.revision > e.revision || (m.revision == e.revision && m.hash < e.hash)
                        then old(data)[m.key := m] else old(data)
      ensures m.kind.StreamType? || m.key !in old(data) ==> data == old(data)[m.key := m]
    {
      var existing := Read(m.key);
      if ShouldStore(m, existing) {
        data := data[m.key := m];
      }
    }

    method Delete(key: nat)
      modifies this
      ensures data == old(data) - {key}
    {
      data := data - {key};
    }
  }

  // -------------------------------------------------------- one backend

  function StoredAll<D>(rows: Rows<D>, ms: seq<Message<D>>): Rows<D> {
    if ms == [] then rows else Stored(StoredAll(rows, ms[..|ms| - 1]), ms[|ms| - 1])
  }

  /** A backend that started empty and was sent `ms`. */
  function Backend<D>(ms: seq<Message<D>>): Rows<D> {
    StoredAll(map[], ms)
  }

  /** `rows` holds something for `m`'s key that `m` does not beat. */
  predicate AtOrAbove<D>(rows: Rows<D>, m: Message<D>) {
    m.key in rows && !Wins(m, rows[m.key])
  }

  /** A registry-type write never takes a key back: what was reached stays
      reached, and the written message is reached. */
  lemma StoredNeverRegresses<D>(rows: Rows<D>, m: Message<D>, before: Message<D>)
    requires m.kind.RegistryType?
    ensures AtOrAbove(rows, before) ==> AtOrAbove(Stored(rows, m), before)
    ensures AtOrAbove(Stored(rows, m), m)
  {}

  ghost predicate AllRegistry<D>(ms: seq<Message<D>>) {
    forall m :: m in ms ==> m.kind.RegistryType?
  }

  /** No stream-type message is beaten by another one of its key. */
  ghost predicate StreamsUnbeaten<D>(ms: seq<Message<D>>) {
    forall m, o :: m in ms && o in ms && m.kind.StreamType? && o.key == m.key ==> !Wins(o, m)
  }

  /** After such writes to an empty backend, each written key holds one of its
      messages, and none of them beats it. */
  lemma {:induction false} HoldsTheMaximum<D>(ms: seq<Message<D>>)
    requires StreamsUnbeaten(ms)
    ensures var rows := Backend(ms);
            && (forall k :: k in rows ==> rows[k] in ms && rows[k].key == k)
            && (forall m :: m in ms ==> AtOrAbove(rows, m))
  {
    if ms != [] {
      var init, last := ms[..|ms| - 1], ms[|ms| - 1];
      assert ms == init + [last];
      assert last in ms && forall m :: m in init ==> m in ms;
      HoldsTheMaximum(init);
      var before := Backend(init);
      forall m | m in ms
        ensures AtOrAbove(Stored(before, last), m)
      {
        assert m in init || m == last;
        if last.kind.RegistryType? {
          StoredNeverRegresses(before, last, m);
        }
      }
    }
  }

  /** In terms of the messages' own fields: nothing sent for a key has a higher
      revision than what is held, nor the same with a smaller hash. */
  lemma HeldIsLatest<D>(ms: seq<Message<D>>, m: Message<D>)
    requires StreamsUnbeaten(ms) && m in ms
    ensures var rows := Backend(ms);
            && m.key in rows && rows[m.key] in ms && rows[m.key].key == m.key
            && m.revision <= rows[m.key].revision
            && (m.revision == rows[m.key].revision ==> m.hash >= rows[m.key].hash)
  {
    HoldsTheMaximum(ms);
    assert AtOrAbove(Backend(ms), m);
  }

  ghost predicate SameMessages<D>(ms: seq<Message<D>>, ns: seq<Message<D>>) {
    (forall m :: m in ms ==> m in ns) && (forall m :: m in ns ==> m in ms)
  }

  /** Two backends agree on every key's revision and hash. */
  ghost predicate SameView<D>(a: Rows<D>, b: Rows<D>) {
    && a.Keys == b.Keys
    && forall k :: k in a ==> a[k].revision == b[k].revision && a[k].hash == b[k].hash
  }

  lemma UnbeatenConverge<D>(ms: seq<Message<D>>, ns: seq<Message<D>>)
    requires StreamsUnbeaten(ms) && SameMessages(ms, ns)
    ensures SameView(Backend(ms), Backend(ns))
  {
    HoldsTheMaximum(ms);
    HoldsTheMaximum(ns);
    var a, b := Backend(ms), Backend(ns);
    forall k | k in a
      ensures k in b && a[k].revision == b[k].revision && a[k].hash == b[k].hash
    {
      assert a[k] in ms && a[k] in ns;
    }
    forall k | k in b
      ensures k in a
    {
      assert b[k] in ns && b[k] in ms;
    }
  }

  /** Writing a beaten stream message last, or the one that beats it after it,
      leaves the key in two different states. */
  lemma BeatenStreamDiverges<D>(ms: seq<Message<D>>, m: Message<D>, o: Message<D>)
    requires m in ms && o in ms && m.kind.StreamType? && o.key == m.key && Wins(o, m)
    ensures SameMessages(ms, ms + [m]) && SameMessages(ms, (ms + [m]) + [o])
    ensures !SameView(Backend(ms + [m]), Backend((ms + [m]) + [o]))
  {
    var once, twice := ms + [m], (ms + [m]) + [o];
    assert once[..|ms|] == ms && twice[..|once|] == once;
    assert Backend(once) == Stored(Backend(ms), m) && Backend(twice) == Stored(Backend(once), o);
    assert Backend(once)[m.key] == m && Backend(twice)[m.key] == o;
  }

  lemma SameViewTwice<D>(a: Rows<D>, b: Rows<D>, c: Rows<D>)
    requires SameView(a, b) && SameView(a, c)
    ensures SameView(b, c)
  {}

  /** Convergence: all backends that are sent the same messages, in any order and
      with any repetition, agree on every key's revision and hash, if and only
      if no stream-type message among them is beaten by one of its key. */
  lemma BackendsConvergeIff<D>(ms: seq<Message<D>>)
    ensures (forall ns :: SameMessages(ms, ns) ==> SameView(Backend(ms), Backend(ns))) <==> StreamsUnbeaten(ms)
  {
    if StreamsUnbeaten(ms) {
      forall ns | SameMessages(ms, ns)
        ensures SameView(Backend(ms), Backend(ns))
      {
        UnbeatenConverge(ms, ns);
      }
    } else {
      var m, o :| m in ms && o in ms && m.kind.StreamType? && o.key == m.key && Wins(o, m);
      BeatenStreamDiverges(ms, m, o);
      if SameView(Backend(ms), Backend(ms + [m])) && SameView(Backend(ms), Backend((ms + [m]) + [o])) {
        SameViewTwice(Backend(ms), Backend(ms + [m]), Backend((ms + [m]) + [o]));
      }
    }
  }

  /** In particular registry-type messages converge. */
  lemma BackendsConverge<D>(ms: seq<Message<D>>, ns: seq<Message<D>>)
    requires AllRegistry(ms) && SameMessages(ms, ns)
    ensures SameView(Backend(ms), Backend(ns))
  {
    UnbeatenConverge(ms, ns);
  }

  // ------------------------------------------------------- many backends

  datatype WritePolicy = All | Any | Quorum(n: nat)

  /** How one backend answered a write; a failing one may have stored it. */
  datatype Answer = Succeeded | FailedAfterStoring | FailedBefore

  function Reached<D>(rows: Rows<D>, m: Message<D>, a: Answer): Rows<D> {
    if a.FailedBefore? then rows else Stored(rows, m)
  }

  function Successes(answers: seq<Answer>): nat {
    if answers == [] then 0
    else Successes(answers[..|answers| - 1]) + (if answers[|answers| - 1].Succeeded? then 1 else 0)
  }

  function SuccessSet(answers: seq<Answer>): set<int> {
    set i | 0 <= i < |answers| && answers[i].Succeeded?
  }

  lemma {:induction false} CountedSuccesses(answers: seq<Answer>)
    ensures Successes(answers) == |SuccessSet(answers)| <= |answers|
    ensures Successes(answers) == |answers| ==> forall i :: 0 <= i < |answers| ==> answers[i].Succeeded?
    ensures Successes(answers) < |answers| ==> exists i :: 0 <= i < |answers| && !answers[i].Succeeded?
  {
    if answers != [] {
      var k := |answers| - 1;
      var init := answers[..k];
      CountedSuccesses(init);
      assert SuccessSet(answers) == SuccessSet(init) + (if answers[k].Succeeded? then {k} else {});
      assert k !in SuccessSet(init);
      if Successes(answers) < |answers| && answers[k].Succeeded? {
        var i :| 0 <= i < |init| && !init[i].Succeeded?;
        assert !answers[i].Succeeded?;
      }
    }
  }

  lemma AnySuccess(answers: seq<Answer>)
    ensures Successes(answers) > 0 <==> exists i :: 0 <= i < |answers| && answers[i].Succeeded?
  {
    CountedSuccesses(answers);
    if i :| 0 <= i < |answers| && answers[i].Succeeded? {
      assert i in SuccessSet(answers);
    }
    if Successes(answers) > 0 {
      var i :| i in SuccessSet(answers);
    }
  }

  /** Backends that hold `m` or something better. */
  function Holders<D>(backends: seq<Rows<D>>, m: Message<D>): nat {
    if backends == [] then 0
    else Holders(backends[..|backends| - 1], m) + (if AtOrAbove(backends[|backends| - 1], m) then 1 else 0)
  }

  /** Holders are the backends whose row for the message's key has a higher
      revision, or the same one with a hash that is not greater. */
  lemma {:induction false} CountedHolders<D>(backends: seq<Rows<D>>, m: Message<D>)
    ensures Holders(backends, m) ==
            |(set i | 0 <= i < |backends| && m.key in backends[i] &&
                      (backends[i][m.key].revision > m.revision ||
                       (backends[i][m.key].revision == m.revision && backends[i][m.key].hash <= m.hash)))|
  {
    var all := HolderSet(backends, m);
    if backends != [] {
      var k := |backends| - 1;
      CountedHolders(backends[..k], m);
      assert all == HolderSet(backends[..k], m) + (if AtOrAbove(backends[k], m) then {k} else {});
      assert k !in HolderSet(backends[..k], m);
    }
  }

  function HolderSet<D>(backends: seq<Rows<D>>, m: Message<D>): set<int> {
    set i | 0 <= i < |backends| && m.key in backends[i] &&
            (backends[i][m.key].revision > m.revision ||
             (backends[i][m.key].revision == m.revision && backends[i][m.key].hash <= m.hash))
  }

  function Required(policy: WritePolicy, backends: nat): nat {
    match policy
    case All => backends
    case Any => 1
    case Quorum(n) => n
  }

  /** `MultiRegistry::set`: every backend is written; the policy decides what
      the caller is told. With no backends at all it always succeeds. */
  method MultiSet<D>(backends: seq<Rows<D>>, m: Message<D>, policy: WritePolicy, answers: seq<Answer>)
    returns (backends': seq<Rows<D>>, ok: bool)
    requires |answers| == |backends|
    ensures |backends'| == |backends|
    ensures forall i :: 0 <= i < |backends| ==> backends'[i] == Reached(backends[i], m, answers[i])
    ensures forall i :: 0 <= i < |backends| && answers[i].FailedBefore? ==> backends'[i] == backends[i]
    ensures backends == [] ==> ok
    ensures backends != [] ==> (ok <==> Successes(answers) >= Required(policy, |backends|))
    ensures policy.All? ==> (ok <==> forall i :: 0 <= i < |answers| ==> answers[i].Succeeded?)
    ensures policy.Any? && backends != [] ==> (ok <==> exists i :: 0 <= i < |answers| && answers[i].Succeeded?)
    ensures policy.Quorum? && backends != [] ==>
              (ok <==> |(set i | 0 <= i < |answers| && answers[i].Succeeded?)| >= policy.n)
  {
    backends' := [];
    var successes := 0;
    for i := 0 to |backends|
      invariant |backends'| == i
      invariant forall k :: 0 <= k < i ==> backends'[k] == Reached(backends[k], m, answers[k])
      invariant successes == Successes(answers[..i]) <= i
    {
      backends' := backends' + [Reached(backends[i], m, answers[i])];
      assert answers[..i + 1][..i] == answers[..i];
      if answers[i].Succeeded? {
        successes := successes + 1;
      }
    }
    assert answers[..|backends|] == answers;
    CountedSuccesses(answers);
    AnySuccess(answers);
    if backends == [] {
      ok := true;
    } else {
      match policy {
        case All => ok := successes == |backends|;
        case Any => ok := successes > 0;
        case Quorum(n) => ok := successes >= n;
      }
    }
  }

  lemma {:induction false} SuccessesHold<D>(backends: seq<Rows<D>>, backends': seq<Rows<D>>, m: Message<D>,
                                            answers: seq<Answer>)
    requires m.kind.RegistryType? && |answers| == |backends| == |backends'|
    requires forall i :: 0 <= i < |backends| ==> backends'[i] == Reached(backends[i], m, answers[i])
    ensures Holders(backends', m) >= Successes(answers)
    decreases |backends|
  {
    if backends != [] {
      var k := |backends| - 1;
      SuccessesHold(backends[..k], backends'[..k], m, answers[..k]);
    }
  }

  /** Any later write, of any message to any of the backends, keeps the count. */
  lemma {:induction false} HoldersNeverDrop<D>(backends: seq<Rows<D>>, backends': seq<Rows<D>>, later: Message<D>,
                                               m: Message<D>, answers: seq<Answer>)
    requires later.kind.RegistryType? && |answers| == |backends| == |backends'|
    requires forall i :: 0 <= i < |backends| ==> backends'[i] == Reached(backends[i], later, answers[i])
    ensures Holders(backends', m) >= Holders(backends, m)
    decreases |backends|
  {
    if backends != [] {
      var k := |backends| - 1;
      HoldersNeverDrop(backends[..k], backends'[..k], later, m, answers[..k]);
      StoredNeverRegresses(backends[k], later, m);
    }
  }

  /** A later write with the answers it got. */
  datatype Write<+D> = Write(message: Message<D>, answers: seq<Answer>)

  function AfterWrite<D>(backends: seq<Rows<D>>, w: Write<D>): seq<Rows<D>>
    requires |w.answers| == |backends|
  {
    seq(|backends|, i requires 0 <= i < |backends| => Reached(backends[i], w.message, w.answers[i]))
  }

  ghost predicate Applicable<D>(backends: nat, ws: seq<Write<D>>) {
    forall i :: 0 <= i < |ws| ==> |ws[i].answers| == backends && ws[i].message.kind.RegistryType?
  }

  function AfterWrites<D>(backends: seq<Rows<D>>, ws: seq<Write<D>>): (r: seq<Rows<D>>)
    requires Applicable(|backends|, ws)
    ensures |r| == |backends|
    decreases ws
  {
    if ws == [] then backends else AfterWrites(AfterWrite(backends, ws[0]), ws[1..])
  }

  /** Durability: a write that met its policy leaves at least the required
      number of backends at or above the message, through every later write,
      whether or not that one meets any policy. */
  lemma {:induction false} PolicyWritesEndure<D>(backends: seq<Rows<D>>, w: Write<D>, policy: WritePolicy,
                                                 ws: seq<Write<D>>)
    requires |w.answers| == |backends| && w.message.kind.RegistryType? && Applicable(|backends|, ws)
    requires Successes(w.answers) >= Required(policy, |backends|)
    ensures Holders(AfterWrites(AfterWrite(backends, w), ws), w.message) >= Required(policy, |backends|)
  {
    SuccessesHold(backends, AfterWrite(backends, w), w.message, w.answers);
    WritesKeepHolders(AfterWrite(backends, w), ws, w.message);
  }

  lemma {:induction false} WritesKeepHolders<D>(backends: seq<Rows<D>>, ws: seq<Write<D>>, m: Message<D>)
    requires Applicable(|backends|, ws)
    ensures Holders(AfterWrites(backends, ws), m) >= Holders(backends, m)
    decreases ws
  {
    if ws != [] {
      HoldersNeverDrop(backends, AfterWrite(backends, ws[0]), ws[0].message, m, ws[0].answers);
      WritesKeepHolders(AfterWrite(backends, ws[0]), ws[1..], m);
    }
  }
}
