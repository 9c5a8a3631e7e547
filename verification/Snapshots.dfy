/** The local root's head and snapshot pins: saving, taking and deleting
    snapshots, and the snapshot index that names them. The content hash is a
    parameter; nothing is assumed about it. */
module Snapshots {
  import opened Entries

  datatype Context = LocalFsHead | LocalFsSnapshot(root: Hash)

  /** `memory` is the encoded in-memory root, `file` the bytes on disk,
      `current` the hash whose head pin the next save removes. */
  datatype Root = Root(memory: Bytes, file: Bytes, current: Option<Hash>, index: map<string, Hash>,
                       pins: set<(Hash, Context)>, blobs: map<Hash, Bytes>)

  datatype Op = Edit(memory: Bytes) | Save | Create(unused: string) | Delete(name: string) | Reopen

  function AfterSave(H: Bytes -> Hash, s: Root): Root {
    var h := H(s.memory);
    var unpinned := if s.current.Some? then s.pins - {(s.current.value, LocalFsHead)} else s.pins;
    s.(file := s.memory, current := Some(h), pins := unpinned + {(h, LocalFsHead)},
       blobs := s.blobs[h := s.memory])
  }

  function AfterCreate(H: Bytes -> Hash, s: Root, unused: string): Root {
    var h := H(s.memory);
    s.(current := Some(h), index := s.index[unused := h], pins := s.pins + {(h, LocalFsSnapshot(h))},
       blobs := s.blobs[h := s.memory])
  }

  function AfterDelete(s: Root, name: string): Root {
    if name !in s.index then s
    else s.(index := s.index - {name}, pins := s.pins - {(s.index[name], LocalFsSnapshot(s.index[name]))})
  }

  function After(H: Bytes -> Hash, s: Root, op: Op): Root {
    match op
    case Edit(memory) => s.(memory := memory)
    case Save => AfterSave(H, s)
    case Create(unused) => AfterCreate(H, s, unused)
    case Delete(name) => AfterDelete(s, name)
    case Reopen => s.(memory := s.file, current := Some(H(s.file)))
  }

  // ---------------------------------------------------- free snapshot names

  function Digit(d: nat): char
    requires d < 10
  {
    '0' + d as char
  }

  function Decimal(n: nat): (s: string)
    ensures |s| > 0
  {
    if n < 10 then [Digit(n)] else Decimal(n / 10) + [Digit(n % 10)]
  }

  lemma {:induction false} DecimalIsInjective(m: nat, n: nat)
    requires Decimal(m) == Decimal(n)
    ensures m == n
  {
    assert Decimal(m)[|Decimal(m)| - 1] == Digit(m % 10) && Decimal(n)[|Decimal(n)| - 1] == Digit(n % 10);
    if m >= 10 && n >= 10 {
      assert Decimal(m / 10) == Decimal(m)[..|Decimal(m)| - 1] == Decimal(n)[..|Decimal(n)| - 1] == Decimal(n / 10);
      DecimalIsInjective(m / 10, n / 10);
    }
  }

  /** Decimal notation: the digits, read back, give the number. */
  function Value(s: string): nat
    requires forall i :: 0 <= i < |s| ==> '0' <= s[i] <= '9'
  {
    if s == [] then 0 else 10 * Value(s[..|s| - 1]) + (s[|s| - 1] as nat - '0' as nat)
  }

  lemma {:induction false} DecimalValue(n: nat)
    ensures forall i :: 0 <= i < |Decimal(n)| ==> '0' <= Decimal(n)[i] <= '9'
    ensures Value(Decimal(n)) == n && (n > 0 ==> Decimal(n)[0] != '0')
  {
    if n >= 10 {
      DecimalValue(n / 10);
      assert Decimal(n)[..|Decimal(n)| - 1] == Decimal(n / 10);
    } else {
      assert Decimal(n)[..0] == [];
    }
  }

  /** The names tried, in order: the time stamp, then the stamp with a counter. */
  function Candidate(base: string, c: nat): string {
    if c == 0 then base else base + "-" + Decimal(c)
  }

  lemma CandidatesDiffer(base: string, c: nat, d: nat)
    requires c != d
    ensures Candidate(base, c) != Candidate(base, d)
  {
    if c > 0 && d > 0 && Candidate(base, c) == Candidate(base, d) {
      assert Decimal(c) == Candidate(base, c)[|base| + 1..] == Candidate(base, d)[|base| + 1..] == Decimal(d);
      DecimalIsInjective(c, d);
    }
  }

  lemma {:induction false} TakenCandidatesFill(names: set<string>, base: string, n: nat)
    requires forall c: nat :: c < n ==> Candidate(base, c) in names
    ensures |names| >= n
  {
    if n > 0 {
      var last := Candidate(base, n - 1);
      forall c: nat | c < n - 1
        ensures Candidate(base, c) in names - {last}
      {
        CandidatesDiffer(base, c, n - 1);
      }
      TakenCandidatesFill(names - {last}, base, n - 1);
    }
  }

  const U32_MAX: nat := 0xFFFF_FFFF

  lemma SomeCandidateIsFree(names: set<string>, base: string) returns (free: nat)
    requires |names| <= U32_MAX
    ensures free <= U32_MAX && Candidate(base, free) !in names
  {
    if forall c: nat :: c <= U32_MAX ==> Candidate(base, c) in names {
      TakenCandidatesFill(names, base, U32_MAX + 1);
    }
    free :| free <= U32_MAX && Candidate(base, free) !in names;
  }

  /** `SnapshotIndex`: an entry per snapshot. */
  class SnapshotIndex {
    var entries: map<string, Hash>

    constructor (entries: map<string, Hash>)
      ensures this.entries == entries
    {
      this.entries := entries;
    }

    /** `insert_snapshot`: the first free candidate is used, so no snapshot is
        ever overwritten. The counter saturates, so the loop ends for every index
        that does not already hold all 2^32 candidates. */
    method InsertSnapshot(base: string, h: Hash) returns (name: string)
      requires |entries.Keys| <= U32_MAX
      modifies this
      ensures name !in old(entries) && entries == old(entries)[name := h]
      ensures exists c: nat :: c <= U32_MAX && name == Candidate(base, c) &&
                forall d: nat :: d < c ==> Candidate(base, d) in old(entries)
    {
      ghost var free := SomeCandidateIsFree(entries.Keys, base);
      ghost var tried: nat := 0;
      name := base;
      var counter: nat := 1;
      while name in entries
        invariant tried <= free && name == Candidate(base, tried)
        invariant counter == if tried < U32_MAX then tried + 1 else U32_MAX
        invariant forall d: nat :: d < tried ==> Candidate(base, d) in entries
        decreases free - tried
      {
        name := base + "-" + Decimal(counter);
        tried := counter;
        counter := if counter < U32_MAX then counter + 1 else U32_MAX;
      }
      entries := entries[name := h];
    }

    /** `remove_snapshot`. */
    method RemoveSnapshot(name: string) returns (h: Option<Hash>)
      modifies this
      ensures h == Get(old(entries), name) && entries == old(entries) - {name}
    {
      h := if name in entries then Some(entries[name]) else None;
      entries := entries - {name};
    }
  }

  // --------------------------------------------------------- the local root

  class LocalRoot {
    const hash: Bytes -> Hash
    var memory: Bytes
    var file: Bytes
    var current: Option<Hash>
    var index: SnapshotIndex
    var pins: set<(Hash, Context)>
    var blobs: map<Hash, Bytes>

    ghost function Abstract(): Root
      reads this, index
    {
      Root(memory, file, current, index.entries, pins, blobs)
    }

    /** `load`: opening reads the file and remembers its hash. */
    constructor (hash: Bytes -> Hash, s: Root)
      ensures this.hash == hash && fresh(index)
      ensures memory == file == s.file && current == Some(hash(s.file)) && pins == s.pins
      ensures Abstract() == After(hash, s, Reopen)
    {
      this.hash := hash;
      this.memory, this.file, this.current := s.file, s.file, Some(hash(s.file));
      this.index := new SnapshotIndex(s.index);
      this.pins, this.blobs := s.pins, s.blobs;
    }

    method ImportBytes(bytes: Bytes) returns (h: Hash)
      modifies this`blobs
      ensures h == hash(bytes) && blobs == old(blobs)[h := bytes]
    {
      h := hash(bytes);
      blobs := blobs[h := bytes];
    }

    /** `save` of a local root. */
    method Save()
      modifies this
      ensures index == old(index) && Abstract() == AfterSave(hash, old(Abstract()))
      ensures file == old(memory) == memory && current == Some(hash(file)) && index.entries == old(index.entries)
      ensures hash(file) in blobs && blobs[hash(file)] == file
      ensures forall h :: h in old(blobs) && h != hash(file) ==> h in blobs && blobs[h] == old(blobs)[h]
      ensures forall pin :: pin in pins <==>
                (pin in old(pins) && !(old(current).Some? && pin == (old(current).value, LocalFsHead))) ||
                pin == (hash(file), LocalFsHead)
    {
      var h := ImportBytes(memory);
      if current.Some? {
        pins := pins - {(current.value, LocalFsHead)};
      }
      pins := pins + {(h, LocalFsHead)};
      current := Some(h);
      file := memory;
    }

    /** `create_snapshot`. */
    method CreateSnapshot(now: string) returns (name: string, h: Hash)
      requires |index.entries.Keys| <= U32_MAX
      modifies this, index
      ensures index == old(index) && name !in old(index.entries)
      ensures Abstract() == AfterCreate(hash, old(Abstract()), name)
      ensures h == hash(old(memory)) && index.entries == old(index.entries)[name := h]
      ensures file == old(file) && memory == old(memory) && current == Some(h)
      ensures h in blobs && blobs[h] == memory
      ensures pins == old(pins) + {(h, LocalFsSnapshot(h))}
    {
      h := ImportBytes(memory);
      current := Some(h);
      name := index.InsertSnapshot(now, h);
      pins := pins + {(h, LocalFsSnapshot(h))};
    }

    /** `delete_snapshot`: an unknown name is a no-op. */
    method DeleteSnapshot(name: string)
      modifies this, index
      ensures index == old(index) && Abstract() == AfterDelete(old(Abstract()), name)
      ensures index.entries == old(index.entries) - {name}
      ensures name !in old(index.entries) ==> pins == old(pins)
      ensures name in old(index.entries) ==>
                pins == old(pins) - {(old(index.entries)[name], LocalFsSnapshot(old(index.entries)[name]))}
      ensures file == old(file) && memory == old(memory) && current == old(current) && blobs == old(blobs)
    {
      var h := index.RemoveSnapshot(name);
      if h.Some? {
        pins := pins - {(h.value, LocalFsSnapshot(h.value))};
      } else {
        assert index.entries == old(index.entries);
      }
    }
  }

  // -------------------------------------------------------------- every run

  function AfterAll(H: Bytes -> Hash, s: Root, ops: seq<Op>): Root
    decreases ops
  {
    if ops == [] then s else AfterAll(H, After(H, s, ops[0]), ops[1..])
  }

  /** New snapshots get names that are free when they are taken. */
  predicate Enabled(s: Root, op: Op) {
    op.Create? ==> op.unused !in s.index
  }

  /** Memory holds what was last saved whenever a snapshot is taken. */
  predicate SavedFirst(s: Root, op: Op) {
    op.Create? ==> s.memory == s.file
  }

  /** A snapshot is deleted only when no other name has its hash. */
  ghost predicate Unshared(s: Root, op: Op) {
    op.Delete? && op.name in s.index ==>
      forall other :: other in s.index && other != op.name ==> s.index[other] != s.index[op.name]
  }

  ghost predicate Along(H: Bytes -> Hash, s: Root, ops: seq<Op>, ok: (Root, Op) -> bool)
    decreases ops
  {
    ops == [] || (ok(s, ops[0]) && Along(H, After(H, s, ops[0]), ops[1..], ok))
  }

  ghost predicate Names(s: Root, h: Hash) {
    exists name :: name in s.index && s.index[name] == h
  }

  predicate SnapshotPin(s: Root, h: Hash, k: Hash) {
    (h, LocalFsSnapshot(k)) in s.pins
  }

  /** A snapshot pin is on its own root, and that root is still named. */
  ghost predicate PinnedAreNamed(s: Root) {
    forall h, k :: SnapshotPin(s, h, k) ==> h == k && Names(s, h)
  }

  ghost predicate NamedArePinned(s: Root) {
    forall name :: name in s.index ==> (s.index[name], LocalFsSnapshot(s.index[name])) in s.pins
  }

  /** Every named snapshot and every pinned head can be read back, and every blob
      is at its own hash. */
  ghost predicate Readable(H: Bytes -> Hash, s: Root) {
    && (forall name :: name in s.index ==> s.index[name] in s.blobs)
    && (forall h :: (h, LocalFsHead) in s.pins ==> h in s.blobs)
    && (forall h :: h in s.blobs ==> H(s.blobs[h]) == h)
  }

  /** The head pin, if any, is on the saved root, which is what `current` says. */
  ghost predicate HeadTracked(H: Bytes -> Hash, s: Root) {
    && s.current == Some(H(s.file))
    && forall h :: (h, LocalFsHead) in s.pins ==> h == H(s.file)
  }

  /** Exactly the saved root carries the head pin. */
  ghost predicate HeadExact(H: Bytes -> Hash, s: Root) {
    forall h :: (h, LocalFsHead) in s.pins <==> h == H(s.file)
  }

  lemma StepKeepsNames(H: Bytes -> Hash, s: Root, op: Op)
    requires PinnedAreNamed(s) && Enabled(s, op)
    ensures PinnedAreNamed(After(H, s, op))
  {
    var s' := After(H, s, op);
    forall h, k | SnapshotPin(s', h, k)
      ensures h == k && Names(s', h)
    {
      if SnapshotPin(s, h, k) {
        var name :| name in s.index && s.index[name] == h;
        assert name in s'.index && s'.index[name] == h;
      } else {
        assert op.Create? && h == k == H(s.memory);
        assert op.unused in s'.index && s'.index[op.unused] == h;
      }
    }
  }

  lemma StepKeepsReadable(H: Bytes -> Hash, s: Root, op: Op)
    requires Readable(H, s)
    ensures Readable(H, After(H, s, op))
  {
    var s' := After(H, s, op);
    forall name | name in s'.index
      ensures s'.index[name] in s'.blobs
    {
      assert op.Create? || s'.index[name] == s.index[name];
    }
    forall h | (h, LocalFsHead) in s'.pins
      ensures h in s'.blobs
    {
      assert (h, LocalFsHead) in s.pins || (op.Save? && h == H(s.memory));
    }
    forall h | h in s'.blobs
      ensures H(s'.blobs[h]) == h
    {
      assert h in s.blobs || s'.blobs[h] == s.memory;
    }
  }

  /** In every run, a snapshot pin is held only while the index names its root,
      and every named snapshot can be read back. */
  lemma {:induction false} SnapshotPinsAreNamed(H: Bytes -> Hash, s: Root, ops: seq<Op>)
    requires PinnedAreNamed(s) && Readable(H, s)
    requires Along(H, s, ops, Enabled)
    ensures PinnedAreNamed(AfterAll(H, s, ops)) && Readable(H, AfterAll(H, s, ops))
    decreases ops
  {
    if ops != [] {
      StepKeepsNames(H, s, ops[0]);
      StepKeepsReadable(H, s, ops[0]);
      SnapshotPinsAreNamed(H, After(H, s, ops[0]), ops[1..]);
    }
  }

  /** The converse is kept by a step if and only if it does not delete one of two
      snapshots with the same hash. */
  lemma NamedStayPinnedIff(H: Bytes -> Hash, s: Root, op: Op)
    requires NamedArePinned(s)
    ensures NamedArePinned(After(H, s, op)) <==> Unshared(s, op)
  {
    var s' := After(H, s, op);
    if op.Delete? && op.name in s.index {
      if other :| other in s.index && other != op.name && s.index[other] == s.index[op.name] {
        assert other in s'.index && (s'.index[other], LocalFsSnapshot(s'.index[other])) !in s'.pins;
      }
    }
  }

  lemma {:induction false} NamedStayPinned(H: Bytes -> Hash, s: Root, ops: seq<Op>)
    requires NamedArePinned(s) && Along(H, s, ops, (t, op) => Unshared(t, op))
    ensures NamedArePinned(AfterAll(H, s, ops))
    decreases ops
  {
    if ops != [] {
      NamedStayPinnedIff(H, s, ops[0]);
      NamedStayPinned(H, After(H, s, ops[0]), ops[1..]);
    }
  }

  lemma StepKeepsHead(H: Bytes -> Hash, s: Root, op: Op)
    requires HeadTracked(H, s) && SavedFirst(s, op)
    ensures HeadTracked(H, After(H, s, op))
    ensures op.Save? ==> HeadExact(H, After(H, s, op))
  {
  }

  /** In every run that takes snapshots only of saved content, after each save
      exactly the saved root carries the head pin. */
  lemma {:induction false} HeadFollowsSaves(H: Bytes -> Hash, s: Root, ops: seq<Op>)
    requires HeadTracked(H, s) && Along(H, s, ops, SavedFirst)
    ensures HeadTracked(H, AfterAll(H, s, ops))
    ensures ops != [] && ops[|ops| - 1].Save? ==>
              HeadExact(H, AfterAll(H, s, ops)) && AfterAll(H, s, ops).file == AfterAll(H, s, ops).memory
    decreases ops
  {
    if ops != [] {
      StepKeepsHead(H, s, ops[0]);
      var next := After(H, s, ops[0]);
      if |ops| == 1 {
        assert AfterAll(H, s, ops) == AfterAll(H, next, []) == next;
      } else {
        assert ops[1..][|ops| - 2] == ops[|ops| - 1];
      }
      HeadFollowsSaves(H, next, ops[1..]);
    }
  }

  /** Neither saving nor reopening. */
  predicate Between(ops: seq<Op>) {
    forall i :: 0 <= i < |ops| ==> !ops[i].Save? && !ops[i].Reopen?
  }

  /** The content in memory after `ops`, started with `memory`. */
  function Edited(memory: Bytes, ops: seq<Op>): Bytes {
    if ops == [] then memory
    else
      var last := ops[|ops| - 1];
      if last.Edit? then last.memory else Edited(memory, ops[..|ops| - 1])
  }

  /** The content of the last snapshot that `ops` take, if any. */
  function LastTaken(memory: Bytes, ops: seq<Op>): Option<Bytes> {
    if ops == [] then None
    else
      var init := ops[..|ops| - 1];
      if ops[|ops| - 1].Create? then Some(Edited(memory, init)) else LastTaken(memory, init)
  }

  lemma {:induction false} AfterAllThen(H: Bytes -> Hash, s: Root, ops: seq<Op>, op: Op)
    ensures AfterAll(H, s, ops + [op]) == After(H, AfterAll(H, s, ops), op)
    decreases ops
  {
    if ops == [] {
      assert AfterAll(H, s, [op]) == AfterAll(H, After(H, s, op), []);
      assert ops + [op] == [op];
    } else {
      assert (ops + [op])[1..] == ops[1..] + [op];
      AfterAllThen(H, After(H, s, ops[0]), ops[1..], op);
    }
  }

  /** Between saves the file and the head pins stay, memory is what was edited,
      and the remembered hash is that of the last snapshot. */
  lemma {:induction false} BetweenSaves(H: Bytes -> Hash, s: Root, ops: seq<Op>)
    requires Between(ops) && HeadTracked(H, s)
    ensures var t := AfterAll(H, s, ops);
            && t.file == s.file && t.memory == Edited(s.memory, ops)
            && t.current == Some(match LastTaken(s.memory, ops) case Some(taken) => H(taken) case None => H(s.file))
            && forall h :: (h, LocalFsHead) in t.pins <==> (h, LocalFsHead) in s.pins
    decreases |ops|
  {
    if ops != [] {
      var init, last := ops[..|ops| - 1], ops[|ops| - 1];
      assert ops == init + [last];
      BetweenSaves(H, s, init);
      AfterAllThen(H, s, init, last);
    }
  }

  /** A snapshot of unsaved content makes the next save forget the old head.
      From a root whose head is exact, whatever is edited, taken and deleted
      before the next save, the head is exact after that save if and only if the
      last snapshot taken in between, if there is one, or the content saved
      hashes like what was saved before. */
  lemma SaveIsExactIff(H: Bytes -> Hash, s: Root, ops: seq<Op>)
    requires HeadTracked(H, s) && HeadExact(H, s) && Between(ops)
    ensures HeadExact(H, AfterAll(H, s, ops + [Save])) <==>
            var taken := LastTaken(s.memory, ops);
            taken.None? || H(taken.value) == H(s.file) || H(Edited(s.memory, ops)) == H(s.file)
  {
    BetweenSaves(H, s, ops);
    AfterAllThen(H, s, ops, Save);
    var t, u := AfterAll(H, s, ops), AfterAll(H, s, ops + [Save]);
    assert u == AfterSave(H, t) && u.file == t.memory;
    assert (H(s.file), LocalFsHead) in t.pins;
    assert (H(s.file), LocalFsHead) in u.pins <==> t.current != Some(H(s.file)) || H(t.memory) == H(s.file);
    assert forall h :: (h, LocalFsHead) in u.pins ==> h == H(s.file) || h == H(u.file);
    assert (H(u.file), LocalFsHead) in u.pins;
  }

  /** Otherwise exactly the old head and the new one are pinned. */
  lemma StaleHeadStays(H: Bytes -> Hash, s: Root, ops: seq<Op>)
    requires HeadTracked(H, s) && HeadExact(H, s) && Between(ops)
    requires !HeadExact(H, AfterAll(H, s, ops + [Save]))
    ensures var t := AfterAll(H, s, ops + [Save]);
            forall h :: (h, LocalFsHead) in t.pins <==> h == H(s.file) || h == H(t.file)
  {
    BetweenSaves(H, s, ops);
    AfterAllThen(H, s, ops, Save);
    SaveIsExactIff(H, s, ops);
    var t := AfterAll(H, s, ops);
    assert AfterAll(H, s, ops + [Save]) == AfterSave(H, t);
    assert t.current != Some(H(s.file));
    assert forall h :: (h, LocalFsHead) in t.pins <==> h == H(s.file);
  }

  // ------------------------------------------------ every save of a run

  /** What the last save or the opening left on disk, what is in memory, and the
      content of the last snapshot taken since. */
  datatype Content = Content(file: Bytes, memory: Bytes, taken: Option<Bytes>)

  function NextContent(s: Content, op: Op): Content {
    match op
    case Edit(memory) => s.(memory := memory)
    case Save => Content(s.memory, s.memory, None)
    case Create(_) => s.(taken := Some(s.memory))
    case Delete(_) => s
    case Reopen => Content(s.file, s.file, None)
  }

  predicate KeptBySave(H: Bytes -> Hash, s: Content) {
    s.taken.None? || H(s.taken.value) == H(s.file) || H(s.memory) == H(s.file)
  }

  /** The condition on each save of a run, in terms of contents alone. */
  predicate EverySaveKept(H: Bytes -> Hash, s: Content, ops: seq<Op>)
    decreases ops
  {
    ops == [] ||
    ((ops[0].Save? ==> KeptBySave(H, s)) && EverySaveKept(H, NextContent(s, ops[0]), ops[1..]))
  }

  ghost predicate EverySaveExact(H: Bytes -> Hash, s: Root, ops: seq<Op>)
    decreases ops
  {
    ops == [] ||
    ((ops[0].Save? ==> HeadExact(H, After(H, s, ops[0]))) && EverySaveExact(H, After(H, s, ops[0]), ops[1..]))
  }

  /** The root holds these contents, and its head pin is exact. */
  ghost predicate Holds(H: Bytes -> Hash, s: Root, c: Content) {
    && s.file == c.file && s.memory == c.memory && HeadExact(H, s)
    && s.current == Some(match c.taken case Some(taken) => H(taken) case None => H(c.file))
  }

  lemma HoldsStep(H: Bytes -> Hash, s: Root, c: Content, op: Op)
    requires Holds(H, s, c)
    ensures !op.Save? ==> Holds(H, After(H, s, op), NextContent(c, op))
    ensures op.Save? ==> (HeadExact(H, After(H, s, op)) <==> KeptBySave(H, c))
    ensures op.Save? && HeadExact(H, After(H, s, op)) ==> Holds(H, After(H, s, op), NextContent(c, op))
  {
    var t := After(H, s, op);
    if op.Save? {
      assert (H(s.file), LocalFsHead) in s.pins;
      assert (H(s.file), LocalFsHead) in t.pins <==> s.current != Some(H(s.file)) || H(s.memory) == H(s.file);
      assert (H(t.file), LocalFsHead) in t.pins;
    }
  }

  /** In every run from a root with an exact head, every save leaves it exact if
      and only if each save meets its condition on contents. */
  lemma {:induction false} EverySaveIsExactIff(H: Bytes -> Hash, s: Root, c: Content, ops: seq<Op>)
    requires Holds(H, s, c)
    ensures EverySaveExact(H, s, ops) <==> EverySaveKept(H, c, ops)
    decreases ops
  {
    if ops != [] {
      HoldsStep(H, s, c, ops[0]);
      if !ops[0].Save? || HeadExact(H, After(H, s, ops[0])) {
        EverySaveIsExactIff(H, After(H, s, ops[0]), NextContent(c, ops[0]), ops[1..]);
      }
    }
  }
}
