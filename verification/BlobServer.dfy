/** The blob server's pin, upload and delete requests, served one at a time
    with a store that does not fail. */
module BlobServer {
  import opened Entries

  datatype Context = NodeId(node: nat) | LocalContext(id: nat)

  /** What one peer may do: the store its uploads go to, if any. */
  datatype PeerConfig = PeerConfig(storeUploadsIn: Option<string>)

  /** The stores by name, and the pin set of each hash. */
  datatype State = State(stores: map<string, set<Hash>>, pins: map<Hash, set<Context>>)

  function PinsOf(s: State, h: Hash): set<Context> {
    if h in s.pins then s.pins[h] else {}
  }

  datatype Reply = Ok(value: bool) | Refused

  /** An upload announces a hash; what arrives has the hash `got`, and the size
      check or the pinner may fail on their own. */
  datatype Request =
    | PinBlob(hash: Hash, pinner: Pinner)
    | Upload(expected: Hash, got: Hash, sizeMatches: bool, pinner: Pinner)
    | DeleteBlob(hash: Hash, pinner: Pinner)

  /** The pinner as a request finds it: it may fail, or there may be none. */
  datatype Pinner = Works | Fails | Missing

  /** An upload that is cleaned up again: a mismatch, or a pin that failed. */
  predicate Rejected(r: Request) {
    r.Upload? && (r.got != r.expected || !r.sizeMatches || r.pinner.Fails?)
  }

  function WithPin(s: State, h: Hash, c: Context): State {
    s.(pins := s.pins[h := PinsOf(s, h) + {c}])
  }

  /** The store a peer's uploads go to, if it is configured and exists. */
  function UploadStore(s: State, cfg: Option<PeerConfig>): Option<string> {
    if cfg.Some? && cfg.value.storeUploadsIn.Some? && cfg.value.storeUploadsIn.value in s.stores
    then cfg.value.storeUploadsIn else None
  }

  /** The peer's upload store has the blob. */
  predicate HasBlob(s: State, cfg: Option<PeerConfig>, h: Hash) {
    var store := UploadStore(s, cfg);
    store.Some? && h in s.stores[store.value]
  }

  /** The pin goes through only if there is a pinner that works. */
  function Pinned(s: State, h: Hash, node: nat, pinner: Pinner): State {
    if pinner.Works? then WithPin(s, h, NodeId(node)) else s
  }

  function AfterPin(s: State, node: nat, cfg: Option<PeerConfig>, h: Hash, pinner: Pinner): State {
    if HasBlob(s, cfg, h) then Pinned(s, h, node, pinner) else s
  }

  function AfterUpload(s: State, node: nat, cfg: Option<PeerConfig>, r: Request): State
    requires r.Upload?
  {
    var store := UploadStore(s, cfg);
    if store.None? then s
    else if Rejected(r) then s.(stores := s.stores[store.value := s.stores[store.value] - {r.got}])
    else Pinned(s.(stores := s.stores[store.value := s.stores[store.value] + {r.got}]), r.got, node, r.pinner)
  }

  function AfterDelete(s: State, node: nat, cfg: Option<PeerConfig>, h: Hash, pinner: Pinner): State {
    if cfg.None? || cfg.value.storeUploadsIn.None? || !pinner.Works? then s
    else
      var left := PinsOf(s, h) - {NodeId(node)};
      State(if left == {} then map n | n in s.stores :: s.stores[n] - {h} else s.stores, s.pins[h := left])
  }

  function After(s: State, node: nat, cfg: Option<PeerConfig>, r: Request): State {
    match r
    case PinBlob(h, pinner) => AfterPin(s, node, cfg, h, pinner)
    case Upload(_, _, _, _) => AfterUpload(s, node, cfg, r)
    case DeleteBlob(h, pinner) => AfterDelete(s, node, cfg, h, pinner)
  }

  class Server {
    var stores: map<string, set<Hash>>
    var pins: map<Hash, set<Context>>

    ghost function Abstract(): State
      reads this
    {
      State(stores, pins)
    }

    constructor (stores: map<string, set<Hash>>)
      ensures Abstract() == State(stores, map[])
    {
      this.stores, this.pins := stores, map[];
    }

    method PinHash(h: Hash, c: Context)
      modifies this`pins
      ensures Abstract() == WithPin(old(Abstract()), h, c)
    {
      pins := pins[h := (if h in pins then pins[h] else {}) + {c}];
    }

    method UnpinHash(h: Hash, c: Context) returns (orphaned: bool)
      modifies this`pins
      ensures pins == old(pins)[h := old(PinsOf(Abstract(), h)) - {c}]
      ensures orphaned <==> old(PinsOf(Abstract(), h)) - {c} == {}
    {
      var left := (if h in pins then pins[h] else {}) - {c};
      pins := pins[h := left];
      orphaned := left == {};
    }

    /** `handle_pin`: without a pinner it answers as if it had pinned. */
    method HandlePin(node: nat, cfg: Option<PeerConfig>, h: Hash, pinner: Pinner) returns (r: Reply)
      modifies this
      ensures Abstract() == AfterPin(old(Abstract()), node, cfg, h, pinner)
      ensures r == Refused <==> UploadStore(old(Abstract()), cfg).None? ||
                                (HasBlob(old(Abstract()), cfg, h) && pinner.Fails?)
      ensures r == Ok(true) <==> HasBlob(old(Abstract()), cfg, h) && !pinner.Fails?
      ensures cfg.Some? && cfg.value.storeUploadsIn.Some? && cfg.value.storeUploadsIn.value in old(stores) ==>
                var found := h in old(stores)[cfg.value.storeUploadsIn.value];
                r == if found && pinner.Fails? then Refused else Ok(found)
      ensures stores == old(stores)
      ensures forall k :: k != h ==> Get(pins, k) == Get(old(pins), k)
      ensures r == Ok(true) && pinner.Works? ==>
                h in pins && pins[h] == (if h in old(pins) then old(pins)[h] else {}) + {NodeId(node)}
      ensures !(r == Ok(true) && pinner.Works?) ==> pins == old(pins)
    {
      if cfg.None? || cfg.value.storeUploadsIn.None? || cfg.value.storeUploadsIn.value !in stores {
        return Refused;
      }
      if h in stores[cfg.value.storeUploadsIn.value] {
        if pinner.Fails? {
          return Refused;
        }
        if pinner.Works? {
          PinHash(h, NodeId(node));
        }
        r := Ok(true);
      } else {
        r := Ok(false);
      }
    }

    /** `handle_upload`: what arrived is stored under its own hash; if it
        does not match or cannot be pinned, that hash is deleted again. */
    method HandleUpload(node: nat, cfg: Option<PeerConfig>, u: Request) returns (r: Reply)
      requires u.Upload?
      modifies this
      ensures Abstract() == AfterUpload(old(Abstract()), node, cfg, u)
      ensures r == Refused <==> UploadStore(old(Abstract()), cfg).None? || Rejected(u)
      ensures cfg.Some? && cfg.value.storeUploadsIn.Some? && cfg.value.storeUploadsIn.value in old(stores) ==>
                r == if u.got == u.expected && u.sizeMatches && !u.pinner.Fails? then Ok(true) else Refused
      ensures r.Ok? ==>
                var name := cfg.value.storeUploadsIn.value;
                r == Ok(true) && stores == old(stores)[name := old(stores)[name] + {u.expected}]
      ensures r.Ok? ==>
                u.got == u.expected && u.sizeMatches && !u.pinner.Fails? && cfg.Some? && cfg.value.storeUploadsIn.Some?
      ensures r.Refused? ==> stores.Keys == old(stores).Keys && pins == old(pins)
      ensures r.Refused? ==> forall n :: n in stores && !(cfg.Some? && cfg.value.storeUploadsIn == Some(n)) ==>
                               stores[n] == old(stores)[n]
      ensures r.Refused? ==> forall n :: n in stores && cfg.Some? && cfg.value.storeUploadsIn == Some(n) ==>
                               stores[n] == old(stores)[n] - {u.got}
      ensures forall k :: k != u.expected ==> Get(pins, k) == Get(old(pins), k)
      ensures r.Ok? && u.pinner.Works? ==>
                u.expected in pins &&
                pins[u.expected] == (if u.expected in old(pins) then old(pins)[u.expected] else {}) + {NodeId(node)}
      ensures r.Ok? && !u.pinner.Works? ==> pins == old(pins)
    {
      if cfg.None? || cfg.value.storeUploadsIn.None? || cfg.value.storeUploadsIn.value !in stores {
        return Refused;
      }
      var name := cfg.value.storeUploadsIn.value;
      stores := stores[name := stores[name] + {u.got}];
      if u.got != u.expected || !u.sizeMatches {
        stores := stores[name := stores[name] - {u.got}];
        assert old(stores)[name] + {u.got} - {u.got} == old(stores)[name] - {u.got};
        r := Refused;
      } else if u.pinner.Fails? {
        stores := stores[name := stores[name] - {u.got}];
        assert old(stores)[name] + {u.got} - {u.got} == old(stores)[name] - {u.got};
        r := Refused;
      } else {
        if u.pinner.Works? {
          PinHash(u.got, NodeId(node));
        }
        r := Ok(true);
      }
    }

    /** `handle_delete`: the caller's pin goes, and the blob with the last pin. */
    method HandleDelete(node: nat, cfg: Option<PeerConfig>, h: Hash, pinner: Pinner) returns (r: Reply)
      modifies this
      ensures Abstract() == AfterDelete(old(Abstract()), node, cfg, h, pinner)
      ensures r == Refused <==> cfg.None? || cfg.value.storeUploadsIn.None? || !pinner.Works?
      ensures r == Ok(true) <==> !r.Refused? && PinsOf(Abstract(), h) == {}
      ensures r.Refused? ==> stores == old(stores) && pins == old(pins)
      ensures r.Ok? ==> h in pins && pins[h] == (if h in old(pins) then old(pins)[h] else {}) - {NodeId(node)}
      ensures forall k :: k != h ==> Get(pins, k) == Get(old(pins), k)
      ensures r == Ok(false) ==> pins[h] != {} && stores == old(stores)
      ensures r == Ok(true) ==> pins[h] == {} && stores.Keys == old(stores).Keys
      ensures r == Ok(true) ==> forall n :: n in stores ==> stores[n] == old(stores)[n] - {h}
    {
      if cfg.None? || cfg.value.storeUploadsIn.None? || !pinner.Works? {
        return Refused;
      }
      var orphaned := UnpinHash(h, NodeId(node));
      if orphaned {
        var todo := stores.Keys;
        while todo != {}
          invariant todo <= stores.Keys == old(stores).Keys && pins == old(pins)[h := {}]
          invariant forall n :: n in stores ==> stores[n] == if n in todo then old(stores)[n] else old(stores)[n] - {h}
          decreases todo
        {
          var n :| n in todo;
          todo := todo - {n};
          stores := stores[n := stores[n] - {h}];
        }
      }
      r := Ok(orphaned);
    }
  }

  // ------------------------------------------------------------- guarantee

  ghost predicate Present(s: State, h: Hash) {
    exists n :: n in s.stores && h in s.stores[n]
  }

  ghost predicate PinnedByNode(s: State, h: Hash) {
    exists n :: NodeId(n) in PinsOf(s, h)
  }

  /** Whatever any node has pinned is in some store. */
  ghost predicate PinnedIsPresent(s: State) {
    forall h :: PinnedByNode(s, h) ==> Present(s, h)
  }

  lemma PinOrUploadKeeps(s: State, s': State, name: string, h: Hash, node: nat, pinner: Pinner)
    requires PinnedIsPresent(s) && name in s.stores
    requires s' == Pinned(s.(stores := s.stores[name := s.stores[name] + {h}]), h, node, pinner)
    ensures PinnedIsPresent(s')
  {
    forall k | PinnedByNode(s', k)
      ensures Present(s', k)
    {
      if k == h {
        assert h in s'.stores[name];
      } else {
        var n :| NodeId(n) in PinsOf(s', k);
        assert NodeId(n) in PinsOf(s, k) && PinnedByNode(s, k);
        var m :| m in s.stores && k in s.stores[m];
        assert k in s'.stores[m];
      }
    }
  }

  lemma DeleteKeeps(s: State, node: nat, cfg: Option<PeerConfig>, h: Hash, pinner: Pinner)
    requires PinnedIsPresent(s)
    ensures PinnedIsPresent(AfterDelete(s, node, cfg, h, pinner))
  {
    var s' := AfterDelete(s, node, cfg, h, pinner);
    forall k | PinnedByNode(s', k)
      ensures Present(s', k)
    {
      var n :| NodeId(n) in PinsOf(s', k);
      assert NodeId(n) in PinsOf(s, k) && PinnedByNode(s, k);
      var m :| m in s.stores && k in s.stores[m];
      assert k in s'.stores[m];
    }
  }

  /** Every request keeps pinned blobs present, if and only if it is not a
      rejected upload of content that some node has pinned and that no other
      store holds. */
  lemma RequestKeepsPinnedIff(s: State, node: nat, cfg: Option<PeerConfig>, r: Request)
    requires PinnedIsPresent(s)
    ensures PinnedIsPresent(After(s, node, cfg, r)) <==>
            !(Rejected(r) && UploadStore(s, cfg).Some? && PinnedByNode(s, r.got) &&
              forall n :: n in s.stores && n != UploadStore(s, cfg).value ==> r.got !in s.stores[n])
  {
    match r
    case PinBlob(h, pinner) =>
      var store := UploadStore(s, cfg);
      if store.Some? && h in s.stores[store.value] {
        assert s.stores[store.value] + {h} == s.stores[store.value];
        assert s.stores[store.value := s.stores[store.value]] == s.stores;
        PinOrUploadKeeps(s, AfterPin(s, node, cfg, h, pinner), store.value, h, node, pinner);
      }
    case DeleteBlob(h, pinner) => DeleteKeeps(s, node, cfg, h, pinner);
    case Upload(_, got, _, _) =>
      var store := UploadStore(s, cfg);
      if store.Some? {
        if Rejected(r) {
          RejectionKeepsIff(s, store.value, got);
        } else {
          PinOrUploadKeeps(s, AfterUpload(s, node, cfg, r), store.value, got, node, r.pinner);
        }
      }
  }

  lemma RejectionKeepsIff(s: State, name: string, got: Hash)
    requires PinnedIsPresent(s) && name in s.stores
    ensures PinnedIsPresent(s.(stores := s.stores[name := s.stores[name] - {got}])) <==>
            !(PinnedByNode(s, got) && forall n :: n in s.stores && n != name ==> got !in s.stores[n])
  {
    var s' := s.(stores := s.stores[name := s.stores[name] - {got}]);
    assert forall k :: PinnedByNode(s', k) <==> PinnedByNode(s, k) by {
      assert forall k :: PinsOf(s', k) == PinsOf(s, k);
    }
    forall k | k != got && Present(s, k)
      ensures Present(s', k)
    {
      var m :| m in s.stores && k in s.stores[m];
      assert k in s'.stores[m];
    }
    if n :| n in s.stores && n != name && got in s.stores[n] {
      assert got in s'.stores[n];
    }
  }

  /** A request of a node, with its configuration. */
  datatype Served = Served(node: nat, cfg: Option<PeerConfig>, request: Request)

  function AfterAll(s: State, rs: seq<Served>): State
    decreases rs
  {
    if rs == [] then s else AfterAll(After(s, rs[0].node, rs[0].cfg, rs[0].request), rs[1..])
  }

  /** In every run without rejected uploads, pinned blobs stay present. */
  lemma {:induction false} RunsKeepPinned(s: State, rs: seq<Served>)
    requires PinnedIsPresent(s) && forall i :: 0 <= i < |rs| ==> !Rejected(rs[i].request)
    ensures PinnedIsPresent(AfterAll(s, rs))
    decreases rs
  {
    if rs != [] {
      RequestKeepsPinnedIff(s, rs[0].node, rs[0].cfg, rs[0].request);
      RunsKeepPinned(After(s, rs[0].node, rs[0].cfg, rs[0].request), rs[1..]);
    }
  }
}
