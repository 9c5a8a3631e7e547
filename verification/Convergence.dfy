/** Replicas that merge the same snapshots: exactly when the order and the
    repetition of merges do not matter, and exactly when one push followed by
    one pull leaves two file systems equal. */
module Convergence {
  import opened Entries
  import opened Lww

  /** Position of a candidate in the race for a name; an absent one is last. */
  function Rank(e: Option<Entry>): nat {
    match e
    case None => 0
    case Some(x) => 1 + EntryStamp(x)
  }

  /** The candidate a snapshot puts forward for a name. */
  function Offer(s: Dir, name: string): Option<Entry> {
    Newer(s.DirAt(name), s.FileAt(name))
  }

  lemma NewerByRank(a: Option<Entry>, b: Option<Entry>)
    ensures Newer(a, b) == if Rank(b) > Rank(a) then b else a
  {}

  /** The three-way race of one merge is a two-way race against the offer. */
  lemma WinnerIsNewerOffer(l: Dir, s: Dir, name: string)
    ensures Winner(l, s, name) == Newer(l.At(name), Offer(s, name))
  {}

  function MergeAll(l: Dir, snapshots: seq<Dir>): Dir {
    if snapshots == [] then l
    else MergeDir(MergeAll(l, snapshots[..|snapshots| - 1]), snapshots[|snapshots| - 1])
  }

  /** What successive merges make of one name. */
  function Outcome(local: Option<Entry>, snapshots: seq<Dir>, name: string): Option<Entry> {
    if snapshots == [] then local
    else Newer(Outcome(local, snapshots[..|snapshots| - 1], name), Offer(snapshots[|snapshots| - 1], name))
  }

  lemma {:induction false} MergeAllIsOutcome(l: Dir, snapshots: seq<Dir>, name: string)
    ensures MergeAll(l, snapshots).At(name) == Outcome(l.At(name), snapshots, name)
  {
    if snapshots != [] {
      var init, last := snapshots[..|snapshots| - 1], snapshots[|snapshots| - 1];
      MergeAllIsOutcome(l, init, name);
      MergeDirAt(MergeAll(l, init), last);
      WinnerIsNewerOffer(MergeAll(l, init), last, name);
    }
  }

  /** No offer in `snapshots` beats `e`. */
  ghost predicate Unbeaten(e: Option<Entry>, snapshots: seq<Dir>, name: string) {
    forall s :: s in snapshots ==> Rank(Offer(s, name)) <= Rank(e)
  }

  /** After any merges a name means its local entry if no offer is later, and
      otherwise one of the latest offers. */
  lemma {:induction false} OutcomeIsLatest(e: Option<Entry>, snapshots: seq<Dir>, name: string)
    ensures var r := Outcome(e, snapshots, name);
            && Unbeaten(r, snapshots, name)
            && (r == e || (Rank(r) > Rank(e) && exists s :: s in snapshots && r == Offer(s, name)))
  {
    if snapshots != [] {
      var init, last := snapshots[..|snapshots| - 1], snapshots[|snapshots| - 1];
      assert snapshots == init + [last];
      OutcomeIsLatest(e, init, name);
      NewerByRank(Outcome(e, init, name), Offer(last, name));
    }
  }

  lemma {:induction false} MergeAllDisjoint(l: Dir, snapshots: seq<Dir>)
    requires l.Disjoint()
    ensures MergeAll(l, snapshots).Disjoint()
  {
    if snapshots != [] {
      MergeDirAt(MergeAll(l, snapshots[..|snapshots| - 1]), snapshots[|snapshots| - 1]);
    }
  }

  /** The latest offers that beat the local entry agree with each other. */
  ghost predicate Determined(l: Dir, snapshots: seq<Dir>, name: string) {
    forall s, t ::
      && s in snapshots && t in snapshots
      && Rank(Offer(s, name)) > Rank(l.At(name))
      && Unbeaten(Offer(s, name), snapshots, name)
      && Rank(Offer(t, name)) == Rank(Offer(s, name))
      ==> Offer(s, name) == Offer(t, name)
  }

  ghost predicate SameSnapshots(ss: seq<Dir>, tt: seq<Dir>) {
    forall s :: s in ss <==> s in tt
  }

  lemma DeterminedName(l: Dir, ss: seq<Dir>, tt: seq<Dir>, name: string)
    requires SameSnapshots(ss, tt) && Determined(l, ss, name)
    ensures MergeAll(l, ss).At(name) == MergeAll(l, tt).At(name)
  {
    MergeAllIsOutcome(l, ss, name);
    MergeAllIsOutcome(l, tt, name);
    OutcomeIsLatest(l.At(name), ss, name);
    OutcomeIsLatest(l.At(name), tt, name);
    var r, q := Outcome(l.At(name), ss, name), Outcome(l.At(name), tt, name);
    if r != l.At(name) {
      var s :| s in ss && r == Offer(s, name);
      assert s in tt;
      var t :| t in tt && q == Offer(t, name);
      assert t in ss;
    }
  }

  /** Convergence: replicas that start equal and merge the same snapshots, in
      any order and with any repetition, end equal if and only if every name is
      determined. */
  lemma MergesConverge(l: Dir, ss: seq<Dir>)
    requires l.Disjoint()
    ensures (forall tt :: SameSnapshots(ss, tt) ==> MergeAll(l, tt) == MergeAll(l, ss))
            <==> forall name :: Determined(l, ss, name)
  {
    if forall name :: Determined(l, ss, name) {
      forall tt | SameSnapshots(ss, tt)
        ensures MergeAll(l, tt) == MergeAll(l, ss)
      {
        MergeAllDisjoint(l, ss);
        MergeAllDisjoint(l, tt);
        forall name
          ensures MergeAll(l, tt).At(name) == MergeAll(l, ss).At(name)
        {
          DeterminedName(l, ss, tt, name);
        }
        SameEntriesSameDir(MergeAll(l, tt), MergeAll(l, ss));
      }
    } else {
      var name :| !Determined(l, ss, name);
      var tt := UndeterminedDiverges(l, ss, name);
    }
  }

  /** Merging one of two tied latest offers first makes it win for good. */
  lemma {:induction false} FirstLatestOfferWins(e: Option<Entry>, s: Dir, ss: seq<Dir>, name: string)
    requires Rank(Offer(s, name)) > Rank(e) && Unbeaten(Offer(s, name), ss, name)
    ensures Outcome(e, [s] + ss, name) == Offer(s, name)
  {
    var all := [s] + ss;
    NewerByRank(Outcome(e, all[..|ss|], name), Offer(all[|ss|], name));
    if ss == [] {
      assert all[..0] == [];
    } else {
      FirstLatestOfferWins(e, s, ss[..|ss| - 1], name);
      assert all[..|ss|] == [s] + ss[..|ss| - 1];
      assert all[|ss|] in ss;
    }
  }

  lemma UndeterminedDiverges(l: Dir, ss: seq<Dir>, name: string) returns (tt: seq<Dir>)
    requires !Determined(l, ss, name)
    ensures SameSnapshots(ss, tt) && MergeAll(l, tt).At(name) != MergeAll(l, ss).At(name)
  {
    var s, t :|
      && s in ss && t in ss
      && Rank(Offer(s, name)) > Rank(l.At(name)) && Unbeaten(Offer(s, name), ss, name)
      && Rank(Offer(t, name)) == Rank(Offer(s, name)) && Offer(s, name) != Offer(t, name);
    FirstLatestOfferWins(l.At(name), s, ss, name);
    FirstLatestOfferWins(l.At(name), t, ss, name);
    MergeAllIsOutcome(l, [s] + ss, name);
    MergeAllIsOutcome(l, [t] + ss, name);
    tt := if MergeAll(l, ss).At(name) == Offer(s, name) then [t] + ss else [s] + ss;
  }

  /** In particular, no two distinct entries of a name sharing a timestamp. */
  lemma UniqueStampsConverge(l: Dir, ss: seq<Dir>, tt: seq<Dir>)
    requires l.Disjoint() && SameSnapshots(ss, tt)
    requires forall name, s, t :: s in ss && t in ss && Rank(Offer(s, name)) == Rank(Offer(t, name))
                                  ==> Offer(s, name) == Offer(t, name)
    ensures MergeAll(l, ss) == MergeAll(l, tt)
  {
    MergesConverge(l, ss);
  }

  /** One end of a sync: the actor's directory and the last one it saved. It has
      no dirty children, whose hashes a save would rewrite, and it does not grow
      so large that a save shards it. */
  class Replica {
    var state: Dir
    var handles: set<string>
    var saved: Dir

    ghost predicate Valid()
      reads this
    {
      state.Disjoint() && handles <= state.dirs.Keys
    }

    constructor (state: Dir)
      requires state.Disjoint()
      ensures Valid() && this.state == state
    {
      this.state, this.handles, this.saved := state, {}, EMPTY_DIR;
    }

    method MergeFromSnapshot(snapshot: Dir)
      requires Valid()
      modifies this
      ensures Valid() && state == MergeDir(old(state), snapshot) && saved == old(saved)
    {
      state, handles := MergeEntriesLocal(state, handles, snapshot);
    }

    method Save()
      modifies this`saved
      ensures saved == state
    {
      saved := state;
    }
  }

  /** `push_snapshot` and `pull_snapshot`: merge the source's snapshot into the
      target and save the target. The source is untouched. */
  method Transfer(source: Replica, target: Replica)
    requires source != target && source.Valid() && target.Valid()
    modifies target
    ensures target.Valid()
    ensures target.state == target.saved == MergeDir(old(target.state), source.state)
  {
    var snapshot := source.state;
    target.MergeFromSnapshot(snapshot);
    target.Save();
  }

  /** A push followed by a pull. The two ends agree afterwards exactly when no
      name had two different entries with the same timestamp, and a second
      round never changes either end. */
  method PushThenPull(plaintext: Replica, encrypted: Replica)
    requires plaintext != encrypted && plaintext.Valid() && encrypted.Valid()
    modifies plaintext, encrypted
    ensures plaintext.Valid() && encrypted.Valid()
    ensures plaintext.saved == plaintext.state && encrypted.saved == encrypted.state
    ensures plaintext.state == encrypted.state <==> NoTies(old(plaintext.state), old(encrypted.state))
    ensures MergeDir(encrypted.state, plaintext.state) == encrypted.state
    ensures MergeDir(plaintext.state, encrypted.state) == plaintext.state
  {
    ghost var p, e := plaintext.state, encrypted.state;
    Transfer(plaintext, encrypted);
    Transfer(encrypted, plaintext);
    SyncedIff(p, e);
    SyncSettles(p, e);
  }

  ghost predicate NoTies(p: Dir, e: Dir) {
    forall name :: Rank(p.At(name)) == Rank(e.At(name)) ==> p.At(name) == e.At(name)
  }

  lemma MergeAt(l: Dir, s: Dir, name: string)
    requires s.Disjoint()
    ensures MergeDir(l, s).At(name) == if Rank(s.At(name)) > Rank(l.At(name)) then s.At(name) else l.At(name)
  {
    MergeDirAt(l, s);
    WinnerIsNewerOffer(l, s, name);
    NewerByRank(l.At(name), Offer(s, name));
  }

  lemma SyncedIff(p: Dir, e: Dir)
    requires p.Disjoint() && e.Disjoint()
    ensures MergeDir(p, MergeDir(e, p)) == MergeDir(e, p) <==> NoTies(p, e)
  {
    var e' := MergeDir(e, p);
    MergeDirAt(e, p);
    var p' := MergeDir(p, e');
    MergeDirAt(p, e');
    forall name
      ensures p'.At(name) == e'.At(name) <==> (Rank(p.At(name)) == Rank(e.At(name)) ==> p.At(name) == e.At(name))
    {
      MergeAt(e, p, name);
      MergeAt(p, e', name);
    }
    if NoTies(p, e) {
      SameEntriesSameDir(p', e');
    }
  }

  lemma SyncSettles(p: Dir, e: Dir)
    requires p.Disjoint() && e.Disjoint()
    ensures var e' := MergeDir(e, p); var p' := MergeDir(p, e');
            MergeDir(e', p') == e' && MergeDir(p', e') == p'
  {
    var e' := MergeDir(e, p);
    MergeDirAt(e, p);
    var p' := MergeDir(p, e');
    MergeDirAt(p, e');
    forall name
      ensures MergeDir(e', p').At(name) == e'.At(name) && MergeDir(p', e').At(name) == p'.At(name)
    {
      MergeAt(e, p, name);
      MergeAt(p, e', name);
      MergeAt(e', p', name);
      MergeAt(p', e', name);
    }
    MergeDirAt(e', p');
    MergeDirAt(p', e');
    SameEntriesSameDir(MergeDir(e', p'), e');
    SameEntriesSameDir(MergeDir(p', e'), p');
  }
}
