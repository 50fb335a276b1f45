/** What the indexer guarantees over whole runs, and where it gets stuck. */
module IndexerTheorems {
  import opened Types
  import opened Chain
  import opened Indexer
  import opened MirrorInvariant
  import opened Mirror
  import opened Tracking
  import opened IndexerRuns
  import opened IndexerOrphans
  import opened OrphanRuns
  import Store
  import ActivityWindow
  import StoreMeaning
  import Triggers

  function Empty(s0: Store.Db): State {
    State(map[], map[], None, s0)
  }

  /** What a mirror of a block's chain holds, read off the tree itself. */
  lemma MirrorsTheTree(t: BlockTree, s0: Store.Db, st: State, u: B256, cut: nat)
    requires WellFormed(t) && u in t && Mirrors(t, s0, st, Path(t, u), cut)
    ensures cut <= t[u].number + 1 && forall n :: 0 <= n <= t[u].number ==> Path(t, u)[n] in t
    ensures st.store == Store.ApplyAll(s0, Concat(BlockMods(t, Path(t, u))[..cut]))
    ensures forall n :: n in st.hashes <==> cut <= n <= t[u].number
    ensures forall n :: n in st.hashes ==> st.hashes[n] == Path(t, u)[n]
    ensures forall n :: n in st.pending <==> cut <= n <= t[u].number && t[Path(t, u)[n]].mods != []
    ensures forall n :: n in st.pending ==> st.pending[n] == t[Path(t, u)[n]].mods
  {
    ModsAreTheBlocks(t, Path(t, u), cut);
  }

  /** After any run from an empty indexer that ends in a successful sync, there is a cut such that the
      store equals the replay of the update block's chain below the cut, and the trees hold exactly the
      blocks of that chain from the cut up. Faults of every kind may strike anywhere; what failed hash lookups
      orphaned is above the update block, as long as no sync leaves an orphan under a block of its own chain. */
  lemma CompletedRunReplaysCanonicalChain(t: BlockTree, s0: Store.Db, reqs: seq<Request>, q: Request) returns (cut: nat)
    requires WellFormed(t) && Posed(t, q) && forall k :: 0 <= k < |reqs| ==> Posed(t, reqs[k])
    requires SafeRun(t, Empty(s0), reqs) && Safe(t, Run(t, Empty(s0), reqs), q.update)
    requires Step(t, Run(t, Empty(s0), reqs), q).error.None?
    ensures var st := Step(t, Run(t, Empty(s0), reqs), q).state;
      && Mirrors(t, s0, Known(st), Path(t, q.update), cut)
      && (forall n :: n in Orphans(st) ==> t[q.update].number < n)
      && st.last == Some(NumHash(t[q.update].number, q.update))
      && (forall n :: 0 <= n <= t[q.update].number ==> Path(t, q.update)[n] in t) && cut <= t[q.update].number + 1
      && st.store == Store.ApplyAll(s0, Concat(BlockMods(t, Path(t, q.update))[..cut]))
  {
    NoOrphans(Empty(s0));
    var p := RunHolds(t, s0, Empty(s0), Nowhere, reqs);
    var p' := StepHolds(t, s0, Run(t, Empty(s0), reqs), p, q);
    cut := p'.moved;
    MirrorsTheTree(t, s0, Known(Step(t, Run(t, Empty(s0), reqs), q).state), q.update, cut);
  }

  /** Without failed hash lookups every run is safe, and the whole state mirrors the chain. */
  lemma CompletedRunWithoutHashFaults(t: BlockTree, s0: Store.Db, reqs: seq<Request>, q: Request) returns (cut: nat)
    requires WellFormed(t) && ValidRequest(t, q)
    requires forall k :: 0 <= k < |reqs| ==> Posed(t, reqs[k]) && ValidFault(reqs[k].fault)
    requires Step(t, Run(t, Empty(s0), reqs), q).error.None?
    ensures SafeRun(t, Empty(s0), reqs) && Safe(t, Run(t, Empty(s0), reqs), q.update)
    ensures Mirrors(t, s0, Step(t, Run(t, Empty(s0), reqs), q).state, Path(t, q.update), cut)
  {
    var before := Run(t, Empty(s0), reqs);
    RunWithoutHashFaultsIsSafe(t, s0, Empty(s0), Nowhere, reqs);
    var p := RunReaches(t, s0, Empty(s0), Nowhere, reqs);
    RunWithoutHashFaultsIsSafe(t, s0, before, p, [q]);
    var p' := StepReaches(t, s0, before, p, q, Step(t, before, q));
    cut := p'.moved;
  }

  /** What the chain's blocks below the cut say about one assertion of one adopter. */
  ghost function ChainHistory(t: BlockTree, chain: seq<B256>, cut: nat, adopter: Address, id: B256): seq<Modification>
    requires cut <= |chain| && forall n :: 0 <= n < |chain| ==> chain[n] in t
  {
    ActivityWindow.OfId(Store.Of(Concat(BlockMods(t, chain)[..cut]), adopter), id)
  }

  /** The store's answer about an assertion is the chain's timeline, at every block from its last addition on. */
  ghost predicate FollowsTimeline(db: Store.Db, h: seq<Modification>, l: nat, adopter: Address, id: B256)
    requires l < |h|
  {
    forall b :: h[l].EffectiveBlock() <= b < U64_MAX ==>
      (ActivityWindow.StoredActive(Store.Lookup(Store.Get(db, adopter), id), b)
       <==> ActivityWindow.TimelineActive(h, b))
  }

  /** From the chain to the answer: after any run from nothing that ends in a successful sync, the store
      reports an assertion active at a block exactly when the timeline of the update block's own chain does,
      if and only if that timeline is representable, whatever was indexed and abandoned on the way. */
  lemma StoreFollowsChainTimelineIff(t: BlockTree, reqs: seq<Request>, q: Request) returns (cut: nat)
    requires WellFormed(t) && Posed(t, q) && forall k :: 0 <= k < |reqs| ==> Posed(t, reqs[k])
    requires SafeRun(t, Empty(map[]), reqs) && Safe(t, Run(t, Empty(map[]), reqs), q.update)
    requires Step(t, Run(t, Empty(map[]), reqs), q).error.None?
    ensures Mirrors(t, map[], Known(Step(t, Run(t, Empty(map[]), reqs), q).state), Path(t, q.update), cut)
    ensures forall adopter: Address, id: B256, l: nat ::
      var h := ChainHistory(t, Path(t, q.update), cut, adopter, id);
      ActivityWindow.Chronological(h) && ActivityWindow.IsLastAdd(h, l) && h[l].EffectiveBlock() < U64_MAX ==>
        (FollowsTimeline(Step(t, Run(t, Empty(map[]), reqs), q).state.store, h, l, adopter, id)
         <==> ActivityWindow.Representable(h, l))
  {
    cut := CompletedRunReplaysCanonicalChain(t, map[], reqs, q);
    var mods := Concat(BlockMods(t, Path(t, q.update))[..cut]);
    var db := Step(t, Run(t, Empty(map[]), reqs), q).state.store;
    forall adopter: Address, id: B256, l: nat |
      var h := ChainHistory(t, Path(t, q.update), cut, adopter, id);
      ActivityWindow.Chronological(h) && ActivityWindow.IsLastAdd(h, l) && h[l].EffectiveBlock() < U64_MAX
      ensures var h := ChainHistory(t, Path(t, q.update), cut, adopter, id);
        FollowsTimeline(db, h, l, adopter, id) <==> ActivityWindow.Representable(h, l)
    {
      Store.ApplyAllPointwise(map[], mods, adopter);
      ActivityWindow.StoreAgreesWithTimelineIff([], Store.Of(mods, adopter), id, l);
    }
  }

  /** The block is not before the last addition of a representable timeline. */
  ghost predicate RepresentableAt(h: seq<Modification>, l: nat, block: nat) {
    && ActivityWindow.Chronological(h) && ActivityWindow.IsLastAdd(h, l) && ActivityWindow.Representable(h, l)
    && h[l].EffectiveBlock() <= block < U64_MAX
  }

  /** And what a reader is handed: after such a run a read of an adopter at a block gives one answer for each
      assertion whose entry is in its window and none for the others. From the last addition of a representable
      timeline on, that is one answer if the chain's timeline is active at the block and none if it is not. */
  lemma ReadersFollowChain(t: BlockTree, reqs: seq<Request>, q: Request, adopter: Address, fired: set<TriggerType>,
                           block: nat, r: seq<Triggers.ForExecution>, id: B256)
    returns (cut: nat)
    requires WellFormed(t) && Posed(t, q) && forall k :: 0 <= k < |reqs| ==> Posed(t, reqs[k])
    requires SafeRun(t, Empty(map[]), reqs) && Safe(t, Run(t, Empty(map[]), reqs), q.update)
    requires Step(t, Run(t, Empty(map[]), reqs), q).error.None?
    requires var db := Step(t, Run(t, Empty(map[]), reqs), q).state.store;
      Triggers.ReadsList(Store.Get(db, adopter), fired, adopter, block, r)
    ensures Mirrors(t, map[], Known(Step(t, Run(t, Empty(map[]), reqs), q).state), Path(t, q.update), cut)
    ensures var h := ChainHistory(t, Path(t, q.update), cut, adopter, id);
      && StoreMeaning.AnswersOnce(r, ActivityWindow.Fold(None, h), fired, adopter, block, id)
      && forall l: nat :: RepresentableAt(h, l, block) ==>
           ((exists k: nat :: StoreMeaning.AnswersFor(r, k, id)) <==> ActivityWindow.TimelineActive(h, block))
  {
    cut := CompletedRunReplaysCanonicalChain(t, map[], reqs, q);
    StoreMeaning.ReaderFollowsHistory(Concat(BlockMods(t, Path(t, q.update))[..cut]), adopter, fired, block, r, id);
    var h := ChainHistory(t, Path(t, q.update), cut, adopter, id);
    forall l: nat | RepresentableAt(h, l, block)
      ensures (exists k: nat :: StoreMeaning.AnswersFor(r, k, id)) <==> ActivityWindow.TimelineActive(h, block)
    {
      ActivityWindow.WindowAgreesIff(h, l);
    }
  }

  /** A run never takes back or contradicts what it moved: the store afterwards is the store before with
      the modifications of further blocks of the same chain applied on top. */
  lemma StoreOnlyGrows(t: BlockTree, s0: Store.Db, st: State, tip: B256, moved: nat, reqs: seq<Request>)
    returns (tip': B256, moved': nat)
    requires WellFormed(t) && Holds(t, s0, st, At(tip, moved)) && SafeRun(t, st, reqs)
    requires forall k :: 0 <= k < |reqs| ==> Posed(t, reqs[k])
    ensures Holds(t, s0, Run(t, st, reqs), At(tip', moved')) && moved <= moved' && Share(t, tip', tip, moved)
    ensures Run(t, st, reqs).store == Store.ApplyAll(st.store, Mods(t, Path(t, tip'), moved, moved'))
  {
    var end := RunHolds(t, s0, st, At(tip, moved), reqs);
    tip', moved' := end.tip, end.moved;
    ReplayOnSharedBlocks(t, s0, tip, moved, tip', moved');
  }

  lemma ReplayOnSharedBlocks(t: BlockTree, s0: Store.Db, tip: B256, moved: nat, tip': B256, moved': nat)
    requires WellFormed(t) && tip in t && tip' in t && Share(t, tip', tip, moved)
    requires moved <= moved' <= t[tip'].number + 1
    ensures Replay(t, s0, Path(t, tip'), moved')
         == Store.ApplyAll(Replay(t, s0, Path(t, tip), moved), Mods(t, Path(t, tip'), moved, moved'))
  {
    var before, after := Path(t, tip), Path(t, tip');
    ShareIsPrefix(t, tip', tip, moved);
    forall n | 0 <= n < moved ensures before[n] == after[n] {
      assert before[..moved][n] == after[..moved][n];
    }
    SameMods(t, before, after, 0, moved);
    ReplayExtends(t, s0, after, moved, moved');
  }

  /** The chunk size does not matter: any two limits give the same outcome and the same state. */
  lemma ChunkSizeIndependence(t: BlockTree, s0: Store.Db, st: State, p: Position, u: B256, tag: nat, max1: nat,
                              max2: nat)
    requires WellFormed(t) && u in t && max1 >= 1 && max2 >= 1 && Reached(t, s0, st, p)
    ensures Sync(t, st, u, max1, tag, NoFault) == Sync(t, st, u, max2, tag, NoFault)
  {
    if SyncPlan(t, st, u).IndexOn? {
      var r1, moved1 := SuccessfulSync(t, s0, st, p, u, max1, tag);
      var r2, moved2 := SuccessfulSync(t, s0, st, p, u, max2, tag);
      MirrorsUnique(t, s0, r1.state, r2.state, Path(t, u), moved1);
    }
  }

  /** A sync that gets past its checks and meets no fault ends on its update block, with a cut that
      depends only on where it started and on the tag. */
  lemma SuccessfulSync(t: BlockTree, s0: Store.Db, st: State, p: Position, u: B256, maxBlocks: nat, tag: nat)
    returns (r: Outcome, moved': nat)
    requires WellFormed(t) && u in t && maxBlocks >= 1 && Reached(t, s0, st, p)
    requires SyncPlan(t, st, u).IndexOn?
    ensures r == Sync(t, st, u, maxBlocks, tag, NoFault) && r.error.None?
    ensures Mirrors(t, s0, r.state, Path(t, u), moved') && r.state.last == Some(NumHash(t[u].number, u))
    ensures moved' == if p.Nowhere? then MovedAfter(0, tag, t[u].number + 1)
                      else if u == p.tip && st.last.value.hash == u then p.moved
                      else MovedAfter(p.moved, tag, t[u].number + 1)
  {
    r := Sync(t, st, u, maxBlocks, tag, NoFault);
    match p {
      case Nowhere =>
        var p' := FreshStep(t, s0, st, Request(u, maxBlocks, tag, NoFault), r);
        moved' := p'.moved;
      case At(tip, moved) =>
        PlanGoesAheadIff(t, s0, st, tip, moved, u);
        var tip';
        tip', moved' := SyncPreserves(t, s0, st, tip, moved, u, maxBlocks, tag, NoFault, r);
    }
  }

  // ---- exactly when syncs succeed, and how the indexer gets stuck ----

  /** Without faults a sync succeeds exactly when the update is recoverable; otherwise it changes nothing.
      In particular a reorg cannot be followed once the new head is two or more blocks above the old tip. */
  lemma SyncSucceedsIff(t: BlockTree, s0: Store.Db, st: State, tip: B256, moved: nat, u: B256, maxBlocks: nat, tag: nat)
    requires WellFormed(t) && u in t && maxBlocks >= 1 && Tracks(t, s0, st, tip, moved)
    ensures var r := Sync(t, st, u, maxBlocks, tag, NoFault);
      && (r.error.None? <==> Recoverable(t, st, tip, moved, u))
      && (r.error.Some? ==> r.state == st)
  {
    var _, _ := SyncPreserves(t, s0, st, tip, moved, u, maxBlocks, tag, NoFault,
                              Sync(t, st, u, maxBlocks, tag, NoFault));
  }

  /** Once the record does not carry the tracked tip, every head two or more blocks above it fails, for ever. */
  lemma {:induction false} Stuck(t: BlockTree, s0: Store.Db, st: State, tip: B256, moved: nat, reqs: seq<Request>)
    requires WellFormed(t) && Tracks(t, s0, st, tip, moved) && st.last.value.hash != tip
    requires forall k :: 0 <= k < |reqs| ==> Posed(t, reqs[k]) && t[reqs[k].update].number >= t[tip].number + 2
    ensures Run(t, st, reqs) == st
    ensures forall k :: 0 <= k < |reqs| ==> Step(t, st, reqs[k]).error.Some?
    decreases |reqs|
  {
    if reqs != [] {
      var q := reqs[0];
      PlanGoesAheadIff(t, s0, st, tip, moved, q.update);
      Stuck(t, s0, st, tip, moved, reqs[1..]);
      forall k | 0 <= k < |reqs| ensures Step(t, st, reqs[k]).error.Some? {
        if k > 0 {
          assert reqs[k] == reqs[1..][k - 1];
        }
      }
    }
  }

  lemma LogsFaultStops(t: BlockTree, chain: seq<B256>, st: State, from: nat, maxBlocks: nat, tag: nat)
    requires maxBlocks >= 1 && from < |chain|
    ensures IndexChunks(t, chain, st, from, maxBlocks, tag, FaultAt(InLogs, 0)) == Outcome(st, Some(LogsUnavailable))
  {
  }

  /** The rewind goes to the update block's parent exactly when the old chain has that block too. */
  lemma RewindDepth(t: BlockTree, hashes: map<nat, B256>, tip: B256, moved: nat, u: B256)
    requires WellFormed(t) && u in t && tip in t
    requires moved <= t[tip].number + 1 && HashesMirror(hashes, Path(t, tip), moved)
    requires CommonAncestor(t, hashes, Parent(t, u)).Ok?
    ensures var c := CommonAncestor(t, hashes, Parent(t, u)).value;
      && c < t[u].number <= t[tip].number + 1
      && (c == t[u].number - 1 <==> Parent(t, u) == Ancestor(t, tip, t[u].number - 1))
  {
    WalkFindsGreatestCommonBlock(t, hashes, tip, moved, u);
    AncestorOfParent(t, u, u);
    var k := t[u].number - 1;
    assert Path(t, u)[k] == Path(t, tip)[k] <==> k <= CommonAncestor(t, hashes, Parent(t, u)).value;
  }

  /** What a recoverable reorg leaves if its first log query fails: the rewound state, whose record
      carries the update block's parent instead of the tracked block. */
  lemma FaultAfterRewind(t: BlockTree, s0: Store.Db, st: State, tip: B256, moved: nat, u: B256, maxBlocks: nat,
                         tag: nat,
                         left: State)
    returns (c: nat)
    requires WellFormed(t) && u in t && maxBlocks >= 1 && Tracks(t, s0, st, tip, moved)
    requires Recoverable(t, st, tip, moved, u) && Reorged(t, u, st.last.value)
    requires left == Sync(t, st, u, maxBlocks, tag, FaultAt(InLogs, 0)).state
    ensures c < t[u].number <= t[tip].number + 1
    ensures c == t[u].number - 1 <==> Parent(t, u) == Ancestor(t, tip, t[u].number - 1)
    ensures Tracks(t, s0, left, Ancestor(t, u, c), moved) && left.last.value.hash == Parent(t, u)
  {
    PlanGoesAheadIff(t, s0, st, tip, moved, u);
    RewindDepth(t, st.hashes, tip, moved, u);
    c := CommonAncestor(t, st.hashes, Parent(t, u)).value;
    SyncStopsAfterRewind(t, st, u, maxBlocks, tag, c);
    ReorgPlanFits(t, s0, st, tip, moved, u, c);
    var _ := PlanStart(t, s0, st, tip, moved, u, IndexOn(Rewound(t, u, st, c), c + 1));
  }

  lemma SyncStopsAfterRewind(t: BlockTree, st: State, u: B256, maxBlocks: nat, tag: nat, c: nat)
    requires WellFormed(t) && u in t && maxBlocks >= 1 && c < t[u].number
    requires st.last.Some? && st.last.value.number <= t[u].number && Reorged(t, u, st.last.value)
    requires CommonAncestor(t, st.hashes, Parent(t, u)) == Ok(c)
    ensures Sync(t, st, u, maxBlocks, tag, FaultAt(InLogs, 0)) == Outcome(Rewound(t, u, st, c), Some(LogsUnavailable))
  {
    LogsFaultStops(t, Path(t, u), Rewound(t, u, st, c), c + 1, maxBlocks, tag);
  }

  /** After such a failure the same sync, retried without a fault, succeeds exactly when only the update
      block itself was new. */
  lemma RetryAfterFaultSucceedsIff(t: BlockTree, s0: Store.Db, st: State, tip: B256, moved: nat, u: B256,
                                   maxBlocks: nat, tag: nat)
    requires WellFormed(t) && u in t && maxBlocks >= 1 && Tracks(t, s0, st, tip, moved)
    requires Recoverable(t, st, tip, moved, u) && Reorged(t, u, st.last.value)
    ensures var left := Sync(t, st, u, maxBlocks, tag, FaultAt(InLogs, 0)).state;
      t[u].number <= t[tip].number + 1 && 0 < t[u].number &&
      (Sync(t, left, u, maxBlocks, tag, NoFault).error.None? <==> Parent(t, u) == Ancestor(t, tip, t[u].number - 1))
  {
    var left := Sync(t, st, u, maxBlocks, tag, FaultAt(InLogs, 0)).state;
    var c := FaultAfterRewind(t, s0, st, tip, moved, u, maxBlocks, tag, left);
    InterimRecord(t, u, c);
    AncestorCompose(t, u, c, c);
    SyncSucceedsIff(t, s0, left, Ancestor(t, u, c), moved, u, maxBlocks, tag);
  }

  /** A transient failure can wedge the indexer. Take a recoverable reorg whose update block's parent is
      new as well. Without a fault the sync succeeds. If the first log query fails instead, then no later
      sync towards a head at least as high succeeds or changes anything, retries of the same sync included. */
  lemma TransientFaultWedges(t: BlockTree, s0: Store.Db, st: State, tip: B256, moved: nat, u: B256,
                             maxBlocks: nat, tag: nat, reqs: seq<Request>)
    requires WellFormed(t) && u in t && maxBlocks >= 1 && Tracks(t, s0, st, tip, moved)
    requires Recoverable(t, st, tip, moved, u) && Reorged(t, u, st.last.value)
    requires Parent(t, u) != Ancestor(t, tip, t[u].number - 1)
    requires forall k :: 0 <= k < |reqs| ==> Posed(t, reqs[k]) && t[reqs[k].update].number >= t[u].number
    ensures Sync(t, st, u, maxBlocks, tag, NoFault).error.None?
    ensures var stuck := Sync(t, st, u, maxBlocks, tag, FaultAt(InLogs, 0)).state;
      && Run(t, stuck, reqs) == stuck
      && forall k :: 0 <= k < |reqs| ==> Step(t, stuck, reqs[k]).error.Some?
  {
    SyncSucceedsIff(t, s0, st, tip, moved, u, maxBlocks, tag);
    var stuck := Sync(t, st, u, maxBlocks, tag, FaultAt(InLogs, 0)).state;
    var c := FaultAfterRewind(t, s0, st, tip, moved, u, maxBlocks, tag, stuck);
    InterimRecord(t, u, c);
    Stuck(t, s0, stuck, Ancestor(t, u, c), moved, reqs);
  }
}
