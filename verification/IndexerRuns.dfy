/** Runs of syncs: agreement with replaying the canonical chain, reorgs and failures included. */
module IndexerRuns {
  import opened Types
  import opened Chain
  import opened Indexer
  import opened MirrorInvariant
  import opened Mirror
  import opened Tracking
  import Store

  /** What a sync from a tracking state leaves, whether it succeeds or fails. */
  ghost predicate SyncLeaves(t: BlockTree, s0: Store.Db, tip: B256, moved: nat, u: B256, r: Outcome, tip': B256,
                             moved': nat)
    requires WellFormed(t) && tip in t && u in t
  {
    && Tracks(t, s0, r.state, tip', moved')
    && moved <= moved' && Share(t, tip', tip, moved)
    && (r.error.None? ==> tip' == u && r.state.last.value.hash == u)
  }

  /** A plan starts from a tracked block of the new chain. */
  lemma PlanStart(t: BlockTree, s0: Store.Db, st: State, tip: B256, moved: nat, u: B256,
                  plan: Plan) returns (start: B256)
    requires WellFormed(t) && tip in t && u in t && plan.IndexOn? && PlanFits(t, s0, st, tip, moved, u, plan)
    ensures start == Ancestor(t, u, plan.from - 1) && Tracks(t, s0, plan.base, start, moved)
    ensures Mirrors(t, s0, plan.base, Path(t, u)[..plan.from], moved) && Share(t, u, tip, moved) && moved <= plan.from
  {
    start := Ancestor(t, u, plan.from - 1);
    TrackedPrefix(t, s0, plan.base, u, plan.from - 1, start, moved);
  }

  lemma TrackedPrefix(t: BlockTree, s0: Store.Db, st: State, u: B256, n: nat, a: B256, moved: nat)
    requires WellFormed(t) && u in t && n <= t[u].number && a == Ancestor(t, u, n) && Tracks(t, s0, st, a, moved)
    ensures Mirrors(t, s0, st, Path(t, u)[..n + 1], moved)
  {
    PathPrefix(t, u, n);
    assert Path(t, u)[..n + 1] == Path(t, a);
  }

  /** Indexing leaves a tracked block of the new chain. */
  lemma IndexedTip(t: BlockTree, s0: Store.Db, u: B256, start: B256, base: State, from: nat, moved: nat, tag: nat,
                   r: Outcome, len: nat, moved': nat)
    returns (tip': B256)
    requires WellFormed(t) && u in t && 0 < from <= t[u].number
    requires start == Ancestor(t, u, from - 1) && Tracks(t, s0, base, start, moved)
    requires IndexingLeaves(t, s0, base, u, from, moved, tag, r, len, moved')
    ensures from <= len <= t[u].number + 1 && tip' == Ancestor(t, u, len - 1) && Tracks(t, s0, r.state, tip', moved')
    ensures r.error.None? ==> tip' == u && r.state.last.value.hash == u
  {
    tip' := if len == from then start else Ancestor(t, u, len - 1);
  }

  lemma IndexedLeaves(t: BlockTree, s0: Store.Db, tip: B256, moved: nat, u: B256, start: B256, base: State, from: nat,
                      tag: nat, r: Outcome, len: nat, moved': nat)
    returns (tip': B256)
    requires WellFormed(t) && tip in t && u in t && 0 < from <= t[u].number && moved <= from && Share(t, u, tip, moved)
    requires start == Ancestor(t, u, from - 1) && Tracks(t, s0, base, start, moved)
    requires IndexingLeaves(t, s0, base, u, from, moved, tag, r, len, moved')
    ensures SyncLeaves(t, s0, tip, moved, u, r, tip', moved')
  {
    tip' := IndexedTip(t, s0, u, start, base, from, moved, tag, r, len, moved');
    PrefixShares(t, u, len - 1, tip, moved);
  }

  /** Indexing from a plan that fits. */
  lemma PlanPreserves(t: BlockTree, s0: Store.Db, st: State, tip: B256, moved: nat, u: B256, plan: Plan,
                      maxBlocks: nat, tag: nat, fault: Fault, r: Outcome)
    returns (tip': B256, moved': nat)
    requires WellFormed(t) && tip in t && u in t && maxBlocks >= 1 && ValidFault(fault)
    requires plan.IndexOn? && plan.from <= t[u].number && PlanFits(t, s0, st, tip, moved, u, plan)
    requires r == IndexChunks(t, Path(t, u), plan.base, plan.from, maxBlocks, tag, fault)
    ensures SyncLeaves(t, s0, tip, moved, u, r, tip', moved')
    ensures r.error.None? ==> moved' == MovedAfter(moved, tag, t[u].number + 1)
    ensures fault.NoFault? ==> r.error.None?
  {
    var start := PlanStart(t, s0, st, tip, moved, u, plan);
    var len;
    len, moved' := IndexingTracks(t, s0, plan.base, u, plan.from, moved, maxBlocks, tag, fault, r);
    tip' := IndexedLeaves(t, s0, tip, moved, u, start, plan.base, plan.from, tag, r, len, moved');
  }

  /** One sync. It moves on to the chain of its update block or to a prefix of it, never disagrees with
      blocks already moved to the store, and without a fault succeeds exactly on recoverable updates;
      on any other update it changes nothing. */
  lemma SyncPreserves(t: BlockTree, s0: Store.Db, st: State, tip: B256, moved: nat, u: B256,
                      maxBlocks: nat, tag: nat, fault: Fault, r: Outcome)
    returns (tip': B256, moved': nat)
    requires WellFormed(t) && u in t && maxBlocks >= 1 && ValidFault(fault)
    requires Tracks(t, s0, st, tip, moved)
    requires r == Sync(t, st, u, maxBlocks, tag, fault)
    ensures SyncLeaves(t, s0, tip, moved, u, r, tip', moved')
    ensures r.error.None? ==>
      moved' == if u == tip && st.last.value.hash == u then moved else MovedAfter(moved, tag, t[u].number + 1)
    ensures fault.NoFault? ==> (r.error.None? <==> Recoverable(t, st, tip, moved, u))
    ensures !Recoverable(t, st, tip, moved, u) ==> r.error.Some? && r.state == st
  {
    PlanGoesAheadIff(t, s0, st, tip, moved, u);
    var plan := SyncPlan(t, st, u);
    PlanSound(t, s0, st, tip, moved, u, plan);
    if plan.IndexOn? && plan.from <= t[u].number {
      tip', moved' := PlanPreserves(t, s0, st, tip, moved, u, plan, maxBlocks, tag, fault, r);
    } else {
      tip', moved' := tip, moved;
    }
  }

  // ---- whole runs ----

  datatype Request = Request(update: B256, maxBlocks: nat, tag: nat, fault: Fault)

  ghost predicate Posed(t: BlockTree, q: Request) {
    q.update in t && q.maxBlocks >= 1
  }

  ghost predicate ValidRequest(t: BlockTree, q: Request) {
    Posed(t, q) && ValidFault(q.fault)
  }

  function Step(t: BlockTree, st: State, q: Request): Outcome
    requires WellFormed(t) && Posed(t, q)
  {
    Sync(t, st, q.update, q.maxBlocks, q.tag, q.fault)
  }

  /** The state after a run of syncs, each started where the previous one ended, failed ones included. */
  function Run(t: BlockTree, st: State, reqs: seq<Request>): State
    requires WellFormed(t) && forall i :: 0 <= i < |reqs| ==> Posed(t, reqs[i])
    decreases |reqs|
  {
    if reqs == [] then st else Run(t, Step(t, st, reqs[0]).state, reqs[1..])
  }

  /** Where a run is: nothing indexed yet, or tracking the chain of a block. */
  datatype Position = Nowhere | At(tip: B256, moved: nat)

  ghost predicate Reached(t: BlockTree, s0: Store.Db, st: State, p: Position)
    requires WellFormed(t)
  {
    match p
    case Nowhere => Fresh(s0, st)
    case At(tip, moved) => Tracks(t, s0, st, tip, moved)
  }

  /** Every block moved to the store at `p` is still on the chain at `q`, and still moved. */
  ghost predicate Keeps(t: BlockTree, p: Position, q: Position)
    requires WellFormed(t)
  {
    match p
    case Nowhere => true
    case At(tip, moved) => q.At? && tip in t && q.tip in t && moved <= q.moved && Share(t, q.tip, tip, moved)
  }

  lemma KeepsTransitive(t: BlockTree, p: Position, q: Position, r: Position)
    requires WellFormed(t) && Keeps(t, p, q) && Keeps(t, q, r)
    ensures Keeps(t, p, r)
  {
    if p.At? && p.moved > 0 {
      AgreeBelow(t, r.tip, q.tip, q.moved - 1, p.moved - 1);
    }
  }

  lemma FreshStep(t: BlockTree, s0: Store.Db, st: State, q: Request, r: Outcome) returns (p: Position)
    requires WellFormed(t) && ValidRequest(t, q) && Fresh(s0, st)
    requires r == Step(t, st, q)
    ensures Reached(t, s0, r.state, p)
    ensures r.error.None? ==> p.At? && p.tip == q.update && r.state.last.value.hash == q.update
    ensures r.error.None? ==> p.At? && p.moved == MovedAfter(0, q.tag, t[q.update].number + 1)
    ensures q.fault.NoFault? ==> r.error.None?
  {
    var u := q.update;
    assert Mirrors(t, s0, st, Path(t, u)[..0], 0);
    var len, moved' := IndexingTracks(t, s0, st, u, 0, 0, q.maxBlocks, q.tag, q.fault, r);
    p := if len == 0 then Nowhere else At(Ancestor(t, u, len - 1), moved');
  }

  lemma StepReaches(t: BlockTree, s0: Store.Db, st: State, p: Position, q: Request, r: Outcome) returns (p': Position)
    requires WellFormed(t) && ValidRequest(t, q) && Reached(t, s0, st, p)
    requires r == Step(t, st, q)
    ensures Reached(t, s0, r.state, p') && Keeps(t, p, p')
    ensures r.error.None? ==> p'.At? && p'.tip == q.update && r.state.last.value.hash == q.update
  {
    match p {
      case Nowhere =>
        p' := FreshStep(t, s0, st, q, r);
      case At(tip, moved) =>
        var tip', moved' := SyncPreserves(t, s0, st, tip, moved, q.update, q.maxBlocks, q.tag, q.fault, r);
        p' := At(tip', moved');
    }
  }

  /** Over every run of syncs towards any heads, with reorgs and failures anywhere in it, the state
      mirrors some chain, and whatever was in the store before is still there and still canonical. */
  lemma {:induction false} RunReaches(t: BlockTree, s0: Store.Db, st: State, p: Position, reqs: seq<Request>)
    returns (end: Position)
    requires WellFormed(t) && Reached(t, s0, st, p)
    requires forall k :: 0 <= k < |reqs| ==> Posed(t, reqs[k]) && ValidFault(reqs[k].fault)
    ensures Reached(t, s0, Run(t, st, reqs), end) && Keeps(t, p, end)
    decreases |reqs|
  {
    if reqs == [] {
      end := p;
      KeepsReflexive(t, s0, st, p);
    } else {
      var r := Step(t, st, reqs[0]);
      var p' := StepReaches(t, s0, st, p, reqs[0], r);
      end := RunReaches(t, s0, r.state, p', reqs[1..]);
      KeepsTransitive(t, p, p', end);
    }
  }

  lemma KeepsReflexive(t: BlockTree, s0: Store.Db, st: State, p: Position)
    requires WellFormed(t) && Reached(t, s0, st, p)
    ensures Keeps(t, p, p)
  {
  }
}
