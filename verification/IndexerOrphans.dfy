/** Failed hash lookups. A lookup that fails after the pending batch was written leaves orphans behind:
    pending modifications of blocks that have no recorded hash. Everything else is as if the lookup had
    failed before the batch, and orphans do no harm as long as later syncs overwrite them. */
module IndexerOrphans {
  import opened Types
  import opened Chain
  import opened Indexer
  import opened MirrorInvariant
  import opened Mirror
  import opened Tracking
  import opened IndexerRuns
  import Store

  type Pending = map<nat, seq<Modification>>

  /** The state without its orphans. */
  function Known(st: State): State {
    st.(pending := map n | n in st.pending && n in st.hashes :: st.pending[n])
  }

  function Orphans(st: State): Pending {
    map n | n in st.pending && n !in st.hashes :: st.pending[n]
  }

  function Plus(st: State, o: Pending): State {
    st.(pending := st.pending + o)
  }

  function Above(o: Pending, k: nat): Pending {
    map n | n in o && k <= n :: o[n]
  }

  /** The height at which indexing goes on. */
  function Height(st: State): nat {
    if st.last.Some? then st.last.value.number + 1 else 0
  }

  /** All known blocks are below the height, all orphans at or above it. */
  ghost predicate Apart(st: State, o: Pending, height: nat) {
    && (forall n :: n in st.hashes || n in st.pending ==> n < height)
    && (forall n :: n in o ==> height <= n)
  }

  lemma SplitsIntoParts(st: State)
    ensures st == Plus(Known(st), Orphans(st))
  {
    assert st.pending == Known(st).pending + Orphans(st);
  }

  lemma PartsOf(st: State, o: Pending, height: nat)
    requires Apart(st, o, height) && forall n :: n in st.pending ==> n in st.hashes
    ensures Known(Plus(st, o)) == st && Orphans(Plus(st, o)) == o
  {
    assert Known(Plus(st, o)).pending == st.pending;
  }

  // ---- the checks do not see orphans ----

  lemma RewoundPlus(t: BlockTree, u: B256, st: State, o: Pending, c: nat)
    requires u in t && Apart(st, o, Height(st))
    ensures Rewound(t, u, Plus(st, o), c) == Plus(Rewound(t, u, st, c), o)
  {
    assert DropFrom(Plus(st, o), c + 1).pending == DropFrom(st, c + 1).pending + o;
  }

  /** The plan is the same, and indexing starts at the height of the state it starts from. */
  lemma PlanPlus(t: BlockTree, st: State, o: Pending, u: B256)
    requires WellFormed(t) && u in t && Apart(st, o, Height(st))
    ensures var plan := SyncPlan(t, st, u);
      && SyncPlan(t, Plus(st, o), u) == (if plan.Stop? then plan else IndexOn(Plus(plan.base, o), plan.from))
      && (plan.IndexOn? ==> plan.from == Height(plan.base))
  {
    if st.last.Some? && st.last.value.number <= t[u].number && Reorged(t, u, st.last.value) {
      var c := CommonAncestor(t, st.hashes, Parent(t, u));
      if c.Ok? {
        RewoundPlus(t, u, st, o, c.value);
      }
    }
  }

  // ---- one range ----

  lemma {:induction false} CollectPlus(hashes: map<nat, B256>, pending: Pending, o: Pending, hi: nat)
    requires forall n :: n in o ==> n !in hashes
    ensures Collect(hashes, pending + o, hi) == Collect(hashes, pending, hi)
  {
    if hi > 0 {
      CollectPlus(hashes, pending, o, hi - 1);
    }
  }

  lemma DropBelowPlus(st: State, o: Pending, to: nat)
    requires forall n :: n in o ==> n !in st.hashes && n !in st.pending
    ensures DropBelow(Plus(st, o), to) == Plus(DropBelow(st, to), o)
  {
    assert DropBelow(Plus(st, o), to).pending == DropBelow(st, to).pending + o;
  }

  lemma MoveIs(st: State, tag: nat, pruned: State, mods: seq<Modification>)
    requires tag > 0 && pruned == DropBelow(st, tag + 1) && mods == Collect(st.hashes, st.pending, tag + 1)
    ensures MoveToStore(st, tag) == pruned.(store := Store.ApplyAll(st.store, mods))
  {
  }

  lemma MovePlus(st: State, o: Pending, tag: nat)
    requires forall n :: n in o ==> n !in st.hashes && n !in st.pending
    ensures MoveToStore(Plus(st, o), tag) == Plus(MoveToStore(st, tag), o)
  {
    if tag > 0 {
      var pruned, mods := DropBelow(st, tag + 1), Collect(st.hashes, st.pending, tag + 1);
      CollectPlus(st.hashes, st.pending, o, tag + 1);
      DropBelowPlus(st, o, tag + 1);
      MoveIs(st, tag, pruned, mods);
      MoveIs(Plus(st, o), tag, Plus(pruned, o), mods);
      StorePlus(pruned, o, Store.ApplyAll(st.store, mods));
    }
  }

  lemma StorePlus(st: State, o: Pending, store: Store.Db)
    ensures Plus(st, o).(store := store) == Plus(st.(store := store), o)
  {
  }

  lemma MoveKeepsApart(st: State, o: Pending, height: nat, tag: nat)
    requires Apart(st, o, height)
    ensures Apart(MoveToStore(st, tag), o, height)
  {
  }

  /** Every orphan of the range is overwritten. */
  ghost predicate Covers(t: BlockTree, chain: seq<B256>, o: Pending) {
    forall n :: n in o && n < |chain| ==> ModsOf(t, chain[n]) != []
  }

  lemma BatchCovers(t: BlockTree, chain: seq<B256>, pending: Pending, o: Pending, from: nat, to: nat)
    requires from <= to < |chain| && Covers(t, chain, o) && forall n :: n in o ==> from <= n
    ensures (pending + o) + PendingBatch(t, chain, from, to)
         == (pending + PendingBatch(t, chain, from, to)) + Above(o, to + 1)
  {
  }

  lemma WrittenPlus(t: BlockTree, chain: seq<B256>, st: State, o: Pending, from: nat, to: nat)
    requires from <= to < |chain| && Apart(st, o, from) && Covers(t, chain, o)
    ensures Written(t, chain, Plus(st, o), from, to) == Plus(Written(t, chain, st, from, to), Above(o, to + 1))
    ensures Apart(Written(t, chain, st, from, to), Above(o, to + 1), to + 1)
  {
    BatchCovers(t, chain, st.pending, o, from, to);
  }

  lemma RangePlus(t: BlockTree, chain: seq<B256>, st: State, o: Pending, from: nat, to: nat, tag: nat, fault: Fault)
    requires from <= to < |chain| && Apart(st, o, from) && Covers(t, chain, o)
    requires !fault.Strikes(InHashes) && !fault.Strikes(InLogs)
    ensures var r := IndexRange(t, chain, st, from, to, tag, fault);
      && IndexRange(t, chain, Plus(st, o), from, to, tag, fault) == Outcome(Plus(r.state, Above(o, to + 1)), r.error)
      && Apart(r.state, Above(o, to + 1), to + 1) && Height(r.state) == to + 1
  {
    var written, o' := Written(t, chain, st, from, to), Above(o, to + 1);
    RangeOutcome(t, chain, st, from, to, tag, fault);
    RangeOutcome(t, chain, Plus(st, o), from, to, tag, fault);
    WrittenPlus(t, chain, st, o, from, to);
    MovePlus(written, o', tag);
    MoveKeepsApart(written, o', to + 1, tag);
    MoveKeepsRecord(written, tag);
  }

  // ---- all chunks ----

  /** A relation between two states at a height. */
  type Relation = (State, State, nat) -> bool

  /** Two outcomes of one range: either nothing happened to both, or both went on in the same way. */
  ghost predicate RangeTogether(rel: Relation, st: State, st': State, to: nat, fault: Fault, r: Outcome, r': Outcome) {
    && r'.error == r.error
    && (if fault.Strikes(InLogs) then r.error.Some? && r.state == st && r'.state == st'
        else Height(r.state) == to + 1 && rel(r.state, r'.state, to + 1))
  }

  ghost predicate StepTogether(step: RangeStep, rel: Relation, length: nat) {
    forall st: State, st': State, from: nat, to: nat, fault: Fault
      {:trigger rel(st, st', from), step(st, from, to, fault)} ::
      from <= to < length && rel(st, st', from) && !fault.Strikes(InHashes) ==>
      RangeTogether(rel, st, st', to, fault, step(st, from, to, fault), step(st', from, to, fault))
  }

  ghost predicate Together(rel: Relation, from: nat, r: Outcome, r': Outcome) {
    r'.error == r.error && from <= Height(r.state) && rel(r.state, r'.state, Height(r.state))
  }

  /** The rule for two chunk loops side by side. */
  lemma {:induction false} InChunksTogether(step: RangeStep, rel: Relation, st: State, st': State, from: nat,
                                            length: nat,
                                            maxBlocks: nat, fault: Fault)
    requires StepTogether(step, rel, length)
    requires maxBlocks >= 1 && from == Height(st) && rel(st, st', from) && ValidFault(fault)
    ensures Together(rel, from, InChunks(step, st, from, length, maxBlocks, fault),
                     InChunks(step, st', from, length, maxBlocks, fault))
    decreases length - from
  {
    if from < length {
      var to := Min(from + maxBlocks - 1, length - 1);
      var r, r' := step(st, from, to, fault), step(st', from, to, fault);
      assert RangeTogether(rel, st, st', to, fault, r, r');
      if r.error.None? && to < length - 1 {
        InChunksTogether(step, rel, r.state, r'.state, to + 1, length, maxBlocks, fault.Later());
      }
    }
  }

  /** The second state is the first with those of the orphans that lie at or above the height. */
  ghost function Carrying(o: Pending): Relation {
    (st: State, st': State, height: nat) => Apart(st, Above(o, height), height) && st' == Plus(st, Above(o, height))
  }

  /** What indexing makes of a state with orphans, given what it makes of the state without them: orphans below
      the height reached are overwritten, the others stay. */
  ghost predicate Carries(o: Pending, from: nat, r: Outcome, r': Outcome) {
    var height := Height(r.state);
    && from <= height && r' == Outcome(Plus(r.state, Above(o, height)), r.error)
    && Apart(r.state, Above(o, height), height)
  }

  lemma RangeCarries(t: BlockTree, chain: seq<B256>, st: State, o: Pending, from: nat, to: nat, tag: nat, fault: Fault)
    requires from <= to < |chain| && Covers(t, chain, o) && Apart(st, Above(o, from), from)
    requires !fault.Strikes(InHashes)
    ensures RangeTogether(Carrying(o), st, Plus(st, Above(o, from)), to, fault,
                          IndexRange(t, chain, st, from, to, tag, fault),
                          IndexRange(t, chain, Plus(st, Above(o, from)), from, to, tag, fault))
  {
    if !fault.Strikes(InLogs) {
      RangePlus(t, chain, st, Above(o, from), from, to, tag, fault);
      assert Above(Above(o, from), to + 1) == Above(o, to + 1);
    }
  }

  /** Indexing carries the orphans along and overwrites those it comes by. */
  lemma ChunksCarry(t: BlockTree, chain: seq<B256>, st: State, o: Pending, from: nat, maxBlocks: nat, tag: nat,
                    fault: Fault)
    requires maxBlocks >= 1 && from == Height(st) && Apart(st, o, from) && Covers(t, chain, o) && ValidFault(fault)
    ensures Carries(o, from, IndexChunks(t, chain, st, from, maxBlocks, tag, fault),
                    IndexChunks(t, chain, Plus(st, o), from, maxBlocks, tag, fault))
  {
    var step, rel := RangeOf(t, chain, tag), Carrying(o);
    forall st: State, st': State, from: nat, to: nat, fault: Fault
      | from <= to < |chain| && rel(st, st', from) && !fault.Strikes(InHashes)
      ensures RangeTogether(rel, st, st', to, fault, step(st, from, to, fault), step(st', from, to, fault))
    {
      RangeCarries(t, chain, st, o, from, to, tag, fault);
    }
    assert Above(o, from) == o;
    InChunksTogether(step, rel, st, Plus(st, o), from, |chain|, maxBlocks, fault);
  }

  // ---- a failed hash lookup ----

  lemma RangeStruckInHashes(t: BlockTree, chain: seq<B256>, st: State, from: nat, to: nat, tag: nat)
    requires from <= to < |chain|
    ensures IndexRange(t, chain, st, from, to, tag, FaultAt(InHashes, 0))
         == Outcome(Plus(st, PendingBatch(t, chain, from, to)), Some(BlockHashMissing))
    ensures IndexRange(t, chain, st, from, to, tag, FaultAt(InLogs, 0)) == Outcome(st, Some(LogsUnavailable))
  {
  }

  lemma RangeNotStruck(t: BlockTree, chain: seq<B256>, st: State, from: nat, to: nat, tag: nat, k: nat)
    requires from <= to < |chain| && k > 0
    ensures var r := IndexRange(t, chain, st, from, to, tag, FaultAt(InLogs, k));
      && IndexRange(t, chain, st, from, to, tag, FaultAt(InHashes, k)) == r
      && r.error.None? && Height(r.state) == to + 1
  {
  }

  /** What a failed hash lookup leaves, given what a failed log query in the same chunk leaves: the same with
      the orphaned batch on top, or exactly the same if there are not that many chunks. */
  ghost predicate Orphaning(t: BlockTree, chain: seq<B256>, l: Outcome, h: Outcome, b: Pending) {
    && h.state == Plus(l.state, b) && (h.error.Some? <==> l.error.Some?)
    && forall n :: n in b ==> Height(l.state) <= n < |chain| && ModsOf(t, chain[n]) != []
  }

  /** A claim about the outcomes of a failed log query and of a failed hash lookup in the same chunk. */
  type Comparison = (Outcome, Outcome) -> bool

  /** The chunk in which the call fails makes the claim true; before it both go on in the same way. */
  ghost predicate StepCompares(step: RangeStep, claim: Comparison, length: nat) {
    forall st: State, from: nat, to: nat, k: nat {:trigger step(st, from, to, FaultAt(InHashes, k))} ::
      from <= to < length && from == Height(st) ==>
      var l, h := step(st, from, to, FaultAt(InLogs, k)), step(st, from, to, FaultAt(InHashes, k));
      if k == 0 then l.error.Some? && h.error.Some? && claim(l, h)
      else h == l && l.error.None? && Height(l.state) == to + 1
  }

  lemma {:induction false} InChunksCompare(step: RangeStep, claim: Comparison, st: State, from: nat, length: nat,
                                           maxBlocks: nat, k: nat)
    requires StepCompares(step, claim, length) && (forall r :: claim(r, r)) && maxBlocks >= 1 && from == Height(st)
    ensures claim(InChunks(step, st, from, length, maxBlocks, FaultAt(InLogs, k)),
                  InChunks(step, st, from, length, maxBlocks, FaultAt(InHashes, k)))
    decreases k
  {
    if from < length {
      var to := Min(from + maxBlocks - 1, length - 1);
      var l, h := step(st, from, to, FaultAt(InLogs, k)), step(st, from, to, FaultAt(InHashes, k));
      if k == 0 {
        assert claim(l, h);
      } else if to == length - 1 {
        assert h == l && claim(l, l);
      } else {
        InChunksCompare(step, claim, l.state, to + 1, length, maxBlocks, k - 1);
      }
    } else {
      assert claim(Outcome(st, None), Outcome(st, None));
    }
  }

  lemma NothingOrphaned(t: BlockTree, chain: seq<B256>, r: Outcome)
    ensures Orphaning(t, chain, r, r, map[])
  {
    assert r.state.pending + map[] == r.state.pending;
  }

  lemma BatchOrphaned(t: BlockTree, chain: seq<B256>, st: State, from: nat, to: nat, l: Outcome, h: Outcome)
    requires from <= to < |chain| && from == Height(st) && l == Outcome(st, Some(LogsUnavailable))
    requires h == Outcome(Plus(st, PendingBatch(t, chain, from, to)), Some(BlockHashMissing))
    ensures Orphaning(t, chain, l, h, PendingBatch(t, chain, from, to))
  {
  }

  ghost predicate SomeOrphaned(t: BlockTree, chain: seq<B256>, l: Outcome, h: Outcome) {
    exists b: Pending :: Orphaning(t, chain, l, h, b)
  }

  lemma RangeOrphans(t: BlockTree, chain: seq<B256>, st: State, from: nat, to: nat, tag: nat)
    requires from <= to < |chain| && from == Height(st)
    ensures var l := IndexRange(t, chain, st, from, to, tag, FaultAt(InLogs, 0));
      var h := IndexRange(t, chain, st, from, to, tag, FaultAt(InHashes, 0));
      l.error.Some? && h.error.Some? && SomeOrphaned(t, chain, l, h)
  {
    var l := IndexRange(t, chain, st, from, to, tag, FaultAt(InLogs, 0));
    var h := IndexRange(t, chain, st, from, to, tag, FaultAt(InHashes, 0));
    RangeStruckInHashes(t, chain, st, from, to, tag);
    BatchOrphaned(t, chain, st, from, to, l, h);
  }

  lemma HashFaultOrphans(t: BlockTree, chain: seq<B256>, st: State, from: nat, maxBlocks: nat, tag: nat, k: nat)
    returns (b: Pending)
    requires maxBlocks >= 1 && from == Height(st)
    ensures Orphaning(t, chain, IndexChunks(t, chain, st, from, maxBlocks, tag, FaultAt(InLogs, k)),
                      IndexChunks(t, chain, st, from, maxBlocks, tag, FaultAt(InHashes, k)), b)
  {
    var step := RangeOf(t, chain, tag);
    var claim: Comparison := (l: Outcome, h: Outcome) => SomeOrphaned(t, chain, l, h);
    forall st: State, from: nat, to: nat, k: nat | from <= to < |chain| && from == Height(st)
      ensures var l, h := step(st, from, to, FaultAt(InLogs, k)), step(st, from, to, FaultAt(InHashes, k));
        if k == 0 then l.error.Some? && h.error.Some? && claim(l, h)
        else h == l && l.error.None? && Height(l.state) == to + 1
    {
      if k == 0 {
        RangeOrphans(t, chain, st, from, to, tag);
      } else {
        RangeNotStruck(t, chain, st, from, to, tag, k);
      }
    }
    forall r ensures claim(r, r) {
      NothingOrphaned(t, chain, r);
    }
    InChunksCompare(step, claim, st, from, |chain|, maxBlocks, k);
    var l := IndexChunks(t, chain, st, from, maxBlocks, tag, FaultAt(InLogs, k));
    var h := IndexChunks(t, chain, st, from, maxBlocks, tag, FaultAt(InHashes, k));
    assert SomeOrphaned(t, chain, l, h);
    b :| Orphaning(t, chain, l, h, b);
  }

  // ---- one sync ----

  /** A sync that meets no failed hash lookup. */
  lemma SyncCarries(t: BlockTree, st: State, o: Pending, u: B256, maxBlocks: nat, tag: nat, fault: Fault)
    requires WellFormed(t) && u in t && maxBlocks >= 1 && ValidFault(fault) && Apart(st, o, Height(st))
    requires var plan := SyncPlan(t, st, u);
      plan.IndexOn? ==> Apart(plan.base, o, plan.from) && Covers(t, Path(t, u), o)
    ensures var r, r' := Sync(t, st, u, maxBlocks, tag, fault), Sync(t, Plus(st, o), u, maxBlocks, tag, fault);
      Carries(o, 0, r, r')
  {
    PlanPlus(t, st, o, u);
    var plan := SyncPlan(t, st, u);
    if plan.IndexOn? {
      ChunksCarry(t, Path(t, u), plan.base, o, plan.from, maxBlocks, tag, fault);
    } else {
      assert Above(o, Height(st)) == o;
    }
  }

  /** A sync that meets one. */
  lemma SyncOrphans(t: BlockTree, st: State, u: B256, maxBlocks: nat, tag: nat, k: nat) returns (b: Pending)
    requires WellFormed(t) && u in t && maxBlocks >= 1
    requires var plan := SyncPlan(t, st, u); plan.IndexOn? ==> plan.from == Height(plan.base)
    ensures var l := Sync(t, st, u, maxBlocks, tag, FaultAt(InLogs, k));
      var h := Sync(t, st, u, maxBlocks, tag, FaultAt(InHashes, k));
      Orphaning(t, Path(t, u), l, h, b)
  {
    var plan := SyncPlan(t, st, u);
    if plan.IndexOn? {
      b := HashFaultOrphans(t, Path(t, u), plan.base, plan.from, maxBlocks, tag, k);
    } else {
      b := map[];
      assert st.pending + map[] == st.pending;
    }
  }
}

/** Runs with any faults. */
module OrphanRuns {
  import opened Types
  import opened Chain
  import opened Indexer
  import opened MirrorInvariant
  import opened Mirror
  import opened Tracking
  import opened IndexerRuns
  import opened IndexerOrphans
  import Store

  /** Without its orphans the state is where the run is, and the orphans lie above it. */
  ghost predicate Holds(t: BlockTree, s0: Store.Db, st: State, p: Position)
    requires WellFormed(t)
  {
    Reached(t, s0, Known(st), p) && forall n :: n in Orphans(st) ==> Height(st) <= n
  }

  /** If the sync goes ahead, every orphan up to its update block is overwritten, because the block of that
      number on the new chain has modifications too. */
  ghost predicate Safe(t: BlockTree, st: State, u: B256)
    requires WellFormed(t) && u in t
  {
    SyncPlan(t, st, u).IndexOn? ==> Covers(t, Path(t, u), Orphans(st))
  }

  /** All requests are safe where they are made. Any fault may strike anywhere. */
  ghost predicate SafeRun(t: BlockTree, st: State, reqs: seq<Request>)
    requires WellFormed(t)
    decreases |reqs|
  {
    reqs == [] ||
    (Posed(t, reqs[0]) && Safe(t, st, reqs[0].update) && SafeRun(t, Step(t, st, reqs[0]).state, reqs[1..]))
  }

  lemma ReachedIsApart(t: BlockTree, s0: Store.Db, st: State, p: Position, o: Pending)
    requires WellFormed(t) && Reached(t, s0, st, p) && forall n :: n in o ==> Height(st) <= n
    ensures Apart(st, o, Height(st)) && forall n :: n in st.pending ==> n in st.hashes
  {
  }

  lemma HoldsWith(t: BlockTree, s0: Store.Db, st: State, p: Position, o: Pending)
    requires WellFormed(t) && Reached(t, s0, st, p) && forall n :: n in o ==> Height(st) <= n
    ensures Holds(t, s0, Plus(st, o), p) && Known(Plus(st, o)) == st && Orphans(Plus(st, o)) == o
  {
    ReachedIsApart(t, s0, st, p, o);
    PartsOf(st, o, Height(st));
  }

  lemma {:induction false} AncestorIsKnown(t: BlockTree, hashes: map<nat, B256>, cursor: B256)
    requires WellFormed(t) && CommonAncestor(t, hashes, cursor).Ok?
    ensures CommonAncestor(t, hashes, cursor).value in hashes
    decreases if cursor in t then t[cursor].number + 1 else 0
  {
    if hashes[t[cursor].number] != cursor {
      AncestorIsKnown(t, hashes, Parent(t, cursor));
    }
  }

  lemma PlanApart(t: BlockTree, st: State, o: Pending, u: B256)
    requires WellFormed(t) && u in t && Apart(st, o, Height(st)) && forall n :: n in st.pending ==> n in st.hashes
    ensures var plan := SyncPlan(t, st, u); plan.IndexOn? ==> Apart(plan.base, o, plan.from)
  {
    var c := CommonAncestor(t, st.hashes, Parent(t, u));
    if c.Ok? {
      AncestorIsKnown(t, st.hashes, Parent(t, u));
    }
  }

  /** The request with the failed hash lookup moved in front of the batch. */
  function Earlier(q: Request): Request {
    if q.fault.FaultAt? && q.fault.point == InHashes then q.(fault := FaultAt(InLogs, q.fault.chunk)) else q
  }

  /** Any sync, with any fault, against the same sync on the state without its orphans. */
  lemma StepAgainstClean(t: BlockTree, s0: Store.Db, st: State, p: Position, o: Pending,
                         q: Request) returns (o': Pending)
    requires WellFormed(t) && Posed(t, q) && Reached(t, s0, st, p) && forall n :: n in o ==> Height(st) <= n
    requires SyncPlan(t, st, q.update).IndexOn? ==> Covers(t, Path(t, q.update), o)
    ensures var r, r' := Step(t, st, Earlier(q)), Step(t, Plus(st, o), q);
      && r'.state == Plus(r.state, o') && (r'.error.Some? <==> r.error.Some?)
      && (forall n :: n in o' ==> Height(r.state) <= n)
      && (forall n :: n in o' ==> n in o || (n <= t[q.update].number && ModsOf(t, Path(t, q.update)[n]) != []))
      && (ValidFault(q.fault) ==> o' == Above(o, Height(r.state)))
  {
    var early := Earlier(q);
    var r := Step(t, st, early);
    ReachedIsApart(t, s0, st, p, o);
    PlanApart(t, st, o, q.update);
    PlanPlus(t, st, o, q.update);
    SyncCarries(t, st, o, q.update, q.maxBlocks, q.tag, early.fault);
    o' := Above(o, Height(r.state));
    if !ValidFault(q.fault) {
      var b := SyncOrphans(t, Plus(st, o), q.update, q.maxBlocks, q.tag, q.fault.chunk);
      AppendAssocMaps(r.state.pending, o', b);
      o' := o' + b;
    }
  }

  lemma AppendAssocMaps(x: Pending, y: Pending, z: Pending)
    ensures (x + y) + z == x + (y + z)
  {
  }

  /** One safe sync, whatever fault strikes it. */
  lemma StepHolds(t: BlockTree, s0: Store.Db, st: State, p: Position, q: Request) returns (p': Position)
    requires WellFormed(t) && Posed(t, q) && Holds(t, s0, st, p) && Safe(t, st, q.update)
    ensures var r := Step(t, st, q);
      && Holds(t, s0, r.state, p') && Keeps(t, p, p')
      && (r.error.None? ==> p'.At? && p'.tip == q.update && r.state.last.value.hash == q.update)
  {
    var clean, o := Known(st), Orphans(st);
    SplitsIntoParts(st);
    ReachedIsApart(t, s0, clean, p, o);
    PlanPlus(t, clean, o, q.update);
    var o' := StepAgainstClean(t, s0, clean, p, o, q);
    var r := Step(t, clean, Earlier(q));
    p' := StepReaches(t, s0, clean, p, Earlier(q), r);
    HoldsWith(t, s0, r.state, p', o');
  }

  /** Over every run of safe syncs towards any heads, with reorgs and faults of every kind anywhere in it, the
      state without its orphans mirrors some chain, and whatever was in the store before is still there and still
      canonical. */
  lemma {:induction false} RunHolds(t: BlockTree, s0: Store.Db, st: State, p: Position, reqs: seq<Request>)
    returns (end: Position)
    requires WellFormed(t) && Holds(t, s0, st, p) && SafeRun(t, st, reqs)
    ensures forall k :: 0 <= k < |reqs| ==> Posed(t, reqs[k])
    ensures Holds(t, s0, Run(t, st, reqs), end) && Keeps(t, p, end)
    decreases |reqs|
  {
    if reqs == [] {
      end := p;
      KeepsReflexive(t, s0, Known(st), p);
    } else {
      var p' := StepHolds(t, s0, st, p, reqs[0]);
      end := RunHolds(t, s0, Step(t, st, reqs[0]).state, p', reqs[1..]);
      KeepsTransitive(t, p, p', end);
      assert forall k :: 1 <= k < |reqs| ==> reqs[k] == reqs[1..][k - 1];
    }
  }

  // ---- when orphans are harmless ----

  lemma NoOrphans(st: State)
    ensures Orphans(st) == map[] ==> Known(st) == st
  {
    SplitsIntoParts(st);
    assert Known(st).pending + map[] == Known(st).pending;
  }

  /** Where there are no orphans every request is safe. Only a hash lookup that fails over blocks with
      modifications makes some. */
  lemma {:induction false} RunWithoutHashFaultsIsSafe(t: BlockTree, s0: Store.Db, st: State, p: Position,
                                                      reqs: seq<Request>)
    requires WellFormed(t) && Reached(t, s0, st, p)
    requires forall k :: 0 <= k < |reqs| ==> Posed(t, reqs[k]) && ValidFault(reqs[k].fault)
    ensures SafeRun(t, st, reqs)
    decreases |reqs|
  {
    if reqs != [] {
      var r := Step(t, st, reqs[0]);
      ReachedIsApart(t, s0, st, p, map[]);
      assert Orphans(st) == map[];
      var p' := StepReaches(t, s0, st, p, reqs[0], r);
      RunWithoutHashFaultsIsSafe(t, s0, r.state, p', reqs[1..]);
    }
  }

  /** A sync that fails, whatever strikes it, followed by a successful sync towards the same block or a
      descendant of it: the orphans are gone and the whole state mirrors the new chain again. */
  lemma RetryRestoresMirror(t: BlockTree, s0: Store.Db, st: State, p: Position, q: Request,
                            q': Request) returns (cut: nat)
    requires WellFormed(t) && Posed(t, q) && Posed(t, q') && Reached(t, s0, st, p)
    requires t[q.update].number <= t[q'.update].number && Ancestor(t, q'.update, t[q.update].number) == q.update
    requires Step(t, Step(t, st, q).state, q').error.None?
    ensures Mirrors(t, s0, Step(t, Step(t, st, q).state, q').state, Path(t, q'.update), cut)
  {
    PlusNothing(st);
    var o := StepAgainstClean(t, s0, st, p, map[], q);
    var r := Step(t, st, Earlier(q));
    var p' := StepReaches(t, s0, st, p, Earlier(q), r);
    DescendantCovers(t, q.update, q'.update, o);
    cut := SyncClearsOrphans(t, s0, r.state, p', o, q');
  }

  lemma PlusNothing(st: State)
    ensures Plus(st, map[]) == st
  {
    assert st.pending + map[] == st.pending;
  }

  lemma SyncClearsOrphans(t: BlockTree, s0: Store.Db, st: State, p: Position, o: Pending, q: Request) returns (cut: nat)
    requires WellFormed(t) && Posed(t, q) && Reached(t, s0, st, p) && Covers(t, Path(t, q.update), o)
    requires forall n :: n in o ==> Height(st) <= n <= t[q.update].number
    requires Step(t, Plus(st, o), q).error.None?
    ensures Mirrors(t, s0, Step(t, Plus(st, o), q).state, Path(t, q.update), cut)
  {
    var o' := StepAgainstClean(t, s0, st, p, o, q);
    var r := Step(t, st, Earlier(q));
    var p' := StepReaches(t, s0, st, p, Earlier(q), r);
    cut := p'.moved;
    assert Height(r.state) == t[q.update].number + 1;
    assert o' == map[];
    PlusNothing(r.state);
  }

  lemma DescendantCovers(t: BlockTree, u: B256, u': B256, o: Pending)
    requires WellFormed(t) && u in t && u' in t && t[u].number <= t[u'].number && Ancestor(t, u', t[u].number) == u
    requires forall n :: n in o ==> n <= t[u].number && ModsOf(t, Path(t, u)[n]) != []
    ensures Covers(t, Path(t, u'), o)
  {
    forall n | n in o ensures ModsOf(t, Path(t, u')[n]) != [] {
      AncestorCompose(t, u', t[u].number, n);
    }
  }

  // ---- the exact condition ----

  lemma RangeKeepsStale(t: BlockTree, chain: seq<B256>, st: State, from: nat, to: nat, tag: nat, n: nat)
    requires from <= to < |chain| && tag < n && n in st.pending && (n in st.hashes || from <= n)
    ensures var r := IndexRange(t, chain, st, from, to, tag, NoFault);
      r.error.None? && n in r.state.pending && (n in r.state.hashes || to < n)
  {
  }

  ghost predicate KeepsStale(step: RangeStep, length: nat, n: nat) {
    forall st: State, from: nat, to: nat {:trigger step(st, from, to, NoFault)} ::
      from <= to < length && n in st.pending && (n in st.hashes || from <= n) ==>
      var r := step(st, from, to, NoFault);
      r.error.None? && n in r.state.pending && (n in r.state.hashes || to < n)
  }

  lemma {:induction false} InChunksKeepStale(step: RangeStep, st: State, from: nat, length: nat, maxBlocks: nat, n: nat)
    requires KeepsStale(step, length, n) && maxBlocks >= 1 && n < length
    requires n in st.pending && (n in st.hashes || from <= n)
    ensures var r := InChunks(step, st, from, length, maxBlocks, NoFault); n in r.state.pending && n in r.state.hashes
    decreases length - from
  {
    if from < length {
      var to := Min(from + maxBlocks - 1, length - 1);
      FirstChunk(step, st, from, to, length, maxBlocks, NoFault);
      var r := step(st, from, to, NoFault);
      if to < length - 1 {
        InChunksKeepStale(step, r.state, to + 1, length, maxBlocks, n);
      }
    }
  }

  /** A pending entry that no batch overwrites is still there when its block has been indexed. */
  lemma ChunksKeepStale(t: BlockTree, chain: seq<B256>, st: State, from: nat, maxBlocks: nat, tag: nat, n: nat)
    requires maxBlocks >= 1 && tag < n < |chain| && n in st.pending && (n in st.hashes || from <= n)
    ensures var r := IndexChunks(t, chain, st, from, maxBlocks, tag, NoFault);
      n in r.state.pending && n in r.state.hashes
  {
    var step := RangeOf(t, chain, tag);
    forall st: State, from: nat, to: nat | from <= to < |chain| && n in st.pending && (n in st.hashes || from <= n)
      ensures var r := step(st, from, to, NoFault);
        r.error.None? && n in r.state.pending && (n in r.state.hashes || to < n)
    {
      RangeKeepsStale(t, chain, st, from, to, tag, n);
    }
    InChunksKeepStale(step, st, from, |chain|, maxBlocks, n);
  }

  /** A fault-free sync that goes ahead and moves none of the orphaned blocks leaves a mirror of its chain if and
      only if it was safe. */
  lemma MirrorsIffSafe(t: BlockTree, s0: Store.Db, st: State, p: Position, u: B256, maxBlocks: nat, tag: nat)
    requires WellFormed(t) && u in t && maxBlocks >= 1 && Holds(t, s0, st, p) && SyncPlan(t, st, u).IndexOn?
    requires forall n :: n in Orphans(st) ==> tag < n
    ensures (exists m :: Mirrors(t, s0, Known(Sync(t, st, u, maxBlocks, tag, NoFault).state), Path(t, u), m))
       <==> Safe(t, st, u)
  {
    var q := Request(u, maxBlocks, tag, NoFault);
    var r := Sync(t, st, u, maxBlocks, tag, NoFault);
    if Safe(t, st, u) {
      var p' := StepHolds(t, s0, st, p, q);
      SafeSyncSucceeds(t, s0, st, p, q);
      assert Mirrors(t, s0, Known(r.state), Path(t, u), p'.moved);
    } else {
      var n :| n in Orphans(st) && n < |Path(t, u)| && ModsOf(t, Path(t, u)[n]) == [];
      UnsafeLeavesStale(t, s0, st, p, u, maxBlocks, tag, n);
      forall m ensures !Mirrors(t, s0, Known(r.state), Path(t, u), m) {
        assert n in Known(r.state).pending;
      }
    }
  }

  lemma SafeSyncSucceeds(t: BlockTree, s0: Store.Db, st: State, p: Position, q: Request)
    requires WellFormed(t) && Posed(t, q) && q.fault.NoFault? && Holds(t, s0, st, p) && Safe(t, st, q.update)
    requires SyncPlan(t, st, q.update).IndexOn?
    ensures Step(t, st, q).error.None?
  {
    var clean, o := Known(st), Orphans(st);
    SplitsIntoParts(st);
    ReachedIsApart(t, s0, clean, p, o);
    PlanPlus(t, clean, o, q.update);
    var _ := StepAgainstClean(t, s0, clean, p, o, q);
    match p {
      case Nowhere =>
        var _ := FreshStep(t, s0, clean, q, Step(t, clean, q));
      case At(tip, moved) =>
        PlanGoesAheadIff(t, s0, clean, tip, moved, q.update);
        var _, _ := SyncPreserves(t, s0, clean, tip, moved, q.update, q.maxBlocks, q.tag, q.fault, Step(t, clean, q));
    }
  }

  lemma UnsafeLeavesStale(t: BlockTree, s0: Store.Db, st: State, p: Position, u: B256, maxBlocks: nat, tag: nat, n: nat)
    requires WellFormed(t) && u in t && maxBlocks >= 1 && Holds(t, s0, st, p) && SyncPlan(t, st, u).IndexOn?
    requires n in Orphans(st) && tag < n <= t[u].number
    ensures var r := Sync(t, st, u, maxBlocks, tag, NoFault); n in r.state.pending && n in r.state.hashes
  {
    var clean, o, plan := Known(st), Orphans(st), SyncPlan(t, st, u);
    SplitsIntoParts(st);
    ReachedIsApart(t, s0, clean, p, o);
    PlanApart(t, clean, o, u);
    PlanPlus(t, clean, o, u);
    ChunksKeepStale(t, Path(t, u), plan.base, plan.from, maxBlocks, tag, n);
  }
}
