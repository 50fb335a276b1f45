/** What a sync decides before it indexes, on a state that mirrors the chain of some block. */
module Tracking {
  import opened Types
  import opened Chain
  import opened Indexer
  import opened MirrorInvariant
  import opened Mirror
  import Store

  // ---- the common ancestor ----

  /** The same walk, seen along the chain it follows: blocks `k - 1, k - 2, ...` of `p`. */
  function LastAgreement(hashes: map<nat, B256>, p: seq<B256>, k: nat): Result<nat, IndexerError>
    requires k <= |p|
  {
    if k == 0 then Err(ParentBlockNotFound)
    else if k - 1 !in hashes then Err(NoCommonAncestor)
    else if hashes[k - 1] == p[k - 1] then Ok(k - 1)
    else LastAgreement(hashes, p, k - 1)
  }

  lemma {:induction false} LastAgreementPrefix(hashes: map<nat, B256>, p: seq<B256>, q: seq<B256>, k: nat)
    requires k <= |p| && k <= |q| && forall n :: 0 <= n < k ==> p[n] == q[n]
    ensures LastAgreement(hashes, p, k) == LastAgreement(hashes, q, k)
  {
    if k > 0 {
      LastAgreementPrefix(hashes, p, q, k - 1);
    }
  }

  lemma {:induction false} WalkFollowsPath(t: BlockTree, hashes: map<nat, B256>, cursor: B256)
    requires WellFormed(t) && cursor in t
    ensures CommonAncestor(t, hashes, cursor) == LastAgreement(hashes, Path(t, cursor), t[cursor].number + 1)
    decreases t[cursor].number
  {
    var n := t[cursor].number;
    if n > 0 {
      var parent := Parent(t, cursor);
      WalkFollowsPath(t, hashes, parent);
      LastAgreementPrefix(hashes, Path(t, cursor), Path(t, parent), n);
    }
  }

  /** From the parent of `u` the walk sees the chain of `u` below its last block. */
  lemma WalkFromParent(t: BlockTree, hashes: map<nat, B256>, u: B256)
    requires WellFormed(t) && u in t
    ensures CommonAncestor(t, hashes, Parent(t, u)) == LastAgreement(hashes, Path(t, u), t[u].number)
  {
    var n, parent := t[u].number, Parent(t, u);
    if n > 0 {
      WalkFollowsPath(t, hashes, parent);
      LastAgreementPrefix(hashes, Path(t, u), Path(t, parent), n);
    }
  }

  /** A successful walk stops at the greatest agreeing height and has seen every height above it in the tree. */
  lemma {:induction false} LastAgreementIsGreatest(hashes: map<nat, B256>, p: seq<B256>, k: nat)
    requires k <= |p|
    ensures var r := LastAgreement(hashes, p, k);
      r.Ok? ==> && r.value < k && r.value in hashes && hashes[r.value] == p[r.value]
                && forall n :: r.value < n < k ==> n in hashes && hashes[n] != p[n]
  {
    if k > 0 && k - 1 in hashes && hashes[k - 1] != p[k - 1] {
      LastAgreementIsGreatest(hashes, p, k - 1);
    }
  }

  /** Exactly when the walk succeeds on a tree that mirrors a chain. */
  lemma {:induction false} LastAgreementSucceeds(hashes: map<nat, B256>, chain: seq<B256>, moved: nat, p: seq<B256>,
                                                 k: nat)
    requires moved <= |chain| && HashesMirror(hashes, chain, moved) && k <= |p|
    requires forall n, m :: 0 <= m <= n < |p| && n < |chain| && p[n] == chain[n] ==> p[m] == chain[m]
    ensures LastAgreement(hashes, p, k).Ok? <==> moved < k <= |chain| && p[moved] == chain[moved]
  {
    if k > 0 && k - 1 in hashes && hashes[k - 1] != p[k - 1] {
      LastAgreementSucceeds(hashes, chain, moved, p, k - 1);
    }
  }

  ghost predicate DiffersAbove(hashes: map<nat, B256>, p: seq<B256>, n: int, k: nat)
    requires k <= |p|
  {
    forall m :: 0 <= m && n < m < k ==> m in hashes && hashes[m] != p[m]
  }

  lemma {:induction false} LastAgreementErrors(hashes: map<nat, B256>, p: seq<B256>, k: nat)
    requires k <= |p|
    ensures var r := LastAgreement(hashes, p, k);
      && (r == Err(NoCommonAncestor) <==> exists n: nat :: n < k && n !in hashes && DiffersAbove(hashes, p, n, k))
      && (r == Err(ParentBlockNotFound) <==> DiffersAbove(hashes, p, -1, k))
  {
    if k > 0 && k - 1 in hashes && hashes[k - 1] != p[k - 1] {
      LastAgreementErrors(hashes, p, k - 1);
      if n: nat :| n < k - 1 && n !in hashes && DiffersAbove(hashes, p, n, k - 1) {
        assert DiffersAbove(hashes, p, n, k);
      }
      if n: nat :| n < k && n !in hashes && DiffersAbove(hashes, p, n, k) {
        assert DiffersAbove(hashes, p, n, k - 1);
      }
    } else if k > 0 && k - 1 !in hashes {
      assert DiffersAbove(hashes, p, k - 1, k);
    }
  }

  /** What the walk from a block returns, on any hash tree: the greatest height at which the tree agrees with the
      block's chain if the tree has everything above it; no common ancestor if it meets a missing number first;
      and a missing parent if it walks off genesis, or starts outside the tree. */
  lemma WalkMeans(t: BlockTree, hashes: map<nat, B256>, cursor: B256)
    requires WellFormed(t)
    ensures cursor !in t ==> CommonAncestor(t, hashes, cursor) == Err(ParentBlockNotFound)
    ensures cursor in t ==>
      var r, p, k := CommonAncestor(t, hashes, cursor), Path(t, cursor), t[cursor].number + 1;
      && (forall c :: r == Ok(c) ==> c < k && c in hashes && hashes[c] == p[c] && DiffersAbove(hashes, p, c, k))
      && (r == Err(NoCommonAncestor) <==> exists n: nat :: n < k && n !in hashes && DiffersAbove(hashes, p, n, k))
      && (r == Err(ParentBlockNotFound) <==> DiffersAbove(hashes, p, -1, k))
  {
    if cursor in t {
      WalkFollowsPath(t, hashes, cursor);
      LastAgreementErrors(hashes, Path(t, cursor), t[cursor].number + 1);
      LastAgreementIsGreatest(hashes, Path(t, cursor), t[cursor].number + 1);
    }
  }

  // ---- one sync ----

  /** The state mirrors the chain of `tip`. The record carries `tip`, or, after a failure between a
      reorg's rewind and its first write, some higher block. */
  ghost predicate Tracks(t: BlockTree, s0: Store.Db, st: State, tip: B256, moved: nat)
    requires WellFormed(t)
  {
    && tip in t
    && Mirrors(t, s0, st, Path(t, tip), moved)
    && st.last.Some? && st.last.value.number == t[tip].number
    && var h := st.last.value.hash; (h == tip || (h in t && t[h].number > t[tip].number))
  }

  /** Nothing indexed yet. */
  ghost predicate Fresh(s0: Store.Db, st: State) {
    st == State(map[], map[], None, s0)
  }

  ghost predicate ValidFault(fault: Fault) {
    fault.FaultAt? ==> fault.point != InHashes
  }

  /** A prefix of the chain of `u`, read as the chain of one of its blocks. */
  lemma MirrorsTracks(t: BlockTree, s0: Store.Db, st: State, u: B256, len: nat, moved: nat)
    requires WellFormed(t) && u in t && 0 < len <= t[u].number + 1
    requires MirrorClaim(t, s0, Path(t, u))(st, len, moved)
    requires st.last == Some(NumHash(len - 1, Path(t, u)[len - 1]))
    ensures Tracks(t, s0, st, Ancestor(t, u, len - 1), moved)
  {
    PathPrefix(t, u, len - 1);
  }

  /** What a sync towards `u` may leave, from the point where it indexes on top of height `from`. */
  ghost predicate IndexingLeaves(t: BlockTree, s0: Store.Db, st: State, u: B256, from: nat, moved: nat, tag: nat,
                                 r: Outcome, len: nat, moved': nat)
    requires WellFormed(t) && u in t
  {
    && from <= len <= t[u].number + 1 && moved <= moved'
    && (len == from ==> r.error.Some? && r.state == st && moved' == moved)
    && (len > from ==> Tracks(t, s0, r.state, Ancestor(t, u, len - 1), moved'))
    && (len > from ==> r.state.last == Some(NumHash(len - 1, Ancestor(t, u, len - 1))))
    && (r.error.None? ==> len == t[u].number + 1 && moved' == MovedAfter(moved, tag, len))
  }

  lemma LeavesTracking(t: BlockTree, s0: Store.Db, st: State, u: B256, from: nat, moved: nat, tag: nat,
                       r: Outcome, len: nat, moved': nat)
    requires WellFormed(t) && u in t
    requires ChunksLeave(MirrorClaim(t, s0, Path(t, u)), st, Path(t, u), from, moved, tag, r, len, moved')
    ensures IndexingLeaves(t, s0, st, u, from, moved, tag, r, len, moved')
  {
    if len > from {
      MirrorsTracks(t, s0, r.state, u, len, moved');
    }
  }

  lemma IndexingTracks(t: BlockTree, s0: Store.Db, st: State, u: B256, from: nat, moved: nat, maxBlocks: nat, tag: nat,
                       fault: Fault, r: Outcome)
    returns (len: nat, moved': nat)
    requires WellFormed(t) && u in t && maxBlocks >= 1 && ValidFault(fault)
    requires from <= t[u].number && Mirrors(t, s0, st, Path(t, u)[..from], moved)
    requires r == IndexChunks(t, Path(t, u), st, from, maxBlocks, tag, fault)
    ensures IndexingLeaves(t, s0, st, u, from, moved, tag, r, len, moved')
    ensures fault.NoFault? ==> r.error.None?
  {
    len, moved' := ChunksPreserve(t, s0, st, Path(t, u), from, moved, maxBlocks, tag, fault);
    LeavesTracking(t, s0, st, u, from, moved, tag, r, len, moved');
  }

  /** Chains that agree at a height agree below it, in the form the walk lemmas need. */
  lemma ForksOnce(t: BlockTree, g: B256, h: B256)
    requires WellFormed(t) && g in t && h in t
    ensures var p, q := Path(t, g), Path(t, h);
      forall n, m :: 0 <= m <= n < |p| && n < |q| && p[n] == q[n] ==> p[m] == q[m]
  {
    var p, q := Path(t, g), Path(t, h);
    forall n, m | 0 <= m <= n < |p| && n < |q| && p[n] == q[n] ensures p[m] == q[m] {
      AgreeBelow(t, g, h, n, m);
    }
  }

  /** When a sync to `u` can go ahead: `u` extends the recorded tip, or it is at most one block above
      the tip and shares with it the lowest block that is still in the hash tree. */
  ghost predicate Recoverable(t: BlockTree, st: State, tip: B256, moved: nat, u: B256)
    requires WellFormed(t) && tip in t && u in t && st.last.Some?
  {
    && t[tip].number <= t[u].number
    && ( || (st.last.value.hash == tip && Ancestor(t, u, t[tip].number) == tip)
         || (moved < t[u].number <= t[tip].number + 1 && Ancestor(t, u, moved) == Ancestor(t, tip, moved)))
  }

  ghost predicate PlanFits(t: BlockTree, s0: Store.Db, st: State, tip: B256, moved: nat, u: B256, plan: Plan)
    requires WellFormed(t) && tip in t && u in t
  {
    plan.IndexOn? ==>
      && moved <= plan.from && 0 < plan.from <= t[u].number + 1
      && Tracks(t, s0, plan.base, Ancestor(t, u, plan.from - 1), moved)
      && Share(t, u, tip, moved)
      && (plan.from == t[u].number + 1 ==> plan.base == st && u == tip)
  }

  lemma NoReorgFits(t: BlockTree, s0: Store.Db, st: State, tip: B256, moved: nat, u: B256)
    requires WellFormed(t) && u in t && Tracks(t, s0, st, tip, moved)
    requires t[tip].number <= t[u].number && Ancestor(t, u, t[tip].number) == tip
    ensures PlanFits(t, s0, st, tip, moved, u, IndexOn(st, t[tip].number + 1))
  {
    ShareBelow(t, u, tip, t[tip].number, moved);
  }

  lemma RewoundMirrors(t: BlockTree, s0: Store.Db, st: State, chain: seq<B256>, moved: nat, u: B256, kept: seq<B256>,
                       base: State)
    requires u in t && Mirrors(t, s0, st, chain, moved)
    requires moved < |kept| <= |chain| && kept == chain[..|kept|]
    requires base == Rewound(t, u, st, |kept| - 1)
    ensures Mirrors(t, s0, base, kept, moved)
  {
    RewindPreserves(t, s0, st, chain, moved, kept, base);
  }

  /** The record written by the rewind carries the ancestor's hash exactly when the ancestor is the
      update block's direct parent; otherwise it carries a higher block. */
  lemma InterimRecord(t: BlockTree, u: B256, c: nat)
    requires WellFormed(t) && u in t && c < t[u].number
    ensures Parent(t, u) in t
    ensures Parent(t, u) == Ancestor(t, u, c) <==> c == t[u].number - 1
    ensures Parent(t, u) == Ancestor(t, u, c) || t[Parent(t, u)].number > c
  {
    AncestorOfParent(t, u, u);
  }

  lemma RewoundFits(t: BlockTree, s0: Store.Db, st: State, tip: B256, moved: nat, u: B256, c: nat, base: State)
    requires WellFormed(t) && u in t && Tracks(t, s0, st, tip, moved)
    requires moved <= c <= t[tip].number && c < t[u].number
    requires Ancestor(t, u, c) == Ancestor(t, tip, c)
    requires base == Rewound(t, u, st, c)
    ensures PlanFits(t, s0, st, tip, moved, u, IndexOn(base, c + 1))
  {
    var a := Ancestor(t, u, c);
    PathPrefix(t, tip, c);
    RewoundMirrors(t, s0, st, Path(t, tip), moved, u, Path(t, a), base);
    InterimRecord(t, u, c);
    ShareBelow(t, u, tip, c, moved);
  }

  /** On a hash tree that mirrors `chain`, the walk down `p` from height `k - 1` succeeds exactly when it
      starts inside the tree and the chains share the lowest block kept there; it then returns the
      greatest height below `k` at which they agree. */
  lemma WalkOutcome(hashes: map<nat, B256>, chain: seq<B256>, moved: nat, p: seq<B256>, k: nat)
    requires moved <= |chain| && HashesMirror(hashes, chain, moved) && k <= |p|
    requires forall n, m :: 0 <= m <= n < |p| && n < |chain| && p[n] == chain[n] ==> p[m] == chain[m]
    ensures var r := LastAgreement(hashes, p, k);
      && (r.Ok? <==> moved < k <= |chain| && p[moved] == chain[moved])
      && (r.Ok? ==> moved <= r.value < k && forall n :: 0 <= n < k ==> (p[n] == chain[n] <==> n <= r.value))
  {
    LastAgreementSucceeds(hashes, chain, moved, p, k);
    LastAgreementIsGreatest(hashes, p, k);
    var r := LastAgreement(hashes, p, k);
    if r.Ok? {
      assert p[r.value] == chain[r.value];
    }
  }

  /** The same for the walk over the block tree, from the parent of `u`. */
  lemma WalkFindsGreatestCommonBlock(t: BlockTree, hashes: map<nat, B256>, tip: B256, moved: nat, u: B256)
    requires WellFormed(t) && u in t && tip in t
    requires moved <= t[tip].number + 1 && HashesMirror(hashes, Path(t, tip), moved)
    ensures var r := CommonAncestor(t, hashes, Parent(t, u));
      && (r.Ok? <==> moved < t[u].number <= t[tip].number + 1 && Ancestor(t, u, moved) == Ancestor(t, tip, moved))
      && (r.Ok? ==> && moved <= r.value < t[u].number
                    && forall n :: 0 <= n < t[u].number ==> (Path(t, u)[n] == Path(t, tip)[n] <==> n <= r.value))
  {
    WalkFromParent(t, hashes, u);
    ForksOnce(t, u, tip);
    WalkOutcome(hashes, Path(t, tip), moved, Path(t, u), t[u].number);
  }

  lemma RecordTellsReorg(t: BlockTree, s0: Store.Db, st: State, tip: B256, moved: nat, u: B256)
    requires WellFormed(t) && u in t && Tracks(t, s0, st, tip, moved) && t[tip].number <= t[u].number
    ensures Reorged(t, u, st.last.value) <==> !(st.last.value.hash == tip && Ancestor(t, u, t[tip].number) == tip)
  {
  }

  /** A sync gets past its checks exactly when the update is recoverable. */
  lemma PlanGoesAheadIff(t: BlockTree, s0: Store.Db, st: State, tip: B256, moved: nat, u: B256)
    requires WellFormed(t) && u in t && Tracks(t, s0, st, tip, moved)
    ensures SyncPlan(t, st, u).IndexOn? <==> Recoverable(t, st, tip, moved, u)
  {
    if t[u].number >= t[tip].number {
      RecordTellsReorg(t, s0, st, tip, moved, u);
      WalkFindsGreatestCommonBlock(t, st.hashes, tip, moved, u);
    }
  }

  lemma ReorgPlanFits(t: BlockTree, s0: Store.Db, st: State, tip: B256, moved: nat, u: B256, c: nat)
    requires WellFormed(t) && u in t && Tracks(t, s0, st, tip, moved)
    requires CommonAncestor(t, st.hashes, Parent(t, u)) == Ok(c)
    ensures PlanFits(t, s0, st, tip, moved, u, IndexOn(Rewound(t, u, st, c), c + 1))
  {
    WalkFindsGreatestCommonBlock(t, st.hashes, tip, moved, u);
    assert Path(t, u)[c] == Path(t, tip)[c];
    RewoundFits(t, s0, st, tip, moved, u, c, Rewound(t, u, st, c));
  }

  /** Where indexing then starts, the state tracks a block shared by the old and the new chain. */
  lemma PlanSound(t: BlockTree, s0: Store.Db, st: State, tip: B256, moved: nat, u: B256, plan: Plan)
    requires WellFormed(t) && u in t && Tracks(t, s0, st, tip, moved)
    requires plan == SyncPlan(t, st, u)
    ensures PlanFits(t, s0, st, tip, moved, u, plan)
  {
    if t[u].number >= t[tip].number {
      if !Reorged(t, u, st.last.value) {
        RecordTellsReorg(t, s0, st, tip, moved, u);
        NoReorgFits(t, s0, st, tip, moved, u);
        assert plan == IndexOn(st, t[tip].number + 1);
      } else if plan.IndexOn? {
        var c := plan.from - 1;
        ReorgPlanFits(t, s0, st, tip, moved, u, c);
        assert plan == IndexOn(Rewound(t, u, st, c), c + 1);
      }
    }
  }
}
