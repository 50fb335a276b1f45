/** The invariant: the indexer's state mirrors one chain, the first `moved` blocks of which are in the store. */
module MirrorInvariant {
  import opened Types
  import opened Chain
  import opened Indexer
  import Store

  ghost predicate HashesMirror(hashes: map<nat, B256>, chain: seq<B256>, moved: nat) {
    && (forall n :: n in hashes <==> moved <= n < |chain|)
    && (forall n :: moved <= n < |chain| ==> hashes[n] == chain[n])
  }

  ghost predicate PendingMirrors(t: BlockTree, pending: map<nat, seq<Modification>>, chain: seq<B256>, moved: nat) {
    && (forall n :: n in pending <==> moved <= n < |chain| && ModsOf(t, chain[n]) != [])
    && (forall n :: n in pending ==> pending[n] == ModsOf(t, chain[n]))
  }

  /** The simple thing: the modifications of the first `m` blocks of a chain applied one by one. */
  ghost function Replay(t: BlockTree, s0: Store.Db, chain: seq<B256>, m: nat): Store.Db
    requires m <= |chain|
  {
    Store.ApplyAll(s0, Mods(t, chain, 0, m))
  }

  ghost predicate Mirrors(t: BlockTree, s0: Store.Db, st: State, chain: seq<B256>, moved: nat) {
    && moved <= |chain|
    && HashesMirror(st.hashes, chain, moved)
    && PendingMirrors(t, st.pending, chain, moved)
    && st.store == Replay(t, s0, chain, moved)
  }

  function MovedAfter(moved: nat, tag: nat, length: nat): nat {
    if tag == 0 then moved else Max(moved, Min(tag + 1, length))
  }
}

/** Every operation of the indexer keeps the invariant. */
module Mirror {
  import opened Types
  import opened Chain
  import opened Indexer
  import opened MirrorInvariant
  import Store

  lemma {:induction false} CollectIsMods(t: BlockTree, hashes: map<nat, B256>, pending: map<nat, seq<Modification>>,
                                         chain: seq<B256>, moved: nat, hi: nat)
    requires moved <= |chain|
    requires HashesMirror(hashes, chain, moved) && PendingMirrors(t, pending, chain, moved)
    ensures Collect(hashes, pending, hi) == Mods(t, chain, moved, Max(moved, Min(hi, |chain|)))
  {
    if hi > 0 {
      var n := hi - 1;
      CollectIsMods(t, hashes, pending, chain, moved, n);
      if moved <= n < |chain| {
        assert n in pending ==> pending[n] == ModsOf(t, chain[n]);
      } else {
        assert n !in hashes;
      }
    }
  }

  lemma DropBelowMirrors(t: BlockTree, st: State, chain: seq<B256>, moved: nat, to: nat)
    requires moved <= |chain|
    requires HashesMirror(st.hashes, chain, moved) && PendingMirrors(t, st.pending, chain, moved)
    ensures HashesMirror(DropBelow(st, to).hashes, chain, Max(moved, Min(to, |chain|)))
    ensures PendingMirrors(t, DropBelow(st, to).pending, chain, Max(moved, Min(to, |chain|)))
  {
  }

  lemma ReplayExtends(t: BlockTree, s0: Store.Db, chain: seq<B256>, moved: nat, m: nat)
    requires moved <= m <= |chain|
    ensures Store.ApplyAll(Store.ApplyAll(s0, Mods(t, chain, 0, moved)), Mods(t, chain, moved, m))
         == Store.ApplyAll(s0, Mods(t, chain, 0, m))
  {
    ModsSplit(t, chain, 0, moved, m);
    Store.ApplyAllAppend(s0, Mods(t, chain, 0, moved), Mods(t, chain, moved, m));
  }

  lemma MovedStore(t: BlockTree, s0: Store.Db, st: State, chain: seq<B256>, moved: nat, tag: nat)
    requires Mirrors(t, s0, st, chain, moved) && tag != 0
    ensures MoveToStore(st, tag).store == Replay(t, s0, chain, MovedAfter(moved, tag, |chain|))
  {
    CollectIsMods(t, st.hashes, st.pending, chain, moved, tag + 1);
    ReplayExtends(t, s0, chain, moved, MovedAfter(moved, tag, |chain|));
  }

  lemma MovePreserves(t: BlockTree, s0: Store.Db, st: State, chain: seq<B256>, moved: nat, tag: nat)
    requires Mirrors(t, s0, st, chain, moved)
    ensures Mirrors(t, s0, MoveToStore(st, tag), chain, MovedAfter(moved, tag, |chain|))
  {
    if tag != 0 {
      var st', moved' := MoveToStore(st, tag), MovedAfter(moved, tag, |chain|);
      assert st'.hashes == DropBelow(st, tag + 1).hashes && st'.pending == DropBelow(st, tag + 1).pending;
      DropBelowMirrors(t, st, chain, moved, tag + 1);
      MovedStore(t, s0, st, chain, moved, tag);
    }
  }

  lemma DropFromMirrors(t: BlockTree, st: State, chain: seq<B256>, moved: nat, from: nat)
    requires moved <= from <= |chain|
    requires HashesMirror(st.hashes, chain, moved) && PendingMirrors(t, st.pending, chain, moved)
    ensures HashesMirror(DropFrom(st, from).hashes, chain[..from], moved)
    ensures PendingMirrors(t, DropFrom(st, from).pending, chain[..from], moved)
  {
    var kept, pending := chain[..from], DropFrom(st, from).pending;
    forall n ensures n in pending <==> moved <= n < from && ModsOf(t, kept[n]) != [] {
      assert 0 <= n < from ==> kept[n] == chain[n];
    }
    forall n | n in pending ensures pending[n] == ModsOf(t, kept[n]) {
      assert kept[n] == chain[n];
    }
  }

  lemma RewindPreserves(t: BlockTree, s0: Store.Db, st: State, chain: seq<B256>, moved: nat, kept: seq<B256>,
                        st': State)
    requires Mirrors(t, s0, st, chain, moved)
    requires moved <= |kept| <= |chain| && kept == chain[..|kept|]
    requires st' == DropFrom(st, |kept|).(last := st'.last)
    ensures Mirrors(t, s0, st', kept, moved)
  {
    var pruned := DropFrom(st, |kept|);
    assert st'.hashes == pruned.hashes && st'.pending == pruned.pending && st'.store == st.store;
    DropFromMirrors(t, st, chain, moved, |kept|);
    SameMods(t, chain, kept, 0, moved);
  }

  lemma PendingExtends(t: BlockTree, pending: map<nat, seq<Modification>>, batch: map<nat, seq<Modification>>,
                       chain: seq<B256>, from: nat, moved: nat)
    requires moved <= from <= |chain|
    requires PendingMirrors(t, pending, chain[..from], moved)
    requires PendingMirrors(t, batch, chain, from)
    ensures PendingMirrors(t, pending + batch, chain, moved)
  {
    var all := pending + batch;
    forall n ensures n in all <==> moved <= n < |chain| && ModsOf(t, chain[n]) != [] {
      assert 0 <= n < from ==> chain[..from][n] == chain[n];
    }
    forall n | n in all ensures all[n] == ModsOf(t, chain[n]) {
      assert 0 <= n < from ==> chain[..from][n] == chain[n];
    }
  }

  lemma HashesExtend(hashes: map<nat, B256>, batch: map<nat, B256>, chain: seq<B256>, from: nat, moved: nat)
    requires moved <= from <= |chain|
    requires HashesMirror(hashes, chain[..from], moved) && HashesMirror(batch, chain, from)
    ensures HashesMirror(hashes + batch, chain, moved)
  {
  }

  /** Writing the range that follows the mirrored chain extends the mirror by exactly that range. */
  lemma WritePreserves(t: BlockTree, s0: Store.Db, st: State, chain: seq<B256>, from: nat, to: nat, moved: nat,
                       st': State)
    requires from <= to < |chain|
    requires Mirrors(t, s0, st, chain[..from], moved)
    requires st'.hashes == st.hashes + HashBatch(chain, from, to)
    requires st'.pending == st.pending + PendingBatch(t, chain, from, to)
    requires st'.store == st.store
    ensures Mirrors(t, s0, st', chain[..to + 1], moved)
  {
    var grown := chain[..to + 1];
    assert grown[..from] == chain[..from];
    HashesExtend(st.hashes, HashBatch(chain, from, to), grown, from, moved);
    PendingExtends(t, st.pending, PendingBatch(t, chain, from, to), grown, from, moved);
    SameMods(t, grown, grown[..from], 0, moved);
  }

  // ---- one range, all chunks ----

  /** A claim about a state, the length of the chain it mirrors and the number of moved blocks. */
  type Claim = (State, nat, nat) -> bool

  /** What one range may leave: nothing changed, or the chain extended by the range and, if nothing
      failed, the due blocks moved. */
  ghost predicate RangeLeaves(inv: Claim, st: State, chain: seq<B256>, to: nat, moved: nat, tag: nat, fault: Fault,
                              r: Outcome)
    requires to < |chain|
  {
    && (fault.Strikes(InLogs) ==> r.error.Some? && r.state == st)
    && (fault.Strikes(InTag) ==> r.error.Some? && inv(r.state, to + 1, moved))
    && (!fault.Strikes(InLogs) && !fault.Strikes(InTag) ==>
          r.error.None? && inv(r.state, to + 1, MovedAfter(moved, tag, to + 1)))
    && (!fault.Strikes(InLogs) ==> r.state.last == Some(NumHash(to, chain[to])))
  }

  /** What indexing a chain from height `from` may leave: the chain up to `len` mirrored, nothing
      changed if no chunk got as far as writing, everything on success. */
  ghost predicate ChunksLeave(inv: Claim, st: State, chain: seq<B256>, from: nat, moved: nat, tag: nat,
                              r: Outcome, len: nat, moved': nat)
  {
    && from <= len <= |chain| && moved <= moved'
    && inv(r.state, len, moved')
    && (len == from ==> r.error.Some? && r.state == st && moved' == moved)
    && (len > from ==> r.state.last == Some(NumHash(len - 1, chain[len - 1])))
    && (r.error.None? ==> len == |chain| && moved' == MovedAfter(moved, tag, len))
  }

  ghost predicate StepPreserves(step: RangeStep, inv: Claim, chain: seq<B256>, tag: nat) {
    forall st: State, from: nat, to: nat, fault: Fault, moved: nat
      {:trigger step(st, from, to, fault), inv(st, from, moved)} ::
      from <= to < |chain| && inv(st, from, moved) && !fault.Strikes(InHashes) ==>
      RangeLeaves(inv, st, chain, to, moved, tag, fault, step(st, from, to, fault))
  }

  /** The loop's first range is as long as the limit and the end allow; the other chunks start right after it. */
  lemma FirstChunk(step: RangeStep, st: State, from: nat, to: nat, length: nat, maxBlocks: nat, fault: Fault)
    requires maxBlocks >= 1 && from <= to < length
    requires to - from + 1 <= maxBlocks && (to - from + 1 == maxBlocks || to == length - 1)
    ensures var r := step(st, from, to, fault);
      InChunks(step, st, from, length, maxBlocks, fault)
      == if r.error.Some? || to == length - 1 then r
         else InChunks(step, r.state, to + 1, length, maxBlocks, fault.Later())
  {
  }

  /** The loop asks for nothing but ranges between the start and the end that are within the limit. */
  lemma {:induction false} ChunksWithinLimit(step: RangeStep, step': RangeStep, st: State, from: nat, length: nat,
                                             maxBlocks: nat, fault: Fault)
    requires maxBlocks >= 1
    requires forall st: State, lo: nat, hi: nat, fault: Fault :: from <= lo <= hi < length && hi - lo < maxBlocks ==>
      step(st, lo, hi, fault) == step'(st, lo, hi, fault)
    ensures InChunks(step, st, from, length, maxBlocks, fault) == InChunks(step', st, from, length, maxBlocks, fault)
    decreases length - from
  {
    if from < length {
      var to := Min(from + maxBlocks - 1, length - 1);
      var r := step(st, from, to, fault);
      assert r == step'(st, from, to, fault);
      if r.error.None? && to < length - 1 {
        ChunksWithinLimit(step, step', r.state, to + 1, length, maxBlocks, fault.Later());
      }
    }
  }

  /** A bound of zero moves nothing; any other moves exactly the known blocks up to and including it. */
  lemma RangeMovesUpToTag(t: BlockTree, chain: seq<B256>, st: State, from: nat, to: nat, tag: nat)
    requires from <= to < |chain|
    ensures var r := IndexRange(t, chain, st, from, to, tag, NoFault);
      && r.error.None?
      && (forall n :: n in r.state.hashes <==> (n in st.hashes || from <= n <= to) && (tag == 0 || tag < n))
      && (tag == 0 ==> r.state.store == st.store)
  {
  }

  /** What the remaining chunks leave is what all of them leave. */
  lemma LaterChunksLeave(inv: Claim, st: State, chain: seq<B256>, from: nat, moved: nat, tag: nat,
                         first: State, next: nat, r: Outcome, len: nat, moved': nat)
    requires from < next <= |chain| && first.last == Some(NumHash(next - 1, chain[next - 1]))
    requires ChunksLeave(inv, first, chain, next, MovedAfter(moved, tag, next), tag, r, len, moved')
    ensures ChunksLeave(inv, st, chain, from, moved, tag, r, len, moved')
  {
  }

  /** The rule for the chunk loop, whatever the claim is. */
  lemma {:induction false} InChunksPreserves(step: RangeStep, inv: Claim, st: State, chain: seq<B256>,
                                             from: nat, moved: nat, maxBlocks: nat, tag: nat, fault: Fault)
    returns (len: nat, moved': nat)
    requires StepPreserves(step, inv, chain, tag)
    requires maxBlocks >= 1 && from < |chain| && inv(st, from, moved)
    requires fault.FaultAt? ==> fault.point != InHashes
    ensures ChunksLeave(inv, st, chain, from, moved, tag, InChunks(step, st, from, |chain|, maxBlocks, fault), len,
                        moved')
    ensures fault.NoFault? ==> InChunks(step, st, from, |chain|, maxBlocks, fault).error.None?
    decreases |chain| - from
  {
    var to := Min(from + maxBlocks - 1, |chain| - 1);
    var r, all := step(st, from, to, fault), InChunks(step, st, from, |chain|, maxBlocks, fault);
    assert RangeLeaves(inv, st, chain, to, moved, tag, fault, r);
    if fault.Strikes(InLogs) {
      len, moved' := from, moved;
    } else if fault.Strikes(InTag) {
      len, moved' := to + 1, moved;
    } else if to == |chain| - 1 {
      len, moved' := to + 1, MovedAfter(moved, tag, to + 1);
    } else {
      len, moved' := InChunksPreserves(step, inv, r.state, chain, to + 1, MovedAfter(moved, tag, to + 1), maxBlocks,
                                       tag,
                                       fault.Later());
      LaterChunksLeave(inv, st, chain, from, moved, tag, r.state, to + 1, all, len, moved');
    }
  }

  ghost function MirrorClaim(t: BlockTree, s0: Store.Db, chain: seq<B256>): Claim {
    (st: State, len: nat, moved: nat) => len <= |chain| && Mirrors(t, s0, st, chain[..len], moved)
  }

  /** The state once a range's hashes and pending modifications are written. */
  ghost function Written(t: BlockTree, chain: seq<B256>, st: State, from: nat, to: nat): State
    requires from <= to < |chain|
  {
    State(st.hashes + HashBatch(chain, from, to), st.pending + PendingBatch(t, chain, from, to),
          Some(NumHash(to, chain[to])), st.store)
  }

  lemma RangeOutcome(t: BlockTree, chain: seq<B256>, st: State, from: nat, to: nat, tag: nat, fault: Fault)
    requires from <= to < |chain| && !fault.Strikes(InHashes)
    ensures var written := Written(t, chain, st, from, to);
      IndexRange(t, chain, st, from, to, tag, fault)
      == if fault.Strikes(InLogs) then Outcome(st, Some(LogsUnavailable))
         else if fault.Strikes(InTag) then Outcome(written, Some(TagUnavailable))
         else Outcome(MoveToStore(written, tag), None)
  {
  }

  lemma MoveKeepsRecord(st: State, tag: nat)
    ensures MoveToStore(st, tag).last == st.last
  {
  }

  lemma RangePreserves(t: BlockTree, s0: Store.Db, st: State, chain: seq<B256>, from: nat, to: nat, moved: nat,
                       tag: nat,
                       fault: Fault)
    requires from <= to < |chain|
    requires Mirrors(t, s0, st, chain[..from], moved)
    requires !fault.Strikes(InHashes)
    ensures RangeLeaves(MirrorClaim(t, s0, chain), st, chain, to, moved, tag, fault,
                        RangeOf(t, chain, tag)(st, from, to, fault))
  {
    var written := Written(t, chain, st, from, to);
    RangeOutcome(t, chain, st, from, to, tag, fault);
    WritePreserves(t, s0, st, chain, from, to, moved, written);
    MovePreserves(t, s0, written, chain[..to + 1], moved, tag);
    MoveKeepsRecord(written, tag);
  }

  lemma ChunksPreserve(t: BlockTree, s0: Store.Db, st: State, chain: seq<B256>, from: nat, moved: nat,
                       maxBlocks: nat, tag: nat, fault: Fault)
    returns (len: nat, moved': nat)
    requires maxBlocks >= 1 && from < |chain| && Mirrors(t, s0, st, chain[..from], moved)
    requires fault.FaultAt? ==> fault.point != InHashes
    ensures ChunksLeave(MirrorClaim(t, s0, chain), st, chain, from, moved, tag,
                        IndexChunks(t, chain, st, from, maxBlocks, tag, fault), len, moved')
    ensures fault.NoFault? ==> IndexChunks(t, chain, st, from, maxBlocks, tag, fault).error.None?
  {
    var step, inv := RangeOf(t, chain, tag), MirrorClaim(t, s0, chain);
    forall st: State, from: nat, to: nat, fault: Fault, moved: nat
      | from <= to < |chain| && inv(st, from, moved) && !fault.Strikes(InHashes)
      ensures RangeLeaves(inv, st, chain, to, moved, tag, fault, step(st, from, to, fault))
    {
      RangePreserves(t, s0, st, chain, from, to, moved, tag, fault);
    }
    len, moved' := InChunksPreserves(step, inv, st, chain, from, moved, maxBlocks, tag, fault);
  }

  /** A mirrored chain, the number of moved blocks and the record determine the whole state. */
  lemma MirrorsUnique(t: BlockTree, s0: Store.Db, a: State, b: State, chain: seq<B256>, moved: nat)
    requires Mirrors(t, s0, a, chain, moved) && Mirrors(t, s0, b, chain, moved) && a.last == b.last
    ensures a == b
  {
    assert a.hashes == b.hashes;
    assert a.pending == b.pending;
  }

  lemma OrphanIsNoMirror(t: BlockTree, s0: Store.Db, st: State, chain: seq<B256>, moved: nat, n: nat)
    requires n in st.pending && n !in st.hashes
    ensures !Mirrors(t, s0, st, chain, moved)
  {
    if HashesMirror(st.hashes, chain, moved) && PendingMirrors(t, st.pending, chain, moved) {
      assert false;
    }
  }

  lemma EmptyBatch(t: BlockTree, chain: seq<B256>, from: nat, to: nat, pending: map<nat, seq<Modification>>)
    requires from <= to < |chain| && forall n :: from <= n <= to ==> ModsOf(t, chain[n]) == []
    ensures pending + PendingBatch(t, chain, from, to) == pending
  {
    assert PendingBatch(t, chain, from, to) == map[];
  }

  /** The pending batch of a range, written on its own, leaves a state that mirrors some chain exactly when
      the batch is empty. */
  lemma LonePendingMirrorsIff(t: BlockTree, s0: Store.Db, st: State, chain: seq<B256>, from: nat, to: nat, moved: nat,
                              st': State)
    requires from <= to < |chain| && Mirrors(t, s0, st, chain[..from], moved)
    requires st' == st.(pending := st.pending + PendingBatch(t, chain, from, to))
    ensures (exists c, m :: Mirrors(t, s0, st', c, m)) <==> forall n :: from <= n <= to ==> ModsOf(t, chain[n]) == []
  {
    if n :| from <= n <= to && ModsOf(t, chain[n]) != [] {
      assert n in st'.pending && n !in st'.hashes;
      forall c, m ensures !Mirrors(t, s0, st', c, m) {
        OrphanIsNoMirror(t, s0, st', c, m, n);
      }
    } else {
      EmptyBatch(t, chain, from, to, st.pending);
    }
  }

  /** A failed hash lookup leaves the pending batch behind without hashes. The state still mirrors some
      chain exactly when that batch is empty. */
  lemma HashFaultKeepsMirrorIff(t: BlockTree, s0: Store.Db, st: State, chain: seq<B256>, from: nat, to: nat, moved: nat,
                                tag: nat, fault: Fault)
    requires from <= to < |chain| && Mirrors(t, s0, st, chain[..from], moved)
    requires fault.Strikes(InHashes)
    ensures var r := IndexRange(t, chain, st, from, to, tag, fault);
      && r.error == Some(BlockHashMissing)
      && ((exists c, m :: Mirrors(t, s0, r.state, c, m)) <==> forall n :: from <= n <= to ==> ModsOf(t, chain[n]) == [])
  {
    LonePendingMirrorsIff(t, s0, st, chain, from, to, moved, IndexRange(t, chain, st, from, to, tag, fault).state);
  }
}
