/** What an unsafe sync does: the pending batch written before a failed hash lookup survives a change of chain
    and reaches the store. */
module IndexerLeak {
  import opened Types
  import opened Chain
  import opened Indexer
  import opened MirrorInvariant
  import opened Mirror
  import opened Tracking
  import opened IndexerRuns
  import Store

  lemma {:induction false} CollectNeedsOnlyKeys(h1: map<nat, B256>, h2: map<nat, B256>, pending: map<nat,
                                                seq<Modification>>, hi: nat)
    requires h1.Keys == h2.Keys
    ensures Collect(h1, pending, hi) == Collect(h2, pending, hi)
  {
    if hi > 0 {
      CollectNeedsOnlyKeys(h1, h2, pending, hi - 1);
    }
  }

  lemma SingleRange(t: BlockTree, chain: seq<B256>, st: State, maxBlocks: nat, tag: nat, fault: Fault)
    requires maxBlocks >= 1 && |chain| > 0
    ensures IndexChunks(t, chain, st, |chain| - 1, maxBlocks, tag, fault)
         == IndexRange(t, chain, st, |chain| - 1, |chain| - 1, tag, fault)
  {
  }

  /** The two states a range could be in before the move differ only in one hash, so they move the same
      modifications. */
  lemma MovesTheSame(x: State, y: State, tag: nat)
    requires x.hashes.Keys == y.hashes.Keys && x.pending == y.pending && x.store == y.store && tag > 0
    ensures MoveToStore(x, tag).store == MoveToStore(y, tag).store
  {
    CollectNeedsOnlyKeys(x.hashes, y.hashes, x.pending, tag + 1);
  }

  /** The state just before the move: hashes of `b`, pending modifications of `a`. */
  lemma WrittenTwice(t: BlockTree, st: State, pa: seq<B256>, pb: seq<B256>, n: nat, tag: nat, failed: Outcome,
                     r: Outcome)
    requires |pa| == |pb| == n + 1 && ModsOf(t, pb[n]) == []
    requires failed == IndexRange(t, pa, st, n, n, tag, FaultAt(InHashes, 0))
    requires r == IndexRange(t, pb, failed.state, n, n, tag, NoFault)
    ensures failed.error.Some? && failed.state.last == st.last
    ensures r == Outcome(MoveToStore(
      State(st.hashes + HashBatch(pb, n, n), st.pending + PendingBatch(t, pa, n, n), Some(NumHash(n, pb[n])), st.store),
      tag), None)
  {
    RangeFailingOnHashes(t, pa, st, n, n, tag);
    RangeOutcome(t, pb, failed.state, n, n, tag, NoFault);
    EmptyBatch(t, pb, n, n, failed.state.pending);
  }

  lemma RangeFailingOnHashes(t: BlockTree, chain: seq<B256>, st: State, from: nat, to: nat, tag: nat)
    requires from <= to < |chain|
    ensures IndexRange(t, chain, st, from, to, tag, FaultAt(InHashes, 0))
         == Outcome(st.(pending := st.pending + PendingBatch(t, chain, from, to)), Some(BlockHashMissing))
  {
  }

  lemma StaleMove(t: BlockTree, s0: Store.Db, st: State, pa: seq<B256>, pb: seq<B256>, n: nat, moved: nat, tag: nat,
                  onB: State)
    requires |pa| == |pb| == n + 1 && 0 < n <= tag
    requires Mirrors(t, s0, st, pa[..n], moved)
    requires onB.hashes == st.hashes + HashBatch(pb, n, n)
    requires onB.pending == st.pending + PendingBatch(t, pa, n, n) && onB.store == st.store
    ensures MoveToStore(onB, tag).store == Replay(t, s0, pa, n + 1)
  {
    var onA := onB.(hashes := st.hashes + HashBatch(pa, n, n));
    WritePreserves(t, s0, st, pa, n, n, moved, onA);
    assert pa[..n + 1] == pa;
    MovePreserves(t, s0, onA, pa, moved, tag);
    MovesTheSame(onA, onB, tag);
  }

  lemma ChildPlan(t: BlockTree, st: State, tip: B256, u: B256)
    requires WellFormed(t) && tip in t && u in t
    requires t[u].number == t[tip].number + 1 && Parent(t, u) == tip
    requires st.last == Some(NumHash(t[tip].number, tip))
    ensures SyncPlan(t, st, u) == IndexOn(st, t[u].number)
  {
    AncestorOfParent(t, u, u);
  }

  /** A sync to a child of the recorded tip indexes that one block. */
  lemma ChildSync(t: BlockTree, st: State, tip: B256, u: B256, maxBlocks: nat, tag: nat, fault: Fault)
    requires WellFormed(t) && tip in t && u in t && maxBlocks >= 1
    requires t[u].number == t[tip].number + 1 && Parent(t, u) == tip
    requires st.last == Some(NumHash(t[tip].number, tip))
    ensures Sync(t, st, u, maxBlocks, tag, fault)
         == IndexRange(t, Path(t, u), st, t[u].number, t[u].number, tag, fault)
  {
    ChildPlan(t, st, tip, u);
    SingleRange(t, Path(t, u), st, maxBlocks, tag, fault);
  }

  lemma ChildMirrors(t: BlockTree, s0: Store.Db, st: State, tip: B256, moved: nat, u: B256)
    requires WellFormed(t) && u in t && Tracks(t, s0, st, tip, moved)
    requires t[u].number == t[tip].number + 1 && Parent(t, u) == tip
    ensures Mirrors(t, s0, st, Path(t, u)[..t[u].number], moved)
  {
    AncestorOfParent(t, u, u);
    PathPrefix(t, u, t[tip].number);
  }

  /** Let `a` and `b` be children of the tracked tip, `b` without modifications. A sync to `a` that fails
      between its two writes, followed by a successful sync to `b`, ends on `b` with the store that
      replays the chain of `a`. */
  lemma HashFaultLeaks(t: BlockTree, s0: Store.Db, st: State, tip: B256, moved: nat, a: B256, b: B256, maxBlocks: nat,
                       tag: nat)
    requires WellFormed(t) && a in t && b in t && maxBlocks >= 1
    requires Tracks(t, s0, st, tip, moved) && st.last.value.hash == tip
    requires t[a].number == t[b].number == t[tip].number + 1 && Parent(t, a) == tip && Parent(t, b) == tip
    requires ModsOf(t, b) == [] && tag >= t[a].number
    ensures var failed := Sync(t, st, a, maxBlocks, tag, FaultAt(InHashes, 0));
      var r := Sync(t, failed.state, b, maxBlocks, tag, NoFault);
      && failed.error.Some? && r.error.None? && r.state.last == Some(NumHash(t[b].number, b))
      && r.state.store == Replay(t, s0, Path(t, a), t[a].number + 1)
  {
    var n, pa, pb := t[a].number, Path(t, a), Path(t, b);
    var failed := Sync(t, st, a, maxBlocks, tag, FaultAt(InHashes, 0));
    ChildSync(t, st, tip, a, maxBlocks, tag, FaultAt(InHashes, 0));
    assert failed.state.last == st.last;
    ChildSync(t, failed.state, tip, b, maxBlocks, tag, NoFault);
    var r := Sync(t, failed.state, b, maxBlocks, tag, NoFault);
    WrittenTwice(t, st, pa, pb, n, tag, failed, r);
    ChildMirrors(t, s0, st, tip, moved, a);
    var onB := State(st.hashes + HashBatch(pb, n, n), st.pending + PendingBatch(t, pa, n, n), Some(NumHash(n, b)),
                     st.store);
    StaleMove(t, s0, st, pa, pb, n, moved, tag, onB);
    MoveKeepsRecord(onB, tag);
  }

  /** The leak is visible as soon as an abandoned modification names an adopter that the replay of the
      final chain does not have. */
  lemma LeakContradictsReplay(t: BlockTree, s0: Store.Db, tip: B256, a: B256, b: B256, i: nat)
    requires WellFormed(t) && a in t && b in t && tip in t
    requires t[a].number == t[b].number == t[tip].number + 1 && Parent(t, a) == tip && Parent(t, b) == tip
    requires ModsOf(t, b) == [] && i < |ModsOf(t, a)|
    requires ModsOf(t, a)[i].adopter !in Replay(t, s0, Path(t, b), t[b].number + 1)
    ensures Replay(t, s0, Path(t, a), t[a].number + 1) != Replay(t, s0, Path(t, b), t[b].number + 1)
  {
    var n, pa, pb := t[a].number, Path(t, a), Path(t, b);
    AncestorOfParent(t, a, a);
    AncestorOfParent(t, b, b);
    ShareBelow(t, a, b, n - 1, n);
    ShareIsPrefix(t, a, b, n);
    forall k | 0 <= k < n ensures pa[k] == pb[k] {
      assert pa[..n][k] == pb[..n][k];
    }
    SameMods(t, pa, pb, 0, n);
    ModsSplit(t, pa, 0, n, n + 1);
    ModsSplit(t, pb, 0, n, n + 1);
    assert Mods(t, pa, n, n + 1) == [] + ModsOf(t, a);
    assert Mods(t, pb, n, n + 1) == [] + ModsOf(t, b);
    var base, adopter := Mods(t, pb, 0, n), ModsOf(t, a)[i].adopter;
    Store.ApplyAllPointwise(s0, base + ModsOf(t, a), adopter);
    Store.OfAppend(base, ModsOf(t, a), adopter);
    OfFinds(ModsOf(t, a), i);
  }

  lemma {:induction false} OfFinds(mods: seq<Modification>, i: nat)
    requires i < |mods|
    ensures Store.Of(mods, mods[i].adopter) != []
  {
    if i > 0 && mods[0].adopter != mods[i].adopter {
      OfFinds(mods[1..], i - 1);
    }
  }

  /** A concrete run: genesis 1, then block 2 with one Add and block 3 without modifications. */
  lemma HashFaultLeakExample()
    ensures var add := Add(7, AssertionContract(9, 0), map[], 5);
      var t: BlockTree := map[1 := Block(0, 0, [], []), 2 := Block(1, 1, [add], [0]), 3 := Block(1, 1, [], [])];
      && WellFormed(t)
      && var st := Sync(t, State(map[], map[], None, map[]), 1, 1, 0, NoFault).state;
      var r := Sync(t, Sync(t, st, 2, 1, 1, FaultAt(InHashes, 0)).state, 3, 1, 1, NoFault);
      r.error.None? && r.state.store != Replay(t, map[], Path(t, 3), 2)
  {
    var add := Add(7, AssertionContract(9, 0), map[], 5);
    var t: BlockTree := map[1 := Block(0, 0, [], []), 2 := Block(1, 1, [add], [0]), 3 := Block(1, 1, [], [])];
    var empty := State(map[], map[], None, map[]);
    var st := Sync(t, empty, 1, 1, 0, NoFault).state;
    var p := FreshStep(t, map[], empty, Request(1, 1, 0, NoFault), Step(t, empty, Request(1, 1, 0, NoFault)));
    HashFaultLeaks(t, map[], st, 1, p.moved, 2, 3, 1, 1);
    AncestorOfParent(t, 3, 3);
    assert Mods(t, Path(t, 3), 0, 2) == [];
    LeakContradictsReplay(t, map[], 1, 2, 3, 0);
  }
}
