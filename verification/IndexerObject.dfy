/** The indexer as an object: its trees are updated in place, loop by loop, and every method is proved to
    compute what module Indexer says. */
module IndexerObject {
  import opened Types
  import opened Chain
  import opened LogOrder
  import opened Pruning
  import opened Store
  import Spec = Indexer

  /** The least key, as a tree or a BTreeMap yields it first. */
  method Least(s: set<nat>) returns (k: nat)
    requires s != {}
    ensures IsLeast(k, s)
  {
    k :| k in s;
    var left := s - {k};
    while left != {}
      invariant left <= s && k in s
      invariant forall j :: j in s && j !in left ==> k <= j
      decreases |left|
    {
      var j :| j in left;
      left := left - {j};
      if j < k {
        k := j;
      }
    }
  }

  /** The values of a BTreeMap in key order. */
  method ValuesInOrder(m: map<nat, Modification>, ghost at: seq<nat>, ghost mods: seq<Modification>)
    returns (values: seq<Modification>)
    requires Tabulates(m, at, mods, 0) && Increasing(at)
    ensures values == mods
  {
    values := [];
    var left := m;
    while left.Keys != {}
      invariant |values| <= |at| && values == mods[..|values|]
      invariant Tabulates(left, at, mods, |values|)
      decreases |left.Keys|
    {
      var k := Least(left.Keys);
      LeastIsFirst(left, at, mods, |values|, k);
      TakeSnoc(mods, |values|);
      values := values + [left[k]];
      left := left - {k};
    }
    EmptyIffDone(left, at, mods, |values|);
    assert mods[..|mods|] == mods;
  }

  // ---- the pending batch of a range ----

  /** Groups the logs of an answer by block and, within a block, by log index. */
  method GroupLogs(t: BlockTree, chain: seq<B256>, from: nat, to: nat, logs: seq<Log>)
    returns (groups: map<nat, map<nat, Modification>>)
    requires to < |chain| && Answers(t, chain, from, to, logs)
    ensures Grouped(t, chain, from, to, logs, groups)
  {
    groups := map[];
    for k := 0 to |logs|
      invariant Grouped(t, chain, from, to, logs[..k], groups)
    {
      var l := logs[k];
      TakeSnoc(logs, k);
      if l.modification.None? {
        GroupedSkip(t, chain, from, to, logs[..k], l, groups);
      } else {
        var own := if l.blockNumber in groups then groups[l.blockNumber] else map[];
        GroupedSnoc(t, chain, from, to, logs[..k], l, groups, own);
        groups := groups[l.blockNumber := own[l.logIndex := l.modification.value]];
      }
    }
    assert logs[..|logs|] == logs;
  }

  /** The batch does not depend on the order in which the provider returned the logs. */
  method BuildBatch(t: BlockTree, chain: seq<B256>, from: nat, to: nat, logs: seq<Log>)
    returns (batch: map<nat, seq<Modification>>)
    requires to < |chain| && LogsNumbered(t) && Answers(t, chain, from, to, logs)
    ensures batch == Spec.PendingBatch(t, chain, from, to)
    ensures forall n :: n in batch <==> from <= n <= to && t[chain[n]].mods != []
    ensures forall n :: n in batch ==> batch[n] == t[chain[n]].mods
  {
    var groups := GroupLogs(t, chain, from, to, logs);
    batch := map[];
    var left := groups.Keys;
    while left != {}
      invariant left <= groups.Keys
      invariant forall n :: n in batch <==> n in groups && n !in left
      invariant forall n :: n in batch ==> from <= n <= to && batch[n] == ModsOf(t, chain[n])
      decreases |left|
    {
      var n :| n in left;
      GroupTabulates(t, chain, from, to, logs, groups, n);
      var values := ValuesInOrder(groups[n], t[chain[n]].logIndex, t[chain[n]].mods);
      batch := batch[n := values];
      left := left - {n};
    }
    BatchIsPending(t, chain, from, to, logs, groups, batch);
  }

  // ---- the indexer ----

  class Indexer {
    var hashes: map<nat, B256>
    var pending: map<nat, seq<Modification>>
    var last: Option<NumHash>
    const store: AssertionStore

    ghost function State(): Spec.State
      reads this, store
    {
      Spec.State(hashes, pending, last, store.db)
    }

    constructor (store: AssertionStore)
      ensures this.store == store
      ensures State() == Spec.State(map[], map[], None, store.db)
    {
      this.store := store;
      hashes, pending, last := map[], map[], None;
    }

    /** Removes one block from both trees and returns its pending modifications. */
    method Pop(k: nat) returns (mods: seq<Modification>)
      modifies this`hashes, this`pending
      ensures State() == old(State()).(hashes := old(hashes) - {k}, pending := old(pending) - {k})
      ensures mods == if k in old(pending) then old(pending)[k] else []
    {
      mods := if k in pending then pending[k] else [];
      hashes, pending := hashes - {k}, pending - {k};
    }

    /** Pops the known blocks below `to` in ascending order and returns their modifications. */
    method PruneTo(to: nat) returns (mods: seq<Modification>)
      modifies this`hashes, this`pending
      ensures State() == Spec.DropBelow(old(State()), to)
      ensures mods == Spec.Collect(old(hashes), old(pending), to)
    {
      ghost var st := State();
      NothingPopped(st, 0);
      mods := [];
      ghost var done: nat := 0;
      var below := set n | n in hashes && n < to;
      while below != {}
        invariant done <= to && Popped(st, State(), 0, done)
        invariant forall n :: n in below <==> n in hashes && n < to
        invariant mods == Spec.Collect(st.hashes, st.pending, done)
        decreases |below|
      {
        var k := Least(below);
        PopAdvances(st, State(), 0, done, k);
        var own := Pop(k);
        mods := mods + own;
        done := k + 1;
        below := below - {k};
      }
      PoppedBelow(st, State(), done, to);
    }

    /** Pops the known blocks from `from` on and drops their pending modifications. */
    method PruneFrom(from: nat)
      modifies this`hashes, this`pending
      ensures State() == Spec.DropFrom(old(State()), from)
    {
      ghost var st := State();
      NothingPopped(st, from);
      ghost var done: nat := from;
      var above := set n | n in hashes && from <= n;
      while above != {}
        invariant Popped(st, State(), from, done)
        invariant forall n :: n in above <==> n in hashes && from <= n
        decreases |above|
      {
        var k := Least(above);
        PopAdvances(st, State(), from, done, k);
        var _ := Pop(k);
        done := k + 1;
        above := above - {k};
      }
      PoppedFrom(st, State(), from, done);
    }

    /** Walks parents until a recorded block is found. */
    method FindCommonAncestor(t: BlockTree, start: B256) returns (r: Result<nat, IndexerError>)
      requires WellFormed(t)
      ensures r == Spec.CommonAncestor(t, hashes, start)
    {
      var cursor := start;
      while true
        invariant Spec.CommonAncestor(t, hashes, cursor) == Spec.CommonAncestor(t, hashes, start)
        decreases if cursor in t then t[cursor].number + 1 else 0
      {
        if cursor !in t {
          return Err(ParentBlockNotFound);
        }
        var number := t[cursor].number;
        if number !in hashes {
          return Err(NoCommonAncestor);
        }
        if hashes[number] == cursor {
          return Ok(number);
        }
        cursor := Parent(t, cursor);
      }
    }

    /** Applies what `PruneTo` returned, grouped by adopter. */
    method MovePendingModificationsToStore(upperBound: nat)
      modifies this`hashes, this`pending, store
      ensures State() == Spec.MoveToStore(old(State()), upperBound)
    {
      if upperBound == 0 {
        return;
      }
      var mods := PruneTo(upperBound + 1);
      if mods != [] {
        store.ApplyPendingModifications(mods);
      }
    }

    /** The hashes of the blocks `from ..= to`, fetched one by one. */
    static method FetchHashes(chain: seq<B256>, from: nat, to: nat) returns (numHashes: map<nat, B256>)
      requires from <= to < |chain|
      ensures numHashes == Spec.HashBatch(chain, from, to)
    {
      numHashes := map[];
      for i := from to to + 1
        invariant numHashes == map n | from <= n < i :: chain[n]
      {
        numHashes := numHashes[i := chain[i]];
      }
    }

    /** Indexes `from ..= to`. Nothing is written until all logs are in; the pending batch goes in before the
        hashes are fetched; the move to the store comes last. */
    method IndexRange(t: BlockTree, chain: seq<B256>, from: nat, to: nat, logs: seq<Log>, tag: nat, fault: Spec.Fault)
      returns (error: Option<IndexerError>)
      requires from <= to < |chain| && LogsNumbered(t) && Answers(t, chain, from, to, logs)
      modifies this, store
      ensures Spec.Outcome(State(), error) == Spec.IndexRange(t, chain, old(State()), from, to, tag, fault)
    {
      if fault.Strikes(Spec.InLogs) {
        return Some(LogsUnavailable);
      }
      var batch := BuildBatch(t, chain, from, to, logs);
      pending := pending + batch;
      if fault.Strikes(Spec.InHashes) {
        return Some(BlockHashMissing);
      }
      var numHashes := FetchHashes(chain, from, to);
      last := Some(NumHash(to, chain[to]));
      hashes := hashes + numHashes;
      if fault.Strikes(Spec.InTag) {
        return Some(TagUnavailable);
      }
      MovePendingModificationsToStore(tag);
      return None;
    }

    /** Checks for a reorg, rewinds if there is one, and says where indexing starts. */
    method StartOfSync(t: BlockTree, u: UpdateBlock) returns (r: Result<nat, IndexerError>)
      requires WellFormed(t) && Describes(t, u)
      modifies this`hashes, this`pending, this`last
      ensures Spec.SyncPlan(t, old(State()), u.hash)
           == if r.Ok? then Spec.IndexOn(State(), r.value) else Spec.Stop(r.error)
      ensures r.Err? ==> State() == old(State())
    {
      if last.None? {
        return Ok(0);
      }
      var reorged := CheckIfReorged(t, u, last.value);
      if reorged.Err? {
        return Err(reorged.error);
      }
      if !reorged.value {
        return Ok(last.value.number + 1);
      }
      var ancestor := FindCommonAncestor(t, u.parentHash);
      if ancestor.Err? {
        return Err(ancestor.error);
      }
      PruneFrom(ancestor.value + 1);
      last := Some(NumHash(ancestor.value, u.parentHash));
      return Ok(ancestor.value + 1);
    }

    /** Checks for a reorg, rewinds if there is one, then indexes up to the update block in chunks. */
    method Sync(t: BlockTree, getLogs: (nat, nat) -> seq<Log>, u: UpdateBlock, maxBlocks: nat, tag: nat,
                fault: Spec.Fault)
      returns (error: Option<IndexerError>)
      requires WellFormed(t) && LogsNumbered(t) && Describes(t, u) && maxBlocks >= 1
      requires AnswersAll(t, Path(t, u.hash), getLogs)
      modifies this, store
      ensures Spec.Outcome(State(), error) == Spec.Sync(t, old(State()), u.hash, maxBlocks, tag, fault)
    {
      var from := StartOfSync(t, u);
      if from.Err? {
        return Some(from.error);
      }
      error := IndexFrom(t, getLogs, u, from.value, maxBlocks, tag, fault, Spec.RangeOf(t, Path(t, u.hash), tag));
    }

    /** The chunk loop around the range step. */
    method IndexFrom(t: BlockTree, getLogs: (nat, nat) -> seq<Log>, u: UpdateBlock, from: nat, maxBlocks: nat, tag: nat,
                     fault: Spec.Fault, ghost step: Spec.RangeStep)
      returns (error: Option<IndexerError>)
      requires WellFormed(t) && LogsNumbered(t) && Describes(t, u) && maxBlocks >= 1
      requires AnswersAll(t, Path(t, u.hash), getLogs) && Implements(step, t, Path(t, u.hash), tag)
      modifies this, store
      ensures Spec.Outcome(State(), error) == Spec.InChunks(step, old(State()), from, u.number + 1, maxBlocks, fault)
    {
      var currentFrom, rest := from, fault;
      while currentFrom <= u.number
        invariant Spec.InChunks(step, State(), currentFrom, u.number + 1, maxBlocks, rest)
               == Spec.InChunks(step, old(State()), from, u.number + 1, maxBlocks, fault)
        decreases u.number + 1 - currentFrom
      {
        var currentTo := Spec.Min(currentFrom + maxBlocks - 1, u.number);
        error := IndexChunk(t, getLogs, u, currentFrom, currentTo, tag, rest, step);
        if error.Some? || currentTo == u.number {
          return;
        }
        currentFrom, rest := currentTo + 1, rest.Later();
      }
      error := None;
    }

    /** Queries the logs of one range and indexes it. */
    method IndexChunk(t: BlockTree, getLogs: (nat, nat) -> seq<Log>, u: UpdateBlock, from: nat, to: nat, tag: nat,
                      fault: Spec.Fault, ghost step: Spec.RangeStep)
      returns (error: Option<IndexerError>)
      requires WellFormed(t) && LogsNumbered(t) && Describes(t, u) && from <= to <= u.number
      requires AnswersAll(t, Path(t, u.hash), getLogs) && Implements(step, t, Path(t, u.hash), tag)
      modifies this, store
      ensures Spec.Outcome(State(), error) == step(old(State()), from, to, fault)
    {
      var logs := getLogs(from, to);
      error := IndexRange(t, Path(t, u.hash), from, to, logs, tag, fault);
    }
  }
}
