/** The indexer's persistent state and what each of its operations does to it. */
module Indexer {
  import opened Types
  import opened Chain
  import Store

  /** Block hashes and pending modifications by block number, the last indexed block, and the store. */
  datatype State = State(
    hashes: map<nat, B256>,
    pending: map<nat, seq<Modification>>,
    last: Option<NumHash>,
    store: Store.Db)

  /** Where a remote call can fail inside `index_range`: while logs are fetched and extracted (before
      any write), while block hashes are fetched (after the pending batch), or while the block to
      move up to is fetched (after all writes, before the move). */
  datatype FaultPoint = InLogs | InHashes | InTag

  /** At most one call fails in a sync, because the first failure ends it. */
  datatype Fault = NoFault | FaultAt(point: FaultPoint, chunk: nat)
  {
    predicate Strikes(p: FaultPoint) { FaultAt? && chunk == 0 && point == p }
    function Later(): Fault { if FaultAt? && chunk > 0 then FaultAt(point, chunk - 1) else NoFault }
  }

  datatype Outcome = Outcome(state: State, error: Option<IndexerError>)

  // ---- what each operation computes ----

  /** The pending modifications of the known blocks below `hi`, in block order. */
  function Collect(hashes: map<nat, B256>, pending: map<nat, seq<Modification>>, hi: nat): seq<Modification> {
    if hi == 0 then [] else
      var own := if hi - 1 in hashes && hi - 1 in pending then pending[hi - 1] else [];
      Collect(hashes, pending, hi - 1) + own
  }

  function DropBelow(st: State, to: nat): State {
    st.(hashes := map n | n in st.hashes && to <= n :: st.hashes[n],
        pending := map n | n in st.pending && !(n in st.hashes && n < to) :: st.pending[n])
  }

  function DropFrom(st: State, from: nat): State {
    st.(hashes := map n | n in st.hashes && n < from :: st.hashes[n],
        pending := map n | n in st.pending && !(n in st.hashes && from <= n) :: st.pending[n])
  }

  /** A bound of zero moves nothing, so that genesis stays available as a common ancestor. */
  function MoveToStore(st: State, upperBound: nat): State {
    if upperBound == 0 then st else
      var mods := Collect(st.hashes, st.pending, upperBound + 1);
      DropBelow(st, upperBound + 1).(store := Store.ApplyAll(st.store, mods))
  }

  /** `chain` is the canonical chain as the provider serves it by number. */
  function PendingBatch(t: BlockTree, chain: seq<B256>, from: nat, to: nat): map<nat, seq<Modification>>
    requires to < |chain|
  {
    map n | from <= n <= to && ModsOf(t, chain[n]) != [] :: ModsOf(t, chain[n])
  }

  function HashBatch(chain: seq<B256>, from: nat, to: nat): map<nat, B256>
    requires to < |chain|
  {
    map n | from <= n <= to :: chain[n]
  }

  function IndexRange(t: BlockTree, chain: seq<B256>, st: State, from: nat, to: nat, tag: nat, fault: Fault): Outcome
    requires from <= to < |chain|
  {
    if fault.Strikes(InLogs) then Outcome(st, Some(LogsUnavailable))
    else
      var withPending := st.(pending := st.pending + PendingBatch(t, chain, from, to));
      if fault.Strikes(InHashes) then Outcome(withPending, Some(BlockHashMissing))
      else
        var written := withPending.(hashes := st.hashes + HashBatch(chain, from, to),
                                    last := Some(NumHash(to, chain[to])));
        if fault.Strikes(InTag) then Outcome(written, Some(TagUnavailable))
        else Outcome(MoveToStore(written, tag), None)
  }

  function Min(a: nat, b: nat): nat { if a < b then a else b }
  function Max(a: nat, b: nat): nat { if a < b then b else a }

  /** Indexing one range of blocks, as a step on the state. */
  type RangeStep = (State, nat, nat, Fault) -> Outcome

  /** The chunk loop: `from .. length - 1` in consecutive ranges of at most `maxBlocks` blocks. */
  function InChunks(step: RangeStep, st: State, from: nat, length: nat, maxBlocks: nat, fault: Fault): Outcome
    requires maxBlocks >= 1
    decreases length - from
  {
    if from >= length then Outcome(st, None)
    else
      var to := Min(from + maxBlocks - 1, length - 1);
      var r := step(st, from, to, fault);
      if r.error.Some? || to == length - 1 then r
      else InChunks(step, r.state, to + 1, length, maxBlocks, fault.Later())
  }

  function RangeOf(t: BlockTree, chain: seq<B256>, tag: nat): RangeStep {
    (st: State, from: nat, to: nat, fault: Fault) =>
      if from <= to < |chain| then IndexRange(t, chain, st, from, to, tag, fault) else Outcome(st, None)
  }

  function IndexChunks(t: BlockTree, chain: seq<B256>, st: State, from: nat, maxBlocks: nat, tag: nat,
                       fault: Fault): Outcome
    requires maxBlocks >= 1
  {
    InChunks(RangeOf(t, chain, tag), st, from, |chain|, maxBlocks, fault)
  }

  /** Walks parents from `cursor` until a block is recorded in the hash tree under its own number. */
  function CommonAncestor(t: BlockTree, hashes: map<nat, B256>, cursor: B256): Result<nat, IndexerError>
    requires WellFormed(t)
    decreases if cursor in t then t[cursor].number + 1 else 0
  {
    if cursor !in t then Err(ParentBlockNotFound)
    else if t[cursor].number !in hashes then Err(NoCommonAncestor)
    else if hashes[t[cursor].number] == cursor then Ok(t[cursor].number)
    else CommonAncestor(t, hashes, Parent(t, cursor))
  }

  /** The state in which indexing starts once a reorg down to `ancestor` was found. The record pairs
      the ancestor's number with the update block's parent. */
  function Rewound(t: BlockTree, u: B256, st: State, ancestor: nat): State
    requires u in t
  {
    DropFrom(st, ancestor + 1).(last := Some(NumHash(ancestor, Parent(t, u))))
  }

  function Reorged(t: BlockTree, u: B256, last: NumHash): bool
    requires WellFormed(t) && u in t && last.number <= t[u].number
  {
    Ancestor(t, u, last.number) != last.hash
  }

  /** What a sync decides before it indexes anything. */
  datatype Plan = Stop(error: IndexerError) | IndexOn(base: State, from: nat)

  function SyncPlan(t: BlockTree, st: State, u: B256): Plan
    requires WellFormed(t) && u in t
  {
    match st.last
    case None => IndexOn(st, 0)
    case Some(last) =>
      if t[u].number < last.number then Stop(ParentBlockNotFound)
      else if !Reorged(t, u, last) then IndexOn(st, last.number + 1)
      else
        match CommonAncestor(t, st.hashes, Parent(t, u))
        case Err(e) => Stop(e)
        case Ok(c) => IndexOn(Rewound(t, u, st, c), c + 1)
  }

  function Sync(t: BlockTree, st: State, u: B256, maxBlocks: nat, tag: nat, fault: Fault): Outcome
    requires WellFormed(t) && u in t && maxBlocks >= 1
  {
    match SyncPlan(t, st, u)
    case Stop(e) => Outcome(st, Some(e))
    case IndexOn(base, from) => IndexChunks(t, Path(t, u), base, from, maxBlocks, tag, fault)
  }
}
