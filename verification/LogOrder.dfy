/** Log query answers, and why ordering them by log index restores the order of emission. */
module LogOrder {
  import opened Types
  import opened Chain
  import opened Indexer
  import opened Pruning

  // ---- logs ----

  /** A State Oracle log as the provider returns it; `modification` is what extraction made of it. */
  datatype Log = Log(blockNumber: nat, logIndex: nat, modification: Option<Modification>)

  ghost predicate Increasing(s: seq<nat>) {
    forall i, j :: 0 <= i < j < |s| ==> s[i] < s[j]
  }

  /** Every block numbers its modifications' logs in increasing order. */
  ghost predicate LogsNumbered(t: BlockTree) {
    forall h :: h in t ==> |t[h].logIndex| == |t[h].mods| && Increasing(t[h].logIndex)
  }

  ghost predicate Emitted(b: Block, logIndex: nat, m: Modification) {
    exists i :: 0 <= i < |b.mods| && i < |b.logIndex| && b.logIndex[i] == logIndex && b.mods[i] == m
  }

  /** A log query's answer for a range: all modification logs of the range and no others, in any order and
      with any irrelevant logs in between. */
  ghost predicate Answers(t: BlockTree, chain: seq<B256>, from: nat, to: nat, logs: seq<Log>)
    requires to < |chain|
  {
    && (forall n :: from <= n <= to ==> chain[n] in t)
    && (forall k :: 0 <= k < |logs| && logs[k].modification.Some? ==>
          && from <= logs[k].blockNumber <= to
          && Emitted(t[chain[logs[k].blockNumber]], logs[k].logIndex, logs[k].modification.value))
    && (forall n, i :: from <= n <= to && 0 <= i < |t[chain[n]].mods| && i < |t[chain[n]].logIndex| ==>
          Log(n, t[chain[n]].logIndex[i], Some(t[chain[n]].mods[i])) in logs)
  }

  /** A provider that answers every log query over a chain. */
  ghost predicate AnswersAll(t: BlockTree, chain: seq<B256>, getLogs: (nat, nat) -> seq<Log>) {
    forall from: nat, to: nat :: from <= to < |chain| ==> Answers(t, chain, from, to, getLogs(from, to))
  }

  /** `step` indexes ranges of this chain. */
  ghost predicate Implements(step: RangeStep, t: BlockTree, chain: seq<B256>, tag: nat) {
    forall st: State, from: nat, to: nat, fault: Fault {:trigger IndexRange(t, chain, st, from, to, tag, fault)} ::
      from <= to < |chain| ==> step(st, from, to, fault) == IndexRange(t, chain, st, from, to, tag, fault)
  }

  // ---- ordered maps ----

  ghost predicate OccursFrom(at: seq<nat>, i: nat, k: nat) {
    exists j :: i <= j < |at| && at[j] == k
  }

  /** `m` holds exactly the values `mods[i..]`, at the keys `at[i..]`. */
  ghost predicate Tabulates(m: map<nat, Modification>, at: seq<nat>, mods: seq<Modification>, i: nat) {
    && |at| == |mods|
    && (forall k :: k in m ==> OccursFrom(at, i, k))
    && (forall j :: i <= j < |at| ==> at[j] in m && m[at[j]] == mods[j])
  }

  lemma LeastIsFirst(m: map<nat, Modification>, at: seq<nat>, mods: seq<Modification>, i: nat, k: nat)
    requires Tabulates(m, at, mods, i) && Increasing(at) && IsLeast(k, m.Keys)
    ensures i < |at| && k == at[i] && m[k] == mods[i]
    ensures Tabulates(m - {k}, at, mods, i + 1)
  {
    var j :| i <= j < |at| && at[j] == k;
    assert at[i] in m.Keys && k <= at[i];
    assert i == j;
    forall x | x in m - {k} ensures OccursFrom(at, i + 1, x) {
      var y :| i <= y < |at| && at[y] == x;
      assert y != i;
    }
  }

  lemma EmptyIffDone(m: map<nat, Modification>, at: seq<nat>, mods: seq<Modification>, i: nat)
    requires Tabulates(m, at, mods, i) && i <= |at|
    ensures m.Keys == {} <==> i == |at|
  {
    if i < |at| {
      assert at[i] in m.Keys;
    } else {
      assert forall k :: !OccursFrom(at, i, k);
    }
  }

  /** The modifications collected so far from logs of one block, by log index. */
  ghost predicate Collected(b: Block, n: nat, logs: seq<Log>, m: map<nat, Modification>) {
    && (forall k :: k in m ==> Emitted(b, k, m[k]))
    && (forall k :: 0 <= k < |logs| && logs[k].blockNumber == n && logs[k].modification.Some? ==> logs[k].logIndex in m)
  }

  /** Once all logs are in, the map tabulates the block's modifications, whatever order they came in. */
  lemma CollectedTabulates(b: Block, n: nat, logs: seq<Log>, m: map<nat, Modification>)
    requires Collected(b, n, logs, m) && |b.logIndex| == |b.mods| && Increasing(b.logIndex)
    requires forall i :: 0 <= i < |b.mods| ==> Log(n, b.logIndex[i], Some(b.mods[i])) in logs
    ensures Tabulates(m, b.logIndex, b.mods, 0)
  {
    forall k | k in m ensures OccursFrom(b.logIndex, 0, k) {
      var i :| 0 <= i < |b.mods| && i < |b.logIndex| && b.logIndex[i] == k && b.mods[i] == m[k];
    }
    forall j | 0 <= j < |b.logIndex| ensures b.logIndex[j] in m && m[b.logIndex[j]] == b.mods[j] {
      var l := Log(n, b.logIndex[j], Some(b.mods[j]));
      var k :| 0 <= k < |logs| && logs[k] == l;
      var i :| 0 <= i < |b.mods| && i < |b.logIndex| && b.logIndex[i] == l.logIndex && b.mods[i] == m[l.logIndex];
      assert i == j;
    }
  }

  /** What grouping the first logs of an answer by block yields: an entry for exactly the blocks with a
      modification among them. */
  ghost predicate Grouped(t: BlockTree, chain: seq<B256>, from: nat, to: nat, logs: seq<Log>, groups: map<nat, map<nat,
                          Modification>>)
    requires to < |chain| && forall n :: from <= n <= to ==> chain[n] in t
  {
    && (forall n :: n in groups ==> from <= n <= to && groups[n] != map[] && Collected(t[chain[n]], n, logs, groups[n]))
    && (forall k :: 0 <= k < |logs| && logs[k].modification.Some? ==> logs[k].blockNumber in groups)
  }

  lemma GroupedSkip(t: BlockTree, chain: seq<B256>, from: nat, to: nat, logs: seq<Log>, l: Log, groups: map<nat,
                    map<nat, Modification>>)
    requires to < |chain| && forall n :: from <= n <= to ==> chain[n] in t
    requires Grouped(t, chain, from, to, logs, groups) && l.modification.None?
    ensures Grouped(t, chain, from, to, logs + [l], groups)
  {
  }

  lemma CollectedSnoc(b: Block, n: nat, logs: seq<Log>, l: Log, m: map<nat, Modification>, m': map<nat, Modification>)
    requires Collected(b, n, logs, m) && forall k :: k in m ==> k in m'
    requires forall k :: k in m' ==> Emitted(b, k, m'[k])
    requires l.blockNumber == n && l.modification.Some? ==> l.logIndex in m'
    ensures Collected(b, n, logs + [l], m')
  {
    var all := logs + [l];
    forall k | 0 <= k < |all| && all[k].blockNumber == n && all[k].modification.Some? ensures all[k].logIndex in m' {
      assert k < |logs| ==> all[k] == logs[k];
    }
  }

  /** Adding one more log to its group. */
  lemma GroupedSnoc(t: BlockTree, chain: seq<B256>, from: nat, to: nat, logs: seq<Log>, l: Log,
                    groups: map<nat, map<nat, Modification>>, own: map<nat, Modification>)
    requires to < |chain| && forall n :: from <= n <= to ==> chain[n] in t
    requires Grouped(t, chain, from, to, logs, groups)
    requires l.modification.Some? && from <= l.blockNumber <= to
    requires Emitted(t[chain[l.blockNumber]], l.logIndex, l.modification.value)
    requires own == if l.blockNumber in groups then groups[l.blockNumber] else map[]
    ensures Grouped(t, chain, from, to, logs + [l], groups[l.blockNumber := own[l.logIndex := l.modification.value]])
  {
    var grown := own[l.logIndex := l.modification.value];
    var all := groups[l.blockNumber := grown];
    assert l.logIndex in grown;
    assert Collected(t[chain[l.blockNumber]], l.blockNumber, logs, own);
    forall n | n in all ensures Collected(t[chain[n]], n, logs + [l], all[n]) {
      CollectedSnoc(t[chain[n]], n, logs, l, if n == l.blockNumber then own else groups[n], all[n]);
    }
    forall k | 0 <= k < |logs + [l]| && (logs + [l])[k].modification.Some? ensures (logs + [l])[k].blockNumber in all {
      assert k < |logs| ==> (logs + [l])[k] == logs[k];
    }
  }

  lemma AllLogsOf(t: BlockTree, chain: seq<B256>, from: nat, to: nat, logs: seq<Log>, n: nat)
    requires to < |chain| && Answers(t, chain, from, to, logs) && from <= n <= to
    ensures chain[n] in t
    ensures var b := t[chain[n]]; |b.logIndex| == |b.mods| ==>
      forall i :: 0 <= i < |b.mods| ==> Log(n, b.logIndex[i], Some(b.mods[i])) in logs
  {
  }

  /** With the whole answer grouped, every group tabulates its block's modifications. */
  lemma GroupTabulates(t: BlockTree, chain: seq<B256>, from: nat, to: nat, logs: seq<Log>,
                       groups: map<nat, map<nat, Modification>>, n: nat)
    requires to < |chain| && LogsNumbered(t) && Answers(t, chain, from, to, logs)
    requires Grouped(t, chain, from, to, logs, groups) && n in groups
    ensures from <= n <= to && Tabulates(groups[n], t[chain[n]].logIndex, t[chain[n]].mods, 0)
  {
    AllLogsOf(t, chain, from, to, logs, n);
    CollectedTabulates(t[chain[n]], n, logs, groups[n]);
  }

  /** With the whole answer grouped, a block has a group exactly when it has modifications. */
  lemma HasGroupIff(t: BlockTree, chain: seq<B256>, from: nat, to: nat, logs: seq<Log>,
                    groups: map<nat, map<nat, Modification>>, n: nat)
    requires to < |chain| && LogsNumbered(t) && Answers(t, chain, from, to, logs)
    requires Grouped(t, chain, from, to, logs, groups)
    ensures n in groups <==> from <= n <= to && ModsOf(t, chain[n]) != []
  {
    if n in groups {
      GroupTabulates(t, chain, from, to, logs, groups, n);
      var k :| k in groups[n];
      assert OccursFrom(t[chain[n]].logIndex, 0, k);
    } else if from <= n <= to {
      AllLogsOf(t, chain, from, to, logs, n);
      NoGroupNoMods(t[chain[n]], n, logs, groups);
    }
  }

  lemma NoGroupNoMods(b: Block, n: nat, logs: seq<Log>, groups: map<nat, map<nat, Modification>>)
    requires |b.logIndex| == |b.mods|
    requires forall i :: 0 <= i < |b.mods| ==> Log(n, b.logIndex[i], Some(b.mods[i])) in logs
    requires forall k :: 0 <= k < |logs| && logs[k].modification.Some? ==> logs[k].blockNumber in groups
    ensures n in groups || b.mods == []
  {
    if b.mods != [] {
      var l := Log(n, b.logIndex[0], Some(b.mods[0]));
      assert l in logs;
      assert l.blockNumber in groups;
    }
  }

  /** A batch that orders every group is the range's pending batch. */
  lemma BatchIsPending(t: BlockTree, chain: seq<B256>, from: nat, to: nat, logs: seq<Log>,
                       groups: map<nat, map<nat, Modification>>, batch: map<nat, seq<Modification>>)
    requires to < |chain| && LogsNumbered(t) && Answers(t, chain, from, to, logs)
    requires Grouped(t, chain, from, to, logs, groups)
    requires forall n :: n in batch <==> n in groups
    requires forall n :: n in batch ==> from <= n <= to && batch[n] == ModsOf(t, chain[n])
    ensures batch == PendingBatch(t, chain, from, to)
  {
    forall n: nat ensures n in batch <==> from <= n <= to && ModsOf(t, chain[n]) != [] {
      HasGroupIff(t, chain, from, to, logs, groups, n);
    }
  }
}
