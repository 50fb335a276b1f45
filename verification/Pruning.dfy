/** What popping the least known block again and again removes from the two trees. */
module Pruning {
  import opened Types
  import opened Indexer

  ghost predicate IsLeast(k: nat, s: set<nat>) {
    k in s && forall j :: j in s ==> k <= j
  }

  /** `now` is `st` without the known blocks `lo <= n < hi`. */
  ghost predicate Popped(st: State, now: State, lo: nat, hi: nat) {
    && lo <= hi && now.last == st.last && now.store == st.store
    && (forall n :: n in now.hashes <==> n in st.hashes && !(lo <= n < hi))
    && (forall n :: n in now.hashes ==> now.hashes[n] == st.hashes[n])
    && (forall n :: n in now.pending <==> n in st.pending && !(n in st.hashes && lo <= n < hi))
    && (forall n :: n in now.pending ==> now.pending[n] == st.pending[n])
  }

  lemma NothingPopped(st: State, lo: nat)
    ensures Popped(st, st, lo, lo)
  {
  }

  /** Popping the least known block at or above `lo` advances the popped range past it. */
  lemma PopAdvances(st: State, now: State, lo: nat, done: nat, k: nat)
    requires Popped(st, now, lo, done)
    requires k in now.hashes && lo <= k && forall n :: n in now.hashes && lo <= n ==> k <= n
    ensures done <= k && Popped(st, now.(hashes := now.hashes - {k}, pending := now.pending - {k}), lo, k + 1)
    ensures var own := if k in now.pending then now.pending[k] else [];
      lo == 0 ==> Collect(st.hashes, st.pending, k + 1) == Collect(st.hashes, st.pending, done) + own
  {
    forall n | done <= n < k ensures n !in st.hashes {
      assert n !in now.hashes;
    }
    CollectSkips(st.hashes, st.pending, done, k);
  }

  lemma {:induction false} CollectSkips(hashes: map<nat, B256>, pending: map<nat, seq<Modification>>, lo: nat, hi: nat)
    requires lo <= hi && forall n :: lo <= n < hi ==> n !in hashes
    ensures Collect(hashes, pending, hi) == Collect(hashes, pending, lo)
  {
    if lo < hi {
      CollectSkips(hashes, pending, lo, hi - 1);
    }
  }

  /** Once no known block below `to` is left, the trees are pruned to `to`. */
  lemma PoppedBelow(st: State, now: State, done: nat, to: nat)
    requires Popped(st, now, 0, done) && done <= to && (forall n :: n in now.hashes ==> to <= n)
    ensures now == DropBelow(st, to)
    ensures Collect(st.hashes, st.pending, to) == Collect(st.hashes, st.pending, done)
  {
    forall n | done <= n < to ensures n !in st.hashes {
      assert n !in now.hashes;
    }
    CollectSkips(st.hashes, st.pending, done, to);
    assert now.hashes == DropBelow(st, to).hashes;
    assert now.pending == DropBelow(st, to).pending;
  }

  lemma PoppedFrom(st: State, now: State, from: nat, done: nat)
    requires Popped(st, now, from, done) && (forall n :: n in now.hashes ==> n < from)
    ensures now == DropFrom(st, from)
  {
    forall n | n in st.hashes && from <= n ensures n < done {
      assert n !in now.hashes;
    }
    assert now.hashes == DropFrom(st, from).hashes;
    assert now.pending == DropFrom(st, from).pending;
  }
}
