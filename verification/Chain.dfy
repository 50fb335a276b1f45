/** The block tree behind the RPC provider and the two parent walks over it. */
module Chain {
  import opened Types

  /** `mods` are the State Oracle modifications of the block in log order; `mods[i]` was emitted as log
      number `logIndex[i]`. */
  datatype Block = Block(number: nat, parentHash: B256, mods: seq<Modification>, logIndex: seq<nat>)

  type BlockTree = map<B256, Block>

  datatype NumHash = NumHash(number: nat, hash: B256)

  datatype UpdateBlock = UpdateBlock(number: nat, hash: B256, parentHash: B256)

  datatype IndexerError = ParentBlockNotFound | NoCommonAncestor | LogsUnavailable | BlockHashMissing | TagUnavailable

  function Parent(t: BlockTree, h: B256): B256
    requires h in t
  {
    t[h].parentHash
  }

  /** Every block above genesis has its parent, one lower; a genesis block has none. */
  ghost predicate WellFormed(t: BlockTree) {
    forall h {:trigger Parent(t, h)} :: h in t ==>
      if t[h].number == 0 then Parent(t, h) !in t
      else Parent(t, h) in t && t[Parent(t, h)].number == t[h].number - 1
  }

  ghost predicate Describes(t: BlockTree, u: UpdateBlock) {
    u.hash in t && u.number == t[u.hash].number && u.parentHash == Parent(t, u.hash)
  }

  /** The block of height `n` on the chain that ends in `h`. */
  function Ancestor(t: BlockTree, h: B256, n: nat): (a: B256)
    requires WellFormed(t) && h in t && n <= t[h].number
    ensures a in t && t[a].number == n
    decreases t[h].number
  {
    if t[h].number == n then h else Ancestor(t, Parent(t, h), n)
  }

  /** The chain that ends in `h`: its blocks by height, genesis first. */
  function Path(t: BlockTree, h: B256): (p: seq<B256>)
    requires WellFormed(t) && h in t
  {
    seq(t[h].number + 1, n requires 0 <= n <= t[h].number => Ancestor(t, h, n))
  }

  ghost predicate IsAncestorOrSelf(t: BlockTree, a: B256, h: B256)
    requires WellFormed(t) && h in t
  {
    exists n :: 0 <= n <= t[h].number && Ancestor(t, h, n) == a
  }

  lemma {:induction false} AncestorCompose(t: BlockTree, h: B256, n: nat, m: nat)
    requires WellFormed(t) && h in t && m <= n <= t[h].number
    ensures Ancestor(t, Ancestor(t, h, n), m) == Ancestor(t, h, m)
    decreases t[h].number
  {
    if t[h].number != n {
      AncestorCompose(t, Parent(t, h), n, m);
    }
  }

  /** The chain of an ancestor is a prefix of the chain. */
  lemma PathPrefix(t: BlockTree, h: B256, n: nat)
    requires WellFormed(t) && h in t && n <= t[h].number
    ensures Path(t, Ancestor(t, h, n)) == Path(t, h)[..n + 1]
  {
    forall m | 0 <= m <= n ensures Path(t, Ancestor(t, h, n))[m] == Path(t, h)[m] {
      AncestorCompose(t, h, n, m);
    }
  }

  /** The walk's step: the parent of an ancestor is the ancestor one lower. */
  lemma AncestorOfParent(t: BlockTree, h: B256, a: B256)
    requires WellFormed(t) && h in t && a in t && 0 < t[a].number <= t[h].number
    requires Ancestor(t, h, t[a].number) == a
    ensures Parent(t, a) in t && Ancestor(t, h, t[a].number - 1) == Parent(t, a)
  {
    AncestorCompose(t, h, t[a].number, t[a].number - 1);
  }

  /** Two chains that agree at one height agree at every lower one. */
  lemma AgreeBelow(t: BlockTree, g: B256, h: B256, n: nat, m: nat)
    requires WellFormed(t) && g in t && h in t && m <= n <= t[g].number && n <= t[h].number
    requires Ancestor(t, g, n) == Ancestor(t, h, n)
    ensures Ancestor(t, g, m) == Ancestor(t, h, m)
  {
    AncestorCompose(t, g, n, m);
    AncestorCompose(t, h, n, m);
  }

  /** The chains of `g` and `h` have their first `m` blocks in common. */
  ghost predicate Share(t: BlockTree, g: B256, h: B256, m: nat)
    requires WellFormed(t) && g in t && h in t
  {
    m <= t[g].number + 1 && m <= t[h].number + 1 && (m > 0 ==> Ancestor(t, g, m - 1) == Ancestor(t, h, m - 1))
  }

  lemma ShareIsPrefix(t: BlockTree, g: B256, h: B256, m: nat)
    requires WellFormed(t) && g in t && h in t && Share(t, g, h, m)
    ensures Path(t, g)[..m] == Path(t, h)[..m]
  {
    forall k | 0 <= k < m ensures Path(t, g)[k] == Path(t, h)[k] {
      AgreeBelow(t, g, h, m - 1, k);
    }
  }

  lemma ShareBelow(t: BlockTree, g: B256, h: B256, c: nat, m: nat)
    requires WellFormed(t) && g in t && h in t && c <= t[g].number && c <= t[h].number && m <= c + 1
    requires Ancestor(t, g, c) == Ancestor(t, h, c)
    ensures Share(t, g, h, m)
  {
    if m > 0 {
      AgreeBelow(t, g, h, c, m - 1);
    }
  }

  lemma ShareWithAncestor(t: BlockTree, h: B256, n: nat, m: nat)
    requires WellFormed(t) && h in t && n <= t[h].number && m <= n + 1
    ensures Share(t, Ancestor(t, h, n), h, m)
  {
    AncestorCompose(t, h, n, n);
    ShareBelow(t, Ancestor(t, h, n), h, n, m);
  }

  /** What a chain shares with another, every long enough prefix of it shares too. */
  lemma PrefixShares(t: BlockTree, u: B256, n: nat, tip: B256, m: nat)
    requires WellFormed(t) && u in t && tip in t && n <= t[u].number && m <= n + 1 && Share(t, u, tip, m)
    ensures Share(t, Ancestor(t, u, n), tip, m)
  {
    ShareWithAncestor(t, u, n, m);
  }

  // ---- modifications along a chain ----

  function ModsOf(t: BlockTree, h: B256): seq<Modification> {
    if h in t then t[h].mods else []
  }

  /** All modifications of the blocks `lo <= i < hi` of a chain, in chain order. */
  function Mods(t: BlockTree, chain: seq<B256>, lo: nat, hi: nat): seq<Modification>
    requires hi <= |chain|
    decreases hi
  {
    if lo >= hi then [] else Mods(t, chain, lo, hi - 1) + ModsOf(t, chain[hi - 1])
  }

  lemma {:induction false} ModsSplit(t: BlockTree, chain: seq<B256>, lo: nat, mid: nat, hi: nat)
    requires lo <= mid <= hi <= |chain|
    ensures Mods(t, chain, lo, hi) == Mods(t, chain, lo, mid) + Mods(t, chain, mid, hi)
    decreases hi
  {
    if mid < hi {
      ModsSplit(t, chain, lo, mid, hi - 1);
      AppendAssoc(Mods(t, chain, lo, mid), Mods(t, chain, mid, hi - 1), ModsOf(t, chain[hi - 1]));
    }
  }

  lemma {:induction false} SameMods(t: BlockTree, c: seq<B256>, d: seq<B256>, lo: nat, hi: nat)
    requires hi <= |c| && hi <= |d| && forall n :: 0 <= n < hi ==> c[n] == d[n]
    ensures Mods(t, c, lo, hi) == Mods(t, d, lo, hi)
    decreases hi
  {
    if lo < hi {
      SameMods(t, c, d, lo, hi - 1);
    }
  }

  /** A chain ends in its head and starts at genesis, and each block's parent comes before it. */
  lemma {:induction false} PathIsChain(t: BlockTree, h: B256, n: nat)
    requires WellFormed(t) && h in t && n <= t[h].number
    ensures |Path(t, h)| == t[h].number + 1 && Path(t, h)[t[h].number] == h
    ensures Path(t, h)[n] in t && t[Path(t, h)[n]].number == n
    ensures n > 0 ==> t[Path(t, h)[n]].parentHash == Path(t, h)[n - 1]
  {
    if n > 0 {
      AncestorOfParent(t, h, Ancestor(t, h, n));
    }
  }

  /** The blocks' own lists of modifications, by height. */
  ghost function BlockMods(t: BlockTree, chain: seq<B256>): seq<seq<Modification>>
    requires forall n :: 0 <= n < |chain| ==> chain[n] in t
  {
    seq(|chain|, n requires 0 <= n < |chain| => t[chain[n]].mods)
  }

  /** The modifications of a chain's first blocks are the blocks' own lists, one after the other. */
  lemma {:induction false} ModsAreTheBlocks(t: BlockTree, chain: seq<B256>, m: nat)
    requires m <= |chain| && forall n :: 0 <= n < |chain| ==> chain[n] in t
    ensures Mods(t, chain, 0, m) == Concat(BlockMods(t, chain)[..m])
  {
    if m > 0 {
      ModsAreTheBlocks(t, chain, m - 1);
      var all := BlockMods(t, chain);
      assert all[..m][..m - 1] == all[..m - 1];
    }
  }

  // ---- check_if_reorged ----

  /** False exactly when the last indexed block is the update block or one of its ancestors.
      An update below the last indexed height walks off genesis. */
  method CheckIfReorged(t: BlockTree, u: UpdateBlock, last: NumHash) returns (r: Result<bool, IndexerError>)
    requires WellFormed(t) && Describes(t, u)
    ensures r.Err? <==> u.number < last.number
    ensures r.Err? ==> r.error == ParentBlockNotFound
    ensures r.Ok? ==> (r.value <==> Ancestor(t, u.hash, last.number) != last.hash)
    ensures r.Ok? && last.hash in t && t[last.hash].number == last.number ==>
      (!r.value <==> IsAncestorOrSelf(t, last.hash, u.hash))
  {
    if u.number == last.number {
      return Ok(u.hash != last.hash);
    }
    var cursor := u.parentHash;
    if u.number > 0 {
      AncestorOfParent(t, u.hash, u.hash);
    }
    while true
      invariant cursor in t ==> t[cursor].number < u.number
      invariant cursor in t ==> Ancestor(t, u.hash, t[cursor].number) == cursor
      invariant cursor in t && last.number < u.number ==> last.number <= t[cursor].number
      invariant cursor !in t ==> u.number < last.number
      decreases if cursor in t then t[cursor].number + 1 else 0
    {
      if cursor !in t {
        return Err(ParentBlockNotFound);
      }
      var header := t[cursor];
      if header.number == last.number {
        return Ok(cursor != last.hash);
      }
      if header.number > 0 {
        AncestorOfParent(t, u.hash, cursor);
      }
      cursor := Parent(t, cursor);
    }
  }
}
