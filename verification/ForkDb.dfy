/** A layer of mutations over an inner database, and the flat database it stands for. */
module Database {
  import opened Types

  type Bytecode = nat

  datatype AccountInfo = AccountInfo(balance: nat, nonce: nat, codeHash: B256, code: Option<Bytecode>)

  /** An account as a transaction leaves it. */
  datatype Account = Account(info: AccountInfo, storage: map<Slot, Word>, touched: bool, selfdestructed: bool)

  type EvmState = map<Address, Account>

  datatype DbError = DbError(code: nat)

  /** Any database that can be read; reads may fail. */
  datatype Reader = Reader(
    basic: Address -> Result<Option<AccountInfo>, DbError>,
    storage: (Address, Slot) -> Result<Word, DbError>,
    code: B256 -> Result<Bytecode, DbError>,
    blockHash: nat -> Result<B256, DbError>)

  /** A commit writes an account only if it was touched; self-destruction takes precedence over its storage. */
  ghost predicate Writes(changes: EvmState, a: Address) {
    a in changes && changes[a].touched
  }

  ghost predicate Destroys(changes: EvmState, a: Address) {
    Writes(changes, a) && changes[a].selfdestructed
  }

  ghost predicate Deploys(changes: EvmState, a: Address, h: B256) {
    Writes(changes, a) && !changes[a].selfdestructed && changes[a].info.code.Some? && changes[a].info.codeHash == h
  }

  /** Equal code hashes mean equal code. */
  ghost predicate HashesIdentifyCode(changes: EvmState) {
    forall a, b, h :: Deploys(changes, a, h) && Deploys(changes, b, h) ==> changes[a].info.code == changes[b].info.code
  }

  // ---- the flat database: the last commit that wrote something decides ----

  ghost function FlatBasic(db: Reader, commits: seq<EvmState>, a: Address): Result<Option<AccountInfo>, DbError> {
    if commits == [] then db.basic(a)
    else
      var last := commits[|commits| - 1];
      if Writes(last, a) then Ok(Some(last[a].info)) else FlatBasic(db, commits[..|commits| - 1], a)
  }

  ghost function FlatStorage(db: Reader, commits: seq<EvmState>, a: Address, s: Slot): Result<Word, DbError> {
    if commits == [] then db.storage(a, s)
    else
      var last := commits[|commits| - 1];
      if Destroys(last, a) then Ok(0)
      else if Writes(last, a) && s in last[a].storage then Ok(last[a].storage[s])
      else FlatStorage(db, commits[..|commits| - 1], a, s)
  }

  ghost function FlatCode(db: Reader, commits: seq<EvmState>, h: B256): Result<Bytecode, DbError> {
    if commits == [] then db.code(h)
    else
      var last := commits[|commits| - 1];
      if exists a :: Deploys(last, a, h) then var a :| Deploys(last, a, h); Ok(last[a].info.code.value)
      else FlatCode(db, commits[..|commits| - 1], h)
  }

  /** Once an account has self-destructed, no later history shows a slot of the database below. */
  lemma {:induction false} DestroyedNeverShowsInner(db1: Reader, db2: Reader, commits: seq<EvmState>, a: Address,
                                                    s: Slot, i: nat)
    requires i < |commits| && Destroys(commits[i], a)
    ensures FlatStorage(db1, commits, a, s) == FlatStorage(db2, commits, a, s)
    ensures (forall j :: i < j < |commits| && Writes(commits[j], a) ==> s !in commits[j][a].storage)
            ==> FlatStorage(db1, commits, a, s) == Ok(0)
    decreases |commits|
  {
    var n := |commits| - 1;
    if i < n {
      DestroyedNeverShowsInner(db1, db2, commits[..n], a, s, i);
    }
  }
}

module ForkDb {
  import opened Types
  import opened Database

  datatype ForkStorage = ForkStorage(slots: map<Slot, Word>, dontReadFromInner: bool)

  datatype Fork = Fork(storage: map<Address, ForkStorage>, basic: map<Address, AccountInfo>, code: map<B256, Bytecode>,
                       inner: Reader)

  function New(inner: Reader): Fork {
    Fork(map[], map[], map[], inner)
  }

  // ---- reads ----

  function Basic(f: Fork, a: Address): Result<Option<AccountInfo>, DbError> {
    if a in f.basic then Ok(Some(f.basic[a])) else f.inner.basic(a)
  }

  function Storage(f: Fork, a: Address, s: Slot): Result<Word, DbError> {
    if a !in f.storage then f.inner.storage(a, s)
    else
      var own := f.storage[a];
      if s in own.slots then Ok(own.slots[s])
      else if own.dontReadFromInner then Ok(0)
      else f.inner.storage(a, s)
  }

  function Code(f: Fork, h: B256): Result<Bytecode, DbError> {
    if h in f.code then Ok(f.code[h]) else f.inner.code(h)
  }

  function BlockHash(f: Fork, n: nat): Result<B256, DbError> {
    f.inner.blockHash(n)
  }

  // ---- commits ----

  /** One account of a commit. */
  function CommitAccount(f: Fork, a: Address, account: Account): Fork {
    if !account.touched then f
    else if account.selfdestructed then
      f.(basic := f.basic[a := account.info], storage := f.storage[a := ForkStorage(map[], true)])
    else
      var own := if a in f.storage then f.storage[a] else ForkStorage(map[], false);
      f.(basic := f.basic[a := account.info],
         storage := f.storage[a := own.(slots := own.slots + account.storage)],
         code := if account.info.code.Some? then f.code[account.info.codeHash := account.info.code.value] else f.code)
  }

  function CommitInOrder(f: Fork, changes: EvmState, order: seq<Address>): Fork
    requires forall i :: 0 <= i < |order| ==> order[i] in changes
    decreases |order|
  {
    if order == [] then f
    else CommitAccount(CommitInOrder(f, changes, order[..|order| - 1]), order[|order| - 1], changes[order[|order| - 1]])
  }

  ghost predicate Enumerates(order: seq<Address>, changes: EvmState) {
    && (forall i :: 0 <= i < |order| ==> order[i] in changes)
    && (forall a :: a in changes ==> a in order)
    && (forall i, j :: 0 <= i < j < |order| ==> order[i] != order[j])
  }

  lemma {:induction false} CommitKeepsInner(f: Fork, changes: EvmState, order: seq<Address>)
    requires forall i :: 0 <= i < |order| ==> order[i] in changes
    ensures CommitInOrder(f, changes, order).inner == f.inner
    decreases |order|
  {
    if order != [] {
      CommitKeepsInner(f, changes, order[..|order| - 1]);
    }
  }

  ghost predicate DeployedIn(changes: EvmState, order: seq<Address>, h: B256) {
    exists a :: a in order && Deploys(changes, a, h)
  }

  /** What one account's layer becomes. */
  function Layer(f: Fork, a: Address, account: Account): ForkStorage {
    if account.selfdestructed then ForkStorage(map[], true)
    else
      var own := if a in f.storage then f.storage[a] else ForkStorage(map[], false);
      own.(slots := own.slots + account.storage)
  }

  ghost predicate Touched(changes: EvmState, order: seq<Address>, a: Address) {
    a in order && a in changes && changes[a].touched
  }

  /** The account infos after a commit, key by key. */
  lemma {:induction false} CommitBasicShape(f: Fork, changes: EvmState, order: seq<Address>, a: Address)
    requires forall i :: 0 <= i < |order| ==> order[i] in changes
    ensures var g := CommitInOrder(f, changes, order);
      && (a in g.basic <==> a in f.basic || Touched(changes, order, a))
      && (a in g.basic ==> g.basic[a] == if Touched(changes, order, a) then changes[a].info else f.basic[a])
    decreases |order|
  {
    if order != [] {
      var n := |order| - 1;
      CommitBasicShape(f, changes, order[..n], a);
      assert order == order[..n] + [order[n]];
    }
  }

  /** The storage layers after a commit, key by key. */
  lemma {:induction false} CommitStorageShape(f: Fork, changes: EvmState, order: seq<Address>, a: Address)
    requires forall i :: 0 <= i < |order| ==> order[i] in changes
    requires forall i, j :: 0 <= i < j < |order| ==> order[i] != order[j]
    ensures var g := CommitInOrder(f, changes, order);
      && (a in g.storage <==> a in f.storage || Touched(changes, order, a))
      && (a in g.storage ==>
            g.storage[a] == if Touched(changes, order, a) then Layer(f, a, changes[a]) else f.storage[a])
    decreases |order|
  {
    if order != [] {
      var n := |order| - 1;
      var front, last := order[..n], order[n];
      assert order == front + [last];
      assert last !in front;
      CommitStorageShape(f, changes, front, a);
    }
  }

  /** The code map after a commit, key by key. */
  lemma {:induction false} CommitCodeShape(f: Fork, changes: EvmState, order: seq<Address>, h: B256)
    requires forall i :: 0 <= i < |order| ==> order[i] in changes
    requires HashesIdentifyCode(changes)
    ensures var g := CommitInOrder(f, changes, order);
      && (h in g.code <==> h in f.code || DeployedIn(changes, order, h))
      && (!DeployedIn(changes, order, h) && h in f.code ==> g.code[h] == f.code[h])
      && (forall b :: b in order && Deploys(changes, b, h) ==> h in g.code && g.code[h] == changes[b].info.code.value)
    decreases |order|
  {
    if order != [] {
      var n := |order| - 1;
      var front, last := order[..n], order[n];
      assert order == front + [last];
      CommitCodeShape(f, changes, front, h);
      DeployedSnoc(changes, front, last, h);
    }
  }

  lemma DeployedSnoc(changes: EvmState, front: seq<Address>, last: Address, h: B256)
    ensures DeployedIn(changes, front + [last], h) <==> DeployedIn(changes, front, h) || Deploys(changes, last, h)
  {
    if DeployedIn(changes, front, h) {
      var a :| a in front && Deploys(changes, a, h);
      assert a in front + [last];
    }
    if Deploys(changes, last, h) {
      assert last in front + [last];
    }
  }

  /** What a commit makes of each read. */
  lemma CommitReads(f: Fork, changes: EvmState, order: seq<Address>, a: Address, s: Slot)
    requires Enumerates(order, changes)
    ensures var g := CommitInOrder(f, changes, order);
      && g.inner == f.inner
      && Basic(g, a) == (if Writes(changes, a) then Ok(Some(changes[a].info)) else Basic(f, a))
      && Storage(g, a, s) == (if Destroys(changes, a) then Ok(0)
                              else if Writes(changes, a) && s in changes[a].storage then Ok(changes[a].storage[s])
                              else Storage(f, a, s))
  {
    CommitBasicShape(f, changes, order, a);
    CommitStorageShape(f, changes, order, a);
    CommitKeepsInner(f, changes, order);
  }

  lemma CommitCode(f: Fork, changes: EvmState, order: seq<Address>, h: B256)
    requires Enumerates(order, changes) && HashesIdentifyCode(changes)
    ensures var g := CommitInOrder(f, changes, order);
      && ((forall a :: !Deploys(changes, a, h)) ==> Code(g, h) == Code(f, h))
      && (forall a :: Deploys(changes, a, h) ==> Code(g, h) == Ok(changes[a].info.code.value))
  {
    CommitCodeShape(f, changes, order, h);
    CommitKeepsInner(f, changes, order);
    assert forall a :: Deploys(changes, a, h) ==> a in order;
  }

  /** A commit does not depend on the order in which the hash map yields its accounts. */
  lemma CommitOrderIrrelevant(f: Fork, changes: EvmState, o1: seq<Address>, o2: seq<Address>)
    requires Enumerates(o1, changes) && Enumerates(o2, changes) && HashesIdentifyCode(changes)
    ensures CommitInOrder(f, changes, o1) == CommitInOrder(f, changes, o2)
  {
    var g1, g2 := CommitInOrder(f, changes, o1), CommitInOrder(f, changes, o2);
    forall a: Address
      ensures (a in g1.basic <==> a in g2.basic) && (a in g1.basic ==> g1.basic[a] == g2.basic[a])
      ensures (a in g1.storage <==> a in g2.storage) && (a in g1.storage ==> g1.storage[a] == g2.storage[a])
    {
      CommitBasicShape(f, changes, o1, a);
      CommitBasicShape(f, changes, o2, a);
      CommitStorageShape(f, changes, o1, a);
      CommitStorageShape(f, changes, o2, a);
    }
    forall h: B256
      ensures (h in g1.code <==> h in g2.code) && (h in g1.code ==> g1.code[h] == g2.code[h])
    {
      SameCode(f, changes, o1, o2, h);
    }
    assert g1.basic == g2.basic;
    assert g1.storage == g2.storage;
    assert g1.code == g2.code;
    CommitKeepsInner(f, changes, o1);
    CommitKeepsInner(f, changes, o2);
  }

  lemma DeployedAnywhere(changes: EvmState, order: seq<Address>, h: B256)
    requires Enumerates(order, changes)
    ensures DeployedIn(changes, order, h) <==> exists a :: Deploys(changes, a, h)
  {
    if a :| Deploys(changes, a, h) {
      assert a in order;
    }
  }

  lemma SameCode(f: Fork, changes: EvmState, o1: seq<Address>, o2: seq<Address>, h: B256)
    requires Enumerates(o1, changes) && Enumerates(o2, changes) && HashesIdentifyCode(changes)
    ensures var g1, g2 := CommitInOrder(f, changes, o1), CommitInOrder(f, changes, o2);
      (h in g1.code <==> h in g2.code) && (h in g1.code ==> g1.code[h] == g2.code[h])
  {
    CommitCodeShape(f, changes, o1, h);
    CommitCodeShape(f, changes, o2, h);
    DeployedAnywhere(changes, o1, h);
    DeployedAnywhere(changes, o2, h);
    if b :| Deploys(changes, b, h) {
      assert b in o1 && b in o2;
    }
  }

  // ---- runs of commits ----

  /** A commit together with the order in which the hash map yields its accounts. */
  datatype Ordered = Ordered(changes: EvmState, order: seq<Address>)

  ghost predicate Valid(c: Ordered) {
    Enumerates(c.order, c.changes) && HashesIdentifyCode(c.changes)
  }

  function Changes(commits: seq<Ordered>): seq<EvmState> {
    seq(|commits|, i requires 0 <= i < |commits| => commits[i].changes)
  }

  ghost function CommitAll(f: Fork, commits: seq<Ordered>): Fork
    requires forall i :: 0 <= i < |commits| ==> Valid(commits[i])
    decreases |commits|
  {
    if commits == [] then f
    else
      var c := commits[|commits| - 1];
      assert Valid(c);
      CommitInOrder(CommitAll(f, commits[..|commits| - 1]), c.changes, c.order)
  }

  /** Over every sequence of commits, each in any account order, the layered database reads like the flat one. */
  lemma {:induction false} RefinesFlat(db: Reader, commits: seq<Ordered>, a: Address, s: Slot, h: B256)
    requires forall i :: 0 <= i < |commits| ==> Valid(commits[i])
    ensures var f := CommitAll(New(db), commits);
      && Basic(f, a) == FlatBasic(db, Changes(commits), a)
      && Storage(f, a, s) == FlatStorage(db, Changes(commits), a, s)
      && Code(f, h) == FlatCode(db, Changes(commits), h)
      && f.inner == db && forall n: nat :: BlockHash(f, n) == db.blockHash(n)
    decreases |commits|
  {
    if commits != [] {
      var n := |commits| - 1;
      var c, front := commits[n], commits[..n];
      RefinesFlat(db, front, a, s, h);
      assert Changes(commits)[..n] == Changes(front);
      var f := CommitAll(New(db), front);
      CommitReads(f, c.changes, c.order, a, s);
      CommitCode(f, c.changes, c.order, h);
    }
  }

  /** After a self-destruct a re-created account never shows a slot of the inner database again. */
  lemma RecreationHidesInner(db1: Reader, db2: Reader, commits: seq<Ordered>, a: Address, s: Slot, i: nat)
    requires forall k :: 0 <= k < |commits| ==> Valid(commits[k])
    requires i < |commits| && Destroys(commits[i].changes, a)
    ensures Storage(CommitAll(New(db1), commits), a, s) == Storage(CommitAll(New(db2), commits), a, s)
    ensures (forall j :: i < j < |commits| && Writes(commits[j].changes, a) ==> s !in commits[j].changes[a].storage)
            ==> Storage(CommitAll(New(db1), commits), a, s) == Ok(0)
  {
    RefinesFlat(db1, commits, a, s, 0);
    RefinesFlat(db2, commits, a, s, 0);
    DestroyedNeverShowsInner(db1, db2, Changes(commits), a, s, i);
  }

  // ---- the database object ----

  class ForkDatabase {
    var storage: map<Address, ForkStorage>
    var basic: map<Address, AccountInfo>
    var code: map<B256, Bytecode>
    var inner: Reader

    /** A copy of the database's present contents. */
    function State(): Fork
      reads this
    {
      Fork(storage, basic, code, inner)
    }

    constructor (db: Reader)
      ensures State() == New(db)
    {
      storage, basic, code, inner := map[], map[], map[], db;
    }

    /** Commits the accounts in whatever order the map yields them. */
    method Commit(changes: EvmState) returns (ghost order: seq<Address>)
      modifies this
      ensures Enumerates(order, changes)
      ensures State() == CommitInOrder(old(State()), changes, order)
    {
      order := [];
      var left := changes.Keys;
      while left != {}
        invariant left <= changes.Keys
        invariant forall a :: a in order <==> a in changes && a !in left
        invariant forall i, j :: 0 <= i < j < |order| ==> order[i] != order[j]
        invariant forall i :: 0 <= i < |order| ==> order[i] in changes
        invariant State() == CommitInOrder(old(State()), changes, order)
        decreases |left|
      {
        var a :| a in left;
        var account := changes[a];
        left := left - {a};
        assert (order + [a])[..|order|] == order;
        order := order + [a];
        if !account.touched {
          continue;
        }
        basic := basic[a := account.info];
        if account.selfdestructed {
          storage := storage[a := ForkStorage(map[], true)];
          continue;
        }
        if account.info.code.Some? {
          code := code[account.info.codeHash := account.info.code.value];
        }
        var own := if a in storage then storage[a] else ForkStorage(map[], false);
        storage := storage[a := own.(slots := own.slots + account.storage)];
      }
    }

    method ReplaceInnerDb(db: Reader) returns (previous: Reader)
      modifies this
      ensures State() == old(State()).(inner := db) && previous == old(inner)
    {
      previous := inner;
      inner := db;
    }

    method InsertAccountInfo(a: Address, info: AccountInfo)
      modifies this
      ensures State() == old(State()).(basic := old(basic)[a := info])
    {
      basic := basic[a := info];
    }
  }
}
