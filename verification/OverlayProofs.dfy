/** The cache is invisible to reads, and commits to it compare with commits to a fork database. */
module OverlayProofs {
  import opened Types
  import opened Database
  import opened Overlay
  import ForkDb

  // ---- reads under arbitrary eviction ----

  /** Readers whose reads would put the same into the cache: the same values, and nothing in the same places. */
  ghost predicate Agreeing(dbs: seq<Reader>) {
    forall i, j, k :: 0 <= i < |dbs| && 0 <= j < |dbs| ==> Fetched(dbs[i], k) == Fetched(dbs[j], k)
  }

  datatype CacheStep = ReadStep(who: nat, key: TableKey) | EvictStep(victims: set<TableKey>)

  /** The shared cache after reads by any of the overlays, with entries disappearing at any time. */
  function CacheRun(dbs: seq<Reader>, steps: seq<CacheStep>): Entries {
    if steps == [] then map[]
    else
      var cache := CacheRun(dbs, steps[..|steps| - 1]);
      match steps[|steps| - 1]
      case ReadStep(who, k) => if who < |dbs| then Filled(cache, Some(dbs[who]), k) else cache
      case EvictStep(victims) => cache - victims
  }

  /** The same on objects: overlays created from one parent, all on its cache. */
  method PlayCacheRun(dbs: seq<Reader>, steps: seq<CacheStep>) returns (cache: Cache)
    ensures fresh(cache) && cache.entries == CacheRun(dbs, steps)
  {
    cache := new Cache();
    var parent := new OverlayDb(None, cache);
    var overlays: seq<OverlayDb> := [];
    for i := 0 to |dbs|
      invariant |overlays| == i && cache.entries == map[]
      invariant forall k :: 0 <= k < i ==> overlays[k].cache == cache && overlays[k].underlying == Some(dbs[k])
    {
      var overlay := parent.CreateOverlay(dbs[i]);
      overlays := overlays + [overlay];
    }
    for i := 0 to |steps|
      invariant cache.entries == CacheRun(dbs, steps[..i]) && WellTyped(cache.entries)
      invariant forall k :: 0 <= k < |dbs| ==> overlays[k].cache == cache && overlays[k].underlying == Some(dbs[k])
    {
      assert steps[..i + 1][..i] == steps[..i];
      match steps[i] {
        case ReadStep(who, k) =>
          if who < |dbs| {
            overlays[who].ReadKey(k);
          }
        case EvictStep(victims) =>
          cache.Evict(victims);
      }
    }
    assert steps[..|steps|] == steps;
  }

  ghost predicate Coherent(dbs: seq<Reader>, cache: Entries) {
    forall k, i :: k in cache && 0 <= i < |dbs| ==> Fetched(dbs[i], k) == Some(cache[k])
  }

  lemma {:induction false} RunCoherent(dbs: seq<Reader>, steps: seq<CacheStep>)
    requires Agreeing(dbs)
    ensures WellTyped(CacheRun(dbs, steps)) && Coherent(dbs, CacheRun(dbs, steps))
    decreases |steps|
  {
    if steps != [] {
      RunCoherent(dbs, steps[..|steps| - 1]);
    }
  }

  /** After any run, every overlay reads exactly what its own database returns. */
  lemma ReadsAreTransparent(dbs: seq<Reader>, steps: seq<CacheStep>, i: nat, a: Address, s: Slot, h: B256, n: nat)
    requires Agreeing(dbs) && i < |dbs|
    ensures var cache := CacheRun(dbs, steps); var db := Some(dbs[i]);
      && WellTyped(cache)
      && BasicOf(cache, db, a) == Mapped(dbs[i].basic(a))
      && StorageOf(cache, db, a, s) == Mapped(dbs[i].storage(a, s))
      && CodeOf(cache, db, h) == Mapped(dbs[i].code(h))
      && BlockHashOf(cache, db, n) == Mapped(dbs[i].blockHash(n))
  {
    RunCoherent(dbs, steps);
    var cache := CacheRun(dbs, steps);
    assert KBasic(a) in cache ==> Fetched(dbs[i], KBasic(a)) == Some(cache[KBasic(a)]);
    assert KStorage(a, s) in cache ==> Fetched(dbs[i], KStorage(a, s)) == Some(cache[KStorage(a, s)]);
    assert KCode(h) in cache ==> Fetched(dbs[i], KCode(h)) == Some(cache[KCode(h)]);
    assert KBlockHash(n) in cache ==> Fetched(dbs[i], KBlockHash(n)) == Some(cache[KBlockHash(n)]);
  }

  /** The same in terms of what the database returns: its value where it returns one, and an error where it does not. */
  lemma ReadsReturnTheDatabases(dbs: seq<Reader>, steps: seq<CacheStep>, i: nat, a: Address, s: Slot, h: B256, n: nat)
    requires Agreeing(dbs) && i < |dbs|
    ensures var cache := CacheRun(dbs, steps); var db := Some(dbs[i]);
      && WellTyped(cache)
      && BasicOf(cache, db, a) == (match dbs[i].basic(a) case Ok(v) => Ok(v) case Err(_) => Err(NotFound))
      && StorageOf(cache, db, a, s) == (match dbs[i].storage(a, s) case Ok(v) => Ok(v) case Err(_) => Err(NotFound))
      && CodeOf(cache, db, h) == (match dbs[i].code(h) case Ok(v) => Ok(v) case Err(_) => Err(NotFound))
      && BlockHashOf(cache, db, n) == (match dbs[i].blockHash(n) case Ok(v) => Ok(v) case Err(_) => Err(NotFound))
  {
    ReadsAreTransparent(dbs, steps, i, a, s, h, n);
  }

  /** A value that one overlay has read is there for every other overlay on the same cache, whatever its own
      database holds; a failed read and an absent account leave nothing behind, and no read touches another key. */
  lemma ReadsAreShared(cache: Entries, db: Reader, other: Option<Reader>, a: Address, s: Slot, h: B256, n: nat)
    requires WellTyped(cache)
    ensures var r := BasicOf(cache, Some(db), a); var after := Filled(cache, Some(db), KBasic(a));
      && (r.Ok? && r.value.Some? ==> BasicOf(after, other, a) == r)
      && (r.Err? || r.value.None? ==> after == cache)
    ensures var r := StorageOf(cache, Some(db), a, s); var after := Filled(cache, Some(db), KStorage(a, s));
      && WellTyped(after) && (if r.Ok? then StorageOf(after, other, a, s) == r else after == cache)
    ensures var r := CodeOf(cache, Some(db), h); var after := Filled(cache, Some(db), KCode(h));
      && WellTyped(after) && (if r.Ok? then CodeOf(after, other, h) == r else after == cache)
    ensures var r := BlockHashOf(cache, Some(db), n); var after := Filled(cache, Some(db), KBlockHash(n));
      && WellTyped(after) && (if r.Ok? then BlockHashOf(after, other, n) == r else after == cache)
    ensures forall k, k' :: k != k' ==>
      var after := Filled(cache, Some(db), k);
      (k' in after <==> k' in cache) && (k' in cache ==> after[k'] == cache[k'])
  {
  }

  /** Without a database, what is not cached reads as absent: no account, a zero slot, and no code or block hash. */
  lemma ReadsWithoutDatabase(cache: Entries, a: Address, s: Slot, h: B256, n: nat)
    requires WellTyped(cache)
    ensures KBasic(a) !in cache ==> BasicOf(cache, None, a) == Ok(None)
    ensures KStorage(a, s) !in cache ==> StorageOf(cache, None, a, s) == Ok(0)
    ensures KCode(h) !in cache ==> CodeOf(cache, None, h) == Err(NotFound)
    ensures KBlockHash(n) !in cache ==> BlockHashOf(cache, None, n) == Err(NotFound)
    ensures forall k :: Filled(cache, None, k) == cache
  {
  }

  // ---- reads, commits and eviction of entries that no commit wrote ----

  datatype OverlayStep = Look(key: TableKey) | Save(commit: ForkDb.Ordered) | Drop(victims: set<TableKey>)

  function Saved(steps: seq<OverlayStep>): seq<ForkDb.Ordered> {
    if steps == [] then []
    else
      var n := |steps| - 1;
      Saved(steps[..n]) + if steps[n].Save? then [steps[n].commit] else []
  }

  ghost predicate ValidSteps(steps: seq<OverlayStep>) {
    forall i :: 0 <= i < |steps| && steps[i].Save? ==> ForkDb.Valid(steps[i].commit)
  }

  /** A commit puts something under the key. */
  ghost predicate WritesKey(changes: EvmState, k: TableKey) {
    match k
    case KBasic(a) => Writes(changes, a)
    case KStorage(a, s) => Writes(changes, a) && s in changes[a].storage
    case KCode(h) => exists a :: Writes(changes, a) && changes[a].info.code.Some? && changes[a].info.codeHash == h
    case KBlockHash(_) => false
  }

  ghost predicate Committed(commits: seq<ForkDb.Ordered>, k: TableKey) {
    exists i :: 0 <= i < |commits| && WritesKey(commits[i].changes, k)
  }

  ghost predicate Spares(commits: seq<ForkDb.Ordered>, victims: set<TableKey>) {
    forall k :: k in victims ==> !Committed(commits, k)
  }

  /** Whatever disappears from the cache, at any time and as often as it likes, was not committed before. */
  ghost predicate SparesCommitted(steps: seq<OverlayStep>)
    decreases |steps|
  {
    steps == [] ||
    var n := |steps| - 1;
    SparesCommitted(steps[..n]) && (steps[n].Drop? ==> Spares(Saved(steps[..n]), steps[n].victims))
  }

  ghost function OverlayRun(db: Reader, steps: seq<OverlayStep>): Entries
    requires ValidSteps(steps)
    decreases |steps|
  {
    if steps == [] then map[]
    else
      var n := |steps| - 1;
      var cache := OverlayRun(db, steps[..n]);
      match steps[n]
      case Look(k) => Filled(cache, Some(db), k)
      case Save(c) => assert ForkDb.Valid(c); CommitInOrder(cache, c.changes, c.order)
      case Drop(victims) => cache - victims
  }

  /** The flat meaning of overlay commits: as for the fork database, but blind to self-destruction. */
  ghost function BlindStorage(db: Reader, commits: seq<EvmState>, a: Address, s: Slot): Result<Word, DbError> {
    if commits == [] then db.storage(a, s)
    else
      var last := commits[|commits| - 1];
      if Writes(last, a) && s in last[a].storage then Ok(last[a].storage[s])
      else BlindStorage(db, commits[..|commits| - 1], a, s)
  }

  lemma FilledKeepsReads(cache: Entries, db: Reader, k: TableKey, a: Address, s: Slot)
    requires WellTyped(cache)
    ensures var cache' := Filled(cache, Some(db), k);
      && WellTyped(cache')
      && BasicOf(cache', Some(db), a) == BasicOf(cache, Some(db), a)
      && StorageOf(cache', Some(db), a, s) == StorageOf(cache, Some(db), a, s)
  {
  }

  lemma {:induction false} CommitReads(cache: Entries, db: Option<Reader>, changes: EvmState, order: seq<Address>,
                                       a: Address, s: Slot)
    requires WellTyped(cache) && forall i :: 0 <= i < |order| ==> order[i] in changes
    requires forall i, j :: 0 <= i < j < |order| ==> order[i] != order[j]
    ensures var cache' := CommitInOrder(cache, changes, order);
      && WellTyped(cache')
      && BasicOf(cache', db, a) == (if a in order && changes[a].touched then Ok(Some(changes[a].info))
                                    else BasicOf(cache, db, a))
      && StorageOf(cache', db, a, s) == (if a in order && changes[a].touched && s in changes[a].storage
                                         then Ok(changes[a].storage[s]) else StorageOf(cache, db, a, s))
    decreases |order|
  {
    if order != [] {
      var n := |order| - 1;
      CommitReads(cache, db, changes, order[..n], a, s);
      assert order == order[..n] + [order[n]];
      assert forall i :: 0 <= i < n ==> order[..n][i] == order[i];
      CommitAccountReads(CommitInOrder(cache, changes, order[..n]), db, order[n], changes[order[n]], a, s);
    }
  }

  lemma CommitAccountReads(cache: Entries, db: Option<Reader>, b: Address, account: Account, a: Address, s: Slot)
    requires WellTyped(cache)
    ensures var cache' := CommitAccount(cache, b, account);
      && WellTyped(cache')
      && BasicOf(cache', db, a) == (if a == b && account.touched then Ok(Some(account.info)) else BasicOf(cache, db, a))
      && StorageOf(cache', db, a, s) == (if a == b && account.touched && s in account.storage
                                         then Ok(account.storage[s]) else StorageOf(cache, db, a, s))
  {
    assert StoresSlot(KStorage(a, s), b, account.storage) <==> a == b && s in account.storage;
    assert !StoresSlot(KBasic(a), b, account.storage);
  }

  lemma {:induction false} CommitKeepsKey(cache: Entries, changes: EvmState, order: seq<Address>, k: TableKey)
    requires (forall i :: 0 <= i < |order| ==> order[i] in changes) && !WritesKey(changes, k)
    ensures var cache' := CommitInOrder(cache, changes, order);
      (k in cache' <==> k in cache) && (k in cache ==> cache'[k] == cache[k])
    decreases |order|
  {
    if order != [] {
      var n := |order| - 1;
      CommitKeepsKey(cache, changes, order[..n], k);
      assert !StoresSlot(k, order[n], changes[order[n]].storage) || !changes[order[n]].touched;
    }
  }

  /** What no commit wrote is in the cache only as the database returns it. */
  lemma {:induction false} UncommittedIsFetched(db: Reader, steps: seq<OverlayStep>, k: TableKey)
    requires ValidSteps(steps) && k in OverlayRun(db, steps) && !Committed(Saved(steps), k)
    ensures Fetched(db, k) == Some(OverlayRun(db, steps)[k])
    decreases |steps|
  {
    if steps != [] {
      var n := |steps| - 1;
      var front := steps[..n];
      var saved := Saved(front);
      assert Saved(steps)[..|saved|] == saved;
      assert forall i :: 0 <= i < |saved| ==> Saved(steps)[i] == saved[i];
      if steps[n].Save? {
        var c := steps[n].commit;
        assert ForkDb.Valid(c);
        assert Saved(steps)[|saved|] == c;
        CommitKeepsKey(OverlayRun(db, front), c.changes, c.order, k);
      }
      if k in OverlayRun(db, front) {
        UncommittedIsFetched(db, front, k);
      }
    }
  }

  /** Entries that disappear without having been committed are read again as they were. */
  lemma DropKeepsReads(db: Reader, steps: seq<OverlayStep>, victims: set<TableKey>, a: Address, s: Slot)
    requires ValidSteps(steps) && WellTyped(OverlayRun(db, steps)) && Spares(Saved(steps), victims)
    ensures var cache := OverlayRun(db, steps);
      && WellTyped(cache - victims)
      && BasicOf(cache - victims, Some(db), a) == BasicOf(cache, Some(db), a)
      && StorageOf(cache - victims, Some(db), a, s) == StorageOf(cache, Some(db), a, s)
  {
    var cache := OverlayRun(db, steps);
    forall k | k in victims && k in cache ensures Fetched(db, k) == Some(cache[k]) {
      UncommittedIsFetched(db, steps, k);
    }
    assert KBasic(a) in victims && KBasic(a) in cache ==> Fetched(db, KBasic(a)) == Some(cache[KBasic(a)]);
    assert KStorage(a, s) in victims && KStorage(a, s) in cache ==>
      Fetched(db, KStorage(a, s)) == Some(cache[KStorage(a, s)]);
  }

  /** Over every run of reads, commits and evictions that spare what was committed, the overlay reads like its
      flat meaning. */
  lemma {:induction false} OverlayRefinesBlindFlat(db: Reader, steps: seq<OverlayStep>, a: Address, s: Slot)
    requires ValidSteps(steps) && SparesCommitted(steps)
    ensures var cache := OverlayRun(db, steps); var commits := ForkDb.Changes(Saved(steps));
      && WellTyped(cache)
      && BasicOf(cache, Some(db), a) == Mapped(FlatBasic(db, commits, a))
      && StorageOf(cache, Some(db), a, s) == Mapped(BlindStorage(db, commits, a, s))
    decreases |steps|
  {
    if steps != [] {
      var n := |steps| - 1;
      var front := steps[..n];
      OverlayRefinesBlindFlat(db, front, a, s);
      var cache := OverlayRun(db, front);
      match steps[n]
      case Look(k) =>
        FilledKeepsReads(cache, db, k, a, s);
        assert Saved(steps) == Saved(front);
      case Drop(victims) =>
        DropKeepsReads(db, front, victims, a, s);
        assert Saved(steps) == Saved(front);
      case Save(c) =>
        assert ForkDb.Valid(c);
        CommitReads(cache, Some(db), c.changes, c.order, a, s);
        assert ForkDb.Changes(Saved(steps)) == ForkDb.Changes(Saved(front)) + [c.changes];
        FlatSnoc(db, ForkDb.Changes(Saved(front)), c.changes, a, s);
    }
  }

  lemma FlatSnoc(db: Reader, commits: seq<EvmState>, last: EvmState, a: Address, s: Slot)
    ensures FlatBasic(db, commits + [last], a)
         == if Writes(last, a) then Ok(Some(last[a].info)) else FlatBasic(db, commits, a)
    ensures BlindStorage(db, commits + [last], a, s)
         == if Writes(last, a) && s in last[a].storage then Ok(last[a].storage[s]) else BlindStorage(db, commits, a, s)
  {
    assert (commits + [last])[..|commits|] == commits;
  }

  // ---- code ----

  ghost predicate DestroysNothing(changes: EvmState) {
    forall a :: !Destroys(changes, a)
  }

  lemma CommitAccountCode(cache: Entries, db: Option<Reader>, b: Address, account: Account, h: B256)
    requires WellTyped(cache) && WellTyped(CommitAccount(cache, b, account))
    ensures CodeOf(CommitAccount(cache, b, account), db, h)
         == if account.touched && account.info.code.Some? && account.info.codeHash == h then Ok(account.info.code.value)
            else CodeOf(cache, db, h)
  {
    assert !StoresSlot(KCode(h), b, account.storage);
  }

  lemma {:induction false} CommitCode(cache: Entries, db: Option<Reader>, changes: EvmState, order: seq<Address>,
                                      h: B256)
    requires WellTyped(cache) && forall i :: 0 <= i < |order| ==> order[i] in changes
    requires forall i, j :: 0 <= i < j < |order| ==> order[i] != order[j]
    requires HashesIdentifyCode(changes) && DestroysNothing(changes)
    ensures var cache' := CommitInOrder(cache, changes, order);
      && WellTyped(cache')
      && (!ForkDb.DeployedIn(changes, order, h) ==> CodeOf(cache', db, h) == CodeOf(cache, db, h))
      && (forall a :: a in order && Deploys(changes, a, h) ==> CodeOf(cache', db, h) == Ok(changes[a].info.code.value))
    decreases |order|
  {
    CommitReads(cache, db, changes, order, 0, 0);
    if order != [] {
      var n := |order| - 1;
      var front, last := order[..n], order[n];
      assert forall i :: 0 <= i < n ==> front[i] == order[i];
      CommitCode(cache, db, changes, front, h);
      assert order == front + [last];
      CommitAccountCode(CommitInOrder(cache, changes, front), db, last, changes[last], h);
      assert !Destroys(changes, last);
      if !ForkDb.DeployedIn(changes, order, h) {
        assert !Deploys(changes, last, h);
        assert forall a :: a in front ==> a in order;
      }
    }
  }

  lemma DropKeepsCode(db: Reader, steps: seq<OverlayStep>, victims: set<TableKey>, h: B256)
    requires ValidSteps(steps) && WellTyped(OverlayRun(db, steps)) && Spares(Saved(steps), victims)
    ensures CodeOf(OverlayRun(db, steps) - victims, Some(db), h) == CodeOf(OverlayRun(db, steps), Some(db), h)
  {
    if KCode(h) in victims && KCode(h) in OverlayRun(db, steps) {
      UncommittedIsFetched(db, steps, KCode(h));
    }
  }

  lemma {:induction false} OverlayCodeRefinesFlat(db: Reader, steps: seq<OverlayStep>, h: B256)
    requires ValidSteps(steps) && SparesCommitted(steps)
    requires forall i :: 0 <= i < |steps| && steps[i].Save? ==> DestroysNothing(steps[i].commit.changes)
    ensures WellTyped(OverlayRun(db, steps))
    ensures CodeOf(OverlayRun(db, steps), Some(db), h) == Mapped(FlatCode(db, ForkDb.Changes(Saved(steps)), h))
    decreases |steps|
  {
    OverlayRefinesBlindFlat(db, steps, 0, 0);
    if steps != [] {
      var n := |steps| - 1;
      var front := steps[..n];
      OverlayCodeRefinesFlat(db, front, h);
      match steps[n]
      case Look(k) =>
        assert Saved(steps) == Saved(front);
      case Drop(victims) =>
        DropKeepsCode(db, front, victims, h);
        assert Saved(steps) == Saved(front);
      case Save(c) =>
        assert ForkDb.Valid(c);
        CommitCode(OverlayRun(db, front), Some(db), c.changes, c.order, h);
        var before := ForkDb.Changes(Saved(front));
        assert ForkDb.Changes(Saved(steps)) == before + [c.changes];
        assert (before + [c.changes])[..|before|] == before;
        assert forall b :: Deploys(c.changes, b, h) ==> b in c.order;
    }
  }

  // ---- against the fork database ----

  lemma {:induction false} SlotAbove(slots: set<Slot>) returns (s: Slot)
    ensures forall x :: x in slots ==> x < s
  {
    if slots == {} {
      s := 0;
    } else {
      var x :| x in slots;
      var t := SlotAbove(slots - {x});
      s := if x < t then t else x + 1;
      assert forall y :: y in slots ==> y == x || y in slots - {x};
    }
  }

  /** Some slot of an account is in no commit, because commits are finite. */
  lemma {:induction false} UnwrittenSlot(commits: seq<EvmState>, a: Address) returns (s: Slot)
    ensures forall i :: 0 <= i < |commits| && Writes(commits[i], a) ==> forall x :: x in commits[i][a].storage ==> x < s
    decreases |commits|
  {
    if commits == [] {
      s := 0;
    } else {
      var n := |commits| - 1;
      s := UnwrittenSlot(commits[..n], a);
      var last := commits[n];
      if Writes(last, a) {
        var t := SlotAbove(last[a].storage.Keys);
        s := if s < t then t else s;
      }
    }
  }

  lemma {:induction false} BlindWithoutWrites(db: Reader, commits: seq<EvmState>, a: Address, s: Slot)
    requires forall i :: 0 <= i < |commits| && Writes(commits[i], a) ==> s !in commits[i][a].storage
    ensures BlindStorage(db, commits, a, s) == db.storage(a, s)
    decreases |commits|
  {
    if commits != [] {
      BlindWithoutWrites(db, commits[..|commits| - 1], a, s);
    }
  }

  lemma {:induction false} BlindIsFlat(db: Reader, commits: seq<EvmState>, a: Address, s: Slot)
    requires forall i :: 0 <= i < |commits| ==> !Destroys(commits[i], a)
    ensures BlindStorage(db, commits, a, s) == FlatStorage(db, commits, a, s)
    decreases |commits|
  {
    if commits != [] {
      BlindIsFlat(db, commits[..|commits| - 1], a, s);
    }
  }

  /** A database in which every slot holds one. */
  function AllOnes(): Reader {
    Reader((a: Address) => Ok(None), (a: Address, s: Slot) => Ok(1), (h: B256) => Ok(0), (n: nat) => Ok(0))
  }

  ghost predicate SameSlot(db: Reader, steps: seq<OverlayStep>, a: Address, s: Slot)
    requires ValidSteps(steps) && forall i :: 0 <= i < |Saved(steps)| ==> ForkDb.Valid(Saved(steps)[i])
  {
    var cache := OverlayRun(db, steps);
    (KStorage(a, s) in cache ==> cache[KStorage(a, s)].VStorage?) &&
    StorageOf(cache, Some(db), a, s) == Mapped(ForkDb.Storage(ForkDb.CommitAll(ForkDb.New(db), Saved(steps)), a, s))
  }

  lemma {:induction false} SavedValid(steps: seq<OverlayStep>)
    requires ValidSteps(steps)
    ensures forall i :: 0 <= i < |Saved(steps)| ==> ForkDb.Valid(Saved(steps)[i])
    decreases |steps|
  {
    if steps != [] {
      SavedValid(steps[..|steps| - 1]);
    }
  }

  lemma SameSlotMeans(db: Reader, steps: seq<OverlayStep>, a: Address, s: Slot)
    requires ValidSteps(steps) && SparesCommitted(steps)
    requires forall i :: 0 <= i < |Saved(steps)| ==> ForkDb.Valid(Saved(steps)[i])
    ensures var commits := ForkDb.Changes(Saved(steps));
      SameSlot(db, steps, a, s) <==> Mapped(BlindStorage(db, commits, a, s)) == Mapped(FlatStorage(db, commits, a, s))
  {
    OverlayRefinesBlindFlat(db, steps, a, s);
    ForkDb.RefinesFlat(db, Saved(steps), a, s, 0);
  }

  /** Without self-destructs the overlay answers account, storage and code reads like a fork database that
      received the same commits, over the same underlying database. */
  lemma OverlayAgreesWithFork(db: Reader, steps: seq<OverlayStep>, a: Address, s: Slot, h: B256)
    requires ValidSteps(steps) && SparesCommitted(steps)
    requires forall i :: 0 <= i < |steps| && steps[i].Save? ==> DestroysNothing(steps[i].commit.changes)
    ensures forall i :: 0 <= i < |Saved(steps)| ==> ForkDb.Valid(Saved(steps)[i])
    ensures var cache := OverlayRun(db, steps); var fork := ForkDb.CommitAll(ForkDb.New(db), Saved(steps));
      && WellTyped(cache)
      && BasicOf(cache, Some(db), a) == Mapped(ForkDb.Basic(fork, a))
      && StorageOf(cache, Some(db), a, s) == Mapped(ForkDb.Storage(fork, a, s))
      && CodeOf(cache, Some(db), h) == Mapped(ForkDb.Code(fork, h))
  {
    SavedValid(steps);
    SavedDestroysNothing(steps);
    OverlayRefinesBlindFlat(db, steps, a, s);
    OverlayCodeRefinesFlat(db, steps, h);
    ForkDb.RefinesFlat(db, Saved(steps), a, s, h);
    BlindIsFlat(db, ForkDb.Changes(Saved(steps)), a, s);
  }

  lemma {:induction false} SavedDestroysNothing(steps: seq<OverlayStep>)
    requires forall i :: 0 <= i < |steps| && steps[i].Save? ==> DestroysNothing(steps[i].commit.changes)
    ensures forall i :: 0 <= i < |Saved(steps)| ==> DestroysNothing(Saved(steps)[i].changes)
    decreases |steps|
  {
    if steps != [] {
      SavedDestroysNothing(steps[..|steps| - 1]);
    }
  }

  /** The exact condition: after a run the overlay agrees with the fork database on every slot of an account,
      whatever the underlying database holds, if and only if no commit of the run destroyed the account. */
  lemma StorageAgreesIffNeverDestroyed(steps: seq<OverlayStep>, a: Address)
    requires ValidSteps(steps) && SparesCommitted(steps)
    ensures forall i :: 0 <= i < |Saved(steps)| ==> ForkDb.Valid(Saved(steps)[i])
    ensures (forall db: Reader, s: Slot :: SameSlot(db, steps, a, s))
       <==> (forall i :: 0 <= i < |Saved(steps)| ==> !Destroys(Saved(steps)[i].changes, a))
  {
    SavedValid(steps);
    var commits := ForkDb.Changes(Saved(steps));
    if forall i :: 0 <= i < |Saved(steps)| ==> !Destroys(Saved(steps)[i].changes, a) {
      forall db: Reader, s: Slot ensures SameSlot(db, steps, a, s) {
        BlindIsFlat(db, commits, a, s);
        SameSlotMeans(db, steps, a, s);
      }
    } else {
      var i :| 0 <= i < |Saved(steps)| && Destroys(Saved(steps)[i].changes, a);
      var s := UnwrittenSlot(commits, a);
      var db := AllOnes();
      BlindWithoutWrites(db, commits, a, s);
      DestroyedNeverShowsInner(db, db, commits, a, s, i);
      SameSlotMeans(db, steps, a, s);
      assert !SameSlot(db, steps, a, s);
    }
  }
}
