/** The read-through cache over a database. `OverlayDb` and every `ActiveOverlay` created from it share one
    cache object; an `ActiveOverlay` is an overlay whose database is always present. */
module Overlay {
  import opened Types
  import opened Database

  datatype TableKey =
    | KBasic(address: Address) | KCode(hash: B256) | KStorage(address: Address, slot: Slot) | KBlockHash(number: nat)

  datatype TableValue =
    | VBasic(info: AccountInfo) | VCode(code: Bytecode) | VStorage(word: Word) | VBlockHash(hash: B256)

  datatype NotFound = NotFound

  type Entries = map<TableKey, TableValue>

  predicate Matches(k: TableKey, v: TableValue) {
    match k
    case KBasic(_) => v.VBasic?
    case KCode(_) => v.VCode?
    case KStorage(_, _) => v.VStorage?
    case KBlockHash(_) => v.VBlockHash?
  }

  ghost predicate WellTyped(cache: Entries) {
    forall k :: k in cache ==> Matches(k, cache[k])
  }

  /** What a read of the database would put into the cache: nothing for an absent account or an error. */
  function Fetched(db: Reader, k: TableKey): (v: Option<TableValue>)
    ensures v.Some? ==> Matches(k, v.value)
  {
    match k
    case KBasic(a) =>
      (match db.basic(a) case Ok(Some(info)) => Some(VBasic(info)) case _ => None)
    case KCode(h) =>
      (match db.code(h) case Ok(c) => Some(VCode(c)) case Err(_) => None)
    case KStorage(a, s) =>
      (match db.storage(a, s) case Ok(w) => Some(VStorage(w)) case Err(_) => None)
    case KBlockHash(n) =>
      (match db.blockHash(n) case Ok(h) => Some(VBlockHash(h)) case Err(_) => None)
  }

  /** The cache after reading a key. */
  function Filled(cache: Entries, db: Option<Reader>, k: TableKey): Entries {
    if k in cache || db.None? then cache
    else match Fetched(db.value, k) case Some(v) => cache[k := v] case None => cache
  }

  // ---- what a read returns ----

  function Mapped<T>(r: Result<T, DbError>): Result<T, NotFound> {
    match r case Ok(v) => Ok(v) case Err(_) => Err(NotFound)
  }

  function BasicOf(cache: Entries, db: Option<Reader>, a: Address): Result<Option<AccountInfo>, NotFound> {
    var k := KBasic(a);
    if k in cache then Ok(if cache[k].VBasic? then Some(cache[k].info) else None)
    else if db.None? then Ok(None) else Mapped(db.value.basic(a))
  }

  function CodeOf(cache: Entries, db: Option<Reader>, h: B256): Result<Bytecode, NotFound>
    requires KCode(h) in cache ==> cache[KCode(h)].VCode?
  {
    if KCode(h) in cache then Ok(cache[KCode(h)].code)
    else if db.None? then Err(NotFound) else Mapped(db.value.code(h))
  }

  function StorageOf(cache: Entries, db: Option<Reader>, a: Address, s: Slot): Result<Word, NotFound>
    requires KStorage(a, s) in cache ==> cache[KStorage(a, s)].VStorage?
  {
    if KStorage(a, s) in cache then Ok(cache[KStorage(a, s)].word)
    else if db.None? then Ok(0) else Mapped(db.value.storage(a, s))
  }

  function BlockHashOf(cache: Entries, db: Option<Reader>, n: nat): Result<B256, NotFound>
    requires KBlockHash(n) in cache ==> cache[KBlockHash(n)].VBlockHash?
  {
    if KBlockHash(n) in cache then Ok(cache[KBlockHash(n)].hash)
    else if db.None? then Err(NotFound) else Mapped(db.value.blockHash(n))
  }

  // ---- commits ----

  /** One account of a commit. Self-destruction is not looked at. */
  function CommitAccount(cache: Entries, a: Address, account: Account): Entries {
    if !account.touched then cache
    else
      var withInfo := cache[KBasic(a) := VBasic(account.info)];
      var withCode := if account.info.code.None? then withInfo
                      else withInfo[KCode(account.info.codeHash) := VCode(account.info.code.value)];
      withCode + SlotEntries(a, account.storage)
  }

  predicate StoresSlot(k: TableKey, a: Address, storage: map<Slot, Word>) {
    k.KStorage? && k.address == a && k.slot in storage
  }

  /** The cache entries of an account's changed slots. */
  function SlotEntries(a: Address, storage: map<Slot, Word>): (e: Entries)
    ensures forall k :: k in e <==> StoresSlot(k, a, storage)
    ensures forall k :: StoresSlot(k, a, storage) ==> k in e && e[k] == VStorage(storage[k.slot])
  {
    var keys := set s | s in storage :: KStorage(a, s);
    map k | k in keys && StoresSlot(k, a, storage) :: VStorage(storage[k.slot])
  }

  /** `now` is `before` with the slots outside `left` written. */
  ghost predicate SlotsWritten(before: Entries, now: Entries, a: Address, storage: map<Slot, Word>, left: set<Slot>) {
    && (forall k :: k in now <==> k in before || (StoresSlot(k, a, storage) && k.slot !in left))
    && (forall k :: k in now ==>
          now[k] == if StoresSlot(k, a, storage) && k.slot !in left then VStorage(storage[k.slot]) else before[k])
  }

  lemma AllSlotsWritten(before: Entries, now: Entries, a: Address, storage: map<Slot, Word>)
    requires SlotsWritten(before, now, a, storage, {})
    ensures now == before + SlotEntries(a, storage)
  {
  }

  function CommitInOrder(cache: Entries, changes: EvmState, order: seq<Address>): Entries
    requires forall i :: 0 <= i < |order| ==> order[i] in changes
    decreases |order|
  {
    if order == [] then cache
    else CommitAccount(CommitInOrder(cache, changes, order[..|order| - 1]), order[|order| - 1],
                       changes[order[|order| - 1]])
  }

  // ---- objects ----

  class Cache {
    var entries: Entries

    constructor ()
      ensures entries == map[]
    {
      entries := map[];
    }

    /** Any entries may disappear at any time. */
    method Evict(victims: set<TableKey>)
      requires WellTyped(entries)
      modifies this
      ensures entries == old(entries) - victims && WellTyped(entries)
    {
      entries := entries - victims;
    }
  }

  class OverlayDb {
    const cache: Cache
    var underlying: Option<Reader>

    constructor (db: Option<Reader>, shared: Cache)
      ensures cache == shared && underlying == db
    {
      cache, underlying := shared, db;
    }

    /** An overlay over another database that shares this one's cache. */
    method CreateOverlay(db: Reader) returns (active: OverlayDb)
      ensures fresh(active) && active.cache == cache && active.underlying == Some(db)
    {
      active := new OverlayDb(Some(db), cache);
    }

    method Basic(a: Address) returns (r: Result<Option<AccountInfo>, NotFound>)
      requires WellTyped(cache.entries)
      modifies cache
      ensures r == BasicOf(old(cache.entries), underlying, a)
      ensures cache.entries == Filled(old(cache.entries), underlying, KBasic(a)) && WellTyped(cache.entries)
    {
      var k := KBasic(a);
      if k in cache.entries {
        return Ok(Some(cache.entries[k].info));
      }
      if underlying.None? {
        return Ok(None);
      }
      var found := underlying.value.basic(a);
      if found.Err? {
        return Err(NotFound);
      }
      if found.value.Some? {
        cache.entries := cache.entries[k := VBasic(found.value.value)];
      }
      return Ok(found.value);
    }

    method Code(h: B256) returns (r: Result<Bytecode, NotFound>)
      requires WellTyped(cache.entries)
      modifies cache
      ensures WellTyped(old(cache.entries)) && r == CodeOf(old(cache.entries), underlying, h)
      ensures cache.entries == Filled(old(cache.entries), underlying, KCode(h)) && WellTyped(cache.entries)
    {
      var k := KCode(h);
      if k in cache.entries {
        return Ok(cache.entries[k].code);
      }
      if underlying.None? {
        return Err(NotFound);
      }
      var found := underlying.value.code(h);
      if found.Err? {
        return Err(NotFound);
      }
      cache.entries := cache.entries[k := VCode(found.value)];
      return Ok(found.value);
    }

    method Storage(a: Address, s: Slot) returns (r: Result<Word, NotFound>)
      requires WellTyped(cache.entries)
      modifies cache
      ensures WellTyped(old(cache.entries)) && r == StorageOf(old(cache.entries), underlying, a, s)
      ensures cache.entries == Filled(old(cache.entries), underlying, KStorage(a, s)) && WellTyped(cache.entries)
    {
      var k := KStorage(a, s);
      if k in cache.entries {
        return Ok(cache.entries[k].word);
      }
      if underlying.None? {
        return Ok(0);
      }
      var found := underlying.value.storage(a, s);
      if found.Err? {
        return Err(NotFound);
      }
      cache.entries := cache.entries[k := VStorage(found.value)];
      return Ok(found.value);
    }

    method BlockHash(n: nat) returns (r: Result<B256, NotFound>)
      requires WellTyped(cache.entries)
      modifies cache
      ensures WellTyped(old(cache.entries)) && r == BlockHashOf(old(cache.entries), underlying, n)
      ensures cache.entries == Filled(old(cache.entries), underlying, KBlockHash(n)) && WellTyped(cache.entries)
    {
      var k := KBlockHash(n);
      if k in cache.entries {
        return Ok(cache.entries[k].hash);
      }
      if underlying.None? {
        return Err(NotFound);
      }
      var found := underlying.value.blockHash(n);
      if found.Err? {
        return Err(NotFound);
      }
      cache.entries := cache.entries[k := VBlockHash(found.value)];
      return Ok(found.value);
    }

    /** Reads whatever the key stands for. */
    method ReadKey(k: TableKey)
      requires WellTyped(cache.entries)
      modifies cache
      ensures cache.entries == Filled(old(cache.entries), underlying, k) && WellTyped(cache.entries)
    {
      match k {
        case KBasic(a) => var _ := Basic(a);
        case KCode(h) => var _ := Code(h);
        case KStorage(a, s) => var _ := Storage(a, s);
        case KBlockHash(n) => var _ := BlockHash(n);
      }
    }

    /** Writes the touched accounts into the shared cache, in whatever order the map yields them. */
    method Commit(changes: EvmState) returns (ghost order: seq<Address>)
      requires WellTyped(cache.entries)
      modifies cache
      ensures (forall a :: a in changes <==> a in order) && (forall i :: 0 <= i < |order| ==> order[i] in changes)
      ensures forall i, j :: 0 <= i < j < |order| ==> order[i] != order[j]
      ensures cache.entries == CommitInOrder(old(cache.entries), changes, order) && WellTyped(cache.entries)
    {
      order := [];
      var left := changes.Keys;
      while left != {}
        invariant left <= changes.Keys
        invariant forall a :: a in order <==> a in changes && a !in left
        invariant forall i, j :: 0 <= i < j < |order| ==> order[i] != order[j]
        invariant forall i :: 0 <= i < |order| ==> order[i] in changes
        invariant cache.entries == CommitInOrder(old(cache.entries), changes, order) && WellTyped(cache.entries)
        decreases |left|
      {
        var a :| a in left;
        left := left - {a};
        assert (order + [a])[..|order|] == order;
        order := order + [a];
        InsertAccount(a, changes[a]);
      }
    }

    method InsertAccount(a: Address, account: Account)
      requires WellTyped(cache.entries)
      modifies cache
      ensures cache.entries == CommitAccount(old(cache.entries), a, account) && WellTyped(cache.entries)
    {
      if !account.touched {
        return;
      }
      cache.entries := cache.entries[KBasic(a) := VBasic(account.info)];
      if account.info.code.Some? {
        cache.entries := cache.entries[KCode(account.info.codeHash) := VCode(account.info.code.value)];
      }
      InsertSlots(a, account.storage);
    }

    method InsertSlots(a: Address, storage: map<Slot, Word>)
      requires WellTyped(cache.entries)
      modifies cache
      ensures cache.entries == old(cache.entries) + SlotEntries(a, storage) && WellTyped(cache.entries)
    {
      var left := storage.Keys;
      while left != {}
        invariant left <= storage.Keys
        invariant SlotsWritten(old(cache.entries), cache.entries, a, storage, left)
        decreases |left|
      {
        var s :| s in left;
        cache.entries := cache.entries[KStorage(a, s) := VStorage(storage[s])];
        left := left - {s};
      }
      AllSlotsWritten(old(cache.entries), cache.entries, a, storage);
    }
  }
}
