/** The revertible journal of a transaction: every change pushes what it replaced, a checkpoint opens a new
    frame, a revert undoes and drops the frames opened since. */
module Journal {
  import opened Types

  datatype JournalEntry =
    | StorageChanged(address: Address, key: Slot, hadValue: Word)
    | BalanceTransfer(from: Address, to: Address, amount: Word)
    | OtherEntry(address: Address)
  {
    predicate Changes(c: Cell) { StorageChanged? && address == c.address && key == c.slot }
  }

  /** A storage slot of an account. */
  datatype Cell = Cell(address: Address, slot: Slot)

  /** `info` stands for balance, nonce and code. */
  datatype Account = Account(info: nat, storage: map<Slot, Word>)

  type AccountMap = map<Address, Account>

  datatype JournaledState = JournaledState(state: AccountMap, journal: seq<seq<JournalEntry>>, depth: nat)

  /** What the database under the journal holds; absent slots read zero. */
  type Base = map<Cell, Word>

  function Flatten(journal: seq<seq<JournalEntry>>): seq<JournalEntry> {
    if journal == [] then [] else Flatten(journal[..|journal| - 1]) + journal[|journal| - 1]
  }

  function Stored(base: Base, c: Cell): Word {
    if c in base then base[c] else 0
  }

  /** The present value of a slot: the journaled state's, or the database's if it was not loaded yet. */
  function Present(base: Base, s: AccountMap, c: Cell): Word {
    if c.address in s && c.slot in s[c.address].storage then s[c.address].storage[c.slot] else Stored(base, c)
  }

  function SetCell(s: AccountMap, c: Cell, v: Word): AccountMap {
    var account := if c.address in s then s[c.address] else Account(0, map[]);
    s[c.address := account.(storage := account.storage[c.slot := v])]
  }

  // ---- the journal's operations ----

  /** A write is journaled only if it changes the value; the slot is loaded in any case. */
  function Store(base: Base, js: JournaledState, c: Cell, v: Word): JournaledState
    requires js.journal != []
  {
    var present := Present(base, js.state, c);
    var n := |js.journal| - 1;
    if present == v then js.(state := SetCell(js.state, c, present))
    else js.(state := SetCell(js.state, c, v),
             journal := js.journal[n := js.journal[n] + [StorageChanged(c.address, c.slot, present)]])
  }

  /** Any entry that does not concern storage. */
  function Note(js: JournaledState, e: JournalEntry): JournaledState
    requires js.journal != []
  {
    var n := |js.journal| - 1;
    if e.StorageChanged? then js else js.(journal := js.journal[n := js.journal[n] + [e]])
  }

  function Checkpoint(js: JournaledState): JournaledState {
    js.(journal := js.journal + [[]], depth := js.depth + 1)
  }

  function Commit(js: JournaledState): JournaledState
    requires js.depth > 0
  {
    js.(depth := js.depth - 1)
  }

  function Undo(s: AccountMap, entries: seq<JournalEntry>): AccountMap
    decreases |entries|
  {
    if entries == [] then s
    else
      var e := entries[|entries| - 1];
      Undo(if e.StorageChanged? then SetCell(s, Cell(e.address, e.key), e.hadValue) else s, entries[..|entries| - 1])
  }

  /** Back to the checkpoint whose frame is number `index`. */
  function Revert(js: JournaledState, index: nat): JournaledState
    requires js.depth > 0 && index <= |js.journal|
  {
    JournaledState(Undo(js.state, Flatten(js.journal[index..])), js.journal[..index], js.depth - 1)
  }

  // ---- what undoing restores ----

  /** The value a slot had before `entries`, if it is `v` after them. */
  function Before(entries: seq<JournalEntry>, c: Cell, v: Word): Word {
    if entries == [] then v
    else if entries[0].Changes(c) then entries[0].hadValue
    else Before(entries[1..], c, v)
  }

  lemma {:induction false} BeforeAppend(xs: seq<JournalEntry>, ys: seq<JournalEntry>, c: Cell, v: Word)
    ensures Before(xs + ys, c, v) == Before(xs, c, Before(ys, c, v))
  {
    if xs == [] {
      assert xs + ys == ys;
    } else {
      assert (xs + ys)[1..] == xs[1..] + ys;
      BeforeAppend(xs[1..], ys, c, v);
    }
  }

  lemma {:induction false} UndoRestores(base: Base, s: AccountMap, entries: seq<JournalEntry>, c: Cell)
    ensures Present(base, Undo(s, entries), c) == Before(entries, c, Present(base, s, c))
    decreases |entries|
  {
    if entries != [] {
      var n := |entries| - 1;
      var front, e := entries[..n], entries[n];
      var s' := if e.StorageChanged? then SetCell(s, Cell(e.address, e.key), e.hadValue) else s;
      UndoRestores(base, s', front, c);
      assert entries == front + [e];
      BeforeAppend(front, [e], c, Present(base, s, c));
    }
  }

  /** The journaled old values of one slot, oldest first. */
  function Olds(entries: seq<JournalEntry>, c: Cell): seq<Word> {
    if entries == [] then []
    else
      var n := |entries| - 1;
      Olds(entries[..n], c) + if entries[n].Changes(c) then [entries[n].hadValue] else []
  }

  lemma OldsSnoc(entries: seq<JournalEntry>, e: JournalEntry, c: Cell)
    ensures Olds(entries + [e], c) == Olds(entries, c) + if e.Changes(c) then [e.hadValue] else []
  {
    assert (entries + [e])[..|entries|] == entries;
  }

  lemma {:induction false} OldsAppend(xs: seq<JournalEntry>, ys: seq<JournalEntry>, c: Cell)
    ensures Olds(xs + ys, c) == Olds(xs, c) + Olds(ys, c)
    decreases |ys|
  {
    if ys == [] {
      assert xs + ys == xs;
    } else {
      var front, e := ys[..|ys| - 1], ys[|ys| - 1];
      OldsAppend(xs, front, c);
      assert (xs + ys)[..|xs + ys| - 1] == xs + front;
    }
  }

  lemma {:induction false} FlattenAppend(xs: seq<seq<JournalEntry>>, ys: seq<seq<JournalEntry>>)
    ensures Flatten(xs + ys) == Flatten(xs) + Flatten(ys)
    decreases |ys|
  {
    if ys == [] {
      assert xs + ys == xs;
    } else {
      var front, f := ys[..|ys| - 1], ys[|ys| - 1];
      FlattenAppend(xs, front);
      assert (xs + ys)[..|xs + ys| - 1] == xs + front;
      AppendAssoc(Flatten(xs), Flatten(front), f);
    }
  }

  /** Pushing an entry onto the last frame appends it to every suffix that includes that frame. */
  lemma FlattenPush(journal: seq<seq<JournalEntry>>, e: JournalEntry, i: nat)
    requires i < |journal|
    ensures var n := |journal| - 1; var journal' := journal[n := journal[n] + [e]];
      && Flatten(journal'[i..]) == Flatten(journal[i..]) + [e]
      && journal'[..i] == journal[..i]
  {
    var n := |journal| - 1;
    var journal' := journal[n := journal[n] + [e]];
    var xs, ys := journal[i..], journal'[i..];
    assert xs[..|xs| - 1] == ys[..|ys| - 1];
    AppendAssoc(Flatten(xs[..|xs| - 1]), journal[n], [e]);
  }

  // ---- get_differences ----

  datatype StateChangesError = AccountNotFound | SlotNotFound

  function Differences(js: JournaledState, c: Cell): Result<seq<Word>, StateChangesError> {
    var olds := Olds(Flatten(js.journal), c);
    if olds == [] then Ok([])
    else if c.address !in js.state then Err(AccountNotFound)
    else if c.slot !in js.state[c.address].storage then Err(SlotNotFound)
    else Ok(olds + [js.state[c.address].storage[c.slot]])
  }

  /** The errors of `get_differences`: the journal changed the slot, but the account, or the slot, is not loaded. */
  lemma DifferencesErrors(js: JournaledState, c: Cell)
    ensures var entries := Flatten(js.journal); var changed := exists i :: 0 <= i < |entries| && entries[i].Changes(c);
      && (Differences(js, c) == Err(AccountNotFound) <==> changed && c.address !in js.state)
      && (Differences(js, c) == Err(SlotNotFound) <==>
            changed && c.address in js.state && c.slot !in js.state[c.address].storage)
      && (Differences(js, c) == Ok([]) <==> !changed)
  {
    var entries, olds := Flatten(js.journal), Olds(Flatten(js.journal), c);
    ChangedIff(entries, c);
    if olds != [] && c.address in js.state && c.slot in js.state[c.address].storage {
      assert |olds + [js.state[c.address].storage[c.slot]]| > 0;
    }
  }

  lemma {:induction false} ChangedIff(entries: seq<JournalEntry>, c: Cell)
    ensures Olds(entries, c) != [] <==> exists i :: 0 <= i < |entries| && entries[i].Changes(c)
    decreases |entries|
  {
    if entries != [] {
      var n := |entries| - 1;
      var front := entries[..n];
      ChangedIff(front, c);
      assert forall i :: 0 <= i < n ==> front[i] == entries[i];
      if i :| 0 <= i < |front| && front[i].Changes(c) {
        assert entries[i].Changes(c);
      }
    }
  }

  method GetDifferences(js: JournaledState, c: Cell) returns (r: Result<seq<Word>, StateChangesError>)
    ensures r == Differences(js, c)
  {
    var differences := [];
    for f := 0 to |js.journal|
      invariant differences == Olds(Flatten(js.journal[..f]), c)
    {
      var frame := js.journal[f];
      ghost var seen := Flatten(js.journal[..f]);
      assert seen + frame[..0] == seen;
      for i := 0 to |frame|
        invariant differences == Olds(seen + frame[..i], c)
      {
        assert seen + frame[..i + 1] == (seen + frame[..i]) + [frame[i]];
        OldsSnoc(seen + frame[..i], frame[i], c);
        if frame[i].Changes(c) {
          differences := differences + [frame[i].hadValue];
        }
      }
      assert frame[..|frame|] == frame;
      assert js.journal[..f + 1][..f] == js.journal[..f];
    }
    assert js.journal[..|js.journal|] == js.journal;
    if differences == [] {
      return Ok(differences);
    }
    if c.address !in js.state {
      return Err(AccountNotFound);
    }
    var account := js.state[c.address];
    if c.slot !in account.storage {
      return Err(SlotNotFound);
    }
    return Ok(differences + [account.storage[c.slot]]);
  }
}
