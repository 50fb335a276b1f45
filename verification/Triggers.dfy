/** From recorded calls and journal entries to the assertion functions that must run. */
module Triggers {
  import opened Types
  import opened Journal
  import opened Store
  import opened ActivityWindow

  /** `input` is a sequence of bytes. */
  datatype CallInputs = CallInputs(target: Address, input: seq<nat>)

  /** The first four bytes, or zero for shorter inputs. */
  function SelectorOf(input: seq<nat>): Selector {
    if |input| >= 4 then ((input[0] * 256 + input[1]) * 256 + input[2]) * 256 + input[3] else 0
  }

  datatype CallKey = CallKey(target: Address, selector: Selector)

  type CallMap = map<CallKey, seq<CallInputs>>

  function KeyOf(c: CallInputs): CallKey {
    CallKey(c.target, SelectorOf(c.input))
  }

  /** The calls with one key, in order. */
  function CallsWith(calls: seq<CallInputs>, k: CallKey): seq<CallInputs> {
    if calls == [] then []
    else
      var n := |calls| - 1;
      CallsWith(calls[..n], k) + if KeyOf(calls[n]) == k then [calls[n]] else []
  }

  /** `m` holds exactly the recorded calls, by key and in order. */
  ghost predicate Records(m: CallMap, calls: seq<CallInputs>) {
    && (forall k :: k in m <==> CallsWith(calls, k) != [])
    && (forall k :: k in m ==> m[k] == CallsWith(calls, k))
  }

  ghost predicate Bytes(input: seq<nat>) {
    forall i :: 0 <= i < |input| ==> input[i] < 256
  }

  /** The selector is the number that the first four bytes write, the first of them the most significant. */
  ghost predicate SelectorIs(sel: Selector, input: seq<nat>)
    requires |input| >= 4
  {
    sel == input[0] * 0x100_0000 + input[1] * 0x1_0000 + input[2] * 0x100 + input[3]
  }

  lemma SelectorMeans(input: seq<nat>)
    ensures |input| >= 4 ==> SelectorIs(SelectorOf(input), input)
    ensures |input| < 4 ==> SelectorOf(input) == 0
  {
  }

  lemma SelectorUnique(input: seq<nat>, sel: Selector)
    requires if |input| < 4 then sel == 0 else SelectorIs(sel, input)
    ensures sel == SelectorOf(input)
  {
  }

  lemma FirstFour(x: seq<nat>, y: seq<nat>)
    requires |x| >= 4 && |y| >= 4
    ensures x[..4] == y[..4] <==> x[0] == y[0] && x[1] == y[1] && x[2] == y[2] && x[3] == y[3]
  {
    assert x[..4] == [x[0], x[1], x[2], x[3]];
    assert y[..4] == [y[0], y[1], y[2], y[3]];
  }

  /** Calls with at least four bytes of input share a key exactly when they have the same target and the same first
      four bytes. */
  lemma SameKeyIff(c: CallInputs, d: CallInputs)
    requires Bytes(c.input) && Bytes(d.input) && |c.input| >= 4 && |d.input| >= 4
    ensures KeyOf(c) == KeyOf(d) <==> c.target == d.target && c.input[..4] == d.input[..4]
  {
    SelectorMeans(c.input);
    SelectorMeans(d.input);
    FirstFour(c.input, d.input);
  }

  /** The calls with a key are chosen one by one, in order. */
  lemma {:induction false} CallsWithChooses(xs: seq<CallInputs>, ys: seq<CallInputs>, c: CallInputs, k: CallKey)
    ensures CallsWith(xs + ys, k) == CallsWith(xs, k) + CallsWith(ys, k)
    ensures CallsWith([c], k) == if c.target == k.target && SelectorOf(c.input) == k.selector then [c] else []
    decreases |ys|
  {
    assert [c][..0] == [];
    if ys == [] {
      assert xs + ys == xs;
    } else {
      var n := |ys| - 1;
      CallsWithChooses(xs, ys[..n], c, k);
      assert (xs + ys)[..|xs| + n] == xs + ys[..n];
      assert (xs + ys)[|xs| + n] == ys[n];
    }
  }

  /** A recorded call is found under its target and the selector that its input starts with. */
  lemma RecordedUnderItsBytes(m: CallMap, calls: seq<CallInputs>, i: nat, sel: Selector)
    requires Records(m, calls) && i < |calls|
    requires if |calls[i].input| < 4 then sel == 0 else SelectorIs(sel, calls[i].input)
    ensures CallKey(calls[i].target, sel) in m && calls[i] in m[CallKey(calls[i].target, sel)]
  {
    SelectorUnique(calls[i].input, sel);
    CallsWithHas(calls, i);
  }

  lemma {:induction false} CallsWithHas(calls: seq<CallInputs>, i: nat)
    requires i < |calls|
    ensures calls[i] in CallsWith(calls, KeyOf(calls[i]))
    decreases |calls|
  {
    var n := |calls| - 1;
    if i < n {
      CallsWithHas(calls[..n], i);
    }
  }

  lemma {:induction false} CalledIff(calls: seq<CallInputs>, k: CallKey)
    ensures CallsWith(calls, k) != [] <==> exists i :: 0 <= i < |calls| && KeyOf(calls[i]) == k
    decreases |calls|
  {
    if calls != [] {
      var n := |calls| - 1;
      var front := calls[..n];
      CalledIff(front, k);
      assert forall i :: 0 <= i < n ==> front[i] == calls[i];
      if KeyOf(calls[n]) != k && CallsWith(front, k) != [] {
        var i :| 0 <= i < |front| && KeyOf(front[i]) == k;
        assert KeyOf(calls[i]) == k;
      }
    }
  }

  // ---- what fired ----

  ghost predicate Called(calls: CallMap, a: Address, sel: Selector) {
    CallKey(a, sel) in calls
  }

  ghost predicate SlotChanged(entries: seq<JournalEntry>, a: Address, slot: Slot) {
    exists i :: 0 <= i < |entries| && entries[i].StorageChanged? && entries[i].address == a && entries[i].key == slot
  }

  ghost predicate BalanceMoved(entries: seq<JournalEntry>, a: Address) {
    exists i :: 0 <= i < |entries| && entries[i].BalanceTransfer? && (entries[i].from == a || entries[i].to == a)
  }

  ghost predicate Fired(calls: CallMap, entries: seq<JournalEntry>, a: Address, t: TriggerType) {
    match t
    case Call(sel) => Called(calls, a, sel)
    case StorageChange(slot) => SlotChanged(entries, a, slot)
    case BalanceChange => BalanceMoved(entries, a)
    case AllCalls => false
    case AllStorageChanges => false
  }

  type TriggerMap = map<Address, set<TriggerType>>

  function Inserted(m: TriggerMap, a: Address, t: TriggerType): TriggerMap {
    m[a := (if a in m then m[a] else {}) + {t}]
  }

  ghost predicate Contains(m: TriggerMap, a: Address, t: TriggerType) {
    a in m && t in m[a]
  }

  ghost predicate Lists(m: TriggerMap, calls: CallMap, entries: seq<JournalEntry>) {
    && (forall a, t :: Contains(m, a, t) <==> Fired(calls, entries, a, t))
    && (forall a :: a in m ==> m[a] != {})
  }

  function WithEntry(m: TriggerMap, e: JournalEntry): TriggerMap {
    match e
    case BalanceTransfer(from, to, _) => Inserted(Inserted(m, from, BalanceChange), to, BalanceChange)
    case StorageChanged(a, slot, _) => Inserted(m, a, StorageChange(slot))
    case OtherEntry(_) => m
  }

  lemma FiredSnoc(calls: CallMap, entries: seq<JournalEntry>, e: JournalEntry, a: Address, t: TriggerType)
    ensures Fired(calls, entries + [e], a, t) <==>
      || Fired(calls, entries, a, t)
      || (e.StorageChanged? && a == e.address && t == StorageChange(e.key))
      || (e.BalanceTransfer? && (a == e.from || a == e.to) && t == BalanceChange)
  {
    var all := entries + [e];
    assert forall i :: 0 <= i < |entries| ==> all[i] == entries[i];
    assert all[|entries|] == e;
    if t.StorageChange? && SlotChanged(entries, a, t.slot) {
      var i :| 0 <= i < |entries| && entries[i].StorageChanged? && entries[i].address == a && entries[i].key == t.slot;
      assert all[i] == entries[i];
    }
    if t.BalanceChange? && BalanceMoved(entries, a) {
      var i :| 0 <= i < |entries| && entries[i].BalanceTransfer? && (entries[i].from == a || entries[i].to == a);
      assert all[i] == entries[i];
    }
  }

  lemma ListsSnoc(m: TriggerMap, calls: CallMap, entries: seq<JournalEntry>, e: JournalEntry)
    requires Lists(m, calls, entries)
    ensures Lists(WithEntry(m, e), calls, entries + [e])
  {
    forall a, t ensures Contains(WithEntry(m, e), a, t) <==> Fired(calls, entries + [e], a, t) {
      FiredSnoc(calls, entries, e, a, t);
      assert Contains(m, a, t) <==> Fired(calls, entries, a, t);
    }
  }

  class CallTracer {
    var callInputs: CallMap
    var journal: Option<seq<seq<JournalEntry>>>

    constructor ()
      ensures callInputs == map[] && journal == None
    {
      callInputs, journal := map[], None;
    }

    ghost function Entries(): seq<JournalEntry>
      reads this
    {
      if journal.Some? then Flatten(journal.value) else []
    }

    method RecordCall(inputs: CallInputs, ghost calls: seq<CallInputs>)
      requires Records(callInputs, calls)
      modifies this`callInputs
      ensures Records(callInputs, calls + [inputs])
    {
      var k := CallKey(inputs.target, SelectorOf(inputs.input));
      var sofar := if k in callInputs then callInputs[k] else [];
      callInputs := callInputs[k := sofar + [inputs]];
      assert (calls + [inputs])[..|calls|] == calls;
    }

    method GetTriggers() returns (result: TriggerMap)
      ensures Lists(result, callInputs, Entries())
    {
      result := map[];
      var left := callInputs.Keys;
      while left != {}
        invariant left <= callInputs.Keys
        invariant forall a, t :: Contains(result, a, t) <==>
          t.Call? && CallKey(a, t.selector) in callInputs && CallKey(a, t.selector) !in left
        invariant forall a :: a in result ==> result[a] != {}
        decreases |left|
      {
        var k :| k in left;
        result := Inserted(result, k.target, Call(k.selector));
        left := left - {k};
      }
      assert Lists(result, callInputs, []);
      if journal.None? {
        return;
      }
      for f := 0 to |journal.value|
        invariant Lists(result, callInputs, Flatten(journal.value[..f]))
      {
        var frame := journal.value[f];
        ghost var seen := Flatten(journal.value[..f]);
        assert seen + frame[..0] == seen;
        for i := 0 to |frame|
          invariant Lists(result, callInputs, seen + frame[..i])
        {
          ListsSnoc(result, callInputs, seen + frame[..i], frame[i]);
          assert seen + frame[..i + 1] == (seen + frame[..i]) + [frame[i]];
          match frame[i] {
            case BalanceTransfer(from, to, _) =>
              result := Inserted(result, from, BalanceChange);
              result := Inserted(result, to, BalanceChange);
            case StorageChanged(a, slot, _) =>
              result := Inserted(result, a, StorageChange(slot));
            case OtherEntry(_) =>
          }
        }
        assert frame[..|frame|] == frame;
        assert journal.value[..f + 1][..f] == journal.value[..f];
      }
      assert journal.value[..|journal.value|] == journal.value;
    }
  }

  // ---- selecting assertion functions ----

  function Registered(r: TriggerRecorder, t: TriggerType): (selectors: set<Selector>)
    ensures forall sel :: sel in selectors <==> t in r && sel in r[t]
  {
    if t in r then r[t] else {}
  }

  /** The selectors picked for a set of fired triggers. */
  ghost predicate Picked(r: TriggerRecorder, fired: set<TriggerType>, sel: Selector) {
    || (exists t :: t in fired && sel in Registered(r, t))
    || ((exists t :: t in fired && t.Call?) && sel in Registered(r, AllCalls))
    || ((exists t :: t in fired && t.StorageChange?) && sel in Registered(r, AllStorageChanges))
  }

  method SelectFunctions(r: TriggerRecorder, fired: set<TriggerType>) returns (selectors: set<Selector>)
    ensures forall sel :: sel in selectors <==> Picked(r, fired, sel)
  {
    selectors := {};
    var hasCall, hasStorage := false, false;
    var left := fired;
    while left != {}
      invariant left <= fired
      invariant forall sel :: sel in selectors <==> exists t :: t in fired && t !in left && sel in Registered(r, t)
      invariant hasCall <==> exists t :: t in fired && t !in left && t.Call?
      invariant hasStorage <==> exists t :: t in fired && t !in left && t.StorageChange?
      decreases |left|
    {
      var t :| t in left;
      if t in r {
        selectors := selectors + r[t];
      }
      hasCall := hasCall || t.Call?;
      hasStorage := hasStorage || t.StorageChange?;
      left := left - {t};
    }
    if hasCall && AllCalls in r {
      selectors := selectors + r[AllCalls];
    }
    if hasStorage && AllStorageChanges in r {
      selectors := selectors + r[AllStorageChanges];
    }
  }

  datatype ForExecution = ForExecution(contract: AssertionContract, selectors: set<Selector>, adopter: Address)

  /** The entry of a result that stands for a stored state. */
  ghost predicate Selects(x: ForExecution, s: AssertionState, fired: set<TriggerType>, adopter: Address) {
    && x.contract == s.contract && x.adopter == adopter
    && forall sel :: sel in x.selectors <==> Picked(s.triggers, fired, sel)
  }

  /** One result for each state of the adopter that is in its window, in list order. */
  ghost predicate ReadsList(list: AdopterList, fired: set<TriggerType>, adopter: Address, block: nat,
                            r: seq<ForExecution>)
    decreases |list|
  {
    if list == [] then r == []
    else
      var n := |list| - 1;
      if InWindow(list[n], block)
      then r != [] && Selects(r[|r| - 1], list[n], fired, adopter)
           && ReadsList(list[..n], fired, adopter, block, r[..|r| - 1])
      else ReadsList(list[..n], fired, adopter, block, r)
  }

  method ReadAdopter(db: Db, adopter: Address, fired: set<TriggerType>, block: nat) returns (r: seq<ForExecution>)
    ensures ReadsList(Get(db, adopter), fired, adopter, block, r)
  {
    var list := Get(db, adopter);
    r := [];
    for i := 0 to |list|
      invariant ReadsList(list[..i], fired, adopter, block, r)
    {
      assert list[..i + 1][..i] == list[..i];
      if InWindow(list[i], block) {
        var selectors := SelectFunctions(list[i].triggers, fired);
        assert (r + [ForExecution(list[i].contract, selectors, adopter)])[..|r|] == r;
        r := r + [ForExecution(list[i].contract, selectors, adopter)];
      }
    }
    assert list[..|list|] == list;
  }

  lemma {:induction false} ReadsListMembers(list: AdopterList, fired: set<TriggerType>, adopter: Address, block: nat,
                                            r: seq<ForExecution>, x: ForExecution)
    requires ReadsList(list, fired, adopter, block, r)
    ensures x in r <==> x.adopter == adopter && ChosenOf(list, fired, block, x)
    decreases |list|
  {
    if list != [] {
      var n := |list| - 1;
      var front := list[..n];
      assert forall i :: 0 <= i < n ==> front[i] == list[i];
      var rest := if InWindow(list[n], block) then r[..|r| - 1] else r;
      ReadsListMembers(front, fired, adopter, block, rest, x);
      if InWindow(list[n], block) {
        assert r == rest + [r[|r| - 1]];
        if Selects(x, list[n], fired, adopter) {
          assert x.selectors == r[|r| - 1].selectors;
        }
      }
      if x in rest {
        var i :| 0 <= i < |front| && InWindow(front[i], block) && Selects(x, front[i], fired, adopter);
        assert InWindow(list[i], block) && Selects(x, list[i], fired, adopter);
      }
    }
  }

  datatype StoreError = BlockNumberExceedsU64

  /** `x` comes from a state of the list that is in its window. */
  ghost predicate ChosenOf(list: AdopterList, fired: set<TriggerType>, block: nat, x: ForExecution) {
    exists i :: 0 <= i < |list| && InWindow(list[i], block) && Selects(x, list[i], fired, x.adopter)
  }

  /** `x` comes from a stored state of a triggered adopter that is in its window. */
  ghost predicate Chosen(db: Db, fired: TriggerMap, block: nat, x: ForExecution) {
    x.adopter in fired && ChosenOf(Get(db, x.adopter), fired[x.adopter], block, x)
  }

  /** `order` lists the triggered adopters, each once. */
  ghost predicate Orders(order: seq<Address>, fired: TriggerMap) {
    && (forall a :: a in order <==> a in fired)
    && (forall i, j :: 0 <= i < j < |order| ==> order[i] != order[j])
  }

  /** One adopter's answers after the other's. */
  ghost predicate ReadsAll(db: Db, fired: TriggerMap, block: nat, order: seq<Address>, r: seq<ForExecution>)
    decreases |order|
  {
    if order == [] then r == []
    else
      var n := |order| - 1;
      exists k :: 0 <= k <= |r| && ReadsAll(db, fired, block, order[..n], r[..k])
                  && ReadsList(Get(db, order[n]), FiredOn(fired, order[n]), order[n], block, r[k..])
  }

  function FiredOn(fired: TriggerMap, a: Address): set<TriggerType> {
    if a in fired then fired[a] else {}
  }

  lemma ReadsAllSnoc(db: Db, fired: TriggerMap, block: nat, order: seq<Address>, a: Address, r: seq<ForExecution>,
                     own: seq<ForExecution>)
    requires ReadsAll(db, fired, block, order, r) && ReadsList(Get(db, a), FiredOn(fired, a), a, block, own)
    ensures ReadsAll(db, fired, block, order + [a], r + own)
  {
    assert (order + [a])[..|order|] == order;
    assert (r + own)[..|r|] == r && (r + own)[|r|..] == own;
  }

  lemma {:induction false} ReadsAllMembers(db: Db, fired: TriggerMap, block: nat, order: seq<Address>,
                                           r: seq<ForExecution>,
                                           x: ForExecution)
    requires ReadsAll(db, fired, block, order, r)
    ensures x in r <==> x.adopter in order && ChosenOf(Get(db, x.adopter), FiredOn(fired, x.adopter), block, x)
    decreases |order|
  {
    if order != [] {
      var n := |order| - 1;
      var front, a := order[..n], order[n];
      var k :| 0 <= k <= |r| && ReadsAll(db, fired, block, front, r[..k])
               && ReadsList(Get(db, a), FiredOn(fired, a), a, block, r[k..]);
      ReadsAllMembers(db, fired, block, front, r[..k], x);
      ReadsListMembers(Get(db, a), FiredOn(fired, a), a, block, r[k..], x);
      InParts(r, k, x);
      InParts(order, n, x.adopter);
    }
  }

  lemma ReadsAllChosen(db: Db, fired: TriggerMap, block: nat, order: seq<Address>, r: seq<ForExecution>)
    requires Orders(order, fired) && ReadsAll(db, fired, block, order, r)
    ensures forall x :: x in r <==> Chosen(db, fired, block, x)
  {
    forall x ensures x in r <==> Chosen(db, fired, block, x) {
      ReadsAllMembers(db, fired, block, order, r, x);
    }
  }

  /** Reads the assertions of all triggered adopters, in whatever order the map yields them. */
  method Read(db: Db, fired: TriggerMap, block: nat)
    returns (r: Result<seq<ForExecution>, StoreError>, ghost order: seq<Address>)
    ensures r.Err? <==> block > U64_MAX
    ensures r.Ok? ==> Orders(order, fired) && ReadsAll(db, fired, block, order, r.value)
    ensures r.Ok? ==> forall x :: x in r.value <==> Chosen(db, fired, block, x)
  {
    order := [];
    if block > U64_MAX {
      return Err(BlockNumberExceedsU64), order;
    }
    var all: seq<ForExecution> := [];
    var left := fired.Keys;
    while left != {}
      invariant left <= fired.Keys
      invariant forall a :: a in order <==> a in fired && a !in left
      invariant forall i, j :: 0 <= i < j < |order| ==> order[i] != order[j]
      invariant ReadsAll(db, fired, block, order, all)
      decreases |left|
    {
      var a :| a in left;
      var own := ReadAdopter(db, a, fired[a], block);
      ReadsAllSnoc(db, fired, block, order, a, all, own);
      order, all := order + [a], all + own;
      left := left - {a};
    }
    ReadsAllChosen(db, fired, block, order, all);
    return Ok(all), order;
  }

  // ---- the whole path ----

  /** A selector is due on an adopter: it is registered for something that happened to the adopter. */
  ghost predicate Due(calls: seq<CallInputs>, entries: seq<JournalEntry>, a: Address, r: TriggerRecorder,
                      sel: Selector) {
    || (exists i :: 0 <= i < |calls| && calls[i].target == a &&
                    (sel in Registered(r, Call(SelectorOf(calls[i].input))) || sel in Registered(r, AllCalls)))
    || (exists i :: 0 <= i < |entries| && entries[i].StorageChanged? && entries[i].address == a &&
                    (sel in Registered(r, StorageChange(entries[i].key)) || sel in Registered(r, AllStorageChanges)))
    || (exists i :: 0 <= i < |entries| && entries[i].BalanceTransfer? && (entries[i].from == a || entries[i].to == a) &&
                    sel in Registered(r, BalanceChange))
  }

  lemma DueIsPicked(calls: seq<CallInputs>, m: CallMap, entries: seq<JournalEntry>, fired: TriggerMap, a: Address,
                    r: TriggerRecorder, sel: Selector)
    requires Records(m, calls) && Lists(fired, m, entries) && a in fired
    requires Due(calls, entries, a, r, sel)
    ensures Picked(r, fired[a], sel)
  {
    if i :| 0 <= i < |calls| && calls[i].target == a &&
            (sel in Registered(r, Call(SelectorOf(calls[i].input))) || sel in Registered(r, AllCalls)) {
      var k := KeyOf(calls[i]);
      CalledIff(calls, k);
      assert Fired(m, entries, a, Call(k.selector));
      assert Contains(fired, a, Call(k.selector));
    } else if i :| 0 <= i < |entries| && entries[i].StorageChanged? && entries[i].address == a &&
                   (sel in Registered(r, StorageChange(entries[i].key)) || sel in Registered(r, AllStorageChanges)) {
      assert Fired(m, entries, a, StorageChange(entries[i].key));
      assert Contains(fired, a, StorageChange(entries[i].key));
    } else {
      assert Fired(m, entries, a, BalanceChange);
      assert Contains(fired, a, BalanceChange);
    }
  }

  lemma PickedIsDue(calls: seq<CallInputs>, m: CallMap, entries: seq<JournalEntry>, fired: TriggerMap, a: Address,
                    r: TriggerRecorder, sel: Selector)
    requires Records(m, calls) && Lists(fired, m, entries) && a in fired
    requires Picked(r, fired[a], sel)
    ensures Due(calls, entries, a, r, sel)
  {
    var t: TriggerType :| t in fired[a] && (sel in Registered(r, t) || (t.Call? && sel in Registered(r, AllCalls))
                                            || (t.StorageChange? && sel in Registered(r, AllStorageChanges)));
    assert Contains(fired, a, t);
    assert Fired(m, entries, a, t);
    if t.Call? {
      CalledIff(calls, CallKey(a, t.selector));
      var i :| 0 <= i < |calls| && KeyOf(calls[i]) == CallKey(a, t.selector);
    }
  }

  /** For every sequence of recorded calls and every journal: a selector is picked for an adopter's stored
      assertion exactly when it is due. Nothing here depends on the order in which maps and sets are walked. */
  lemma PickedIffDue(calls: seq<CallInputs>, m: CallMap, entries: seq<JournalEntry>, fired: TriggerMap, a: Address,
                     r: TriggerRecorder, sel: Selector)
    requires Records(m, calls) && Lists(fired, m, entries)
    ensures (a in fired && Picked(r, fired[a], sel)) <==> Due(calls, entries, a, r, sel)
  {
    if a in fired {
      if Due(calls, entries, a, r, sel) {
        DueIsPicked(calls, m, entries, fired, a, r, sel);
      }
      if Picked(r, fired[a], sel) {
        PickedIsDue(calls, m, entries, fired, a, r, sel);
      }
    } else if Due(calls, entries, a, r, sel) {
      NothingDue(calls, m, entries, fired, a, r, sel);
    }
  }

  lemma NothingDue(calls: seq<CallInputs>, m: CallMap, entries: seq<JournalEntry>, fired: TriggerMap, a: Address,
                   r: TriggerRecorder, sel: Selector)
    requires Records(m, calls) && Lists(fired, m, entries) && a !in fired
    ensures !Due(calls, entries, a, r, sel)
  {
    forall i | 0 <= i < |calls| ensures calls[i].target != a {
      CalledIff(calls, KeyOf(calls[i]));
      assert !Contains(fired, a, Call(SelectorOf(calls[i].input)));
    }
    forall i | 0 <= i < |entries| && entries[i].StorageChanged? ensures entries[i].address != a {
      assert !Contains(fired, a, StorageChange(entries[i].key));
    }
    assert !Contains(fired, a, BalanceChange);
  }
}
