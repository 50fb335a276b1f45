/** What an edit does to a store, entry by entry, and what a reader of the store is handed. */
module StoreMeaning {
  import opened Types
  import opened Store
  import opened ActivityWindow
  import opened Triggers

  ghost predicate Has(list: AdopterList, id: B256) {
    exists i :: 0 <= i < |list| && list[i].contract.id == id
  }

  ghost predicate DistinctIds(list: AdopterList) {
    forall i, j :: 0 <= i < j < |list| ==> list[i].contract.id != list[j].contract.id
  }

  ghost predicate AllDistinct(db: Db) {
    forall a :: a in db ==> DistinctIds(db[a])
  }

  /** An addition sets the start of the known entry or appends a new one; a removal sets the end of the known
      entry. Every other entry keeps its place and its value, and nothing else is appended. */
  ghost predicate Edits(list: AdopterList, m: Modification, out: AdopterList) {
    match m
    case Add(_, contract, triggers, active) =>
      && |out| == |list| + (if Has(list, contract.id) then 0 else 1)
      && (forall i :: 0 <= i < |list| ==>
            out[i] == if list[i].contract.id == contract.id then list[i].(activeAtBlock := active) else list[i])
      && (!Has(list, contract.id) ==> out[|list|] == AssertionState(active, None, contract, triggers))
    case Remove(_, id, inactive) =>
      && |out| == |list|
      && (forall i :: 0 <= i < |list| ==>
            out[i] == if list[i].contract.id == id then list[i].(inactiveAtBlock := Some(inactive)) else list[i])
  }

  /** An insert replaces the entry of the same id or appends, and leaves every other entry alone. */
  ghost predicate Inserts(list: AdopterList, s: AssertionState, out: AdopterList) {
    && |out| == |list| + (if Has(list, s.contract.id) then 0 else 1)
    && (forall i :: 0 <= i < |list| ==> out[i] == if list[i].contract.id == s.contract.id then s else list[i])
    && (!Has(list, s.contract.id) ==> out[|list|] == s)
  }

  lemma ApplyToListEdits(list: AdopterList, m: Modification)
    requires DistinctIds(list)
    ensures Edits(list, m, ApplyToList(list, m)) && DistinctIds(ApplyToList(list, m))
  {
    var p := Position(list, m.Id());
    assert Has(list, m.Id()) <==> p < |list|;
    assert forall i :: 0 <= i < |list| && list[i].contract.id == m.Id() ==> i == p;
  }

  lemma InsertListInserts(list: AdopterList, s: AssertionState)
    requires DistinctIds(list)
    ensures Inserts(list, s, InsertList(list, s)) && DistinctIds(InsertList(list, s))
  {
    var p := Position(list, s.contract.id);
    assert Has(list, s.contract.id) <==> p < |list|;
    assert forall i :: 0 <= i < |list| && list[i].contract.id == s.contract.id ==> i == p;
  }

  /** The entry list an adopter has, if it has any. */
  ghost predicate IsListOf(db: Db, a: Address, list: AdopterList) {
    if a in db then list == db[a] else list == []
  }

  /** The replay in steps: nothing changes nothing, and one more modification edits the list of its own adopter
      and no other. */
  lemma ReplayStepByStep(db: Db, mods: seq<Modification>, m: Modification, list: AdopterList)
    requires AllDistinct(db) && IsListOf(ApplyAll(db, mods), m.adopter, list)
    ensures var before, after := ApplyAll(db, mods), ApplyAll(db, mods + [m]);
      && ApplyAll(db, []) == db && AllDistinct(before) && AllDistinct(after)
      && after.Keys == before.Keys + {m.adopter}
      && (forall a :: a in before && a != m.adopter ==> after[a] == before[a])
      && Edits(list, m, after[m.adopter])
  {
    var before := ApplyAll(db, mods);
    ApplyAllKeepsDistinct(db, mods);
    ApplyAllAppend(db, mods, [m]);
    assert ApplyAll(before, [m]) == ApplyOne(before, m);
    ApplyToListEdits(list, m);
  }

  lemma {:induction false} ApplyAllKeepsDistinct(db: Db, mods: seq<Modification>)
    requires AllDistinct(db)
    ensures AllDistinct(ApplyAll(db, mods))
    decreases |mods|
  {
    if mods != [] {
      ApplyToListEdits(Get(db, mods[0].adopter), mods[0]);
      ApplyAllKeepsDistinct(ApplyOne(db, mods[0]), mods[1..]);
    }
  }

  lemma {:induction false} ApplyListKeepsDistinct(list: AdopterList, mods: seq<Modification>)
    requires DistinctIds(list)
    ensures DistinctIds(ApplyList(list, mods))
    decreases |mods|
  {
    if mods != [] {
      ApplyToListEdits(list, mods[0]);
      ApplyListKeepsDistinct(ApplyToList(list, mods[0]), mods[1..]);
    }
  }

  // ---- one assertion in a list, and its history ----

  lemma LookupMeans(list: AdopterList, id: B256, s: AssertionState)
    requires DistinctIds(list)
    ensures Lookup(list, id) == Some(s) <==> s in list && s.contract.id == id
  {
    if s in list && s.contract.id == id {
      var i :| 0 <= i < |list| && list[i] == s;
      assert i == Position(list, id);
    }
  }

  /** The events of an id are chosen one by one, and the ones of an adopter too. */
  lemma HistoryIsFiltered(xs: seq<Modification>, ys: seq<Modification>, m: Modification, id: B256, a: Address)
    ensures var ofId := if m.Add? then m.contract.id == id else m.contractId == id;
      OfId(xs + [m], id) == OfId(xs, id) + if ofId then [m] else []
    ensures Of(xs + ys, a) == Of(xs, a) + Of(ys, a) && Of([m], a) == (if m.adopter == a then [m] else [])
  {
    assert (xs + [m])[..|xs|] == xs;
    OfAppend(xs, ys, a);
  }

  ghost predicate IsFirstAdd(history: seq<Modification>, f: nat) {
    f < |history| && history[f].Add? && forall i :: 0 <= i < f ==> history[i].Remove?
  }

  /** The stored contract and triggers are those of the first addition; later ones only move the start. */
  lemma {:induction false} FoldKeepsFirst(history: seq<Modification>, f: nat)
    requires IsFirstAdd(history, f)
    ensures Fold(None, history).Some?
    ensures Fold(None, history).value.contract == history[f].contract
    ensures Fold(None, history).value.triggers == history[f].triggers
    decreases |history|
  {
    var n := |history| - 1;
    var front := history[..n];
    if f < n {
      FoldKeepsFirst(front, f);
    } else {
      NothingStored(front);
    }
  }

  lemma {:induction false} NothingStored(history: seq<Modification>)
    requires forall i :: 0 <= i < |history| ==> history[i].Remove?
    ensures Fold(None, history) == None
    decreases |history|
  {
    if history != [] {
      NothingStored(history[..|history| - 1]);
    }
  }

  // ---- what a reader is handed ----

  ghost predicate AnswersFor(r: seq<ForExecution>, k: nat, id: B256) {
    k < |r| && r[k].contract.id == id
  }

  /** One answer for the id if its entry is in its window, with that entry's contract and the functions registered
      in it; none otherwise. */
  ghost predicate AnswersOnce(r: seq<ForExecution>, entry: Option<AssertionState>, fired: set<TriggerType>,
                              adopter: Address, block: nat, id: B256)
  {
    && (StoredActive(entry, block) <==> exists k: nat :: AnswersFor(r, k, id))
    && (forall j: nat, k: nat :: AnswersFor(r, j, id) && AnswersFor(r, k, id) ==> j == k)
    && (forall k: nat :: AnswersFor(r, k, id) ==> entry.Some? && Selects(r[k], entry.value, fired, adopter))
  }

  lemma FrontIsDistinct(list: AdopterList)
    requires DistinctIds(list) && list != []
    ensures DistinctIds(list[..|list| - 1])
  {
    var front := list[..|list| - 1];
    forall i, j | 0 <= i < j < |front| ensures front[i].contract.id != front[j].contract.id {
      assert front[i] == list[i] && front[j] == list[j];
    }
  }

  lemma {:induction false} ReadsListOnce(list: AdopterList, fired: set<TriggerType>, adopter: Address, block: nat,
                                         r: seq<ForExecution>, id: B256)
    requires DistinctIds(list) && ReadsList(list, fired, adopter, block, r)
    ensures AnswersOnce(r, Lookup(list, id), fired, adopter, block, id)
    decreases |list|
  {
    if list != [] {
      var n := |list| - 1;
      var front, last := list[..n], list[n];
      assert list == front + [last];
      FrontIsDistinct(list);
      LookupSnoc(front, last, id);
      if InWindow(last, block) {
        var m := |r| - 1;
        ReadsListOnce(front, fired, adopter, block, r[..m], id);
        assert r == r[..m] + [r[m]];
        OneMoreAnswer(r[..m], r[m], Lookup(front, id), last, fired, adopter, block, id);
      } else {
        ReadsListOnce(front, fired, adopter, block, r, id);
      }
    }
  }

  lemma OneMoreAnswer(rest: seq<ForExecution>, x: ForExecution, entry: Option<AssertionState>, last: AssertionState,
                      fired: set<TriggerType>, adopter: Address, block: nat, id: B256)
    requires AnswersOnce(rest, entry, fired, adopter, block, id)
    requires InWindow(last, block) && Selects(x, last, fired, adopter) && (last.contract.id == id ==> entry == None)
    ensures AnswersOnce(rest + [x], if last.contract.id == id then Some(last) else entry, fired, adopter, block, id)
  {
    var r, m := rest + [x], |rest|;
    assert forall k: nat :: k < m ==> (AnswersFor(r, k, id) <==> AnswersFor(rest, k, id));
    assert AnswersFor(r, m, id) <==> last.contract.id == id;
    if k: nat :| AnswersFor(rest, k, id) {
      assert AnswersFor(r, k, id);
    }
  }

  lemma LookupSnoc(front: AdopterList, last: AssertionState, id: B256)
    requires DistinctIds(front + [last])
    ensures Lookup(front + [last], id) == if last.contract.id == id then Some(last) else Lookup(front, id)
    ensures last.contract.id == id ==> Lookup(front, id) == None
  {
    var list, p := front + [last], Position(front, id);
    assert list[|front|] == last;
    assert forall i :: 0 <= i < |front| ==> list[i] == front[i] && list[i].contract.id != last.contract.id;
    PositionUnique(list, id, if p < |front| then p else if last.contract.id == id then |front| else |list|);
  }

  /** On a store replayed from nothing a read of an adopter hands out exactly one answer for an id if the fold of
      the id's history is in its window, and none otherwise. */
  lemma ReaderFollowsHistory(mods: seq<Modification>, adopter: Address, fired: set<TriggerType>, block: nat,
                             r: seq<ForExecution>, id: B256)
    requires ReadsList(Get(ApplyAll(map[], mods), adopter), fired, adopter, block, r)
    ensures AnswersOnce(r, Fold(None, OfId(Of(mods, adopter), id)), fired, adopter, block, id)
  {
    ApplyAllPointwise(map[], mods, adopter);
    ApplyListKeepsDistinct([], Of(mods, adopter));
    LookupIsFold([], Of(mods, adopter), id);
    ReadsListOnce(Get(ApplyAll(map[], mods), adopter), fired, adopter, block, r, id);
  }
}
