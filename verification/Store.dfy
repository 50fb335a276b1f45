/** The assertion store: one list of assertion states per adopter, edited by Add/Remove modifications. */
module Store {
  import opened Types

  datatype AssertionState = AssertionState(
    activeAtBlock: nat,
    inactiveAtBlock: Option<nat>,
    contract: AssertionContract,
    triggers: TriggerRecorder)

  type AdopterList = seq<AssertionState>
  type Db = map<Address, AdopterList>

  /** Position of the first state with this id, or the length of the list. */
  function Position(list: AdopterList, id: B256): (i: nat)
    ensures i <= |list|
    ensures i < |list| ==> list[i].contract.id == id
    ensures forall j :: 0 <= j < i ==> list[j].contract.id != id
  {
    if list == [] || list[0].contract.id == id then 0 else 1 + Position(list[1..], id)
  }

  function Lookup(list: AdopterList, id: B256): Option<AssertionState> {
    var i := Position(list, id);
    if i < |list| then Some(list[i]) else None
  }

  function Get(db: Db, a: Address): AdopterList {
    if a in db then db[a] else []
  }

  // ---- the sequential meaning of the edits ----

  function ApplyToList(list: AdopterList, m: Modification): AdopterList {
    var i := Position(list, m.Id());
    match m
    case Add(_, contract, triggers, active) =>
      if i < |list| then list[i := list[i].(activeAtBlock := active)]
      else list + [AssertionState(active, None, contract, triggers)]
    case Remove(_, _, inactive) =>
      if i < |list| then list[i := list[i].(inactiveAtBlock := Some(inactive))] else list
  }

  function ApplyList(list: AdopterList, mods: seq<Modification>): AdopterList
    decreases |mods|
  {
    if mods == [] then list else ApplyList(ApplyToList(list, mods[0]), mods[1..])
  }

  function InsertList(list: AdopterList, s: AssertionState): AdopterList {
    var i := Position(list, s.contract.id);
    if i < |list| then list[i := s] else list + [s]
  }

  /** One modification applied on its own to the whole store. */
  function ApplyOne(db: Db, m: Modification): Db {
    db[m.adopter := ApplyToList(Get(db, m.adopter), m)]
  }

  /** The reference: every modification applied one by one, in order. */
  function ApplyAll(db: Db, mods: seq<Modification>): Db
    decreases |mods|
  {
    if mods == [] then db else ApplyAll(ApplyOne(db, mods[0]), mods[1..])
  }

  /** The modifications of one adopter, in their original order. */
  function Of(mods: seq<Modification>, a: Address): seq<Modification> {
    if mods == [] then []
    else if mods[0].adopter == a then [mods[0]] + Of(mods[1..], a)
    else Of(mods[1..], a)
  }

  /** One adopter's group applied in one write, even when it is empty. */
  function ApplyGroup(db: Db, a: Address, mods: seq<Modification>): Db {
    db[a := ApplyList(Get(db, a), mods)]
  }

  function ApplyGroups(db: Db, mods: seq<Modification>, order: seq<Address>): Db
    decreases |order|
  {
    if order == [] then db else ApplyGroups(ApplyGroup(db, order[0], Of(mods, order[0])), mods, order[1..])
  }

  // ---- fold laws ----

  lemma {:induction false} ApplyAllAppend(db: Db, xs: seq<Modification>, ys: seq<Modification>)
    ensures ApplyAll(db, xs + ys) == ApplyAll(ApplyAll(db, xs), ys)
    decreases |xs|
  {
    if xs == [] {
      assert xs + ys == ys;
    } else {
      assert (xs + ys)[1..] == xs[1..] + ys;
      ApplyAllAppend(ApplyOne(db, xs[0]), xs[1..], ys);
    }
  }

  lemma {:induction false} ApplyListAppend(list: AdopterList, xs: seq<Modification>, ys: seq<Modification>)
    ensures ApplyList(list, xs + ys) == ApplyList(ApplyList(list, xs), ys)
    decreases |xs|
  {
    if xs == [] {
      assert xs + ys == ys;
    } else {
      assert (xs + ys)[1..] == xs[1..] + ys;
      ApplyListAppend(ApplyToList(list, xs[0]), xs[1..], ys);
    }
  }

  lemma {:induction false} OfAppend(xs: seq<Modification>, ys: seq<Modification>, a: Address)
    ensures Of(xs + ys, a) == Of(xs, a) + Of(ys, a)
  {
    if xs == [] {
      assert xs + ys == ys;
    } else {
      assert (xs + ys)[1..] == xs[1..] + ys;
      OfAppend(xs[1..], ys, a);
    }
  }

  /** Adopters are independent: the flat replay gives each adopter its own group, in order. */
  lemma {:induction false} ApplyAllPointwise(db: Db, mods: seq<Modification>, a: Address)
    ensures a in ApplyAll(db, mods) <==> a in db || Of(mods, a) != []
    ensures Get(ApplyAll(db, mods), a) == ApplyList(Get(db, a), Of(mods, a))
    decreases |mods|
  {
    if mods != [] {
      var rest := ApplyOne(db, mods[0]);
      ApplyAllPointwise(rest, mods[1..], a);
      if mods[0].adopter == a {
        var group := Of(mods, a);
        assert group[0] == mods[0] && group[1..] == Of(mods[1..], a);
      }
    }
  }

  lemma {:induction false} ApplyGroupsPointwise(db: Db, mods: seq<Modification>, order: seq<Address>, a: Address)
    requires forall i, j :: 0 <= i < j < |order| ==> order[i] != order[j]
    ensures a in ApplyGroups(db, mods, order) <==> a in db || a in order
    ensures Get(ApplyGroups(db, mods, order), a)
         == if a in order then ApplyList(Get(db, a), Of(mods, a)) else Get(db, a)
    decreases |order|
  {
    if order != [] {
      var rest := order[1..];
      forall i, j | 0 <= i < j < |rest| ensures rest[i] != rest[j] {
        assert rest[i] == order[i + 1] && rest[j] == order[j + 1];
      }
      assert a in order <==> a == order[0] || a in rest;
      forall k | 0 <= k < |rest| ensures rest[k] != order[0] {
        assert rest[k] == order[k + 1];
      }
      ApplyGroupsPointwise(ApplyGroup(db, order[0], Of(mods, order[0])), mods, rest, a);
    }
  }

  /** Grouping by adopter and applying the groups in any adopter order is the flat replay. */
  lemma GroupingIsFlatReplay(db: Db, mods: seq<Modification>, order: seq<Address>)
    requires forall i, j :: 0 <= i < j < |order| ==> order[i] != order[j]
    requires forall a :: a in order <==> Of(mods, a) != []
    ensures ApplyGroups(db, mods, order) == ApplyAll(db, mods)
  {
    var g, f := ApplyGroups(db, mods, order), ApplyAll(db, mods);
    forall a ensures a in g <==> a in f
             ensures Get(g, a) == Get(f, a)
    {
      ApplyGroupsPointwise(db, mods, order, a);
      ApplyAllPointwise(db, mods, a);
    }
    assert g.Keys == f.Keys;
    forall a | a in g ensures g[a] == f[a] {
      assert Get(g, a) == Get(f, a);
    }
  }

  // ---- the store object ----

  /** The per-adopter tree. `insert` and each compare-and-swap hold the lock, so each is one step;
      module StoreConcurrency treats their interleavings. */
  class AssertionStore {
    var db: Db

    constructor (initial: Db)
      ensures db == initial
    {
      db := initial;
    }

    /** Replaces the state with the same contract id, or appends; returns the one replaced. */
    method Insert(adopter: Address, s: AssertionState) returns (previous: Option<AssertionState>)
      modifies this
      ensures db == old(db)[adopter := InsertList(Get(old(db), adopter), s)]
      ensures previous == Lookup(Get(old(db), adopter), s.contract.id)
      ensures Lookup(db[adopter], s.contract.id) == Some(s)
    {
      var list := Get(db, adopter);
      var i := FindPosition(list, s.contract.id);
      if i < |list| {
        previous := Some(list[i]);
        list := list[i := s];
      } else {
        previous := None;
        list := list + [s];
      }
      db := db[adopter := list];
      PositionUnique(list, s.contract.id, i);
    }

    /** Each adopter's modifications, in their original order. */
    static method GroupByAdopter(mods: seq<Modification>) returns (groups: map<Address, seq<Modification>>)
      ensures forall a :: a in groups <==> Of(mods, a) != []
      ensures forall a :: a in groups ==> groups[a] == Of(mods, a)
    {
      groups := map[];
      for i := 0 to |mods|
        invariant forall a :: a in groups <==> Of(mods[..i], a) != []
        invariant forall a :: a in groups ==> groups[a] == Of(mods[..i], a)
      {
        var a := mods[i].adopter;
        var sofar := if a in groups then groups[a] else [];
        groups := groups[a := sofar + [mods[i]]];
        TakeSnoc(mods, i);
        forall b ensures Of(mods[..i + 1], b) == Of(mods[..i], b) + (if a == b then [mods[i]] else []) {
          OfAppend(mods[..i], [mods[i]], b);
        }
      }
      assert mods[..|mods|] == mods;
    }

    /** Groups by adopter, then applies the groups in whatever order the hash map yields them. */
    method ApplyPendingModifications(mods: seq<Modification>)
      modifies this
      ensures db == ApplyAll(old(db), mods)
    {
      var groups := GroupByAdopter(mods);
      ghost var order: seq<Address> := [];
      var left := groups.Keys;
      while left != {}
        invariant left <= groups.Keys
        invariant forall a :: a in order <==> a in groups && a !in left
        invariant forall i, j :: 0 <= i < j < |order| ==> order[i] != order[j]
        invariant db == ApplyGroups(old(db), mods, order)
        decreases |left|
      {
        var a :| a in left;
        ApplyPendingModification(a, groups[a]);
        ApplyGroupsSnoc(old(db), mods, order, a);
        order := order + [a];
        left := left - {a};
      }
      GroupingIsFlatReplay(old(db), mods, order);
    }

    /** Edits a copy of the adopter's list and writes it back. With no other writer the
        compare-and-swap finds the value that was read. */
    method ApplyPendingModification(adopter: Address, mods: seq<Modification>)
      modifies this
      ensures db == ApplyGroup(old(db), adopter, mods)
    {
      var list := Get(db, adopter);
      for k := 0 to |mods|
        invariant list == ApplyList(Get(old(db), adopter), mods[..k])
        invariant db == old(db)
      {
        var m := mods[k];
        var i := FindPosition(list, m.Id());
        ghost var before := list;
        match m {
          case Add(_, contract, triggers, active) =>
            if i < |list| {
              list := list[i := list[i].(activeAtBlock := active)];
            } else {
              list := list + [AssertionState(active, None, contract, triggers)];
            }
          case Remove(_, _, inactive) =>
            if i < |list| {
              list := list[i := list[i].(inactiveAtBlock := Some(inactive))];
            }
        }
        assert list == ApplyToList(before, m);
        assert mods[..k + 1] == mods[..k] + [m];
        ApplyListAppend(Get(old(db), adopter), mods[..k], [m]);
      }
      assert mods[..|mods|] == mods;
      db := db[adopter := list];
    }
  }

  lemma {:induction false} ApplyGroupsSnoc(db: Db, mods: seq<Modification>, order: seq<Address>, a: Address)
    ensures ApplyGroups(db, mods, order + [a]) == ApplyGroup(ApplyGroups(db, mods, order), a, Of(mods, a))
    decreases |order|
  {
    if order != [] {
      assert (order + [a])[1..] == order[1..] + [a];
      ApplyGroupsSnoc(ApplyGroup(db, order[0], Of(mods, order[0])), mods, order[1..], a);
    }
  }

  lemma {:induction false} PositionUnique(list: AdopterList, id: B256, i: nat)
    requires i <= |list|
    requires i < |list| ==> list[i].contract.id == id
    requires forall j :: 0 <= j < i ==> list[j].contract.id != id
    ensures Position(list, id) == i
  {
  }

  /** Linear search, as the `position` and `find` calls do it. */
  method FindPosition(list: AdopterList, id: B256) returns (i: nat)
    ensures i == Position(list, id)
  {
    i := 0;
    while i < |list| && list[i].contract.id != id
      invariant i <= |list|
      invariant forall j :: 0 <= j < i ==> list[j].contract.id != id
    {
      i := i + 1;
    }
    PositionUnique(list, id, i);
  }
}
