/** The activity window that the store keeps for an assertion, against the timeline of its events. */
module ActivityWindow {
  import opened Types
  import opened Store

  // ---- one assertion of one adopter ----

  function FoldOne(s: Option<AssertionState>, m: Modification): Option<AssertionState> {
    match m
    case Add(_, contract, triggers, active) =>
      if s.Some? then Some(s.value.(activeAtBlock := active))
      else Some(AssertionState(active, None, contract, triggers))
    case Remove(_, _, inactive) =>
      if s.Some? then Some(s.value.(inactiveAtBlock := Some(inactive))) else None
  }

  function Fold(s: Option<AssertionState>, history: seq<Modification>): Option<AssertionState>
    decreases |history|
  {
    if history == [] then s else FoldOne(Fold(s, history[..|history| - 1]), history[|history| - 1])
  }

  lemma FoldSnoc(s: Option<AssertionState>, history: seq<Modification>, m: Modification)
    ensures Fold(s, history + [m]) == FoldOne(Fold(s, history), m)
  {
    assert (history + [m])[..|history|] == history;
  }

  /** The events of one assertion id, in order. */
  function OfId(mods: seq<Modification>, id: B256): seq<Modification> {
    if mods == [] then []
    else OfId(mods[..|mods| - 1], id) + if mods[|mods| - 1].Id() == id then [mods[|mods| - 1]] else []
  }

  lemma LookupAfterOne(list: AdopterList, m: Modification, id: B256)
    ensures Lookup(ApplyToList(list, m), id) == if m.Id() == id then FoldOne(Lookup(list, id), m) else Lookup(list, id)
  {
    var out := ApplyToList(list, m);
    var p, q := Position(list, id), Position(list, m.Id());
    if q < |list| {
      PositionUnique(out, id, p);
    } else if m.Add? && m.Id() == id {
      PositionUnique(out, id, |list|);
    } else if m.Add? {
      PositionUnique(out, id, if p < |list| then p else |out|);
    }
  }

  /** Ids are independent: the list entry of an id is the fold of that id's own events. */
  lemma {:induction false} LookupIsFold(list: AdopterList, mods: seq<Modification>, id: B256)
    ensures Lookup(ApplyList(list, mods), id) == Fold(Lookup(list, id), OfId(mods, id))
    decreases |mods|
  {
    if mods != [] {
      var n := |mods| - 1;
      var front, m := mods[..n], mods[n];
      LookupIsFold(list, front, id);
      assert mods == front + [m];
      ApplyListAppend(list, front, [m]);
      assert ApplyList(ApplyList(list, front), [m]) == ApplyToList(ApplyList(list, front), m);
      LookupAfterOne(ApplyList(list, front), m, id);
      if m.Id() == id {
        FoldSnoc(Lookup(list, id), OfId(front, id), m);
      } else {
        assert OfId(front, id) + [] == OfId(front, id);
      }
    }
  }

  // ---- the window and the timeline ----

  /** The filter of `read_adopter`: an end before the start is ignored. */
  predicate InWindow(s: AssertionState, block: nat) {
    var end := if s.inactiveAtBlock.Some? && s.inactiveAtBlock.value >= s.activeAtBlock
               then s.inactiveAtBlock.value else U64_MAX;
    s.activeAtBlock <= block < end
  }

  predicate StoredActive(s: Option<AssertionState>, block: nat) {
    s.Some? && InWindow(s.value, block)
  }

  /** The timeline: at a block the last event in effect decides. */
  predicate TimelineActive(history: seq<Modification>, block: nat)
    decreases |history|
  {
    history != [] &&
    var last := history[|history| - 1];
    if last.EffectiveBlock() <= block then last.Add? else TimelineActive(history[..|history| - 1], block)
  }

  ghost predicate Chronological(history: seq<Modification>) {
    && (forall i, j :: 0 <= i <= j < |history| ==> history[i].EffectiveBlock() <= history[j].EffectiveBlock())
    && (forall i :: 0 <= i < |history| ==> history[i].EffectiveBlock() <= U64_MAX)
  }

  ghost predicate IsLastAdd(history: seq<Modification>, l: nat) {
    l < |history| && history[l].Add? && forall i :: l < i < |history| ==> history[i].Remove?
  }

  /** A removal that took hold before the last addition: one that follows some addition. */
  ghost predicate RemovedBefore(history: seq<Modification>, l: nat, r: nat)
    requires l < |history|
  {
    r < l && history[r].Remove? && exists a :: 0 <= a < r && history[a].Add?
  }

  /** When the stored pair can represent the history from its last addition on: all removals after that
      addition take effect at one block, and, if there are none, no earlier removal takes effect at the
      addition's own block. */
  ghost predicate Representable(history: seq<Modification>, l: nat)
    requires IsLastAdd(history, l)
  {
    var n := |history|;
    if l + 1 < n then history[l + 1].EffectiveBlock() == history[n - 1].EffectiveBlock()
    else forall r: nat :: RemovedBefore(history, l, r) ==> history[r].EffectiveBlock() < history[l].EffectiveBlock()
  }

  // ---- what the fold stores ----

  lemma {:induction false} FoldActive(history: seq<Modification>, l: nat)
    requires IsLastAdd(history, l)
    ensures Fold(None, history).Some? && Fold(None, history).value.activeAtBlock == history[l].EffectiveBlock()
    decreases |history|
  {
    var front := history[..|history| - 1];
    if l < |history| - 1 {
      FoldActive(front, l);
    }
  }

  /** The stored end is the last removal that follows an addition, if there is one. */
  lemma {:induction false} FoldInactive(history: seq<Modification>) returns (r: Option<nat>)
    ensures Fold(None, history).Some? <==> exists a :: 0 <= a < |history| && history[a].Add?
    ensures Fold(None, history).Some? ==>
      match r
      case None =>
        && Fold(None, history).value.inactiveAtBlock.None?
        && forall k, a :: 0 <= a < k < |history| && history[a].Add? ==> history[k].Add?
      case Some(k) =>
        && k < |history| && history[k].Remove? && (exists a :: 0 <= a < k && history[a].Add?)
        && Fold(None, history).value.inactiveAtBlock == Some(history[k].EffectiveBlock())
        && forall j :: k < j < |history| ==> history[j].Add?
    decreases |history|
  {
    if history == [] {
      r := None;
    } else {
      var n := |history| - 1;
      var front := history[..n];
      r := FoldInactive(front);
      if Fold(None, front).Some? {
        var a :| 0 <= a < |front| && front[a].Add?;
        assert history[a].Add?;
        if history[n].Remove? {
          r := Some(n);
        }
      } else {
        r := None;
        assert forall a :: 0 <= a < n ==> history[a] == front[a];
      }
    }
  }

  // ---- agreement ----

  /** From the last addition on, the timeline is active until the first removal after it. */
  lemma {:induction false} TimelineAfterLastAdd(history: seq<Modification>, l: nat, block: nat)
    requires Chronological(history) && IsLastAdd(history, l) && history[l].EffectiveBlock() <= block
    ensures TimelineActive(history, block) <==> l + 1 == |history| || block < history[l + 1].EffectiveBlock()
    decreases |history|
  {
    var n := |history| - 1;
    if l < n && history[n].EffectiveBlock() > block {
      TimelineAfterLastAdd(history[..n], l, block);
    }
  }

  /** The stored end in terms of the last addition. */
  lemma StoredEnd(history: seq<Modification>, l: nat)
    requires Chronological(history) && IsLastAdd(history, l)
    ensures var s := Fold(None, history); var n := |history|;
      && s.Some? && s.value.activeAtBlock == history[l].EffectiveBlock()
      && (l + 1 < n ==> s.value.inactiveAtBlock == Some(history[n - 1].EffectiveBlock()))
      && (l + 1 == n && s.value.inactiveAtBlock.Some? ==>
            exists r: nat :: RemovedBefore(history, l, r)
                     && s.value.inactiveAtBlock == Some(history[r].EffectiveBlock())
                     && forall q: nat :: RemovedBefore(history, l, q) ==> q <= r)
      && (l + 1 == n && s.value.inactiveAtBlock.None? ==> forall q: nat :: !RemovedBefore(history, l, q))
  {
    FoldActive(history, l);
    var r := FoldInactive(history);
    var n := |history|;
    match r
    case None =>
      assert l + 1 == n;
    case Some(k) =>
      if l + 1 < n {
        assert k == n - 1;
      } else {
        assert RemovedBefore(history, l, k);
      }
  }

  /** For every chronological history the stored pair agrees with the timeline at every block from the
      last addition on exactly when the history is representable. */
  lemma WindowAgreesIff(history: seq<Modification>, l: nat)
    requires Chronological(history) && IsLastAdd(history, l) && history[l].EffectiveBlock() < U64_MAX
    ensures (forall b :: history[l].EffectiveBlock() <= b < U64_MAX ==>
               (StoredActive(Fold(None, history), b) <==> TimelineActive(history, b)))
            <==> Representable(history, l)
  {
    var s, start, n := Fold(None, history), history[l].EffectiveBlock(), |history|;
    StoredEnd(history, l);
    forall b | start <= b < U64_MAX
      ensures TimelineActive(history, b) <==> l + 1 == n || b < history[l + 1].EffectiveBlock()
    {
      TimelineAfterLastAdd(history, l, b);
    }
    if l + 1 < n {
      var first, final := history[l + 1].EffectiveBlock(), history[n - 1].EffectiveBlock();
      assert start <= first <= final;
      if first < final {
        assert StoredActive(s, first) && !TimelineActive(history, first);
      }
    } else if s.value.inactiveAtBlock.Some? {
      var r: nat :| RemovedBefore(history, l, r) && s.value.inactiveAtBlock == Some(history[r].EffectiveBlock())
                && forall q: nat :: RemovedBefore(history, l, q) ==> q <= r;
      if history[r].EffectiveBlock() == start {
        assert !StoredActive(s, start) && TimelineActive(history, start);
      } else {
        assert Representable(history, l);
      }
    }
  }

  /** Below the last addition the store reports an assertion inactive: earlier intervals are forgotten. */
  lemma EarlierIntervalsForgotten(history: seq<Modification>, l: nat, block: nat)
    requires IsLastAdd(history, l) && block < history[l].EffectiveBlock()
    ensures !StoredActive(Fold(None, history), block)
  {
    FoldActive(history, l);
  }

  /** The same for a list in the store: the entry of an id that was absent before. */
  lemma StoreAgreesWithTimelineIff(list: AdopterList, mods: seq<Modification>, id: B256, l: nat)
    requires Lookup(list, id).None?
    requires var h := OfId(mods, id); Chronological(h) && IsLastAdd(h, l) && h[l].EffectiveBlock() < U64_MAX
    ensures var h := OfId(mods, id);
      (forall b :: h[l].EffectiveBlock() <= b < U64_MAX ==>
         (StoredActive(Lookup(ApplyList(list, mods), id), b) <==> TimelineActive(h, b)))
      <==> Representable(h, l)
  {
    LookupIsFold(list, mods, id);
    WindowAgreesIff(OfId(mods, id), l);
  }

  /** A removal and a re-addition that take effect at the same block: the store never activates it again. */
  lemma SameBlockReaddIsLost()
    ensures var c := AssertionContract(1, 0);
      var h := [Add(0, c, map[], 5), Remove(0, 1, 9), Add(0, c, map[], 9)];
      !StoredActive(Fold(None, h), 9) && TimelineActive(h, 9)
  {
    var c := AssertionContract(1, 0);
    var h := [Add(0, c, map[], 5), Remove(0, 1, 9), Add(0, c, map[], 9)];
    assert h[..2][..1] == [h[0]] && h[..2][1] == h[1] && [h[0]][..0] == [];
    assert Fold(None, [h[0]]) == FoldOne(None, h[0]);
    assert Fold(None, h[..2]) == FoldOne(FoldOne(None, h[0]), h[1]);
  }
}
