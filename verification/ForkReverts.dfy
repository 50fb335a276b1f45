/** Reverts across a fork switch. A revert undoes what the active fork's journal holds since the checkpoint, and
    nothing that was journaled while the other fork was active, although a persistent account's slots are handed
    over with the switch. */
module ForkReverts {
  import opened Types
  import opened Journal
  import opened MultiForkDb
  import opened MultiForkRuns

  /** Writing a slot, or switching forks. */
  datatype Action = Write(cell: Cell, value: Word) | Enter(id: ForkId)

  /** What each fork's database holds. */
  type Bases = ForkId -> Base

  function Do(bases: Bases, w: World, step: Action): (w': World)
    requires w.js.journal != []
    ensures w'.js.journal != [] && w'.js.depth == w.js.depth
  {
    match step
    case Write(c, v) => w.(js := Store(bases(w.multi.id), w.js, c, v))
    case Enter(id) => var r := Switch(w.multi, w.js, FRESH, id); World(r.multi, r.js)
  }

  function DoAll(bases: Bases, w: World, steps: seq<Action>): (w': World)
    requires w.js.journal != []
    ensures w'.js.journal != [] && w'.js.depth == w.js.depth
    decreases |steps|
  {
    if steps == [] then w else Do(bases, DoAll(bases, w, steps[..|steps| - 1]), steps[|steps| - 1])
  }

  // ---- the reference: the slot's history since the checkpoint ----

  function ActiveIn(id: ForkId, steps: seq<Action>): ForkId {
    if steps == [] then id
    else
      var n := |steps| - 1;
      if steps[n].Enter? then steps[n].id else ActiveIn(id, steps[..n])
  }

  /** The slot's value, in whichever fork. */
  function ValueAfter(start: Word, steps: seq<Action>, c: Cell): Word {
    if steps == [] then start
    else
      var n := |steps| - 1;
      if steps[n].Write? && steps[n].cell == c then steps[n].value else ValueAfter(start, steps[..n], c)
  }

  /** What each write that changed the slot in fork `id` replaced, in order. */
  function Replaced(start: Word, first: ForkId, steps: seq<Action>, c: Cell, id: ForkId): seq<Word> {
    if steps == [] then []
    else
      var n := |steps| - 1;
      var value := ValueAfter(start, steps[..n], c);
      Replaced(start, first, steps[..n], c, id) +
      if steps[n].Write? && steps[n].cell == c && steps[n].value != value && ActiveIn(first, steps[..n]) == id
      then [value] else []
  }

  // ---- the invariant ----

  function Aside(w: World): Option<JournaledState> {
    if w.multi.id.Other() in w.multi.inactive then w.multi.inactive[w.multi.id.Other()].journaled else None
  }

  function Frame(journal: seq<seq<JournalEntry>>, index: nat): seq<JournalEntry> {
    if index < |journal| then journal[index] else []
  }

  /** The fork kept aside tracks no slot of the account that the active one does not, and its journal is not
      longer. */
  ghost predicate Poised(w: World, a: Address) {
    && w.multi.inactive.Keys == {w.multi.id.Other()}
    && (Aside(w).Some? ==> Covers(w.js.state, Aside(w).value.state, a) && |Aside(w).value.journal| <= |w.js.journal|)
  }

  /** The slot has its value, and each fork's journal holds, in the frame of the checkpoint, what was replaced
      while it was active. */
  ghost predicate Recorded(bases: Bases, w: World, index: nat, c: Cell, first: ForkId, start: Word,
                           steps: seq<Action>) {
    && Poised(w, c.address) && w.multi.id == ActiveIn(first, steps) && |w.js.journal| == index + 1
    && Present(bases(w.multi.id), w.js.state, c) == ValueAfter(start, steps, c)
    && Olds(Frame(w.js.journal, index), c) == Replaced(start, first, steps, c, w.multi.id)
    && Olds(if Aside(w).Some? then Frame(Aside(w).value.journal, index) else [], c)
       == Replaced(start, first, steps, c, w.multi.id.Other())
  }

  lemma ReplacedSnoc(start: Word, first: ForkId, steps: seq<Action>, step: Action, c: Cell, id: ForkId)
    ensures ActiveIn(first, steps + [step]) == if step.Enter? then step.id else ActiveIn(first, steps)
    ensures ValueAfter(start, steps + [step], c)
         == if step.Write? && step.cell == c then step.value else ValueAfter(start, steps, c)
    ensures var value := ValueAfter(start, steps, c);
      Replaced(start, first, steps + [step], c, id) == Replaced(start, first, steps, c, id) +
        if step.Write? && step.cell == c && step.value != value && ActiveIn(first, steps) == id then [value] else []
  {
    assert (steps + [step])[..|steps|] == steps;
  }

  lemma WriteKeepsPoised(base: Base, w: World, a: Address, d: Cell, v: Word)
    requires Poised(w, a) && w.js.journal != []
    ensures Poised(w.(js := Store(base, w.js, d, v)), a)
  {
  }

  lemma WriteFrames(base: Base, js: JournaledState, index: nat, c: Cell, d: Cell, v: Word)
    requires |js.journal| == index + 1
    ensures var js' := Store(base, js, d, v); var present := Present(base, js.state, d);
      && |js'.journal| == index + 1
      && Present(base, js'.state, c) == (if c == d then v else Present(base, js.state, c))
      && Olds(js'.journal[index], c) == Olds(js.journal[index], c) + (if c == d && v != present then [present] else [])
  {
    OldsSnoc(js.journal[index], StorageChanged(d.address, d.slot, Present(base, js.state, d)), c);
  }

  lemma WriteRecords(bases: Bases, w: World, index: nat, c: Cell, first: ForkId, start: Word, steps: seq<Action>,
                     d: Cell, v: Word)
    requires Recorded(bases, w, index, c, first, start, steps)
    ensures Recorded(bases, Do(bases, w, Write(d, v)), index, c, first, start, steps + [Write(d, v)])
  {
    var base, w' := bases(w.multi.id), Do(bases, w, Write(d, v));
    WriteKeepsPoised(base, w, c.address, d, v);
    WriteFrames(base, w.js, index, c, d, v);
    assert Aside(w') == Aside(w);
    ReplacedSnoc(start, first, steps, Write(d, v), c, w.multi.id);
    ReplacedSnoc(start, first, steps, Write(d, v), c, w.multi.id.Other());
  }

  /** The hand-over leaves a persistent account as it is. */
  lemma HandOverKeeps(active: JournaledState, target: JournaledState, a: Address)
    requires a in PERSISTENT && Covers(active.state, target.state, a) && |target.journal| <= |active.journal|
    ensures var js := HandedOver(active, target);
      && SameAccount(js.state, active.state, a) && |js.journal| == |active.journal|
      && forall i: nat :: i < |js.journal| ==> js.journal[i] == Frame(target.journal, i)
  {
    MergeShares(active.state, target.state, PERSISTENT, a);
  }

  function Target(w: World): JournaledState {
    if Aside(w).Some? then Aside(w).value else FRESH
  }

  lemma SwitchShape(w: World, id: ForkId, a: Address)
    requires a in PERSISTENT && Poised(w, a) && w.js.journal != [] && id != w.multi.id
    ensures var r := Switch(w.multi, w.js, FRESH, id); var w' := World(r.multi, r.js);
      && Poised(w', a) && w'.multi.id == id && Aside(w') == Some(w.js)
      && SameAccount(w'.js.state, w.js.state, a) && |w'.js.journal| == |w.js.journal|
      && forall i: nat :: i < |w'.js.journal| ==> w'.js.journal[i] == Frame(Target(w).journal, i)
  {
    HandOverKeeps(w.js, Target(w), a);
  }

  lemma SwitchRecords(bases: Bases, w: World, index: nat, c: Cell, first: ForkId, start: Word, steps: seq<Action>,
                      id: ForkId)
    requires c.address in PERSISTENT && Stored(bases(PreTx), c) == Stored(bases(PostTx), c)
    requires Recorded(bases, w, index, c, first, start, steps) && index > 0
    ensures Recorded(bases, Do(bases, w, Enter(id)), index, c, first, start, steps + [Enter(id)])
  {
    ReplacedSnoc(start, first, steps, Enter(id), c, w.multi.id);
    ReplacedSnoc(start, first, steps, Enter(id), c, w.multi.id.Other());
    if id != w.multi.id {
      SwitchShape(w, id, c.address);
    }
  }

  lemma {:induction false} RunRecords(bases: Bases, w: World, index: nat, c: Cell, steps: seq<Action>)
    requires c.address in PERSISTENT && Stored(bases(PreTx), c) == Stored(bases(PostTx), c)
    requires Poised(w, c.address) && index > 0 && |w.js.journal| == index + 1 && w.js.journal[index] == []
    requires Aside(w).Some? ==> |Aside(w).value.journal| <= index
    ensures Recorded(bases, DoAll(bases, w, steps), index, c, w.multi.id, Present(bases(w.multi.id), w.js.state, c),
                     steps)
    decreases |steps|
  {
    if steps != [] {
      var n := |steps| - 1;
      var start := Present(bases(w.multi.id), w.js.state, c);
      RunRecords(bases, w, index, c, steps[..n]);
      assert steps == steps[..n] + [steps[n]];
      match steps[n]
      case Write(d, v) => WriteRecords(bases, DoAll(bases, w, steps[..n]), index, c, w.multi.id, start, steps[..n], d,
                                       v);
      case Enter(id) => SwitchRecords(bases, DoAll(bases, w, steps[..n]), index, c, w.multi.id, start, steps[..n], id);
    }
  }

  // ---- the theorem ----

  lemma {:induction false} BeforeIsOldest(entries: seq<JournalEntry>, c: Cell, v: Word)
    ensures Before(entries, c, v) == if Olds(entries, c) == [] then v else Olds(entries, c)[0]
    decreases |entries|
  {
    if entries != [] {
      var n := |entries| - 1;
      assert entries == entries[..n] + [entries[n]];
      BeforeAppend(entries[..n], [entries[n]], c, v);
      BeforeIsOldest(entries[..n], c, Before([entries[n]], c, v));
    }
  }

  /** What a slot of a persistent account holds after a checkpoint, any writes and switches, and a revert: what
      the first write that changed it in the fork active at the revert had replaced, or, if there was none, what
      it held just before the revert. */
  lemma RevertedValue(bases: Bases, w: World, c: Cell, steps: seq<Action>)
    requires c.address in PERSISTENT && Stored(bases(PreTx), c) == Stored(bases(PostTx), c)
    requires Poised(w, c.address) && w.js.journal != []
    ensures var index, open := |w.js.journal|, w.(js := Checkpoint(w.js));
      var start, id := Present(bases(w.multi.id), w.js.state, c), ActiveIn(w.multi.id, steps);
      var end := DoAll(bases, open, steps);
      var replaced := Replaced(start, w.multi.id, steps, c, id);
      && end.multi.id == id && |end.js.journal| == index + 1
      && Present(bases(id), Revert(end.js, index).state, c)
         == if replaced == [] then ValueAfter(start, steps, c) else replaced[0]
  {
    var index, open := |w.js.journal|, w.(js := Checkpoint(w.js));
    RunRecords(bases, open, index, c, steps);
    var end := DoAll(bases, open, steps);
    var since := end.js.journal[index];
    assert end.js.journal[index..] == [since];
    OneFrame(since);
    assert Revert(end.js, index).state == Undo(end.js.state, since);
    UndoRestores(bases(end.multi.id), end.js.state, since, c);
    BeforeIsOldest(since, c, Present(bases(end.multi.id), end.js.state, c));
  }

  lemma OneFrame(frame: seq<JournalEntry>)
    ensures Flatten([frame]) == frame
  {
    assert [frame][..0] == [];
    assert Flatten([frame]) == [] + frame;
  }

  /** The exact condition under which the revert restores the slot. */
  ghost predicate Restores(start: Word, first: ForkId, steps: seq<Action>, c: Cell) {
    var replaced := Replaced(start, first, steps, c, ActiveIn(first, steps));
    start == if replaced == [] then ValueAfter(start, steps, c) else replaced[0]
  }

  lemma RevertRestoresIff(bases: Bases, w: World, c: Cell, steps: seq<Action>)
    requires c.address in PERSISTENT && Stored(bases(PreTx), c) == Stored(bases(PostTx), c)
    requires Poised(w, c.address) && w.js.journal != []
    ensures var index, end := |w.js.journal|, DoAll(bases, w.(js := Checkpoint(w.js)), steps);
      var start := Present(bases(w.multi.id), w.js.state, c);
      && end.js.depth > 0 && index <= |end.js.journal|
      && (Present(bases(end.multi.id), Revert(end.js, index).state, c) == start
          <==> Restores(start, w.multi.id, steps, c))
  {
    RevertedValue(bases, w, c, steps);
  }

  /** Nothing in the other fork changed the slot: the first change, if any, replaced the start value. */
  lemma {:induction false} ChangedOnlyHere(start: Word, first: ForkId, steps: seq<Action>, c: Cell, id: ForkId)
    requires Replaced(start, first, steps, c, id.Other()) == []
    ensures var replaced := Replaced(start, first, steps, c, id);
      if replaced == [] then ValueAfter(start, steps, c) == start else replaced[0] == start
    decreases |steps|
  {
    if steps != [] {
      ChangedOnlyHere(start, first, steps[..|steps| - 1], c, id);
    }
  }

  /** So a slot changed only in the fork in which the revert happens is restored, and a slot that has another
      value now and was not changed there at all is not. */
  lemma RestoredIfChangedHere(start: Word, first: ForkId, steps: seq<Action>, c: Cell)
    ensures var id := ActiveIn(first, steps);
      && (Replaced(start, first, steps, c, id.Other()) == [] ==> Restores(start, first, steps, c))
      && (Replaced(start, first, steps, c, id) == [] && ValueAfter(start, steps, c) != start ==>
            !Restores(start, first, steps, c))
  {
    var id := ActiveIn(first, steps);
    if Replaced(start, first, steps, c, id.Other()) == [] {
      ChangedOnlyHere(start, first, steps, c, id);
    }
  }

  /** A write in one fork, a switch to the other and a revert there: the write stays. */
  lemma WriteElsewhereStays(start: Word, c: Cell, v: Word, first: ForkId)
    requires v != start
    ensures !Restores(start, first, [Write(c, v), Enter(first.Other())], c)
  {
    var steps := [Write(c, v), Enter(first.Other())];
    assert steps[..1] == [Write(c, v)] && steps[..1][..0] == [];
    assert ValueAfter(start, steps[..1], c) == v && Replaced(start, first, steps[..1], c, first.Other()) == [];
    RestoredIfChangedHere(start, first, steps, c);
  }

  /** Every run of writes and switches can be followed by such a checkpoint. */
  lemma {:induction false} RunsArePoised(bases: Bases, w: World, steps: seq<Action>, a: Address)
    requires a in PERSISTENT && Poised(w, a) && w.js.journal != []
    ensures Poised(DoAll(bases, w, steps), a)
    decreases |steps|
  {
    if steps != [] {
      var n := |steps| - 1;
      RunsArePoised(bases, w, steps[..n], a);
      var before := DoAll(bases, w, steps[..n]);
      match steps[n]
      case Write(d, v) => WriteKeepsPoised(bases(before.multi.id), before, a, d, v);
      case Enter(id) =>
        if id != before.multi.id {
          SwitchShape(before, id, a);
        }
    }
  }
}
