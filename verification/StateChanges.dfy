/** The slot history that `get_differences` recovers from the journal, against a machine that copies the
    whole memory at every checkpoint. */
module StateChanges {
  import opened Types
  import opened Journal

  datatype Step = StoreStep(cell: Cell, value: Word) | NoteStep(entry: JournalEntry) | Open | CommitLast | RevertLast

  // ---- the journaled machine ----

  /** `open` holds the frame numbers of the open checkpoints, outermost first. */
  datatype Machine = Machine(js: JournaledState, open: seq<nat>)

  ghost predicate Wellformed(m: Machine) {
    && m.js.journal != [] && m.js.depth == |m.open|
    && (forall i :: 0 <= i < |m.open| ==> 0 < m.open[i] < |m.js.journal|)
    && (forall i, j :: 0 <= i < j < |m.open| ==> m.open[i] < m.open[j])
  }

  /** A commit or revert without an open checkpoint does nothing. */
  function Next(base: Base, m: Machine, step: Step): Machine
    requires Wellformed(m)
  {
    var n := |m.open|;
    match step
    case StoreStep(c, v) => m.(js := Store(base, m.js, c, v))
    case NoteStep(e) => m.(js := Note(m.js, e))
    case Open => Machine(Checkpoint(m.js), m.open + [|m.js.journal|])
    case CommitLast => if n == 0 then m else Machine(Commit(m.js), m.open[..n - 1])
    case RevertLast => if n == 0 then m else Machine(Revert(m.js, m.open[n - 1]), m.open[..n - 1])
  }

  // ---- the copying machine ----

  /** Memory contents and the values that one watched slot took on, in order. */
  datatype Memory = Memory(cells: map<Cell, Word>, history: seq<Word>)

  datatype Copying = Copying(now: Memory, saved: seq<Memory>)

  function Value(base: Base, m: Memory, c: Cell): Word {
    if c in m.cells then m.cells[c] else Stored(base, c)
  }

  function CopyNext(base: Base, watched: Cell, r: Copying, step: Step): Copying {
    var n := |r.saved|;
    match step
    case StoreStep(c, v) =>
      if Value(base, r.now, c) == v then r
      else r.(now := Memory(r.now.cells[c := v], if c == watched then r.now.history + [v] else r.now.history))
    case NoteStep(_) => r
    case Open => r.(saved := r.saved + [r.now])
    case CommitLast => if n == 0 then r else r.(saved := r.saved[..n - 1])
    case RevertLast => if n == 0 then r else Copying(r.saved[n - 1], r.saved[..n - 1])
  }

  function CopyRun(base: Base, watched: Cell, steps: seq<Step>): Copying {
    if steps == [] then Copying(Memory(map[], []), [])
    else CopyNext(base, watched, CopyRun(base, watched, steps[..|steps| - 1]), steps[|steps| - 1])
  }

  // ---- the relation between them ----

  /** Start value and later values of a slot, as old values plus a present one. */
  ghost predicate Recorded(start: Word, history: seq<Word>, olds: seq<Word>, present: Word) {
    if history == [] then olds == [] && present == start
    else olds == [start] + history[..|history| - 1] && present == history[|history| - 1]
  }

  /** The journal up to frame `k` and the state before frame `k`, against one copied memory. */
  ghost predicate Agrees(base: Base, watched: Cell, js: JournaledState, k: nat, m: Memory)
    requires k <= |js.journal|
  {
    && (forall c :: Before(Flatten(js.journal[k..]), c, Present(base, js.state, c)) == Value(base, m, c))
    && Recorded(Stored(base, watched), m.history, Olds(Flatten(js.journal[..k]), watched), Value(base, m, watched))
  }

  ghost predicate Loaded(js: JournaledState, c: Cell) {
    Olds(Flatten(js.journal), c) != [] ==> c.address in js.state && c.slot in js.state[c.address].storage
  }

  ghost predicate Related(base: Base, watched: Cell, m: Machine, r: Copying) {
    && Wellformed(m) && |r.saved| == |m.open|
    && Agrees(base, watched, m.js, |m.js.journal|, r.now)
    && (forall i :: 0 <= i < |m.open| ==> Agrees(base, watched, m.js, m.open[i], r.saved[i]))
    && Loaded(m.js, watched)
  }

  function Prior(start: Word, history: seq<Word>, i: nat): Word
    requires i < |history|
  {
    if i == 0 then start else history[i - 1]
  }

  /** Adjacent values differ, the start value included. */
  ghost predicate Changing(start: Word, history: seq<Word>) {
    forall i :: 0 <= i < |history| ==> Prior(start, history, i) != history[i]
  }
}

/** Every step keeps the two machines related; so every run's differences are the watched slot's history. */
module StateChangesProof {
  import opened Types
  import opened Journal
  import opened StateChanges

  // ---- stores ----

  lemma StoreSetsPresent(base: Base, js: JournaledState, c: Cell, v: Word, d: Cell)
    requires js.journal != []
    ensures Present(base, Store(base, js, c, v).state, d) == if d == c then v else Present(base, js.state, d)
  {
  }

  /** A store after frame `k` was opened does not change what undoing back to `k` yields. */
  lemma StoreKeepsOlder(base: Base, watched: Cell, js: JournaledState, k: nat, m: Memory, c: Cell, v: Word)
    requires k < |js.journal| && Agrees(base, watched, js, k, m)
    ensures Agrees(base, watched, Store(base, js, c, v), k, m)
  {
    var js', present := Store(base, js, c, v), Present(base, js.state, c);
    var e := StorageChanged(c.address, c.slot, present);
    FlattenPush(js.journal, e, k);
    var xs := Flatten(js.journal[k..]);
    forall d ensures Before(Flatten(js'.journal[k..]), d, Present(base, js'.state, d)) == Value(base, m, d) {
      StoreSetsPresent(base, js, c, v, d);
      assert Before(xs, d, Present(base, js.state, d)) == Value(base, m, d);
      if present != v {
        BeforeAppend(xs, [e], d, Present(base, js'.state, d));
      }
    }
  }

  lemma RecordedSnoc(start: Word, history: seq<Word>, olds: seq<Word>, present: Word, v: Word)
    requires Recorded(start, history, olds, present)
    ensures Recorded(start, history + [v], olds + [present], v)
  {
    assert (history + [v])[..|history|] == history;
    if history != [] {
      assert history == history[..|history| - 1] + [present];
    }
  }

  lemma OldsAfterStore(base: Base, js: JournaledState, c: Cell, v: Word, d: Cell)
    requires js.journal != []
    ensures var present := Present(base, js.state, c); var js' := Store(base, js, c, v);
      Olds(Flatten(js'.journal), d) == Olds(Flatten(js.journal), d) + if present != v && d == c then [present] else []
  {
    var e := StorageChanged(c.address, c.slot, Present(base, js.state, c));
    FlattenPush(js.journal, e, 0);
    OldsSnoc(Flatten(js.journal), e, d);
    var js' := Store(base, js, c, v);
    assert js.journal[0..] == js.journal && js'.journal[0..] == js'.journal;
  }

  /** At the end of the journal there is nothing to undo. */
  lemma AgreesAtEnd(base: Base, watched: Cell, js: JournaledState, m: Memory)
    ensures Agrees(base, watched, js, |js.journal|, m) <==>
      && (forall c :: Present(base, js.state, c) == Value(base, m, c))
      && Recorded(Stored(base, watched), m.history, Olds(Flatten(js.journal), watched), Value(base, m, watched))
  {
    assert js.journal[|js.journal|..] == [] && js.journal[..|js.journal|] == js.journal;
    assert forall c, v :: Before([], c, v) == v;
  }

  lemma StoreKeepsNow(base: Base, watched: Cell, m: Machine, r: Copying, c: Cell, v: Word)
    requires Related(base, watched, m, r)
    ensures var m', r' := Next(base, m, StoreStep(c, v)), CopyNext(base, watched, r, StoreStep(c, v));
      Agrees(base, watched, m'.js, |m'.js.journal|, r'.now)
  {
    var js, js' := m.js, Store(base, m.js, c, v);
    var r' := CopyNext(base, watched, r, StoreStep(c, v));
    AgreesAtEnd(base, watched, js, r.now);
    AgreesAtEnd(base, watched, js', r'.now);
    assert Present(base, js.state, c) == Value(base, r.now, c);
    forall d ensures Present(base, js'.state, d) == Value(base, r'.now, d) {
      StoreSetsPresent(base, js, c, v, d);
      assert Present(base, js.state, d) == Value(base, r.now, d);
    }
    OldsAfterStore(base, js, c, v, watched);
    if c == watched && Value(base, r.now, c) != v {
      RecordedSnoc(Stored(base, watched), r.now.history, Olds(Flatten(js.journal), watched), Value(base, r.now, c), v);
    }
  }

  lemma StoreRelated(base: Base, watched: Cell, m: Machine, r: Copying, c: Cell, v: Word)
    requires Related(base, watched, m, r)
    ensures Related(base, watched, Next(base, m, StoreStep(c, v)), CopyNext(base, watched, r, StoreStep(c, v)))
  {
    StoreKeepsNow(base, watched, m, r, c, v);
    forall i | 0 <= i < |m.open| ensures Agrees(base, watched, Store(base, m.js, c, v), m.open[i], r.saved[i]) {
      StoreKeepsOlder(base, watched, m.js, m.open[i], r.saved[i], c, v);
    }
    OldsAfterStore(base, m.js, c, v, watched);
  }

  // ---- entries that do not concern storage ----

  lemma NoteKeepsBelow(base: Base, watched: Cell, js: JournaledState, k: nat, m: Memory, e: JournalEntry)
    requires k < |js.journal| && !e.StorageChanged? && Agrees(base, watched, js, k, m)
    ensures Agrees(base, watched, Note(js, e), k, m)
  {
    var js' := Note(js, e);
    var xs := Flatten(js.journal[k..]);
    FlattenPush(js.journal, e, k);
    assert Flatten(js'.journal[k..]) == xs + [e] && js'.journal[..k] == js.journal[..k];
    forall d ensures Before(xs + [e], d, Present(base, js.state, d)) == Value(base, m, d) {
      BeforeAppend(xs, [e], d, Present(base, js.state, d));
    }
  }

  lemma NoteKeeps(base: Base, watched: Cell, js: JournaledState, k: nat, m: Memory, e: JournalEntry)
    requires js.journal != [] && k <= |js.journal| && Agrees(base, watched, js, k, m)
    ensures Agrees(base, watched, Note(js, e), k, m)
  {
    if !e.StorageChanged? {
      if k < |js.journal| {
        NoteKeepsBelow(base, watched, js, k, m, e);
      } else {
        AgreesAtEnd(base, watched, js, m);
        AgreesAtEnd(base, watched, Note(js, e), m);
        NoteKeepsOlds(js, e, watched);
      }
    }
  }

  lemma NoteKeepsOlds(js: JournaledState, e: JournalEntry, c: Cell)
    requires js.journal != []
    ensures Olds(Flatten(Note(js, e).journal), c) == Olds(Flatten(js.journal), c)
  {
    if !e.StorageChanged? {
      FlattenPush(js.journal, e, 0);
      OldsSnoc(Flatten(js.journal), e, c);
      assert js.journal[0..] == js.journal && Note(js, e).journal[0..] == Note(js, e).journal;
    }
  }

  lemma NoteRelated(base: Base, watched: Cell, m: Machine, r: Copying, e: JournalEntry)
    requires Related(base, watched, m, r)
    ensures Related(base, watched, Next(base, m, NoteStep(e)), r)
  {
    NoteKeeps(base, watched, m.js, |m.js.journal|, r.now, e);
    forall i | 0 <= i < |m.open| ensures Agrees(base, watched, Note(m.js, e), m.open[i], r.saved[i]) {
      NoteKeeps(base, watched, m.js, m.open[i], r.saved[i], e);
    }
    NoteKeepsOlds(m.js, e, watched);
  }

  // ---- checkpoints ----

  lemma FlattenEmptyFrame(journal: seq<seq<JournalEntry>>)
    ensures Flatten(journal + [[]]) == Flatten(journal)
  {
    assert (journal + [[]])[..|journal|] == journal;
    assert Flatten(journal) + [] == Flatten(journal);
  }

  lemma OpenKeeps(base: Base, watched: Cell, js: JournaledState, k: nat, m: Memory)
    requires k <= |js.journal| && Agrees(base, watched, js, k, m)
    ensures Agrees(base, watched, Checkpoint(js), k, m)
  {
    var js' := Checkpoint(js);
    assert js'.journal[k..] == js.journal[k..] + [[]] && js'.journal[..k] == js.journal[..k];
    FlattenEmptyFrame(js.journal[k..]);
  }

  lemma OpenKeepsNow(base: Base, watched: Cell, js: JournaledState, m: Memory)
    requires Agrees(base, watched, js, |js.journal|, m)
    ensures Agrees(base, watched, Checkpoint(js), |js.journal| + 1, m)
  {
    AgreesAtEnd(base, watched, js, m);
    AgreesAtEnd(base, watched, Checkpoint(js), m);
    FlattenEmptyFrame(js.journal);
  }

  lemma OpenRelated(base: Base, watched: Cell, m: Machine, r: Copying)
    requires Related(base, watched, m, r)
    ensures Related(base, watched, Next(base, m, Open), CopyNext(base, watched, r, Open))
  {
    var m', r' := Next(base, m, Open), CopyNext(base, watched, r, Open);
    OpenKeepsNow(base, watched, m.js, r.now);
    forall i | 0 <= i < |m'.open| ensures Agrees(base, watched, m'.js, m'.open[i], r'.saved[i]) {
      if i < |m.open| {
        OpenKeeps(base, watched, m.js, m.open[i], r.saved[i]);
      } else {
        OpenKeeps(base, watched, m.js, |m.js.journal|, r.now);
      }
    }
    FlattenEmptyFrame(m.js.journal);
  }

  // ---- reverts ----

  lemma RevertKeeps(base: Base, watched: Cell, js: JournaledState, index: nat, k: nat, m: Memory)
    requires js.depth > 0 && k <= index <= |js.journal| && Agrees(base, watched, js, k, m)
    ensures Agrees(base, watched, Revert(js, index), k, m)
  {
    var js' := Revert(js, index);
    var xs, ys := js.journal[k..index], js.journal[index..];
    assert js.journal[k..] == xs + ys && js'.journal[k..] == xs && js'.journal[..k] == js.journal[..k];
    FlattenAppend(xs, ys);
    forall c ensures Before(Flatten(xs), c, Present(base, js'.state, c)) == Value(base, m, c) {
      UndoRestores(base, js.state, Flatten(ys), c);
      BeforeAppend(Flatten(xs), Flatten(ys), c, Present(base, js.state, c));
      assert Before(Flatten(js.journal[k..]), c, Present(base, js.state, c)) == Value(base, m, c);
    }
  }

  lemma {:induction false} UndoKeepsLoaded(s: AccountMap, entries: seq<JournalEntry>, c: Cell)
    requires c.address in s && c.slot in s[c.address].storage
    ensures var s' := Undo(s, entries); c.address in s' && c.slot in s'[c.address].storage
    decreases |entries|
  {
    if entries != [] {
      var e := entries[|entries| - 1];
      var s' := if e.StorageChanged? then SetCell(s, Cell(e.address, e.key), e.hadValue) else s;
      UndoKeepsLoaded(s', entries[..|entries| - 1], c);
    }
  }

  lemma RevertLoaded(js: JournaledState, index: nat, c: Cell)
    requires js.depth > 0 && index <= |js.journal| && Loaded(js, c)
    ensures Loaded(Revert(js, index), c)
  {
    var xs, ys := js.journal[..index], js.journal[index..];
    assert js.journal == xs + ys;
    FlattenAppend(xs, ys);
    OldsAppend(Flatten(xs), Flatten(ys), c);
    if Olds(Flatten(xs), c) != [] {
      UndoKeepsLoaded(js.state, Flatten(ys), c);
    }
  }

  lemma RevertRelated(base: Base, watched: Cell, m: Machine, r: Copying)
    requires Related(base, watched, m, r) && m.open != []
    ensures Related(base, watched, Next(base, m, RevertLast), CopyNext(base, watched, r, RevertLast))
  {
    var n := |m.open| - 1;
    var index := m.open[n];
    forall i | 0 <= i <= n ensures Agrees(base, watched, Revert(m.js, index), m.open[i], r.saved[i]) {
      RevertKeeps(base, watched, m.js, index, m.open[i], r.saved[i]);
    }
    RevertLoaded(m.js, index, watched);
  }

  lemma NextRelated(base: Base, watched: Cell, m: Machine, r: Copying, step: Step)
    requires Related(base, watched, m, r)
    ensures Related(base, watched, Next(base, m, step), CopyNext(base, watched, r, step))
  {
    match step
    case StoreStep(c, v) => StoreRelated(base, watched, m, r, c, v);
    case NoteStep(e) => NoteRelated(base, watched, m, r, e);
    case Open => OpenRelated(base, watched, m, r);
    case CommitLast =>
    case RevertLast =>
      if m.open != [] {
        RevertRelated(base, watched, m, r);
      }
  }

  // ---- runs ----

  /** The journaled machine's run, with what it keeps about its frames. */
  function Run(base: Base, steps: seq<Step>): (m: Machine)
    ensures Wellformed(m)
    decreases |steps|
  {
    if steps == [] then Machine(JournaledState(map[], [[]], 0), [])
    else
      var before := Run(base, steps[..|steps| - 1]);
      NextWellformed(base, before, steps[|steps| - 1]);
      Next(base, before, steps[|steps| - 1])
  }

  lemma NextWellformed(base: Base, m: Machine, step: Step)
    requires Wellformed(m)
    ensures Wellformed(Next(base, m, step))
  {
  }

  lemma {:induction false} RunRelated(base: Base, watched: Cell, steps: seq<Step>)
    ensures Related(base, watched, Run(base, steps), CopyRun(base, watched, steps))
    decreases |steps|
  {
    if steps == [] {
      var m := Run(base, []);
      assert Flatten([[]][..0]) == [];
      assert Flatten(m.js.journal) == [] + [];
      AgreesAtEnd(base, watched, m.js, Memory(map[], []));
    } else {
      var n := |steps| - 1;
      RunRelated(base, watched, steps[..n]);
      NextRelated(base, watched, Run(base, steps[..n]), CopyRun(base, watched, steps[..n]), steps[n]);
    }
  }

  ghost predicate ChangingAll(base: Base, watched: Cell, r: Copying) {
    && Good(base, watched, r.now) && forall i :: 0 <= i < |r.saved| ==> Good(base, watched, r.saved[i])
  }

  ghost predicate Good(base: Base, watched: Cell, m: Memory) {
    && Changing(Stored(base, watched), m.history)
    && Value(base, m, watched) == if m.history == [] then Stored(base, watched) else m.history[|m.history| - 1]
  }

  lemma {:induction false} CopyRunChanging(base: Base, watched: Cell, steps: seq<Step>)
    ensures ChangingAll(base, watched, CopyRun(base, watched, steps))
    decreases |steps|
  {
    if steps != [] {
      var n := |steps| - 1;
      var r := CopyRun(base, watched, steps[..n]);
      CopyRunChanging(base, watched, steps[..n]);
      if steps[n].StoreStep? {
        StoreKeepsGood(base, watched, r, steps[n].cell, steps[n].value);
      }
    }
  }

  lemma StoreKeepsGood(base: Base, watched: Cell, r: Copying, c: Cell, v: Word)
    requires Good(base, watched, r.now)
    ensures Good(base, watched, CopyNext(base, watched, r, StoreStep(c, v)).now)
  {
    var h := r.now.history;
    if c == watched && Value(base, r.now, c) != v {
      var start, grown := Stored(base, watched), h + [v];
      forall i | 0 <= i < |grown| ensures Prior(start, grown, i) != grown[i] {
        assert i < |h| ==> Prior(start, h, i) == Prior(start, grown, i) && h[i] == grown[i];
      }
    }
  }

  /** For every run of writes, other entries, checkpoints, commits and reverts, the reported differences are
      empty if no surviving write changed the slot; otherwise they are its start value followed by each
      surviving new value in order. Adjacent values differ, the last is the present value, and the error
      cases never arise. */
  lemma DifferencesAreSurvivingHistory(base: Base, watched: Cell, steps: seq<Step>)
    ensures var js := Run(base, steps).js; var history := CopyRun(base, watched, steps).now.history;
      && Differences(js, watched) == Ok(if history == [] then [] else [Stored(base, watched)] + history)
      && Changing(Stored(base, watched), history)
      && Present(base, js.state, watched) == if history == [] then Stored(base, watched) else history[|history| - 1]
  {
    CopyRunChanging(base, watched, steps);
    RunReadOff(base, watched, steps);
  }

  lemma RunReadOff(base: Base, watched: Cell, steps: seq<Step>)
    ensures var js := Run(base, steps).js; var now := CopyRun(base, watched, steps).now;
      && Differences(js, watched) == Ok(if now.history == [] then [] else [Stored(base, watched)] + now.history)
      && Present(base, js.state, watched) == Value(base, now, watched)
  {
    RunRelated(base, watched, steps);
    ReadOff(base, watched, Run(base, steps), CopyRun(base, watched, steps));
  }

  lemma ReadOff(base: Base, watched: Cell, m: Machine, r: Copying)
    requires Related(base, watched, m, r)
    ensures var history := r.now.history;
      && Differences(m.js, watched) == Ok(if history == [] then [] else [Stored(base, watched)] + history)
      && Present(base, m.js.state, watched) == Value(base, r.now, watched)
  {
    AgreesAtEnd(base, watched, m.js, r.now);
    var history, start := r.now.history, Stored(base, watched);
    if history != [] {
      var n := |history| - 1;
      assert [start] + history == ([start] + history[..n]) + [history[n]];
    }
  }
}
