/** Interleavings of concurrent store operations. An `apply_pending_modification` call reads the adopter's
    list and later tries to swap it in two separately locked steps; an `insert` call is one locked step. */
module StoreConcurrency {
  import opened Types
  import opened Store

  datatype Op =
    | Modify(adopter: Address, mods: seq<Modification>)
    | Insert(adopter: Address, state: AssertionState)
  {
    function Effect(list: AdopterList): AdopterList {
      match this
      case Modify(_, mods) => ApplyList(list, mods)
      case Insert(_, s) => InsertList(list, s)
    }
  }

  /** Where a call is. `start` is the number of writes completed when it was invoked, `fails` the number
      of swaps that failed, `seen` what it read when `readAt` writes were complete, `at` its own write. */
  datatype Call =
    | Idle
    | Running(start: nat, fails: nat)
    | Loaded(start: nat, fails: nat, readAt: nat, seen: Option<AdopterList>)
    | Done(start: nat, fails: nat, at: nat)

  /** `writes` lists the calls in the order of their successful writes. */
  datatype System = System(db: Db, calls: seq<Call>, writes: seq<nat>)

  datatype Action = Invoke(id: nat) | Read(id: nat) | Swap(id: nat) | InsertStep(id: nat)

  function Entry(db: Db, a: Address): Option<AdopterList> {
    if a in db then Some(db[a]) else None
  }

  function ListOf(entry: Option<AdopterList>): AdopterList {
    if entry.Some? then entry.value else []
  }

  function Write(ops: seq<Op>, s: System, id: nat, before: AdopterList): System
    requires id < |ops| && |s.calls| == |ops| && !s.calls[id].Idle?
  {
    System(s.db[ops[id].adopter := ops[id].Effect(before)],
           s.calls[id := Done(s.calls[id].start, s.calls[id].fails, |s.writes|)],
           s.writes + [id])
  }

  /** One scheduler step; a step that is not enabled does nothing. */
  function Next(ops: seq<Op>, s: System, step: Action): System
    requires |s.calls| == |ops|
  {
    if step.id >= |ops| then s
    else
      var op, call := ops[step.id], s.calls[step.id];
      match step
      case Invoke(id) =>
        if call.Idle? then s.(calls := s.calls[id := Running(|s.writes|, 0)]) else s
      case Read(id) =>
        if call.Running? && op.Modify?
        then s.(calls := s.calls[id := Loaded(call.start, call.fails, |s.writes|, Entry(s.db, op.adopter))]) else s
      case Swap(id) =>
        if !call.Loaded? then s
        else if Entry(s.db, op.adopter) == call.seen then Write(ops, s, id, ListOf(call.seen))
        else s.(calls := s.calls[id := Running(call.start, call.fails + 1)])
      case InsertStep(id) =>
        if call.Running? && op.Insert? then Write(ops, s, id, Get(s.db, op.adopter)) else s
  }

  function Initial(ops: seq<Op>, db: Db): System {
    System(db, seq(|ops|, _ => Idle), [])
  }

  function Exec(ops: seq<Op>, s: System, steps: seq<Action>): (r: System)
    requires |s.calls| == |ops|
    ensures |r.calls| == |ops|
    decreases |steps|
  {
    if steps == [] then s else Exec(ops, Next(ops, s, steps[0]), steps[1..])
  }

  // ---- the sequential reference ----

  /** Whole operations applied one after the other. */
  function Sequentially(ops: seq<Op>, db: Db, order: seq<nat>): Db
    requires forall i :: 0 <= i < |order| ==> order[i] < |ops|
    decreases |order|
  {
    if order == [] then db
    else
      var before := Sequentially(ops, db, order[..|order| - 1]);
      var op := ops[order[|order| - 1]];
      before[op.adopter := op.Effect(Get(before, op.adopter))]
  }

  /** The number of operations on one adopter in an order. */
  function On(ops: seq<Op>, order: seq<nat>, a: Address): nat
    requires forall i :: 0 <= i < |order| ==> order[i] < |ops|
    decreases |order|
  {
    if order == [] then 0
    else On(ops, order[..|order| - 1], a) + if ops[order[|order| - 1]].adopter == a then 1 else 0
  }

  lemma SequentiallySnoc(ops: seq<Op>, db: Db, order: seq<nat>, id: nat)
    requires id < |ops| && forall i :: 0 <= i < |order| ==> order[i] < |ops|
    ensures var before := Sequentially(ops, db, order);
      Sequentially(ops, db, order + [id]) == before[ops[id].adopter := ops[id].Effect(Get(before, ops[id].adopter))]
    ensures forall a :: On(ops, order + [id], a) == On(ops, order, a) + if ops[id].adopter == a then 1 else 0
  {
    assert (order + [id])[..|order|] == order;
  }

  /** Writes to other adopters leave an adopter's entry alone; so a changed entry means a write in between. */
  lemma {:induction false} ChangeMeansWrite(ops: seq<Op>, db: Db, order: seq<nat>, k: nat, a: Address)
    requires (forall i :: 0 <= i < |order| ==> order[i] < |ops|) && k <= |order|
    ensures On(ops, order[..k], a) <= On(ops, order, a)
    ensures On(ops, order[..k], a) == On(ops, order, a) ==>
      Entry(Sequentially(ops, db, order[..k]), a) == Entry(Sequentially(ops, db, order), a)
    decreases |order|
  {
    if k == |order| {
      assert order[..k] == order;
    } else {
      var front := order[..|order| - 1];
      assert front[..k] == order[..k];
      ChangeMeansWrite(ops, db, front, k, a);
    }
  }

  // ---- the invariant ----

  ghost predicate WritesOfCalls(ops: seq<Op>, s: System) {
    && |s.calls| == |ops|
    && (forall i :: 0 <= i < |s.writes| ==> s.writes[i] < |ops|)
    && (forall i :: 0 <= i < |s.writes| ==> WriteIsDone(s, i))
    && (forall id :: 0 <= id < |ops| ==> DoneIsWritten(s, id))
  }

  ghost predicate WriteIsDone(s: System, i: nat)
    requires i < |s.writes|
  {
    s.writes[i] < |s.calls| && s.calls[s.writes[i]].Done? && s.calls[s.writes[i]].at == i
  }

  ghost predicate DoneIsWritten(s: System, id: nat)
    requires id < |s.calls|
  {
    s.calls[id].Done? ==> s.calls[id].at < |s.writes| && s.writes[s.calls[id].at] == id
  }

  /** Among the writes from `start` up to `end` there is one to the adopter for every failed swap. */
  ghost predicate PaidFor(ops: seq<Op>, writes: seq<nat>, a: Address, start: nat, fails: nat, end: nat)
    requires (forall i :: 0 <= i < |writes| ==> writes[i] < |ops|) && start <= end <= |writes|
  {
    On(ops, writes[..start], a) + fails <= On(ops, writes[..end], a)
  }

  ghost predicate CallFits(ops: seq<Op>, db: Db, writes: seq<nat>, op: Op, call: Call)
    requires forall i :: 0 <= i < |writes| ==> writes[i] < |ops|
  {
    match call
    case Idle => true
    case Running(start, fails) => start <= |writes| && PaidFor(ops, writes, op.adopter, start, fails, |writes|)
    case Loaded(start, fails, readAt, seen) =>
      && op.Modify? && start <= readAt <= |writes| && PaidFor(ops, writes, op.adopter, start, fails, readAt)
      && seen == Entry(Sequentially(ops, db, writes[..readAt]), op.adopter)
    case Done(start, fails, at) => start <= at < |writes| && PaidFor(ops, writes, op.adopter, start, fails, at)
  }

  ghost predicate Linear(ops: seq<Op>, db: Db, s: System) {
    && WritesOfCalls(ops, s)
    && s.db == Sequentially(ops, db, s.writes)
    && forall id :: 0 <= id < |ops| ==> CallFits(ops, db, s.writes, ops[id], s.calls[id])
  }
}

/** Every step keeps the invariant. */
module StoreLinearizability {
  import opened Types
  import opened Store
  import opened StoreConcurrency

  lemma CallFitsAfterWrite(ops: seq<Op>, db: Db, writes: seq<nat>, id: nat, op: Op, call: Call)
    requires id < |ops| && forall i :: 0 <= i < |writes| ==> writes[i] < |ops|
    requires CallFits(ops, db, writes, op, call)
    ensures CallFits(ops, db, writes + [id], op, call)
  {
    var all := writes + [id];
    match call
    case Idle =>
    case Running(start, _) =>
      SequentiallySnoc(ops, db, writes, id);
      assert all[..start] == writes[..start] && all[..|all|] == all && writes[..|writes|] == writes;
    case Loaded(start, _, readAt, _) => assert all[..start] == writes[..start] && all[..readAt] == writes[..readAt];
    case Done(start, _, at) => assert all[..start] == writes[..start] && all[..at] == writes[..at];
  }

  lemma NotWritten(ops: seq<Op>, s: System, id: nat)
    requires WritesOfCalls(ops, s) && id < |ops| && !s.calls[id].Done?
    ensures forall i :: 0 <= i < |s.writes| ==> s.writes[i] != id
  {
    forall i | 0 <= i < |s.writes| ensures s.writes[i] != id {
      assert WriteIsDone(s, i);
    }
  }

  lemma WriteKeepsCalls(ops: seq<Op>, s: System, id: nat, before: AdopterList)
    requires WritesOfCalls(ops, s) && id < |ops|
    requires s.calls[id].Running? || s.calls[id].Loaded?
    ensures WritesOfCalls(ops, Write(ops, s, id, before))
  {
    var s' := Write(ops, s, id, before);
    NotWritten(ops, s, id);
    forall i | 0 <= i < |s'.writes| ensures WriteIsDone(s', i) {
      assert i < |s.writes| ==> WriteIsDone(s, i) && s'.writes[i] == s.writes[i];
    }
    forall j | 0 <= j < |ops| ensures DoneIsWritten(s', j) {
      assert DoneIsWritten(s, j);
    }
  }

  lemma WrittenCallFits(ops: seq<Op>, db: Db, writes: seq<nat>, id: nat, op: Op, call: Call)
    requires id < |ops| && forall i :: 0 <= i < |writes| ==> writes[i] < |ops|
    requires CallFits(ops, db, writes, op, call) && (call.Running? || call.Loaded?)
    ensures CallFits(ops, db, writes + [id], op, Done(call.start, call.fails, |writes|))
  {
    var all := writes + [id];
    assert all[..|writes|] == writes && writes[..|writes|] == writes && all[..call.start] == writes[..call.start];
    if call.Loaded? {
      ChangeMeansWrite(ops, db, writes, call.readAt, op.adopter);
    }
  }

  lemma WriteKeepsFits(ops: seq<Op>, db: Db, s: System, id: nat, before: AdopterList)
    requires Linear(ops, db, s) && id < |ops|
    requires s.calls[id].Running? || s.calls[id].Loaded?
    ensures var s' := Write(ops, s, id, before);
      && (forall i :: 0 <= i < |s'.writes| ==> s'.writes[i] < |ops|)
      && forall j :: 0 <= j < |ops| ==> CallFits(ops, db, s'.writes, ops[j], s'.calls[j])
  {
    var s' := Write(ops, s, id, before);
    forall j | 0 <= j < |ops| ensures CallFits(ops, db, s'.writes, ops[j], s'.calls[j]) {
      if j == id {
        WrittenCallFits(ops, db, s.writes, id, ops[id], s.calls[id]);
      } else {
        CallFitsAfterWrite(ops, db, s.writes, id, ops[j], s.calls[j]);
      }
    }
  }

  lemma WriteKeepsLinear(ops: seq<Op>, db: Db, s: System, id: nat, before: AdopterList)
    requires Linear(ops, db, s) && id < |ops|
    requires s.calls[id].Running? || s.calls[id].Loaded?
    requires before == Get(s.db, ops[id].adopter)
    ensures Linear(ops, db, Write(ops, s, id, before))
  {
    WriteKeepsCalls(ops, s, id, before);
    SequentiallySnoc(ops, db, s.writes, id);
    WriteKeepsFits(ops, db, s, id, before);
  }

  /** A step that writes nothing. */
  lemma ReplaceKeepsLinear(ops: seq<Op>, db: Db, s: System, id: nat, call: Call)
    requires Linear(ops, db, s) && id < |ops|
    requires !s.calls[id].Done? && !call.Done? && CallFits(ops, db, s.writes, ops[id], call)
    ensures Linear(ops, db, s.(calls := s.calls[id := call]))
  {
    var s' := s.(calls := s.calls[id := call]);
    NotWritten(ops, s, id);
    forall i | 0 <= i < |s'.writes| ensures WriteIsDone(s', i) {
      assert WriteIsDone(s, i);
    }
    forall j | 0 <= j < |ops| ensures DoneIsWritten(s', j) {
      assert DoneIsWritten(s, j);
    }
  }

  lemma InvokeKeepsLinear(ops: seq<Op>, db: Db, s: System, id: nat)
    requires Linear(ops, db, s) && id < |ops| && s.calls[id].Idle?
    ensures Linear(ops, db, Next(ops, s, Invoke(id)))
  {
    ReplaceKeepsLinear(ops, db, s, id, Running(|s.writes|, 0));
  }

  lemma InsertKeepsLinear(ops: seq<Op>, db: Db, s: System, id: nat)
    requires Linear(ops, db, s) && id < |ops| && s.calls[id].Running? && ops[id].Insert?
    ensures Linear(ops, db, Next(ops, s, InsertStep(id)))
  {
    WriteKeepsLinear(ops, db, s, id, Get(s.db, ops[id].adopter));
  }

  lemma ReadKeepsLinear(ops: seq<Op>, db: Db, s: System, id: nat)
    requires Linear(ops, db, s) && id < |ops| && s.calls[id].Running? && ops[id].Modify?
    ensures Linear(ops, db, Next(ops, s, Read(id)))
  {
    var call := s.calls[id];
    assert s.writes[..|s.writes|] == s.writes;
    ReplaceKeepsLinear(ops, db, s, id, Loaded(call.start, call.fails, |s.writes|, Entry(s.db, ops[id].adopter)));
  }

  lemma StaleCallFits(ops: seq<Op>, db: Db, writes: seq<nat>, op: Op, call: Call)
    requires forall i :: 0 <= i < |writes| ==> writes[i] < |ops|
    requires CallFits(ops, db, writes, op, call)
    requires call.Loaded? && Entry(Sequentially(ops, db, writes), op.adopter) != call.seen
    ensures CallFits(ops, db, writes, op, Running(call.start, call.fails + 1))
  {
    ChangeMeansWrite(ops, db, writes, call.readAt, op.adopter);
    assert writes[..|writes|] == writes;
  }

  lemma RetryKeepsLinear(ops: seq<Op>, db: Db, s: System, id: nat, call: Call, s': System)
    requires Linear(ops, db, s) && id < |ops| && call == s.calls[id]
    requires call.Loaded? && Entry(Sequentially(ops, db, s.writes), ops[id].adopter) != call.seen
    requires s' == s.(calls := s.calls[id := Running(call.start, call.fails + 1)])
    ensures Linear(ops, db, s')
  {
    assert CallFits(ops, db, s.writes, ops[id], s.calls[id]);
    StaleCallFits(ops, db, s.writes, ops[id], call);
    ReplaceKeepsLinear(ops, db, s, id, Running(call.start, call.fails + 1));
  }

  lemma FailedSwapIs(ops: seq<Op>, s: System, id: nat)
    requires |s.calls| == |ops| && id < |ops|
    requires s.calls[id].Loaded? && Entry(s.db, ops[id].adopter) != s.calls[id].seen
    ensures Next(ops, s, Swap(id)) == s.(calls := s.calls[id := Running(s.calls[id].start, s.calls[id].fails + 1)])
  {
  }

  lemma FailedSwapKeepsLinear(ops: seq<Op>, db: Db, s: System, id: nat)
    requires Linear(ops, db, s) && id < |ops|
    requires s.calls[id].Loaded? && Entry(s.db, ops[id].adopter) != s.calls[id].seen
    ensures Linear(ops, db, Next(ops, s, Swap(id)))
  {
    FailedSwapIs(ops, s, id);
    RetryKeepsLinear(ops, db, s, id, s.calls[id], Next(ops, s, Swap(id)));
  }

  lemma WonSwapKeepsLinear(ops: seq<Op>, db: Db, s: System, id: nat)
    requires Linear(ops, db, s) && id < |ops|
    requires s.calls[id].Loaded? && Entry(s.db, ops[id].adopter) == s.calls[id].seen
    ensures Linear(ops, db, Next(ops, s, Swap(id)))
  {
    WriteKeepsLinear(ops, db, s, id, ListOf(s.calls[id].seen));
  }

  lemma NextKeepsLinear(ops: seq<Op>, db: Db, s: System, step: Action)
    requires Linear(ops, db, s)
    ensures Linear(ops, db, Next(ops, s, step))
  {
    var id := step.id;
    if Next(ops, s, step) != s {
      match step
      case Invoke(_) => InvokeKeepsLinear(ops, db, s, id);
      case Read(_) => ReadKeepsLinear(ops, db, s, id);
      case Swap(_) =>
        if Entry(s.db, ops[id].adopter) == s.calls[id].seen {
          WonSwapKeepsLinear(ops, db, s, id);
        } else {
          FailedSwapKeepsLinear(ops, db, s, id);
        }
      case InsertStep(_) => InsertKeepsLinear(ops, db, s, id);
    }
  }

  lemma {:induction false} ExecKeepsLinear(ops: seq<Op>, db: Db, s: System, steps: seq<Action>)
    requires Linear(ops, db, s)
    ensures Linear(ops, db, Exec(ops, s, steps))
    decreases |steps|
  {
    if steps != [] {
      NextKeepsLinear(ops, db, s, steps[0]);
      ExecKeepsLinear(ops, db, Next(ops, s, steps[0]), steps[1..]);
    }
  }

  /** Calls only move forward: a completed call keeps its place, an idle one can only start later. */
  ghost predicate Later(ops: seq<Op>, s: System, s': System) {
    && |s.calls| == |s'.calls| == |ops| && |s.writes| <= |s'.writes|
    && (forall id :: 0 <= id < |ops| && s.calls[id].Done? ==> s'.calls[id] == s.calls[id])
    && (forall id :: 0 <= id < |ops| && s.calls[id].Idle? && !s'.calls[id].Idle? ==> |s.writes| <= s'.calls[id].start)
    && (forall id :: 0 <= id < |ops| && !s.calls[id].Idle? ==> !s'.calls[id].Idle?)
    && (forall id :: 0 <= id < |ops| && !s.calls[id].Idle? ==> s'.calls[id].start == s.calls[id].start)
  }

  lemma {:induction false} ExecIsLater(ops: seq<Op>, s: System, steps: seq<Action>)
    requires |s.calls| == |ops|
    ensures Later(ops, s, Exec(ops, s, steps))
    decreases |steps|
  {
    if steps != [] {
      ExecIsLater(ops, Next(ops, s, steps[0]), steps[1..]);
    }
  }

  lemma {:induction false} ExecSplit(ops: seq<Op>, s: System, first: seq<Action>, second: seq<Action>)
    requires |s.calls| == |ops|
    ensures Exec(ops, s, first + second) == Exec(ops, Exec(ops, s, first), second)
    decreases |first|
  {
    if first == [] {
      assert first + second == second;
    } else {
      assert (first + second)[1..] == first[1..] + second;
      ExecSplit(ops, Next(ops, s, first[0]), first[1..], second);
    }
  }

  // ---- the theorems ----

  /** Under every interleaving the store equals the completed operations applied one after the other in the
      order of their writes; an operation is in that order exactly once when it has completed and not at
      all before. */
  lemma Linearizable(ops: seq<Op>, db: Db, steps: seq<Action>)
    ensures var s := Exec(ops, Initial(ops, db), steps);
      && (forall i :: 0 <= i < |s.writes| ==> s.writes[i] < |ops|)
      && s.db == Sequentially(ops, db, s.writes)
      && (forall i, j :: 0 <= i < j < |s.writes| ==> s.writes[i] != s.writes[j])
      && (forall id :: 0 <= id < |ops| ==> (id in s.writes <==> s.calls[id].Done?))
  {
    ExecKeepsLinear(ops, db, Initial(ops, db), steps);
    var s := Exec(ops, Initial(ops, db), steps);
    forall i, j | 0 <= i < j < |s.writes| ensures s.writes[i] != s.writes[j] {
      assert WriteIsDone(s, i) && WriteIsDone(s, j);
    }
    forall id | 0 <= id < |ops| ensures id in s.writes <==> s.calls[id].Done? {
      assert DoneIsWritten(s, id);
      if i :| 0 <= i < |s.writes| && s.writes[i] == id {
        assert WriteIsDone(s, i);
      }
    }
  }

  /** The order respects real time: a call that had completed before another was invoked comes first. */
  lemma RealTimeOrder(ops: seq<Op>, db: Db, first: seq<Action>, second: seq<Action>, x: nat, y: nat)
    requires x < |ops| && y < |ops|
    requires var s := Exec(ops, Initial(ops, db), first); s.calls[x].Done? && s.calls[y].Idle?
    requires Exec(ops, Initial(ops, db), first + second).calls[y].Done?
    ensures var s := Exec(ops, Initial(ops, db), first + second);
      && s.calls[x].Done? && s.calls[x].at < s.calls[y].at < |s.writes|
      && s.writes[s.calls[x].at] == x && s.writes[s.calls[y].at] == y
  {
    var init := Initial(ops, db);
    var mid := Exec(ops, init, first);
    ExecSplit(ops, init, first, second);
    ExecKeepsLinear(ops, db, init, first);
    ExecKeepsLinear(ops, db, mid, second);
    ExecIsLater(ops, mid, second);
    InvokedLaterWritesLater(ops, db, mid, Exec(ops, mid, second), x, y);
  }

  lemma InvokedLaterWritesLater(ops: seq<Op>, db: Db, mid: System, end: System, x: nat, y: nat)
    requires Linear(ops, db, mid) && Linear(ops, db, end) && Later(ops, mid, end) && x < |ops| && y < |ops|
    requires mid.calls[x].Done? && mid.calls[y].Idle? && end.calls[y].Done?
    ensures end.calls[x].Done? && end.calls[x].at < end.calls[y].at < |end.writes|
    ensures end.writes[end.calls[x].at] == x && end.writes[end.calls[y].at] == y
  {
    assert DoneIsWritten(mid, x) && DoneIsWritten(end, x) && DoneIsWritten(end, y);
    assert CallFits(ops, db, end.writes, ops[y], end.calls[y]);
  }

  /** A failed swap is always paid for by a write to the same adopter that completed after the call was invoked,
      so a call fails at most once for every operation on its adopter that it overlaps and that precedes it. */
  lemma RetriesAreBounded(ops: seq<Op>, db: Db, steps: seq<Action>, id: nat)
    requires id < |ops|
    ensures var s := Exec(ops, Initial(ops, db), steps);
      && (forall i :: 0 <= i < |s.writes| ==> s.writes[i] < |ops|)
      && var call := s.calls[id]; var end := if call.Done? then call.at else |s.writes|;
         !call.Idle? ==>
           && call.start <= end <= |s.writes|
           && PaidFor(ops, s.writes, ops[id].adopter, call.start, call.fails, end)
  {
    ExecKeepsLinear(ops, db, Initial(ops, db), steps);
    var s := Exec(ops, Initial(ops, db), steps);
    assert CallFits(ops, db, s.writes, ops[id], s.calls[id]);
    if s.calls[id].Loaded? {
      ChangeMeansWrite(ops, db, s.writes, s.calls[id].readAt, ops[id].adopter);
      assert s.writes[..|s.writes|] == s.writes;
    }
  }

  // ---- calls complete, with the effect of the store object's methods ----

  /** The store after one operation, in terms of what the object's methods promise. */
  function AfterCall(db: Db, op: Op): Db {
    match op
    case Modify(a, mods) => ApplyGroup(db, a, mods)
    case Insert(a, state) => db[a := InsertList(Get(db, a), state)]
  }

  /** The sequential reference is one method call after the other. */
  lemma SequentiallyIsCalls(ops: seq<Op>, db: Db, order: seq<nat>, id: nat)
    requires id < |ops| && forall i :: 0 <= i < |order| ==> order[i] < |ops|
    ensures Sequentially(ops, db, []) == db
    ensures Sequentially(ops, db, order + [id]) == AfterCall(Sequentially(ops, db, order), ops[id])
  {
    SequentiallySnoc(ops, db, order, id);
  }

  /** `s'` is `s` with the call completed by one write of its own. */
  ghost predicate Completes(ops: seq<Op>, s: System, s': System, id: nat)
    requires id < |ops|
  {
    && |s'.calls| == |s.calls| == |ops|
    && s'.calls[id].Done? && s'.calls[id].at == |s.writes| && s'.writes == s.writes + [id]
    && s'.db == AfterCall(s.db, ops[id])
    && forall j :: 0 <= j < |ops| && j != id ==> s'.calls[j] == s.calls[j]
  }

  /** A swap whose entry is as it was read completes the call; any other leaves the store alone and sends the
      call back to reading. */
  lemma SwapDecides(ops: seq<Op>, db: Db, s: System, id: nat)
    requires Linear(ops, db, s) && id < |ops| && s.calls[id].Loaded?
    ensures var a, call, s' := ops[id].adopter, s.calls[id], Next(ops, s, Swap(id));
      if call.seen == (if a in s.db then Some(s.db[a]) else None) then Completes(ops, s, s', id)
      else s' == s.(calls := s.calls[id := Running(call.start, call.fails + 1)])
  {
    assert CallFits(ops, db, s.writes, ops[id], s.calls[id]);
  }

  lemma ReadLoads(ops: seq<Op>, s: System, id: nat)
    requires |s.calls| == |ops| && id < |ops| && s.calls[id].Running? && ops[id].Modify?
    ensures var s' := Next(ops, s, Read(id)); var a := ops[id].adopter;
      && s'.db == s.db && s'.writes == s.writes && |s'.calls| == |ops|
      && s'.calls[id].Loaded? && s'.calls[id].seen == (if a in s.db then Some(s.db[a]) else None)
      && forall j :: 0 <= j < |ops| && j != id ==> s'.calls[j] == s.calls[j]
  {
  }

  /** An `apply_pending_modification` call that nobody disturbs completes at its first swap. */
  lemma UndisturbedModifyCompletes(ops: seq<Op>, db: Db, s: System, id: nat)
    requires Linear(ops, db, s) && id < |ops| && s.calls[id].Idle? && ops[id].Modify?
    ensures var s1 := Next(ops, s, Invoke(id)); var s2 := Next(ops, s1, Read(id));
      Completes(ops, s, Next(ops, s2, Swap(id)), id)
  {
    var s1 := Next(ops, s, Invoke(id));
    var s2 := Next(ops, s1, Read(id));
    NextKeepsLinear(ops, db, s, Invoke(id));
    NextKeepsLinear(ops, db, s1, Read(id));
    ReadLoads(ops, s1, id);
    SwapDecides(ops, db, s2, id);
  }

  /** An `insert` call completes in its one locked step. */
  lemma InsertCompletes(ops: seq<Op>, s: System, id: nat)
    requires |s.calls| == |ops| && id < |ops| && s.calls[id].Idle? && ops[id].Insert?
    ensures Completes(ops, s, Next(ops, Next(ops, s, Invoke(id)), InsertStep(id)), id)
  {
  }

  /** Wherever a call is, one swap, one read and one swap of its own are enough: no call waits for another. */
  lemma EveryCallCanComplete(ops: seq<Op>, db: Db, s: System, id: nat)
    requires Linear(ops, db, s) && id < |ops|
    ensures Exec(ops, s, [Invoke(id), InsertStep(id), Swap(id), Read(id), Swap(id)]).calls[id].Done?
  {
    var s1 := Next(ops, s, Invoke(id));
    var s2 := Next(ops, s1, InsertStep(id));
    var s3 := Next(ops, s2, Swap(id));
    var s4 := Next(ops, s3, Read(id));
    NextKeepsLinear(ops, db, s, Invoke(id));
    NextKeepsLinear(ops, db, s1, InsertStep(id));
    NextKeepsLinear(ops, db, s2, Swap(id));
    NextKeepsLinear(ops, db, s3, Read(id));
    assert CallFits(ops, db, s.writes, ops[id], s.calls[id]);
    if s2.calls[id].Loaded? {
      SwapDecides(ops, db, s2, id);
    }
    if s3.calls[id].Running? {
      ReadLoads(ops, s3, id);
      SwapDecides(ops, db, s4, id);
    }
    FiveSteps(ops, s, Invoke(id), InsertStep(id), Swap(id), Read(id), Swap(id));
  }

  lemma FiveSteps(ops: seq<Op>, s: System, a: Action, b: Action, c: Action, d: Action, e: Action)
    requires |s.calls| == |ops|
    ensures Exec(ops, s, [a, b, c, d, e])
         == Next(ops, Next(ops, Next(ops, Next(ops, Next(ops, s, a), b), c), d), e)
  {
    var s1 := Next(ops, s, a);
    var s2 := Next(ops, s1, b);
    var s3 := Next(ops, s2, c);
    var s4 := Next(ops, s3, d);
    ExecStep(ops, s, a, [b, c, d, e]);
    ExecStep(ops, s1, b, [c, d, e]);
    ExecStep(ops, s2, c, [d, e]);
    ExecStep(ops, s3, d, [e]);
    ExecStep(ops, s4, e, []);
  }

  lemma ExecStep(ops: seq<Op>, s: System, a: Action, rest: seq<Action>)
    requires |s.calls| == |ops|
    ensures |Next(ops, s, a).calls| == |ops| && Exec(ops, s, [a] + rest) == Exec(ops, Next(ops, s, a), rest)
  {
    assert ([a] + rest)[1..] == rest;
  }
}
