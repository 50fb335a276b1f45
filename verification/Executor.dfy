/** Validating transactions: a transaction's changes are kept exactly when it succeeds and every assertion
    function that is due for it succeeds. The EVM is a parameter: what it returns is given. */
module Executor {
  import opened Types
  import opened Database
  import opened Journal
  import opened Store
  import opened ActivityWindow
  import opened Triggers
  import ForkDb

  const WRAP: nat := U64_MAX + 1

  /** A transaction with everything else the EVM is given: the block environment, of which only the number
      matters here, and the external database it executes against. */
  datatype Tx = Tx(id: nat, block: nat)

  datatype EvmError = EvmError(code: nat)

  /** What the tracer sees of a transaction. */
  datatype Traces = Traces(calls: seq<CallInputs>, journal: Option<seq<seq<JournalEntry>>>)

  /** Executing a transaction: an EVM error, or a result with state changes (and the order in which the map
      yields them). */
  datatype TxOutcome = TxFailed(error: EvmError) | Executed(success: bool, commit: ForkDb.Ordered, traces: Traces)

  /** One call of an assertion function on behalf of an adopter. */
  datatype AssertionCall = AssertionCall(contract: AssertionContract, adopter: Address, selector: Selector)

  datatype FnRun = FnRun(success: bool, gas: nat)

  /** Assertion functions see the database before and after the transaction. */
  datatype Evm = Evm(
    transact: Tx -> TxOutcome,
    runFn: (ForkDb.Fork, ForkDb.Fork, Tx, AssertionCall) -> Result<FnRun, EvmError>)

  ghost predicate ValidEvm(evm: Evm) {
    forall tx :: evm.transact(tx).Executed? ==> ForkDb.Valid(evm.transact(tx).commit)
  }

  datatype FnId = FnId(selector: Selector, contract: B256)

  datatype FnResult = FnResult(id: FnId, success: bool, gas: nat)

  datatype ContractExecution = ContractExecution(results: seq<FnResult>, totalGas: nat, ran: nat)

  // ---- the verdict over the results ----

  predicate AllSucceed(results: seq<FnResult>) {
    forall i :: 0 <= i < |results| ==> results[i].success
  }

  function Ids(results: seq<FnResult>): seq<FnId> {
    seq(|results|, i requires 0 <= i < |results| => results[i].id)
  }

  /** All functions of every contract with a failing function. */
  function InvalidIds(executions: seq<ContractExecution>): seq<FnId> {
    if executions == [] then []
    else
      var n := |executions| - 1;
      InvalidIds(executions[..n]) + if AllSucceed(executions[n].results) then [] else Ids(executions[n].results)
  }

  method CollectInvalid(executions: seq<ContractExecution>) returns (ids: seq<FnId>)
    ensures ids == InvalidIds(executions)
  {
    ids := [];
    for i := 0 to |executions|
      invariant ids == InvalidIds(executions[..i])
    {
      var results := executions[i].results;
      var all, own := true, [];
      for k := 0 to |results|
        invariant all <==> forall j :: 0 <= j < k ==> results[j].success
        invariant own == Ids(results)[..k]
      {
        all := all && results[k].success;
        own := own + [results[k].id];
      }
      assert executions[..i + 1][..i] == executions[..i];
      if !all {
        ids := ids + own;
      }
    }
    assert executions[..|executions|] == executions;
  }

  lemma IdsMeans(results: seq<FnResult>, id: FnId)
    ensures id in Ids(results) <==> exists k :: 0 <= k < |results| && results[k].id == id
  {
    if k :| 0 <= k < |results| && results[k].id == id {
      assert Ids(results)[k] == id;
    }
  }

  /** The contract has a failing function, and one, failing or not, with this id. */
  ghost predicate FailsWith(results: seq<FnResult>, id: FnId) {
    && (exists j :: 0 <= j < |results| && !results[j].success)
    && (exists k :: 0 <= k < |results| && results[k].id == id)
  }

  /** The reported ids are exactly those of all functions of every contract with a failing function. */
  lemma {:induction false} InvalidIdsMeans(executions: seq<ContractExecution>, id: FnId)
    ensures id in InvalidIds(executions) <==> exists i :: 0 <= i < |executions| && FailsWith(executions[i].results, id)
    decreases |executions|
  {
    if executions != [] {
      var n := |executions| - 1;
      var front := executions[..n];
      InvalidIdsMeans(front, id);
      IdsMeans(executions[n].results, id);
      assert forall i :: 0 <= i < n ==> front[i] == executions[i];
      if i :| 0 <= i < |front| && FailsWith(front[i].results, id) {
        assert FailsWith(executions[i].results, id);
      }
    }
  }

  ghost predicate NothingFailed(executions: seq<ContractExecution>) {
    forall i :: 0 <= i < |executions| ==> AllSucceed(executions[i].results)
  }

  /** No invalid ids are reported exactly when every function result of every contract succeeded. */
  lemma {:induction false} NoInvalidIffNothingFailed(executions: seq<ContractExecution>)
    ensures InvalidIds(executions) == [] <==> NothingFailed(executions)
    decreases |executions|
  {
    if executions != [] {
      var n := |executions| - 1;
      var front := executions[..n];
      NoInvalidIffNothingFailed(front);
      assert forall i :: 0 <= i < n ==> front[i] == executions[i];
      if NothingFailed(executions) {
        assert NothingFailed(front);
      }
    }
  }

  // ---- which assertion functions must run ----

  function Entries(traces: Traces): seq<JournalEntry> {
    if traces.journal.Some? then Flatten(traces.journal.value) else []
  }

  /** The adopter's list holds the contract, in its window, with a registration for something that happened
      to the adopter. */
  ghost predicate DueAt(list: AdopterList, block: nat, traces: Traces, c: AssertionCall, i: nat) {
    i < |list| && InWindow(list[i], block) && list[i].contract == c.contract &&
    Due(traces.calls, Entries(traces), c.adopter, list[i].triggers, c.selector)
  }

  ghost predicate DueCall(store: Db, block: nat, traces: Traces, c: AssertionCall) {
    exists i :: DueAt(Get(store, c.adopter), block, traces, c, i)
  }

  /** `x` asks for the call `c`. */
  ghost predicate Asks(x: ForExecution, c: AssertionCall) {
    x.contract == c.contract && x.adopter == c.adopter && c.selector in x.selectors
  }

  ghost function PickedSet(r: TriggerRecorder, fired: set<TriggerType>): set<Selector> {
    set t, sel | t in r.Keys && sel in r[t] && Picked(r, fired, sel) :: sel
  }

  lemma PickedSetIsPicked(r: TriggerRecorder, fired: set<TriggerType>, sel: Selector)
    ensures sel in PickedSet(r, fired) <==> Picked(r, fired, sel)
  {
    if Picked(r, fired, sel) {
      var t: TriggerType :| sel in Registered(r, t);
      assert Registered(r, t) == if t in r then r[t] else {};
      assert t in r.Keys && sel in r[t];
    }
  }

  /** What the store hands out is exactly what is due. */
  lemma AskedIffDue(store: Db, block: nat, traces: Traces, m: CallMap, fired: TriggerMap, asked: seq<ForExecution>,
                    c: AssertionCall)
    requires Records(m, traces.calls) && Lists(fired, m, Entries(traces))
    requires forall x :: x in asked <==> Chosen(store, fired, block, x)
    ensures (exists x :: x in asked && Asks(x, c)) <==> DueCall(store, block, traces, c)
  {
    var list := Get(store, c.adopter);
    if x :| x in asked && Asks(x, c) {
      assert Chosen(store, fired, block, x);
      var i :| 0 <= i < |list| && InWindow(list[i], block) && Selects(x, list[i], fired[c.adopter], c.adopter);
      PickedIffDue(traces.calls, m, Entries(traces), fired, c.adopter, list[i].triggers, c.selector);
      assert DueAt(list, block, traces, c, i);
    }
    if i: nat :| DueAt(list, block, traces, c, i) {
      PickedIffDue(traces.calls, m, Entries(traces), fired, c.adopter, list[i].triggers, c.selector);
      var x := ForExecution(c.contract, PickedSet(list[i].triggers, fired[c.adopter]), c.adopter);
      forall sel ensures sel in x.selectors <==> Picked(list[i].triggers, fired[c.adopter], sel) {
        PickedSetIsPicked(list[i].triggers, fired[c.adopter], sel);
      }
      assert Selects(x, list[i], fired[c.adopter], c.adopter);
      assert Chosen(store, fired, block, x);
      assert Asks(x, c);
    }
  }

  // ---- running them ----

  /** The situation in which the assertion functions of one transaction run. */
  datatype Scene = Scene(evm: Evm, pre: ForkDb.Fork, post: ForkDb.Fork, tx: Tx)
  {
    function Call(c: AssertionCall): Result<FnRun, EvmError> {
      evm.runFn(pre, post, tx, c)
    }
  }

  function CallOf(x: ForExecution, sel: Selector): AssertionCall {
    AssertionCall(x.contract, x.adopter, sel)
  }

  function SumGas(results: seq<FnResult>): nat {
    if results == [] then 0 else SumGas(results[..|results| - 1]) + results[|results| - 1].gas
  }

  /** One result for every selector, each the EVM's, with the totals over them. */
  ghost predicate Reports(sc: Scene, x: ForExecution, e: ContractExecution) {
    && |e.results| == |x.selectors|
    && (forall sel :: sel in x.selectors ==> sc.Call(CallOf(x, sel)).Ok? && Expected(sc, x, sel) in e.results)
    && (forall r :: r in e.results ==> IsResult(sc, x, r))
    && e.totalGas == SumGas(e.results) % WRAP && e.ran == |x.selectors| % WRAP
  }

  ghost predicate IsResult(sc: Scene, x: ForExecution, r: FnResult) {
    && r.id.selector in x.selectors && sc.Call(CallOf(x, r.id.selector)).Ok?
    && r == Expected(sc, x, r.id.selector)
  }

  ghost function Expected(sc: Scene, x: ForExecution, sel: Selector): FnResult
    requires sc.Call(CallOf(x, sel)).Ok?
  {
    var run := sc.Call(CallOf(x, sel)).value;
    FnResult(FnId(sel, x.contract.id), run.success, run.gas)
  }

  ghost predicate ErrsWith(sc: Scene, c: AssertionCall, e: EvmError) {
    sc.Call(c).Err? && sc.Call(c).error == e
  }

  /** Runs every selected function of one contract and fails if one of them ends in an EVM error. */
  method RunAssertionContract(sc: Scene, x: ForExecution) returns (r: Result<ContractExecution, EvmError>)
    ensures r.Err? <==> exists sel :: sel in x.selectors && sc.Call(CallOf(x, sel)).Err?
    ensures r.Err? ==> exists sel :: sel in x.selectors && ErrsWith(sc, CallOf(x, sel), r.error)
    ensures r.Ok? ==> Reports(sc, x, r.value)
  {
    var results: seq<FnResult> := [];
    var gas, ran := 0, 0;
    var left := x.selectors;
    var error := None;
    while left != {}
      invariant left <= x.selectors
      invariant error.Some? <==> exists sel :: sel in x.selectors && sel !in left && sc.Call(CallOf(x, sel)).Err?
      invariant error.Some? ==> exists sel :: sel in x.selectors && ErrsWith(sc, CallOf(x, sel), error.value)
      invariant error.None? ==> |results| + |left| == |x.selectors|
      invariant forall sel :: sel in x.selectors && sel !in left && sc.Call(CallOf(x, sel)).Ok? ==>
        Expected(sc, x, sel) in results
      invariant forall q :: q in results ==> IsResult(sc, x, q)
      invariant gas == SumGas(results) % WRAP && ran == |results| % WRAP
      decreases |left|
    {
      var sel :| sel in left;
      left := left - {sel};
      match sc.Call(CallOf(x, sel)) {
        case Err(e) =>
          assert ErrsWith(sc, CallOf(x, sel), e);
          error := if error.None? then Some(e) else error;
        case Ok(run) =>
          var result := FnResult(FnId(sel, x.contract.id), run.success, run.gas);
          assert (results + [result])[..|results|] == results;
          WrapAdds(SumGas(results), run.gas);
          WrapAdds(|results|, 1);
          results := results + [result];
          gas, ran := (gas + run.gas) % WRAP, (ran + 1) % WRAP;
      }
    }
    match error {
      case Some(e) => return Err(e);
      case None => return Ok(ContractExecution(results, gas, ran));
    }
  }

  lemma WrapAdds(a: nat, b: nat)
    ensures (a % WRAP + b) % WRAP == (a + b) % WRAP
  {
  }

  datatype ExecutorError = Evm(evm: EvmError) | Store(store: StoreError)

  /** A call that is due ends in an EVM error. */
  ghost predicate SomeDueErrs(sc: Scene, store: Db, traces: Traces) {
    exists c :: DueCall(store, sc.tx.block, traces, c) && sc.Call(c).Err?
  }

  /** Every call that is due succeeds. */
  ghost predicate AllDueSucceed(sc: Scene, store: Db, traces: Traces) {
    forall c :: DueCall(store, sc.tx.block, traces, c) ==> sc.Call(c).Ok? && sc.Call(c).value.success
  }

  ghost predicate RanAll(sc: Scene, asked: seq<ForExecution>, executions: seq<ContractExecution>) {
    && |executions| == |asked|
    && forall i :: 0 <= i < |asked| ==> Reports(sc, asked[i], executions[i])
  }

  /** A contract's report shows no failure exactly when all its calls succeed. */
  lemma ReportShowsFailures(sc: Scene, x: ForExecution, e: ContractExecution)
    requires Reports(sc, x, e)
    ensures AllSucceed(e.results) <==> forall c :: Asks(x, c) ==> sc.Call(c).Ok? && sc.Call(c).value.success
  {
    if AllSucceed(e.results) {
      forall c | Asks(x, c) ensures sc.Call(c).Ok? && sc.Call(c).value.success {
        assert c == CallOf(x, c.selector);
        assert Expected(sc, x, c.selector) in e.results;
      }
    } else {
      var i :| 0 <= i < |e.results| && !e.results[i].success;
      var r := e.results[i];
      assert r in e.results;
      assert Asks(x, CallOf(x, r.id.selector));
    }
  }

  lemma VerdictIsAllDue(sc: Scene, store: Db, traces: Traces, asked: seq<ForExecution>,
                        executions: seq<ContractExecution>)
    requires RanAll(sc, asked, executions)
    requires forall c :: (exists x :: x in asked && Asks(x, c)) <==> DueCall(store, sc.tx.block, traces, c)
    ensures NothingFailed(executions) <==> AllDueSucceed(sc, store, traces)
  {
    forall i | 0 <= i < |asked|
      ensures AllSucceed(executions[i].results) <==>
        forall c :: Asks(asked[i], c) ==> sc.Call(c).Ok? && sc.Call(c).value.success
    {
      ReportShowsFailures(sc, asked[i], executions[i]);
    }
    if NothingFailed(executions) {
      forall c | DueCall(store, sc.tx.block, traces, c) ensures sc.Call(c).Ok? && sc.Call(c).value.success {
        var x :| x in asked && Asks(x, c);
        var i :| 0 <= i < |asked| && asked[i] == x;
        assert AllSucceed(executions[i].results);
      }
    }
    if AllDueSucceed(sc, store, traces) {
      forall i | 0 <= i < |asked| ensures AllSucceed(executions[i].results) {
        forall c | Asks(asked[i], c) ensures sc.Call(c).Ok? && sc.Call(c).value.success {
          assert asked[i] in asked;
        }
      }
    }
  }

  /** What the store hands out for the traces: adopter by adopter, every stored assertion in its window. */
  ghost predicate HandsOut(store: Db, block: nat, traces: Traces, asked: seq<ForExecution>) {
    exists m: CallMap, fired: TriggerMap, order: seq<Address> ::
      && Records(m, traces.calls) && Lists(fired, m, Entries(traces)) && Orders(order, fired)
      && ReadsAll(store, fired, block, order, asked)
  }

  /** The executions of exactly what was handed out, in that order. */
  ghost predicate ExecutesWhatIsHandedOut(sc: Scene, store: Db, traces: Traces, executions: seq<ContractExecution>) {
    exists asked: seq<ForExecution> :: HandsOut(store, sc.tx.block, traces, asked) && RanAll(sc, asked, executions)
  }

  /** The error that is passed on: the block number's, if it is out of range, else the EVM's on some due call. */
  ghost predicate IsError(sc: Scene, store: Db, traces: Traces, error: ExecutorError) {
    match error
    case Store(e) => sc.tx.block > U64_MAX && e == BlockNumberExceedsU64
    case Evm(e) => sc.tx.block <= U64_MAX && exists c :: DueCall(store, sc.tx.block, traces, c) && ErrsWith(sc, c, e)
  }

  /** Runs what the store hands out for the traces. */
  method ExecuteAssertions(sc: Scene, store: Db, tracer: CallTracer, ghost traces: Traces)
    returns (r: Result<seq<ContractExecution>, ExecutorError>)
    requires Records(tracer.callInputs, traces.calls) && tracer.journal == traces.journal
    ensures r.Err? <==> sc.tx.block > U64_MAX || SomeDueErrs(sc, store, traces)
    ensures r.Ok? ==> (NothingFailed(r.value) <==> AllDueSucceed(sc, store, traces))
    ensures r.Ok? ==> ExecutesWhatIsHandedOut(sc, store, traces, r.value)
    ensures r.Err? ==> IsError(sc, store, traces, r.error)
  {
    var fired := tracer.GetTriggers();
    var read, order := Triggers.Read(store, fired, sc.tx.block);
    if read.Err? {
      return Err(ExecutorError.Store(read.error));
    }
    var asked := read.value;
    assert HandsOut(store, sc.tx.block, traces, asked);
    forall c ensures (exists x :: x in asked && Asks(x, c)) <==> DueCall(store, sc.tx.block, traces, c) {
      AskedIffDue(store, sc.tx.block, traces, tracer.callInputs, fired, asked, c);
    }
    var ran := RunAsked(sc, asked);
    match ran {
      case Err(e) =>
        ghost var x, c :| x in asked && Asks(x, c) && ErrsWith(sc, c, e);
        assert DueCall(store, sc.tx.block, traces, c);
        return Err(ExecutorError.Evm(e));
      case Ok(executions) =>
        VerdictIsAllDue(sc, store, traces, asked, executions);
        NoErrors(sc, store, traces, asked, executions);
        return Ok(executions);
    }
  }

  /** Some call that was asked for ends in this EVM error. */
  ghost predicate SomeAskedErrs(sc: Scene, asked: seq<ForExecution>, e: EvmError) {
    exists x, c :: x in asked && Asks(x, c) && ErrsWith(sc, c, e)
  }

  /** Runs the contracts one by one, up to the first EVM error. */
  method RunAsked(sc: Scene, asked: seq<ForExecution>) returns (r: Result<seq<ContractExecution>, EvmError>)
    ensures r.Ok? ==> RanAll(sc, asked, r.value)
    ensures r.Err? ==> SomeAskedErrs(sc, asked, r.error)
  {
    var executions: seq<ContractExecution> := [];
    for i := 0 to |asked|
      invariant |executions| == i
      invariant forall k :: 0 <= k < i ==> Reports(sc, asked[k], executions[k])
    {
      var one := RunAssertionContract(sc, asked[i]);
      match one {
        case Err(e) =>
          ghost var sel :| sel in asked[i].selectors && ErrsWith(sc, CallOf(asked[i], sel), e);
          assert asked[i] in asked && Asks(asked[i], CallOf(asked[i], sel));
          return Err(e);
        case Ok(e) =>
          executions := executions + [e];
      }
    }
    return Ok(executions);
  }

  lemma NoErrors(sc: Scene, store: Db, traces: Traces, asked: seq<ForExecution>, executions: seq<ContractExecution>)
    requires RanAll(sc, asked, executions)
    requires forall c :: (exists x :: x in asked && Asks(x, c)) <==> DueCall(store, sc.tx.block, traces, c)
    ensures !SomeDueErrs(sc, store, traces)
  {
    forall c | DueCall(store, sc.tx.block, traces, c) ensures sc.Call(c).Ok? {
      var x :| x in asked && Asks(x, c);
      var i :| 0 <= i < |asked| && asked[i] == x;
      assert Reports(sc, asked[i], executions[i]);
      assert c == CallOf(x, c.selector);
    }
  }

  // ---- validating ----

  datatype Verdict = Verdict(valid: Result<bool, ExecutorError>, executions: seq<ContractExecution>)

  /** A transaction to validate, with the assertion store as it is at that moment. */
  datatype Request = Request(tx: Tx, store: Db)

  function Applied(f: ForkDb.Fork, c: ForkDb.Ordered): ForkDb.Fork
    requires ForkDb.Valid(c)
  {
    ForkDb.CommitInOrder(f, c.changes, c.order)
  }

  ghost function SceneOf(evm: Evm, f: ForkDb.Fork, tx: Tx): Scene
    requires ValidEvm(evm) && evm.transact(tx).Executed?
  {
    Scene(evm, f, Applied(f, evm.transact(tx).commit), tx)
  }

  /** The transaction executed successfully and every assertion function due for it succeeds. */
  ghost predicate Accepted(evm: Evm, f: ForkDb.Fork, q: Request)
    requires ValidEvm(evm)
  {
    var o := evm.transact(q.tx);
    o.Executed? && o.success && q.tx.block <= U64_MAX && AllDueSucceed(SceneOf(evm, f, q.tx), q.store, o.traces)
  }

  ghost function After(evm: Evm, f: ForkDb.Fork, q: Request): ForkDb.Fork
    requires ValidEvm(evm)
  {
    if Accepted(evm, f, q) then Applied(f, evm.transact(q.tx).commit) else f
  }

  /** Validation itself fails: the EVM fails on the transaction or on a due assertion function, or the block
      number is out of range. */
  ghost predicate Errs(evm: Evm, f: ForkDb.Fork, q: Request)
    requires ValidEvm(evm)
  {
    var o := evm.transact(q.tx);
    o.TxFailed? || (o.success && (q.tx.block > U64_MAX || SomeDueErrs(SceneOf(evm, f, q.tx), q.store, o.traces)))
  }

  /** What all this says about the EVM's answers. The functions see the database `f` as it was before the
      transaction and `post`, `f` with the transaction's changes committed; the database becomes `post` exactly if
      each function due succeeds on these two, and stays `f` in every other case. */
  lemma AfterMeans(evm: Evm, f: ForkDb.Fork, q: Request)
    requires ValidEvm(evm)
    ensures var o := evm.transact(q.tx);
      if o.Executed? && o.success && q.tx.block <= U64_MAX then
        var post := ForkDb.CommitInOrder(f, o.commit.changes, o.commit.order);
        After(evm, f, q) ==
          if forall c :: DueCall(q.store, q.tx.block, o.traces, c) ==>
               evm.runFn(f, post, q.tx, c).Ok? && evm.runFn(f, post, q.tx, c).value.success
          then post else f
      else After(evm, f, q) == f
  {
    var o := evm.transact(q.tx);
    if o.Executed? && o.success && q.tx.block <= U64_MAX {
      var sc, post := SceneOf(evm, f, q.tx), ForkDb.CommitInOrder(f, o.commit.changes, o.commit.order);
      assert forall c :: sc.Call(c) == evm.runFn(f, post, q.tx, c);
    }
  }

  /** When validation itself fails, in the same terms. */
  lemma ErrsMeans(evm: Evm, f: ForkDb.Fork, q: Request)
    requires ValidEvm(evm)
    ensures var o := evm.transact(q.tx);
      if o.TxFailed? then Errs(evm, f, q)
      else
        var post := ForkDb.CommitInOrder(f, o.commit.changes, o.commit.order);
        var errs := exists c :: DueCall(q.store, q.tx.block, o.traces, c) && evm.runFn(f, post, q.tx, c).Err?;
        Errs(evm, f, q) <==> o.success && (q.tx.block > U64_MAX || errs)
  {
    var o := evm.transact(q.tx);
    if o.Executed? {
      var sc, post := SceneOf(evm, f, q.tx), ForkDb.CommitInOrder(f, o.commit.changes, o.commit.order);
      assert forall c :: sc.Call(c) == evm.runFn(f, post, q.tx, c);
    }
  }

  /** What a contract's report says about the EVM's answers. */
  lemma ReportMeans(evm: Evm, f: ForkDb.Fork, q: Request, x: ForExecution, e: ContractExecution, r: FnResult)
    requires ValidEvm(evm) && evm.transact(q.tx).Executed? && Reports(SceneOf(evm, f, q.tx), x, e) && r in e.results
    ensures var o := evm.transact(q.tx); var post := ForkDb.CommitInOrder(f, o.commit.changes, o.commit.order);
      && r.id.selector in x.selectors && r.id.contract == x.contract.id
      && evm.runFn(f, post, q.tx, AssertionCall(x.contract, x.adopter, r.id.selector)) == Ok(FnRun(r.success, r.gas))
  {
    var sc := SceneOf(evm, f, q.tx);
    assert IsResult(sc, x, r);
    assert sc.Call(CallOf(x, r.id.selector)) == Ok(FnRun(r.success, r.gas));
  }

  ghost function RunAll(evm: Evm, f: ForkDb.Fork, qs: seq<Request>): ForkDb.Fork
    requires ValidEvm(evm)
    decreases |qs|
  {
    if qs == [] then f else After(evm, RunAll(evm, f, qs[..|qs| - 1]), qs[|qs| - 1])
  }

  /** The commits of exactly the accepted transactions of a run. */
  ghost function AcceptedCommits(evm: Evm, f: ForkDb.Fork, qs: seq<Request>): seq<ForkDb.Ordered>
    requires ValidEvm(evm)
    decreases |qs|
  {
    if qs == [] then []
    else
      var n := |qs| - 1;
      AcceptedCommits(evm, f, qs[..n]) +
      if Accepted(evm, RunAll(evm, f, qs[..n]), qs[n]) then [evm.transact(qs[n].tx).commit] else []
  }

  /** Over any sequence of transactions the fork database is the starting one with the commits of exactly
      the accepted transactions applied in order. */
  lemma {:induction false} RunKeepsExactlyAccepted(evm: Evm, f: ForkDb.Fork, qs: seq<Request>)
    requires ValidEvm(evm)
    ensures forall i :: 0 <= i < |AcceptedCommits(evm, f, qs)| ==> ForkDb.Valid(AcceptedCommits(evm, f, qs)[i])
    ensures RunAll(evm, f, qs) == ForkDb.CommitAll(f, AcceptedCommits(evm, f, qs))
    decreases |qs|
  {
    if qs != [] {
      var n := |qs| - 1;
      RunKeepsExactlyAccepted(evm, f, qs[..n]);
      var before := AcceptedCommits(evm, f, qs[..n]);
      var all := AcceptedCommits(evm, f, qs);
      if Accepted(evm, RunAll(evm, f, qs[..n]), qs[n]) {
        var c := evm.transact(qs[n].tx).commit;
        assert ForkDb.Valid(c);
        assert all == before + [c];
        assert all[..|before|] == before && all[|before|] == c;
      } else {
        assert all == before;
      }
    }
  }

  /** So its reads are those of the flat database after the accepted transactions' changes. */
  lemma RunReadsLikeAccepted(evm: Evm, db: Reader, qs: seq<Request>, a: Address, s: Slot, h: B256)
    requires ValidEvm(evm)
    ensures var f := RunAll(evm, ForkDb.New(db), qs);
      var commits := ForkDb.Changes(AcceptedCommits(evm, ForkDb.New(db), qs));
      && ForkDb.Basic(f, a) == FlatBasic(db, commits, a)
      && ForkDb.Storage(f, a, s) == FlatStorage(db, commits, a, s)
      && ForkDb.Code(f, h) == FlatCode(db, commits, h)
  {
    RunKeepsExactlyAccepted(evm, ForkDb.New(db), qs);
    ForkDb.RefinesFlat(db, AcceptedCommits(evm, ForkDb.New(db), qs), a, s, h);
  }

  /** The tracer after the transaction's calls and its journal. */
  method Trace(traces: Traces) returns (tracer: CallTracer)
    ensures fresh(tracer) && Records(tracer.callInputs, traces.calls) && tracer.journal == traces.journal
  {
    tracer := new CallTracer();
    for i := 0 to |traces.calls|
      invariant fresh(tracer) && Records(tracer.callInputs, traces.calls[..i])
    {
      tracer.RecordCall(traces.calls[i], traces.calls[..i]);
      assert traces.calls[..i + 1] == traces.calls[..i] + [traces.calls[i]];
    }
    assert traces.calls[..|traces.calls|] == traces.calls;
    tracer.journal := traces.journal;
  }

  /** What the caller is told: an error exactly if validation fails; otherwise whether the transaction failed or
      was accepted, with the executions of all assertions that were handed out for it. */
  ghost predicate Told(evm: Evm, f: ForkDb.Fork, q: Request, v: Verdict)
    requires ValidEvm(evm)
  {
    var o := evm.transact(q.tx);
    && (v.valid.Err? <==> Errs(evm, f, q))
    && (v.valid.Ok? ==> (v.valid.value <==> !o.success || Accepted(evm, f, q)))
    && (v.valid.Err? ==> if o.TxFailed? then v.valid.error == ExecutorError.Evm(o.error)
                         else IsError(SceneOf(evm, f, q.tx), q.store, o.traces, v.valid.error))
    && (if v.valid.Ok? && o.success then ExecutesWhatIsHandedOut(SceneOf(evm, f, q.tx), q.store, o.traces, v.executions)
        else v.executions == [])
  }

  /** Validates one transaction against the fork database. A failed transaction is reported valid and changes
      nothing. */
  method ValidateTransaction(evm: Evm, db: ForkDb.ForkDatabase, q: Request) returns (v: Verdict)
    requires ValidEvm(evm)
    modifies db
    ensures db.State() == After(evm, old(db.State()), q) && Told(evm, old(db.State()), q, v)
    ensures var o, f := evm.transact(q.tx), old(db.State());
      if o.Executed? && o.success && q.tx.block <= U64_MAX then
        var post := ForkDb.CommitInOrder(f, o.commit.changes, o.commit.order);
        db.State() ==
          if forall c :: DueCall(q.store, q.tx.block, o.traces, c) ==>
               evm.runFn(f, post, q.tx, c).Ok? && evm.runFn(f, post, q.tx, c).value.success
          then post else f
      else db.State() == f
  {
    AfterMeans(evm, db.State(), q);
    var pre := db.State();
    var outcome := evm.transact(q.tx);
    if outcome.TxFailed? {
      return Verdict(Err(ExecutorError.Evm(outcome.error)), []);
    }
    assert ForkDb.Valid(outcome.commit);
    var post := Applied(pre, outcome.commit);
    if !outcome.success {
      return Verdict(Ok(true), []);
    }
    var tracer := Trace(outcome.traces);
    var results := ExecuteAssertions(Scene(evm, pre, post, q.tx), q.store, tracer, outcome.traces);
    if results.Err? {
      SomeDueErrIsNotAllDue(Scene(evm, pre, post, q.tx), q.store, outcome.traces);
      return Verdict(Err(results.error), []);
    }
    var invalid := CollectInvalid(results.value);
    NoInvalidIffNothingFailed(results.value);
    if invalid == [] {
      var order := db.Commit(outcome.commit.changes);
      ForkDb.CommitOrderIrrelevant(pre, outcome.commit.changes, order, outcome.commit.order);
    }
    return Verdict(Ok(invalid == []), results.value);
  }

  /** Every caller is told the truth about its transaction, in the state that the transactions before it left. */
  ghost predicate AllTold(evm: Evm, f: ForkDb.Fork, qs: seq<Request>, verdicts: seq<Verdict>)
    requires ValidEvm(evm)
    decreases |qs|
  {
    && |verdicts| == |qs|
    && (qs == [] ||
        var n := |qs| - 1;
        AllTold(evm, f, qs[..n], verdicts[..n]) && Told(evm, RunAll(evm, f, qs[..n]), qs[n], verdicts[n]))
  }

  /** Validates one transaction after the other. The database ends as the starting one with the commits of
      exactly the accepted transactions applied in order. */
  method ValidateAll(evm: Evm, db: ForkDb.ForkDatabase, qs: seq<Request>) returns (verdicts: seq<Verdict>)
    requires ValidEvm(evm)
    modifies db
    ensures forall i :: 0 <= i < |AcceptedCommits(evm, old(db.State()), qs)| ==>
      ForkDb.Valid(AcceptedCommits(evm, old(db.State()), qs)[i])
    ensures db.State() == ForkDb.CommitAll(old(db.State()), AcceptedCommits(evm, old(db.State()), qs))
    ensures AllTold(evm, old(db.State()), qs, verdicts)
  {
    ghost var f := db.State();
    verdicts := [];
    for i := 0 to |qs|
      invariant db.State() == RunAll(evm, f, qs[..i]) && AllTold(evm, f, qs[..i], verdicts)
    {
      var v := ValidateTransaction(evm, db, qs[i]);
      assert qs[..i + 1][..i] == qs[..i];
      assert (verdicts + [v])[..i] == verdicts;
      verdicts := verdicts + [v];
    }
    assert qs[..|qs|] == qs;
    RunKeepsExactlyAccepted(evm, f, qs);
  }

  lemma SomeDueErrIsNotAllDue(sc: Scene, store: Db, traces: Traces)
    ensures SomeDueErrs(sc, store, traces) ==> !AllDueSucceed(sc, store, traces)
  {
  }
}

/** The parallel workers of one assertion contract: each adds its gas and then one run to shared counters. */
module AssertionWorkers {
  import opened Types
  import opened Executor
  import Triggers

  /** A worker has not added anything yet, has added its gas, has added both, or ended in an error. */
  datatype Phase = Executing | GasAdded | Finished | Failed

  datatype Pool = Pool(gas: nat, ran: nat, phases: seq<Phase>)

  type Outcomes = seq<Result<FnResult, EvmError>>

  function Initial(outcomes: Outcomes): Pool {
    Pool(0, 0, seq(|outcomes|, _ => Executing))
  }

  /** Worker `i` takes its next step; 64-bit additions wrap around. */
  function Next(outcomes: Outcomes, p: Pool, i: nat): Pool
    requires |p.phases| == |outcomes|
  {
    if i >= |outcomes| then p
    else match p.phases[i]
      case Executing =>
        if outcomes[i].Err? then p.(phases := p.phases[i := Failed])
        else p.(gas := (p.gas + outcomes[i].value.gas) % WRAP, phases := p.phases[i := GasAdded])
      case GasAdded => p.(ran := (p.ran + 1) % WRAP, phases := p.phases[i := Finished])
      case Finished => p
      case Failed => p
  }

  function Schedule(outcomes: Outcomes, workers: seq<nat>): (p: Pool)
    ensures |p.phases| == |outcomes|
    decreases |workers|
  {
    if workers == [] then Initial(outcomes)
    else Next(outcomes, Schedule(outcomes, workers[..|workers| - 1]), workers[|workers| - 1])
  }

  /** The gas of the workers that have added theirs. */
  function GasOf(outcomes: Outcomes, phases: seq<Phase>): nat
    requires |phases| == |outcomes|
  {
    if outcomes == [] then 0
    else
      var n := |outcomes| - 1;
      GasOf(outcomes[..n], phases[..n]) +
      if outcomes[n].Ok? && (phases[n].GasAdded? || phases[n].Finished?) then outcomes[n].value.gas else 0
  }

  function FinishedOf(phases: seq<Phase>): nat {
    if phases == [] then 0 else FinishedOf(phases[..|phases| - 1]) + if phases[|phases| - 1].Finished? then 1 else 0
  }

  lemma {:induction false} GasOfUpdate(outcomes: Outcomes, phases: seq<Phase>, i: nat, phase: Phase)
    requires |phases| == |outcomes| && i < |outcomes|
    ensures var own := if outcomes[i].Ok? then outcomes[i].value.gas else 0;
      GasOf(outcomes, phases[i := phase]) + (if phases[i].GasAdded? || phases[i].Finished? then own else 0)
      == GasOf(outcomes, phases) + (if phase.GasAdded? || phase.Finished? then own else 0)
    decreases |outcomes|
  {
    var n := |outcomes| - 1;
    if i < n {
      GasOfUpdate(outcomes[..n], phases[..n], i, phase);
      assert phases[i := phase][..n] == phases[..n][i := phase];
    } else {
      assert phases[i := phase][..n] == phases[..n];
    }
  }

  lemma {:induction false} FinishedOfUpdate(phases: seq<Phase>, i: nat, phase: Phase)
    requires i < |phases|
    ensures FinishedOf(phases[i := phase]) + (if phases[i].Finished? then 1 else 0)
         == FinishedOf(phases) + if phase.Finished? then 1 else 0
    decreases |phases|
  {
    var n := |phases| - 1;
    if i < n {
      FinishedOfUpdate(phases[..n], i, phase);
      assert phases[i := phase][..n] == phases[..n][i := phase];
    } else {
      assert phases[i := phase][..n] == phases[..n];
    }
  }

  ghost predicate Counts(outcomes: Outcomes, p: Pool) {
    && |p.phases| == |outcomes|
    && p.gas == GasOf(outcomes, p.phases) % WRAP && p.ran == FinishedOf(p.phases) % WRAP
    && (forall i :: 0 <= i < |outcomes| && (p.phases[i].GasAdded? || p.phases[i].Finished?) ==> outcomes[i].Ok?)
    && (forall i :: 0 <= i < |outcomes| && p.phases[i].Failed? ==> outcomes[i].Err?)
  }

  lemma NextCounts(outcomes: Outcomes, p: Pool, i: nat)
    requires Counts(outcomes, p)
    ensures Counts(outcomes, Next(outcomes, p, i))
  {
    if i < |outcomes| {
      var p' := Next(outcomes, p, i);
      GasOfUpdate(outcomes, p.phases, i, p'.phases[i]);
      FinishedOfUpdate(p.phases, i, p'.phases[i]);
      assert p'.phases == p.phases[i := p'.phases[i]];
      WrapAdds(GasOf(outcomes, p.phases), if outcomes[i].Ok? then outcomes[i].value.gas else 0);
      WrapAdds(FinishedOf(p.phases), 1);
    }
  }

  lemma {:induction false} InitialCounts(outcomes: Outcomes)
    ensures GasOf(outcomes, seq(|outcomes|, _ => Executing)) == 0 && FinishedOf(seq(|outcomes|, _ => Executing)) == 0
    decreases |outcomes|
  {
    if outcomes != [] {
      var n := |outcomes| - 1;
      InitialCounts(outcomes[..n]);
      assert seq(|outcomes|, _ => Executing)[..n] == seq(n, _ => Executing);
    }
  }

  lemma {:induction false} ScheduleCounts(outcomes: Outcomes, workers: seq<nat>)
    ensures Counts(outcomes, Schedule(outcomes, workers))
    decreases |workers|
  {
    if workers == [] {
      InitialCounts(outcomes);
    } else {
      var n := |workers| - 1;
      ScheduleCounts(outcomes, workers[..n]);
      NextCounts(outcomes, Schedule(outcomes, workers[..n]), workers[n]);
    }
  }

  /** The gas of all results. */
  function TotalGas(outcomes: Outcomes): nat {
    if outcomes == [] then 0
    else
      var n := |outcomes| - 1;
      TotalGas(outcomes[..n]) + if outcomes[n].Ok? then outcomes[n].value.gas else 0
  }

  lemma {:induction false} AllFinished(outcomes: Outcomes, phases: seq<Phase>)
    requires |phases| == |outcomes| && forall i :: 0 <= i < |phases| ==> phases[i].Finished?
    ensures GasOf(outcomes, phases) == TotalGas(outcomes) && FinishedOf(phases) == |phases|
    decreases |outcomes|
  {
    if outcomes != [] {
      AllFinished(outcomes[..|outcomes| - 1], phases[..|phases| - 1]);
    }
  }

  /** For every interleaving after which all workers are finished, the counters hold the sum of the gas and
      the number of results, both modulo 2^64. */
  lemma CountersMatchResults(outcomes: Outcomes, workers: seq<nat>)
    requires forall i :: 0 <= i < |outcomes| ==> Schedule(outcomes, workers).phases[i].Finished?
    ensures var p := Schedule(outcomes, workers);
      && (forall i :: 0 <= i < |outcomes| ==> outcomes[i].Ok?)
      && p.gas == TotalGas(outcomes) % WRAP && p.ran == |outcomes| % WRAP
  {
    ScheduleCounts(outcomes, workers);
    AllFinished(outcomes, Schedule(outcomes, workers).phases);
  }

  /** The results as the workers hand them over. */
  function OutcomesOf(results: seq<FnResult>): Outcomes {
    seq(|results|, i requires 0 <= i < |results| => Ok(results[i]))
  }

  lemma {:induction false} GasIsTotal(results: seq<FnResult>)
    ensures SumGas(results) == TotalGas(OutcomesOf(results))
    decreases |results|
  {
    if results != [] {
      var n := |results| - 1;
      GasIsTotal(results[..n]);
      assert OutcomesOf(results)[..n] == OutcomesOf(results[..n]);
    }
  }

  /** Whatever the interleaving of the workers, their counters end as the totals that the contract's report has. */
  lemma ReportHasTheCounters(sc: Scene, x: Triggers.ForExecution, e: ContractExecution, workers: seq<nat>)
    requires Reports(sc, x, e)
    requires var p := Schedule(OutcomesOf(e.results), workers);
      forall i :: 0 <= i < |e.results| ==> p.phases[i].Finished?
    ensures var p := Schedule(OutcomesOf(e.results), workers); e.totalGas == p.gas && e.ran == p.ran
  {
    GasIsTotal(e.results);
    CountersMatchResults(OutcomesOf(e.results), workers);
  }
}
