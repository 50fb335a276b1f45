/** The two-fork database: one mutation layer over either the pre- or the post-transaction database, with
    the journaled state of the inactive fork kept aside. */
module MultiForkDb {
  import opened Types
  import opened Journal
  import Database
  import ForkDb

  const ASSERTION_CONTRACT: Address := 0x63f9abbe8aa6ba1261ef3b0cbfb25a5ff8eeed10
  const CALLER: Address := 0x00000000000000000000000000000000000001A4
  const PRECOMPILE: Address := 0x4461812e00718ff8D80929E3bF595AEaaa7b881E
  const PERSISTENT: seq<Address> := [ASSERTION_CONTRACT, CALLER, PRECOMPILE]

  datatype ForkId = PreTx | PostTx
  {
    function Other(): ForkId { if PreTx? then PostTx else PreTx }
  }

  datatype ForkError = ForkNotFound(id: ForkId)

  datatype Inactive = Inactive(db: Database.Reader, journaled: Option<JournaledState>)

  datatype Multi = Multi(active: ForkDb.Fork, id: ForkId, inactive: map<ForkId, Inactive>)

  /** `JournaledState::new`: nothing loaded, one empty frame. */
  const FRESH := JournaledState(map[], [[]], 0)

  function New(pre: Database.Reader, post: Database.Reader): Multi {
    Multi(ForkDb.New(post), PostTx, map[PreTx := Inactive(pre, None)])
  }

  // ---- handing the journaled state over ----

  /** The active fork's account replaces the target's; slots only the target has tracked stay. */
  function MergeAccount(active: AccountMap, target: AccountMap, a: Address): AccountMap {
    if a !in active then target
    else if a !in target then target[a := active[a]]
    else target[a := active[a].(storage := target[a].storage + active[a].storage)]
  }

  function MergeAll(active: AccountMap, target: AccountMap, accounts: seq<Address>): AccountMap
    decreases |accounts|
  {
    if accounts == [] then target
    else MergeAccount(active, MergeAll(active, target, accounts[..|accounts| - 1]), accounts[|accounts| - 1])
  }

  function Padded(active: seq<seq<JournalEntry>>, target: seq<seq<JournalEntry>>): seq<seq<JournalEntry>> {
    if |active| <= |target| then target else target + seq(|active| - |target|, _ => [])
  }

  function HandedOver(active: JournaledState, target: JournaledState): JournaledState {
    JournaledState(MergeAll(active.state, target.state, PERSISTENT), Padded(active.journal, target.journal),
                   active.depth)
  }

  datatype Switched = Switched(multi: Multi, js: JournaledState, error: Option<ForkError>)

  function Switch(m: Multi, js: JournaledState, init: JournaledState, id: ForkId): Switched {
    if id == m.id then Switched(m, js, None)
    else if id !in m.inactive then Switched(m, js, Some(ForkNotFound(id)))
    else
      var target := m.inactive[id];
      var targetJs := if target.journaled.Some? then target.journaled.value else init;
      var left := Inactive(m.active.inner, Some(js));
      Switched(Multi(m.active.(inner := target.db), id, (m.inactive - {id})[m.id := left]),
               HandedOver(js, targetJs), None)
  }

  /** The two ids are the active one and the one kept aside, and each has its original database. */
  ghost predicate Bound(m: Multi, pre: Database.Reader, post: Database.Reader) {
    && m.inactive.Keys == {m.id.Other()}
    && m.active.inner == (if m.id.PreTx? then pre else post)
    && m.inactive[m.id.Other()].db == (if m.id.PreTx? then post else pre)
  }

  // ---- the database object ----

  method UpdateJournaledState(active: JournaledState, target: JournaledState) returns (r: JournaledState)
    ensures r == HandedOver(active, target)
  {
    var state := target.state;
    for i := 0 to |PERSISTENT|
      invariant state == MergeAll(active.state, target.state, PERSISTENT[..i])
    {
      assert PERSISTENT[..i + 1][..i] == PERSISTENT[..i];
      var a := PERSISTENT[i];
      if a in active.state {
        var account := active.state[a];
        if a in state {
          account := account.(storage := state[a].storage + account.storage);
        }
        state := state[a := account];
      }
    }
    assert PERSISTENT[..|PERSISTENT|] == PERSISTENT;
    var journal := target.journal;
    while |active.journal| > |journal|
      invariant |target.journal| <= |journal|
      invariant |journal| <= |target.journal| || |journal| <= |active.journal|
      invariant journal == target.journal + seq(|journal| - |target.journal|, _ => [])
    {
      journal := journal + [[]];
    }
    r := JournaledState(state, journal, active.depth);
  }

  class MultiForkDatabase {
    const activeDb: ForkDb.ForkDatabase
    var activeId: ForkId
    var inactive: map<ForkId, Inactive>

    ghost function State(): Multi
      reads this, activeDb
    {
      Multi(activeDb.State(), activeId, inactive)
    }

    constructor (pre: Database.Reader, post: Database.Reader)
      ensures State() == New(pre, post) && fresh(activeDb)
    {
      activeDb := new ForkDb.ForkDatabase(post);
      activeId, inactive := PostTx, map[PreTx := Inactive(pre, None)];
    }

    method SwitchFork(id: ForkId, js: JournaledState, init: JournaledState)
      returns (js': JournaledState, error: Option<ForkError>)
      modifies this, activeDb
      ensures Switched(State(), js', error) == Switch(old(State()), js, init, id)
    {
      if id == activeId {
        return js, None;
      }
      if id !in inactive {
        return js, Some(ForkNotFound(id));
      }
      var target := inactive[id];
      inactive := inactive - {id};
      js' := UpdateJournaledState(js, if target.journaled.Some? then target.journaled.value else init);
      var previousId := activeId;
      activeId := id;
      var previousDb := activeDb.ReplaceInnerDb(target.db);
      inactive := inactive[previousId := Inactive(previousDb, Some(js))];
      error := None;
    }
  }
}

/** What runs of slot writes, checkpoints and fork switches keep. */
module MultiForkRuns {
  import opened Types
  import opened Journal
  import opened MultiForkDb
  import Database

  // ---- merging ----

  ghost predicate Covers(active: AccountMap, target: AccountMap, a: Address) {
    a in target ==> a in active && target[a].storage.Keys <= active[a].storage.Keys
  }

  /** If the target tracks no more than the active fork, merging makes the persistent accounts equal and
      leaves all others alone. */
  lemma {:induction false} MergeShares(active: AccountMap, target: AccountMap, accounts: seq<Address>, a: Address)
    requires Covers(active, target, a)
    ensures var merged := MergeAll(active, target, accounts);
      && Covers(active, merged, a)
      && (a in accounts ==> (a in merged <==> a in active) && (a in active ==> merged[a] == active[a]))
      && (a !in accounts ==> (a in merged <==> a in target) && (a in target ==> merged[a] == target[a]))
    decreases |accounts|
  {
    if accounts != [] {
      var n := |accounts| - 1;
      MergeShares(active, target, accounts[..n], a);
      assert accounts == accounts[..n] + [accounts[n]];
      var before := MergeAll(active, target, accounts[..n]);
      if accounts[n] == a && a in active && a in before {
        assert before[a].storage + active[a].storage == active[a].storage;
      }
    }
  }

  /** What merging makes of one account, whatever the target tracks: the active fork's info, the active fork's
      value for every slot it tracks, and the target's for the slots that only the target tracks. */
  ghost predicate Merged(active: AccountMap, target: AccountMap, out: AccountMap, a: Address)
    requires a in active
  {
    && a in out && out[a].info == active[a].info
    && (forall s :: s in out[a].storage <==> s in active[a].storage || (a in target && s in target[a].storage))
    && (forall s :: s in out[a].storage ==>
          out[a].storage[s] == if s in active[a].storage then active[a].storage[s]
                               else if a in target && s in target[a].storage then target[a].storage[s] else 0)
  }

  lemma {:induction false} MergeMeans(active: AccountMap, target: AccountMap, accounts: seq<Address>, a: Address)
    requires a in accounts
    ensures a in active ==> Merged(active, target, MergeAll(active, target, accounts), a)
    ensures a !in active ==> SameAccount(MergeAll(active, target, accounts), target, a)
    decreases |accounts|
  {
    var n := |accounts| - 1;
    var front := accounts[..n];
    assert accounts == front + [accounts[n]];
    if a in front {
      MergeMeans(active, target, front, a);
    } else {
      MergeKeepsOthers(active, target, front, a);
    }
  }

  /** The journal that is handed over: the target's own frames, and empty ones up to the active journal's length. */
  lemma PaddedMeans(active: seq<seq<JournalEntry>>, target: seq<seq<JournalEntry>>)
    ensures |active| <= |target| ==> Padded(active, target) == target
    ensures |active| > |target| ==> |Padded(active, target)| == |active|
    ensures |active| > |target| ==> forall i :: 0 <= i < |active| ==>
      Padded(active, target)[i] == if i < |target| then target[i] else []
  {
  }

  lemma {:induction false} MergeKeepsOthers(active: AccountMap, target: AccountMap, accounts: seq<Address>, a: Address)
    requires a !in accounts
    ensures var merged := MergeAll(active, target, accounts);
      (a in merged <==> a in target) && (a in target ==> merged[a] == target[a])
    decreases |accounts|
  {
    if accounts != [] {
      var n := |accounts| - 1;
      assert accounts == accounts[..n] + [accounts[n]];
      MergeKeepsOthers(active, target, accounts[..n], a);
    }
  }

  // ---- runs ----

  /** Loading or writing a slot, setting an account's info, or switching forks. */
  datatype Step = Put(cell: Cell, value: Word) | SetInfo(address: Address, info: nat) | SwitchTo(id: ForkId)

  datatype World = World(multi: Multi, js: JournaledState)

  function WithInfo(s: AccountMap, a: Address, info: nat): AccountMap {
    s[a := (if a in s then s[a] else Account(0, map[])).(info := info)]
  }

  function Next(w: World, step: Step): World {
    match step
    case Put(c, v) => w.(js := w.js.(state := SetCell(w.js.state, c, v)))
    case SetInfo(a, info) => w.(js := w.js.(state := WithInfo(w.js.state, a, info)))
    case SwitchTo(id) => var r := Switch(w.multi, w.js, FRESH, id); World(r.multi, r.js)
  }

  function Run(pre: Database.Reader, post: Database.Reader, steps: seq<Step>): World
    decreases |steps|
  {
    if steps == [] then World(New(pre, post), FRESH)
    else Next(Run(pre, post, steps[..|steps| - 1]), steps[|steps| - 1])
  }

  /** The fork that is active after a run. */
  function ActiveAfter(steps: seq<Step>): ForkId {
    if steps == [] then PostTx
    else
      var n := |steps| - 1;
      if steps[n].SwitchTo? then steps[n].id else ActiveAfter(steps[..n])
  }

  // ---- the reference: one shared part and one part per fork ----

  datatype Parts = Parts(shared: AccountMap, pre: AccountMap, post: AccountMap)
  {
    function Own(id: ForkId): AccountMap { if id.PreTx? then pre else post }

    function Update(id: ForkId, a: Address, f: AccountMap -> AccountMap): Parts {
      if a in PERSISTENT then this.(shared := f(shared))
      else if id.PreTx? then this.(pre := f(pre)) else this.(post := f(post))
    }
  }

  function PartsAfter(steps: seq<Step>): Parts {
    if steps == [] then Parts(map[], map[], map[])
    else
      var n := |steps| - 1;
      var before, id := PartsAfter(steps[..n]), ActiveAfter(steps[..n]);
      match steps[n]
      case Put(c, v) => before.Update(id, c.address, s => SetCell(s, c, v))
      case SetInfo(a, info) => before.Update(id, a, s => WithInfo(s, a, info))
      case SwitchTo(_) => before
  }

  ghost predicate SameAccount(s: AccountMap, r: AccountMap, a: Address) {
    (a in s <==> a in r) && (a in s ==> s[a] == r[a])
  }

  /** The active state is the shared part plus the active fork's own part. */
  ghost predicate ActiveShows(s: AccountMap, p: Parts, id: ForkId) {
    forall a: Address :: SameAccount(s, if a in PERSISTENT then p.shared else p.Own(id), a)
  }

  /** The state kept aside has its fork's own part, and of the shared part at most what is there. */
  ghost predicate AsideShows(s: AccountMap, p: Parts, id: ForkId) {
    forall a: Address :: if a in PERSISTENT then Covers(p.shared, s, a) else SameAccount(s, p.Own(id), a)
  }

  ghost predicate Shows(w: World, pre: Database.Reader, post: Database.Reader, p: Parts, id: ForkId) {
    && w.multi.id == id && Bound(w.multi, pre, post)
    && ActiveShows(w.js.state, p, id)
    && var aside := w.multi.inactive[id.Other()].journaled;
       AsideShows(if aside.Some? then aside.value.state else map[], p, id.Other())
  }
}

/** The theorems about two-fork runs. */
module MultiForkTheorems {
  import opened Types
  import opened Journal
  import opened MultiForkDb
  import opened MultiForkRuns
  import Database

  /** `f` looks at and changes only the account `a`, and drops none of its slots. */
  ghost predicate Local(f: AccountMap -> AccountMap, a: Address) {
    && (forall s, b :: b != a ==> SameAccount(f(s), s, b))
    && (forall s, r :: SameAccount(s, r, a) ==> SameAccount(f(s), f(r), a))
    && (forall s, r :: Covers(s, r, a) ==> Covers(f(s), r, a))
  }

  lemma LocalKeepsSame(f: AccountMap -> AccountMap, a: Address, s: AccountMap, r: AccountMap, b: Address)
    requires Local(f, a) && SameAccount(s, r, b)
    ensures SameAccount(f(s), f(r), b) && (b != a ==> SameAccount(f(s), r, b))
  {
    if b != a {
      assert SameAccount(f(s), s, b) && SameAccount(f(r), r, b);
    }
  }

  lemma LocalKeepsCover(f: AccountMap -> AccountMap, a: Address, s: AccountMap, r: AccountMap, b: Address)
    requires Local(f, a) && Covers(s, r, b)
    ensures Covers(f(s), r, b)
  {
    if b != a {
      assert SameAccount(f(s), s, b);
    }
  }

  lemma UpdateShows(w: World, pre: Database.Reader, post: Database.Reader, p: Parts, id: ForkId, a: Address,
                    f: AccountMap -> AccountMap)
    requires Shows(w, pre, post, p, id) && Local(f, a)
    ensures Shows(w.(js := w.js.(state := f(w.js.state))), pre, post, p.Update(id, a, f), id)
  {
    UpdateShowsActive(w.js.state, p, id, a, f);
    var aside := w.multi.inactive[id.Other()].journaled;
    UpdateShowsAside(if aside.Some? then aside.value.state else map[], p, id, a, f);
  }

  lemma UpdateShowsActive(s: AccountMap, p: Parts, id: ForkId, a: Address, f: AccountMap -> AccountMap)
    requires ActiveShows(s, p, id) && Local(f, a)
    ensures ActiveShows(f(s), p.Update(id, a, f), id)
  {
    var p' := p.Update(id, a, f);
    forall b: Address ensures SameAccount(f(s), if b in PERSISTENT then p'.shared else p'.Own(id), b) {
      LocalKeepsSame(f, a, s, if b in PERSISTENT then p.shared else p.Own(id), b);
    }
  }

  lemma UpdateShowsAside(s: AccountMap, p: Parts, id: ForkId, a: Address, f: AccountMap -> AccountMap)
    requires AsideShows(s, p, id.Other()) && Local(f, a)
    ensures AsideShows(s, p.Update(id, a, f), id.Other())
  {
    var p' := p.Update(id, a, f);
    forall b: Address | b in PERSISTENT ensures Covers(p'.shared, s, b) {
      LocalKeepsCover(f, a, p.shared, s, b);
    }
  }

  lemma PutShows(w: World, pre: Database.Reader, post: Database.Reader, p: Parts, id: ForkId, c: Cell, v: Word)
    requires Shows(w, pre, post, p, id)
    ensures Shows(Next(w, Put(c, v)), pre, post, p.Update(id, c.address, s => SetCell(s, c, v)), id)
  {
    UpdateShows(w, pre, post, p, id, c.address, s => SetCell(s, c, v));
  }

  lemma SetInfoShows(w: World, pre: Database.Reader, post: Database.Reader, p: Parts, id: ForkId, a: Address, info: nat)
    requires Shows(w, pre, post, p, id)
    ensures Shows(Next(w, SetInfo(a, info)), pre, post, p.Update(id, a, s => WithInfo(s, a, info)), id)
  {
    UpdateShows(w, pre, post, p, id, a, s => WithInfo(s, a, info));
  }

  /** After the hand-over the target fork shows the shared part and its own. */
  lemma HandOverShows(active: JournaledState, target: JournaledState, p: Parts, id: ForkId)
    requires ActiveShows(active.state, p, id.Other()) && AsideShows(target.state, p, id)
    ensures ActiveShows(HandedOver(active, target).state, p, id)
  {
    var merged := HandedOver(active, target).state;
    forall a: Address ensures SameAccount(merged, if a in PERSISTENT then p.shared else p.Own(id), a) {
      if a in PERSISTENT {
        assert Covers(p.shared, target.state, a) && SameAccount(active.state, p.shared, a);
        MergeShares(active.state, target.state, PERSISTENT, a);
      } else {
        assert SameAccount(target.state, p.Own(id), a);
        MergeKeepsOthers(active.state, target.state, PERSISTENT, a);
      }
    }
  }

  lemma ActiveGoesAside(s: AccountMap, p: Parts, id: ForkId)
    requires ActiveShows(s, p, id)
    ensures AsideShows(s, p, id)
  {
    forall a: Address ensures if a in PERSISTENT then Covers(p.shared, s, a) else SameAccount(s, p.Own(id), a) {
      assert SameAccount(s, if a in PERSISTENT then p.shared else p.Own(id), a);
    }
  }

  lemma SwitchShows(w: World, pre: Database.Reader, post: Database.Reader, p: Parts, id: ForkId, to: ForkId)
    requires Shows(w, pre, post, p, id)
    ensures Shows(Next(w, SwitchTo(to)), pre, post, p, to)
    ensures Switch(w.multi, w.js, FRESH, to).error.None?
  {
    if to != id {
      assert to == id.Other();
      var aside := w.multi.inactive[to].journaled;
      HandOverShows(w.js, if aside.Some? then aside.value else FRESH, p, to);
      ActiveGoesAside(w.js.state, p, id);
    }
  }

  /** Every run of writes and switches shows one shared part and one part per fork; each fork id keeps its own
      database, the two ids are always the active and the one kept aside, and no switch ever fails. */
  lemma {:induction false} RunShows(pre: Database.Reader, post: Database.Reader, steps: seq<Step>)
    ensures Shows(Run(pre, post, steps), pre, post, PartsAfter(steps), ActiveAfter(steps))
    ensures forall to :: Switch(Run(pre, post, steps).multi, Run(pre, post, steps).js, FRESH, to).error.None?
    decreases |steps|
  {
    if steps != [] {
      var n := |steps| - 1;
      RunShows(pre, post, steps[..n]);
      var w, p, id := Run(pre, post, steps[..n]), PartsAfter(steps[..n]), ActiveAfter(steps[..n]);
      match steps[n]
      case Put(c, v) => PutShows(w, pre, post, p, id, c, v);
      case SetInfo(a, info) => SetInfoShows(w, pre, post, p, id, a, info);
      case SwitchTo(to) => SwitchShows(w, pre, post, p, id, to);
    }
    forall to ensures Switch(Run(pre, post, steps).multi, Run(pre, post, steps).js, FRESH, to).error.None? {
      SwitchShows(Run(pre, post, steps), pre, post, PartsAfter(steps), ActiveAfter(steps), to);
    }
  }

  // ---- reading a slot after any number of switches ----

  function CellOf(s: AccountMap, c: Cell): Option<Word> {
    if c.address in s && c.slot in s[c.address].storage then Some(s[c.address].storage[c.slot]) else None
  }

  /** The value last put into a slot, in whichever fork. */
  function LastPut(steps: seq<Step>, c: Cell): Option<Word> {
    if steps == [] then None
    else
      var n := |steps| - 1;
      if steps[n].Put? && steps[n].cell == c then Some(steps[n].value) else LastPut(steps[..n], c)
  }

  /** The value last put into a slot while one fork was active. */
  function LastPutIn(steps: seq<Step>, c: Cell, id: ForkId): Option<Word> {
    if steps == [] then None
    else
      var n := |steps| - 1;
      if steps[n].Put? && steps[n].cell == c && ActiveAfter(steps[..n]) == id then Some(steps[n].value)
      else LastPutIn(steps[..n], c, id)
  }

  lemma {:induction false} PartsRemember(steps: seq<Step>, c: Cell, id: ForkId)
    ensures c.address in PERSISTENT ==> CellOf(PartsAfter(steps).shared, c) == LastPut(steps, c)
    ensures c.address !in PERSISTENT ==> CellOf(PartsAfter(steps).Own(id), c) == LastPutIn(steps, c, id)
    decreases |steps|
  {
    if steps != [] {
      PartsRemember(steps[..|steps| - 1], c, id);
    }
  }

  /** After any run, a slot of a persistent account reads the value last put into it in either fork; any
      other slot reads the value last put into it while the now active fork was active. */
  lemma OneTimelineForPersistentAccounts(pre: Database.Reader, post: Database.Reader, steps: seq<Step>, c: Cell)
    ensures CellOf(Run(pre, post, steps).js.state, c)
         == if c.address in PERSISTENT then LastPut(steps, c) else LastPutIn(steps, c, ActiveAfter(steps))
  {
    var s, p, id := Run(pre, post, steps).js.state, PartsAfter(steps), ActiveAfter(steps);
    RunShows(pre, post, steps);
    PartsRemember(steps, c, id);
    assert SameAccount(s, if c.address in PERSISTENT then p.shared else p.Own(id), c.address);
  }

  // ---- account infos ----

  function InfoOf(s: AccountMap, a: Address): Option<nat> {
    if a in s then Some(s[a].info) else None
  }

  /** The info last set, in whichever fork; putting a slot of an unknown account makes an empty one. */
  function LastInfo(steps: seq<Step>, a: Address): Option<nat> {
    if steps == [] then None
    else
      var n := |steps| - 1;
      var before := LastInfo(steps[..n], a);
      if steps[n].SetInfo? && steps[n].address == a then Some(steps[n].info)
      else if steps[n].Put? && steps[n].cell.address == a && before == None then Some(0)
      else before
  }

  function LastInfoIn(steps: seq<Step>, a: Address, id: ForkId): Option<nat> {
    if steps == [] then None
    else
      var n := |steps| - 1;
      var before := LastInfoIn(steps[..n], a, id);
      if ActiveAfter(steps[..n]) != id then before
      else if steps[n].SetInfo? && steps[n].address == a then Some(steps[n].info)
      else if steps[n].Put? && steps[n].cell.address == a && before == None then Some(0)
      else before
  }

  lemma {:induction false} PartsRememberInfos(steps: seq<Step>, a: Address, id: ForkId)
    ensures a in PERSISTENT ==> InfoOf(PartsAfter(steps).shared, a) == LastInfo(steps, a)
    ensures a !in PERSISTENT ==> InfoOf(PartsAfter(steps).Own(id), a) == LastInfoIn(steps, a, id)
    decreases |steps|
  {
    if steps != [] {
      PartsRememberInfos(steps[..|steps| - 1], a, id);
    }
  }

  /** The same for balance, nonce and code: a persistent account has the info last set in either fork. */
  lemma OneTimelineForInfos(pre: Database.Reader, post: Database.Reader, steps: seq<Step>, a: Address)
    ensures InfoOf(Run(pre, post, steps).js.state, a)
         == if a in PERSISTENT then LastInfo(steps, a) else LastInfoIn(steps, a, ActiveAfter(steps))
  {
    var s, p, id := Run(pre, post, steps).js.state, PartsAfter(steps), ActiveAfter(steps);
    RunShows(pre, post, steps);
    PartsRememberInfos(steps, a, id);
    assert SameAccount(s, if a in PERSISTENT then p.shared else p.Own(id), a);
  }

  lemma {:induction false} AwayKeepsOwn(steps: seq<Step>, away: seq<Step>, id: ForkId)
    requires ActiveAfter(steps) == id.Other()
    requires forall k :: 0 <= k < |away| ==> away[k] != SwitchTo(id)
    ensures ActiveAfter(steps + away) == id.Other() && PartsAfter(steps + away).Own(id) == PartsAfter(steps).Own(id)
    decreases |away|
  {
    if away == [] {
      assert steps + away == steps;
    } else {
      var n := |away| - 1;
      AwayKeepsOwn(steps, away[..n], id);
      assert (steps + away)[..|steps| + n] == steps + away[..n];
    }
  }

  /** Leaving a fork, doing anything in the other one and coming back restores every account that is not
      persistent exactly. */
  lemma ReentryIsExact(pre: Database.Reader, post: Database.Reader, steps: seq<Step>, away: seq<Step>, id: ForkId,
                       a: Address)
    requires ActiveAfter(steps) == id && a !in PERSISTENT
    requires forall k :: 0 <= k < |away| ==> away[k] != SwitchTo(id)
    ensures SameAccount(Run(pre, post, (steps + [SwitchTo(id.Other())] + away) + [SwitchTo(id)]).js.state,
                        Run(pre, post, steps).js.state, a)
  {
    var left := steps + [SwitchTo(id.Other())];
    assert left[..|steps|] == steps;
    AwayKeepsOwn(left, away, id);
    var back := (left + away) + [SwitchTo(id)];
    assert back[..|left + away|] == left + away;
    RunShows(pre, post, steps);
    RunShows(pre, post, back);
    assert SameAccount(Run(pre, post, steps).js.state, PartsAfter(steps).Own(id), a);
    assert SameAccount(Run(pre, post, back).js.state, PartsAfter(back).Own(id), a);
  }

  // ---- checkpoints across switches ----

  datatype FrameStep = OpenFrame | CommitFrame | RevertFrame | PushEntry(entry: JournalEntry) | SwitchFrame(id: ForkId)

  /** `open` holds the frame numbers of the open checkpoints. */
  datatype Framed = Framed(multi: Multi, js: JournaledState, open: seq<nat>)

  ghost predicate FramesFit(w: Framed) {
    && w.js.depth == |w.open| && w.js.journal != []
    && (forall i :: 0 <= i < |w.open| ==> 0 < w.open[i] < |w.js.journal|)
    && (forall i, j :: 0 <= i < j < |w.open| ==> w.open[i] < w.open[j])
  }

  function FrameNext(w: Framed, step: FrameStep): Framed
    requires FramesFit(w)
  {
    var n := |w.open|;
    match step
    case OpenFrame => w.(js := Checkpoint(w.js), open := w.open + [|w.js.journal|])
    case CommitFrame => if n == 0 then w else w.(js := Commit(w.js), open := w.open[..n - 1])
    case RevertFrame => if n == 0 then w else w.(js := Revert(w.js, w.open[n - 1]), open := w.open[..n - 1])
    case PushEntry(e) =>
      var top := |w.js.journal| - 1;
      w.(js := w.js.(journal := w.js.journal[top := w.js.journal[top] + [e]]))
    case SwitchFrame(id) => var r := Switch(w.multi, w.js, FRESH, id); w.(multi := r.multi, js := r.js)
  }

  /** At every point of every run of checkpoints, commits, reverts, entries and switches, each open
      checkpoint's frame exists in the active journal and the depth is the number of open checkpoints; so a
      revert never reaches past the journal, whichever fork it happens in. */
  lemma FramesStayOpen(w: Framed, step: FrameStep)
    requires FramesFit(w)
    ensures FramesFit(FrameNext(w, step))
  {
  }

  function FrameRun(w: Framed, steps: seq<FrameStep>): (r: Framed)
    requires FramesFit(w)
    ensures FramesFit(r)
    decreases |steps|
  {
    if steps == [] then w
    else
      FramesStayOpen(w, steps[0]);
      FrameRun(FrameNext(w, steps[0]), steps[1..])
  }
}

/** Reads of the database under the journal once the assertion contract, the caller and the precompile
    account are installed. */
module InstalledAccounts {
  import opened Types
  import opened Journal
  import opened MultiForkDb
  import Database
  import ForkDb

  function DontReadInner(f: ForkDb.Fork, a: Address): ForkDb.Fork {
    var own := if a in f.storage then f.storage[a] else ForkDb.ForkStorage(map[], false);
    f.(storage := f.storage[a := own.(dontReadFromInner := true)])
  }

  /** `insert_assertion_contract`, committing the two accounts in either order. */
  function InstallContract(f: ForkDb.Fork, contract: Database.Account, caller: Database.Account,
                           callerFirst: bool): ForkDb.Fork {
    var changes := map[ASSERTION_CONTRACT := contract, CALLER := caller];
    var order := if callerFirst then [CALLER, ASSERTION_CONTRACT] else [ASSERTION_CONTRACT, CALLER];
    DontReadInner(DontReadInner(ForkDb.CommitInOrder(f, changes, order), ASSERTION_CONTRACT), CALLER)
  }

  /** `insert_precompile_account`. */
  function InstallPrecompile(f: ForkDb.Fork, info: Database.AccountInfo): ForkDb.Fork {
    DontReadInner(f.(basic := f.basic[PRECOMPILE := info]), PRECOMPILE)
  }

  function Installed(db: Database.Reader, contract: Database.Account, caller: Database.Account, callerFirst: bool,
                     info: Database.AccountInfo): ForkDb.Fork {
    InstallPrecompile(InstallContract(ForkDb.New(db), contract, caller, callerFirst), info)
  }

  method Shield(db: ForkDb.ForkDatabase, a: Address)
    modifies db
    ensures db.State() == DontReadInner(old(db.State()), a)
  {
    var own := if a in db.storage then db.storage[a] else ForkDb.ForkStorage(map[], false);
    db.storage := db.storage[a := own.(dontReadFromInner := true)];
  }

  method InsertPrecompileAccount(db: ForkDb.ForkDatabase, info: Database.AccountInfo)
    modifies db
    ensures db.State() == InstallPrecompile(old(db.State()), info)
  {
    db.InsertAccountInfo(PRECOMPILE, info);
    Shield(db, PRECOMPILE);
  }

  ghost function Elements(order: seq<Address>): set<Address> {
    set a | a in order
  }

  lemma {:induction false} DistinctSize(order: seq<Address>)
    requires forall i, j :: 0 <= i < j < |order| ==> order[i] != order[j]
    ensures |Elements(order)| == |order|
    decreases |order|
  {
    if order != [] {
      var n := |order| - 1;
      var front := order[..n];
      DistinctSize(front);
      assert order[n] !in Elements(front);
      assert Elements(order) == Elements(front) + {order[n]};
    }
  }

  lemma TwoAccountsInOrder(order: seq<Address>)
    requires forall a :: a in order <==> a == ASSERTION_CONTRACT || a == CALLER
    requires forall i, j :: 0 <= i < j < |order| ==> order[i] != order[j]
    ensures order == [CALLER, ASSERTION_CONTRACT] || order == [ASSERTION_CONTRACT, CALLER]
  {
    DistinctSize(order);
    assert Elements(order) == {ASSERTION_CONTRACT, CALLER};
    assert order[0] in order && order[1] in order;
  }

  method InsertAssertionContract(db: ForkDb.ForkDatabase, contract: Database.Account, caller: Database.Account)
    returns (ghost callerFirst: bool)
    modifies db
    ensures db.State() == InstallContract(old(db.State()), contract, caller, callerFirst)
  {
    var changes: Database.EvmState := map[ASSERTION_CONTRACT := contract, CALLER := caller];
    var order := db.Commit(changes);
    assert forall a :: a in order <==> a in changes;
    TwoAccountsInOrder(order);
    callerFirst := order[0] == CALLER;
    Shield(db, ASSERTION_CONTRACT);
    Shield(db, CALLER);
  }

  lemma InstalledAt(db: Database.Reader, contract: Database.Account, caller: Database.Account, callerFirst: bool,
                    info: Database.AccountInfo, a: Address)
    requires caller.touched
    ensures var f := Installed(db, contract, caller, callerFirst, info);
      && f.inner == db
      && (a in f.basic <==> a == CALLER || a == PRECOMPILE || (a == ASSERTION_CONTRACT && contract.touched))
      && (a in f.storage <==> a in PERSISTENT)
      && (a in f.storage ==> f.storage[a].dontReadFromInner)
  {
    var changes := map[ASSERTION_CONTRACT := contract, CALLER := caller];
    var order := if callerFirst then [CALLER, ASSERTION_CONTRACT] else [ASSERTION_CONTRACT, CALLER];
    ForkDb.CommitKeepsInner(ForkDb.New(db), changes, order);
    ForkDb.CommitBasicShape(ForkDb.New(db), changes, order, a);
    ForkDb.CommitStorageShape(ForkDb.New(db), changes, order, a);
  }

  /** What the slot of an installed account holds: what was installed, or zero, whatever the database holds. */
  function InstalledSlot(account: Database.Account, s: Slot): Word {
    if !account.selfdestructed && s in account.storage then account.storage[s] else 0
  }

  /** An installed account reads as what was installed. */
  ghost predicate ReadsAs(f: ForkDb.Fork, a: Address, info: Database.AccountInfo, s: Slot, word: Word) {
    ForkDb.Basic(f, a) == Ok(Some(info)) && ForkDb.Storage(f, a, s) == Ok(word)
  }

  lemma InstalledContract(db: Database.Reader, contract: Database.Account, caller: Database.Account, callerFirst: bool,
                          info: Database.AccountInfo, s: Slot)
    requires contract.touched && caller.touched
    ensures ReadsAs(Installed(db, contract, caller, callerFirst, info), ASSERTION_CONTRACT, contract.info, s,
                    InstalledSlot(contract, s))
  {
    var changes := map[ASSERTION_CONTRACT := contract, CALLER := caller];
    var order := if callerFirst then [CALLER, ASSERTION_CONTRACT] else [ASSERTION_CONTRACT, CALLER];
    ForkDb.CommitBasicShape(ForkDb.New(db), changes, order, ASSERTION_CONTRACT);
    ForkDb.CommitStorageShape(ForkDb.New(db), changes, order, ASSERTION_CONTRACT);
  }

  lemma InstalledCaller(db: Database.Reader, contract: Database.Account, caller: Database.Account, callerFirst: bool,
                        info: Database.AccountInfo, s: Slot)
    requires contract.touched && caller.touched
    ensures ReadsAs(Installed(db, contract, caller, callerFirst, info), CALLER, caller.info, s,
                    InstalledSlot(caller, s))
  {
    var changes := map[ASSERTION_CONTRACT := contract, CALLER := caller];
    var order := if callerFirst then [CALLER, ASSERTION_CONTRACT] else [ASSERTION_CONTRACT, CALLER];
    ForkDb.CommitBasicShape(ForkDb.New(db), changes, order, CALLER);
    ForkDb.CommitStorageShape(ForkDb.New(db), changes, order, CALLER);
  }

  lemma InstalledPrecompile(db: Database.Reader, contract: Database.Account, caller: Database.Account,
                            callerFirst: bool, info: Database.AccountInfo, s: Slot)
    ensures ReadsAs(Installed(db, contract, caller, callerFirst, info), PRECOMPILE, info, s, 0)
  {
    var changes := map[ASSERTION_CONTRACT := contract, CALLER := caller];
    var order := if callerFirst then [CALLER, ASSERTION_CONTRACT] else [ASSERTION_CONTRACT, CALLER];
    ForkDb.CommitStorageShape(ForkDb.New(db), changes, order, PRECOMPILE);
  }

  /** The installed accounts read as what was installed, whatever the database holds. */
  lemma InstalledContents(db: Database.Reader, contract: Database.Account, caller: Database.Account, callerFirst: bool,
                          info: Database.AccountInfo, s: Slot)
    requires contract.touched && caller.touched
    ensures var f := Installed(db, contract, caller, callerFirst, info);
      && ForkDb.Basic(f, ASSERTION_CONTRACT) == Ok(Some(contract.info))
      && ForkDb.Basic(f, CALLER) == Ok(Some(caller.info)) && ForkDb.Basic(f, PRECOMPILE) == Ok(Some(info))
      && ForkDb.Storage(f, ASSERTION_CONTRACT, s) == Ok(InstalledSlot(contract, s))
      && ForkDb.Storage(f, CALLER, s) == Ok(InstalledSlot(caller, s)) && ForkDb.Storage(f, PRECOMPILE, s) == Ok(0)
  {
    InstalledContract(db, contract, caller, callerFirst, info, s);
    InstalledCaller(db, contract, caller, callerFirst, info, s);
    InstalledPrecompile(db, contract, caller, callerFirst, info, s);
  }

  /** Any run of switches. */
  function SwitchAll(m: Multi, js: JournaledState, ids: seq<ForkId>): Switched
    decreases |ids|
  {
    if ids == [] then Switched(m, js, None)
    else
      var r := Switch(m, js, FRESH, ids[0]);
      if r.error.Some? then r else SwitchAll(r.multi, r.js, ids[1..])
  }

  /** A run of switches only exchanges the inner database. */
  lemma {:induction false} SwitchesKeepLayer(m: Multi, js: JournaledState, ids: seq<ForkId>, pre: Database.Reader,
                                             post: Database.Reader)
    requires Bound(m, pre, post)
    ensures var r := SwitchAll(m, js, ids);
      && r.error.None? && Bound(r.multi, pre, post)
      && r.multi.active == m.active.(inner := if r.multi.id.PreTx? then pre else post)
      && r.multi.id == if ids == [] then m.id else ids[|ids| - 1]
    decreases |ids|
  {
    if ids != [] {
      var r := Switch(m, js, FRESH, ids[0]);
      SwitchesKeepLayer(r.multi, r.js, ids[1..], pre, post);
    }
  }

  /** With the accounts installed, after any run of switches: the installed accounts read the same whichever
      fork is active, and every other address reads the active fork's own database. */
  lemma InstalledReads(pre: Database.Reader, post: Database.Reader, contract: Database.Account,
                       caller: Database.Account,
                       callerFirst: bool, info: Database.AccountInfo, js: JournaledState, ids: seq<ForkId>,
                       a: Address, s: Slot)
    requires contract.touched && caller.touched
    ensures var layer := Installed(post, contract, caller, callerFirst, info);
      var r := SwitchAll(New(pre, post).(active := layer), js, ids);
      var active := r.multi.active; var db := if r.multi.id.PreTx? then pre else post;
      && r.error.None?
      && (a in PERSISTENT ==> ForkDb.Basic(active, a) == ForkDb.Basic(layer, a))
      && (a in PERSISTENT ==> ForkDb.Storage(active, a, s) == ForkDb.Storage(layer, a, s))
      && (a !in PERSISTENT ==> ForkDb.Basic(active, a) == db.basic(a))
      && (a !in PERSISTENT ==> ForkDb.Storage(active, a, s) == db.storage(a, s))
  {
    var layer := Installed(post, contract, caller, callerFirst, info);
    InstalledAt(post, contract, caller, callerFirst, info, a);
    SwitchesKeepLayer(New(pre, post).(active := layer), js, ids, pre, post);
  }

  /** The contract's account reads the same over every database exactly when its status is touched: an
      untouched account is skipped by the commit, and only its storage is shielded. */
  lemma ContractIsSharedIffTouched(db: Database.Reader, contract: Database.Account, caller: Database.Account,
                                   callerFirst: bool,
                                   info: Database.AccountInfo)
    requires caller.touched
    ensures var layer := Installed(db, contract, caller, callerFirst, info);
      (forall db1: Database.Reader ::
         ForkDb.Basic(layer.(inner := db1), ASSERTION_CONTRACT) == ForkDb.Basic(layer, ASSERTION_CONTRACT))
      <==> contract.touched
  {
    var layer := Installed(db, contract, caller, callerFirst, info);
    InstalledAt(db, contract, caller, callerFirst, info, ASSERTION_CONTRACT);
    if !contract.touched {
      var other := db.(basic := (a: Address) => if db.basic(a) == Ok(None) then Err(Database.DbError(0)) else Ok(None));
      assert ForkDb.Basic(layer.(inner := other), ASSERTION_CONTRACT) != ForkDb.Basic(layer, ASSERTION_CONTRACT);
    }
  }
}
