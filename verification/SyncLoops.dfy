/**
  The start/stop protocol of the two background loops: `CaldavSync` raises its
  flag with one atomic swap, `BackgroundSync` with a load followed by a store.

  A service is a transition system.  Start calls and spawned loops each carry a
  program counter; one event is one atomic action of one of them, so a history
  (a sequence of events) is one interleaving.
 */
module SyncLoops {
  import opened Prelude

  /** How a service raises its flag, and whether it keeps the (ok, error) counts. */
  datatype Service = Service(atomicStart: bool, keepsStats: bool)

  const CALDAV := Service(true, true)
  const MAIL := Service(false, false)

  /** A start call, by the action it takes next. */
  datatype Starter =
    | AtEntry(mins: nat)
    | AtFlag
    | AtStore
    | AtSpawn
    | Returned

  /** A spawned loop, by the action it takes next. */
  datatype Loop =
    | AtCheck
    | AtInterval
    | AtRun(mins: nat)
    | AtTime(mins: nat, now: int, counts: (nat, nat))
    | AtClear(mins: nat, counts: (nat, nat))
    | AtStats(mins: nat, counts: (nat, nat))
    | AtError(mins: nat, message: string)
    | AtSleep(mins: nat)
    | Exited

  /** What one sync cycle returns. */
  datatype Outcome =
    | Synced(now: int, counts: (nat, nat))
    | Failed(message: string)

  datatype State = State(
    running: bool,
    interval: nat,
    lastSync: Option<int>,
    lastError: Option<string>,
    stats: (nat, nat),
    starters: seq<Starter>,
    loops: seq<Loop>)

  datatype Event =
    | Call(mins: nat)
    | StartStep(call: nat)
    | Stop
    | LoopStep(loop: nat, outcome: Outcome)

  function Initial(interval: nat): State {
    State(false, interval, None, None, (0, 0), [], [])
  }

  // ----- one atomic action -----

  function AfterStartStep(svc: Service, s: State, i: nat): State
    requires i < |s.starters| && !s.starters[i].Returned?
  {
    match s.starters[i]
    case AtEntry(m) => s.(interval := m, starters := s.starters[i := AtFlag])
    case AtFlag =>
      if s.running then s.(starters := s.starters[i := Returned])
      else if svc.atomicStart then s.(running := true, starters := s.starters[i := AtSpawn])
      else s.(starters := s.starters[i := AtStore])
    case AtStore => s.(running := true, starters := s.starters[i := AtSpawn])
    case AtSpawn => s.(loops := s.loops + [AtCheck], starters := s.starters[i := Returned])
  }

  function AfterLoopStep(svc: Service, s: State, j: nat, o: Outcome): State
    requires j < |s.loops| && !s.loops[j].Exited?
  {
    match s.loops[j]
    case AtCheck => s.(loops := s.loops[j := if s.running then AtInterval else Exited])
    case AtInterval => s.(loops := s.loops[j := AtRun(s.interval)])
    case AtRun(m) =>
      s.(loops := s.loops[j := match o
                               case Synced(now, counts) => AtTime(m, now, counts)
                               case Failed(message) => AtError(m, message)])
    case AtTime(m, now, counts) => s.(lastSync := Some(now), loops := s.loops[j := AtClear(m, counts)])
    case AtClear(m, counts) =>
      s.(lastError := None,
         loops := s.loops[j := if svc.keepsStats then AtStats(m, counts) else AtSleep(m)])
    case AtStats(m, counts) => s.(stats := counts, loops := s.loops[j := AtSleep(m)])
    case AtError(m, message) => s.(lastError := Some(message), loops := s.loops[j := AtSleep(m)])
    case AtSleep(_) => s.(loops := s.loops[j := AtCheck])
  }

  predicate Enabled(s: State, e: Event) {
    match e
    case Call(_) => true
    case Stop => true
    case StartStep(i) => i < |s.starters| && !s.starters[i].Returned?
    case LoopStep(j, _) => j < |s.loops| && !s.loops[j].Exited?
  }

  function Step(svc: Service, s: State, e: Event): State
    requires Enabled(s, e)
  {
    match e
    case Call(m) => s.(starters := s.starters + [AtEntry(m)])
    case Stop => s.(running := false)
    case StartStep(i) => AfterStartStep(svc, s, i)
    case LoopStep(j, o) => AfterLoopStep(svc, s, j, o)
  }

  /** The state a history leads to, or nothing when an event is not enabled. */
  function Run(svc: Service, s: State, es: seq<Event>): Option<State> {
    if es == [] then Some(s) else
    var before := Run(svc, s, es[..|es| - 1]);
    var e := es[|es| - 1];
    if before.Some? && Enabled(before.value, e) then Some(Step(svc, before.value, e)) else None
  }

  /** The histories of a service from its construction. */
  predicate Possible(svc: Service, s: State, es: seq<Event>) {
    Run(svc, s, es).Some?
  }

  lemma {:induction false} PrefixPossible(svc: Service, s: State, es: seq<Event>, n: nat)
    requires Possible(svc, s, es) && n <= |es|
    ensures Possible(svc, s, es[..n])
  {
    if n == |es| {
      assert es[..n] == es;
    } else {
      PrefixPossible(svc, s, es[..|es| - 1], n);
      assert es[..|es| - 1][..n] == es[..n];
    }
  }

  /** The state after the first `n` events. */
  function StateAt(svc: Service, s: State, es: seq<Event>, n: nat): State
    requires Possible(svc, s, es) && n <= |es|
  {
    PrefixPossible(svc, s, es, n);
    Run(svc, s, es[..n]).value
  }

  lemma StateAtNext(svc: Service, s: State, es: seq<Event>, n: nat)
    requires Possible(svc, s, es) && n < |es|
    ensures Enabled(StateAt(svc, s, es, n), es[n])
    ensures StateAt(svc, s, es, n + 1) == Step(svc, StateAt(svc, s, es, n), es[n])
  {
    PrefixPossible(svc, s, es, n + 1);
    assert es[..n + 1][..n] == es[..n];
  }

  /** One event at the end of a history is one step. */
  lemma RunExtend(svc: Service, s: State, es: seq<Event>, e: Event)
    requires Possible(svc, s, es) && Enabled(Run(svc, s, es).value, e)
    ensures Run(svc, s, es + [e]) == Some(Step(svc, Run(svc, s, es).value, e))
  {
    assert (es + [e])[..|es|] == es;
  }

  // ----- who is there to serve the flag -----

  function Spawning(c: Starter): nat { if c.AtSpawn? then 1 else 0 }
  function Alive(l: Loop): nat { if l.Exited? then 0 else 1 }

  /** Loops created so far: spawned, or about to be spawned by a call that raised the flag. */
  function Created(s: State): nat { |s.loops| + Sum(s.starters, Spawning) }

  /** Of those, the ones that have not exited. */
  function Active(s: State): nat { Sum(s.loops, Alive) + Sum(s.starters, Spawning) }

  function Flag(s: State): nat { if s.running then 1 else 0 }

  /** The event raises the flag on behalf of a call that will spawn a loop. */
  predicate Raises(svc: Service, s: State, e: Event) {
    && e.StartStep? && Enabled(s, e)
    && (s.starters[e.call].AtStore? || (s.starters[e.call].AtFlag? && svc.atomicStart && !s.running))
  }

  lemma StepActive(svc: Service, s: State, e: Event)
    requires Enabled(s, e)
    ensures Raises(svc, s, e) ==> Active(Step(svc, s, e)) == Active(s) + 1
    ensures !Raises(svc, s, e) ==> Active(Step(svc, s, e)) <= Active(s)
    ensures !Raises(svc, s, e) && s.running ==> Active(Step(svc, s, e)) == Active(s)
    ensures Created(Step(svc, s, e)) == Created(s) + if Raises(svc, s, e) then 1 else 0
  {
    match e {
      case Call(m) => SumAppend(s.starters, AtEntry(m), Spawning);
      case Stop =>
      case StartStep(i) => StartStepActive(svc, s, i);
      case LoopStep(j, o) => LoopStepActive(svc, s, j, o);
    }
  }

  lemma StartStepActive(svc: Service, s: State, i: nat)
    requires i < |s.starters| && !s.starters[i].Returned?
    ensures var t, more := AfterStartStep(svc, s, i), if Raises(svc, s, StartStep(i)) then 1 else 0;
            Active(t) == Active(s) + more && Created(t) == Created(s) + more
  {
    hide Sum;
    SumUpdate(s.starters, i, AfterStartStep(svc, s, i).starters[i], Spawning);
    if s.starters[i].AtSpawn? {
      SumAppend(s.loops, AtCheck, Alive);
    }
  }

  lemma LoopStepActive(svc: Service, s: State, j: nat, o: Outcome)
    requires j < |s.loops| && !s.loops[j].Exited?
    ensures var t := AfterLoopStep(svc, s, j, o);
            && Created(t) == Created(s)
            && Active(t) == Active(s) - if s.loops[j].AtCheck? && !s.running then 1 else 0
  {
    hide Sum;
    SumUpdate(s.loops, j, AfterLoopStep(svc, s, j, o).loops[j], Alive);
  }

  /**
    While the flag is up somebody serves it: in every interleaving a raised flag
    is matched by a spawn about to happen or by a loop that has not exited, and
    a loop that has not exited never saw the flag down.  True of both services.
   */
  lemma {:induction false} RaisedFlagIsServed(svc: Service, mins: nat, es: seq<Event>)
    requires Possible(svc, Initial(mins), es)
    ensures var s := Run(svc, Initial(mins), es).value;
            s.running ==>
              || (exists i :: 0 <= i < |s.starters| && s.starters[i].AtSpawn?)
              || (exists j :: 0 <= j < |s.loops| && !s.loops[j].Exited?)
  {
    ActiveWhenRunning(svc, mins, es);
    var s := Run(svc, Initial(mins), es).value;
    SumPositive(s.loops, Alive);
    SumPositive(s.starters, Spawning);
  }

  lemma {:induction false} ActiveWhenRunning(svc: Service, mins: nat, es: seq<Event>)
    requires Possible(svc, Initial(mins), es)
    ensures var s := Run(svc, Initial(mins), es).value; s.running ==> Active(s) > 0
  {
    if es == [] {
    } else {
      var n := |es| - 1;
      ActiveWhenRunning(svc, mins, es[..n]);
      StepActive(svc, Run(svc, Initial(mins), es[..n]).value, es[n]);
    }
  }

  // ----- the ledger of created loops -----

  /** Stops that turned the flag off, over a history. */
  function Lowered(svc: Service, s: State, es: seq<Event>): nat
    requires Possible(svc, s, es)
  {
    if es == [] then 0 else
    var before := Run(svc, s, es[..|es| - 1]).value;
    Lowered(svc, s, es[..|es| - 1]) + if es[|es| - 1].Stop? && before.running then 1 else 0
  }

  /** A store of `true` that finds the flag already up: two start calls raced. */
  predicate RacingStore(s: State, e: Event) {
    e.StartStep? && Enabled(s, e) && s.starters[e.call].AtStore? && s.running
  }

  /** The racing stores of a history. */
  function Raced(svc: Service, s: State, es: seq<Event>): nat
    requires Possible(svc, s, es)
  {
    if es == [] then 0 else
    var before := Run(svc, s, es[..|es| - 1]).value;
    var e := es[|es| - 1];
    Raced(svc, s, es[..|es| - 1]) + if RacingStore(before, e) then 1 else 0
  }

  /**
    Conservation: every loop ever created is accounted for by a stop that turned
    the flag off, by the flag being up now, or by a race between two start calls.
   */
  lemma {:induction false} LoopLedger(svc: Service, mins: nat, es: seq<Event>)
    requires Possible(svc, Initial(mins), es)
    ensures var s := Run(svc, Initial(mins), es).value;
            Created(s) == Lowered(svc, Initial(mins), es) + Flag(s) + Raced(svc, Initial(mins), es)
  {
    if es == [] {
    } else {
      var n := |es| - 1;
      LoopLedger(svc, mins, es[..n]);
      StepActive(svc, Run(svc, Initial(mins), es[..n]).value, es[n]);
    }
  }

  lemma {:induction false} SwapNeverStores(svc: Service, mins: nat, es: seq<Event>)
    requires svc.atomicStart && Possible(svc, Initial(mins), es)
    ensures Raced(svc, Initial(mins), es) == 0
    ensures forall c :: c in Run(svc, Initial(mins), es).value.starters ==> !c.AtStore?
  {
    if es == [] {
    } else {
      SwapNeverStores(svc, mins, es[..|es| - 1]);
    }
  }

  /**
    The swap: however many start calls arrive and however they interleave, the
    calls between two stops create at most one loop, and exactly one when they
    turn the flag on.
   */
  lemma {:induction false} OneLoopBetweenStops(mins: nat, es: seq<Event>, tail: seq<Event>)
    requires Possible(CALDAV, Initial(mins), es + tail)
    requires forall e :: e in tail ==> !e.Stop?
    ensures Possible(CALDAV, Initial(mins), es)
    ensures var s, t := Run(CALDAV, Initial(mins), es).value, Run(CALDAV, Initial(mins), es + tail).value;
            Created(t) == Created(s) + (if t.running && !s.running then 1 else 0)
    ensures Run(CALDAV, Initial(mins), es).value.running ==> Run(CALDAV, Initial(mins), es + tail).value.running
  {
    var s0 := Initial(mins);
    if tail == [] {
      assert es + tail == es;
    } else {
      var n := |tail| - 1;
      assert (es + tail)[..|es + tail| - 1] == es + tail[..n];
      OneLoopBetweenStops(mins, es, tail[..n]);
      SwapNeverStores(CALDAV, mins, es + tail[..n]);
      var u := Run(CALDAV, s0, es + tail[..n]).value;
      StepActive(CALDAV, u, tail[n]);
    }
  }

  // ----- load/store against swap -----

  /** In no state do two start calls stand between their load and their store. */
  predicate Serialised(mins: nat, es: seq<Event>)
    requires Possible(MAIL, Initial(mins), es)
  {
    forall n: nat | n <= |es| :: Sum(StateAt(MAIL, Initial(mins), es, n).starters, Storing) <= 1
  }

  function Storing(c: Starter): nat { if c.AtStore? then 1 else 0 }

  lemma {:induction false} SerialisedPrefix(mins: nat, es: seq<Event>)
    requires es != [] && Possible(MAIL, Initial(mins), es) && Serialised(mins, es)
    ensures Possible(MAIL, Initial(mins), es[..|es| - 1]) && Serialised(mins, es[..|es| - 1])
    ensures Sum(Run(MAIL, Initial(mins), es).value.starters, Storing) <= 1
  {
    var init := es[..|es| - 1];
    PrefixPossible(MAIL, Initial(mins), es, |init|);
    forall n: nat | n <= |init|
      ensures Sum(StateAt(MAIL, Initial(mins), init, n).starters, Storing) <= 1
    {
      assert init[..n] == es[..n];
      assert Sum(StateAt(MAIL, Initial(mins), es, n).starters, Storing) <= 1;
    }
    assert es[..|es|] == es;
    assert Sum(StateAt(MAIL, Initial(mins), es, |es|).starters, Storing) <= 1;
  }

  /** A lone call between its load and its store keeps the flag down. */
  predicate LoneStore(s: State) {
    && Sum(s.starters, Storing) <= 1
    && (Sum(s.starters, Storing) == 1 ==> !s.running)
  }

  lemma LoneStoreStep(s: State, e: Event)
    requires LoneStore(s) && Enabled(s, e)
    ensures !RacingStore(s, e)
    ensures Sum(Step(MAIL, s, e).starters, Storing) <= 1 ==> LoneStore(Step(MAIL, s, e))
  {
    hide Sum, AfterStartStep;
    match e {
      case Call(m) => SumAppend(s.starters, AtEntry(m), Storing);
      case Stop =>
      case LoopStep(j, o) => LoopStepKeeps(s, j, o);
      case StartStep(i) => LoneStoreStartStep(s, i);
    }
  }

  lemma LoopStepKeeps(s: State, j: nat, o: Outcome)
    requires j < |s.loops| && !s.loops[j].Exited?
    ensures var t := AfterLoopStep(MAIL, s, j, o); t.starters == s.starters && t.running == s.running
  {
  }

  lemma LoneStoreStartStep(s: State, i: nat)
    requires LoneStore(s) && i < |s.starters| && !s.starters[i].Returned?
    ensures s.starters[i].AtStore? ==> !s.running
    ensures var t := AfterStartStep(MAIL, s, i); Sum(t.starters, Storing) <= 1 ==> LoneStore(t)
  {
    hide Sum;
    SumPositive(s.starters, Storing);
    SumUpdate(s.starters, i, AfterStartStep(MAIL, s, i).starters[i], Storing);
    assert s.starters[i].AtStore? ==> Storing(s.starters[i]) > 0;
  }

  /** Serialised start calls never race. */
  lemma {:induction false} SerialisedNeverRaces(mins: nat, es: seq<Event>)
    requires Possible(MAIL, Initial(mins), es) && Serialised(mins, es)
    ensures Raced(MAIL, Initial(mins), es) == 0
    ensures LoneStore(Run(MAIL, Initial(mins), es).value)
  {
    if es == [] {
    } else {
      SerialisedPrefix(mins, es);
      SerialisedNeverRaces(mins, es[..|es| - 1]);
      LoneStoreStep(Run(MAIL, Initial(mins), es[..|es| - 1]).value, es[|es| - 1]);
    }
  }

  /** A call that has loaded `false` looks, to the swap, like one that has not swapped yet. */
  function Unloaded(c: Starter): Starter { if c.AtStore? then AtFlag else c }

  function Abstract(s: State): State {
    s.(starters := seq(|s.starters|, i requires 0 <= i < |s.starters| => Unloaded(s.starters[i])))
  }

  /** A load that sees `false` changes nothing the swap can see. */
  predicate SilentLoad(s: State, e: Event) {
    e.StartStep? && Enabled(s, e) && s.starters[e.call].AtFlag? && !s.running
  }

  /** The swap history of a load/store history: a load that saw `false` is not an action of its own. */
  function SwapHistory(mins: nat, es: seq<Event>): seq<Event>
    requires Possible(MAIL, Initial(mins), es)
  {
    if es == [] then [] else
    var before := Run(MAIL, Initial(mins), es[..|es| - 1]).value;
    var e := es[|es| - 1];
    SwapHistory(mins, es[..|es| - 1])
    + if SilentLoad(before, e) then [] else [e]
  }

  /** The mail service with the swap in place of its load and store. */
  const MAIL_WITH_SWAP := Service(true, MAIL.keepsStats)

  lemma AbstractStep(s: State, e: Event)
    requires Enabled(s, e) && !RacingStore(s, e)
    ensures SilentLoad(s, e) ==> Abstract(Step(MAIL, s, e)) == Abstract(s)
    ensures !SilentLoad(s, e) ==>
              Enabled(Abstract(s), e) && Step(MAIL_WITH_SWAP, Abstract(s), e) == Abstract(Step(MAIL, s, e))
  {
    var t := Step(MAIL, s, e);
    match e {
      case Call(m) => assert Abstract(t).starters == Abstract(s).starters + [AtEntry(m)];
      case Stop =>
      case LoopStep(_, _) => assert Abstract(t).starters == Abstract(s).starters;
      case StartStep(i) =>
        assert Abstract(s).starters[i] == Unloaded(s.starters[i]);
        assert Abstract(t).starters == Abstract(s).starters[i := Unloaded(t.starters[i])];
        if SilentLoad(s, e) {
          assert Abstract(t).starters == Abstract(s).starters;
        }
    }
  }

  /**
    Refinement: a load/store history without races is a history of the swap, with
    the same flag, interval, results, pending spawns and loops at its end.
   */
  lemma {:induction false} LoadStoreRefinesSwap(mins: nat, es: seq<Event>)
    requires Possible(MAIL, Initial(mins), es) && Raced(MAIL, Initial(mins), es) == 0
    ensures Run(MAIL_WITH_SWAP, Initial(mins), SwapHistory(mins, es))
         == Some(Abstract(Run(MAIL, Initial(mins), es).value))
  {
    if es == [] {
      assert Abstract(Initial(mins)) == Initial(mins);
    } else {
      var n := |es| - 1;
      LoadStoreRefinesSwap(mins, es[..n]);
      var s := Run(MAIL, Initial(mins), es[..n]).value;
      var h := SwapHistory(mins, es[..n]);
      AbstractStep(s, es[n]);
      if SilentLoad(s, es[n]) {
        assert h + [] == h;
      } else {
        RunExtend(MAIL_WITH_SWAP, Initial(mins), h, es[n]);
      }
    }
  }

  lemma {:induction false} UnloadedSpawns(cs: seq<Starter>)
    ensures Sum(seq(|cs|, i requires 0 <= i < |cs| => Unloaded(cs[i])), Spawning) == Sum(cs, Spawning)
  {
    if cs == [] {
    } else {
      var n := |cs| - 1;
      var unloaded := seq(|cs|, i requires 0 <= i < |cs| => Unloaded(cs[i]));
      assert unloaded[..n] == seq(n, i requires 0 <= i < n => Unloaded(cs[..n][i]));
      UnloadedSpawns(cs[..n]);
    }
  }

  lemma AbstractCreated(s: State)
    ensures Created(Abstract(s)) == Created(s) && Flag(Abstract(s)) == Flag(s)
  {
    UnloadedSpawns(s.starters);
    var n := |s.starters|;
    assert Abstract(s).starters == seq(n, i requires 0 <= i < n => Unloaded(s.starters[i]));
  }

  /** The swap history `h` ends where the mail history `es` does, as far as the swap can see. */
  predicate Matches(mins: nat, h: seq<Event>, es: seq<Event>)
    requires Possible(MAIL, Initial(mins), es)
  {
    Run(MAIL_WITH_SWAP, Initial(mins), h) == Some(Abstract(Run(MAIL, Initial(mins), es).value))
  }

  /** The price of a race: any swap history with the same end has one more lowering stop for each. */
  lemma RacesCostStops(mins: nat, h: seq<Event>, es: seq<Event>)
    requires Possible(MAIL, Initial(mins), es) && Matches(mins, h, es)
    ensures Lowered(MAIL_WITH_SWAP, Initial(mins), h)
         == Lowered(MAIL, Initial(mins), es) + Raced(MAIL, Initial(mins), es)
  {
    hide Run, Lowered, Raced, Created, Abstract;
    AbstractCreated(Run(MAIL, Initial(mins), es).value);
    LoopLedger(MAIL, mins, es);
    LoopLedger(MAIL_WITH_SWAP, mins, h);
    SwapNeverStores(MAIL_WITH_SWAP, mins, h);
  }

  lemma SwapHistoryLowers(mins: nat, es: seq<Event>)
    requires Possible(MAIL, Initial(mins), es) && Raced(MAIL, Initial(mins), es) == 0
    ensures Matches(mins, SwapHistory(mins, es), es)
    ensures Lowered(MAIL_WITH_SWAP, Initial(mins), SwapHistory(mins, es)) == Lowered(MAIL, Initial(mins), es)
  {
    LoadStoreRefinesSwap(mins, es);
    RacesCostStops(mins, SwapHistory(mins, es), es);
  }

  /** Some history of the swap with as many lowering stops ends in the same state. */
  ghost predicate SwapCanMatch(mins: nat, es: seq<Event>)
    requires Possible(MAIL, Initial(mins), es)
  {
    exists h :: Matches(mins, h, es)
                && Lowered(MAIL_WITH_SWAP, Initial(mins), h) == Lowered(MAIL, Initial(mins), es)
  }

  /** The swap can do what a load/store history does, with as many lowering stops, exactly if no store raced. */
  lemma RefinesSwapIff(mins: nat, es: seq<Event>)
    requires Possible(MAIL, Initial(mins), es)
    ensures SwapCanMatch(mins, es) <==> Raced(MAIL, Initial(mins), es) == 0
  {
    hide Run, Lowered, Raced;
    if Raced(MAIL, Initial(mins), es) == 0 {
      SwapHistoryLowers(mins, es);
    } else {
      forall h | Matches(mins, h, es)
        ensures Lowered(MAIL_WITH_SWAP, Initial(mins), h) != Lowered(MAIL, Initial(mins), es)
      {
        RacesCostStops(mins, h, es);
      }
    }
  }

  // ----- the race is real, and unbounded -----

  /** `n` start calls arrive. */
  lemma AllCall(mins: nat, n: nat) returns (es: seq<Event>)
    ensures forall e :: e in es ==> !e.Stop?
    ensures Possible(MAIL, Initial(mins), es)
    ensures var s := Run(MAIL, Initial(mins), es).value;
            !s.running && s.loops == [] && s.starters == Copies(n, AtEntry(mins))
  {
    es := [];
    for k := 0 to n
      invariant forall e :: e in es ==> !e.Stop?
      invariant Possible(MAIL, Initial(mins), es)
      invariant var s := Run(MAIL, Initial(mins), es).value;
                !s.running && s.loops == [] && s.starters == Copies(k, AtEntry(mins))
    {
      RunExtend(MAIL, Initial(mins), es, Call(mins));
      assert Copies(k, AtEntry(mins)) + [AtEntry(mins)] == Copies(k + 1, AtEntry(mins));
      es := es + [Call(mins)];
    }
  }

  /** Every start call moves one action on, from `from` to `to`, without raising the flag. */
  lemma AllStep(mins: nat, es: seq<Event>, n: nat, from: Starter, to: Starter) returns (es': seq<Event>)
    requires Possible(MAIL, Initial(mins), es)
    requires var s := Run(MAIL, Initial(mins), es).value; !s.running && s.loops == [] && s.starters == Copies(n, from)
    requires (from.AtEntry? && to.AtFlag?) || (from.AtFlag? && to.AtStore?)
    ensures Possible(MAIL, Initial(mins), es')
    ensures var s := Run(MAIL, Initial(mins), es').value; !s.running && s.loops == [] && s.starters == Copies(n, to)
    ensures (forall e :: e in es ==> !e.Stop?) ==> forall e :: e in es' ==> !e.Stop?
  {
    es' := es;
    for k := 0 to n
      invariant Possible(MAIL, Initial(mins), es')
      invariant var s := Run(MAIL, Initial(mins), es').value;
                !s.running && s.loops == [] && s.starters == Copies(k, to) + Copies(n - k, from)
      invariant (forall e :: e in es ==> !e.Stop?) ==> forall e :: e in es' ==> !e.Stop?
    {
      var s := Run(MAIL, Initial(mins), es').value;
      assert s.starters[k] == from;
      RunExtend(MAIL, Initial(mins), es', StartStep(k));
      assert s.starters[k := to] == Copies(k + 1, to) + Copies(n - (k + 1), from);
      es' := es' + [StartStep(k)];
    }
  }

  /** Every start call stores, and each store raises the flag for a loop of its own. */
  lemma AllStore(mins: nat, es: seq<Event>, n: nat) returns (es': seq<Event>)
    requires Possible(MAIL, Initial(mins), es)
    requires var s := Run(MAIL, Initial(mins), es).value; s.loops == [] && s.starters == Copies(n, AtStore)
    ensures Possible(MAIL, Initial(mins), es') && Created(Run(MAIL, Initial(mins), es').value) == n
    ensures (forall e :: e in es ==> !e.Stop?) ==> forall e :: e in es' ==> !e.Stop?
  {
    NoneCreated(Run(MAIL, Initial(mins), es).value, n);
    es' := es;
    for k := 0 to n
      invariant Possible(MAIL, Initial(mins), es')
      invariant var s := Run(MAIL, Initial(mins), es').value;
                Created(s) == k && s.starters == Copies(k, AtSpawn) + Copies(n - k, AtStore)
      invariant (forall e :: e in es ==> !e.Stop?) ==> forall e :: e in es' ==> !e.Stop?
    {
      hide Created, Run;
      OneStore(mins, es', n, k);
      es' := es' + [StartStep(k)];
    }
  }

  lemma NoneCreated(s: State, n: nat)
    requires s.loops == [] && s.starters == Copies(n, AtStore)
    ensures Created(s) == 0
  {
    SumPositive(s.starters, Spawning);
  }

  lemma OneStore(mins: nat, es: seq<Event>, n: nat, k: nat)
    requires k < n && Possible(MAIL, Initial(mins), es)
    requires var s := Run(MAIL, Initial(mins), es).value;
             Created(s) == k && s.starters == Copies(k, AtSpawn) + Copies(n - k, AtStore)
    ensures Possible(MAIL, Initial(mins), es + [StartStep(k)])
    ensures var t := Run(MAIL, Initial(mins), es + [StartStep(k)]).value;
            Created(t) == k + 1 && t.starters == Copies(k + 1, AtSpawn) + Copies(n - (k + 1), AtStore)
  {
    hide Created, Active, Run;
    var s := Run(MAIL, Initial(mins), es).value;
    assert s.starters[k] == AtStore;
    RunExtend(MAIL, Initial(mins), es, StartStep(k));
    StepActive(MAIL, s, StartStep(k));
    assert s.starters[k := AtSpawn] == Copies(k + 1, AtSpawn) + Copies(n - (k + 1), AtStore);
  }

  /**
    The mail service, with no stop at all: `n` start calls that all load before any
    of them stores create `n` loops.  The swap creates one (`OneLoopBetweenStops`).
   */
  lemma CallsCanRace(mins: nat, n: nat) returns (es: seq<Event>)
    ensures forall e :: e in es ==> !e.Stop?
    ensures Possible(MAIL, Initial(mins), es) && Created(Run(MAIL, Initial(mins), es).value) == n
  {
    es := AllCall(mins, n);
    es := AllStep(mins, es, n, AtEntry(mins), AtFlag);
    es := AllStep(mins, es, n, AtFlag, AtStore);
    es := AllStore(mins, es, n);
  }

  // ----- at most one loop at a time -----

  predicate NeverTwoActive(svc: Service, s: State, es: seq<Event>)
    requires Possible(svc, s, es)
  {
    forall n: nat | n <= |es| :: Active(StateAt(svc, s, es, n)) <= 1
  }

  /** Every call that raises the flag finds that all earlier loops have exited. */
  predicate RaisesWhenIdle(svc: Service, s: State, es: seq<Event>)
    requires Possible(svc, s, es)
  {
    forall n: nat | n < |es| :: Raises(svc, StateAt(svc, s, es, n), es[n]) ==> Active(StateAt(svc, s, es, n)) == 0
  }

  /**
    Exactly when a service never has two loops: when each raise of the flag waits
    for the earlier loops to have exited.  Neither service checks this.
   */
  lemma OneLoopAtATimeIff(svc: Service, mins: nat, es: seq<Event>)
    requires Possible(svc, Initial(mins), es)
    ensures NeverTwoActive(svc, Initial(mins), es) <==> RaisesWhenIdle(svc, Initial(mins), es)
  {
    var s0 := Initial(mins);
    if NeverTwoActive(svc, s0, es) {
      forall n: nat | n < |es|
        ensures Raises(svc, StateAt(svc, s0, es, n), es[n]) ==> Active(StateAt(svc, s0, es, n)) == 0
      {
        StateAtNext(svc, s0, es, n);
        assert Active(StateAt(svc, s0, es, n + 1)) <= 1;
        StepActive(svc, StateAt(svc, s0, es, n), es[n]);
      }
    }
    if RaisesWhenIdle(svc, s0, es) {
      forall n: nat | n <= |es|
        ensures Active(StateAt(svc, s0, es, n)) <= 1
      {
        IdleRaisesKeepOne(svc, mins, es, n);
      }
    }
  }

  lemma {:induction false} IdleRaisesKeepOne(svc: Service, mins: nat, es: seq<Event>, n: nat)
    requires Possible(svc, Initial(mins), es) && RaisesWhenIdle(svc, Initial(mins), es) && n <= |es|
    ensures Active(StateAt(svc, Initial(mins), es, n)) <= 1
  {
    if n == 0 {
    } else {
      hide Active, Step, StateAt;
      IdleRaisesKeepOne(svc, mins, es, n - 1);
      StateAtNext(svc, Initial(mins), es, n - 1);
      StepActive(svc, StateAt(svc, Initial(mins), es, n - 1), es[n - 1]);
    }
  }

  /**
    Restarting is not idempotent: `n` stop/start rounds of either service, each start
    running alone and each loop syncing once before the next stop, leave `n + 1` loops
    asleep behind the same raised flag.  None of them can see that there was a stop.
   */
  lemma RestartsPileUp(svc: Service, mins: nat, o: Outcome, n: nat) returns (es: seq<Event>)
    ensures Possible(svc, Initial(mins), es)
    ensures var s := Run(svc, Initial(mins), es).value;
            s.running && s.loops == Copies(n + 1, AtSleep(mins)) && Lowered(svc, Initial(mins), es) == n
    ensures forall j: nat :: j <= n ==> Syncs(svc, Initial(mins), es, j) == 1
  {
    es := Round(svc, mins, o, []);
    assert Copies(0, AtSleep(mins)) + [AtSleep(mins)] == Copies(1, AtSleep(mins));
    for k := 0 to n
      invariant Possible(svc, Initial(mins), es)
      invariant var s := Run(svc, Initial(mins), es).value;
                s.running && s.loops == Copies(k + 1, AtSleep(mins)) && AllReturned(s)
      invariant Lowered(svc, Initial(mins), es) == k
      invariant forall j: nat :: Syncs(svc, Initial(mins), es, j) == if j <= k then 1 else 0
    {
      hide AllReturned, Lowered, Syncs;
      RunExtend(svc, Initial(mins), es, Stop);
      CountsExtend(svc, mins, es, Stop);
      StopKeepsCalls(svc, Run(svc, Initial(mins), es).value);
      es := Round(svc, mins, o, es + [Stop]);
      assert Copies(k + 1, AtSleep(mins)) + [AtSleep(mins)] == Copies(k + 2, AtSleep(mins));
    }
  }

  predicate AllReturned(s: State) { forall c :: c in s.starters ==> c.Returned? }

  lemma StopKeepsCalls(svc: Service, s: State)
    requires AllReturned(s)
    ensures AllReturned(Step(svc, s, Stop))
  {
  }

  /** A start that runs alone on a lowered flag, and one tick of the loop it spawns. */
  lemma Round(svc: Service, mins: nat, o: Outcome, es: seq<Event>) returns (es': seq<Event>)
    requires Possible(svc, Initial(mins), es)
    requires !Run(svc, Initial(mins), es).value.running && AllReturned(Run(svc, Initial(mins), es).value)
    ensures Possible(svc, Initial(mins), es')
    ensures var s, t := Run(svc, Initial(mins), es).value, Run(svc, Initial(mins), es').value;
            && t.running && t.loops == s.loops + [AtSleep(mins)] && AllReturned(t)
            && (forall j: nat :: Syncs(svc, Initial(mins), es', j)
                              == Syncs(svc, Initial(mins), es, j) + if j == |s.loops| then 1 else 0)
    ensures Lowered(svc, Initial(mins), es') == Lowered(svc, Initial(mins), es)
  {
    hide Run, Lowered, Syncs;
    es' := StartAlone(svc, mins, es);
    es' := SyncOnce(svc, mins, o, es');
  }

  /** The program counters of a loop in one tick, in order. */
  function Tick(svc: Service, mins: nat, o: Outcome): seq<Loop> {
    [AtCheck, AtInterval, AtRun(mins)]
    + (match o
       case Synced(now, counts) =>
         [AtTime(mins, now, counts), AtClear(mins, counts)] + if svc.keepsStats then [AtStats(mins, counts)] else []
       case Failed(message) => [AtError(mins, message)])
    + [AtSleep(mins)]
  }

  lemma TickStep(svc: Service, s: State, o: Outcome, loops: seq<Loop>, k: nat)
    requires s.running && k < |Tick(svc, s.interval, o)| - 1 && s.loops == loops + [Tick(svc, s.interval, o)[k]]
    ensures Enabled(s, LoopStep(|loops|, o))
    ensures var t := Step(svc, s, LoopStep(|loops|, o));
            && t.running && t.interval == s.interval && t.starters == s.starters
            && t.loops == loops + [Tick(svc, s.interval, o)[k + 1]]
    ensures s.loops[|loops|].AtRun? <==> k == 2
  {
    var next := Tick(svc, s.interval, o)[k + 1];
    assert s.loops[|loops|] == Tick(svc, s.interval, o)[k];
    assert s.loops[|loops| := next] == loops + [next];
  }

  /** The last loop, just spawned, ticks once with nothing in between. */
  lemma SyncOnce(svc: Service, mins: nat, o: Outcome, es: seq<Event>) returns (es': seq<Event>)
    requires Possible(svc, Initial(mins), es)
    requires var s := Run(svc, Initial(mins), es).value;
             s.running && s.interval == mins && s.loops != [] && s.loops[|s.loops| - 1] == AtCheck
    ensures Possible(svc, Initial(mins), es')
    ensures var s, t := Run(svc, Initial(mins), es).value, Run(svc, Initial(mins), es').value;
            && t.running && t.interval == mins && t.starters == s.starters
            && t.loops == s.loops[..|s.loops| - 1] + [AtSleep(mins)]
            && (forall j: nat :: Syncs(svc, Initial(mins), es', j)
                              == Syncs(svc, Initial(mins), es, j) + if j == |s.loops| - 1 then 1 else 0)
    ensures Lowered(svc, Initial(mins), es') == Lowered(svc, Initial(mins), es)
  {
    var s, tick := Run(svc, Initial(mins), es).value, Tick(svc, mins, o);
    var i := |s.loops| - 1;
    es' := es;
    for k := 0 to |tick| - 1
      invariant Possible(svc, Initial(mins), es')
      invariant var t := Run(svc, Initial(mins), es').value;
                && t.running && t.interval == mins && t.starters == s.starters
                && t.loops == s.loops[..i] + [tick[k]]
      invariant Lowered(svc, Initial(mins), es') == Lowered(svc, Initial(mins), es)
      invariant forall j: nat :: Syncs(svc, Initial(mins), es', j)
                              == Syncs(svc, Initial(mins), es, j) + if j == i && k > 2 then 1 else 0
    {
      hide Lowered, Run, Tick, Syncs, AfterLoopStep;
      TickStep(svc, Run(svc, Initial(mins), es').value, o, s.loops[..i], k);
      RunExtend(svc, Initial(mins), es', LoopStep(i, o));
      CountsExtend(svc, mins, es', LoopStep(i, o));
      es' := es' + [LoopStep(i, o)];
    }
  }

  /** What an event at the end of a history adds to the counts of lowering stops and of syncs. */
  lemma CountsExtend(svc: Service, mins: nat, es: seq<Event>, e: Event)
    requires Possible(svc, Initial(mins), es) && Enabled(Run(svc, Initial(mins), es).value, e)
    requires Possible(svc, Initial(mins), es + [e])
    ensures var s := Run(svc, Initial(mins), es).value;
            && Lowered(svc, Initial(mins), es + [e])
               == Lowered(svc, Initial(mins), es) + (if e.Stop? && s.running then 1 else 0)
            && forall j: nat :: Syncs(svc, Initial(mins), es + [e], j)
                             == Syncs(svc, Initial(mins), es, j)
                                + if e.LoopStep? && e.loop == j && s.loops[j].AtRun? then 1 else 0
  {
    assert (es + [e])[..|es|] == es;
  }

  /** The program counters of a start call that finds the flag down, in order. */
  function Stages(svc: Service, mins: nat): seq<Starter> {
    [AtEntry(mins), AtFlag] + (if svc.atomicStart then [] else [AtStore]) + [AtSpawn, Returned]
  }

  /** The last start call has come to stage `k`, on its own. */
  predicate AtStage(svc: Service, mins: nat, t: State, starters: seq<Starter>, loops: seq<Loop>, k: nat)
    requires k < |Stages(svc, mins)|
  {
    var last := |Stages(svc, mins)| - 1;
    && t.running == (k >= last - 1) && (k > 0 ==> t.interval == mins)
    && t.starters == starters + [Stages(svc, mins)[k]]
    && t.loops == (if k == last then loops + [AtCheck] else loops)
  }

  lemma StageStep(svc: Service, mins: nat, t: State, starters: seq<Starter>, loops: seq<Loop>, k: nat)
    requires k < |Stages(svc, mins)| - 1 && AtStage(svc, mins, t, starters, loops, k)
    ensures Enabled(t, StartStep(|starters|))
    ensures AtStage(svc, mins, Step(svc, t, StartStep(|starters|)), starters, loops, k + 1)
  {
    var i, next := |starters|, Stages(svc, mins)[k + 1];
    assert t.starters[i] == Stages(svc, mins)[k];
    assert t.starters[i := next] == starters + [next];
  }

  /** One start call, run to its end with nothing in between, on a lowered flag. */
  lemma StartAlone(svc: Service, mins: nat, es: seq<Event>) returns (es': seq<Event>)
    requires Possible(svc, Initial(mins), es) && !Run(svc, Initial(mins), es).value.running
    requires forall c :: c in Run(svc, Initial(mins), es).value.starters ==> c.Returned?
    ensures Possible(svc, Initial(mins), es')
    ensures var s, t := Run(svc, Initial(mins), es).value, Run(svc, Initial(mins), es').value;
            && t.running && t.interval == mins && t.loops == s.loops + [AtCheck]
            && forall c :: c in t.starters ==> c.Returned?
    ensures Lowered(svc, Initial(mins), es') == Lowered(svc, Initial(mins), es)
    ensures forall j: nat :: Syncs(svc, Initial(mins), es', j) == Syncs(svc, Initial(mins), es, j)
  {
    var s, stages := Run(svc, Initial(mins), es).value, Stages(svc, mins);
    var i, last := |s.starters|, |stages| - 1;
    RunExtend(svc, Initial(mins), es, Call(mins));
    CountsExtend(svc, mins, es, Call(mins));
    es' := es + [Call(mins)];
    for k := 0 to last
      invariant Possible(svc, Initial(mins), es')
      invariant AtStage(svc, mins, Run(svc, Initial(mins), es').value, s.starters, s.loops, k)
      invariant Lowered(svc, Initial(mins), es') == Lowered(svc, Initial(mins), es)
      invariant forall j: nat :: Syncs(svc, Initial(mins), es', j) == Syncs(svc, Initial(mins), es, j)
    {
      hide Lowered, Run, Syncs, Stages, AfterStartStep;
      StageStep(svc, mins, Run(svc, Initial(mins), es').value, s.starters, s.loops, k);
      RunExtend(svc, Initial(mins), es', StartStep(i));
      CountsExtend(svc, mins, es', StartStep(i));
      es' := es' + [StartStep(i)];
    }
  }

  // ----- after a stop -----

  /** The flag is down and no start call can still raise it. */
  predicate Quiet(s: State) {
    !s.running && forall c :: c in s.starters ==> c.AtSpawn? || c.Returned?
  }

  /** Actions a loop can still take while the flag stays down. */
  function LoopRank(l: Loop): nat {
    match l
    case Exited => 0
    case AtCheck => 1
    case AtSleep(_) => 2
    case AtStats(_, _) => 3
    case AtError(_, _) => 3
    case AtClear(_, _) => 4
    case AtTime(_, _, _) => 5
    case AtRun(_) => 6
    case AtInterval => 7
  }

  function SpawnRank(c: Starter): nat { if c.AtSpawn? then 2 else 0 }

  function Measure(s: State): nat { Sum(s.loops, LoopRank) + Sum(s.starters, SpawnRank) }

  lemma QuietStep(svc: Service, s: State, e: Event)
    requires Quiet(s) && Enabled(s, e) && !e.Call?
    ensures Quiet(Step(svc, s, e))
    ensures if e.Stop? then Step(svc, s, e) == s else Measure(Step(svc, s, e)) < Measure(s)
  {
    var t := Step(svc, s, e);
    match e {
      case Stop =>
      case StartStep(i) =>
        SumUpdate(s.starters, i, Returned, SpawnRank);
        SumAppend(s.loops, AtCheck, LoopRank);
      case LoopStep(j, _) => SumUpdate(s.loops, j, t.loops[j], LoopRank);
    }
  }

  /** Actions of calls and loops, leaving out further stops. */
  function Moves(es: seq<Event>): nat {
    if es == [] then 0 else Moves(es[..|es| - 1]) + if es[|es| - 1].Stop? then 0 else 1
  }

  /** Sync cycles that loop `j` completes in a history. */
  function Syncs(svc: Service, s: State, es: seq<Event>, j: nat): nat
    requires Possible(svc, s, es)
  {
    if es == [] then 0 else
    var before := Run(svc, s, es[..|es| - 1]).value;
    var e := es[|es| - 1];
    Syncs(svc, s, es[..|es| - 1], j)
    + if e.LoopStep? && e.loop == j && before.loops[j].AtRun? then 1 else 0
  }

  /** Loop `j` has passed its flag check and not yet synced. */
  predicate PastCheck(s: State, j: nat) {
    j < |s.loops| && (s.loops[j].AtInterval? || s.loops[j].AtRun?)
  }

  /**
    After a stop, with no later start: every action uses up the measure, so the
    service halts, and each loop completes at most one more sync, and only if it
    was already past its flag check.
   */
  lemma {:induction false} StopDrains(svc: Service, s: State, es: seq<Event>, j: nat)
    requires Quiet(s) && Possible(svc, s, es) && forall e :: e in es ==> !e.Call?
    ensures var t := Run(svc, s, es).value; Quiet(t) && Measure(t) + Moves(es) <= Measure(s)
    ensures var t := Run(svc, s, es).value;
            Syncs(svc, s, es, j) + (if PastCheck(t, j) then 1 else 0) <= (if PastCheck(s, j) then 1 else 0)
  {
    hide Quiet, Measure, PastCheck, Step;
    if es == [] {
    } else {
      var n := |es| - 1;
      StopDrains(svc, s, es[..n], j);
      var before := Run(svc, s, es[..n]).value;
      QuietStep(svc, before, es[n]);
      QuietSync(svc, before, es[n], j);
    }
  }

  /** A loop that syncs while the flag is down is past its check, and is not afterwards. */
  lemma QuietSync(svc: Service, s: State, e: Event, j: nat)
    requires Quiet(s) && Enabled(s, e) && !e.Call?
    ensures var syncs := if e.LoopStep? && e.loop == j && s.loops[j].AtRun? then 1 else 0;
            syncs + (if PastCheck(Step(svc, s, e), j) then 1 else 0) <= if PastCheck(s, j) then 1 else 0
  {
  }

  /** The measure is used up exactly when every loop has exited, and until then some action is possible. */
  lemma DrainedIff(s: State)
    requires Quiet(s)
    ensures Measure(s) == 0 <==> Active(s) == 0
    ensures Active(s) == 0 <==> forall e :: Enabled(s, e) ==> e.Call? || e.Stop?
  {
    SumPositive(s.loops, LoopRank);
    SumPositive(s.loops, Alive);
    SumPositive(s.starters, SpawnRank);
    SumPositive(s.starters, Spawning);
    if Active(s) > 0 {
      if i :| 0 <= i < |s.starters| && Spawning(s.starters[i]) > 0 {
        assert Enabled(s, StartStep(i));
      } else {
        var j :| 0 <= j < |s.loops| && Alive(s.loops[j]) > 0;
        assert Enabled(s, LoopStep(j, Failed("")));
      }
    }
    if e :| Enabled(s, e) && !e.Call? && !e.Stop? {
      if e.StartStep? {
        assert s.starters[e.call] in s.starters;
        assert Spawning(s.starters[e.call]) > 0;
      } else {
        assert Alive(s.loops[e.loop]) > 0;
      }
    }
  }

  // ----- what the fields hold -----

  /** `n` actions of one loop, each given the same outcome. */
  function LoopSteps(svc: Service, s: State, j: nat, o: Outcome, n: nat): Option<State> {
    if n == 0 then Some(s) else
    var before := LoopSteps(svc, s, j, o, n - 1);
    if before.Some? && Enabled(before.value, LoopStep(j, o)) then Some(Step(svc, before.value, LoopStep(j, o)))
    else None
  }

  /** A cycle that succeeds leaves its time, no error and its counts, first synced and then failed ones. */
  lemma SyncLeaves(s: State, j: nat, now: int, ok: nat, failed: nat)
    requires j < |s.loops| && s.loops[j].AtRun?
    ensures LoopSteps(CALDAV, s, j, Synced(now, (ok, failed)), 4)
         == Some(s.(lastSync := Some(now), lastError := None, stats := (ok, failed),
                    loops := s.loops[j := AtSleep(s.loops[j].mins)]))
    ensures LoopSteps(MAIL, s, j, Synced(now, (ok, failed)), 3)
         == Some(s.(lastSync := Some(now), lastError := None, loops := s.loops[j := AtSleep(s.loops[j].mins)]))
  {
    var o, m := Synced(now, (ok, failed)), s.loops[j].mins;
    var s1 := s.(loops := s.loops[j := AtTime(m, now, (ok, failed))]);
    var s2 := s.(lastSync := Some(now), loops := s.loops[j := AtClear(m, (ok, failed))]);
    var s3 := s2.(lastError := None, loops := s.loops[j := AtStats(m, (ok, failed))]);
    UpdateTwice(s.loops, j, AtTime(m, now, (ok, failed)), AtClear(m, (ok, failed)));
    UpdateTwice(s.loops, j, AtClear(m, (ok, failed)), AtStats(m, (ok, failed)));
    UpdateTwice(s.loops, j, AtClear(m, (ok, failed)), AtSleep(m));
    UpdateTwice(s.loops, j, AtStats(m, (ok, failed)), AtSleep(m));
    assert LoopSteps(CALDAV, s, j, o, 0) == LoopSteps(MAIL, s, j, o, 0) == Some(s);
    assert LoopSteps(CALDAV, s, j, o, 1) == LoopSteps(MAIL, s, j, o, 1) == Some(s1);
    assert LoopSteps(CALDAV, s, j, o, 2) == LoopSteps(MAIL, s, j, o, 2) == Some(s2);
    assert LoopSteps(CALDAV, s, j, o, 3) == Some(s3);
  }

  /** A cycle that fails leaves its message, and the time and the counts of the one before. */
  lemma FailureLeaves(svc: Service, s: State, j: nat, message: string)
    requires j < |s.loops| && s.loops[j].AtRun?
    ensures LoopSteps(svc, s, j, Failed(message), 2)
         == Some(s.(lastError := Some(message), loops := s.loops[j := AtSleep(s.loops[j].mins)]))
  {
    var o := Failed(message);
    UpdateTwice(s.loops, j, AtError(s.loops[j].mins, message), AtSleep(s.loops[j].mins));
    assert LoopSteps(svc, s, j, o, 0) == Some(s);
    assert LoopSteps(svc, s, j, o, 1) == Some(s.(loops := s.loops[j := AtError(s.loops[j].mins, message)]));
  }

  /** What the last cycle of loop `j` returned. */
  function LastOutcome(svc: Service, s: State, es: seq<Event>, j: nat): Option<Outcome>
    requires Possible(svc, s, es)
  {
    if es == [] then None else
    var init, e := es[..|es| - 1], es[|es| - 1];
    if e.LoopStep? && e.loop == j && Run(svc, s, init).value.loops[j].AtRun? then Some(e.outcome)
    else LastOutcome(svc, s, init, j)
  }

  /** The intervals asked for by the start calls, in order of arrival. */
  function Asked(es: seq<Event>): seq<nat> {
    if es == [] then [] else
    var e := es[|es| - 1];
    Asked(es[..|es| - 1]) + if e.Call? then [e.mins] else []
  }

  /** The time of the cycle whose loop wrote the last-sync time last. */
  function SyncTimeOf(svc: Service, mins: nat, es: seq<Event>): Option<int>
    requires Possible(svc, Initial(mins), es)
  {
    if es == [] then None else
    var init, e := es[..|es| - 1], es[|es| - 1];
    if e.LoopStep? && Run(svc, Initial(mins), init).value.loops[e.loop].AtTime? then
      match LastOutcome(svc, Initial(mins), init, e.loop)
      case Some(Synced(now, _)) => Some(now)
      case _ => None
    else SyncTimeOf(svc, mins, init)
  }

  /** The message of the cycle whose loop wrote the error last, unless a success cleared it. */
  function ErrorOf(svc: Service, mins: nat, es: seq<Event>): Option<string>
    requires Possible(svc, Initial(mins), es)
  {
    if es == [] then None else
    var init, e := es[..|es| - 1], es[|es| - 1];
    if e.LoopStep? && Run(svc, Initial(mins), init).value.loops[e.loop].AtClear? then None
    else if e.LoopStep? && Run(svc, Initial(mins), init).value.loops[e.loop].AtError? then
      match LastOutcome(svc, Initial(mins), init, e.loop)
      case Some(Failed(message)) => Some(message)
      case _ => None
    else ErrorOf(svc, mins, init)
  }

  /** The counts of the cycle whose loop wrote the counts last. */
  function CountsOf(svc: Service, mins: nat, es: seq<Event>): (nat, nat)
    requires Possible(svc, Initial(mins), es)
  {
    if es == [] then (0, 0) else
    var init, e := es[..|es| - 1], es[|es| - 1];
    if e.LoopStep? && Run(svc, Initial(mins), init).value.loops[e.loop].AtStats? then
      match LastOutcome(svc, Initial(mins), init, e.loop)
      case Some(Synced(_, counts)) => counts
      case _ => (0, 0)
    else CountsOf(svc, mins, init)
  }

  /** The interval asked for by the start call that wrote it last. */
  function IntervalOf(svc: Service, mins: nat, es: seq<Event>): nat
    requires Possible(svc, Initial(mins), es)
  {
    if es == [] then mins else
    var init, e := es[..|es| - 1], es[|es| - 1];
    if e.StartStep? && Run(svc, Initial(mins), init).value.starters[e.call].AtEntry? && e.call < |Asked(init)|
    then Asked(init)[e.call]
    else IntervalOf(svc, mins, init)
  }

  /** What a loop carries is what its last cycle returned. */
  predicate Carries(l: Loop, o: Option<Outcome>) {
    match l
    case AtTime(_, now, counts) => o == Some(Synced(now, counts))
    case AtClear(_, counts) => o.Some? && o.value.Synced? && o.value.counts == counts
    case AtStats(_, counts) => o.Some? && o.value.Synced? && o.value.counts == counts
    case AtError(_, message) => o == Some(Failed(message))
    case _ => true
  }

  lemma {:induction false} LoopsCarry(svc: Service, mins: nat, es: seq<Event>, j: nat)
    requires Possible(svc, Initial(mins), es) && j < |Run(svc, Initial(mins), es).value.loops|
    ensures Carries(Run(svc, Initial(mins), es).value.loops[j], LastOutcome(svc, Initial(mins), es, j))
  {
    hide Carries, Step;
    if es == [] {
    } else {
      var n := |es| - 1;
      var s := Run(svc, Initial(mins), es[..n]).value;
      if j < |s.loops| { LoopsCarry(svc, mins, es[..n], j); }
      StepCarries(svc, s, es[n], j, LastOutcome(svc, Initial(mins), es[..n], j));
    }
  }

  lemma StepCarries(svc: Service, s: State, e: Event, j: nat, o: Option<Outcome>)
    requires Enabled(s, e) && j < |Step(svc, s, e).loops| && (j < |s.loops| ==> Carries(s.loops[j], o))
    ensures var ran := e.LoopStep? && e.loop == j && s.loops[j].AtRun?;
            Carries(Step(svc, s, e).loops[j], if ran then Some(e.outcome) else o)
  {
  }

  lemma {:induction false} CallsCarry(svc: Service, mins: nat, es: seq<Event>)
    requires Possible(svc, Initial(mins), es)
    ensures var calls := Run(svc, Initial(mins), es).value.starters;
            && |calls| == |Asked(es)|
            && forall i :: 0 <= i < |calls| && calls[i].AtEntry? ==> calls[i].mins == Asked(es)[i]
  {
    if es == [] {
    } else {
      CallsCarry(svc, mins, es[..|es| - 1]);
    }
  }

  /** Over every history each field holds what was returned, or asked for, by whoever wrote it last. */
  lemma {:induction false} FieldsFollowHistory(svc: Service, mins: nat, es: seq<Event>)
    requires Possible(svc, Initial(mins), es)
    ensures var s := Run(svc, Initial(mins), es).value;
            && s.lastSync == SyncTimeOf(svc, mins, es) && s.lastError == ErrorOf(svc, mins, es)
            && s.stats == CountsOf(svc, mins, es) && s.interval == IntervalOf(svc, mins, es)
  {
    hide LastOutcome, Asked;
    if es == [] {
    } else {
      var n := |es| - 1;
      var s := Run(svc, Initial(mins), es[..n]).value;
      FieldsFollowHistory(svc, mins, es[..n]);
      match es[n]
      case LoopStep(j, _) => LoopsCarry(svc, mins, es[..n], j);
      case StartStep(i) => CallsCarry(svc, mins, es[..n]);
      case _ =>
    }
  }

  // ----- what a status call can see -----

  predicate HasSynced(l: Loop) { l.AtClear? || l.AtStats? }

  lemma {:induction false} CountsComeAfterTime(svc: Service, mins: nat, es: seq<Event>)
    requires Possible(svc, Initial(mins), es)
    ensures var s := Run(svc, Initial(mins), es).value;
            (s.stats != (0, 0) || exists l :: l in s.loops && HasSynced(l)) ==> s.lastSync.Some?
  {
    if es == [] {
    } else {
      var n := |es| - 1;
      CountsComeAfterTime(svc, mins, es[..n]);
      var s, t := Run(svc, Initial(mins), es[..n]).value, Run(svc, Initial(mins), es).value;
      if es[n].LoopStep? && t.lastSync.None? {
        assert s.loops[es[n].loop] in s.loops;
        forall l | l in t.loops ensures !HasSynced(l) {
          assert l in s.loops || l == t.loops[es[n].loop];
        }
      }
    }
  }

  lemma {:induction false} LastSyncStays(svc: Service, s: State, es: seq<Event>, n: nat)
    requires Possible(svc, s, es) && n <= |es|
    requires StateAt(svc, s, es, n).lastSync.Some?
    ensures Run(svc, s, es).value.lastSync.Some?
  {
    if n == |es| {
      assert es[..n] == es;
    } else {
      assert es[..|es| - 1][..n] == es[..n];
      LastSyncStays(svc, s, es[..|es| - 1], n);
    }
  }

  /**
    A status call reads the counts first and the last-sync time later, with any
    actions in between; it never reports counts without a time.
   */
  lemma StatusNeverTorn(svc: Service, mins: nat, es: seq<Event>, n: nat)
    requires Possible(svc, Initial(mins), es) && n <= |es|
    ensures StateAt(svc, Initial(mins), es, n).stats != (0, 0) ==>
              Run(svc, Initial(mins), es).value.lastSync.Some?
  {
    PrefixPossible(svc, Initial(mins), es, n);
    CountsComeAfterTime(svc, mins, es[..n]);
    if StateAt(svc, Initial(mins), es, n).stats != (0, 0) {
      LastSyncStays(svc, Initial(mins), es, n);
    }
  }

  // ----- the service object -----

  /** The fields of `CaldavSync` and the tasks it spawned, changed in place one action at a time. */
  class CaldavSync {
    var running: bool
    var intervalMins: nat
    var lastSync: Option<int>
    var lastError: Option<string>
    var lastStats: (nat, nat)
    var calls: seq<Starter>
    var loops: seq<Loop>

    /** The machine state the fields stand for. */
    ghost function View(): State
      reads this
    {
      State(running, intervalMins, lastSync, lastError, lastStats, calls, loops)
    }

    constructor ()
      ensures View() == Initial(30)
    {
      running, intervalMins := false, 30;
      lastSync, lastError, lastStats := None, None, (0, 0);
      calls, loops := [], [];
    }

    /** The next atomic action of start call `i`. */
    method StepStart(i: nat)
      requires Enabled(View(), StartStep(i))
      modifies this
      ensures View() == Step(CALDAV, old(View()), StartStep(i))
    {
      match calls[i]
      case AtEntry(m) =>
        intervalMins := m;
        calls := calls[i := AtFlag];
      case AtFlag =>
        var was := running;
        running := true;
        calls := calls[i := if was then Returned else AtSpawn];
      case AtStore =>
        running := true;
        calls := calls[i := AtSpawn];
      case AtSpawn =>
        loops := loops + [AtCheck];
        calls := calls[i := Returned];
    }

    /** The next atomic action of loop `j`; `outcome` is what a sync cycle returns. */
    method StepLoop(j: nat, outcome: Outcome)
      requires Enabled(View(), LoopStep(j, outcome))
      modifies this
      ensures View() == Step(CALDAV, old(View()), LoopStep(j, outcome))
    {
      var next: Loop;
      match loops[j] {
        case AtCheck => next := if running then AtInterval else Exited;
        case AtInterval => next := AtRun(intervalMins);
        case AtRun(m) =>
          match outcome {
            case Synced(now, counts) => next := AtTime(m, now, counts);
            case Failed(message) => next := AtError(m, message);
          }
        case AtTime(m, now, counts) =>
          lastSync := Some(now);
          next := AtClear(m, counts);
        case AtClear(m, counts) =>
          lastError := None;
          next := AtStats(m, counts);
        case AtStats(m, counts) =>
          lastStats := counts;
          next := AtSleep(m);
        case AtError(m, message) =>
          lastError := Some(message);
          next := AtSleep(m);
        case AtSleep(_) => next := AtCheck;
      }
      loops := loops[j := next];
    }

    /** A start call that runs alone: it spawns a loop exactly when the flag was down. */
    method Start(mins: nat)
      modifies this
      ensures View() == old(View()).(
                          running := true,
                          interval := mins,
                          starters := old(calls) + [Returned],
                          loops := if old(running) then old(loops) else old(loops) + [AtCheck])
    {
      var i := |calls|;
      calls := calls + [AtEntry(mins)];
      StepStart(i);
      assert calls == old(calls) + [AtFlag];
      StepStart(i);
      assert calls == old(calls) + [if old(running) then Returned else AtSpawn];
      if !calls[i].Returned? {
        StepStart(i);
        assert calls == old(calls) + [Returned];
      }
    }

    /** What a caller is told: the two counts are those of the last sync, synced ones first. */
    method Status() returns (syncTime: Option<int>, isSyncing: bool, error: Option<string>, synced: nat, failed: nat)
      ensures syncTime == lastSync && isSyncing == running && error == lastError && (synced, failed) == lastStats
    {
      synced, failed := lastStats.0, lastStats.1;
      syncTime, isSyncing, error := lastSync, running, lastError;
    }

    method StopLoop()
      modifies this
      ensures View() == Step(CALDAV, old(View()), Stop)
    {
      running := false;
    }
  }
}
