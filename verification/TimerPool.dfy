/**
 The timer pool as a step system. Each mutex-protected section of the main thread, of an
 executor thread or of a caller is one step; the main thread keeps the pool's own mutex from
 picking a timer until it has handed it to an executor, so callers get in only between.
 */
module TimerPool {
  import opened Values

  type TimerId = nat
  type ExecId = nat

  datatype Timespec = Timespec(sec: int, nsec: int)

  predicate Before(a: Timespec, b: Timespec)
  {
    b.sec > a.sec || (b.sec == a.sec && b.nsec > a.nsec)
  }

  /** `m_timer`, `m_doCount`, the timer whose handler the thread is in, and whether this handler has
      made the executor free for other timers before returning. */
  datatype Executor = Executor(timer: Option<TimerId>, count: nat, handling: Option<TimerId>, stale: bool)

  const IdleExecutor := Executor(None, 0, None, false)

  /** Where the main thread is in `doExecute`. */
  datatype Main = Waiting | Picked(timer: TimerId) | Chosen(timer: TimerId, exec: ExecId)

  /** What has happened to the firings of each timer: the handler call was made and has returned, or
      a stop took the call away, or the executor counted the return of another handler for it. */
  datatype Counters = Counters(
    fired: map<TimerId, nat>,
    completed: map<TimerId, nat>,
    discarded: map<TimerId, nat>,
    lost: map<TimerId, nat>)

  datatype State = State(
    created: set<TimerId>,
    idle: set<TimerId>,
    running: map<Timespec, TimerId>,
    targets: map<TimerId, Timespec>,     // the target of the last start of each timer
    executors: map<ExecId, Executor>,
    idleExecs: set<ExecId>,
    serving: map<TimerId, ExecId>,       // the container's running executors
    main: Main,
    waiters: set<(TimerId, ExecId)>,     // other threads in `waitUntilServiced`
    freeing: set<ExecId>,                // threads that have stopped or removed the timer they handle
    counters: Counters)

  function Count(m: map<TimerId, nat>, t: TimerId): nat
  {
    if t in m then m[t] else 0
  }

  function Bump(m: map<TimerId, nat>, t: TimerId, n: nat): map<TimerId, nat>
  {
    m[t := Count(m, t) + n]
  }

  // ----- steps -----

  datatype Step =
    | Create(t: TimerId)
    | Start(t: TimerId, target: Timespec)
    | Stop(t: TimerId)
    | Remove(t: TimerId)
    | Fire(now: Timespec)
    | Choose(e: ExecId)
    | TryExecute
    | Enter(e: ExecId)
    | Leave(e: ExecId)
    | Discard(t: TimerId, e: ExecId)
    | SelfStop(e: ExecId)
    | SelfRemove(e: ExecId)
    | SelfFree(e: ExecId)

  /** The first entry of the map of running timers. */
  predicate First(running: map<Timespec, TimerId>, k: Timespec)
  {
    k in running && forall j :: j in running ==> j == k || Before(k, j)
  }

  predicate IsRunning(s: State, t: TimerId)
  {
    exists k :: k in s.running && s.running[k] == t
  }

  ghost function KeyOf(s: State, t: TimerId): Timespec
    requires IsRunning(s, t)
    ensures KeyOf(s, t) in s.running && s.running[KeyOf(s, t)] == t
  {
    var k :| k in s.running && s.running[k] == t;
    k
  }

  /** `map::insert` keeps an entry that is already there. */
  function InsertTimer(running: map<Timespec, TimerId>, target: Timespec, t: TimerId): map<Timespec, TimerId>
  {
    if target in running then running else running[target := t]
  }

  ghost predicate Enabled(s: State, step: Step)
  {
    match step
    case Create(t) => s.main == Waiting && t !in s.created && t !in s.serving
    case Start(t, _) => s.main == Waiting && t in s.created
    case Stop(t) => s.main == Waiting && t in s.created
    case Remove(t) => s.main == Waiting && t in s.created
    case Fire(now) => s.main == Waiting && exists k :: First(s.running, k) && Before(k, now)
    case Choose(e) =>
      && s.main.Picked?
      && (if s.main.timer in s.serving then e == s.serving[s.main.timer]
          else if s.idleExecs != {} then e in s.idleExecs
          else e !in s.executors)
    case TryExecute => s.main.Chosen? && s.main.exec in s.executors
    case Enter(e) => e in s.executors && s.executors[e].timer.Some? && s.executors[e].handling.None?
    case Leave(e) => e in s.executors && s.executors[e].handling.Some? && e !in s.freeing
    case Discard(t, e) => (t, e) in s.waiters && e in s.executors
    case SelfStop(e) => s.main == Waiting && HandlesOwn(s, e)
    case SelfRemove(e) => s.main == Waiting && HandlesOwn(s, e)
    case SelfFree(e) => e in s.freeing && e in s.executors && s.executors[e].handling.Some?
  }

  /** The thread is in the handler of a timer that the container has it serving. */
  predicate HandlesOwn(s: State, e: ExecId)
  {
    && e in s.executors && e !in s.freeing && s.executors[e].handling.Some?
    && var t := s.executors[e].handling.value;
    && t in s.created && t in s.serving && s.serving[t] == e
  }

  ghost function StartTimer(s: State, t: TimerId, target: Timespec): State
  {
    if IsRunning(s, t) then
      if KeyOf(s, t) == target then s.(targets := s.targets[t := target])
      else s.(running := InsertTimer(s.running - {KeyOf(s, t)}, target, t), targets := s.targets[t := target])
    else s.(idle := s.idle - {t}, running := InsertTimer(s.running, target, t), targets := s.targets[t := target])
  }

  /** The caller goes on to wait if an executor serves the timer. */
  function AwaitService(s: State, t: TimerId): State
  {
    if t in s.serving then s.(waiters := s.waiters + {(t, s.serving[t])}) else s
  }

  ghost function Unschedule(s: State, t: TimerId): State
    requires IsRunning(s, t)
  {
    s.(running := s.running - {KeyOf(s, t)}, idle := s.idle + {t})
  }

  ghost function Forget(s: State, t: TimerId): State
  {
    var s' := if IsRunning(s, t) then s.(running := s.running - {KeyOf(s, t)}) else s.(idle := s.idle - {t});
    s'.(created := s.created - {t})
  }

  ghost function StopTimer(s: State, t: TimerId): State
  {
    if IsRunning(s, t) then AwaitService(Unschedule(s, t), t) else s
  }

  ghost function RemoveTimer(s: State, t: TimerId): State
  {
    AwaitService(Forget(s, t), t)
  }

  /** `stopTimer` called by the handler of this very timer; a timer that was not started again is
      left alone. */
  ghost function SelfStopTimer(s: State, e: ExecId): State
    requires HandlesOwn(s, e)
  {
    var t := s.executors[e].handling.value;
    if IsRunning(s, t) then Unschedule(s, t).(freeing := s.freeing + {e}) else s
  }

  /** `removeTimer` called by the handler of this very timer. */
  ghost function SelfRemoveTimer(s: State, e: ExecId): State
    requires HandlesOwn(s, e)
  {
    Forget(s, s.executors[e].handling.value).(freeing := s.freeing + {e})
  }

  ghost function FireFirst(s: State, now: Timespec): State
    requires exists k :: First(s.running, k) && Before(k, now)
  {
    var k :| First(s.running, k) && Before(k, now);
    var t := s.running[k];
    s.(running := s.running - {k}, idle := s.idle + {t}, main := Picked(t),
       counters := s.counters.(fired := Bump(s.counters.fired, t, 1)))
  }

  function ChooseExecutor(s: State, e: ExecId): State
    requires s.main.Picked?
  {
    var s' := if e in s.executors then s
              else s.(executors := s.executors[e := IdleExecutor], idleExecs := s.idleExecs + {e});
    s'.(main := Chosen(s.main.timer, e))
  }

  /** Would `tryExecute` accept the timer? */
  predicate Accepts(x: Executor, t: TimerId)
  {
    x.timer == None || x.timer == Some(t)
  }

  /** The handler calls that an executor still owes its timer. Even when a stop has set the count
      to zero, one call is under way or will be made. */
  function Owed(x: Executor): nat
  {
    if x.count > 0 then x.count else 1
  }

  function HandOver(s: State): State
    requires s.main.Chosen? && s.main.exec in s.executors
  {
    var Chosen(t, e) := s.main;
    var x := s.executors[e];
    if !Accepts(x, t) then s.(main := Waiting)
    else
      var s' := if x.count == 0 && t !in s.serving
                then s.(idleExecs := s.idleExecs - {e}, serving := s.serving[t := e]) else s;
      // after a stop, the one call that is left over stands for this firing too
      var absorbed := if x.count == 0 && x.timer.Some? then 1 else 0;
      s'.(executors := s.executors[e := x.(timer := Some(t), count := x.count + 1)], main := Waiting,
          counters := s.counters.(discarded := Bump(s.counters.discarded, t, absorbed)))
  }

  /** A handler call has returned. If the handler was stale, the executor takes one call off the
      count of the timer that it has been given since. */
  function CountReturn(c: Counters, x: Executor): Counters
    requires x.handling.Some?
  {
    var done := c.(completed := Bump(c.completed, x.handling.value, 1));
    if x.stale && x.timer.Some? then done.(lost := Bump(c.lost, x.timer.value, 1)) else done
  }

  /** The executor after `reduceCount`: it counts for the timer that the executor has now, whichever
      timer was handled. */
  function Reduced(x: Executor): Executor
  {
    if x.timer.Some? && x.count <= 1 then IdleExecutor
    else Executor(x.timer, if x.timer.Some? then x.count - 1 else x.count, None, false)
  }

  function ReduceCount(s: State, e: ExecId): State
    requires e in s.executors && s.executors[e].handling.Some?
  {
    var x := s.executors[e];
    var s' := s.(executors := s.executors[e := Reduced(x)], counters := CountReturn(s.counters, x));
    if x.timer.Some? && x.count <= 1
    then s'.(idleExecs := s.idleExecs + {e}, serving := s.serving - {x.timer.value}) else s'
  }

  /** One round of `waitUntilServiced` in another thread. */
  function WaitRound(s: State, t: TimerId, e: ExecId): State
    requires e in s.executors
  {
    var x := s.executors[e];
    if x.timer == Some(t) then
      s.(executors := s.executors[e := x.(count := 0)],
         counters := s.counters.(discarded := Bump(s.counters.discarded, t, Owed(x) - 1)))
    else s.(waiters := s.waiters - {(t, e)})
  }

  /** `waitUntilServiced` in the executor's own thread: the executor counts as idle at once, although
      its thread is still in the handler. */
  function FreeItself(s: State, e: ExecId): State
    requires e in s.executors && s.executors[e].handling.Some?
  {
    var x := s.executors[e];
    var t := x.handling.value;
    if x.timer != Some(t) then s.(freeing := s.freeing - {e})
    else
      s.(executors := s.executors[e := Executor(None, 0, Some(t), true)], idleExecs := s.idleExecs + {e},
         serving := s.serving - {t}, freeing := s.freeing - {e},
         counters := s.counters.(discarded := Bump(s.counters.discarded, t, if x.stale then Owed(x) else Owed(x) - 1)))
  }

  ghost function Apply(s: State, step: Step): State
    requires Enabled(s, step)
  {
    match step
    case Create(t) => s.(created := s.created + {t}, idle := s.idle + {t})
    case Start(t, target) => StartTimer(s, t, target)
    case Stop(t) => StopTimer(s, t)
    case Remove(t) => RemoveTimer(s, t)
    case Fire(now) => FireFirst(s, now)
    case Choose(e) => ChooseExecutor(s, e)
    case TryExecute => HandOver(s)
    case Enter(e) =>
      s.(executors := s.executors[e := s.executors[e].(handling := s.executors[e].timer, stale := false)])
    case Leave(e) => ReduceCount(s, e)
    case Discard(t, e) => WaitRound(s, t, e)
    case SelfStop(e) => SelfStopTimer(s, e)
    case SelfRemove(e) => SelfRemoveTimer(s, e)
    case SelfFree(e) => FreeItself(s, e)
  }

  function Ids(n: nat): set<ExecId>
  {
    if n == 0 then {} else Ids(n - 1) + {n - 1}
  }

  /** A pool with `n` executors, at least one. */
  function Init(n: nat): State
  {
    var execs := Ids(if n > 0 then n else 1);
    State({}, {}, map[], map[], map e | e in execs :: IdleExecutor, execs, map[], Waiting, {}, {},
          Counters(map[], map[], map[], map[]))
  }

  /** At the start there are `n` executors, at least one, and all are idle. */
  lemma {:induction false} StartsIdle(n: nat)
    ensures |Init(n).executors| == |Init(n).idleExecs| == if n > 0 then n else 1
    ensures forall e :: e in Init(n).executors ==> e in Init(n).idleExecs && Init(n).executors[e] == IdleExecutor
  {
    IdsCount(if n > 0 then n else 1);
    assert Init(n).executors.Keys == Init(n).idleExecs;
  }

  lemma {:induction false} IdsCount(n: nat)
    ensures |Ids(n)| == n && forall e :: e in Ids(n) ==> e < n
  {
    if n > 0 {
      IdsCount(n - 1);
    }
  }

  /** The state after a run, if every step of it was enabled. */
  ghost function Run(n: nat, steps: seq<Step>): Option<State>
  {
    if steps == [] then Some(Init(n))
    else
      var m := |steps| - 1;
      match Run(n, steps[..m])
      case None => None
      case Some(s) => if Enabled(s, steps[m]) then Some(Apply(s, steps[m])) else None
  }

  // ----- the invariant of the executors -----

  /** An executor is idle when it has no timer, even if its thread is still in a handler; such a
      handler is stale. A handler that is not stale is that of the executor's timer. */
  predicate ExecOk(s: State, e: ExecId)
    requires e in s.executors
  {
    var x := s.executors[e];
    && (e in s.idleExecs <==> x.timer == None)
    && (x.timer == None ==> x.count == 0 && (x.handling.Some? ==> x.stale))
    && (x.timer.Some? ==> x.timer.value in s.serving && s.serving[x.timer.value] == e)
    && (x.stale ==> x.handling.Some?)
    && (x.handling.Some? && !x.stale ==> x.handling == x.timer)
    && (e in s.freeing ==> x.handling.Some? && x.handling == x.timer)
  }

  predicate ServesOk(s: State, t: TimerId)
    requires t in s.serving
  {
    s.serving[t] in s.executors && s.executors[s.serving[t]].timer == Some(t)
  }

  predicate ExecutorsOk(s: State)
  {
    && s.idleExecs <= s.executors.Keys && s.freeing <= s.executors.Keys
    && (forall e :: e in s.executors ==> ExecOk(s, e))
    && (forall t :: t in s.serving ==> ServesOk(s, t))
  }

  /** The executor that was chosen is still free for the timer, and no other one serves it. */
  predicate ChoiceOk(s: State)
  {
    s.main.Chosen? ==>
      && s.main.exec in s.executors
      && Accepts(s.executors[s.main.exec], s.main.timer)
      && (s.main.timer in s.serving ==> s.serving[s.main.timer] == s.main.exec)
  }

  function Pending(s: State, t: TimerId): nat
  {
    if t in s.serving && s.serving[t] in s.executors then Owed(s.executors[s.serving[t]]) else 0
  }

  /** The threads that are in a stale call of the timer's handler. */
  function LateThreads(s: State, t: TimerId): set<ExecId>
  {
    set e | e in s.executors && s.executors[e].stale && s.executors[e].handling == Some(t)
  }

  function Held(s: State, t: TimerId): nat
  {
    if !s.main.Waiting? && s.main.timer == t then 1 else 0
  }

  /** Every firing of a timer has had its handler call, was discarded by a stop, was lost, is owed by
      an executor, is in a stale handler call, or is in the main thread's hands. */
  predicate Balanced(s: State, t: TimerId)
  {
    Count(s.counters.fired, t) ==
      Count(s.counters.completed, t) + Count(s.counters.discarded, t) + Count(s.counters.lost, t) +
      Pending(s, t) + |LateThreads(s, t)| + Held(s, t)
  }

  ghost predicate Inv(s: State)
  {
    ExecutorsOk(s) && ChoiceOk(s) && forall t :: Balanced(s, t)
  }

  lemma InitInv(n: nat)
    ensures Inv(Init(n))
  {
    forall t
      ensures Balanced(Init(n), t)
    {
      assert LateThreads(Init(n), t) == {};
    }
  }

  lemma SameLate(s: State, s': State, t: TimerId)
    requires forall e :: e in s'.executors && s'.executors[e].stale && s'.executors[e].handling == Some(t) <==>
      e in s.executors && s.executors[e].stale && s.executors[e].handling == Some(t)
    ensures |LateThreads(s', t)| == |LateThreads(s, t)|
  {
    assert LateThreads(s', t) == LateThreads(s, t);
  }

  lemma SameExecutors(s: State, s': State)
    requires Inv(s)
    requires s'.executors == s.executors && s'.serving == s.serving && s'.idleExecs == s.idleExecs
    requires s'.main == s.main && s'.counters == s.counters
    requires s'.freeing <= s.executors.Keys
    requires forall e :: e in s'.freeing ==> e in s.freeing || HandlesOwn(s, e)
    ensures Inv(s')
  {
    assert forall e :: e in s.executors ==> ExecOk(s, e);
    assert forall t :: t in s.serving ==> ServesOk(s, t) && ServesOk(s', t);
    assert forall e :: e in s.executors ==> ExecOk(s', e);
    forall t
      ensures Balanced(s', t)
    {
      assert Balanced(s, t);
      SameLate(s, s', t);
    }
  }

  predicate ByCaller(step: Step)
  {
    step.Create? || step.Start? || step.Stop? || step.Remove? || step.SelfStop? || step.SelfRemove?
  }

  predicate SameEngine(s: State, s': State)
  {
    && s'.executors == s.executors && s'.serving == s.serving && s'.idleExecs == s.idleExecs
    && s'.main == s.main && s'.counters == s.counters
  }

  lemma StartLeavesEngine(s: State, t: TimerId, target: Timespec)
    ensures SameEngine(s, StartTimer(s, t, target)) && StartTimer(s, t, target).freeing == s.freeing
  {
  }

  lemma StopLeavesEngine(s: State, t: TimerId)
    ensures SameEngine(s, StopTimer(s, t)) && StopTimer(s, t).freeing == s.freeing
  {
  }

  lemma RemoveLeavesEngine(s: State, t: TimerId)
    ensures SameEngine(s, RemoveTimer(s, t)) && RemoveTimer(s, t).freeing == s.freeing
  {
  }

  lemma SelfStopLeavesEngine(s: State, e: ExecId)
    requires HandlesOwn(s, e)
    ensures SameEngine(s, SelfStopTimer(s, e)) && SelfStopTimer(s, e).freeing <= s.freeing + {e}
  {
  }

  lemma SelfRemoveLeavesEngine(s: State, e: ExecId)
    requires HandlesOwn(s, e)
    ensures SameEngine(s, SelfRemoveTimer(s, e)) && SelfRemoveTimer(s, e).freeing <= s.freeing + {e}
  {
  }

  /** Steps of callers, handlers among them, leave executors, main thread and counters alone. */
  lemma CallerLeavesExecutors(s: State, step: Step)
    requires Enabled(s, step) && ByCaller(step) && s.freeing <= s.executors.Keys
    ensures var s' := Apply(s, step);
      && SameEngine(s, s') && s'.freeing <= s.executors.Keys
      && forall e :: e in s'.freeing ==> e in s.freeing || HandlesOwn(s, e)
  {
    hide HandOver, ReduceCount, WaitRound, FreeItself, ChooseExecutor, FireFirst, IsRunning;
    hide StartTimer, StopTimer, RemoveTimer, SelfStopTimer, SelfRemoveTimer;
    match step
    case Create(_) =>
    case Start(t, target) => StartLeavesEngine(s, t, target);
    case Stop(t) => StopLeavesEngine(s, t);
    case Remove(t) => RemoveLeavesEngine(s, t);
    case SelfStop(e) => SelfStopLeavesEngine(s, e);
    case SelfRemove(e) => SelfRemoveLeavesEngine(s, e);
  }

  lemma CallerKeeps(s: State, step: Step)
    requires Inv(s) && Enabled(s, step) && ByCaller(step)
    ensures Inv(Apply(s, step))
  {
    assert s.freeing <= s.executors.Keys;
    hide Inv, Enabled, Apply;
    CallerLeavesExecutors(s, step);
    SameExecutors(s, Apply(s, step));
  }

  lemma FireKeeps(s: State, now: Timespec)
    requires Inv(s) && Enabled(s, Fire(now))
    ensures Inv(Apply(s, Fire(now)))
  {
    var s' := Apply(s, Fire(now));
    assert forall e :: e in s.executors ==> ExecOk(s, e) ==> ExecOk(s', e);
    assert forall t :: t in s.serving ==> ServesOk(s, t) ==> ServesOk(s', t);
    forall t
      ensures Balanced(s', t)
    {
      assert Balanced(s, t);
      SameLate(s, s', t);
    }
  }

  lemma ChooseKeeps(s: State, e: ExecId)
    requires Inv(s) && Enabled(s, Choose(e))
    ensures Inv(Apply(s, Choose(e)))
  {
    var s' := ChooseExecutor(s, e);
    assert forall f :: f in s.executors ==> ExecOk(s, f);
    assert forall t :: t in s.serving ==> ServesOk(s, t);
    hide Apply, Balanced;
    assert forall t :: t in s'.serving ==> ServesOk(s', t);
    assert forall f :: f in s'.executors ==> ExecOk(s', f);
    forall t
      ensures Balanced(s', t)
    {
      ChooseKeepsBalance(s, e, t);
    }
    assert Apply(s, Choose(e)) == s' by { ChooseIs(s, e); }
  }

  lemma ChooseIs(s: State, e: ExecId)
    requires Enabled(s, Choose(e))
    ensures Apply(s, Choose(e)) == ChooseExecutor(s, e)
  {
  }

  lemma ChooseKeepsBalance(s: State, e: ExecId, t: TimerId)
    requires s.main.Picked? && Balanced(s, t) && (t in s.serving ==> ServesOk(s, t))
    ensures Balanced(ChooseExecutor(s, e), t)
  {
    SameLate(s, ChooseExecutor(s, e), t);
    hide LateThreads;
  }

  predicate InHandler(s: State, e: ExecId)
  {
    e in s.executors && s.executors[e].handling.Some?
  }

  /** The return of a handler counts for the timer handled, and a stale one is a loss for the timer
      that the executor has been given. */
  lemma ReturnCounts(c: Counters, x: Executor, t: TimerId)
    requires x.handling.Some?
    ensures var c' := CountReturn(c, x);
      && Count(c'.completed, t) == Count(c.completed, t) + (if x.handling == Some(t) then 1 else 0)
      && Count(c'.lost, t) == Count(c.lost, t) + (if x.stale && x.timer == Some(t) then 1 else 0)
      && c'.fired == c.fired && c'.discarded == c.discarded
  {
  }

  lemma HandOverKeepsExecutors(s: State)
    requires ExecutorsOk(s) && ChoiceOk(s) && s.main.Chosen? && s.main.exec in s.executors
    ensures ExecutorsOk(HandOver(s))
  {
    var s' := HandOver(s);
    assert forall f :: f in s.executors ==> ExecOk(s, f);
    assert forall t :: t in s.serving ==> ServesOk(s, t);
    assert forall t :: t in s'.serving ==> ServesOk(s', t);
    assert forall f :: f in s'.executors ==> ExecOk(s', f);
  }

  lemma HandOverKeepsBalance(s: State, t: TimerId)
    requires s.main.Chosen? && s.main.exec in s.executors && ChoiceOk(s) && ExecOk(s, s.main.exec) && (t in s.serving ==> ServesOk(s, t))
    requires Balanced(s, t)
    ensures Balanced(HandOver(s), t)
  {
    SameLate(s, HandOver(s), t);
  }

  lemma HandOverKeeps(s: State)
    requires Inv(s) && s.main.Chosen? && s.main.exec in s.executors
    ensures Inv(HandOver(s))
  {
    HandOverKeepsExecutors(s);
    assert ExecOk(s, s.main.exec) && forall t :: t in s.serving ==> ServesOk(s, t);
    hide ExecutorsOk, Balanced, ExecOk, ServesOk;
    forall t
      ensures Balanced(HandOver(s), t)
    {
      HandOverKeepsBalance(s, t);
    }
  }

  lemma EnterKeeps(s: State, e: ExecId)
    requires Inv(s) && Enabled(s, Enter(e))
    ensures Inv(Apply(s, Enter(e)))
  {
    var s' := Apply(s, Enter(e));
    assert forall f :: f in s.executors ==> ExecOk(s, f) && ExecOk(s', f);
    assert forall t :: t in s.serving ==> ServesOk(s, t) && ServesOk(s', t);
    forall t
      ensures Balanced(s', t)
    {
      assert Balanced(s, t);
      SameLate(s, s', t);
    }
  }

  lemma LeaveKeepsExecutors(s: State, e: ExecId)
    requires ExecutorsOk(s) && InHandler(s, e) && e !in s.freeing
    ensures ExecutorsOk(ReduceCount(s, e))
  {
    var s' := ReduceCount(s, e);
    assert forall f :: f in s.executors ==> ExecOk(s, f);
    assert forall t :: t in s.serving ==> ServesOk(s, t);
    assert forall t :: t in s'.serving ==> ServesOk(s', t);
    assert forall f :: f in s'.executors ==> ExecOk(s', f);
  }

  lemma OnlyOneChanged(s: State, s': State, e: ExecId, t: TimerId)
    requires e in s.executors && e in s'.executors && s'.executors == s.executors[e := s'.executors[e]]
    requires !s'.executors[e].stale
    ensures |LateThreads(s, t)| == |LateThreads(s', t)| +
      if s.executors[e].stale && s.executors[e].handling == Some(t) then 1 else 0
  {
    var late, late' := LateThreads(s, t), LateThreads(s', t);
    assert e !in late' && forall f :: f != e ==> (f in late <==> f in late');
    if e in late {
      assert late == late' + {e};
    } else {
      assert late == late';
    }
  }

  /** A handler call that returns is one late thread less, if it was stale. */
  lemma LeaveLate(s: State, e: ExecId, t: TimerId)
    requires InHandler(s, e)
    ensures |LateThreads(s, t)| == |LateThreads(ReduceCount(s, e), t)| +
      if s.executors[e].stale && s.executors[e].handling == Some(t) then 1 else 0
  {
    OnlyOneChanged(s, ReduceCount(s, e), e, t);
  }

  lemma LeaveKeepsBalance(s: State, e: ExecId, t: TimerId)
    requires InHandler(s, e) && ExecOk(s, e) && (t in s.serving ==> ServesOk(s, t)) && Balanced(s, t)
    ensures Balanced(ReduceCount(s, e), t)
  {
    hide LateThreads, Pending, CountReturn, Reduced, ExecOk, ServesOk, Count;
    LeaveLate(s, e, t);
    LeavePending(s, e, t);
    ReturnCounts(s.counters, s.executors[e], t);
    if !s.executors[e].stale {
      StaleHasHandler(s, e);
    }
  }

  lemma StaleHasHandler(s: State, e: ExecId)
    requires e in s.executors && ExecOk(s, e) && s.executors[e].handling.Some? && !s.executors[e].stale
    ensures s.executors[e].timer == s.executors[e].handling
  {
  }

  lemma LeavePending(s: State, e: ExecId, t: TimerId)
    requires InHandler(s, e) && ExecOk(s, e) && (t in s.serving ==> ServesOk(s, t))
    ensures Pending(s, t) == Pending(ReduceCount(s, e), t) + if s.executors[e].timer == Some(t) then 1 else 0
  {
  }

  lemma LeaveKeeps(s: State, e: ExecId)
    requires Inv(s) && InHandler(s, e) && e !in s.freeing
    ensures Inv(ReduceCount(s, e))
  {
    LeaveKeepsExecutors(s, e);
    assert ExecOk(s, e) && forall t :: t in s.serving ==> ServesOk(s, t);
    hide ExecutorsOk, Balanced;
    forall t
      ensures Balanced(ReduceCount(s, e), t)
    {
      LeaveKeepsBalance(s, e, t);
    }
    assert ChoiceOk(ReduceCount(s, e)) by {
      LeaveKeepsChoice(s, e);
    }
  }

  lemma LeaveKeepsChoice(s: State, e: ExecId)
    requires ExecutorsOk(s) && ChoiceOk(s) && InHandler(s, e)
    ensures ChoiceOk(ReduceCount(s, e))
  {
    assert ExecOk(s, e);
  }

  lemma DiscardKeepsBalance(s: State, t: TimerId, e: ExecId, u: TimerId)
    requires e in s.executors && ExecOk(s, e) && (u in s.serving ==> ServesOk(s, u)) && Balanced(s, u)
    ensures Balanced(WaitRound(s, t, e), u)
  {
    SameLate(s, WaitRound(s, t, e), u);
    hide LateThreads;
  }

  lemma DiscardKeeps(s: State, t: TimerId, e: ExecId)
    requires Inv(s) && e in s.executors
    ensures Inv(WaitRound(s, t, e))
  {
    var s' := WaitRound(s, t, e);
    assert forall f :: f in s.executors ==> ExecOk(s, f) && ExecOk(s', f);
    assert forall u :: u in s.serving ==> ServesOk(s, u) && ServesOk(s', u);
    hide Balanced;
    forall u
      ensures Balanced(s', u)
    {
      DiscardKeepsBalance(s, t, e, u);
    }
  }

  lemma SelfFreeKeepsExecutors(s: State, e: ExecId)
    requires ExecutorsOk(s) && InHandler(s, e) && e in s.freeing
    ensures ExecutorsOk(FreeItself(s, e))
  {
    var s' := FreeItself(s, e);
    assert forall f :: f in s.executors ==> ExecOk(s, f);
    assert forall t :: t in s.serving ==> ServesOk(s, t);
    assert forall t :: t in s'.serving ==> ServesOk(s', t);
    assert forall f :: f in s'.executors ==> ExecOk(s', f);
  }

  lemma SelfFreeLate(s: State, e: ExecId, t: TimerId)
    requires InHandler(s, e) && s.executors[e].timer == s.executors[e].handling
    ensures |LateThreads(FreeItself(s, e), t)| == |LateThreads(s, t)| +
      if !s.executors[e].stale && s.executors[e].handling == Some(t) then 1 else 0
  {
    var s' := FreeItself(s, e);
    if !s.executors[e].stale && s.executors[e].handling == Some(t) {
      assert LateThreads(s', t) == LateThreads(s, t) + {e};
    } else {
      assert LateThreads(s', t) == LateThreads(s, t);
    }
  }

  lemma SelfFreeKeepsBalance(s: State, e: ExecId, t: TimerId)
    requires InHandler(s, e) && ExecOk(s, e) && (t in s.serving ==> ServesOk(s, t)) && Balanced(s, t) && e in s.freeing
    ensures Balanced(FreeItself(s, e), t)
  {
    SelfFreeLate(s, e, t);
    hide LateThreads;
  }

  lemma SelfFreeKeeps(s: State, e: ExecId)
    requires Inv(s) && InHandler(s, e) && e in s.freeing
    ensures Inv(FreeItself(s, e))
  {
    SelfFreeKeepsExecutors(s, e);
    assert ExecOk(s, e) && forall t :: t in s.serving ==> ServesOk(s, t);
    hide ExecutorsOk, Balanced;
    forall t
      ensures Balanced(FreeItself(s, e), t)
    {
      SelfFreeKeepsBalance(s, e, t);
    }
  }

  /** The invariant holds after every run. */
  lemma {:induction false} RunKeepsInv(n: nat, steps: seq<Step>)
    requires Run(n, steps).Some?
    ensures Inv(Run(n, steps).value)
  {
    hide Inv, Enabled, Apply;
    if steps == [] {
      InitInv(n);
    } else {
      var m := |steps| - 1;
      RunKeepsInv(n, steps[..m]);
      StepKeepsInv(Run(n, steps[..m]).value, steps[m]);
    }
  }

  lemma StepKeepsInv(s: State, step: Step)
    requires Inv(s) && Enabled(s, step)
    ensures Inv(Apply(s, step))
  {
    hide Inv, HandOver, ReduceCount, WaitRound, FreeItself, ChooseExecutor, FireFirst, IsRunning;
    match step
    case Fire(now) => FireKeeps(s, now);
    case Choose(e) => ChooseKeeps(s, e);
    case TryExecute => HandOverKeeps(s);
    case Enter(e) => EnterKeeps(s, e);
    case Leave(e) => LeaveKeeps(s, e);
    case Discard(t, e) => DiscardKeeps(s, t, e);
    case SelfFree(e) => SelfFreeKeeps(s, e);
    case _ => CallerKeeps(s, step);
  }

  // ----- what every run keeps -----

  /** In every interleaving: when the main thread hands a timer over, the executor accepts it;
      afterwards it serves that timer with one more pending call. */
  lemma HandOverSucceeds(n: nat, steps: seq<Step>)
    requires Run(n, steps).Some? && Run(n, steps).value.main.Chosen?
    ensures var s := Run(n, steps).value;
      var Chosen(t, e) := s.main;
      && e in s.executors && Accepts(s.executors[e], t)
      && HandOver(s).executors[e] == s.executors[e].(timer := Some(t), count := s.executors[e].count + 1)
      && t in HandOver(s).serving && HandOver(s).serving[t] == e
  {
    RunKeepsInv(n, steps);
    hide Run;
    var s := Run(n, steps).value;
    assert ExecOk(s, s.main.exec);
  }

  /** The main thread gives a timer to the executor that serves it. Otherwise it takes an idle one, and a
      new one is made if and only if none is idle. */
  lemma ChoosesServingThenIdle(n: nat, steps: seq<Step>, e: ExecId)
    requires Run(n, steps).Some? && Enabled(Run(n, steps).value, Choose(e))
    ensures var s := Run(n, steps).value;
      && (e !in s.executors <==> s.main.timer !in s.serving && s.idleExecs == {})
      && (s.main.timer in s.serving ==> s.executors[e].timer == Some(s.main.timer))
      && (s.main.timer !in s.serving && e in s.executors ==> s.executors[e].timer == None)
      && Apply(s, Choose(e)).executors.Keys == s.executors.Keys + {e}
  {
    RunKeepsInv(n, steps);
    hide Run;
    var s := Run(n, steps).value;
    assert s.main.timer in s.serving ==> ServesOk(s, s.main.timer);
    assert e in s.executors ==> ExecOk(s, e);
  }

  /** In every interleaving a timer is served by at most one executor, and two threads are in its
      handler at once only if one of these calls is stale. */
  lemma ServedByOne(n: nat, steps: seq<Step>, t: TimerId, e: ExecId, f: ExecId)
    requires Run(n, steps).Some?
    requires var s := Run(n, steps).value;
      && e in s.executors && f in s.executors
      && (s.executors[e].timer == Some(t) || (s.executors[e].handling == Some(t) && !s.executors[e].stale))
      && (s.executors[f].timer == Some(t) || (s.executors[f].handling == Some(t) && !s.executors[f].stale))
    ensures e == f
  {
    RunKeepsInv(n, steps);
    hide Run;
    var s := Run(n, steps).value;
    assert ExecOk(s, e) && ExecOk(s, f);
  }

  // ----- firings, handler calls and what is lost -----

  /** How often the handler of `t` has returned in the run. */
  ghost function Returns(n: nat, steps: seq<Step>, t: TimerId): nat
  {
    if steps == [] then 0
    else
      var m := |steps| - 1;
      Returns(n, steps[..m], t) + if ReturnsAt(n, steps, m, t) then 1 else 0
  }

  /** Step `m` of the run is the return of a handler of `t`. */
  ghost predicate ReturnsAt(n: nat, steps: seq<Step>, m: nat, t: TimerId)
    requires m < |steps|
  {
    && steps[m].Leave? && Run(n, steps[..m]).Some?
    && var s := Run(n, steps[..m]).value;
    && steps[m].e in s.executors && s.executors[steps[m].e].handling == Some(t)
  }

  /** How often the timer has fired in the run. */
  ghost function Firings(n: nat, steps: seq<Step>, t: TimerId): nat
  {
    if steps == [] then 0
    else
      var m, run := |steps| - 1, Run(n, steps);
      Firings(n, steps[..m], t) + if steps[m].Fire? && run.Some? && run.value.main == Picked(t) then 1 else 0
  }

  /** The handler calls of `t` that a step takes away. A stop by another thread leaves one call. A
      firing that goes to an executor with such a call adds none. A handler that stops its own timer
      leaves no call but its own. */
  function TakenBy(s: State, step: Step, t: TimerId): nat
  {
    match step
    case Discard(u, e) =>
      if u == t && e in s.executors && s.executors[e].timer == Some(t) then Owed(s.executors[e]) - 1 else 0
    case TryExecute =>
      if s.main.Chosen? && s.main.timer == t && s.main.exec in s.executors && s.executors[s.main.exec].timer == Some(t)
        && s.executors[s.main.exec].count == 0 then 1 else 0
    case SelfFree(e) =>
      if e in s.executors && s.executors[e].timer == Some(t) && s.executors[e].handling == Some(t)
      then Owed(s.executors[e]) - (if s.executors[e].stale then 0 else 1) else 0
    case _ => 0
  }

  /** How many handler calls of `t` were taken away in the run. */
  ghost function Discards(n: nat, steps: seq<Step>, t: TimerId): nat
  {
    if steps == [] then 0
    else
      var m := |steps| - 1;
      var run := Run(n, steps[..m]);
      Discards(n, steps[..m], t) + if run.Some? then TakenBy(run.value, steps[m], t) else 0
  }

  /** An executor since its thread last came back from a handler: it works as it should, or it has
      made itself free, or it has been given another timer after that. */
  datatype Mode = Normal | Freed | Handed(timer: TimerId)

  ghost function ModeOf(n: nat, steps: seq<Step>, e: ExecId): Mode
  {
    if steps == [] then Normal
    else
      var m := |steps| - 1;
      var before := ModeOf(n, steps[..m], e);
      match steps[m]
      case SelfFree(f) => if f == e then Freed else before
      case Leave(f) => if f == e then Normal else before
      case TryExecute =>
        var run := Run(n, steps[..m]);
        if before == Freed && run.Some? && run.value.main.Chosen? && run.value.main.exec == e
        then Handed(run.value.main.timer) else before
      case _ => before
  }

  /** How often, in the run, a handler returned to an executor that had been given `t` after making
      itself free. */
  ghost function Losses(n: nat, steps: seq<Step>, t: TimerId): nat
  {
    if steps == [] then 0
    else
      var m := |steps| - 1;
      Losses(n, steps[..m], t) +
      if steps[m].Leave? && ModeOf(n, steps[..m], steps[m].e) == Handed(t) then 1 else 0
  }

  predicate ModeShows(s: State, e: ExecId, mode: Mode)
  {
    if e !in s.executors then mode == Normal
    else
      var x := s.executors[e];
      match mode
      case Normal => !x.stale
      case Freed => x.stale && x.timer == None
      case Handed(t) => x.stale && x.timer == Some(t)
  }

  lemma {:induction false} ModeIsState(n: nat, steps: seq<Step>, e: ExecId)
    requires Run(n, steps).Some?
    ensures ModeShows(Run(n, steps).value, e, ModeOf(n, steps, e))
  {
    if steps != [] {
      hide Inv;
      var m := |steps| - 1;
      ModeIsState(n, steps[..m], e);
      RunKeepsInv(n, steps[..m]);
      var s := Run(n, steps[..m]).value;
      ModeStep(s, steps[m], e, ModeOf(n, steps[..m], e));
    }
  }

  /** How a step changes the mode, from the state it is taken in. */
  function NextMode(s: State, step: Step, e: ExecId, mode: Mode): Mode
  {
    match step
    case SelfFree(f) => if f == e then Freed else mode
    case Leave(f) => if f == e then Normal else mode
    case TryExecute => if mode == Freed && s.main.Chosen? && s.main.exec == e then Handed(s.main.timer) else mode
    case _ => mode
  }

  lemma ModeStep(s: State, step: Step, e: ExecId, mode: Mode)
    requires Inv(s) && Enabled(s, step) && ModeShows(s, e, mode)
    ensures ModeShows(Apply(s, step), e, NextMode(s, step, e, mode))
  {
    assert s.freeing <= s.executors.Keys && forall f :: f in s.executors ==> ExecOk(s, f);
    assert ChoiceOk(s);
    hide Inv, HandOver, ReduceCount, FreeItself, IsRunning, ModeShows, ExecOk;
    match step
    case TryExecute => ModeHandOver(s, e, mode);
    case Leave(f) => ModeLeave(s, f, e, mode);
    case SelfFree(f) => ModeFree(s, f, e, mode);
    case Choose(f) => ModeSame(s, step, e, mode);
    case Enter(f) => ModeSame(s, step, e, mode);
    case Discard(_, _) => ModeSame(s, step, e, mode);
    case Fire(_) => ModeSame(s, step, e, mode);
    case _ =>
      CallerLeavesExecutors(s, step);
      ModeSameExecutors(s, Apply(s, step), e, mode);
  }

  lemma ModeSameExecutors(s: State, s': State, e: ExecId, mode: Mode)
    requires ModeShows(s, e, mode) && s'.executors == s.executors
    ensures ModeShows(s', e, mode)
  {
  }

  lemma ModeSame(s: State, step: Step, e: ExecId, mode: Mode)
    requires Enabled(s, step) && (step.Choose? || step.Enter? || step.Discard? || step.Fire?)
    requires ModeShows(s, e, mode) && (e in s.executors ==> ExecOk(s, e))
    ensures ModeShows(Apply(s, step), e, mode)
  {
    match step
    case Choose(_) =>
    case Enter(_) =>
    case Discard(_, _) =>
    case Fire(_) =>
  }

  lemma ModeHandOver(s: State, e: ExecId, mode: Mode)
    requires s.main.Chosen? && s.main.exec in s.executors && ChoiceOk(s) && ModeShows(s, e, mode)
    ensures ModeShows(HandOver(s), e, NextMode(s, TryExecute, e, mode))
  {
  }

  lemma ModeLeave(s: State, f: ExecId, e: ExecId, mode: Mode)
    requires InHandler(s, f) && ModeShows(s, e, mode)
    ensures ModeShows(ReduceCount(s, f), e, NextMode(s, Leave(f), e, mode))
  {
    hide CountReturn;
  }

  lemma ModeFree(s: State, f: ExecId, e: ExecId, mode: Mode)
    requires InHandler(s, f) && f in s.freeing && ExecOk(s, f) && ModeShows(s, e, mode)
    ensures ModeShows(FreeItself(s, f), e, NextMode(s, SelfFree(f), e, mode))
  {
  }

  /** In every interleaving the firings of a timer are accounted for, by what the run shows: each has
      led to a return of its handler, was discarded by a stop, was lost, or is still on its way. A
      firing is lost if and only if its timer was given to an executor between the moment when a
      handler made that executor free and the return of this handler. */
  lemma FiringsAccounted(n: nat, steps: seq<Step>, t: TimerId)
    requires Run(n, steps).Some?
    ensures var s := Run(n, steps).value;
      Firings(n, steps, t) == Returns(n, steps, t) + Discards(n, steps, t) + Losses(n, steps, t) +
        Pending(s, t) + |LateThreads(s, t)| + Held(s, t)
  {
    RunKeepsInv(n, steps);
    CountersShow(n, steps, t);
    hide Run, Firings, Returns, Discards, Losses, LateThreads;
    assert Balanced(Run(n, steps).value, t);
  }

  lemma {:induction false} CountersShow(n: nat, steps: seq<Step>, t: TimerId)
    requires Run(n, steps).Some?
    ensures var c := Run(n, steps).value.counters;
      && Count(c.fired, t) == Firings(n, steps, t) && Count(c.completed, t) == Returns(n, steps, t)
      && Count(c.discarded, t) == Discards(n, steps, t) && Count(c.lost, t) == Losses(n, steps, t)
  {
    if steps != [] {
      var m := |steps| - 1;
      CountersShow(n, steps[..m], t);
      var s := Run(n, steps[..m]).value;
      if steps[m].Leave? {
        ModeIsState(n, steps[..m], steps[m].e);
      }
      RunKeepsInv(n, steps[..m]);
      hide ModeOf, Inv, Enabled, TakenBy;
      CountersStep(s, steps[m], t);
    }
  }

  lemma CountersStep(s: State, step: Step, t: TimerId)
    requires Enabled(s, step) && Inv(s)
    ensures var s' := Apply(s, step);
      && Count(s'.counters.fired, t) == Count(s.counters.fired, t) +
        (if step.Fire? && s'.main == Picked(t) then 1 else 0)
      && Count(s'.counters.completed, t) == Count(s.counters.completed, t) +
        (if step.Leave? && s.executors[step.e].handling == Some(t) then 1 else 0)
      && Count(s'.counters.discarded, t) == Count(s.counters.discarded, t) + TakenBy(s, step, t)
      && Count(s'.counters.lost, t) == Count(s.counters.lost, t) +
        (if step.Leave? && s.executors[step.e].stale && s.executors[step.e].timer == Some(t) then 1 else 0)
  {
    hide CountReturn, IsRunning, Balanced;
    match step
    case Leave(e) => ReturnCounts(s.counters, s.executors[e], t);
    case TryExecute =>
    case Discard(_, _) =>
    case SelfFree(_) =>
    case Fire(_) =>
    case _ => CallersCountNothing(s, step);
  }

  lemma CallersCountNothing(s: State, step: Step)
    requires Enabled(s, step)
    requires !step.Leave? && !step.TryExecute? && !step.Discard? && !step.SelfFree? && !step.Fire?
    ensures Apply(s, step).counters == s.counters
  {
  }

  /** The run neither stops nor removes the timer while it is served, and no handler at all makes its
      executor free. */
  ghost predicate Undisturbed(steps: seq<Step>, t: TimerId)
  {
    forall i :: 0 <= i < |steps| ==> !steps[i].SelfFree? && !(steps[i].Discard? && steps[i].t == t)
  }

  /** In every such run nothing is discarded or lost: the firings are the returned handler calls, the
      pending count, and the one in the main thread's hands. */
  lemma UndisturbedFirings(n: nat, steps: seq<Step>, t: TimerId)
    requires Run(n, steps).Some? && Undisturbed(steps, t)
    ensures var s := Run(n, steps).value;
      && (t in s.serving ==> s.serving[t] in s.executors)
      && Firings(n, steps, t) ==
        Returns(n, steps, t) + (if t in s.serving then s.executors[s.serving[t]].count else 0) + Held(s, t)
  {
    FiringsAccounted(n, steps, t);
    CountersShow(n, steps, t);
    QuietRun(n, steps, t);
    RunKeepsInv(n, steps);
    hide Run, Firings, Returns, Discards, Losses;
    var s := Run(n, steps).value;
    assert t in s.serving ==> ServesOk(s, t);
    assert LateThreads(s, t) == {};
  }

  /** Nothing of the timer has been discarded, and its executor owes what it counts. */
  predicate Quiet(s: State, t: TimerId)
  {
    && Count(s.counters.discarded, t) == 0
    && (forall e :: e in s.executors ==> !s.executors[e].stale && (s.executors[e].timer == Some(t) ==> s.executors[e].count > 0))
  }

  lemma {:induction false} QuietRun(n: nat, steps: seq<Step>, t: TimerId)
    requires Run(n, steps).Some? && Undisturbed(steps, t)
    ensures Quiet(Run(n, steps).value, t) && Losses(n, steps, t) == 0
  {
    if steps != [] {
      hide Inv;
      var m := |steps| - 1;
      assert Undisturbed(steps[..m], t);
      QuietRun(n, steps[..m], t);
      RunKeepsInv(n, steps[..m]);
      if steps[m].Leave? {
        ModeIsState(n, steps[..m], steps[m].e);
      }
      hide ModeOf;
      QuietStep(Run(n, steps[..m]).value, steps[m], t);
    }
  }

  lemma QuietStep(s: State, step: Step, t: TimerId)
    requires Inv(s) && Enabled(s, step) && Quiet(s, t) && !step.SelfFree? && !(step.Discard? && step.t == t)
    ensures Quiet(Apply(s, step), t)
  {
    match step {
      case TryExecute =>
        assert ExecOk(s, s.main.exec);
        QuietHandOver(s, t);
      case Leave(e) =>
        QuietLeave(s, e, t);
      case Discard(u, e) =>
        hide Inv;
        assert forall f :: f in s.executors && f != e ==> WaitRound(s, u, e).executors[f] == s.executors[f];
      case Choose(e) =>
        hide Inv;
      case Enter(e) =>
        hide Inv;
      case Fire(_) =>
        hide Inv;
      case SelfFree(_) =>
      case _ =>
        hide Enabled, Apply;
        CallerLeavesExecutors(s, step);
    }
  }

  lemma QuietHandOver(s: State, t: TimerId)
    requires s.main.Chosen? && s.main.exec in s.executors && ExecOk(s, s.main.exec) && Quiet(s, t)
    requires Accepts(s.executors[s.main.exec], s.main.timer)
    ensures Quiet(HandOver(s), t)
  {
    var s' := HandOver(s);
    assert forall f :: f in s.executors && f != s.main.exec ==> s'.executors[f] == s.executors[f];
  }

  lemma QuietLeave(s: State, e: ExecId, t: TimerId)
    requires InHandler(s, e) && Quiet(s, t)
    ensures Quiet(ReduceCount(s, e), t)
  {
    var s' := ReduceCount(s, e);
    assert forall f :: f in s.executors && f != e ==> s'.executors[f] == s.executors[f];
  }

  // ----- idle and running timers -----

  /** Each timer is idle or running, not both, and a running one is under the key of its last
      start, hence under one key. */
  predicate Partition(s: State)
  {
    && s.idle <= s.created
    && (forall k :: k in s.running ==> Scheduled(s, k))
    && (forall t :: t in s.created && t !in s.idle ==> IsRunning(s, t))
  }

  predicate Scheduled(s: State, k: Timespec)
    requires k in s.running
  {
    var t := s.running[k];
    t in s.created && t !in s.idle && t in s.targets && s.targets[t] == k
  }

  /** The new target is not the key of another timer. */
  predicate FreshTarget(s: State, step: Step)
  {
    step.Start? ==> step.target !in s.running || s.running[step.target] == step.t
  }

  lemma StartedIsRunning(s: State, t: TimerId, target: Timespec)
    requires Partition(s) && t in s.created && FreshTarget(s, Start(t, target))
    ensures var s' := StartTimer(s, t, target); target in s'.running && s'.running[target] == t
  {
    if IsRunning(s, t) {
      assert Scheduled(s, KeyOf(s, t));
    }
  }

  lemma OthersStayRunning(s: State, s': State, t: TimerId, u: TimerId)
    requires u != t && IsRunning(s, u)
    requires forall k :: k in s.running && s.running[k] != t ==> k in s'.running && s'.running[k] == s.running[k]
    ensures IsRunning(s', u)
  {
    var k :| k in s.running && s.running[k] == u;
    assert k in s'.running && s'.running[k] == u;
  }

  lemma StartKeepsPartition(s: State, t: TimerId, target: Timespec)
    requires Partition(s) && t in s.created && FreshTarget(s, Start(t, target))
    ensures Partition(StartTimer(s, t, target))
  {
    var s' := StartTimer(s, t, target);
    assert forall k :: k in s.running ==> Scheduled(s, k);
    StartedIsRunning(s, t, target);
    assert forall k :: k in s'.running ==> Scheduled(s', k);
    forall u | u in s'.created && u !in s'.idle
      ensures IsRunning(s', u)
    {
      if u != t {
        OthersStayRunning(s, s', t, u);
      }
    }
  }

  /** The condition is exact: started on the key of another timer, the timer is lost. */
  lemma StartKeepsPartitionIff(s: State, t: TimerId, target: Timespec)
    requires Partition(s) && t in s.created
    ensures Partition(StartTimer(s, t, target)) <==> FreshTarget(s, Start(t, target))
  {
    if FreshTarget(s, Start(t, target)) {
      StartKeepsPartition(s, t, target);
    } else {
      var s' := StartTimer(s, t, target);
      assert forall k :: k in s.running ==> Scheduled(s, k);
      assert t !in s'.idle && !IsRunning(s', t);
    }
  }

  lemma EraseKeepsPartition(s: State, k: Timespec, s': State)
    requires Partition(s) && k in s.running
    requires s'.running == s.running - {k} && s'.targets == s.targets
    requires
      || (s'.idle == s.idle + {s.running[k]} && s'.created == s.created)
      || (s'.idle == s.idle && s'.created == s.created - {s.running[k]})
    ensures Partition(s')
  {
    var t := s.running[k];
    assert forall j :: j in s.running ==> Scheduled(s, j);
    assert forall j :: j in s'.running ==> Scheduled(s', j);
    forall u | u in s'.created && u !in s'.idle
      ensures IsRunning(s', u)
    {
      OthersStayRunning(s, s', t, u);
    }
  }

  lemma ForgetKeepsPartition(s: State, t: TimerId, s': State)
    requires Partition(s)
    requires s'.running == Forget(s, t).running && s'.targets == s.targets
    requires s'.idle == Forget(s, t).idle && s'.created == Forget(s, t).created
    ensures Partition(s')
  {
    if IsRunning(s, t) {
      EraseKeepsPartition(s, KeyOf(s, t), s');
    } else {
      SameTimers(s, s');
    }
  }

  predicate InExecutor(step: Step)
  {
    step.Choose? || step.TryExecute? || step.Enter? || step.Leave? || step.Discard? || step.SelfFree?
  }

  lemma ExecutorStepsLeaveTimers(s: State, step: Step)
    requires Enabled(s, step) && InExecutor(step)
    ensures var s' := Apply(s, step);
      s'.running == s.running && s'.targets == s.targets && s'.idle == s.idle && s'.created == s.created
  {
  }

  lemma StepKeepsPartition(s: State, step: Step)
    requires Partition(s) && Enabled(s, step) && FreshTarget(s, step)
    ensures Partition(Apply(s, step))
  {
    if InExecutor(step) {
      ExecutorStepsLeaveTimers(s, step);
      hide Enabled, Apply, Partition;
      SameTimers(s, Apply(s, step));
    } else {
      CallerKeepsPartition(s, step);
    }
  }

  lemma CallerKeepsPartition(s: State, step: Step)
    requires Partition(s) && Enabled(s, step) && FreshTarget(s, step) && !InExecutor(step)
    ensures Partition(Apply(s, step))
  {
    hide Partition, HandOver, ReduceCount, WaitRound, FreeItself, ChooseExecutor;
    var s' := Apply(s, step);
    match step {
      case Start(t, target) =>
        StartKeepsPartition(s, t, target);
      case Stop(t) =>
        if IsRunning(s, t) {
          EraseKeepsPartition(s, KeyOf(s, t), s');
        }
      case SelfStop(e) =>
        var t := s.executors[e].handling.value;
        if IsRunning(s, t) {
          EraseKeepsPartition(s, KeyOf(s, t), s');
        }
      case Remove(t) =>
        ForgetKeepsPartition(s, t, s');
      case SelfRemove(e) =>
        ForgetKeepsPartition(s, s.executors[e].handling.value, s');
      case Fire(now) =>
        var k :| First(s.running, k) && Before(k, now);
        FirstIsUnique(s.running, now);
        EraseKeepsPartition(s, k, s');
      case Create(t) =>
        SameTimers(s, s');
    }
  }

  lemma FirstIsUnique(running: map<Timespec, TimerId>, now: Timespec)
    ensures forall k, j :: First(running, k) && First(running, j) ==> k == j
  {
  }

  /** A timer that is not running is created or removed, or nothing changes. */
  lemma SameTimers(s: State, s': State)
    requires Partition(s) && s'.running == s.running && s'.targets == s.targets
    requires
      || (s'.idle == s.idle && s'.created == s.created)
      || (exists t :: t !in s.created && s'.idle == s.idle + {t} && s'.created == s.created + {t})
      || (exists t :: !IsRunning(s, t) && s'.idle == s.idle - {t} && s'.created == s.created - {t})
    ensures Partition(s')
  {
    forall k | k in s'.running
      ensures Scheduled(s', k)
    {
      assert Scheduled(s, k);
    }
    forall u | u in s'.created && u !in s'.idle
      ensures IsRunning(s', u)
    {
      assert IsRunning(s, u);
      var k :| k in s.running && s.running[k] == u;
      assert k in s'.running && s'.running[k] == u;
    }
  }

  /** Every start of the run had a target that was not the key of another timer. */
  ghost predicate FreshRun(n: nat, steps: seq<Step>)
  {
    steps != [] ==>
      var m := |steps| - 1;
      FreshRun(n, steps[..m]) && Run(n, steps[..m]).Some? && FreshTarget(Run(n, steps[..m]).value, steps[m])
  }

  /** In every such run each timer is in exactly one of idle and running, under one key. */
  lemma {:induction false} RunKeepsPartition(n: nat, steps: seq<Step>)
    requires Run(n, steps).Some? && FreshRun(n, steps)
    ensures Partition(Run(n, steps).value)
  {
    if steps != [] {
      hide Enabled, Apply, Partition;
      var m := |steps| - 1;
      RunKeepsPartition(n, steps[..m]);
      StepKeepsPartition(Run(n, steps[..m]).value, steps[m]);
    }
  }

  /** A firing in such a run: the timer picked had the earliest target of all running timers,
      and the target of its last start lies strictly before the current time. */
  lemma FiresEarliestAndNotBeforeTarget(n: nat, steps: seq<Step>, now: Timespec, u: TimerId)
    requires Run(n, steps).Some? && FreshRun(n, steps)
    requires Enabled(Run(n, steps).value, Fire(now))
    ensures var s := Run(n, steps).value;
      var t := Apply(s, Fire(now)).main.timer;
      && t in s.targets && Before(s.targets[t], now)
      && (IsRunning(s, u) && u != t ==> u in s.targets && Before(s.targets[t], s.targets[u]))
  {
    RunKeepsPartition(n, steps);
    hide Run, FreshRun;
    var s := Run(n, steps).value;
    var k :| First(s.running, k) && Before(k, now);
    FirstIsUnique(s.running, now);
    assert Scheduled(s, k);
    if IsRunning(s, u) {
      assert Scheduled(s, KeyOf(s, u));
    }
  }

  // ----- a handler that stops or removes its own timer -----

  lemma RunStep(n: nat, steps: seq<Step>, s: State, step: Step)
    requires Run(n, steps) == Some(s) && Enabled(s, step)
    ensures Run(n, steps + [step]) == Some(Apply(s, step))
  {
    assert (steps + [step])[..|steps|] == steps;
  }

  lemma FireIs(s: State, now: Timespec, k: Timespec)
    requires s.main == Waiting && First(s.running, k) && Before(k, now)
    ensures Enabled(s, Fire(now))
    ensures var t := s.running[k];
      Apply(s, Fire(now)) == s.(running := s.running - {k}, idle := s.idle + {t}, main := Picked(t),
                                counters := s.counters.(fired := Bump(s.counters.fired, t, 1)))
  {
    FirstIsUnique(s.running, now);
  }

  /** The first timer has fired and was given to the idle executor `e`. */
  ghost function Given(s: State, k: Timespec, e: ExecId): State
    requires k in s.running && e in s.executors
  {
    var t, x := s.running[k], s.executors[e];
    s.(running := s.running - {k}, idle := s.idle + {t}, idleExecs := s.idleExecs - {e}, serving := s.serving[t := e],
       executors := s.executors[e := Executor(Some(t), 1, x.handling, x.stale)],
       counters := s.counters.(fired := Bump(s.counters.fired, t, 1), discarded := Bump(s.counters.discarded, t, 0)))
  }

  lemma Give(n: nat, steps: seq<Step>, s: State, now: Timespec, k: Timespec, e: ExecId)
    requires Run(n, steps) == Some(s) && s.main == Waiting && First(s.running, k) && Before(k, now)
    requires e in s.executors && e in s.idleExecs && s.running[k] !in s.serving
    requires s.executors[e].timer == None && s.executors[e].count == 0
    ensures Run(n, steps + [Fire(now)] + [Choose(e)] + [TryExecute]) == Some(Given(s, k, e))
  {
    hide Run;
    FireIs(s, now, k);
    RunStep(n, steps, s, Fire(now));
    var s1 := Apply(s, Fire(now));
    RunStep(n, steps + [Fire(now)], s1, Choose(e));
    var s2 := s1.(main := Chosen(s.running[k], e));
    RunStep(n, steps + [Fire(now)] + [Choose(e)], s2, TryExecute);
  }

  function At(sec: int): Timespec
  {
    Timespec(sec, 0)
  }

  const Nothing := Counters(map[], map[], map[], map[])

  /** Two executors, timer 1 started for time 4 and timer 2 for time 6. */
  const Started := State(
    {1, 2}, {}, map[At(4) := 1, At(6) := 2], map[1 := At(4), 2 := At(6)],
    map[0 := IdleExecutor, 1 := IdleExecutor], {0, 1}, map[], Waiting, {}, {}, Nothing)

  /** Executor 0 is in the handler of timer 1, and timer 2 is due. */
  const InHandlerOfOne := State(
    {1, 2}, {1}, map[At(6) := 2], map[1 := At(4), 2 := At(6)],
    map[0 := Executor(Some(1), 1, Some(1), false), 1 := IdleExecutor], {1}, map[1 := 0], Waiting, {}, {},
    Nothing.(fired := map[1 := 1], discarded := map[1 := 0]))

  lemma ReachStarted() returns (steps: seq<Step>)
    ensures Run(2, steps) == Some(Started)
  {
    var s0 := State({}, {}, map[], map[], Started.executors, {0, 1}, map[], Waiting, {}, {}, Nothing);
    assert Run(2, []) == Some(s0) by {
      assert Ids(1) == {0} && Ids(2) == {0, 1};
      assert Init(2).executors == Started.executors;
    }
    hide Run;
    RunStep(2, [], s0, Create(1));
    var s1 := s0.(created := {1}, idle := {1});
    assert Apply(s0, Create(1)) == s1;
    RunStep(2, [] + [Create(1)], s1, Create(2));
    var s2 := s0.(created := {1, 2}, idle := {1, 2});
    steps := [] + [Create(1)] + [Create(2)];
    assert Apply(s1, Create(2)) == s2;
    RunStep(2, steps, s2, Start(1, At(4)));
    var s3 := s2.(idle := {2}, running := map[At(4) := 1], targets := map[1 := At(4)]);
    assert Apply(s2, Start(1, At(4))) == s3 && !IsRunning(s3, 2);
    RunStep(2, steps + [Start(1, At(4))], s3, Start(2, At(6)));
    assert Apply(s3, Start(2, At(6))) == Started;
    steps := steps + [Start(1, At(4))] + [Start(2, At(6))];
  }

  lemma ReachHandler() returns (steps: seq<Step>)
    ensures Run(2, steps) == Some(InHandlerOfOne)
  {
    steps := ReachStarted();
    hide Run;
    Give(2, steps, Started, At(5), At(4), 0);
    steps := steps + [Fire(At(5))] + [Choose(0)] + [TryExecute];
    var s := InHandlerOfOne.(executors := map[0 := Executor(Some(1), 1, None, false), 1 := IdleExecutor]);
    assert Started.running - {At(4)} == map[At(6) := 2];
    assert Given(Started, At(4), 0) == s;
    RunStep(2, steps, s, Enter(0));
    assert Apply(s, Enter(0)) == InHandlerOfOne;
    steps := steps + [Enter(0)];
  }

  /** Timer 1 was removed by its handler, which has not returned yet. */
  const RemovedInHandler := InHandlerOfOne.(
    created := {2}, idle := {}, executors := map[0 := Executor(None, 0, Some(1), true), 1 := IdleExecutor],
    idleExecs := {0, 1}, serving := map[])

  lemma ReachRemoved() returns (steps: seq<Step>)
    ensures Run(2, steps) == Some(RemovedInHandler)
  {
    steps := ReachHandler();
    hide Run;
    RunStep(2, steps, InHandlerOfOne, SelfRemove(0));
    steps := steps + [SelfRemove(0)];
    var s := InHandlerOfOne.(created := {2}, idle := {}, freeing := {0});
    assert !IsRunning(InHandlerOfOne, 1) && Apply(InHandlerOfOne, SelfRemove(0)) == s;
    RunStep(2, steps, s, SelfFree(0));
    steps := steps + [SelfFree(0)];
    assert s.serving - {1} == map[] && s.freeing - {0} == {};
    assert Apply(s, SelfFree(0)) == RemovedInHandler;
  }

  /** A loss in a run of the pool: the handler of timer 1 removes its own timer, timer 2 is given to
      that executor, and when the handler returns the only firing of timer 2 counts as served. */
  lemma LossIsReachable() returns (steps: seq<Step>)
    ensures Run(2, steps).Some?
    ensures var s := Run(2, steps).value;
      && Firings(2, steps, 2) == 1 && Returns(2, steps, 2) == 0 && Losses(2, steps, 2) == 1
      && 0 in s.executors && s.executors[0] == IdleExecutor && s.main == Waiting
  {
    steps := ReachRemoved();
    hide Run, Firings, Returns, Discards, Losses, LateThreads;
    Give(2, steps, RemovedInHandler, At(7), At(6), 0);
    steps := steps + [Fire(At(7))] + [Choose(0)] + [TryExecute];
    var s := Given(RemovedInHandler, At(6), 0);
    assert s.executors[0] == Executor(Some(2), 1, Some(1), true);
    RunStep(2, steps, s, Leave(0));
    steps := steps + [Leave(0)];
    CountersShow(2, steps, 2);
  }

  /** Timer 1 was started again and stopped by its handler, which has not returned yet. */
  const Freeing := InHandlerOfOne.(targets := map[1 := At(5), 2 := At(6)], freeing := {0})

  const FreedInHandler := Freeing.(
    executors := map[0 := Executor(None, 0, Some(1), true), 1 := IdleExecutor], idleExecs := {0, 1},
    serving := map[], freeing := {})

  const StartedAgain := InHandlerOfOne.(
    idle := {}, running := map[At(5) := 1, At(6) := 2], targets := map[1 := At(5), 2 := At(6)])

  lemma ReachStartedAgain() returns (steps: seq<Step>)
    ensures Run(2, steps) == Some(StartedAgain)
  {
    steps := ReachHandler();
    hide Run;
    assert !IsRunning(InHandlerOfOne, 1);
    RunStep(2, steps, InHandlerOfOne, Start(1, At(5)));
    steps := steps + [Start(1, At(5))];
    assert Apply(InHandlerOfOne, Start(1, At(5))) == StartedAgain;
  }

  lemma ReachFreeing() returns (steps: seq<Step>)
    ensures Run(2, steps) == Some(Freeing)
  {
    steps := ReachStartedAgain();
    hide Run;
    assert StartedAgain.running[At(5)] == 1 && IsRunning(StartedAgain, 1) && KeyOf(StartedAgain, 1) == At(5);
    RunStep(2, steps, StartedAgain, SelfStop(0));
    steps := steps + [SelfStop(0)];
    assert StartedAgain.running - {At(5)} == InHandlerOfOne.running;
    assert Apply(StartedAgain, SelfStop(0)) == Freeing;
  }

  lemma ReachFreed() returns (steps: seq<Step>)
    ensures Run(2, steps) == Some(FreedInHandler)
  {
    steps := ReachFreeing();
    hide Run;
    RunStep(2, steps, Freeing, SelfFree(0));
    steps := steps + [SelfFree(0)];
    assert Freeing.serving - {1} == map[];
    assert Apply(Freeing, SelfFree(0)) == FreedInHandler;
  }

  /** There is a target before all others. */
  lemma {:induction false} EarlierThanAll(running: map<Timespec, TimerId>) returns (k: Timespec)
    ensures forall j :: j in running ==> Before(k, j)
    decreases |running|
  {
    k := At(0);
    if running != map[] {
      var j :| j in running;
      assert |running.Keys| == |(running - {j}).Keys| + 1 by {
        assert running.Keys == (running - {j}).Keys + {j};
      }
      k := EarlierThanAll(running - {j});
      k := At((if k.sec < j.sec then k.sec else j.sec) - 1);
    }
  }

  /** From every state that a run can reach: while a stale call of its handler goes on, a timer that
      still exists and that no executor serves can be started, fires, and is in its handler in a
      second thread, if an executor is idle whose thread is in no handler. */
  lemma StaleHandlerJoined(n: nat, steps: seq<Step>, t: TimerId, e: ExecId, f: ExecId) returns (more: seq<Step>)
    requires Run(n, steps).Some?
    requires var s := Run(n, steps).value;
      && s.main == Waiting && t in s.created && t !in s.serving
      && e in s.executors && s.executors[e].stale && s.executors[e].handling == Some(t)
      && f in s.executors && f in s.idleExecs && s.executors[f].handling == None
    ensures steps <= more && Run(n, more).Some?
    ensures Run(n, more).value.executors.Keys == Run(n, steps).value.executors.Keys
    ensures var s := Run(n, more).value;
      && e in s.executors && s.executors[e].stale && s.executors[e].handling == Some(t)
      && f in s.executors && !s.executors[f].stale && s.executors[f].handling == Some(t)
  {
    RunKeepsInv(n, steps);
    hide Run;
    var s := Run(n, steps).value;
    assert ExecOk(s, f);
    var k := EarlierThanAll(s.running);
    RunStep(n, steps, s, Start(t, k));
    var s1 := Apply(s, Start(t, k));
    StartsFirst(s, t, k);
    var now := At(k.sec + 1);
    more := steps + [Start(t, k)];
    Give(n, more, s1, now, k, f);
    var s2 := Given(s1, k, f);
    more := more + [Fire(now)] + [Choose(f)] + [TryExecute];
    RunStep(n, more, s2, Enter(f));
    more := more + [Enter(f)];
  }

  lemma StartsFirst(s: State, t: TimerId, k: Timespec)
    requires forall j :: j in s.running ==> Before(k, j)
    ensures var s' := StartTimer(s, t, k);
      && First(s'.running, k) && s'.running[k] == t
      && s'.executors == s.executors && s'.idleExecs == s.idleExecs && s'.serving == s.serving && s'.main == s.main
  {
  }

  /** Two threads in one handler in a run of the pool: the handler of timer 1 starts its timer again
      and stops it; started once more, the timer is given to another executor. */
  lemma TwoHandlersReachable() returns (steps: seq<Step>)
    ensures Run(2, steps).Some?
    ensures var s := Run(2, steps).value;
      && s.executors.Keys == {0, 1}
      && s.executors[0].handling == Some(1) && s.executors[0].stale
      && s.executors[1].handling == Some(1) && !s.executors[1].stale
  {
    steps := ReachFreed();
    hide Run;
    steps := StaleHandlerJoined(2, steps, 1, 0, 1);
  }
}
