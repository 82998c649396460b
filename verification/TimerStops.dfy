/**
 What stopping or removing a timer achieves: the timer does not fire until it is started again, and
 when a caller that had to wait comes back, no call of the timer's handler will be made.
 */
module TimerStops {
  import opened Values
  import opened TimerPool

  // ----- one key per timer -----

  predicate OneKey(s: State)
  {
    forall j, k :: j in s.running && k in s.running && s.running[j] == s.running[k] ==> j == k
  }

  /** Every entry was there before. */
  predicate NoneAdded(s: State, s': State)
  {
    forall k :: k in s'.running ==> k in s.running && s'.running[k] == s.running[k]
  }

  predicate StartsTimer(step: Step, t: TimerId)
  {
    step.Start? && step.t == t
  }

  lemma OnlyStartAdds(s: State, step: Step)
    requires Enabled(s, step) && !step.Start?
    ensures NoneAdded(s, Apply(s, step))
  {
    match step
    case Fire(now) => FirstIsUnique(s.running, now);
    case Stop(_) =>
    case Remove(_) =>
    case SelfStop(_) =>
    case SelfRemove(_) =>
    case _ => OtherStepsLeaveRunning(s, step);
  }

  lemma OtherStepsLeaveRunning(s: State, step: Step)
    requires Enabled(s, step) && !step.Start? && !step.Fire? && !step.Stop? && !step.Remove?
    requires !step.SelfStop? && !step.SelfRemove?
    ensures Apply(s, step).running == s.running
  {
  }

  /** A start takes the old entry of its timer away and adds one for this timer only. */
  lemma StartAdds(s: State, t: TimerId, target: Timespec)
    requires OneKey(s)
    ensures var s' := StartTimer(s, t, target);
      && OneKey(s')
      && forall k :: k in s'.running && s'.running[k] != t ==> k in s.running && s'.running[k] == s.running[k]
  {
    assert IsRunning(s, t) ==> forall k :: k in s.running && s.running[k] == t ==> k == KeyOf(s, t);
  }

  lemma StepKeepsOneKey(s: State, step: Step)
    requires Enabled(s, step) && OneKey(s)
    ensures OneKey(Apply(s, step))
  {
    if step.Start? {
      StartAdds(s, step.t, step.target);
    } else {
      OnlyStartAdds(s, step);
      hide Enabled, Apply;
      assert NoneAdded(s, Apply(s, step));
    }
  }

  /** In every interleaving a timer is scheduled under at most one key. */
  lemma {:induction false} RunKeepsOneKey(n: nat, steps: seq<Step>)
    requires Run(n, steps).Some?
    ensures OneKey(Run(n, steps).value)
  {
    if steps != [] {
      var m := |steps| - 1;
      RunKeepsOneKey(n, steps[..m]);
      StepKeepsOneKey(Run(n, steps[..m]).value, steps[m]);
    }
  }

  // ----- a stopped timer does not fire -----

  /** The timer is not scheduled, and the main thread does not hold it. */
  predicate Silent(s: State, t: TimerId)
  {
    !IsRunning(s, t) && (!s.main.Waiting? ==> s.main.timer != t)
  }

  /** The step is a stop or a removal of the timer, by a caller or by its own handler. */
  predicate Stops(s: State, step: Step, t: TimerId)
  {
    match step
    case Stop(u) => u == t
    case Remove(u) => u == t
    case SelfStop(e) => e in s.executors && s.executors[e].handling == Some(t)
    case SelfRemove(e) => e in s.executors && s.executors[e].handling == Some(t)
    case _ => false
  }

  lemma StopSilences(s: State, step: Step, t: TimerId)
    requires Enabled(s, step) && OneKey(s) && Stops(s, step, t)
    ensures Silent(Apply(s, step), t)
  {
    assert IsRunning(s, t) ==> forall k :: k in s.running && s.running[k] == t ==> k == KeyOf(s, t);
  }

  lemma SilentStep(s: State, step: Step, t: TimerId)
    requires Enabled(s, step) && Silent(s, t) && !StartsTimer(step, t) && OneKey(s)
    ensures Silent(Apply(s, step), t)
    ensures step.Fire? ==> Apply(s, step).main != Picked(t)
  {
    if step.Start? {
      StartAdds(s, step.t, step.target);
    } else {
      OnlyStartAdds(s, step);
      MainTakesRunning(s, step);
      hide Enabled, Apply;
      assert NoneAdded(s, Apply(s, step));
    }
  }

  /** The main thread takes only scheduled timers in its hands. */
  lemma MainTakesRunning(s: State, step: Step)
    requires Enabled(s, step) && !step.Start?
    ensures var s' := Apply(s, step);
      !s'.main.Waiting? ==> (!s.main.Waiting? && s'.main.timer == s.main.timer) || IsRunning(s, s'.main.timer)
  {
    match step
    case Fire(now) => FirstIsUnique(s.running, now);
    case Stop(_) =>
    case Remove(_) =>
    case SelfStop(_) =>
    case SelfRemove(_) =>
    case _ =>
  }

  lemma {:induction false} RunPrefix(n: nat, steps: seq<Step>, i: nat)
    requires Run(n, steps).Some? && i <= |steps|
    ensures Run(n, steps[..i]).Some?
    decreases |steps|
  {
    if i < |steps| {
      var m := |steps| - 1;
      RunPrefix(n, steps[..m], i);
      assert steps[..m][..i] == steps[..i];
    } else {
      assert steps[..i] == steps;
    }
  }

  ghost predicate NotStarted(steps: seq<Step>, from: nat, t: TimerId)
  {
    forall j :: from <= j < |steps| ==> !StartsTimer(steps[j], t)
  }

  /** A timer that is silent stays so, and does not fire, until it is started. */
  lemma {:induction false} SilentRun(n: nat, steps: seq<Step>, a: nat, t: TimerId)
    requires Run(n, steps).Some? && a <= |steps| && NotStarted(steps, a, t)
    requires Run(n, steps[..a]).Some? && Silent(Run(n, steps[..a]).value, t)
    ensures Silent(Run(n, steps).value, t) && Firings(n, steps, t) == Firings(n, steps[..a], t)
    decreases |steps|
  {
    if a == |steps| {
      assert steps[..a] == steps;
    } else {
      var m := |steps| - 1;
      assert steps[..m][..a] == steps[..a];
      SilentRun(n, steps[..m], a, t);
      RunKeepsOneKey(n, steps[..m]);
      SilentStep(Run(n, steps[..m]).value, steps[m], t);
      hide Silent, Enabled, Apply;
    }
  }

  /** In every interleaving: after a stop or a removal of a timer, by a caller or by its own handler, it
      does not fire until it is started again. */
  lemma StoppedDoesNotFire(n: nat, steps: seq<Step>, i: nat, t: TimerId)
    requires Run(n, steps).Some? && i < |steps| && NotStarted(steps, i + 1, t)
    requires Run(n, steps[..i]).Some? && Stops(Run(n, steps[..i]).value, steps[i], t)
    ensures Firings(n, steps, t) == Firings(n, steps[..i + 1], t)
  {
    RunPrefix(n, steps, i + 1);
    assert steps[..i + 1][..i] == steps[..i];
    RunKeepsOneKey(n, steps[..i]);
    StopSilences(Run(n, steps[..i]).value, steps[i], t);
    hide Silent, Enabled, Apply, Firings, Stops;
    SilentRun(n, steps, i + 1, t);
  }

  // ----- what the caller waits for -----

  /** A stop makes its caller wait if and only if the timer is scheduled and an executor serves it: then
      for this executor. A stop of a timer that is not scheduled does nothing at all, even while its
      handler is being called. */
  lemma StopWaits(s: State, t: TimerId)
    requires Enabled(s, Stop(t))
    ensures var s' := Apply(s, Stop(t));
      && s'.waiters == s.waiters + (if IsRunning(s, t) && t in s.serving then {(t, s.serving[t])} else {})
      && s'.serving == s.serving && s'.executors == s.executors
      && (!IsRunning(s, t) ==> s' == s)
  {
  }

  /** A removal makes its caller wait if and only if an executor serves the timer. */
  lemma RemoveWaits(s: State, t: TimerId)
    requires Enabled(s, Remove(t))
    ensures var s' := Apply(s, Remove(t));
      && s'.waiters == s.waiters + (if t in s.serving then {(t, s.serving[t])} else {})
      && s'.serving == s.serving && s'.executors == s.executors && t !in s'.created
  {
  }

  /** The timer will not fire by itself, and no executor but this one serves it. */
  predicate LeftTo(s: State, t: TimerId, e: ExecId)
  {
    Silent(s, t) && (t in s.serving ==> s.serving[t] == e)
  }

  /** Nothing of the timer is left to be done. */
  predicate Finished(s: State, t: TimerId)
  {
    Silent(s, t) && t !in s.serving
  }

  /** Only the timer that the main thread holds comes to be served. */
  lemma ServedIsHeld(s: State, step: Step, t: TimerId)
    requires Enabled(s, step) && t in Apply(s, step).serving
    ensures (t in s.serving && Apply(s, step).serving[t] == s.serving[t]) || (!s.main.Waiting? && s.main.timer == t)
  {
    match step
    case TryExecute =>
    case Leave(_) =>
    case SelfFree(_) =>
    case _ => OtherStepsLeaveServing(s, step);
  }

  lemma OtherStepsLeaveServing(s: State, step: Step)
    requires Enabled(s, step) && !step.TryExecute? && !step.Leave? && !step.SelfFree?
    ensures Apply(s, step).serving == s.serving
  {
  }

  lemma {:induction false} LeftToRun(n: nat, steps: seq<Step>, a: nat, t: TimerId, e: ExecId)
    requires Run(n, steps).Some? && a <= |steps| && NotStarted(steps, a, t)
    requires Run(n, steps[..a]).Some? && LeftTo(Run(n, steps[..a]).value, t, e)
    ensures LeftTo(Run(n, steps).value, t, e)
    ensures Finished(Run(n, steps[..a]).value, t) ==> Finished(Run(n, steps).value, t)
    decreases |steps|
  {
    if a == |steps| {
      assert steps[..a] == steps;
    } else {
      var m := |steps| - 1;
      assert steps[..m][..a] == steps[..a];
      LeftToRun(n, steps[..m], a, t, e);
      RunKeepsOneKey(n, steps[..m]);
      var s := Run(n, steps[..m]).value;
      SilentStep(s, steps[m], t);
      hide Enabled, Apply, IsRunning;
      if t in Apply(s, steps[m]).serving {
        ServedIsHeld(s, steps[m], t);
      }
    }
  }

  /** No call of the timer's handler begins from step `a` of the run on. */
  ghost predicate NoCallFrom(n: nat, steps: seq<Step>, a: nat, t: TimerId)
  {
    forall j :: a <= j < |steps| && steps[j].Enter? ==> !Enters(n, steps, j, t)
  }

  /** Step `j` begins a call of the timer's handler. */
  ghost predicate Enters(n: nat, steps: seq<Step>, j: nat, t: TimerId)
    requires j < |steps| && steps[j].Enter?
  {
    && Run(n, steps[..j]).Some? && steps[j].e in Run(n, steps[..j]).value.executors
    && Run(n, steps[..j]).value.executors[steps[j].e].timer == Some(t)
  }

  /** Once nothing of a timer is left to be done, no call of its handler begins until it is started. */
  lemma FinishedRun(n: nat, steps: seq<Step>, a: nat, t: TimerId)
    requires Run(n, steps).Some? && a <= |steps| && NotStarted(steps, a, t)
    requires Run(n, steps[..a]).Some? && Finished(Run(n, steps[..a]).value, t)
    ensures NoCallFrom(n, steps, a, t)
  {
    forall j | a <= j < |steps| && steps[j].Enter?
      ensures !Enters(n, steps, j, t)
    {
      RunPrefix(n, steps, j);
      assert steps[..j][..a] == steps[..a];
      hide Run, Silent;
      LeftToRun(n, steps[..j], a, t, 0);
      RunKeepsInv(n, steps[..j]);
      var s := Run(n, steps[..j]).value;
      if steps[j].e in s.executors {
        assert ExecOk(s, steps[j].e);
      }
    }
  }

  /** A stop or removal of a timer that no executor serves is final: until the timer is started again no
      call of its handler begins. */
  lemma UnservedStopIsFinal(n: nat, steps: seq<Step>, i: nat, t: TimerId)
    requires Run(n, steps).Some? && i < |steps| && NotStarted(steps, i + 1, t)
    requires steps[i] == Stop(t) || steps[i] == Remove(t)
    requires Run(n, steps[..i]).Some? && t !in Run(n, steps[..i]).value.serving
    ensures NoCallFrom(n, steps, i + 1, t)
  {
    StopStep(n, steps, i, t);
    hide Run, Silent, Enabled, Apply;
    FinishedRun(n, steps, i + 1, t);
  }

  lemma StopStep(n: nat, steps: seq<Step>, i: nat, t: TimerId)
    requires Run(n, steps).Some? && i < |steps| && (steps[i] == Stop(t) || steps[i] == Remove(t))
    ensures Run(n, steps[..i]).Some? && Run(n, steps[..i + 1]).Some?
    ensures var s, s' := Run(n, steps[..i]).value, Run(n, steps[..i + 1]).value;
      && Enabled(s, steps[i]) && s' == Apply(s, steps[i]) && Silent(s', t) && s'.serving == s.serving
  {
    hide Run, Silent, OneKey;
    StepAt(n, steps, i);
    RunKeepsOneKey(n, steps[..i]);
    var s := Run(n, steps[..i]).value;
    StopSilences(s, steps[i], t);
    hide Apply, Enabled;
    if steps[i].Stop? {
      StopWaits(s, t);
    } else {
      RemoveWaits(s, t);
    }
  }

  /** The caller of a stop or removal of a served timer waits for its executor. When the caller comes
      back, at the step that takes it off the waiting ones, no call of the timer's handler begins
      any more until the timer is started again. */
  lemma StopReturnsWhenServed(n: nat, steps: seq<Step>, i: nat, m: nat, t: TimerId, e: ExecId)
    requires Run(n, steps).Some? && i < m < |steps| && NotStarted(steps, i + 1, t)
    requires steps[i] == Stop(t) || steps[i] == Remove(t)
    requires Run(n, steps[..i]).Some? &&
      var s := Run(n, steps[..i]).value; t in s.serving && s.serving[t] == e
    requires steps[m] == Discard(t, e) && Run(n, steps[..m + 1]).Some? &&
      (t, e) !in Run(n, steps[..m + 1]).value.waiters
    ensures NoCallFrom(n, steps, m + 1, t)
  {
    hide Run, Silent, Enabled, Apply, Inv, NoCallFrom;
    StopStep(n, steps, i, t);
    StepAt(n, steps, m);
    assert steps[..m][..i + 1] == steps[..i + 1] && steps[..m + 1][..i + 1] == steps[..i + 1];
    LeftToRun(n, steps[..m], i + 1, t, e);
    LeftToRun(n, steps[..m + 1], i + 1, t, e);
    RunKeepsInv(n, steps[..m]);
    WaiterLeaves(Run(n, steps[..m]).value, t, e);
    FinishedRun(n, steps, m + 1, t);
  }

  lemma StepAt(n: nat, steps: seq<Step>, m: nat)
    requires Run(n, steps).Some? && m < |steps|
    ensures Run(n, steps[..m]).Some? && Run(n, steps[..m + 1]).Some?
    ensures Enabled(Run(n, steps[..m]).value, steps[m])
    ensures Run(n, steps[..m + 1]).value == Apply(Run(n, steps[..m]).value, steps[m])
  {
    RunPrefix(n, steps, m);
    RunPrefix(n, steps, m + 1);
    assert steps[..m + 1][..m] == steps[..m];
  }

  lemma WaiterLeaves(s: State, t: TimerId, e: ExecId)
    requires Enabled(s, Discard(t, e)) && Inv(s) && (t in s.serving ==> s.serving[t] == e)
    requires (t, e) !in Apply(s, Discard(t, e)).waiters
    ensures t !in Apply(s, Discard(t, e)).serving
  {
    assert t in s.serving ==> ServesOk(s, t);
  }

  // ----- how many calls are left -----

  /** A round of waiting takes all calls away but one. */
  lemma RoundLeavesOne(s: State, t: TimerId, e: ExecId)
    requires Enabled(s, Discard(t, e)) && Inv(s) && (t in s.serving ==> s.serving[t] == e)
    ensures Pending(Apply(s, Discard(t, e)), t) <= 1
  {
    assert t in s.serving ==> ServesOk(s, t);
  }

  /** A timer that does not fire is owed fewer and fewer calls. */
  lemma SilentOwesLess(s: State, step: Step, t: TimerId)
    requires Enabled(s, step) && Inv(s) && Silent(s, t)
    ensures Pending(Apply(s, step), t) <= Pending(s, t)
  {
    assert t in s.serving ==> ServesOk(s, t);
    hide IsRunning, Balanced;
    match step
    case TryExecute =>
    case Leave(e) => assert ExecOk(s, e);
    case SelfFree(e) => assert ExecOk(s, e);
    case Discard(_, _) =>
    case Enter(_) =>
    case Choose(_) =>
    case _ => CallersOweTheSame(s, step, t);
  }

  lemma CallersOweTheSame(s: State, step: Step, t: TimerId)
    requires Enabled(s, step) && !step.TryExecute? && !step.Leave? && !step.SelfFree? && !step.Discard? && !step.Enter?
    requires !step.Choose?
    ensures Pending(Apply(s, step), t) == Pending(s, t)
  {
  }

  /** In every interleaving, once a caller of stop or remove has waited one round, at most one call is
      owed to the timer until it is started again. */
  lemma {:induction false} StopLeavesOneCall(n: nat, steps: seq<Step>, i: nat, m: nat, t: TimerId, e: ExecId)
    requires Run(n, steps).Some? && i < m < |steps| && NotStarted(steps, i + 1, t)
    requires steps[i] == Stop(t) || steps[i] == Remove(t)
    requires Run(n, steps[..i]).Some? &&
      var s := Run(n, steps[..i]).value; t in s.serving && s.serving[t] == e
    requires steps[m] == Discard(t, e)
    ensures Pending(Run(n, steps).value, t) <= 1
    decreases |steps|
  {
    hide Run, Silent, Enabled, Apply, Inv, Pending;
    var l := |steps| - 1;
    StopStep(n, steps, i, t);
    StepAt(n, steps, l);
    assert steps[..l + 1] == steps && steps[..l][..i + 1] == steps[..i + 1];
    LeftToRun(n, steps[..l], i + 1, t, e);
    RunKeepsInv(n, steps[..l]);
    var s := Run(n, steps[..l]).value;
    if m == l {
      RoundLeavesOne(s, t, e);
    } else {
      assert steps[..l][..i] == steps[..i];
      StopLeavesOneCall(n, steps[..l], i, m, t, e);
      SilentOwesLess(s, steps[l], t);
    }
  }
}
