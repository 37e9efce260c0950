/**
  Where tasks and threads of src/Generics/TaskRunner.cpp go over whole runs: no task is lost,
  the pool grows only where tasks outnumber the threads to take them, and workers leave when
  asked to and only then.
 */
module TaskRunnerFlow {
  import opened TaskRunner

  // ---------------------------------------------------------------- what a step does to tasks and threads

  /** A worker begins to execute a task. */
  ghost predicate Begins(s: State, t: State)
  {
    exists w :: && 0 <= w < |s.workers| && w < |t.workers|
                && !s.workers[w].Executing? && t.workers[w].Executing?
  }

  /** A step takes a task in, hands one to a worker, forgets all of them, or leaves them alone. */
  ghost predicate TasksOk(s: State, t: State)
  {
    && (if Begins(s, t) then t.tasks == s.tasks - 1
        else t.tasks == s.tasks + 1 || t.tasks == s.tasks || t == s.(tasks := 0))
    && (t.tasks == s.tasks + 1 ==> t.workers == s.workers && (s.max > 0 ==> t.tasks <= s.max))
  }

  /**
    A producer goes on to add a thread exactly if, before its task, tasks outnumbered the
    unused threads; it enters add_thread_i_ exactly if nobody is adding, and counts a new
    thread there exactly if tasks still outnumber the unused ones.
   */
  ghost predicate GrowthOk(s: State, t: State)
  {
    && |t.adders| == |s.adders| + (if t.tasks == s.tasks + 1 && s.tasks > s.unused then 1 else 0)
    && (|t.adders| > |s.adders| ==> t.adders[|s.adders|].Ready?)
    && (forall a :: 0 <= a < |s.adders| && s.adders[a].Inside? && t.adders[a] != s.adders[a] ==>
          if s.tasks > s.unused then t.adders[a].Reserved? && t.unused == s.unused + 1
          else t.adders[a].Leaving? && t.unused == s.unused)
    && (forall a :: 0 <= a < |s.adders| && s.adders[a].Ready? && t.adders[a] != s.adders[a] ==>
          t.adders[a] == (if s.adding == 0 then Inside else Leaving) && t.adding == s.adding + 1)
    && (forall a :: 0 <= a < |s.adders| && t.adders[a].Reserved? && t.adders[a] != s.adders[a] ==> s.adders[a].Inside?)
  }

  /** Threads come from start(), or one at a time from a caller that has counted it. */
  ghost predicate ArrivalOk(s: State, t: State)
  {
    && |t.workers| >= |s.workers|
    && (|t.workers| > |s.workers| ==>
          && t.workers == s.workers + [Fresh]
          && (t.toStart == s.toStart - 1 || Starts(s, t)))
  }

  ghost predicate Starts(s: State, t: State)
  {
    exists a :: 0 <= a < |s.adders| && a < |t.adders| && s.adders[a].Reserved? && t.adders[a].Leaving?
  }

  /** A worker leaves exactly if it takes the lock after the flag was set. */
  ghost predicate LeaveOk(s: State, t: State)
  {
    forall w :: 0 <= w < |s.workers| && w < |t.workers| && t.workers[w] != s.workers[w] ==>
      && (t.workers[w].Exited? ==> s.terminating)
      && (s.terminating && (s.workers[w].Fresh? || s.workers[w].Executing? || s.workers[w].Woken?) ==>
            t.workers[w].Exited? && t.tasks == s.tasks)
  }

  /** A task queued while a worker waits owes one signal, a task taken from a bounded queue another. */
  ghost predicate SignalsOk(s: State, t: State)
  {
    && (t.tasks == s.tasks + 1 ==> t.owed == s.owed + if s.waiting > 0 then 1 else 0)
    && (t.tasks != s.tasks + 1 ==> t.owed == s.owed || t.owed == s.owed - 1)
    && (Begins(s, t) ==> t.owedRoom == s.owedRoom + if s.max > 0 then 1 else 0)
    && (!Begins(s, t) ==> t.owedRoom == s.owedRoom || t.owedRoom == s.owedRoom - 1)
  }

  ghost predicate Flow(s: State, t: State)
  {
    TasksOk(s, t) && GrowthOk(s, t) && ArrivalOk(s, t) && LeaveOk(s, t) && SignalsOk(s, t)
  }

  lemma FlowOfWorker(s: State, step: Step)
    requires Enabled(s, step) && MovesWorker(step)
    ensures Flow(s, Apply(s, step))
  {
    hide Free;
    var t := Apply(s, step);
    assert forall w :: 0 <= w < |s.workers| && w != step.w ==> t.workers[w] == s.workers[w];
    if step.Decide? && s.tasks > 0 {
      assert t.workers[step.w].Executing?;
    }
  }

  lemma FlowOfAdder(s: State, step: Step)
    requires Enabled(s, step) && MovesAdder(step)
    ensures Flow(s, Apply(s, step))
  {
    hide Free;
    var t := Apply(s, step);
    assert forall a :: 0 <= a < |s.adders| && a != step.a ==> t.adders[a] == s.adders[a];
    if step.StartOne? {
      assert s.adders[step.a].Reserved? && t.adders[step.a].Leaving?;
    }
  }

  lemma FlowOfOther(s: State, step: Step)
    requires Enabled(s, step) && !MovesWorker(step) && !MovesAdder(step)
    ensures Flow(s, Apply(s, step))
  {
    hide Free;
  }

  lemma FlowStep(s: State, t: State)
    requires Follows(s, t)
    ensures Flow(s, t)
  {
    hide Enabled, Apply, Flow;
    var step :| Enabled(s, step) && t == Apply(s, step);
    if MovesWorker(step) {
      FlowOfWorker(s, step);
    } else if MovesAdder(step) {
      FlowOfAdder(s, step);
    } else {
      FlowOfOther(s, step);
    }
  }

  /** Producers inside enqueue_task that have met a full queue. */
  function Kept(s: State): nat
  {
    s.blocked + s.retrying
  }

  /** One is kept by a full queue; it leaves when it gives up or finds room, and wakes only when woken. */
  lemma ProducersCounted(s: State, step: Step)
    requires Enabled(s, step)
    ensures var t := Apply(s, step);
            match step
            case Block => s.max > 0 && s.tasks >= s.max && Kept(t) == Kept(s) + 1 && t.blocked == s.blocked + 1
            case GiveUp => Kept(t) == Kept(s) - 1 && t.retrying == s.retrying
            case SpuriousRoom => Kept(t) == Kept(s) && t.blocked == s.blocked - 1
            case SignalRoom =>
              && Kept(t) == Kept(s) && t.owedRoom == s.owedRoom - 1
              && t.blocked == if s.blocked > 0 then s.blocked - 1 else 0
            case Retry =>
              && t.retrying == s.retrying - 1
              && (if s.max == 0 || s.tasks < s.max then Kept(t) == Kept(s) - 1 && t.tasks == s.tasks + 1
                  else Kept(t) == Kept(s) && t.tasks == s.tasks)
            case _ => t.blocked == s.blocked && t.retrying == s.retrying
  {
    hide Free;
  }

  // ---------------------------------------------------------------- no task is lost

  function Accepted(states: seq<State>): nat
  {
    if |states| < 2 then 0 else
      var n := |states| - 1;
      Accepted(states[..n]) + if states[n].tasks > states[n - 1].tasks then 1 else 0
  }

  ghost function Begun(states: seq<State>): nat
  {
    if |states| < 2 then 0 else
      var n := |states| - 1;
      Begun(states[..n]) + if Begins(states[n - 1], states[n]) then 1 else 0
  }

  /** Tasks that clear() took from the queue. */
  ghost function Discarded(states: seq<State>): nat
  {
    if |states| < 2 then 0 else
      var n := |states| - 1;
      var s, t := states[n - 1], states[n];
      Discarded(states[..n]) + if !Begins(s, t) && t.tasks < s.tasks then s.tasks - t.tasks else 0
  }

  /** Every task ever accepted was begun by a worker once, was discarded, or is queued. */
  lemma {:induction false} TasksConserved(states: seq<State>, startThreads: nat, max: nat, created: nat)
    requires IsRun(states, startThreads, max, created)
    ensures Accepted(states) == Last(states).tasks + Begun(states) + Discarded(states)
    decreases |states|
  {
    hide Follows, Begins, GrowthOk, ArrivalOk, LeaveOk, SignalsOk;
    if |states| > 1 {
      var n := |states| - 1;
      TasksConserved(states[..n], startThreads, max, created);
      FlowStep(states[n - 1], states[n]);
    }
  }

  // ---------------------------------------------------------------- growth is needed

  /** At step i caller a counted a new thread, and tasks outnumbered the unused threads. */
  ghost predicate Needed(states: seq<State>, i: nat, a: nat)
    requires i + 1 < |states|
  {
    && a < |states[i].adders| && states[i].adders[a].Inside? && states[i].tasks > states[i].unused
    && a < |states[i + 1].adders| && states[i + 1].adders[a].Reserved?
  }

  lemma {:induction false} ReservedWasNeeded(states: seq<State>, startThreads: nat, max: nat, created: nat,
                                             n: nat, a: nat)
    requires IsRun(states, startThreads, max, created) && n < |states|
    requires a < |states[n].adders| && states[n].adders[a].Reserved?
    ensures exists i :: 0 <= i < n && Needed(states, i, a)
    decreases n
  {
    hide Follows, TasksOk, ArrivalOk, LeaveOk, SignalsOk;
    assert n > 0;
    var i := n - 1;
    FlowStep(states[i], states[i + 1]);
    if states[i].adders[a].Reserved? {
      ReservedWasNeeded(states, startThreads, max, created, i, a);
    } else {
      assert Needed(states, i, a);
    }
  }

  /** Every thread beyond those of start() was needed when it was decided on. */
  lemma GrowthWasNeeded(states: seq<State>, startThreads: nat, max: nat, created: nat, n: nat)
    requires IsRun(states, startThreads, max, created) && n + 1 < |states|
    requires |states[n + 1].workers| > |states[n].workers| && states[n + 1].toStart == states[n].toStart
    ensures exists i, a :: 0 <= i < n && Needed(states, i, a)
  {
    hide Follows, TasksOk, GrowthOk, LeaveOk, SignalsOk, Needed;
    var m := n + 1;
    assert Follows(states[m - 1], states[m]);
    FlowStep(states[n], states[n + 1]);
    var s, t := states[n], states[n + 1];
    var a :| 0 <= a < |s.adders| && a < |t.adders| && s.adders[a].Reserved? && t.adders[a].Leaving?;
    ReservedWasNeeded(states, startThreads, max, created, n, a);
  }

  // ---------------------------------------------------------------- the end of the workers

  ghost predicate NobodyLeft(s: State)
  {
    forall w :: 0 <= w < |s.workers| ==> !s.workers[w].Exited?
  }

  /** terminating_ is not lowered within an activation. */
  lemma FlagStays(s: State, t: State)
    requires Follows(s, t)
    ensures s.terminating ==> t.terminating
  {
    hide Free, Tally;
    var step :| Enabled(s, step) && t == Apply(s, step);
    hide Enabled;
  }

  /** No worker leaves before it is asked to terminate. */
  lemma {:induction false} NobodyLeavesEarly(states: seq<State>, startThreads: nat, max: nat, created: nat, n: nat)
    requires IsRun(states, startThreads, max, created) && n < |states|
    ensures !states[n].terminating ==> NobodyLeft(states[n])
    decreases n
  {
    hide Follows, TasksOk, GrowthOk, SignalsOk;
    if n > 0 {
      NobodyLeavesEarly(states, startThreads, max, created, n - 1);
      FlagStays(states[n - 1], states[n]);
      FlowStep(states[n - 1], states[n]);
    }
  }

  /** The number of workers that have not left. */
  function Alive(s: State): nat
  {
    Tally(s.workers, Live)
  }

  /** After the broadcast somebody who has not left can take the lock, and then leaves. */
  lemma OneLeaves(s: State, w: nat) returns (step: Step)
    requires Inv(s) && s.broadcast && w < |s.workers| && !s.workers[w].Exited?
    ensures Enabled(s, step) && Apply(s, step).broadcast && Apply(s, step).toStart == s.toStart
    ensures Alive(Apply(s, step)) == Alive(s) - 1 && Apply(s, step).tasks == s.tasks
  {
    hide Tally, AdderInv, CounterInv, RoomInv;
    Moved(s.workers, w, Exited);
    forall i | 0 <= i < |s.workers| ensures !s.workers[i].Holding? && !s.workers[i].Asleep? {
      Moved(s.workers, i, Exited);
    }
    step := if s.workers[w].Woken? then Rewake(w) else Enter(w);
  }

  /** From every state after the broadcast, the workers alone can all leave, and no task is begun on the way. */
  lemma {:induction false} AllCanLeave(states: seq<State>, from: State) returns (more: seq<State>)
    requires states != [] && IsPath(states, from) && Inv(Last(states)) && Last(states).broadcast
    ensures IsPath(more, from) && more != [] && AllExited(Last(more)) && Last(more).tasks == Last(states).tasks
    decreases Alive(Last(states))
  {
    hide Inv, Tally, IsPath, Alive;
    var s := Last(states);
    if AllExited(s) {
      return states;
    }
    var w :| 0 <= w < |s.workers| && !s.workers[w].Exited?;
    var step := OneLeaves(s, w);
    hide Enabled, Apply;
    more := ExtendPath(states, from, step);
    StepKeepsInv(s, Apply(s, step));
    more := AllCanLeave(more, from);
  }
}
