/**
  The start gate of src/Generics/ThreadRunner.cpp: threads created by start() stop at a
  semaphore that is released once all of them exist. One thread calls start() and
  wait_for_completion(); the created threads take their steps in any interleaving.
 */
module ThreadRunner {

  /** Where a created thread is in thread_func_. */
  datatype Thread =
    | Created   // before the semaphore
    | Ticket    // has acquired, not yet released
    | Passed    // about to read interrupt_start_
    | Working   // in the job
    | Done

  /** What the owner of the runner is doing. */
  datatype Owner =
    | Idle
    | Starting(toStart: nat)   // the creation loop of start()
    | Failing                  // a creation failed, interrupt_start_ is set
    | Started                  // start() returned
    | Joining                  // wait_for_completion, in its join loop
    | Closing                  // every thread is joined, the semaphore is to be taken back

  datatype State = State(
    jobs: nat,                 // number_of_jobs_
    semaphore: nat,
    interrupt: bool,           // interrupt_start_
    threads: seq<Thread>,      // all threads ever created
    first: nat,                // those of this cycle, number_running_ of them, begin here
    owner: Owner,
    worked: set<nat>,          // the threads whose job body has been entered
    emptyCycles: nat,          // past cycles that created no thread
    late: nat,                 // threads started between the last join and the acquire
    cycles: nat)               // calls of start()

  datatype Step =
    | Call(toStart: nat)       // start(to_start)
    | Create
    | CreateFails
    | Open                     // the release at the end of start()
    | OpenFailed               // the release after a failure
    | StartOne                 // start_one(), also during wait_for_completion()
    | Wait                     // wait_for_completion()
    | Joined
    | Close
    | Acquire(t: nat)
    | Release(t: nat)
    | Check(t: nat)
    | Finish(t: nat)

  /** The steps of the created threads. */
  predicate OfThread(step: Step)
  {
    step.Acquire? || step.Release? || step.Check? || step.Finish?
  }

  predicate Opened(o: Owner)
  {
    o.Started? || o.Joining? || o.Closing?
  }

  /** number_running_ */
  function Running(s: State): int
  {
    |s.threads| - s.first
  }

  predicate Enabled(s: State, step: Step)
  {
    match step
    case Call(_) => s.owner.Idle?
    case Create => s.owner.Starting? && Running(s) < s.owner.toStart
    case CreateFails => s.owner.Starting? && Running(s) < s.owner.toStart
    case Open => s.owner.Starting? && Running(s) >= s.owner.toStart
    case OpenFailed => s.owner.Failing?
    case StartOne => Opened(s.owner) && Running(s) < s.jobs
    case Wait => s.owner.Started?
    case Joined => s.owner.Joining? && forall i :: s.first <= i < |s.threads| ==> s.threads[i].Done?
    case Close => s.owner.Closing? && s.semaphore > 0
    case Acquire(t) => t < |s.threads| && s.threads[t].Created? && s.semaphore > 0
    case Release(t) => t < |s.threads| && s.threads[t].Ticket?
    case Check(t) => t < |s.threads| && s.threads[t].Passed?
    case Finish(t) => t < |s.threads| && s.threads[t].Working?
  }

  /** wait_for_completion() does nothing when no thread is running. */
  function EnterWait(s: State): State
  {
    if Running(s) == 0 then s.(owner := Idle, emptyCycles := s.emptyCycles + 1) else s.(owner := Joining)
  }

  function Move(s: State, t: nat, pc: Thread): State
    requires t < |s.threads|
  {
    s.(threads := s.threads[t := pc])
  }

  function Apply(s: State, step: Step): State
    requires Enabled(s, step)
  {
    match step
    case Call(n) =>
      s.(interrupt := false, cycles := s.cycles + 1,
         owner := Starting(if n == 0 || n > s.jobs then s.jobs else n))
    case Create => s.(threads := s.threads + [Created])
    case CreateFails => s.(interrupt := true, owner := Failing)
    case Open => s.(semaphore := s.semaphore + 1, owner := Started)
    case OpenFailed => EnterWait(s.(semaphore := s.semaphore + 1))
    case StartOne => s.(threads := s.threads + [Created], late := s.late + if s.owner.Closing? then 1 else 0)
    case Wait => EnterWait(s)
    case Joined => s.(owner := Closing)
    case Close => s.(semaphore := s.semaphore - 1, first := |s.threads|, owner := Idle)
    case Acquire(t) => Move(s, t, Ticket).(semaphore := s.semaphore - 1)
    case Release(t) => Move(s, t, Passed).(semaphore := s.semaphore + 1)
    case Check(t) =>
      if s.interrupt then Move(s, t, Done) else Move(s, t, Working).(worked := s.worked + {t})
    case Finish(t) => Move(s, t, Done)
  }

  function Init(jobs: nat): State
  {
    State(jobs, 0, false, [], 0, Idle, {}, 0, 0, 0)
  }

  // ---------------------------------------------------------------- counting tickets

  function Tickets(ts: seq<Thread>): nat
  {
    if ts == [] then 0 else Tickets(ts[..|ts| - 1]) + if ts[|ts| - 1].Ticket? then 1 else 0
  }

  lemma {:induction false} TicketsUpdate(ts: seq<Thread>, i: nat, t: Thread)
    requires i < |ts|
    ensures Tickets(ts[i := t]) == Tickets(ts) - (if ts[i].Ticket? then 1 else 0) + if t.Ticket? then 1 else 0
    ensures ts[i].Ticket? ==> Tickets(ts) > 0
    decreases |ts|
  {
    var n := |ts| - 1;
    if i < n {
      TicketsUpdate(ts[..n], i, t);
      assert ts[i := t][..n] == ts[..n][i := t];
    } else {
      assert ts[i := t][..n] == ts[..n];
    }
  }

  lemma TicketsAppend(ts: seq<Thread>)
    ensures Tickets(ts + [Created]) == Tickets(ts)
  {
    assert (ts + [Created])[..|ts|] == ts;
  }

  lemma {:induction false} NoTickets(ts: seq<Thread>)
    requires forall i :: 0 <= i < |ts| ==> !ts[i].Ticket?
    ensures Tickets(ts) == 0
    decreases |ts|
  {
    if ts != [] {
      NoTickets(ts[..|ts| - 1]);
    }
  }

  // ---------------------------------------------------------------- what every step keeps

  /** Every thread from `lo` up to `hi` is there. */
  predicate AllAre(ts: seq<Thread>, lo: nat, hi: nat, pc: Thread)
  {
    forall i :: lo <= i < hi && i < |ts| ==> ts[i] == pc
  }

  /** No job body of this cycle has been entered. */
  ghost predicate NoneWorked(s: State)
  {
    forall i :: i in s.worked ==> i < s.first
  }

  ghost predicate Inv(s: State)
  {
    // The gate holds one permit while it is open, and one more for every cycle that created no thread.
    && s.semaphore + Tickets(s.threads) == (if Opened(s.owner) then 1 else 0) + s.emptyCycles
    && s.first <= |s.threads| && (s.owner.Idle? ==> s.first == |s.threads|)
    && (s.owner.Joining? || s.owner.Closing? ==> s.first < |s.threads|)
    && (s.owner.Failing? ==> s.interrupt)
    && (s.owner.Starting? ==> s.owner.toStart <= s.jobs)
    && (s.owner.Starting? || s.owner.Started? ==> !s.interrupt)
    && (s.emptyCycles == 0 && !Opened(s.owner) ==>
          AllAre(s.threads, s.first, |s.threads|, Created) && NoneWorked(s))
    && (s.emptyCycles == 0 && s.interrupt ==>
          NoneWorked(s) && forall i :: s.first <= i < |s.threads| ==> !s.threads[i].Working?)
    && (forall i :: i in s.worked ==> i < |s.threads|)
    // Without a late thread, everything before this cycle was joined, and so is this cycle when it closes.
    && (s.late == 0 ==> AllAre(s.threads, 0, if s.owner.Closing? then |s.threads| else s.first, Done))
  }

  lemma ThreadStep(s: State, step: Step)
    requires Inv(s) && Enabled(s, step) && OfThread(step)
    ensures Inv(Apply(s, step))
  {
    hide Tickets;
    TicketsUpdate(s.threads, step.t, Apply(s, step).threads[step.t]);
    assert s.threads[step.t] != Done;
  }

  lemma OwnerStep(s: State, step: Step)
    requires Inv(s) && Enabled(s, step) && !OfThread(step)
    ensures Inv(Apply(s, step))
  {
    hide Tickets;
    TicketsAppend(s.threads);
  }

  // ---------------------------------------------------------------- whole runs

  ghost predicate Follows(s: State, t: State)
  {
    exists step :: Enabled(s, step) && t == Apply(s, step)
  }

  ghost predicate IsRun(states: seq<State>, jobs: nat)
  {
    && states != [] && states[0] == Init(jobs)
    && forall i :: 0 < i < |states| ==> Follows(states[i - 1], states[i])
  }

  lemma StepKeepsInv(s: State, t: State)
    requires Inv(s) && Follows(s, t)
    ensures Inv(t) && t.jobs == s.jobs
  {
    var step :| Enabled(s, step) && t == Apply(s, step);
    hide Inv;
    if OfThread(step) {
      ThreadStep(s, step);
    } else {
      OwnerStep(s, step);
    }
  }

  lemma {:induction false} RunKeepsInv(states: seq<State>, jobs: nat, n: nat)
    requires IsRun(states, jobs) && n < |states|
    ensures Inv(states[n]) && states[n].jobs == jobs
    decreases n
  {
    if n > 0 {
      RunKeepsInv(states, jobs, n - 1);
      assert Follows(states[n - 1], states[n]);
      hide Inv, Follows;
      StepKeepsInv(states[n - 1], states[n]);
    }
  }

  /**
    As long as no cycle has passed without creating a thread: while start() is creating,
    every thread is still before the gate; and after a failed creation no job has run or
    will, in any state up to the end of the cycle.
   */
  lemma StartGate(states: seq<State>, jobs: nat, n: nat)
    requires IsRun(states, jobs) && n < |states| && states[n].emptyCycles == 0
    ensures var s := states[n];
            && (s.owner.Starting? || s.owner.Failing? ==>
                  AllAre(s.threads, s.first, |s.threads|, Created) && NoneWorked(s))
            && (s.interrupt ==> NoneWorked(s) && forall i :: s.first <= i < |s.threads| ==> !s.threads[i].Working?)
  {
    RunKeepsInv(states, jobs, n);
  }

  /** The waiter never blocks on the semaphore, unless a late thread holds the permit, which it can give back. */
  lemma CloseNeverBlocks(states: seq<State>, jobs: nat, n: nat)
    requires IsRun(states, jobs) && n < |states| && states[n].owner.Closing?
    ensures states[n].late == 0 ==> Enabled(states[n], Close)
    ensures Enabled(states[n], Close) <==> Tickets(states[n].threads) <= states[n].emptyCycles
    ensures !Enabled(states[n], Close) ==> exists t :: Enabled(states[n], Release(t))
  {
    RunKeepsInv(states, jobs, n);
    var s := states[n];
    if s.late == 0 {
      NoTickets(s.threads);
    }
    if !Enabled(s, Close) {
      var t := SomeTicket(s.threads);
      assert Enabled(s, Release(t));
    }
  }

  /** Between cycles the gate is closed, and stays so, exactly if every cycle so far created a thread. */
  lemma GateClosedExactly(states: seq<State>, jobs: nat, n: nat)
    requires IsRun(states, jobs) && n < |states| && states[n].owner.Idle?
    ensures states[n].semaphore + Tickets(states[n].threads) == states[n].emptyCycles
    ensures states[n].late == 0 ==> states[n].semaphore == states[n].emptyCycles
    ensures states[n].semaphore == Tickets(states[n].threads) == 0 <==> states[n].emptyCycles == 0
  {
    RunKeepsInv(states, jobs, n);
    if states[n].late == 0 {
      NoTickets(states[n].threads);
    }
  }

  /** A job waits at most for the gate: an opened gate lets every thread through. */
  lemma OpenGateLetsThrough(states: seq<State>, jobs: nat, n: nat, t: nat)
    requires IsRun(states, jobs) && n < |states| && Opened(states[n].owner) && t < |states[n].threads|
    requires !states[n].threads[t].Done?
    ensures exists step :: Enabled(states[n], step) && OfThread(step)
  {
    RunKeepsInv(states, jobs, n);
    var s := states[n];
    match s.threads[t] {
      case Created =>
        if s.semaphore > 0 {
          assert Enabled(s, Acquire(t));
        } else {
          var i := SomeTicket(s.threads);
          assert Enabled(s, Release(i));
        }
      case Ticket => assert Enabled(s, Release(t));
      case Passed => assert Enabled(s, Check(t));
      case Working => assert Enabled(s, Finish(t));
    }
  }

  lemma {:induction false} SomeTicket(ts: seq<Thread>) returns (i: nat)
    requires Tickets(ts) > 0
    ensures i < |ts| && ts[i].Ticket?
  {
    if ts[|ts| - 1].Ticket? {
      i := |ts| - 1;
    } else {
      i := SomeTicket(ts[..|ts| - 1]);
    }
  }

  ghost function Last(states: seq<State>): State
    requires states != []
  {
    states[|states| - 1]
  }

  lemma Extend(states: seq<State>, jobs: nat, step: Step) returns (more: seq<State>)
    requires IsRun(states, jobs) && Enabled(Last(states), step)
    ensures IsRun(more, jobs) && more != [] && states <= more && Last(more) == Apply(Last(states), step)
  {
    more := states + [Apply(Last(states), step)];
    forall i | 0 < i < |more| ensures Follows(more[i - 1], more[i]) {
      if i < |states| {
        assert Follows(states[i - 1], states[i]);
      } else {
        assert Follows(Last(states), Apply(Last(states), step));
      }
    }
  }

  /** A job runs although start() has not created all its threads. */
  ghost predicate TooEarly(s: State)
  {
    && s.owner.Starting? && Running(s) < s.owner.toStart
    && exists i :: s.first <= i < |s.threads| && s.threads[i].Working?
  }

  /** If all permits are out, one comes back. */
  lemma PermitComesBack(states: seq<State>, jobs: nat) returns (more: seq<State>)
    requires IsRun(states, jobs) && Last(states).semaphore + Tickets(Last(states).threads) > 0
    ensures IsRun(more, jobs) && more != [] && states <= more && Last(more).semaphore > 0
    ensures var s, t := Last(states), Last(more); t == s.(semaphore := t.semaphore, threads := t.threads)
    ensures |Last(more).threads| == |Last(states).threads|
  {
    more := states;
    if Last(states).semaphore == 0 {
      var t := SomeTicket(Last(states).threads);
      more := Extend(states, jobs, Release(t));
    }
  }

  /** From an open gate, the first thread that start() creates goes straight to its job. */
  lemma FirstRunsAtOnce(states: seq<State>, jobs: nat) returns (more: seq<State>)
    requires IsRun(states, jobs) && Last(states).owner.Idle? && Last(states).emptyCycles > 0 && jobs >= 2
    ensures IsRun(more, jobs) && more != [] && states <= more
    ensures Last(more).cycles == Last(states).cycles + 1 && TooEarly(Last(more))
  {
    RunKeepsInv(states, jobs, |states| - 1);
    var s := Last(states);
    var k := |s.threads|;
    hide IsRun, Inv, Tickets;
    more := PermitComesBack(states, jobs);
    more := Extend(more, jobs, Call(jobs));
    more := Extend(more, jobs, Create);
    more := Extend(more, jobs, Acquire(k));
    more := Extend(more, jobs, Release(k));
    more := Extend(more, jobs, Check(k));
    assert Last(more).threads[k].Working?;
  }

  /**
    Between cycles: the next cycle can run a job before all its threads exist exactly if
    some cycle so far created no thread and there are at least two jobs.
   */
  lemma GateFailsExactly(states: seq<State>, jobs: nat)
    requires IsRun(states, jobs) && Last(states).owner.Idle?
    ensures (exists more :: && IsRun(more, jobs) && states <= more
                            && Last(more).cycles == Last(states).cycles + 1 && TooEarly(Last(more)))
            <==> Last(states).emptyCycles > 0 && jobs >= 2
  {
    if Last(states).emptyCycles > 0 && jobs >= 2 {
      var more := FirstRunsAtOnce(states, jobs);
    }
    forall more | && IsRun(more, jobs) && states <= more
                  && Last(more).cycles == Last(states).cycles + 1 && TooEarly(Last(more))
      ensures Last(states).emptyCycles > 0 && jobs >= 2
    {
      RunKeepsInv(more, jobs, |more| - 1);
      EmptyCyclesOfOneStart(more, jobs, |states| - 1, |more| - 1);
    }
  }

  /** As seen from a pause `s`: no cycle ends before the next start() has created its threads. */
  ghost predicate StillFirst(s: State, t: State)
  {
    && t.cycles >= s.cycles
    && (t.cycles == s.cycles ==> t.owner.Idle? && t.emptyCycles == s.emptyCycles)
    && (t.cycles == s.cycles + 1 && t.owner.Starting? ==> t.emptyCycles == s.emptyCycles)
  }

  lemma StillFirstStep(s: State, t: State, u: State)
    requires StillFirst(s, t) && Follows(t, u)
    ensures StillFirst(s, u)
  {
  }

  lemma {:induction false} EmptyCyclesOfOneStart(states: seq<State>, jobs: nat, m: nat, n: nat)
    requires IsRun(states, jobs) && m <= n < |states| && states[m].owner.Idle?
    ensures StillFirst(states[m], states[n])
    decreases n
  {
    hide Follows;
    if m < n {
      EmptyCyclesOfOneStart(states, jobs, m, n - 1);
      StillFirstStep(states[m], states[n - 1], states[n]);
    }
  }

  /** If the first creation of a cycle fails, the next start() runs a job too early. */
  lemma EmptyCycleOpensTheGate() returns (states: seq<State>)
    ensures IsRun(states, 2) && states != []
    ensures TooEarly(Last(states))
  {
    states := [Init(2)];
    assert IsRun(states, 2);
    hide IsRun;
    states := Extend(states, 2, Call(2));
    states := Extend(states, 2, CreateFails);
    states := Extend(states, 2, OpenFailed);
    states := FirstRunsAtOnce(states, 2);
  }

  // ---------------------------------------------------------------- late threads

  /** wait_for_completion() has returned, and a thread of its cycle or an earlier one is not done. */
  ghost predicate Unjoined(s: State)
  {
    s.owner.Idle? && exists i :: 0 <= i < s.first && i < |s.threads| && !s.threads[i].Done?
  }

  /** `late` counts the threads that come between the last join and the acquire. */
  lemma {:induction false} LateMeansLate(states: seq<State>, jobs: nat, n: nat)
    requires IsRun(states, jobs) && n < |states|
    ensures states[n].late == 0 <==>
              forall i :: 0 <= i < n && states[i].owner.Closing? ==> |states[i + 1].threads| == |states[i].threads|
    decreases n
  {
    hide Follows;
    if n > 0 {
      LateMeansLate(states, jobs, n - 1);
      LateStep(states[n - 1], states[n]);
      var i := n - 1;
      assert states[i + 1] == states[n];
    }
  }

  lemma LateStep(s: State, t: State)
    requires Follows(s, t)
    ensures t.late == s.late + if s.owner.Closing? then |t.threads| - |s.threads| else 0
    ensures |t.threads| >= |s.threads|
  {
    var step :| Enabled(s, step) && t == Apply(s, step);
  }

  /** Without a late thread, every thread is done when its wait_for_completion() returns. */
  lemma AllJoined(states: seq<State>, jobs: nat, n: nat)
    requires IsRun(states, jobs) && n < |states| && states[n].late == 0
    ensures !Unjoined(states[n])
  {
    RunKeepsInv(states, jobs, n);
  }

  /** start_one() after the last join: the thread is never joined. */
  lemma LateIsLost(states: seq<State>, jobs: nat) returns (more: seq<State>)
    requires IsRun(states, jobs) && Last(states).owner.Closing? && Running(Last(states)) < jobs
    ensures IsRun(more, jobs) && more != [] && states <= more
    ensures Last(more).cycles == Last(states).cycles && Unjoined(Last(more))
  {
    RunKeepsInv(states, jobs, |states| - 1);
    var s := Last(states);
    hide IsRun, Inv, Tickets;
    more := PermitComesBack(states, jobs);
    more := Extend(more, jobs, StartOne);
    assert Last(more).threads[|s.threads|] == Created;
    more := Extend(more, jobs, Close);
    assert !Last(more).threads[|s.threads|].Done?;
  }

  /** As seen from a full runner that has joined all: nothing is started before it is idle. */
  ghost predicate StaysFull(s: State, t: State)
  {
    && t.cycles >= s.cycles && t.jobs == s.jobs
    && (t.cycles == s.cycles ==> t.late == 0 && (t.owner.Idle? || (t.owner.Closing? && Running(t) >= t.jobs)))
  }

  lemma StaysFullStep(s: State, t: State, u: State)
    requires StaysFull(s, t) && Follows(t, u)
    ensures StaysFull(s, u)
  {
    var step :| Enabled(t, step) && u == Apply(t, step);
    assert u.cycles > t.cycles || !step.Call?;
  }

  lemma {:induction false} FullStaysFull(states: seq<State>, jobs: nat, m: nat, n: nat)
    requires IsRun(states, jobs) && m <= n < |states| && StaysFull(states[m], states[m])
    ensures StaysFull(states[m], states[n])
    decreases n
  {
    hide Follows, StaysFull;
    if m < n {
      FullStaysFull(states, jobs, m, n - 1);
      StaysFullStep(states[m], states[n - 1], states[n]);
    }
  }

  /**
    After the last join of a cycle without late threads so far: wait_for_completion() can
    return with a thread unjoined exactly if start_one() still has room for one.
   */
  lemma UnjoinedExactly(states: seq<State>, jobs: nat)
    requires IsRun(states, jobs) && Last(states).owner.Closing? && Last(states).late == 0
    ensures (exists more :: && IsRun(more, jobs) && states <= more
                            && Last(more).cycles == Last(states).cycles && Unjoined(Last(more)))
            <==> Running(Last(states)) < jobs
  {
    RunKeepsInv(states, jobs, |states| - 1);
    if Running(Last(states)) < jobs {
      var more := LateIsLost(states, jobs);
    } else {
      forall more | IsRun(more, jobs) && states <= more && Last(more).cycles == Last(states).cycles
        ensures !Unjoined(Last(more))
      {
        FullStaysFull(more, jobs, |states| - 1, |more| - 1);
        AllJoined(more, jobs, |more| - 1);
      }
    }
  }

  // ---------------------------------------------------------------- every job runs

  /** There is a job for every thread, and without a failed creation a thread is done only after its job. */
  ghost predicate JobsInv(s: State)
  {
    && Running(s) <= s.jobs && (s.owner.Starting? ==> s.owner.toStart <= s.jobs)
    && s.first <= |s.threads| && (s.owner.Idle? ==> s.first == |s.threads|)
    && (forall i :: i in s.worked ==> i < |s.threads| && (s.threads[i].Working? || s.threads[i].Done?))
    && (forall i :: 0 <= i < |s.threads| && s.threads[i].Working? ==> i in s.worked)
    && (!s.interrupt ==> forall i :: s.first <= i < |s.threads| && s.threads[i].Done? ==> i in s.worked)
  }

  lemma JobsOfThread(s: State, step: Step)
    requires JobsInv(s) && Enabled(s, step) && OfThread(step)
    ensures JobsInv(Apply(s, step))
  {
    var t := Apply(s, step);
    assert forall i :: 0 <= i < |s.threads| && i != step.t ==> t.threads[i] == s.threads[i];
  }

  lemma JobsOfOwner(s: State, step: Step)
    requires JobsInv(s) && Enabled(s, step) && !OfThread(step)
    ensures JobsInv(Apply(s, step))
  {
  }

  lemma JobsStep(s: State, t: State)
    requires JobsInv(s) && Follows(s, t)
    ensures JobsInv(t)
  {
    hide JobsInv, Enabled, Apply;
    var step :| Enabled(s, step) && t == Apply(s, step);
    if OfThread(step) {
      JobsOfThread(s, step);
    } else {
      JobsOfOwner(s, step);
    }
  }

  lemma {:induction false} RunKeepsJobs(states: seq<State>, jobs: nat, n: nat)
    requires IsRun(states, jobs) && n < |states|
    ensures JobsInv(states[n])
    decreases n
  {
    hide Follows;
    if n > 0 {
      RunKeepsJobs(states, jobs, n - 1);
      hide JobsInv;
      JobsStep(states[n - 1], states[n]);
    }
  }

  /** number_running_ never exceeds the number of jobs, so jobs_[number_running_] exists when a thread is created. */
  lemma OneJobPerThread(states: seq<State>, jobs: nat, n: nat)
    requires IsRun(states, jobs) && n < |states|
    ensures 0 <= Running(states[n]) <= jobs
    ensures Enabled(states[n], Create) || Enabled(states[n], StartOne) ==> Running(states[n]) < jobs
  {
    RunKeepsJobs(states, jobs, n);
    RunKeepsInv(states, jobs, n);
  }

  /** The number of threads that start(n) is to create: all jobs' for 0 and for more than there are. */
  function Asked(n: nat, jobs: nat): nat
  {
    if 1 <= n <= jobs then n else jobs
  }

  /** As seen from a pause `s` that a call of start() ends. */
  ghost predicate StartsAll(s: State, k: nat, t: State)
  {
    && t.cycles > s.cycles
    && (t.cycles == s.cycles + 1 ==>
          && (t.owner.Starting? ==> t.owner.toStart == k)
          && (Opened(t.owner) && !t.interrupt ==> Running(t) >= k)
          && (t.owner.Failing? ==> t.interrupt))
  }

  lemma StartsAllStep(s: State, k: nat, t: State, u: State)
    requires StartsAll(s, k, t) && Follows(t, u)
    ensures StartsAll(s, k, u)
  {
    hide Enabled, Apply;
    var step :| Enabled(t, step) && u == Apply(t, step);
    if OfThread(step) {
      ThreadsLeaveOwner(t, step);
    } else {
      StartsAllByOwner(s, k, t, step);
    }
  }

  lemma ThreadsLeaveOwner(s: State, step: Step)
    requires Enabled(s, step) && OfThread(step)
    ensures var t := Apply(s, step);
            && t.owner == s.owner && t.cycles == s.cycles && t.interrupt == s.interrupt && t.first == s.first
            && |t.threads| == |s.threads|
  {
  }

  lemma StartsAllByOwner(s: State, k: nat, t: State, step: Step)
    requires StartsAll(s, k, t) && Enabled(t, step) && !OfThread(step)
    ensures StartsAll(s, k, Apply(t, step))
  {
  }

  lemma {:induction false} StartCreates(states: seq<State>, jobs: nat, m: nat, n: nat, asked: nat)
    requires IsRun(states, jobs) && m < n < |states| && states[m].owner.Idle?
    requires states[m + 1] == Apply(states[m], Call(asked))
    ensures StartsAll(states[m], Asked(asked, jobs), states[n])
    decreases n
  {
    RunKeepsInv(states, jobs, m);
    hide Follows, Inv;
    if n > m + 1 {
      StartCreates(states, jobs, m, n - 1, asked);
      hide StartsAll;
      StartsAllStep(states[m], Asked(asked, jobs), states[n - 1], states[n]);
    }
  }

  /**
    When wait_for_completion() has joined the threads of a start(n) that did not fail, and
    none was started late: at least as many threads as asked for have run their jobs.
   */
  lemma EveryJobRuns(states: seq<State>, jobs: nat, m: nat, n: nat, asked: nat)
    requires IsRun(states, jobs) && m < n < |states| && states[m].owner.Idle?
    requires states[m + 1] == Apply(states[m], Call(asked)) && states[n].cycles == states[m].cycles + 1
    requires states[n].owner.Closing? && !states[n].interrupt && states[n].late == 0
    ensures var s := states[n];
            && |s.threads| - s.first >= (if asked == 0 || asked > jobs then jobs else asked)
            && forall i :: s.first <= i < |s.threads| ==> i in s.worked && s.threads[i].Done?
  {
    hide Follows;
    RunKeepsInv(states, jobs, n);
    RunKeepsJobs(states, jobs, n);
    StartCreates(states, jobs, m, n, asked);
  }

  /**
    In every state of a run the owner or a created thread can go on, unless the owner is idle;
    start() fails only for want of a thread, and opens the gate as soon as none is missing.
   */
  lemma NeverStuck(states: seq<State>, jobs: nat, n: nat)
    requires IsRun(states, jobs) && n < |states| && !states[n].owner.Idle?
    ensures var s := states[n];
            && (s.owner.Starting? ==> (Enabled(s, CreateFails) <==> Running(s) < s.owner.toStart))
            && (s.owner.Starting? ==> (Enabled(s, Open) <==> Running(s) >= s.owner.toStart))
            && exists step :: Enabled(s, step) && !step.CreateFails? && !step.StartOne?
  {
    RunKeepsInv(states, jobs, n);
    var s := states[n];
    match s.owner {
      case Starting(k) => assert Enabled(s, if Running(s) < k then Create else Open);
      case Failing => assert Enabled(s, OpenFailed);
      case Started => assert Enabled(s, Wait);
      case Joining =>
        if i :| s.first <= i < |s.threads| && !s.threads[i].Done? {
          OpenGateLetsThrough(states, jobs, n, i);
        } else {
          assert Enabled(s, Joined);
        }
      case Closing =>
        CloseNeverBlocks(states, jobs, n);
        if Enabled(s, Close) {
        } else {
          var t :| Enabled(s, Release(t));
        }
    }
  }
}
