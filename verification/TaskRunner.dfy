/**
  The worker pool of src/Generics/TaskRunner.cpp, as the steps its threads take within one
  activation, and what the next activation needs. A section under tasks_lock_ is one step,
  except that a worker's section is split after its termination check, because terminating_
  is set without that lock.
 */
module TaskRunner {

  /** Where a worker is in work(). */
  datatype Worker =
    | Fresh      // created, has not taken the lock yet
    | Holding    // holds tasks_lock_, saw that it is not to terminate
    | Asleep     // inside new_task_ wait
    | Woken      // wait is about to return
    | Executing  // runs a task; counted as unused again only when it next takes the lock
    | Exited

  /** Where a caller of enqueue_task is that wants another thread. */
  datatype Adder =
    | Ready      // before ++adding_thread_
    | Inside     // in add_thread_i_
    | Reserved   // has counted the thread it is about to start
    | Leaving    // before --adding_thread_
    | Finished

  datatype State = State(
    tasks: nat,              // |tasks_|
    max: nat,                // MAX_PENDING_TASKS_, 0 for no limit
    workers: seq<Worker>,
    unused: int,             // number_of_unused_threads_
    waiting: int,            // waiting_threads_
    owed: nat,               // enqueuers that will still signal new_task_
    terminating: bool,
    broadcast: bool,         // terminate() has broadcast
    toStart: nat,            // threads start() has still to create
    adding: int,             // adding_thread_
    adders: seq<Adder>,
    blocked: nat,            // producers asleep in not_full_ wait
    retrying: nat,           // producers whose wait is about to return
    owedRoom: nat,           // workers that will still signal not_full_
    phantoms: int)           // threads counted in `unused` that do not exist

  datatype Step =
    | Start                  // start() creates one of the initial threads
    | Enqueue                // a producer finds room
    | Block                  // a producer finds the queue full and waits
    | GiveUp                 // its wait times out
    | SpuriousRoom           // its wait returns without a signal
    | Retry                  // its wait returned
    | Signal(chosen: nat)    // new_task_.signal()
    | SignalRoom             // not_full_.signal()
    | Enter(w: nat)          // a worker takes the lock
    | Decide(w: nat)         // and pops a task or goes to sleep
    | Spurious(w: nat)
    | Rewake(w: nat)         // a woken worker has the lock again
    | SetTerminating
    | Broadcast
    | Clear
    | TryAdd(a: nat)         // ++adding_thread_
    | Reserve(a: nat)        // the locked section of add_thread_i_
    | Decline(a: nat)        // no thread is running, or all are
    | StartOne(a: nat)
    | StartFails(a: nat)
    | Release(a: nat)        // --adding_thread_

  // ---------------------------------------------------------------- counting

  datatype Kind = IsHolding | IsAsleep | IsWoken | InWait | Counted | Live

  predicate Is(w: Worker, k: Kind)
  {
    match k
    case IsHolding => w.Holding?
    case IsAsleep => w.Asleep?
    case IsWoken => w.Woken?
    case InWait => w.Asleep? || w.Woken?
    case Counted => w.Fresh? || w.Holding? || w.Asleep? || w.Woken?
    case Live => !w.Exited?
  }

  function Tally(ws: seq<Worker>, k: Kind): nat
  {
    if ws == [] then 0 else Tally(ws[..|ws| - 1], k) + if Is(ws[|ws| - 1], k) then 1 else 0
  }

  function One(w: Worker, k: Kind): nat
  {
    if Is(w, k) then 1 else 0
  }

  lemma {:induction false} TallyUpdate(ws: seq<Worker>, i: nat, w: Worker, k: Kind)
    requires i < |ws|
    ensures Tally(ws[i := w], k) == Tally(ws, k) - One(ws[i], k) + One(w, k)
    ensures Tally(ws, k) >= One(ws[i], k)
    decreases |ws|
  {
    var n := |ws| - 1;
    if i < n {
      TallyUpdate(ws[..n], i, w, k);
      assert ws[i := w][..n] == ws[..n][i := w];
    } else {
      assert ws[i := w][..n] == ws[..n];
    }
  }

  lemma TallyAppend(ws: seq<Worker>, w: Worker, k: Kind)
    ensures Tally(ws + [w], k) == Tally(ws, k) + One(w, k)
  {
    assert (ws + [w])[..|ws|] == ws;
  }

  function WakeAll(ws: seq<Worker>): seq<Worker>
  {
    seq(|ws|, i requires 0 <= i < |ws| => if ws[i].Asleep? then Woken else ws[i])
  }

  lemma {:induction false} TallyWakeAll(ws: seq<Worker>)
    ensures Tally(WakeAll(ws), IsAsleep) == 0
    ensures Tally(WakeAll(ws), InWait) == Tally(ws, InWait)
    ensures Tally(WakeAll(ws), Counted) == Tally(ws, Counted)
    ensures Tally(WakeAll(ws), IsHolding) == Tally(ws, IsHolding)
    ensures Tally(WakeAll(ws), Live) == Tally(ws, Live)
    decreases |ws|
  {
    if ws != [] {
      var n := |ws| - 1;
      TallyWakeAll(ws[..n]);
      assert WakeAll(ws)[..n] == WakeAll(ws[..n]);
    }
  }

  lemma {:induction false} TallySums(ws: seq<Worker>)
    ensures Tally(ws, InWait) == Tally(ws, IsAsleep) + Tally(ws, IsWoken)
    ensures Tally(ws, Live) >= Tally(ws, IsAsleep) + Tally(ws, IsWoken) + Tally(ws, IsHolding)
    decreases |ws|
  {
    if ws != [] {
      TallySums(ws[..|ws| - 1]);
    }
  }

  /** Callers between ++adding_thread_ and --adding_thread_, and those of them in add_thread_i_. */
  function Entered(as_: seq<Adder>): nat
  {
    if as_ == [] then 0 else Entered(as_[..|as_| - 1]) + if IsEntered(as_[|as_| - 1]) then 1 else 0
  }

  predicate IsEntered(a: Adder)
  {
    a.Inside? || a.Reserved? || a.Leaving?
  }

  predicate IsIn(a: Adder)
  {
    a.Inside? || a.Reserved?
  }

  lemma {:induction false} EnteredUpdate(as_: seq<Adder>, i: nat, a: Adder)
    requires i < |as_|
    ensures Entered(as_[i := a]) == Entered(as_) - (if IsEntered(as_[i]) then 1 else 0) + if IsEntered(a) then 1 else 0
    ensures IsEntered(as_[i]) ==> Entered(as_) > 0
    decreases |as_|
  {
    var n := |as_| - 1;
    if i < n {
      EnteredUpdate(as_[..n], i, a);
      assert as_[i := a][..n] == as_[..n][i := a];
    } else {
      assert as_[i := a][..n] == as_[..n];
    }
  }

  // ---------------------------------------------------------------- the steps

  predicate Free(s: State)
  {
    forall i :: 0 <= i < |s.workers| ==> !s.workers[i].Holding?
  }

  predicate Full(s: State)
  {
    s.max > 0 && s.tasks >= s.max
  }

  predicate Enabled(s: State, step: Step)
  {
    match step
    case Start => s.toStart > 0
    case Enqueue => Free(s) && !Full(s)
    case Block => Free(s) && Full(s)
    case GiveUp => s.blocked > 0
    case SpuriousRoom => s.blocked > 0
    case Retry => Free(s) && s.retrying > 0
    case Signal(chosen) =>
      && s.owed > 0
      && if chosen < |s.workers| then s.workers[chosen].Asleep?
         else forall i :: 0 <= i < |s.workers| ==> !s.workers[i].Asleep?
    case SignalRoom => s.owedRoom > 0
    case Enter(w) => Free(s) && w < |s.workers| && (s.workers[w].Fresh? || s.workers[w].Executing?)
    case Decide(w) => w < |s.workers| && s.workers[w].Holding?
    case Spurious(w) => w < |s.workers| && s.workers[w].Asleep?
    case Rewake(w) => Free(s) && w < |s.workers| && s.workers[w].Woken?
    case SetTerminating => true
    case Broadcast => Free(s) && s.terminating
    case Clear => Free(s)
    case TryAdd(a) => a < |s.adders| && s.adders[a].Ready?
    case Reserve(a) => Free(s) && a < |s.adders| && s.adders[a].Inside?
    case Decline(a) => a < |s.adders| && s.adders[a].Reserved?
    case StartOne(a) => a < |s.adders| && s.adders[a].Reserved?
    case StartFails(a) => Free(s) && a < |s.adders| && s.adders[a].Reserved?
    case Release(a) => a < |s.adders| && s.adders[a].Leaving?
  }

  /** A task is queued; the producer will signal if a thread waits, and may want to add one. */
  function Push(s: State): State
  {
    s.(tasks := s.tasks + 1,
       owed := s.owed + (if s.waiting > 0 then 1 else 0),
       adders := if s.tasks > s.unused then s.adders + [Ready] else s.adders)
  }

  function SetWorker(s: State, w: nat, pc: Worker): State
    requires w < |s.workers|
  {
    s.(workers := s.workers[w := pc])
  }

  function SetAdder(s: State, a: nat, pc: Adder): State
    requires a < |s.adders|
  {
    s.(adders := s.adders[a := pc])
  }

  function Apply(s: State, step: Step): State
    requires Enabled(s, step)
  {
    match step
    case Start => s.(toStart := s.toStart - 1, workers := s.workers + [Fresh])
    case Enqueue => Push(s)
    case Block => s.(blocked := s.blocked + 1)
    case GiveUp => s.(blocked := s.blocked - 1)
    case SpuriousRoom => s.(blocked := s.blocked - 1, retrying := s.retrying + 1)
    case Retry =>
      if Full(s) then s.(retrying := s.retrying - 1, blocked := s.blocked + 1)
      else Push(s).(retrying := s.retrying - 1)
    case Signal(chosen) =>
      var t := s.(owed := s.owed - 1);
      if chosen < |s.workers| then SetWorker(t, chosen, Woken) else t
    case SignalRoom =>
      if s.blocked > 0 then
        s.(owedRoom := s.owedRoom - 1, blocked := s.blocked - 1, retrying := s.retrying + 1)
      else s.(owedRoom := s.owedRoom - 1)
    case Enter(w) =>
      var unused := s.unused + if s.workers[w].Fresh? then 0 else 1;
      if s.terminating then SetWorker(s, w, Exited).(unused := unused - 1)
      else SetWorker(s, w, Holding).(unused := unused)
    case Decide(w) =>
      if s.tasks == 0 then SetWorker(s, w, Asleep).(waiting := s.waiting + 1)
      else SetWorker(s, w, Executing).(tasks := s.tasks - 1, unused := s.unused - 1,
             owedRoom := s.owedRoom + if s.max > 0 then 1 else 0)
    case Spurious(w) => SetWorker(s, w, Woken)
    case Rewake(w) =>
      if s.terminating then SetWorker(s, w, Exited).(waiting := s.waiting - 1, unused := s.unused - 1)
      else SetWorker(s, w, Holding).(waiting := s.waiting - 1)
    case SetTerminating => s.(terminating := true)
    case Broadcast => s.(workers := WakeAll(s.workers), broadcast := true)
    case Clear => s.(tasks := 0)
    case TryAdd(a) =>
      SetAdder(s, a, if s.adding + 1 == 1 then Inside else Leaving).(adding := s.adding + 1)
    case Reserve(a) =>
      if s.tasks <= s.unused then SetAdder(s, a, Leaving) else SetAdder(s, a, Reserved).(unused := s.unused + 1)
    case Decline(a) => SetAdder(s, a, Leaving).(phantoms := s.phantoms + 1)
    case StartOne(a) => SetAdder(s, a, Leaving).(workers := s.workers + [Fresh])
    case StartFails(a) => SetAdder(s, a, Leaving).(unused := s.unused - 1)
    case Release(a) => SetAdder(s, a, Finished).(adding := s.adding - 1)
  }

  function Init(startThreads: nat, max: nat, created: nat): State
  {
    State(0, max, [], startThreads, 0, 0, false, false, created, 0, [], 0, 0, 0, startThreads - created)
  }

  // ---------------------------------------------------------------- what every step keeps

  /** waiting_threads_ is exact, and a sleeping thread leaves no task unannounced. */
  ghost predicate StrandInv(s: State)
  {
    && s.waiting == Tally(s.workers, InWait)
    && (!s.terminating && Tally(s.workers, IsAsleep) > 0 ==>
          s.tasks <= s.owed + Tally(s.workers, IsWoken) + Tally(s.workers, IsHolding))
    && (s.broadcast ==> s.terminating && Tally(s.workers, IsAsleep) == 0 && Tally(s.workers, IsHolding) == 0)
  }

  /** At most one caller is in add_thread_i_, and adding_thread_ counts those that tried. */
  ghost predicate AdderInv(s: State)
  {
    && s.adding == Entered(s.adders)
    && forall i, j :: 0 <= i < |s.adders| && 0 <= j < |s.adders| && IsIn(s.adders[i]) && IsIn(s.adders[j]) ==> i == j
  }

  ghost function Reservations(as_: seq<Adder>): nat
  {
    if exists i :: 0 <= i < |as_| && as_[i].Reserved? then 1 else 0
  }

  /** What the counter counts: the threads that are not executing, started or about to be, and the phantoms. */
  ghost predicate CounterExact(s: State)
  {
    s.unused == Tally(s.workers, Counted) + Reservations(s.adders) + s.toStart + s.phantoms
  }

  ghost predicate CounterInv(s: State)
  {
    CounterExact(s) && s.phantoms >= 0
  }

  ghost predicate RoomInv(s: State)
  {
    s.max > 0 ==> s.tasks <= s.max
  }

  /** More producers sleep than will be signalled, and those signalled will not fill the queue. */
  predicate Short(s: State)
  {
    s.max > 0 && s.blocked > s.owedRoom && s.tasks + s.owedRoom + s.retrying < s.max
  }

  /** A clear() called now takes more tasks than the wakeups on their way make up for. */
  predicate ClearLeavesShort(s: State)
  {
    s.max > 0 && s.blocked > s.owedRoom && s.owedRoom + s.retrying < s.max
  }

  ghost predicate Inv(s: State)
  {
    StrandInv(s) && AdderInv(s) && CounterInv(s) && RoomInv(s)
  }

  lemma Moved(ws: seq<Worker>, i: nat, w: Worker)
    requires i < |ws|
    ensures forall k ::
              Tally(ws[i := w], k) == Tally(ws, k) - One(ws[i], k) + One(w, k) && Tally(ws, k) >= One(ws[i], k)
  {
    forall k ensures Tally(ws[i := w], k) == Tally(ws, k) - One(ws[i], k) + One(w, k) && Tally(ws, k) >= One(ws[i], k) {
      TallyUpdate(ws, i, w, k);
    }
  }

  lemma Joined(ws: seq<Worker>, w: Worker)
    ensures forall k :: Tally(ws + [w], k) == Tally(ws, k) + One(w, k)
  {
    forall k ensures Tally(ws + [w], k) == Tally(ws, k) + One(w, k) {
      TallyAppend(ws, w, k);
    }
  }

  lemma {:induction false} NoneOfKind(ws: seq<Worker>, k: Kind)
    requires forall i :: 0 <= i < |ws| ==> !Is(ws[i], k)
    ensures Tally(ws, k) == 0
    decreases |ws|
  {
    if ws != [] {
      NoneOfKind(ws[..|ws| - 1], k);
    }
  }

  /** The steps that move one worker. */
  predicate MovesWorker(step: Step)
  {
    step.Enter? || step.Decide? || step.Spurious? || step.Rewake?
  }

  lemma StrandMove(s: State, step: Step)
    requires StrandInv(s) && Enabled(s, step) && MovesWorker(step)
    ensures StrandInv(Apply(s, step))
  {
    hide Tally;
    Moved(s.workers, step.w, Apply(s, step).workers[step.w]);
  }

  lemma StrandSignal(s: State, chosen: nat)
    requires StrandInv(s) && Enabled(s, Signal(chosen))
    ensures StrandInv(Apply(s, Signal(chosen)))
  {
    hide Tally;
    if chosen < |s.workers| {
      Moved(s.workers, chosen, Woken);
    } else {
      NoneOfKind(s.workers, IsAsleep);
    }
  }

  lemma StrandStep(s: State, step: Step)
    requires StrandInv(s) && Enabled(s, step)
    ensures StrandInv(Apply(s, step))
  {
    hide Tally;
    if MovesWorker(step) {
      StrandMove(s, step);
    } else if step.Signal? {
      StrandSignal(s, step.chosen);
    } else {
      TallySums(s.workers);
      Joined(s.workers, Fresh);
      if step.Broadcast? {
        TallyWakeAll(s.workers);
        NoneOfKind(s.workers, IsHolding);
      }
    }
  }

  lemma SameReservations(as_: seq<Adder>, i: nat, a: Adder)
    requires i < |as_|
    requires forall j, k :: 0 <= j < |as_| && 0 <= k < |as_| && IsIn(as_[j]) && IsIn(as_[k]) ==> j == k
    ensures !as_[i].Reserved? && !a.Reserved? ==> Reservations(as_[i := a]) == Reservations(as_)
    ensures as_[i].Reserved? && !a.Reserved? ==> Reservations(as_) == 1 && Reservations(as_[i := a]) == 0
    ensures as_[i].Inside? && a.Reserved? ==> Reservations(as_) == 0 && Reservations(as_[i := a]) == 1
  {
    var bs := as_[i := a];
    if as_[i].Inside? && a.Reserved? {
      assert bs[i].Reserved?;
    }
    if !as_[i].Reserved? && !a.Reserved? {
      if j :| 0 <= j < |as_| && as_[j].Reserved? {
        assert bs[j].Reserved?;
      }
      if j :| 0 <= j < |bs| && bs[j].Reserved? {
        assert as_[j].Reserved?;
      }
    }
  }

  lemma AppendReservations(as_: seq<Adder>)
    ensures Reservations(as_ + [Ready]) == Reservations(as_)
    ensures Entered(as_ + [Ready]) == Entered(as_)
  {
    var bs := as_ + [Ready];
    assert bs[..|as_|] == as_;
    if j :| 0 <= j < |as_| && as_[j].Reserved? {
      assert bs[j].Reserved?;
    }
    if j :| 0 <= j < |bs| && bs[j].Reserved? {
      assert as_[j].Reserved?;
    }
  }

  lemma {:induction false} NobodyEntered(as_: seq<Adder>, i: nat)
    requires Entered(as_) == 0 && i < |as_|
    ensures !IsEntered(as_[i])
  {
    if IsEntered(as_[i]) {
      EnteredUpdate(as_, i, as_[i]);
    }
  }

  /** The steps that move one adder. */
  predicate MovesAdder(step: Step)
  {
    step.TryAdd? || step.Reserve? || step.Decline? || step.StartOne? || step.StartFails? || step.Release?
  }

  lemma AdderEnters(s: State, a: nat)
    requires AdderInv(s) && Enabled(s, TryAdd(a))
    ensures AdderInv(Apply(s, TryAdd(a)))
  {
    hide Entered;
    EnteredUpdate(s.adders, a, Apply(s, TryAdd(a)).adders[a]);
    if s.adding == 0 {
      forall i | 0 <= i < |s.adders| ensures !IsIn(s.adders[i]) {
        NobodyEntered(s.adders, i);
      }
    }
  }

  lemma AdderMove(s: State, step: Step)
    requires AdderInv(s) && Enabled(s, step) && MovesAdder(step) && !step.TryAdd?
    ensures AdderInv(Apply(s, step))
  {
    hide Entered;
    EnteredUpdate(s.adders, step.a, Apply(s, step).adders[step.a]);
  }

  lemma AdderStep(s: State, step: Step)
    requires AdderInv(s) && Enabled(s, step)
    ensures AdderInv(Apply(s, step))
  {
    hide Entered;
    if step.TryAdd? {
      AdderEnters(s, step.a);
    } else if MovesAdder(step) {
      AdderMove(s, step);
    } else {
      AppendReservations(s.adders);
    }
  }

  lemma CounterMove(s: State, step: Step)
    requires CounterExact(s) && Enabled(s, step) && MovesWorker(step)
    ensures CounterExact(Apply(s, step))
  {
    hide Tally, Reservations;
    Moved(s.workers, step.w, Apply(s, step).workers[step.w]);
  }

  lemma CounterAdder(s: State, step: Step)
    requires CounterExact(s) && AdderInv(s) && Enabled(s, step) && MovesAdder(step)
    ensures CounterExact(Apply(s, step))
  {
    hide Tally, Reservations, Entered;
    SameReservations(s.adders, step.a, Apply(s, step).adders[step.a]);
    Joined(s.workers, Fresh);
  }

  /** Every step keeps the count exact; a phantom is made by declining to start a counted thread, and never goes. */
  lemma CounterStep(s: State, step: Step)
    requires CounterExact(s) && AdderInv(s) && Enabled(s, step)
    ensures CounterExact(Apply(s, step))
    ensures Apply(s, step).phantoms == s.phantoms + if step.Decline? then 1 else 0
  {
    hide Tally, Reservations, Entered;
    if MovesWorker(step) {
      CounterMove(s, step);
    } else if MovesAdder(step) {
      CounterAdder(s, step);
    } else {
      Joined(s.workers, Fresh);
      AppendReservations(s.adders);
      if step.Broadcast? {
        TallyWakeAll(s.workers);
      }
      if step.Signal? && step.chosen < |s.workers| {
        Moved(s.workers, step.chosen, Woken);
      }
    }
  }

  lemma RoomStep(s: State, step: Step)
    requires RoomInv(s) && Enabled(s, step)
    ensures RoomInv(Apply(s, step))
  {
  }

  /** Only clear() can leave producers short, and does exactly under its condition. */
  lemma ShortStep(s: State, step: Step)
    requires Enabled(s, step)
    ensures !Short(s) && Short(Apply(s, step)) ==> step.Clear?
    ensures step.Clear? ==> (Short(Apply(s, step)) <==> ClearLeavesShort(s))
  {
  }

  // ---------------------------------------------------------------- whole runs

  ghost predicate Follows(s: State, t: State)
  {
    exists step :: Enabled(s, step) && t == Apply(s, step)
  }

  /** The states of an interleaving. `created` is what start() makes of start_threads. */
  ghost predicate IsRun(states: seq<State>, startThreads: nat, max: nat, created: nat)
  {
    && states != [] && created <= startThreads
    && states[0] == Init(startThreads, max, created)
    && forall i :: 0 < i < |states| ==> Follows(states[i - 1], states[i])
  }

  /** The states of an interleaving that starts in `from`. */
  ghost predicate IsPath(states: seq<State>, from: State)
  {
    && states != [] && states[0] == from
    && forall i :: 0 < i < |states| ==> Follows(states[i - 1], states[i])
  }

  lemma StepKeepsInv(s: State, t: State)
    requires Inv(s) && Follows(s, t)
    ensures Inv(t)
  {
    hide StrandInv, AdderInv, RoomInv, CounterExact, Enabled, Apply;
    var step :| Enabled(s, step) && t == Apply(s, step);
    StrandStep(s, step);
    AdderStep(s, step);
    CounterStep(s, step);
    RoomStep(s, step);
  }

  lemma {:induction false} PathKeepsInv(states: seq<State>, from: State, n: nat)
    requires IsPath(states, from) && Inv(from) && n < |states|
    ensures Inv(states[n])
    decreases n
  {
    if n > 0 {
      hide Inv, Follows;
      PathKeepsInv(states, from, n - 1);
      StepKeepsInv(states[n - 1], states[n]);
    }
  }

  lemma RunKeepsInv(states: seq<State>, startThreads: nat, max: nat, created: nat, n: nat)
    requires IsRun(states, startThreads, max, created) && n < |states|
    ensures Inv(states[n])
  {
    hide Follows;
    PathKeepsInv(states, Init(startThreads, max, created), n);
  }

  /**
    With a live worker, a queued task and every live worker asleep, somebody still owes the
    signal: an enqueuer, or terminate() between setting the flag and its broadcast.
   */
  lemma NoStrandedTask(states: seq<State>, startThreads: nat, max: nat, created: nat, n: nat)
    requires IsRun(states, startThreads, max, created) && n < |states|
    ensures var s := states[n];
            s.tasks > 0 && 0 < Tally(s.workers, Live) == Tally(s.workers, IsAsleep) ==>
              s.owed > 0 || (s.terminating && !s.broadcast)
  {
    RunKeepsInv(states, startThreads, max, created, n);
    TallySums(states[n].workers);
  }

  /** Once terminate() has broadcast, no worker is asleep in any later state. */
  lemma NoSleepAfterBroadcast(states: seq<State>, startThreads: nat, max: nat, created: nat, m: nat, n: nat)
    requires IsRun(states, startThreads, max, created) && m <= n < |states| && states[m].broadcast
    ensures states[n].broadcast && Tally(states[n].workers, IsAsleep) == 0
  {
    RunKeepsInv(states, startThreads, max, created, n);
    BroadcastStays(states, m, n);
  }

  lemma {:induction false} BroadcastStays(states: seq<State>, m: nat, n: nat)
    requires m <= n < |states| && states[m].broadcast
    requires forall i :: 0 < i < |states| ==> Follows(states[i - 1], states[i])
    ensures states[n].broadcast
    decreases n
  {
    hide Follows, Enabled, Apply;
    if m < n {
      BroadcastStays(states, m, n - 1);
      BroadcastStep(states[n - 1], states[n]);
    }
  }

  lemma BroadcastStep(s: State, t: State)
    requires Follows(s, t) && s.broadcast
    ensures t.broadcast
  {
    var step :| Enabled(s, step) && t == Apply(s, step);
    hide Enabled, WakeAll, Full, Follows;
    if MovesWorker(step) {
      assert Apply(s, step).broadcast;
    } else if MovesAdder(step) {
      assert Apply(s, step).broadcast;
    }
  }

  /** Neither the assertion before a decrement nor an unsigned counter can fail. */
  lemma CountersNeverUnderflow(states: seq<State>, startThreads: nat, max: nat, created: nat, n: nat, step: Step)
    requires IsRun(states, startThreads, max, created) && n < |states| && Enabled(states[n], step)
    ensures var s := states[n];
            && s.unused >= Tally(s.workers, Counted)
            && s.waiting == Tally(s.workers, InWait)
            && s.unused >= 0 && s.waiting >= 0 && s.adding >= 0
            && (step.Decide? && s.tasks > 0 ==> s.unused > 0)
            && (step.Enter? && s.terminating ==> s.unused + (if s.workers[step.w].Fresh? then 0 else 1) > 0)
            && (step.Rewake? ==> s.waiting > 0 && s.unused > 0)
            && (step.StartFails? ==> s.unused > 0)
            && (step.Release? ==> s.adding > 0)
  {
    RunKeepsInv(states, startThreads, max, created, n);
    var s := states[n];
    match step {
      case Decide(w) => Moved(s.workers, w, Executing);
      case Enter(w) => Moved(s.workers, w, Exited);
      case Rewake(w) => Moved(s.workers, w, Exited);
      case Release(a) => EnteredUpdate(s.adders, a, Finished);
      case _ =>
    }
  }

  lemma OneAdderAtATime(states: seq<State>, startThreads: nat, max: nat, created: nat, n: nat, i: nat, j: nat)
    requires IsRun(states, startThreads, max, created) && n < |states|
    requires i < |states[n].adders| && j < |states[n].adders| && IsIn(states[n].adders[i]) && IsIn(states[n].adders[j])
    ensures i == j
  {
    RunKeepsInv(states, startThreads, max, created, n);
  }

  /** A producer sleeps beside a queue with room, and no wakeup is coming. */
  predicate ProducerStranded(s: State)
  {
    s.max > 0 && s.blocked > 0 && s.tasks < s.max && s.owedRoom + s.retrying == 0
  }

  /** From step i to state n, more producers sleep than will be signalled. */
  ghost predicate ShortSince(states: seq<State>, i: nat, n: nat)
    requires i <= n < |states|
  {
    forall j :: i < j <= n ==> Short(states[j])
  }

  /** That happens only after a clear() that left producers short, and while the shortage lasts. */
  lemma NoStrandedProducer(states: seq<State>, startThreads: nat, max: nat, created: nat, n: nat)
    requires IsRun(states, startThreads, max, created) && n < |states| && ProducerStranded(states[n])
    ensures exists i :: 0 <= i < n && IsClear(states[i], states[i + 1]) && ClearLeavesShort(states[i])
                        && ShortSince(states, i, n)
  {
    ShortNeedsClear(states, startThreads, max, created, n);
  }

  lemma {:induction false} ShortNeedsClear(states: seq<State>, startThreads: nat, max: nat, created: nat, n: nat)
    requires IsRun(states, startThreads, max, created) && n < |states| && Short(states[n])
    ensures exists i :: 0 <= i < n && IsClear(states[i], states[i + 1]) && ClearLeavesShort(states[i])
                        && ShortSince(states, i, n)
    decreases n
  {
    ShortIsLater(states, startThreads, max, created, n);
    hide IsRun, Follows, Short, ClearLeavesShort, IsClear;
    var i := n - 1;
    if Short(states[i]) {
      ShortNeedsClear(states, startThreads, max, created, i);
      var k :| 0 <= k < i && IsClear(states[k], states[k + 1]) && ClearLeavesShort(states[k])
               && ShortSince(states, k, i);
      assert ShortSince(states, k, n);
    } else {
      ShortFromClear(states[i], states[i + 1]);
      assert ShortSince(states, i, n);
    }
  }

  lemma ShortIsLater(states: seq<State>, startThreads: nat, max: nat, created: nat, n: nat)
    requires IsRun(states, startThreads, max, created) && n < |states| && Short(states[n])
    ensures n > 0 && Follows(states[n - 1], states[n])
  {
    hide Follows;
  }

  lemma ShortFromClear(s: State, t: State)
    requires Follows(s, t) && !Short(s) && Short(t)
    ensures IsClear(s, t) && ClearLeavesShort(s)
  {
    var step :| Enabled(s, step) && t == Apply(s, step);
    ShortStep(s, step);
    hide Enabled, Apply;
  }

  ghost predicate IsClear(s: State, t: State)
  {
    Enabled(s, Clear) && t == Apply(s, Clear)
  }

  // ---------------------------------------------------------------- the limits of these results

  /** clear() makes room without telling the producers that wait for it. */
  lemma ClearStrandsProducers() returns (states: seq<State>)
    ensures IsRun(states, 1, 1, 1) && states != []
    ensures ProducerStranded(Last(states))
  {
    states := [Init(1, 1, 1)];
    assert IsRun(states, 1, 1, 1);
    hide IsRun;
    states := Extend(states, 1, 1, 1, Enqueue);
    states := Extend(states, 1, 1, 1, Block);
    states := Extend(states, 1, 1, 1, Clear);
  }

  /** Between the flag and the broadcast a woken worker may leave its task behind a sleeping one. */
  lemma TerminationWindow() returns (states: seq<State>)
    ensures IsRun(states, 2, 0, 2) && states != []
    ensures var s := Last(states);
            && s.tasks > 0 && s.owed == 0 && !s.broadcast
            && 0 < Tally(s.workers, Live) == Tally(s.workers, IsAsleep)
  {
    states := OneWoken();
    hide IsRun, Tally;
    states := Extend(states, 2, 0, 2, SetTerminating);
    states := Extend(states, 2, 0, 2, Rewake(0));
    assert Last(states).workers == [Exited, Asleep];
    LeftBehind();
  }

  lemma OneWoken() returns (states: seq<State>)
    ensures IsRun(states, 2, 0, 2) && states != []
    ensures Last(states) == Init(2, 0, 2).(toStart := 0, workers := [Woken, Asleep], waiting := 2, tasks := 1)
  {
    states := BothAsleep();
    TaskWakes(Last(states));
    hide IsRun, Enabled, Apply;
    states := Extend(states, 2, 0, 2, Enqueue);
    states := Extend(states, 2, 0, 2, Signal(0));
  }

  lemma TaskWakes(s: State)
    requires s.workers == [Asleep, Asleep] && s.waiting == 2
    requires s.tasks == 0 && s.max == 0 && s.unused >= 0 && s.owed == 0
    ensures Enabled(s, Enqueue) && Enabled(Apply(s, Enqueue), Signal(0))
    ensures Apply(Apply(s, Enqueue), Signal(0)) == s.(workers := [Woken, Asleep], tasks := 1)
  {
    assert Free(s);
    var a := s.(tasks := 1, owed := 1);
    assert Apply(s, Enqueue) == a;
    assert [Asleep, Asleep][0 := Woken] == [Woken, Asleep];
    assert Apply(a, Signal(0)) == a.(workers := [Woken, Asleep], owed := 0);
  }

  lemma LeftBehind()
    ensures Tally([Exited, Asleep], Live) == 1 && Tally([Exited, Asleep], IsAsleep) == 1
  {
    assert [Exited, Asleep][..1] == [Exited] && [Exited][..0] == [];
  }

  lemma BothAsleep() returns (states: seq<State>)
    ensures IsRun(states, 2, 0, 2) && states != []
    ensures Last(states) == Init(2, 0, 2).(toStart := 0, workers := [Asleep, Asleep], waiting := 2)
  {
    states := OneAsleep();
    hide IsRun;
    states := Extend(states, 2, 0, 2, Enter(1));
    states := Extend(states, 2, 0, 2, Decide(1));
  }

  lemma OneAsleep() returns (states: seq<State>)
    ensures IsRun(states, 2, 0, 2) && states != []
    ensures Last(states) == Init(2, 0, 2).(toStart := 0, workers := [Asleep, Fresh], waiting := 1)
  {
    states := [Init(2, 0, 2)];
    assert IsRun(states, 2, 0, 2);
    hide IsRun;
    states := Extend(states, 2, 0, 2, Start);
    states := Extend(states, 2, 0, 2, Start);
    assert Last(states).workers == [Fresh, Fresh];
    states := Extend(states, 2, 0, 2, Enter(0));
    states := Extend(states, 2, 0, 2, Decide(0));
  }

  ghost function Last(states: seq<State>): State
    requires states != []
  {
    states[|states| - 1]
  }

  lemma ExtendPath(states: seq<State>, from: State, step: Step) returns (more: seq<State>)
    requires IsPath(states, from) && Enabled(Last(states), step)
    ensures IsPath(more, from) && more != [] && Last(more) == Apply(Last(states), step)
  {
    hide Enabled, Apply;
    more := states + [Apply(Last(states), step)];
    forall i | 0 < i < |more| ensures Follows(more[i - 1], more[i]) {
      if i < |states| {
        assert Follows(states[i - 1], states[i]);
      } else {
        assert Follows(Last(states), Apply(Last(states), step));
      }
    }
  }

  lemma Extend(states: seq<State>, startThreads: nat, max: nat, created: nat, step: Step) returns (more: seq<State>)
    requires IsRun(states, startThreads, max, created) && Enabled(Last(states), step)
    ensures IsRun(more, startThreads, max, created) && more != [] && Last(more) == Apply(Last(states), step)
  {
    hide Enabled, Apply, Follows;
    more := ExtendPath(states, Init(startThreads, max, created), step);
  }

  /** deactivate, wait and activate again: new threads, old counters. */
  ghost function Reactivated(s: State, created: nat): State
  {
    s.(workers := [], terminating := false, broadcast := false, toStart := created,
       phantoms := s.unused - Reservations(s.adders) - created)
  }

  predicate AllExited(s: State)
  {
    forall i :: 0 <= i < |s.workers| ==> s.workers[i].Exited?
  }

  /** The worker is about to meet assert(number_of_unused_threads_ > 0), and it does not hold. */
  predicate AssertionFails(s: State, w: nat)
  {
    Enabled(s, Decide(w)) && s.tasks > 0 && s.unused <= 0
  }

  lemma ReactivatedInv(s: State, created: nat)
    requires Inv(s) && AllExited(s) && s.unused >= created + Reservations(s.adders)
    ensures Inv(Reactivated(s, created))
  {
    NoneOfKind(s.workers, InWait);
  }

  lemma NeverFails(s: State, w: nat)
    requires Inv(s)
    ensures !AssertionFails(s, w)
  {
    if Enabled(s, Decide(w)) {
      Moved(s.workers, w, Executing);
    }
  }

  /** A thread is started, from start() or by an adder. */
  lemma Arrives(states: seq<State>, from: State) returns (more: seq<State>)
    requires IsPath(states, from)
    requires var s := Last(states); s.toStart + Reservations(s.adders) > 0
    ensures IsPath(more, from) && more != []
    ensures var s, t := Last(states), Last(more);
            && t == s.(workers := s.workers + [Fresh], toStart := t.toStart, adders := t.adders)
            && (s.toStart > 0 ==> t.toStart == s.toStart - 1 && t.adders == s.adders)
  {
    var s := Last(states);
    if s.toStart > 0 {
      hide IsPath, Reservations;
      more := ExtendPath(states, from, Start);
    } else {
      var a := Reserver(s.adders);
      hide IsPath, Reservations;
      more := ExtendPath(states, from, StartOne(a));
    }
  }

  /** There is a task, queued now if need be. */
  lemma GetsTask(states: seq<State>, from: State) returns (more: seq<State>)
    requires IsPath(states, from) && Free(Last(states))
    ensures IsPath(more, from) && more != []
    ensures var s, t := Last(states), Last(more);
            && t.tasks > 0 && t.workers == s.workers && t.unused == s.unused && t.toStart == s.toStart
            && t.terminating == s.terminating && Reservations(t.adders) == Reservations(s.adders)
  {
    more := states;
    var s := Last(states);
    if s.tasks == 0 {
      AppendReservations(s.adders);
      hide IsPath, Reservations;
      more := ExtendPath(states, from, Enqueue);
    }
  }

  /** A new thread takes the lock and finds a task. */
  lemma Newcomer(states: seq<State>, from: State) returns (more: seq<State>, w: nat)
    requires IsPath(states, from)
    requires var s := Last(states); Free(s) && !s.terminating && s.toStart + Reservations(s.adders) > 0
    ensures IsPath(more, from) && more != []
    ensures var s, t := Last(states), Last(more);
            && Enabled(t, Decide(w)) && t.tasks > 0 && t.unused == s.unused && !t.terminating
            && (forall i :: 0 <= i < |t.workers| && i != w ==> !t.workers[i].Holding?)
            && (s.toStart > 0 ==> t.toStart == s.toStart - 1 && Reservations(t.adders) == Reservations(s.adders))
  {
    var s := Last(states);
    hide IsPath, Reservations;
    w := |s.workers|;
    more := Arrives(states, from);
    assert Free(Last(more));
    more := GetsTask(more, from);
    assert Last(more).workers == s.workers + [Fresh];
    more := ExtendPath(more, from, Enter(w));
  }

  lemma Reserver(as_: seq<Adder>) returns (a: nat)
    requires Reservations(as_) > 0
    ensures a < |as_| && as_[a].Reserved?
  {
    a :| a < |as_| && as_[a].Reserved?;
  }

  /** With more threads to come than the counter says, some thread meets a counter of 0. */
  lemma {:induction false} TooManyThreads(states: seq<State>, from: State) returns (more: seq<State>, w: nat)
    requires IsPath(states, from)
    requires var s := Last(states); Free(s) && !s.terminating && 0 <= s.unused < s.toStart + Reservations(s.adders)
    ensures IsPath(more, from) && more != [] && AssertionFails(Last(more), w)
    decreases Last(states).unused
  {
    var s := Last(states);
    hide IsPath, Reservations;
    more, w := Newcomer(states, from);
    if Last(more).unused > 0 {
      AtMostOne(s.adders);
      more := ExtendPath(more, from, Decide(w));
      more, w := TooManyThreads(more, from);
    }
  }

  lemma AtMostOne(as_: seq<Adder>)
    ensures Reservations(as_) <= 1
  {
  }

  /**
    started() does not set number_of_unused_threads_ again, so an activation after the first
    is free of the failing assertion, whatever the interleaving, exactly if the counter
    still covers the threads it creates and those an adder is about to start.
   */
  lemma ReactivationNeedsCounter(s: State, created: nat)
    requires Inv(s) && AllExited(s)
    ensures (forall states, w :: IsPath(states, Reactivated(s, created)) ==> !AssertionFails(Last(states), w))
            <==> s.unused >= created + Reservations(s.adders)
  {
    var from := Reactivated(s, created);
    if s.unused >= created + Reservations(s.adders) {
      ReactivatedInv(s, created);
      hide Reactivated, Inv, AssertionFails;
      forall states, w | IsPath(states, from) ensures !AssertionFails(Last(states), w) {
        PathKeepsInv(states, from, |states| - 1);
        NeverFails(Last(states), w);
      }
    } else {
      var states := [from];
      assert IsPath(states, from) && Last(states) == from;
      var more, w := TooManyThreads(states, from);
      assert IsPath(more, from) && AssertionFails(Last(more), w);
    }
  }

  lemma OneActivation() returns (states: seq<State>)
    ensures IsRun(states, 1, 0, 1) && states != []
    ensures Last(states) == Init(1, 0, 1).(toStart := 0, workers := [Exited], unused := 0, terminating := true)
  {
    states := [Init(1, 0, 1)];
    assert IsRun(states, 1, 0, 1);
    hide IsRun;
    OneThread(Init(1, 0, 1));
    hide Init, Enabled, Apply;
    states := Extend(states, 1, 0, 1, Start);
    states := Extend(states, 1, 0, 1, SetTerminating);
    states := Extend(states, 1, 0, 1, Enter(0));
  }

  /** The only thread is started, and finds when it takes the lock that it is to terminate. */
  lemma OneThread(s: State)
    requires s.workers == [] && s.toStart == 1 && !s.terminating
    ensures Enabled(s, Start)
    ensures var a := Apply(s, Start); Enabled(a, SetTerminating)
    ensures var b := Apply(Apply(s, Start), SetTerminating); Enabled(b, Enter(0))
    ensures Apply(Apply(Apply(s, Start), SetTerminating), Enter(0)) ==
            s.(toStart := 0, workers := [Exited], unused := s.unused - 1, terminating := true)
  {
    var a := s.(toStart := 0, workers := [Fresh]);
    assert Apply(s, Start) == a;
    var b := a.(terminating := true);
    assert Apply(a, SetTerminating) == b;
    assert Free(b) && [Fresh][0 := Exited] == [Exited];
    assert Apply(b, Enter(0)) == b.(workers := [Exited], unused := b.unused - 1);
  }

  /** After one plain activation with one thread it does not, and the assertion fails. */
  lemma SecondActivationFails() returns (first: seq<State>, second: seq<State>)
    ensures IsRun(first, 1, 0, 1) && first[|first| - 1].workers == [Exited]
    ensures second != [] && second[0] == Reactivated(first[|first| - 1], 1)
    ensures forall i :: 0 < i < |second| ==> Follows(second[i - 1], second[i])
    ensures var s := second[|second| - 1]; Enabled(s, Decide(0)) && s.tasks > 0 && s.unused == 0
  {
    first := OneActivation();
    hide IsRun;
    var t0 := Reactivated(Last(first), 1);
    var t1 := Apply(t0, Start);
    var t2 := Apply(t1, Enqueue);
    var t3 := Apply(t2, Enter(0));
    assert Follows(t0, t1) && Follows(t1, t2) && Follows(t2, t3);
    second := [t0, t1, t2, t3];
  }

  // ---------------------------------------------------------------- what one clear() does

  /** A step that is not a clear(). */
  ghost predicate FollowsQuietly(s: State, t: State)
  {
    exists step :: Enabled(s, step) && !step.Clear? && t == Apply(s, step)
  }

  ghost predicate IsQuietPath(states: seq<State>, from: State)
  {
    && states != [] && states[0] == from
    && forall i :: 0 < i < |states| ==> FollowsQuietly(states[i - 1], states[i])
  }

  lemma ExtendQuietly(states: seq<State>, from: State, step: Step) returns (more: seq<State>)
    requires IsQuietPath(states, from) && Enabled(Last(states), step) && !step.Clear?
    ensures IsQuietPath(more, from) && more != [] && Last(more) == Apply(Last(states), step)
  {
    hide Enabled, Apply;
    more := states + [Apply(Last(states), step)];
    forall i | 0 < i < |more| ensures FollowsQuietly(more[i - 1], more[i]) {
      if i < |states| {
        assert FollowsQuietly(states[i - 1], states[i]);
      } else {
        assert FollowsQuietly(Last(states), Apply(Last(states), step));
      }
    }
  }

  lemma QuietStep(s: State, t: State)
    requires FollowsQuietly(s, t) && !Short(s)
    ensures !Short(t)
  {
    var step :| Enabled(s, step) && !step.Clear? && t == Apply(s, step);
    hide Enabled, Apply, Short;
    ShortStep(s, step);
  }

  lemma {:induction false} NeverShortQuietly(states: seq<State>, from: State, n: nat)
    requires IsQuietPath(states, from) && !Short(from) && n < |states|
    ensures !Short(states[n])
    decreases n
  {
    hide FollowsQuietly, Short;
    if n > 0 {
      NeverShortQuietly(states, from, n - 1);
      QuietStep(states[n - 1], states[n]);
    }
  }

  /** The signals on their way are used up, and then the woken producers queue their tasks. */
  lemma {:induction false} WakeupsRunOut(states: seq<State>, from: State) returns (more: seq<State>)
    requires IsQuietPath(states, from) && Free(Last(states)) && Short(Last(states))
    ensures IsQuietPath(more, from) && more != [] && ProducerStranded(Last(more))
    decreases Last(states).owedRoom, Last(states).retrying
  {
    var s := Last(states);
    hide IsQuietPath;
    if s.owedRoom > 0 {
      more := ExtendQuietly(states, from, SignalRoom);
      more := WakeupsRunOut(more, from);
    } else if s.retrying > 0 {
      more := ExtendQuietly(states, from, Retry);
      more := WakeupsRunOut(more, from);
    } else {
      more := states;
    }
  }

  /**
    A clear() can strand a producer, with no other clear() after it, exactly if more
    producers sleep than will be signalled and the wakeups on their way do not fill the queue.
   */
  lemma ClearStrandsExactly(s: State)
    requires Enabled(s, Clear)
    ensures (exists states :: IsQuietPath(states, Apply(s, Clear)) && ProducerStranded(Last(states)))
            <==> ClearLeavesShort(s)
  {
    var from := Apply(s, Clear);
    ShortStep(s, Clear);
    if ClearLeavesShort(s) {
      assert IsQuietPath([from], from) && Last([from]) == from && Free(from);
      var more := WakeupsRunOut([from], from);
    } else {
      forall states | IsQuietPath(states, from) ensures !ProducerStranded(Last(states)) {
        NeverShortQuietly(states, from, |states| - 1);
      }
    }
  }

  // ---------------------------------------------------------------- which step strands a task

  /** There is a task, every live worker is asleep, and no enqueuer owes a signal. */
  ghost predicate TaskStranded(s: State)
  {
    s.tasks > 0 && 0 < Tally(s.workers, Live) == Tally(s.workers, IsAsleep) && s.owed == 0
  }

  /** The worker goes although it is the only one awake, and leaves a task to the sleepers. */
  ghost predicate LastAwakeLeaves(s: State, step: Step)
  {
    && (step.Enter? || step.Rewake?) && s.terminating && s.tasks > 0 && s.owed == 0
    && 0 < Tally(s.workers, IsAsleep) == Tally(s.workers, Live) - 1
  }

  lemma StrandedByMove(s: State, step: Step)
    requires Inv(s) && Enabled(s, step) && MovesWorker(step) && !TaskStranded(s)
    ensures TaskStranded(Apply(s, step)) <==> LastAwakeLeaves(s, step)
  {
    hide Tally, AdderInv, CounterExact, RoomInv, Free;
    Moved(s.workers, step.w, Apply(s, step).workers[step.w]);
    TallySums(s.workers);
    TallySums(Apply(s, step).workers);
  }

  lemma StrandedByOther(s: State, step: Step)
    requires Inv(s) && Enabled(s, step) && !MovesWorker(step) && !TaskStranded(s)
    ensures !TaskStranded(Apply(s, step))
  {
    hide Tally, AdderInv, CounterExact, RoomInv, Free;
    TallySums(s.workers);
    Joined(s.workers, Fresh);
    if step.Broadcast? {
      TallyWakeAll(s.workers);
    }
    if step.Signal? {
      if step.chosen < |s.workers| {
        Moved(s.workers, step.chosen, Woken);
      } else {
        NoneOfKind(s.workers, IsAsleep);
      }
    }
  }

  /**
    A task becomes stranded exactly when, after terminate() set its flag and before it
    broadcasts, the only worker awake takes the lock and leaves.
   */
  lemma StrandedExactly(s: State, step: Step)
    requires Inv(s) && Enabled(s, step) && !TaskStranded(s)
    ensures TaskStranded(Apply(s, step)) <==> LastAwakeLeaves(s, step)
    ensures TaskStranded(Apply(s, step)) ==> s.terminating && !s.broadcast
  {
    if MovesWorker(step) {
      StrandedByMove(s, step);
    } else {
      StrandedByOther(s, step);
    }
    hide Tally, Enabled, Apply;
  }
}
