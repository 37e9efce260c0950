/**
  The scheduler of src/Generics/Scheduler.cpp: clients put goals into a list kept in time
  order, and one worker delivers them. Each step below is a section that runs under the
  job's mutex, or one that touches only the worker's own variables, so that a run is any
  interleaving of them. Times are microseconds; clock readings are arbitrary.
 */
module Planner {
  import opened Wrappers

  /** A queued message. `id` tells apart messages with the same goal and time. */
  datatype Message = Message(id: nat, goal: int, time: int)

  // ---------------------------------------------------------------- the message list

  ghost predicate Sorted(ms: seq<Message>)
  {
    forall i, j :: 0 <= i < j < |ms| ==> ms[i].time <= ms[j].time
  }

  /** Where schedule() puts a message: after the last one that is strictly earlier. */
  function Place(ms: seq<Message>, time: int): (k: nat)
    ensures k <= |ms|
    ensures k > 0 ==> ms[k - 1].time < time
    ensures forall j :: k <= j < |ms| ==> ms[j].time >= time
  {
    if ms == [] then 0
    else if ms[|ms| - 1].time < time then |ms|
    else Place(ms[..|ms| - 1], time)
  }

  function Inserted(ms: seq<Message>, m: Message): seq<Message>
  {
    var k := Place(ms, m.time);
    ms[..k] + [m] + ms[k..]
  }

  function WithoutGoal(ms: seq<Message>, goal: int): seq<Message>
  {
    if ms == [] then []
    else (if ms[0].goal == goal then [] else [ms[0]]) + WithoutGoal(ms[1..], goal)
  }

  function WithGoal(ms: seq<Message>, goal: int): seq<Message>
  {
    if ms == [] then []
    else (if ms[0].goal == goal then [ms[0]] else []) + WithGoal(ms[1..], goal)
  }

  /** The delivery time of a message, brought forward by the measured delay. */
  function Adjusted(time: int, shift: Option<int>): int
  {
    if shift.None? then time else if time > shift.value then time - shift.value else 0
  }

  /** How many messages at the front are due. */
  function Due(ms: seq<Message>, shift: Option<int>, now: int): (k: nat)
    ensures k <= |ms|
    ensures forall j :: 0 <= j < k ==> Adjusted(ms[j].time, shift) <= now
    ensures k < |ms| ==> Adjusted(ms[k].time, shift) > now
  {
    if ms == [] || Adjusted(ms[0].time, shift) > now then 0 else 1 + Due(ms[1..], shift, now)
  }

  lemma InsertedKeepsOrder(ms: seq<Message>, m: Message)
    requires Sorted(ms)
    ensures Sorted(Inserted(ms, m))
  {
    var k := Place(ms, m.time);
    forall i | 0 <= i < k ensures ms[i].time < m.time {
      assert ms[i].time <= ms[k - 1].time;
    }
    hide Place;
    InsertedAt(ms, m, k);
  }

  lemma InsertedAt(ms: seq<Message>, m: Message, k: nat)
    requires Sorted(ms) && k <= |ms|
    requires (forall i :: 0 <= i < k ==> ms[i].time < m.time) && forall j :: k <= j < |ms| ==> ms[j].time >= m.time
    ensures Sorted(ms[..k] + [m] + ms[k..])
  {
  }

  lemma InsertedIsAdded(ms: seq<Message>, m: Message)
    ensures multiset(Inserted(ms, m)) == multiset(ms) + multiset{m}
  {
    var k := Place(ms, m.time);
    assert ms == ms[..k] + ms[k..];
  }

  /** unschedule() takes exactly the messages of the goal. */
  lemma {:induction false} GoalSplit(ms: seq<Message>, goal: int)
    ensures multiset(ms) == multiset(WithoutGoal(ms, goal)) + multiset(WithGoal(ms, goal))
    ensures forall m :: m in WithoutGoal(ms, goal) <==> m in ms && m.goal != goal
  {
    if ms != [] {
      GoalSplit(ms[1..], goal);
      assert ms == [ms[0]] + ms[1..];
    }
  }

  lemma {:induction false} GoalKeepsOrder(ms: seq<Message>, goal: int)
    requires Sorted(ms)
    ensures Sorted(WithoutGoal(ms, goal))
  {
    if ms != [] {
      GoalKeepsOrder(ms[1..], goal);
      GoalSplit(ms[1..], goal);
      var r := WithoutGoal(ms[1..], goal);
      forall i | 0 <= i < |r| ensures ms[0].time <= r[i].time {
        assert r[i] in ms[1..];
      }
    }
  }

  // ---------------------------------------------------------------- the loops on the list

  class PlannerJob {
    var messages: seq<Message>
    var haveNewEvents: bool

    /** schedule(): `signal` says that the worker has to be woken. */
    method Schedule(m: Message) returns (signal: bool)
      modifies this
      ensures messages == Inserted(old(messages), m)
      ensures signal <==> Place(old(messages), m.time) == 0
      ensures haveNewEvents == (old(haveNewEvents) || signal)
    {
      var itor := |messages|;
      assert messages[..itor] == messages;
      while itor != 0
        invariant itor <= |messages|
        invariant Place(messages, m.time) == Place(messages[..itor], m.time)
      {
        itor := itor - 1;
        assert messages[..itor + 1][..itor] == messages[..itor];
        if messages[itor].time < m.time {
          itor := itor + 1;
          break;
        }
      }
      signal := itor == 0;
      messages := messages[..itor] + [m] + messages[itor..];
      if signal {
        haveNewEvents := true;
      }
    }

    method Unschedule(goal: int) returns (removed: nat)
      modifies this`messages
      ensures messages == WithoutGoal(old(messages), goal)
      ensures removed == |WithGoal(old(messages), goal)|
    {
      var itor := 0;
      removed := 0;
      ghost var all := messages;
      while itor < |messages|
        invariant itor <= |messages|
        invariant WithoutGoal(all, goal) == messages[..itor] + WithoutGoal(messages[itor..], goal)
        invariant |WithGoal(all, goal)| == removed + |WithGoal(messages[itor..], goal)|
        decreases |messages| - itor
      {
        ghost var rest := messages[itor..];
        assert rest[1..] == messages[itor + 1..];
        if messages[itor].goal == goal {
          messages := messages[..itor] + messages[itor + 1..];
          assert messages[itor..] == rest[1..];
          removed := removed + 1;
        } else {
          assert messages[..itor + 1] == messages[..itor] + [messages[itor]];
          itor := itor + 1;
        }
      }
      assert messages[..itor] == messages;
    }

    /** Moves overdue messages to the pending list and finds the next deadline. */
    method Pump(shift: Option<int>, now: int) returns (pending: seq<Message>, deadline: Option<int>)
      modifies this`messages
      ensures var k := Due(old(messages), shift, now);
              && pending == old(messages)[..k] && messages == old(messages)[k..]
              && deadline == if messages == [] then None else Some(Adjusted(messages[0].time, shift))
    {
      hide Adjusted;
      pending, deadline := [], None;
      ghost var all := messages;
      while messages != []
        invariant |pending| <= |all| && pending == all[..|pending|] && messages == all[|pending|..] && deadline == None
        invariant Due(all, shift, now) == |pending| + Due(messages, shift, now)
        decreases |messages|
      {
        var time := Adjusted(messages[0].time, shift);
        if time <= now {
          pending := pending + [messages[0]];
          messages := messages[1..];
        } else {
          deadline := Some(time);
          break;
        }
      }
    }
  }

  // ---------------------------------------------------------------- the protocol

  /** Where the worker is in work(). A deadline is the local abs_time, None if the queue was empty. */
  datatype Worker =
    | Top                                             // before the clock is read
    | Clocked(now: int)                               // clock read, lock not yet taken
    | Pumped(deadline: Option<int>)                   // lock released, nothing was due
    | Asleep(deadline: Option<int>)                   // inside timed_wait
    | Awake(deadline: Option<int>, timedOut: bool)    // timed_wait is about to return
    | Shifting(deadline: Option<int>)                 // woken by an event, about to look at the delay
    | Delivering                                      // calling deliver() without the lock
    | Gone                                            // left work()

  /** A delivered message, with the clock reading and the shift it was pumped with. */
  datatype Delivery = Delivery(message: Message, batch: nat, now: int, shift: Option<int>)

  datatype State = State(
    messages: seq<Message>,
    haveNewEvents: bool,
    terminating: bool,
    owed: nat,                   // schedule() calls that have not signalled yet
    worker: Worker,
    pending: seq<Message>,
    shift: Option<int>,          // None without delivery time adjustment
    batch: nat,                  // number of the current pending list
    pumpedAt: int,
    pumpedShift: Option<int>,
    scheduled: seq<Message>,     // histories
    delivered: seq<Delivery>,
    unscheduled: seq<Message>,
    cleared: seq<Message>)

  datatype Step =
    | Schedule(goal: int, time: int)
    | Signal
    | Unschedule(goal: int)
    | Clear
    | Terminate
    | ReadClock(clock: int)
    | Pump
    | EnterWait
    | Wake(timedOut: bool)       // a timeout, or a spurious wakeup
    | Reacquire
    | MeasureDelay(clock: int)
    | Deliver
    | EndBatch
    | Restart                    // joined by wait_object() and activated again

  function Woken(w: Worker): Worker
  {
    if w.Asleep? then Awake(w.deadline, false) else w
  }

  predicate Enabled(s: State, step: Step)
  {
    match step
    case Signal => s.owed > 0
    case ReadClock(_) => s.worker.Top?
    case Pump => s.worker.Clocked?
    case EnterWait => s.worker.Pumped?
    case Wake(_) => s.worker.Asleep?
    case Reacquire => s.worker.Awake?
    case MeasureDelay(_) => s.worker.Shifting?
    case Deliver => s.worker.Delivering? && s.pending != []
    case EndBatch => s.worker.Delivering? && s.pending == []
    case Restart => s.worker.Gone? && s.terminating
    case _ => true
  }

  /** The section of the pumping lock. */
  function Pumping(s: State, now: int): State
  {
    if s.terminating then s.(worker := Gone)
    else
      var k := Due(s.messages, s.shift, now);
      var rest := s.messages[k..];
      if k == 0 then
        s.(worker := Pumped(if rest == [] then None else Some(Adjusted(rest[0].time, s.shift))))
      else
        s.(messages := rest, pending := s.messages[..k], worker := Delivering,
           batch := s.batch + 1, pumpedAt := now, pumpedShift := s.shift)
  }

  /** The end of the waiting section; `isNew` is new_event_in_schedule. */
  function Leaving(s: State, deadline: Option<int>, isNew: bool): State
  {
    if s.terminating then s.(worker := Gone)
    else if isNew then s.(haveNewEvents := false, worker := Shifting(deadline))
    else s.(worker := Delivering)
  }

  function Apply(s: State, step: Step): State
    requires Enabled(s, step)
  {
    match step
    case Schedule(goal, time) =>
      var m := Message(|s.scheduled|, goal, if time > 0 then time else 0);
      var first := Place(s.messages, m.time) == 0;
      s.(messages := Inserted(s.messages, m), haveNewEvents := s.haveNewEvents || first,
         owed := s.owed + (if first then 1 else 0), scheduled := s.scheduled + [m])
    case Signal => s.(owed := s.owed - 1, worker := Woken(s.worker))
    case Unschedule(goal) =>
      s.(messages := WithoutGoal(s.messages, goal), unscheduled := s.unscheduled + WithGoal(s.messages, goal))
    case Clear => s.(messages := [], cleared := s.cleared + s.messages)
    case Terminate => s.(terminating := true, haveNewEvents := true, worker := Woken(s.worker))
    case ReadClock(clock) => s.(worker := Clocked(clock))
    case Pump => Pumping(s, s.worker.now)
    case EnterWait =>
      if s.haveNewEvents then Leaving(s, s.worker.deadline, true) else s.(worker := Asleep(s.worker.deadline))
    case Wake(timedOut) => s.(worker := Awake(s.worker.deadline, timedOut))
    case Reacquire => Leaving(s, s.worker.deadline, s.haveNewEvents && !s.worker.timedOut)
    case MeasureDelay(clock) =>
      var d := s.worker.deadline;
      s.(worker := Top,
         shift := if s.shift.Some? && d.Some? && clock > d.value then Some((clock - d.value) / 2) else s.shift)
    case Deliver =>
      s.(pending := s.pending[1..],
         delivered := s.delivered + [Delivery(s.pending[0], s.batch, s.pumpedAt, s.pumpedShift)])
    case EndBatch => s.(worker := Top)
    case Restart => s.(terminating := false, worker := Top)
  }

  function Init(adjustment: bool): State
  {
    State([], false, false, 0, Top, [], if adjustment then Some(0) else None, 0, 0, None, [], [], [], [])
  }

  // ---------------------------------------------------------------- no oversleeping

  /** Nothing in the queue is due before the deadline. */
  ghost predicate Ahead(ms: seq<Message>, shift: Option<int>, deadline: Option<int>)
  {
    if deadline.None? then ms == []
    else forall i :: 0 <= i < |ms| ==> Adjusted(ms[i].time, shift) >= deadline.value
  }

  predicate Waiting(w: Worker)
  {
    w.Pumped? || w.Asleep? || w.Awake?
  }

  ghost predicate WakeInv(s: State)
  {
    && Sorted(s.messages)
    && (s.shift.Some? ==> s.shift.value >= 0)
    && (Waiting(s.worker) && !s.haveNewEvents ==> Ahead(s.messages, s.shift, s.worker.deadline))
    && (s.terminating ==> s.haveNewEvents)
    && (s.worker.Asleep? && s.haveNewEvents ==> s.owed > 0)
    && (s.pending != [] ==> s.worker.Delivering?)
  }

  /** A message that does not go to the front is behind one that is already counted on. */
  lemma InsertedAhead(ms: seq<Message>, m: Message, shift: Option<int>, deadline: Option<int>)
    requires Ahead(ms, shift, deadline) && (shift.Some? ==> shift.value >= 0) && Place(ms, m.time) > 0
    ensures Ahead(Inserted(ms, m), shift, deadline)
  {
    var k := Place(ms, m.time);
    assert ms[k - 1].time < m.time;
    assert Adjusted(ms[k - 1].time, shift) <= Adjusted(m.time, shift);
  }

  lemma WithoutAhead(ms: seq<Message>, goal: int, shift: Option<int>, deadline: Option<int>)
    requires Ahead(ms, shift, deadline)
    ensures Ahead(WithoutGoal(ms, goal), shift, deadline)
  {
    GoalSplit(ms, goal);
    var r := WithoutGoal(ms, goal);
    forall i | 0 <= i < |r| ensures r[i] in ms {
    }
  }

  lemma HeadAhead(ms: seq<Message>, shift: Option<int>)
    requires Sorted(ms) && (shift.Some? ==> shift.value >= 0)
    ensures Ahead(ms, shift, if ms == [] then None else Some(Adjusted(ms[0].time, shift)))
  {
  }

  lemma WakeStep(s: State, step: Step)
    requires WakeInv(s) && Enabled(s, step)
    ensures WakeInv(Apply(s, step))
  {
    hide Sorted, Ahead, Adjusted, WithoutGoal, WithGoal, Inserted;
    match step {
      case Schedule(goal, time) =>
        var m := Message(|s.scheduled|, goal, if time > 0 then time else 0);
        InsertedKeepsOrder(s.messages, m);
        if Waiting(s.worker) && !s.haveNewEvents && Place(s.messages, m.time) > 0 {
          InsertedAhead(s.messages, m, s.shift, s.worker.deadline);
        }
      case Unschedule(goal) =>
        GoalKeepsOrder(s.messages, goal);
        if Waiting(s.worker) && !s.haveNewEvents {
          WithoutAhead(s.messages, goal, s.shift, s.worker.deadline);
        }
      case Clear =>
        EmptyList(s.shift, if Waiting(s.worker) then s.worker.deadline else None);
      case Pump =>
        var k := Due(s.messages, s.shift, s.worker.now);
        SuffixSorted(s.messages, k);
        HeadAhead(s.messages, s.shift);
        assert s.messages[0..] == s.messages;
      case _ =>
    }
  }

  lemma EmptyList(shift: Option<int>, deadline: Option<int>)
    ensures Sorted([]) && Ahead([], shift, deadline)
  {
  }

  lemma SuffixSorted(ms: seq<Message>, k: nat)
    requires Sorted(ms) && k <= |ms|
    ensures Sorted(ms[k..]) && Sorted(ms[..k])
  {
  }

  // ---------------------------------------------------------------- conservation

  function Bodies(ds: seq<Delivery>): seq<Message>
  {
    seq(|ds|, i requires 0 <= i < |ds| => ds[i].message)
  }

  /** How often m occurs in ms. */
  function Count(ms: seq<Message>, m: Message): nat
  {
    multiset(ms)[m]
  }

  /** Where a message is, counted over all the places it can be in. */
  function Places(s: State, m: Message): nat
  {
    Count(s.messages, m) + Count(s.pending, m) + Count(Bodies(s.delivered), m)
      + Count(s.unscheduled, m) + Count(s.cleared, m)
  }

  /** Every message ever scheduled is in exactly one place, and no other message is anywhere. */
  ghost predicate Conserved(s: State)
  {
    && (forall i :: 0 <= i < |s.scheduled| ==> s.scheduled[i].id == i)
    && forall m :: Count(s.scheduled, m) == Places(s, m)
  }

  lemma CountAppend(a: seq<Message>, b: seq<Message>, m: Message)
    ensures Count(a + b, m) == Count(a, m) + Count(b, m)
  {
  }

  lemma BodiesAppend(ds: seq<Delivery>, d: Delivery)
    ensures Bodies(ds + [d]) == Bodies(ds) + [d.message]
  {
  }

  lemma ConservedSchedule(s: State, goal: int, time: int)
    requires Conserved(s)
    ensures Conserved(Apply(s, Schedule(goal, time)))
  {
    var n := Message(|s.scheduled|, goal, if time > 0 then time else 0);
    InsertedIsAdded(s.messages, n);
    forall m
      ensures Count(Inserted(s.messages, n), m) == Count(s.messages, m) + Count([n], m)
      ensures Count(s.scheduled + [n], m) == Count(s.scheduled, m) + Count([n], m)
    {
      CountAppend(s.scheduled, [n], m);
    }
    hide Bodies, Inserted, Place, Count;
  }

  lemma ConservedUnschedule(s: State, goal: int)
    requires Conserved(s)
    ensures Conserved(Apply(s, Unschedule(goal)))
  {
    GoalSplit(s.messages, goal);
    var gone := WithGoal(s.messages, goal);
    forall m
      ensures Count(s.messages, m) == Count(WithoutGoal(s.messages, goal), m) + Count(gone, m)
      ensures Count(s.unscheduled + gone, m) == Count(s.unscheduled, m) + Count(gone, m)
    {
      CountAppend(s.unscheduled, WithGoal(s.messages, goal), m);
    }
    hide Bodies, WithGoal, WithoutGoal, Count;
  }

  lemma ConservedClear(s: State)
    requires Conserved(s)
    ensures Conserved(Apply(s, Clear))
  {
    forall m
      ensures Count(s.cleared + s.messages, m) == Count(s.cleared, m) + Count(s.messages, m) && Count([], m) == 0
    {
      CountAppend(s.cleared, s.messages, m);
    }
    hide Bodies, Count;
  }

  lemma CountSplit(ms: seq<Message>, k: nat)
    requires k <= |ms|
    ensures forall m :: Count(ms, m) == Count(ms[..k], m) + Count(ms[k..], m)
    ensures forall m :: Count([], m) == 0
  {
    assert ms == ms[..k] + ms[k..];
  }

  lemma ConservedPump(s: State)
    requires Conserved(s) && s.worker.Clocked? && s.pending == []
    ensures Conserved(Apply(s, Pump))
  {
    CountSplit(s.messages, Due(s.messages, s.shift, s.worker.now));
    hide Bodies, Adjusted, Due, Count;
  }

  lemma ConservedDeliver(s: State)
    requires Conserved(s) && Enabled(s, Deliver)
    ensures Conserved(Apply(s, Deliver))
  {
    var first, rest := [s.pending[0]], s.pending[1..];
    assert s.pending == first + rest;
    BodiesAppend(s.delivered, Delivery(s.pending[0], s.batch, s.pumpedAt, s.pumpedShift));
    forall m ensures Count(s.pending, m) == Count(first, m) + Count(rest, m)
             ensures Count(Bodies(s.delivered) + first, m) == Count(Bodies(s.delivered), m) + Count(first, m) {
      CountAppend(first, rest, m);
      CountAppend(Bodies(s.delivered), first, m);
    }
    hide Bodies, Count;
  }

  lemma ConservedStep(s: State, step: Step)
    requires Conserved(s) && WakeInv(s) && Enabled(s, step)
    ensures Conserved(Apply(s, step))
  {
    match step {
      case Schedule(goal, time) => ConservedSchedule(s, goal, time);
      case Unschedule(goal) => ConservedUnschedule(s, goal);
      case Clear => ConservedClear(s);
      case Pump => ConservedPump(s);
      case Deliver => ConservedDeliver(s);
      case _ => hide Sorted, Ahead, Bodies, Count;
    }
  }

  /** A scheduled message occurs once in what was scheduled, so at most once among the delivered. */
  lemma DeliveredAtMostOnce(s: State, i: nat, j: nat)
    requires Conserved(s) && i < j < |s.delivered|
    ensures s.delivered[i].message.id != s.delivered[j].message.id
  {
    var b := Bodies(s.delivered);
    assert Count(s.scheduled, b[i]) == Places(s, b[i]);
    if s.delivered[i].message.id == s.delivered[j].message.id {
      FromScheduled(s, b[i]);
      FromScheduled(s, b[j]);
      OnceOnly(s.scheduled, b[i]);
      TwiceIn(b, i, j);
      assert false;
    }
  }

  lemma FromScheduled(s: State, m: Message)
    requires Conserved(s) && m in Bodies(s.delivered)
    ensures m.id < |s.scheduled| && s.scheduled[m.id] == m
  {
    assert Count(s.scheduled, m) == Places(s, m) > 0;
    assert m in s.scheduled;
  }

  lemma {:induction false} OnceOnly(ms: seq<Message>, m: Message)
    requires forall i :: 0 <= i < |ms| ==> ms[i].id == i
    ensures Count(ms, m) <= 1
    decreases |ms|
  {
    if ms != [] {
      var n := |ms| - 1;
      assert ms == ms[..n] + [ms[n]];
      OnceOnly(ms[..n], m);
      if ms[n] == m {
        assert m !in ms[..n];
      }
    }
  }

  lemma TwiceIn(ms: seq<Message>, i: nat, j: nat)
    requires i < j < |ms| && ms[i] == ms[j]
    ensures Count(ms, ms[i]) >= 2
  {
    assert ms == ms[..j] + ([ms[j]] + ms[j + 1..]);
    assert ms[..j][i] == ms[i];
  }

  // ---------------------------------------------------------------- deliveries

  /** Nothing is delivered early, and every batch goes in time order. */
  ghost predicate Punctual(s: State)
  {
    && Sorted(s.pending)
    && (forall i :: 0 <= i < |s.pending| ==> Adjusted(s.pending[i].time, s.pumpedShift) <= s.pumpedAt)
    && (forall i :: 0 <= i < |s.delivered| ==> OnTime(s.delivered[i]) && s.delivered[i].batch <= s.batch)
    && (forall i, j :: 0 <= i < j < |s.delivered| && s.delivered[i].batch == s.delivered[j].batch ==>
          s.delivered[i].message.time <= s.delivered[j].message.time)
    && (forall i :: 0 <= i < |s.delivered| && s.delivered[i].batch == s.batch && s.pending != [] ==>
          s.delivered[i].message.time <= s.pending[0].time)
  }

  predicate OnTime(d: Delivery)
  {
    Adjusted(d.message.time, d.shift) <= d.now
  }

  lemma PunctualStep(s: State, step: Step)
    requires Punctual(s) && WakeInv(s) && Enabled(s, step)
    ensures Punctual(Apply(s, step))
  {
    hide Ahead, Adjusted, WithoutGoal, WithGoal, Inserted;
    match step {
      case Pump =>
        var k := Due(s.messages, s.shift, s.worker.now);
        SuffixSorted(s.messages, k);
      case Deliver =>
      case _ =>
    }
  }

  // ---------------------------------------------------------------- whole runs

  ghost predicate Inv(s: State)
  {
    WakeInv(s) && Conserved(s) && Punctual(s)
  }

  /** The states of an interleaving: each follows from the one before by an enabled step. */
  ghost predicate IsRun(states: seq<State>, adjustment: bool)
  {
    && states != []
    && states[0] == Init(adjustment)
    && forall i :: 0 < i < |states| ==> Follows(states[i - 1], states[i])
  }

  ghost predicate Follows(s: State, t: State)
  {
    exists step :: Enabled(s, step) && t == Apply(s, step)
  }

  lemma {:induction false} RunKeepsInv(states: seq<State>, adjustment: bool, n: nat)
    requires IsRun(states, adjustment) && n < |states|
    ensures Inv(states[n])
    decreases n
  {
    if n > 0 {
      RunKeepsInv(states, adjustment, n - 1);
      var s, t := states[n - 1], states[n];
      assert Follows(s, t);
      var step :| Enabled(s, step) && t == Apply(s, step);
      WakeStep(s, step);
      ConservedStep(s, step);
      PunctualStep(s, step);
    }
  }

  /**
    In every state of every run where the worker sleeps: if no event is flagged, nothing is
    due before its deadline and nobody asked it to terminate; if one is flagged, a signal
    is still on its way.
   */
  lemma NoOversleep(states: seq<State>, adjustment: bool, n: nat)
    requires IsRun(states, adjustment) && n < |states| && states[n].worker.Asleep?
    ensures var s := states[n];
            if s.haveNewEvents then s.owed > 0
            else Ahead(s.messages, s.shift, s.worker.deadline) && !s.terminating
  {
    RunKeepsInv(states, adjustment, n);
  }

  /** Deliveries of a run: at most once each, never early, and in time order within a batch. */
  lemma DeliveriesOfARun(states: seq<State>, adjustment: bool, n: nat, i: nat, j: nat)
    requires IsRun(states, adjustment) && n < |states| && i < j < |states[n].delivered|
    ensures var a, b := states[n].delivered[i], states[n].delivered[j];
            && a.message.id != b.message.id
            && OnTime(a) && OnTime(b)
            && (a.batch == b.batch ==> a.message.time <= b.message.time)
  {
    RunKeepsInv(states, adjustment, n);
    DeliveredAtMostOnce(states[n], i, j);
  }

  /** Each message of a run is queued, pending, delivered, unscheduled or cleared: one of them, once. */
  lemma ExactlyOnePlace(states: seq<State>, adjustment: bool, n: nat, i: nat)
    requires IsRun(states, adjustment) && n < |states| && i < |states[n].scheduled|
    ensures Places(states[n], states[n].scheduled[i]) == 1
  {
    RunKeepsInv(states, adjustment, n);
    var s := states[n];
    var m := s.scheduled[i];
    OnceOnly(s.scheduled, m);
    assert m in multiset(s.scheduled);
    assert Count(s.scheduled, m) == Places(s, m);
  }

  /** When the worker has left, no message is stuck in its pending list. */
  lemma NothingPendingWhenGone(states: seq<State>, adjustment: bool, n: nat)
    requires IsRun(states, adjustment) && n < |states| && states[n].worker.Gone?
    ensures states[n].pending == [] && Conserved(states[n])
  {
    RunKeepsInv(states, adjustment, n);
  }

  // ---------------------------------------------------------------- the same by clock and message times alone

  ghost predicate NoneNegative(ms: seq<Message>)
  {
    forall i :: 0 <= i < |ms| ==> ms[i].time >= 0
  }

  /** The worker left only if asked; the shift is there exactly with delivery time adjustment. */
  ghost predicate ShiftInv(s: State, adjustment: bool)
  {
    && ShiftOk(s.shift, adjustment) && (s.worker.Gone? ==> s.terminating)
    && (s.pending != [] ==> ShiftOk(s.pumpedShift, adjustment))
    && forall i :: 0 <= i < |s.delivered| ==> ShiftOk(s.delivered[i].shift, adjustment)
  }

  predicate ShiftOk(shift: Option<int>, adjustment: bool)
  {
    (adjustment <==> shift.Some?) && (shift.Some? ==> shift.value >= 0)
  }

  /** The deadline belongs to a message: its time, brought forward by the shift but not before the epoch. */
  ghost predicate FromMessage(s: State, deadline: int)
  {
    exists i :: 0 <= i < |s.scheduled| && Brought(s.scheduled[i].time, s.shift, deadline)
  }

  predicate Brought(time: int, shift: Option<int>, deadline: int)
  {
    match shift
    case None => deadline == time
    case Some(x) => if time >= x then deadline == time - x else deadline == 0
  }

  /** So it is while the worker waits. */
  ghost predicate DeadlineInv(s: State)
  {
    Waiting(s.worker) && s.worker.deadline.Some? ==> FromMessage(s, s.worker.deadline.value)
  }

  lemma FromMore(s: State, t: State, deadline: int)
    requires FromMessage(s, deadline) && s.scheduled <= t.scheduled && s.shift == t.shift
    ensures FromMessage(t, deadline)
  {
    var i :| 0 <= i < |s.scheduled| && Brought(s.scheduled[i].time, s.shift, deadline);
    assert t.scheduled[i] == s.scheduled[i];
  }

  /** Every queued message was scheduled. */
  lemma QueuedWasScheduled(s: State, i: nat) returns (k: nat)
    requires Conserved(s) && i < |s.messages|
    ensures k < |s.scheduled| && s.scheduled[k] == s.messages[i]
  {
    var m := s.messages[i];
    assert Count(s.scheduled, m) == Places(s, m) > 0;
    assert m in s.scheduled;
    k :| 0 <= k < |s.scheduled| && s.scheduled[k] == m;
  }

  lemma DeadlinePump(s: State)
    requires Conserved(s) && s.worker.Clocked?
    ensures DeadlineInv(Apply(s, Pump))
  {
    hide Conserved, Due;
    var t := Apply(s, Pump);
    if t.worker.Pumped? && t.worker.deadline.Some? {
      var k := QueuedWasScheduled(s, 0);
      assert Brought(s.scheduled[k].time, s.shift, t.worker.deadline.value);
    }
  }

  lemma DeadlineStep(s: State, step: Step)
    requires DeadlineInv(s) && Conserved(s) && Enabled(s, step)
    ensures DeadlineInv(Apply(s, step))
  {
    hide Adjusted, Conserved, FromMessage, Inserted, WithoutGoal, WithGoal, Place;
    if step.Pump? {
      hide Apply;
      DeadlinePump(s);
    } else if Waiting(Apply(s, step).worker) && Apply(s, step).worker.deadline.Some? {
      FromMore(s, Apply(s, step), s.worker.deadline.value);
    }
  }

  lemma ShiftStep(s: State, step: Step, adjustment: bool)
    requires ShiftInv(s, adjustment) && Enabled(s, step)
    ensures ShiftInv(Apply(s, step), adjustment)
  {
    hide Adjusted, Due, Inserted, WithoutGoal, WithGoal, Place;
  }

  lemma NoneNegativeStep(s: State, step: Step)
    requires NoneNegative(s.messages) && Enabled(s, step)
    ensures NoneNegative(Apply(s, step).messages)
  {
    hide Adjusted, Place;
    match step {
      case Schedule(_, _) =>
      case Unschedule(goal) =>
        GoalSplit(s.messages, goal);
        hide WithoutGoal, WithGoal;
        forall i | 0 <= i < |Apply(s, step).messages| ensures Apply(s, step).messages[i].time >= 0 {
          assert Apply(s, step).messages[i] in s.messages;
        }
      case _ =>
    }
  }

  lemma {:induction false} RunKeepsTimes(states: seq<State>, adjustment: bool, n: nat)
    requires IsRun(states, adjustment) && n < |states|
    ensures NoneNegative(states[n].messages) && ShiftInv(states[n], adjustment) && DeadlineInv(states[n])
    decreases n
  {
    if n > 0 {
      RunKeepsTimes(states, adjustment, n - 1);
      RunKeepsInv(states, adjustment, n - 1);
      var s, t := states[n - 1], states[n];
      assert Follows(s, t);
      hide NoneNegative, ShiftInv, DeadlineInv, WakeInv, Conserved, Punctual, Enabled, Apply;
      var step :| Enabled(s, step) && t == Apply(s, step);
      NoneNegativeStep(s, step);
      ShiftStep(s, step, adjustment);
      DeadlineStep(s, step);
    }
  }

  /**
    Without adjustment no message is delivered before its time by the clock reading it was
    pumped with, and with adjustment not earlier than by the shift of that moment.
   */
  lemma NeverEarly(states: seq<State>, adjustment: bool, n: nat, i: nat)
    requires IsRun(states, adjustment) && n < |states| && i < |states[n].delivered|
    ensures var d := states[n].delivered[i];
            if adjustment then d.shift.Some? && d.shift.value >= 0 && d.message.time <= d.now + d.shift.value
            else d.shift.None? && d.message.time <= d.now
  {
    RunKeepsInv(states, adjustment, n);
    RunKeepsTimes(states, adjustment, n);
    assert OnTime(states[n].delivered[i]);
  }

  /**
    A sleeping worker without a flagged event wakes not after the time of any queued message,
    and before it by the shift; its deadline is that of a message.
   */
  lemma SleepsNotPast(states: seq<State>, adjustment: bool, n: nat)
    requires IsRun(states, adjustment) && n < |states| && states[n].worker.Asleep? && !states[n].haveNewEvents
    ensures var s, deadline := states[n], states[n].worker.deadline;
            && s.shift.Some? == adjustment
            && (deadline.None? ==> s.messages == [])
            && (deadline.Some? ==> FromMessage(s, deadline.value))
            && (deadline.Some? ==> forall m :: m in s.messages ==>
                  && deadline.value <= m.time
                  && (s.shift.Some? && m.time >= s.shift.value ==> deadline.value <= m.time - s.shift.value))
  {
    RunKeepsInv(states, adjustment, n);
    RunKeepsTimes(states, adjustment, n);
    var s := states[n];
    assert Ahead(s.messages, s.shift, s.worker.deadline);
    hide Conserved, Punctual, DeadlineInv, Sorted;
  }

  /** A message is due by the clock: at its time, or earlier by the shift once there has been an epoch. */
  predicate DueBy(time: int, shift: Option<int>, now: int)
  {
    match shift
    case None => time <= now
    case Some(x) => 0 <= now && time <= now + x
  }

  /**
    The pumping section of a reachable state takes exactly the messages that are due by its
    clock reading, in order. If there are none, the worker is to wait for the head's time.
   */
  lemma PumpTakesTheDue(states: seq<State>, adjustment: bool, n: nat)
    requires IsRun(states, adjustment) && n < |states| && states[n].worker.Clocked? && !states[n].terminating
    ensures PumpedRight(states[n], Apply(states[n], Pump))
  {
    RunKeepsInv(states, adjustment, n);
    RunKeepsTimes(states, adjustment, n);
    hide Conserved, Punctual, DeadlineInv, PumpedRight, Apply, Ahead;
    PumpIsRight(states[n]);
  }

  ghost predicate PumpedRight(s: State, t: State)
    requires s.worker.Clocked?
  {
    && t.pending + t.messages == s.messages
    && (forall m :: m in t.pending ==> DueBy(m.time, s.shift, s.worker.now))
    && (forall m :: m in t.messages ==> !DueBy(m.time, s.shift, s.worker.now))
    && (t.pending != [] ==> t.worker.Delivering? && t.pumpedAt == s.worker.now && t.pumpedShift == s.shift)
    && (t.pending == [] ==>
          && t.worker.Pumped? && (t.worker.deadline.None? <==> s.messages == [])
          && (s.messages != [] ==> Brought(s.messages[0].time, s.shift, t.worker.deadline.value)))
  }

  lemma PumpIsRight(s: State)
    requires WakeInv(s) && s.worker.Clocked? && !s.terminating
    ensures PumpedRight(s, Apply(s, Pump))
  {
    hide Due, DueBy, Brought, Adjusted, Ahead;
    DueSplits(s.messages, s.shift, s.worker.now);
    hide Sorted;
  }

  lemma DueSplits(ms: seq<Message>, shift: Option<int>, now: int)
    requires Sorted(ms) && (shift.Some? ==> shift.value >= 0)
    ensures var k := Due(ms, shift, now);
            && ms[..k] + ms[k..] == ms && ms[0..] == ms && ms[..0] == []
            && (forall m :: m in ms[..k] ==> DueBy(m.time, shift, now))
            && (forall m :: m in ms[k..] ==> !DueBy(m.time, shift, now))
            && (ms != [] ==> Brought(ms[0].time, shift, Adjusted(ms[0].time, shift)))
  {
    var k := Due(ms, shift, now);
    hide Due;
    forall j | k <= j < |ms| ensures !DueBy(ms[j].time, shift, now) {
      assert ms[k].time <= ms[j].time;
    }
  }

  /** A wakeup by an event after the deadline makes half of the delay the shift. */
  lemma HalfTheDelay(s: State, clock: int)
    requires s.worker.Shifting?
    ensures var t, d := Apply(s, MeasureDelay(clock)), s.worker.deadline;
            if s.shift.Some? && d.Some? && clock > d.value then
              t.shift.Some? && 2 * t.shift.value <= clock - d.value <= 2 * t.shift.value + 1
            else
              t.shift == s.shift
  {
  }

  /** The worker leaves only when it is asked to terminate. */
  lemma GoneOnlyIfAsked(states: seq<State>, adjustment: bool, n: nat)
    requires IsRun(states, adjustment) && n < |states|
    ensures states[n].worker.Gone? ==> states[n].terminating
  {
    RunKeepsTimes(states, adjustment, n);
  }

  /** A scheduled message is the one asked for, not before the epoch, and is announced if it is the first. */
  lemma ScheduledAsAsked(s: State, goal: int, time: int)
    requires Sorted(s.messages)
    ensures var t, m := Apply(s, Schedule(goal, time)), Message(|s.scheduled|, goal, if time < 0 then 0 else time);
            && t.scheduled == s.scheduled + [m] && m in t.messages
            && (if t.messages[0] == m then t.haveNewEvents && t.owed == s.owed + 1
                else t.haveNewEvents == s.haveNewEvents && t.owed == s.owed)
  {
    hide Place, Inserted, Sorted;
    InsertedHead(s.messages, Message(|s.scheduled|, goal, if time < 0 then 0 else time));
  }

  lemma InsertedHead(ms: seq<Message>, m: Message)
    requires Sorted(ms)
    ensures var r := Inserted(ms, m); m in r && (r[0] == m <==> Place(ms, m.time) == 0)
  {
    var k := Place(ms, m.time);
    hide Place;
    assert Inserted(ms, m)[k] == m;
    if k > 0 {
      assert ms[0].time <= ms[k - 1].time < m.time;
    }
  }

  /**
    The flag is lowered exactly when the worker turns to look at the queue again. It does so
    if it finds the flag up before it waits, or after a wait that did not time out.
   */
  lemma FlagLowered(s: State, step: Step)
    requires Enabled(s, step)
    ensures var t := Apply(s, step);
            && (s.haveNewEvents && !t.haveNewEvents <==> t.worker.Shifting? && !s.worker.Shifting?)
            && (t.worker.Shifting? && !s.worker.Shifting? ==>
                  !s.terminating && (step.EnterWait? || (step.Reacquire? && !s.worker.timedOut)))
            && (step.EnterWait? && s.haveNewEvents && !s.terminating ==> t.worker == Shifting(s.worker.deadline))
            && (step.EnterWait? && !s.haveNewEvents ==> t.worker == Asleep(s.worker.deadline))
  {
  }

  /**
    terminate() and signal() get a sleeping worker up, which then knows that it did not time
    out; a new activation starts over with the messages left.
   */
  lemma Wakeups(s: State)
    ensures var t := Apply(s, Terminate); t.terminating && t.haveNewEvents && !t.worker.Asleep?
    ensures s.owed > 0 ==> var t := Apply(s, Signal); t.owed == s.owed - 1 && !t.worker.Asleep?
    ensures s.worker.Asleep? ==> Apply(s, Terminate).worker == Awake(s.worker.deadline, false)
    ensures s.worker.Asleep? && s.owed > 0 ==> Apply(s, Signal).worker == Awake(s.worker.deadline, false)
    ensures Enabled(s, Restart) ==>
              var t := Apply(s, Restart); !t.terminating && t.worker.Top? && t.messages == s.messages
  {
  }

  // ---------------------------------------------------------------- the end of the worker

  ghost predicate NoSleep(s: State)
  {
    s.terminating ==> !s.worker.Asleep?
  }

  lemma {:induction false} AskedIsAwake(states: seq<State>, adjustment: bool, n: nat)
    requires IsRun(states, adjustment) && n < |states|
    ensures NoSleep(states[n])
    decreases n
  {
    if n > 0 {
      AskedIsAwake(states, adjustment, n - 1);
      RunKeepsInv(states, adjustment, n - 1);
      var s, t := states[n - 1], states[n];
      assert Follows(s, t);
      hide Conserved, Punctual, Sorted, Ahead;
      var step :| Enabled(s, step) && t == Apply(s, step);
    }
  }

  ghost function Last(states: seq<State>): State
    requires states != []
  {
    states[|states| - 1]
  }

  lemma Extend(states: seq<State>, adjustment: bool, step: Step) returns (more: seq<State>)
    requires IsRun(states, adjustment) && Enabled(Last(states), step)
    ensures IsRun(more, adjustment) && more != [] && states <= more && Last(more) == Apply(Last(states), step)
  {
    hide Enabled, Apply;
    var s := Last(states);
    assert Follows(s, Apply(s, step));
    hide Follows;
    more := states + [Apply(s, step)];
  }

  /** The worker's next step once it is asked to terminate. */
  function WayOut(s: State): Step
  {
    match s.worker
    case Top => ReadClock(0)
    case Clocked(_) => Pump
    case Pumped(_) => EnterWait
    case Awake(_, _) => Reacquire
    case Shifting(_) => MeasureDelay(0)
    case _ => if s.pending != [] then Deliver else EndBatch
  }

  function StepsLeft(s: State): nat
  {
    match s.worker
    case Top => 2
    case Shifting(_) => 3
    case Delivering => 3 + |s.pending|
    case Gone => 0
    case _ => 1
  }

  lemma OneStepOut(s: State)
    requires WakeInv(s) && NoSleep(s) && s.terminating && !s.worker.Gone?
    ensures Enabled(s, WayOut(s))
    ensures var t := Apply(s, WayOut(s));
            && t.terminating && t.messages == s.messages && StepsLeft(t) < StepsLeft(s)
            && Bodies(t.delivered) + t.pending == Bodies(s.delivered) + s.pending
  {
    hide Sorted, Ahead, Due;
    if s.worker.Delivering? && s.pending != [] {
      var d := Delivery(s.pending[0], s.batch, s.pumpedAt, s.pumpedShift);
      BodiesAppend(s.delivered, d);
      assert s.pending == [s.pending[0]] + s.pending[1..];
      assert Bodies(s.delivered) + [d.message] + s.pending[1..] == Bodies(s.delivered) + s.pending;
    }
  }

  /**
    From every run in which the worker was asked to terminate, its own steps bring it out, with
    all it has pumped delivered.
   */
  lemma {:induction false} WorkerCanLeave(states: seq<State>, adjustment: bool) returns (more: seq<State>)
    requires states != [] && IsRun(states, adjustment) && Last(states).terminating
    ensures IsRun(more, adjustment) && more != [] && Last(more).worker.Gone?
    ensures var s, t := Last(states), Last(more);
            t.messages == s.messages && t.pending == [] && Bodies(t.delivered) == Bodies(s.delivered) + s.pending
    decreases StepsLeft(Last(states))
  {
    hide IsRun, Enabled, Apply, Conserved, Punctual, Sorted, Ahead, Bodies;
    var s := Last(states);
    RunKeepsInv(states, adjustment, |states| - 1);
    AskedIsAwake(states, adjustment, |states| - 1);
    if s.worker.Gone? {
      assert Bodies(s.delivered) + s.pending == Bodies(s.delivered);
      return states;
    }
    OneStepOut(s);
    hide WakeInv;
    more := Extend(states, adjustment, WayOut(s));
    more := WorkerCanLeave(more, adjustment);
  }
}
