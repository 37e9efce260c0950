/**
  What the closing rules of src/HTTP/HttpAsyncPolicies.cpp come to over whole runs of the pool:
  who waits for a request or a connection, when an entity moves towards its end, and that an
  idle server's connections do end.
 */
module HttpClosing {
  import opened HttpPolicy
  import opened HttpPool

  /** c is a connection of server v. */
  ghost predicate Of(s: State, v: Id, c: Id)
  {
    v != SPECIAL && c in s.stats.connections && s.stats.connections[c].server == v
  }

  ghost predicate InStatus(s: State, c: Id, status: Status)
  {
    c in s.stats.connections && s.stats.connections[c].status == status
  }

  ghost predicate ThreadIn(s: State, t: Id, status: Status)
  {
    t in s.stats.threads && s.stats.threads[t].status == status
  }

  /** The connections of a server are those on its list. */
  lemma PeersAreListed(s: State, v: Id, c: Id)
    requires RecordInv(s) && v in s.stats.servers
    ensures c in s.stats.servers[v] <==> Of(s, v, c)
  {
    assert ServerOk(s, v);
    if c in s.stats.connections {
      assert RecordOk(s, c);
    }
  }

  // ---------------------------------------------------------------- who is waited for

  /** The server's mutex is held for connection c. */
  ghost predicate Works(h: Holder, c: Id)
  {
    (h.Picked? || h.Unplaced? || h.Placed?) && h.c == c
  }

  /** A connection awaits a request exactly while its server is about to count one. */
  ghost predicate AwaitedOk(s: State, c: Id)
    requires c in s.stats.connections
  {
    var r := s.stats.connections[c];
    r.status == ActiveAwaiting <==> r.server in s.holders && Works(s.holders[r.server], c)
  }

  ghost predicate AwaitInv(s: State)
  {
    forall c :: c in s.stats.connections ==> AwaitedOk(s, c)
  }

  lemma AwaitPick(s: State, v: Id, c: Id)
    requires RecordInv(s) && AwaitInv(s) && CanChooseConnection(s, v, c)
    ensures AwaitInv(ChooseConnection(s, v, c))
  {
    var s' := ChooseConnection(s, v, c);
    assert v in s.stats.servers;
    if c != SPECIAL {
      assert c in s.stats.servers[v];
      PeersAreListed(s, v, c);
    }
    hide RecordInv, CanChooseConnection;
    forall d | d in s'.stats.connections ensures AwaitedOk(s', d) {
      assert AwaitedOk(s, d);
    }
  }

  lemma AwaitNew(s: State, v: Id, c: Id)
    requires RecordInv(s) && AwaitInv(s) && CanNewConnection(s, v, c)
    ensures AwaitInv(NewConnection(s, v, c))
  {
    var s' := NewConnection(s, v, c);
    hide RecordInv;
    forall d | d in s'.stats.connections ensures AwaitedOk(s', d) {
      assert d != c ==> AwaitedOk(s, d);
    }
  }

  lemma AwaitRequest(s: State, v: Id)
    requires RecordInv(s) && AwaitInv(s) && CanAddRequest(s, v)
    ensures AwaitInv(AddRequest(s, v))
  {
    var s' := AddRequest(s, v);
    assert HolderOk(s, v) && v in s.stats.servers;
    PeersAreListed(s, v, s.holders[v].c);
    hide RecordInv;
    forall d | d in s'.stats.connections ensures AwaitedOk(s', d) {
      assert AwaitedOk(s, d);
    }
  }

  lemma AwaitTimer(s: State, c: Id)
    requires AwaitInv(s)
    ensures AwaitInv(TimerConnection(s, c))
  {
    var s' := TimerConnection(s, c);
    forall d | d in s'.stats.connections ensures AwaitedOk(s', d) {
      assert AwaitedOk(s, d);
    }
  }

  lemma AwaitDone(s: State, c: Id)
    requires AwaitInv(s) && RequestCounted(s, c)
    ensures AwaitInv(RemoveRequest(s, c))
  {
    var s' := RemoveRequest(s, c);
    forall d | d in s'.stats.connections ensures AwaitedOk(s', d) {
      assert AwaitedOk(s, d);
    }
  }

  lemma AwaitByConnection(s: State, step: Step)
    requires RecordInv(s) && AwaitInv(s) && Enabled(s, step) && Asserted(s, step) && OnConnections(step)
    ensures AwaitInv(Apply(s, step))
  {
    hide RecordInv, AwaitInv, ChooseConnection, NewConnection, AddRequest, RemoveRequest, TimerConnection;
    hide CanChooseConnection, CanNewConnection, CanAddRequest, ChoiceIsKnown, RequestCounted;
    match step
    case StepChooseConnection(v, c) => AwaitPick(s, v, c);
    case StepNewConnection(v, c) => AwaitNew(s, v, c);
    case StepAddRequest(v) => AwaitRequest(s, v);
    case StepRemoveRequest(c) => AwaitDone(s, c);
    case StepTimerConnection(c) => AwaitTimer(s, c);
  }

  lemma AwaitByThread(s: State, step: Step)
    requires RecordInv(s) && AwaitInv(s) && Enabled(s, step) && Asserted(s, step) && OnThreads(step)
    ensures AwaitInv(Apply(s, step))
  {
  }

  lemma AwaitByServer(s: State, step: Step)
    requires RecordInv(s) && AwaitInv(s) && Enabled(s, step) && Asserted(s, step)
    requires !OnConnections(step) && !OnThreads(step)
    ensures AwaitInv(Apply(s, step))
  {
  }

  /** A thread awaits a connection exactly while the pool is about to count one. */
  ghost predicate ThreadsAwaited(s: State)
  {
    forall t :: t in s.stats.threads ==>
      (s.stats.threads[t].status == ActiveAwaiting <==> s.pool.Chosen? && s.pool.t == t)
  }

  /** place_connection fails after it has chosen a thread, and leaves the thread waiting. */
  ghost predicate AbandonsThread(s: State, step: Step)
  {
    step.StepPlaceFails? && s.pool.Chosen? && s.pool.server == step.v
  }

  /** Of all steps only such a failure can break that. */
  lemma ThreadAwaitedExactly(s: State, step: Step)
    requires RecordInv(s) && Enabled(s, step) && Asserted(s, step) && ThreadsAwaited(s)
    ensures ThreadsAwaited(Apply(s, step)) <==> !AbandonsThread(s, step)
  {
    if OnConnections(step) {
      ConnectionsKeepThreads(s, step);
      hide RecordInv, Enabled, Asserted, Apply;
    } else if AbandonsThread(s, step) {
      assert s.pool.t in Apply(s, step).stats.threads;
    } else {
      hide CloseConnection, CanChooseConnection;
    }
  }

  lemma ConnectionsKeepThreads(s: State, step: Step)
    requires Enabled(s, step) && Asserted(s, step) && OnConnections(step)
    ensures Apply(s, step).stats.threads == s.stats.threads && Apply(s, step).pool == s.pool
    ensures Apply(s, step).perThread == s.perThread
  {
    hide CanChooseConnection, CanNewConnection, CanAddRequest, CloseConnection, RequestCounted, ChoiceIsKnown;
    hide ServerConnectionAdded, RequestAdded, RequestRemoved;
    StatsKeepThreads(s, step);
  }

  lemma StatsKeepThreads(s: State, step: Step)
    requires Enabled(s, step) && Asserted(s, step) && OnConnections(step)
    ensures step.StepNewConnection? ==> ServerConnectionAdded(s.stats, step.v, step.c).threads == s.stats.threads
    ensures step.StepAddRequest? ==> RequestAdded(s.stats, s.holders[step.v].c).threads == s.stats.threads
    ensures step.StepRemoveRequest? ==> RequestRemoved(s.stats, step.c).threads == s.stats.threads
  {
    hide CanChooseConnection, ChoiceIsKnown;
  }

  // ---------------------------------------------------------------- full threads

  /** A thread marked as full has as many connections as it may have. */
  ghost predicate FullInv(s: State)
  {
    forall t :: t in s.stats.threads && s.stats.threads[t].full ==> s.stats.threads[t].items >= s.perThread
  }

  lemma FullStep(s: State, step: Step)
    requires RecordInv(s) && FullInv(s) && Enabled(s, step) && Asserted(s, step)
    ensures FullInv(Apply(s, step))
  {
    if OnConnections(step) {
      ConnectionsKeepThreads(s, step);
      hide Enabled, Asserted, Apply;
    } else {
      hide CloseConnection, CanChooseConnection, WhenClose;
    }
  }

  // ---------------------------------------------------------------- moves towards the end

  /** A connection that is on the way out after a step was there before it. */
  ghost predicate SameEnd(s: State, s': State, c: Id)
  {
    c in s'.stats.connections && OnTheWayOut(s'.stats.connections[c].status) ==>
      && c in s.stats.connections && s'.stats.connections[c].status == s.stats.connections[c].status
      && (s'.stats.connections[c].server == s.stats.connections[c].server || s'.stats.connections[c].server == 0)
  }

  lemma SameEndPick(s: State, v: Id, d: Id, c: Id)
    requires CanChooseConnection(s, v, d)
    ensures SameEnd(s, ChooseConnection(s, v, d), c)
  {
  }

  lemma SameEndNew(s: State, v: Id, d: Id, c: Id)
    requires CanNewConnection(s, v, d)
    ensures SameEnd(s, NewConnection(s, v, d), c)
  {
  }

  lemma SameEndRequest(s: State, v: Id, c: Id)
    requires CanAddRequest(s, v)
    ensures SameEnd(s, AddRequest(s, v), c)
  {
  }

  lemma SameEndDone(s: State, d: Id, c: Id)
    requires RequestCounted(s, d)
    ensures SameEnd(s, RemoveRequest(s, d), c)
  {
  }

  lemma SameEndTimer(s: State, d: Id, c: Id)
    requires c != d
    ensures SameEnd(s, TimerConnection(s, d), c)
  {
  }

  lemma OnlyTimersByConnection(s: State, step: Step, c: Id)
    requires Enabled(s, step) && Asserted(s, step) && step != StepTimerConnection(c) && OnConnections(step)
    ensures SameEnd(s, Apply(s, step), c)
  {
    hide SameEnd, ChooseConnection, NewConnection, AddRequest, RemoveRequest, TimerConnection;
    hide CanChooseConnection, CanNewConnection, CanAddRequest, ChoiceIsKnown, RequestCounted;
    match step
    case StepChooseConnection(v, d) => SameEndPick(s, v, d, c);
    case StepNewConnection(v, d) => SameEndNew(s, v, d, c);
    case StepAddRequest(v) => SameEndRequest(s, v, c);
    case StepRemoveRequest(d) => SameEndDone(s, d, c);
    case StepTimerConnection(d) => SameEndTimer(s, d, c);
  }

  lemma OnlyTimersByOther(s: State, step: Step, c: Id)
    requires Enabled(s, step) && Asserted(s, step) && !OnConnections(step)
    ensures SameEnd(s, Apply(s, step), c)
  {
    hide CanChooseThread, WhenClose;
  }

  /** The moves of a connection towards its end, over any step. */
  ghost predicate Moves(s: State, s': State, c: Id)
    requires c in s.stats.connections && c in s'.stats.connections
  {
    var v, was, now := s.stats.connections[c].server, s.stats.connections[c].status, s'.stats.connections[c].status;
    && (now == ClosureOnNextTry && was != now ==>
          was == ClosureAwaiting
          && forall d :: Of(s, v, d) ==> !InStatus(s, d, Active) && !InStatus(s, d, ActiveAwaiting))
    && (now == ClosureAwaiting && was != now ==>
          was == Active && s.stats.connections[c].items == 0 && s.delay > 0
          && forall d :: Of(s, v, d) ==> !InStatus(s, d, ClosureAwaiting))
    && (now == Closing && was != now ==>
          || was == ClosureOnNextTry
          || (was == Active && s.stats.connections[c].items == 0
              && (s.delay == 0 || exists d :: Of(s, v, d) && d != c && InStatus(s, d, ClosureAwaiting))))
  }

  /** What a timer does to its connection, in terms of the connections of the same server. */
  lemma TimerMoves(s: State, c: Id)
    requires RecordInv(s) && c in s.stats.connections
    ensures Moves(s, TimerConnection(s, c), c)
  {
    var m, v := s.stats.connections, s.stats.connections[c].server;
    if v in s.stats.servers {
      assert v != SPECIAL by { assert ServerOk(s, v); }
      forall d { PeersAreListed(s, v, d); }
      GroupOfConnections(m, s.stats.servers[v], c);
      hide RecordInv, ConnectionGroup;
    }
  }

  /** A step that moves a connection towards its end is a timer of that connection. */
  lemma OnlyTimersClose(s: State, step: Step, c: Id)
    requires Enabled(s, step) && Asserted(s, step) && step != StepTimerConnection(c)
    ensures SameEnd(s, Apply(s, step), c)
  {
    hide SameEnd, Enabled, Asserted, Apply;
    if OnConnections(step) {
      OnlyTimersByConnection(s, step, c);
    } else {
      OnlyTimersByOther(s, step, c);
    }
  }

  lemma MovesStep(s: State, step: Step, c: Id)
    requires RecordInv(s) && Enabled(s, step) && Asserted(s, step)
    requires c in s.stats.connections && c in Apply(s, step).stats.connections
    ensures Moves(s, Apply(s, step), c)
  {
    if step == StepTimerConnection(c) {
      hide RecordInv, Moves, TimerConnection;
      TimerMoves(s, c);
    } else {
      hide RecordInv, Enabled, Asserted, Apply;
      OnlyTimersClose(s, step, c);
    }
  }

  // ---------------------------------------------------------------- one waits at a time

  ghost predicate OneWaits(s: State, v: Id)
  {
    forall c, d :: Of(s, v, c) && Of(s, v, d) && InStatus(s, c, ClosureAwaiting) && InStatus(s, d, ClosureAwaiting) ==>
      c == d
  }

  /** A connection that waits after a step waited before it, or its timer has found no other that waits. */
  lemma WaitedBefore(s: State, step: Step, v: Id, c: Id)
    requires RecordInv(s) && Enabled(s, step) && Asserted(s, step)
    requires Of(Apply(s, step), v, c) && InStatus(Apply(s, step), c, ClosureAwaiting)
    ensures Of(s, v, c)
    ensures || InStatus(s, c, ClosureAwaiting)
            || (step == StepTimerConnection(c) && forall d :: Of(s, v, d) ==> !InStatus(s, d, ClosureAwaiting))
  {
    if step == StepTimerConnection(c) {
      TimerKeepsServer(s, c);
      hide RecordInv, TimerConnection;
      TimerMoves(s, c);
    } else {
      hide RecordInv, Enabled, Asserted, Apply;
      OnlyTimersClose(s, step, c);
    }
  }

  lemma TimerKeepsServer(s: State, c: Id)
    ensures var m := TimerConnection(s, c).stats.connections;
            c in m ==> c in s.stats.connections && m[c].server == s.stats.connections[c].server
  {
  }

  lemma OneWaitsStep(s: State, step: Step, v: Id)
    requires RecordInv(s) && Enabled(s, step) && Asserted(s, step) && OneWaits(s, v)
    ensures OneWaits(Apply(s, step), v)
  {
    hide RecordInv, Enabled, Asserted, Apply;
    var s' := Apply(s, step);
    forall c, d | && Of(s', v, c) && Of(s', v, d)
                  && InStatus(s', c, ClosureAwaiting) && InStatus(s', d, ClosureAwaiting)
      ensures c == d
    {
      WaitedBefore(s, step, v, c);
      WaitedBefore(s, step, v, d);
    }
  }

  // ---------------------------------------------------------------- the same for threads

  ghost predicate ThreadMoves(s: State, s': State, t: Id)
    requires t in s.stats.threads && t in s'.stats.threads
  {
    var m := s.stats.threads;
    var was, now := m[t].status, s'.stats.threads[t].status;
    && (now == ClosureOnNextTry && was != now ==>
          was == ClosureAwaiting && forall u :: u in m ==> m[u].status != Active && m[u].status != ActiveAwaiting)
    && (now == ClosureAwaiting && was != now ==>
          was == Active && m[t].items == 0 && s.delay > 0
          && ((forall u :: u in m && u != t ==> m[u].full)
              || forall u :: u in m && u != t ==> m[u].status != ClosureAwaiting))
    && (now == Closing && was != now ==>
          || was == ClosureOnNextTry
          || (was == Active && m[t].items == 0
              && (s.delay == 0
                  || ((exists u :: u in m && u != t && !m[u].full)
                      && exists u :: u in m && u != t && m[u].status == ClosureAwaiting))))
  }

  ghost predicate ThreadSameEnd(s: State, s': State, t: Id)
  {
    ThreadIn(s', t, ClosureAwaiting) || ThreadIn(s', t, ClosureOnNextTry) || ThreadIn(s', t, Closing) ==>
      t in s.stats.threads && s'.stats.threads[t].status == s.stats.threads[t].status
  }

  lemma ThreadTimerMoves(s: State, t: Id)
    requires t in s.stats.threads
    ensures t in TimerThread(s, t).stats.threads && ThreadMoves(s, TimerThread(s, t), t)
  {
    GroupOfThreads(s.stats.threads, t);
    hide ThreadGroup;
  }

  lemma OnlyTimersCloseThread(s: State, step: Step, t: Id)
    requires RecordInv(s) && Enabled(s, step) && Asserted(s, step) && step != StepTimerThread(t)
    ensures ThreadSameEnd(s, Apply(s, step), t)
  {
    if OnConnections(step) {
      ConnectionsKeepThreads(s, step);
      hide RecordInv, Enabled, Asserted, Apply;
    } else {
      hide CloseConnection, CanChooseConnection, WhenClose;
    }
  }

  lemma ThreadMovesStep(s: State, step: Step, t: Id)
    requires RecordInv(s) && Enabled(s, step) && Asserted(s, step)
    requires t in s.stats.threads && t in Apply(s, step).stats.threads
    ensures ThreadMoves(s, Apply(s, step), t)
  {
    if step == StepTimerThread(t) {
      hide RecordInv, ThreadMoves, TimerThread;
      ThreadTimerMoves(s, t);
    } else {
      hide RecordInv, Enabled, Asserted, Apply;
      OnlyTimersCloseThread(s, step, t);
    }
  }

  ghost predicate OneThreadWaits(s: State)
  {
    forall t, u :: ThreadIn(s, t, ClosureAwaiting) && ThreadIn(s, u, ClosureAwaiting) ==> t == u
  }

  /** An empty thread is not full if threads may have connections at all, so the first that waits is spare. */
  lemma OneThreadWaitsStep(s: State, step: Step)
    requires RecordInv(s) && FullInv(s) && Enabled(s, step) && Asserted(s, step) && s.perThread > 0
    requires OneThreadWaits(s)
    ensures OneThreadWaits(Apply(s, step))
  {
    hide Enabled, Asserted, Apply;
    var s' := Apply(s, step);
    forall t, u | ThreadIn(s', t, ClosureAwaiting) && ThreadIn(s', u, ClosureAwaiting)
      ensures t == u
    {
      ThreadWaitedBefore(s, step, t);
      ThreadWaitedBefore(s, step, u);
    }
  }

  lemma ThreadWaitedBefore(s: State, step: Step, t: Id)
    requires RecordInv(s) && FullInv(s) && Enabled(s, step) && Asserted(s, step) && s.perThread > 0
    requires ThreadIn(Apply(s, step), t, ClosureAwaiting)
    ensures || ThreadIn(s, t, ClosureAwaiting)
            || (step == StepTimerThread(t) && forall u :: u != t ==> !ThreadIn(s, u, ClosureAwaiting))
  {
    if step == StepTimerThread(t) {
      assert t in s.stats.threads;
      ThreadTimerMoves(s, t);
      hide TimerThread;
      forall u | u != t && ThreadIn(s, u, ClosureAwaiting) ensures !s.stats.threads[u].full {
        assert ThreadOk(s, u);
      }
    } else {
      hide RecordInv, Enabled, Asserted, Apply;
      OnlyTimersCloseThread(s, step, t);
    }
  }

  // ---------------------------------------------------------------- whole runs

  ghost predicate ClosingInv(s: State)
  {
    AwaitInv(s) && FullInv(s) && (forall v :: OneWaits(s, v)) && (s.perThread > 0 ==> OneThreadWaits(s))
  }

  lemma ClosingStep(s: State, step: Step)
    requires RecordInv(s) && ClosingInv(s) && Enabled(s, step) && Asserted(s, step)
    ensures ClosingInv(Apply(s, step))
  {
    hide RecordInv, AwaitInv, FullInv, OneWaits, OneThreadWaits, Enabled, Asserted, Apply;
    if OnConnections(step) {
      AwaitByConnection(s, step);
    } else if OnThreads(step) {
      AwaitByThread(s, step);
    } else {
      AwaitByServer(s, step);
    }
    FullStep(s, step);
    LimitsAreFixed(s, step);
    forall v ensures OneWaits(Apply(s, step), v) {
      OneWaitsStep(s, step, v);
    }
    if s.perThread > 0 {
      OneThreadWaitsStep(s, step);
    }
  }

  lemma {:induction false} RunKeepsClosing(states: seq<State>, perServer: nat, perThread: nat, delay: nat, n: nat)
    requires IsRun(states, perServer, perThread, delay) && n < |states|
    ensures ClosingInv(states[n])
    decreases n
  {
    hide Enabled, Apply, Asserted, RecordInv, LinkInv, OwnInv, CountInv;
    if n > 0 {
      hide ClosingInv;
      RunKeepsClosing(states, perServer, perThread, delay, n - 1);
      RunKeepsInv(states, perServer, perThread, delay, n - 1);
      var s := states[n - 1];
      assert Follows(s, states[n]);
      var step :| Enabled(s, step) && Asserted(s, step) && states[n] == Apply(s, step);
      ClosingStep(s, step);
    }
  }

  /** A connection is ACTIVE_AWAITING exactly while its server's mutex is held for it. */
  lemma AwaitedIsHeld(states: seq<State>, perServer: nat, perThread: nat, delay: nat, n: nat, c: Id)
    requires IsRun(states, perServer, perThread, delay) && n < |states| && c in states[n].stats.connections
    ensures var s := states[n];
            var v := s.stats.connections[c].server;
            s.stats.connections[c].status == ActiveAwaiting <==>
              v in s.holders && (s.holders[v] == Picked(c) || s.holders[v] == Unplaced(c) || s.holders[v] == Placed(c))
  {
    RunKeepsClosing(states, perServer, perThread, delay, n);
    assert AwaitedOk(states[n], c);
  }

  /** A thread counts as full only with as many connections as the limit allows. */
  lemma FullIsFull(states: seq<State>, perServer: nat, perThread: nat, delay: nat, n: nat, t: Id)
    requires IsRun(states, perServer, perThread, delay) && n < |states| && t in states[n].stats.threads
    ensures states[n].stats.threads[t].full ==> states[n].stats.threads[t].items >= perThread
  {
    RunKeepsClosing(states, perServer, perThread, delay, n);
    RunKeepsInv(states, perServer, perThread, delay, n);
  }

  /** Of a server's connections at most one is CLOSURE_AWAITING, and of the threads if they may have connections. */
  lemma OneWaitsAtATime(states: seq<State>, perServer: nat, perThread: nat, delay: nat, n: nat, a: Id, b: Id)
    requires IsRun(states, perServer, perThread, delay) && n < |states|
    ensures var m := states[n].stats.connections;
            (&& a in m && b in m && m[a].server == m[b].server != SPECIAL
             && m[a].status == m[b].status == ClosureAwaiting) ==> a == b
    ensures var m := states[n].stats.threads;
            perThread > 0 && a in m && b in m && m[a].status == m[b].status == ClosureAwaiting ==> a == b
  {
    RunKeepsClosing(states, perServer, perThread, delay, n);
    RunKeepsInv(states, perServer, perThread, delay, n);
    var s := states[n];
    hide RecordInv, LinkInv, OwnInv, CountInv, AwaitInv, FullInv;
    if a in s.stats.connections {
      var v := s.stats.connections[a].server;
      assert OneWaits(s, v);
      assert Of(s, v, a) && Of(s, v, b) && InStatus(s, a, ClosureAwaiting) && InStatus(s, b, ClosureAwaiting) ==>
               a == b;
    }
    assert perThread > 0 && ThreadIn(s, a, ClosureAwaiting) && ThreadIn(s, b, ClosureAwaiting) ==> a == b;
  }

  /** Every move of a connection or a thread towards its end is one that the rules allow. */
  lemma MovesOfARun(states: seq<State>, perServer: nat, perThread: nat, delay: nat, n: nat, id: Id)
    requires IsRun(states, perServer, perThread, delay) && 0 < n < |states|
    ensures var s, s' := states[n - 1], states[n];
            && (id in s.stats.connections && id in s'.stats.connections ==> Moves(s, s', id))
            && (id in s.stats.threads && id in s'.stats.threads ==> ThreadMoves(s, s', id))
  {
    hide Enabled, Apply, Asserted, RecordInv, LinkInv, OwnInv, CountInv, Moves, ThreadMoves;
    RunKeepsInv(states, perServer, perThread, delay, n - 1);
    var s, s' := states[n - 1], states[n];
    assert Follows(s, s');
    var step :| Enabled(s, step) && Asserted(s, step) && s' == Apply(s, step);
    if id in s.stats.connections && id in s'.stats.connections {
      MovesStep(s, step, id);
    }
    if id in s.stats.threads && id in s'.stats.threads {
      ThreadMovesStep(s, step, id);
    }
  }

  // ---------------------------------------------------------------- an idle server's connections end

  /** No request is under way: the server is not locked, and none of its connections carries one. */
  ghost predicate Idle(s: State, v: Id)
  {
    v in s.stats.servers && Unlocked(s, v) && forall c :: Of(s, v, c) ==> c !in s.outstanding
  }

  ghost function InStatusOf(s: State, v: Id, status: Status): set<Id>
    requires v in s.stats.servers
  {
    set c | c in s.stats.servers[v] && InStatus(s, c, status)
  }

  /** All connections of v are closing, and nothing else has changed. */
  ghost function AllClosing(s: State, v: Id): State
  {
    var m := s.stats.connections;
    WithStats(s, s.stats.(connections := map c | c in m :: if m[c].server == v then m[c].(status := Closing) else m[c]))
  }

  ghost function WithStatus(s: State, c: Id, status: Status): State
    requires c in s.stats.connections
  {
    var m := s.stats.connections;
    WithStats(s, s.stats.(connections := m[c := m[c].(status := status)]))
  }

  lemma IdleTimer(s: State, v: Id, c: Id) returns (next: Status)
    requires RecordInv(s) && AwaitInv(s) && Idle(s, v) && Of(s, v, c)
    ensures TimerConnection(s, c) == WithStatus(s, c, next)
    ensures match s.stats.connections[c].status
            case Active => next == ClosureAwaiting || next == Closing
            case ClosureAwaiting => InStatusOf(s, v, Active) == {} ==> next == ClosureOnNextTry
            case _ => next == Closing
  {
    assert RecordOk(s, c) && AwaitedOk(s, c);
    next := TimerConnection(s, c).stats.connections[c].status;
    forall d { PeersAreListed(s, v, d); }
    forall d | Of(s, v, d) ensures !InStatus(s, d, ActiveAwaiting) {
      assert AwaitedOk(s, d);
    }
    GroupOfConnections(s.stats.connections, s.stats.servers[v], c);
    hide RecordInv, ConnectionGroup;
    if InStatusOf(s, v, Active) == {} {
      forall d | Of(s, v, d) ensures !InStatus(s, d, Active) {
        assert d !in InStatusOf(s, v, Active);
      }
    }
  }

  ghost function Last(states: seq<State>): State
    requires states != []
  {
    states[|states| - 1]
  }

  lemma Extend(states: seq<State>, perServer: nat, perThread: nat, delay: nat, c: Id) returns (more: seq<State>)
    requires IsRun(states, perServer, perThread, delay)
    ensures IsRun(more, perServer, perThread, delay) && states <= more
    ensures more != [] && Last(more) == TimerConnection(Last(states), c)
  {
    var s, step := Last(states), StepTimerConnection(c);
    assert Enabled(s, step) && Asserted(s, step) && Apply(s, step) == TimerConnection(s, c);
    hide Enabled, Asserted, Apply, TimerConnection;
    assert Follows(s, TimerConnection(s, c));
    hide Follows;
    more := states + [TimerConnection(s, c)];
  }

  /** What a change of one status does to the sets of connections by status. */
  lemma StatusMoves(s: State, v: Id, c: Id, next: Status)
    requires RecordInv(s) && v in s.stats.servers && Of(s, v, c) && next != s.stats.connections[c].status
    ensures var s', was := WithStatus(s, c, next), s.stats.connections[c].status;
            && c in InStatusOf(s, v, was) && InStatusOf(s', v, was) == InStatusOf(s, v, was) - {c}
            && forall st :: st != was && st != next ==> InStatusOf(s', v, st) == InStatusOf(s, v, st)
  {
    PeersAreListed(s, v, c);
    hide RecordInv;
    var s', was := WithStatus(s, c, next), s.stats.connections[c].status;
    forall st | st != was && st != next ensures InStatusOf(s', v, st) == InStatusOf(s, v, st) {
      forall d ensures d in InStatusOf(s', v, st) <==> d in InStatusOf(s, v, st) {
      }
    }
  }

  lemma StillIdle(s: State, v: Id, c: Id, next: Status)
    requires Idle(s, v) && Of(s, v, c)
    ensures var s' := WithStatus(s, c, next); Idle(s', v) && AllClosing(s', v) == AllClosing(s, v)
  {
    var s' := WithStatus(s, c, next);
    forall d | Of(s', v, d) ensures d !in s'.outstanding {
      assert Of(s, v, d);
    }
    assert AllClosing(s', v).stats.connections == AllClosing(s, v).stats.connections;
  }

  /** The connection whose timer is to run next: an active one, else one that waits, else one on its last try. */
  lemma Candidate(s: State, v: Id) returns (c: Id)
    requires RecordInv(s) && AwaitInv(s) && Idle(s, v) && AllClosing(s, v) != s
    ensures Of(s, v, c) && s.stats.connections[c].status != Closing
    ensures s.stats.connections[c].status == ClosureAwaiting ==> InStatusOf(s, v, Active) == {}
    ensures s.stats.connections[c].status != ActiveAwaiting
  {
    var m := s.stats.connections;
    assert v != SPECIAL by { assert ServerOk(s, v); }
    if InStatusOf(s, v, Active) != {} {
      c :| c in InStatusOf(s, v, Active);
      PeersAreListed(s, v, c);
    } else {
      assert AllClosing(s, v).stats.connections != m;
      c :| c in m && m[c].server == v && m[c].status != Closing;
      assert AwaitedOk(s, c);
    }
  }

  /** From every run that ends with a server idle, timers alone bring all its connections to CLOSING. */
  lemma {:induction false} IdleServerCloses(states: seq<State>, perServer: nat, perThread: nat, delay: nat, v: Id)
    returns (more: seq<State>)
    requires IsRun(states, perServer, perThread, delay) && Idle(Last(states), v)
    ensures IsRun(more, perServer, perThread, delay) && states <= more
    ensures more != [] && Last(more) == AllClosing(Last(states), v)
    decreases |InStatusOf(Last(states), v, Active)|, |InStatusOf(Last(states), v, ClosureAwaiting)|,
              |InStatusOf(Last(states), v, ClosureOnNextTry)|
  {
    hide IsRun, Inv, ClosingInv, RecordInv, AwaitInv, TimerConnection, WithStatus, InStatusOf, AllClosing;
    IdleFacts(states, perServer, perThread, delay);
    var s := Last(states);
    if AllClosing(s, v) == s {
      return states;
    }
    var c := Candidate(s, v);
    var next := IdleTimer(s, v, c);
    StatusMoves(s, v, c, next);
    StillIdle(s, v, c, next);
    more := Extend(states, perServer, perThread, delay, c);
    more := IdleServerCloses(more, perServer, perThread, delay, v);
  }

  lemma IdleFacts(states: seq<State>, perServer: nat, perThread: nat, delay: nat)
    requires IsRun(states, perServer, perThread, delay)
    ensures states != [] && RecordInv(Last(states)) && AwaitInv(Last(states))
  {
    hide RecordInv, AwaitInv, LinkInv, OwnInv, CountInv;
    RunKeepsInv(states, perServer, perThread, delay, |states| - 1);
    RunKeepsClosing(states, perServer, perThread, delay, |states| - 1);
  }

  // ---------------------------------------------------------------- idle threads end

  /** No thread has a connection or is about to get one. */
  ghost predicate AllIdle(s: State)
  {
    forall t :: t in s.stats.threads ==> s.stats.threads[t].items == 0 && s.stats.threads[t].status != ActiveAwaiting
  }

  ghost function ThreadsIn(s: State, status: Status): set<Id>
  {
    set t | t in s.stats.threads && s.stats.threads[t].status == status
  }

  ghost function AllThreadsClosing(s: State): State
  {
    var m := s.stats.threads;
    WithStats(s, s.stats.(threads := map t | t in m :: m[t].(status := Closing)))
  }

  ghost function WithThread(s: State, t: Id, status: Status): State
    requires t in s.stats.threads
  {
    var m := s.stats.threads;
    WithStats(s, s.stats.(threads := m[t := m[t].(status := status)]))
  }

  lemma IdleThreadTimer(s: State, t: Id) returns (next: Status)
    requires AllIdle(s) && t in s.stats.threads
    ensures TimerThread(s, t) == WithThread(s, t, next)
    ensures match s.stats.threads[t].status
            case Active => next == ClosureAwaiting || next == Closing
            case ClosureAwaiting => ThreadsIn(s, Active) == {} ==> next == ClosureOnNextTry
            case _ => next == Closing
  {
    next := TimerThread(s, t).stats.threads[t].status;
    GroupOfThreads(s.stats.threads, t);
    hide ThreadGroup;
    if ThreadsIn(s, Active) == {} {
      forall u | u in s.stats.threads ensures s.stats.threads[u].status != Active {
        assert u !in ThreadsIn(s, Active);
      }
    }
  }

  lemma ThreadMovesOn(s: State, t: Id, next: Status)
    requires AllIdle(s) && t in s.stats.threads && next != s.stats.threads[t].status && next != ActiveAwaiting
    ensures var s', was := WithThread(s, t, next), s.stats.threads[t].status;
            && AllIdle(s') && AllThreadsClosing(s') == AllThreadsClosing(s)
            && t in ThreadsIn(s, was) && ThreadsIn(s', was) == ThreadsIn(s, was) - {t}
            && forall st :: st != was && st != next ==> ThreadsIn(s', st) == ThreadsIn(s, st)
  {
    var s', was := WithThread(s, t, next), s.stats.threads[t].status;
    assert AllThreadsClosing(s').stats.threads == AllThreadsClosing(s).stats.threads;
    forall st | st != was && st != next ensures ThreadsIn(s', st) == ThreadsIn(s, st) {
      forall u ensures u in ThreadsIn(s', st) <==> u in ThreadsIn(s, st) {
      }
    }
  }

  lemma ThreadCandidate(s: State) returns (t: Id)
    requires AllIdle(s) && AllThreadsClosing(s) != s
    ensures t in s.stats.threads && s.stats.threads[t].status != Closing
    ensures s.stats.threads[t].status == ClosureAwaiting ==> ThreadsIn(s, Active) == {}
  {
    var m := s.stats.threads;
    if ThreadsIn(s, Active) != {} {
      t :| t in ThreadsIn(s, Active);
    } else {
      assert AllThreadsClosing(s).stats.threads != m;
      t :| t in m && m[t].status != Closing;
    }
  }

  lemma ExtendThread(states: seq<State>, perServer: nat, perThread: nat, delay: nat, t: Id) returns (more: seq<State>)
    requires IsRun(states, perServer, perThread, delay)
    ensures IsRun(more, perServer, perThread, delay) && states <= more
    ensures more != [] && Last(more) == TimerThread(Last(states), t)
  {
    var s, step := Last(states), StepTimerThread(t);
    assert Enabled(s, step) && Asserted(s, step) && Apply(s, step) == TimerThread(s, t);
    hide Enabled, Asserted, Apply, TimerThread;
    assert Follows(s, TimerThread(s, t));
    hide Follows;
    more := states + [TimerThread(s, t)];
  }

  /** From every run that ends with all threads idle, timers alone bring them all to CLOSING. */
  lemma {:induction false} IdleThreadsClose(states: seq<State>, perServer: nat, perThread: nat, delay: nat)
    returns (more: seq<State>)
    requires states != [] && IsRun(states, perServer, perThread, delay) && AllIdle(Last(states))
    ensures IsRun(more, perServer, perThread, delay) && states <= more
    ensures more != [] && Last(more) == AllThreadsClosing(Last(states))
    decreases |ThreadsIn(Last(states), Active)|, |ThreadsIn(Last(states), ClosureAwaiting)|,
              |ThreadsIn(Last(states), ClosureOnNextTry)|
  {
    hide IsRun, TimerThread, WithThread, ThreadsIn, AllThreadsClosing;
    var s := Last(states);
    if AllThreadsClosing(s) == s {
      return states;
    }
    var t := ThreadCandidate(s);
    var next := IdleThreadTimer(s, t);
    ThreadMovesOn(s, t, next);
    more := ExtendThread(states, perServer, perThread, delay, t);
    more := IdleThreadsClose(more, perServer, perThread, delay);
  }

  // ---------------------------------------------------------------- whoever holds a lock can go on

  /** An address that no object has had. */
  lemma FreshId(used: set<Id>) returns (id: Id)
    ensures id != SPECIAL && id !in used && forall u :: u in used ==> u < id
    decreases used
  {
    if used == {} {
      id := 1;
    } else {
      var u :| u in used;
      var other := FreshId(used - {u});
      id := if u < other then other else u + 1;
      assert forall w :: w in used ==> w == u || w in used - {u};
    }
  }

  lemma LeastOf(s: Stats, ids: set<Id>) returns (c: Id)
    requires ids != {} && ids <= s.connections.Keys
    ensures c in ids && forall d :: d in ids ==> s.connections[c].items <= s.connections[d].items
    decreases ids
  {
    c :| c in ids;
    var rest := ids - {c};
    assert forall e :: e in ids ==> e == c || e in rest;
    if rest != {} {
      var d := LeastOf(s, rest);
      if s.connections[d].items < s.connections[c].items {
        c := d;
      }
    }
  }

  /** choose_connection has an answer. */
  lemma ConnectionChoice(s: State, v: Id) returns (c: Id)
    requires RecordInv(s) && Unlocked(s, v)
    ensures CanChooseConnection(s, v, c)
  {
    var ids := Usable(s.stats, v);
    if ids == {} {
      return SPECIAL;
    }
    var d := LeastOf(s.stats, ids);
    assert d != SPECIAL by { assert RecordOk(s, d); }
    c := if s.stats.connections[d].items == 0 || |s.stats.servers[v]| >= s.perServer then d else SPECIAL;
  }

  /** choose_thread has an answer. */
  lemma ThreadChoice(m: map<Id, Thread>, perThread: nat) returns (t: Id, after: map<Id, Thread>)
    requires SPECIAL !in m
    ensures ChoosesThread(m, perThread, t, after)
  {
    if u :| u in m && m[u].status != Closing && m[u].items < perThread {
      return u, m[u := m[u].(status := ActiveAwaiting)];
    }
    return SPECIAL, map u | u in m :: if m[u].status == Closing then m[u] else m[u].(full := true);
  }

  ghost predicate GoesOn(s: State, v: Id)
    requires v in s.holders
  {
    match s.holders[v]
    case Free => exists c :: Enabled(s, StepChooseConnection(v, c))
    case NeedConnection => exists c :: Enabled(s, StepNewConnection(v, c))
    case Unplaced(_) =>
      && Enabled(s, StepPlaceFails(v))
      && (s.pool.PoolFree? ==> exists t, after :: Enabled(s, StepChooseThread(v, t, after)))
    case _ => Enabled(s, StepAddRequest(v))
  }

  lemma FreeGoesOn(s: State, v: Id)
    requires RecordInv(s) && v in s.holders && s.holders[v].Free?
    ensures GoesOn(s, v)
  {
    var c := ConnectionChoice(s, v);
    hide RecordInv, CanChooseConnection;
    assert Enabled(s, StepChooseConnection(v, c));
  }

  lemma UnplacedGoesOn(s: State, v: Id)
    requires RecordInv(s) && v in s.holders && s.holders[v].Unplaced?
    ensures GoesOn(s, v)
  {
    assert SPECIAL in s.stats.threads ==> ThreadOk(s, SPECIAL);
    if s.pool.PoolFree? {
      var t, after := ThreadChoice(s.stats.threads, s.perThread);
      hide RecordInv, ChoosesThread;
      assert Enabled(s, StepChooseThread(v, t, after));
    }
  }

  /** In every reachable state, a server can take a request, and one that is locked can go on with its own. */
  lemma ServersGoOn(states: seq<State>, perServer: nat, perThread: nat, delay: nat, n: nat, v: Id)
    requires IsRun(states, perServer, perThread, delay) && n < |states| && v in states[n].holders
    ensures GoesOn(states[n], v)
  {
    hide Follows, RecordInv, LinkInv, OwnInv, CountInv;
    RunKeepsInv(states, perServer, perThread, delay, n);
    var s := states[n];
    if s.holders[v].Free? {
      hide GoesOn;
      FreeGoesOn(s, v);
    } else if s.holders[v].Unplaced? {
      hide GoesOn;
      UnplacedGoesOn(s, v);
    } else if s.holders[v].NeedConnection? {
      var c := FreshId(s.used + s.stats.connections.Keys);
      assert Enabled(s, StepNewConnection(v, c));
    }
  }

  /** And so can the thread pool. */
  lemma PoolGoesOn(states: seq<State>, perServer: nat, perThread: nat, delay: nat, n: nat)
    requires IsRun(states, perServer, perThread, delay) && n < |states|
    ensures var s := states[n];
            && (s.pool.NeedThread? ==> exists t :: Enabled(s, StepNewThread(t)))
            && (s.pool.Chosen? ==> Enabled(s, StepLinkThread))
  {
    var s := states[n];
    if s.pool.NeedThread? {
      var t := FreshId(s.used);
      assert Enabled(s, StepNewThread(t));
    }
  }
}
