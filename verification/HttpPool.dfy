/**
  The lock discipline of src/HTTP/HttpAsyncPool.cpp around the pool policies. A server's
  mutex is held from the choice of a connection until the request is counted, and the
  thread pool's mutex from the choice of a thread until the connection is counted; every
  call of the policy in between is one step, and timers, removals and other servers may
  take theirs at any point.
 */
module HttpPool {
  import opened HttpPolicy

  /** What Server::add_request has done under the server's mutex. */
  datatype Holder =
    | Free
    | NeedConnection             // choose_connection gave nothing
    | Picked(c: Id)              // it gave c
    | Unplaced(c: Id)            // c is new and known to the policy, but has no thread
    | Placed(c: Id)              // c is new and was given to a thread

  /** What EventThreadPool::add_connection has done under the pool's mutex. */
  datatype PoolHolder =
    | PoolFree
    | NeedThread(server: Id, c: Id)
    | Chosen(server: Id, c: Id, t: Id)

  datatype State = State(
    perServer: nat, perThread: nat, delay: nat,
    stats: Stats,
    owned: map<Id, Id>,          // the server whose connections_ holds a connection
    members: set<Id>,            // threads_ of the pool
    served: map<Id, Id>,         // the thread whose queue or map holds a connection
    holders: map<Id, Holder>,
    pool: PoolHolder,
    outstanding: multiset<Id>,   // requests that were counted in, by connection
    used: set<Id>)               // addresses that objects have had

  // ---------------------------------------------------------------- the steps

  ghost predicate Unused(s: State, id: Id)
  {
    id != SPECIAL && id !in s.used
  }

  /** The server exists and its mutex is free. */
  ghost predicate Unlocked(s: State, v: Id)
  {
    v in s.holders && s.holders[v].Free?
  }

  /** The server's own map holds the connection. */
  ghost predicate Owns(s: State, v: Id, c: Id)
  {
    c in s.owned && s.owned[c] == v
  }

  ghost predicate CanRemoveServer(s: State, v: Id)
  {
    Unlocked(s, v) && forall c :: c in s.owned ==> s.owned[c] != v
  }

  ghost function WithStats(s: State, st: Stats): State
  {
    s.(stats := st)
  }

  ghost function Hold(s: State, v: Id, h: Holder): State
  {
    s.(holders := s.holders[v := h])
  }

  ghost function AddServer(s: State, v: Id): State
    requires Unused(s, v)
  {
    Hold(WithStats(s, s.stats.(servers := s.stats.servers[v := {}])), v, Free).(used := s.used + {v})
  }

  /** remove_by_address, once deactivate() has seen the last connection go. */
  ghost function RemoveServer(s: State, v: Id): State
  {
    WithStats(s, s.stats.(servers := s.stats.servers - {v})).(holders := s.holders - {v})
  }

  ghost predicate CanChooseConnection(s: State, v: Id, c: Id)
  {
    Unlocked(s, v) && ChoosesConnection(s.stats, s.perServer, v, c)
  }

  ghost function ChooseConnection(s: State, v: Id, c: Id): State
    requires CanChooseConnection(s, v, c)
  {
    if c == SPECIAL then Hold(s, v, NeedConnection) else Pick(s, v, c)
  }

  /** The chosen connection is marked so that no timer closes it before its request is counted. */
  ghost function Pick(s: State, v: Id, c: Id): State
    requires c in s.stats.connections
  {
    var m := s.stats.connections;
    Hold(WithStats(s, s.stats.(connections := m[c := m[c].(status := ActiveAwaiting)])), v, Picked(c))
  }

  ghost predicate CanNewConnection(s: State, v: Id, c: Id)
  {
    v in s.holders && s.holders[v].NeedConnection? && Unused(s, c) && c !in s.stats.connections
  }

  ghost function NewConnection(s: State, v: Id, c: Id): State
    requires CanNewConnection(s, v, c)
  {
    Hold(WithStats(s, ServerConnectionAdded(s.stats, v, c)), v, Unplaced(c))
      .(used := s.used + {c}, owned := s.owned[c := v])
  }

  ghost predicate CanPlace(s: State, v: Id)
  {
    v in s.holders && s.holders[v].Unplaced?
  }

  /** place_connection throws, before or while it holds the pool's mutex. */
  ghost function PlaceFails(s: State, v: Id): State
    requires CanPlace(s, v)
  {
    Hold(WithStats(s, ServerConnectionRemoved(s.stats, v, s.holders[v].c)), v, Free)
      .(pool := if !s.pool.PoolFree? && s.pool.server == v then PoolFree else s.pool,
        owned := s.owned - {s.holders[v].c})
  }

  ghost predicate CanChooseThread(s: State, v: Id, t: Id, after: map<Id, Thread>)
  {
    CanPlace(s, v) && s.pool.PoolFree? && ChoosesThread(s.stats.threads, s.perThread, t, after)
  }

  ghost function ChooseThread(s: State, v: Id, t: Id, after: map<Id, Thread>): State
    requires CanChooseThread(s, v, t, after)
  {
    var c := s.holders[v].c;
    WithStats(s, s.stats.(threads := after)).(pool := if t == SPECIAL then NeedThread(v, c) else Chosen(v, c, t))
  }

  ghost function NewThread(s: State, t: Id): State
    requires s.pool.NeedThread? && Unused(s, t)
  {
    WithStats(s, s.stats.(threads := s.stats.threads[t := Thread(ActiveAwaiting, 0, false)]))
      .(pool := Chosen(s.pool.server, s.pool.c, t), used := s.used + {t}, members := s.members + {t})
  }

  ghost function LinkThread(s: State): State
    requires s.pool.Chosen?
  {
    Hold(WithStats(s, ThreadConnectionAdded(s.stats, s.pool.t, s.pool.c)), s.pool.server, Placed(s.pool.c))
      .(pool := PoolFree, served := s.served[s.pool.c := s.pool.t])
  }

  /** The thread has the connection, whatever the statistics say. */
  ghost predicate CanUnlink(s: State, t: Id, c: Id)
  {
    c in s.served && s.served[c] == t
  }

  /** The assertions of thread_connection_removed_i. */
  ghost predicate ThreadCounted(s: State, t: Id, c: Id)
  {
    && (c in s.stats.connections ==> s.stats.connections[c].thread == t)
    && (t in s.stats.threads ==> s.stats.threads[t].items > 0)
  }

  /** The thread lets go of a connection: exclude_connection, or a failure to take it over. */
  ghost function UnlinkThread(s: State, t: Id, c: Id): State
    requires ThreadCounted(s, t, c)
  {
    WithStats(s, ThreadConnectionRemoved(s.stats, t, c)).(served := s.served - {c})
  }

  ghost predicate CanAddRequest(s: State, v: Id)
  {
    v in s.holders && (s.holders[v].Picked? || s.holders[v].Placed?)
  }

  ghost function AddRequest(s: State, v: Id): State
    requires CanAddRequest(s, v)
  {
    var c := s.holders[v].c;
    Hold(WithStats(s, RequestAdded(s.stats, c)), v, Free).(outstanding := s.outstanding + multiset{c})
  }

  /** The assertion items_count > 0 of connection_request_removed_i. */
  ghost predicate RequestCounted(s: State, c: Id)
  {
    c in s.stats.connections ==> s.stats.connections[c].items > 0
  }

  ghost function RemoveRequest(s: State, c: Id): State
    requires RequestCounted(s, c)
  {
    WithStats(s, RequestRemoved(s.stats, c)).(outstanding := s.outstanding - multiset{c})
  }

  ghost function TimerConnection(s: State, c: Id): State
  {
    if c in s.stats.connections && s.stats.connections[c].server in s.stats.servers
    then WithStats(s, s.stats.(connections := CloseConnection(s.stats, c, s.delay)))
    else s
  }

  ghost function TimerThread(s: State, t: Id): State
  {
    if t in s.stats.threads then WithStats(s, s.stats.(threads := CloseThread(s.stats.threads, t, s.delay))) else s
  }

  /** exclude_connection and deactivate_connection_, which lock the server. */
  ghost function Release(s: State, v: Id, c: Id): State
  {
    WithStats(s, ServerConnectionRemoved(s.stats, v, c)).(owned := s.owned - {c})
  }

  /** exclude_thread_from_choice_list and deactivate_object, which lock the pool. */
  ghost function RemoveThread(s: State, t: Id): State
    requires s.pool.PoolFree?
  {
    WithStats(s, s.stats.(threads := s.stats.threads - {t})).(members := s.members - {t})
  }

  datatype Step =
    | StepAddServer(v: Id)
    | StepRemoveServer(v: Id)
    | StepChooseConnection(v: Id, c: Id)
    | StepNewConnection(v: Id, c: Id)
    | StepPlaceFails(v: Id)
    | StepChooseThread(v: Id, t: Id, after: map<Id, Thread>)
    | StepNewThread(t: Id)
    | StepLinkThread
    | StepUnlinkThread(t: Id, c: Id)
    | StepAddRequest(v: Id)
    | StepRemoveRequest(c: Id)
    | StepTimerConnection(c: Id)
    | StepTimerThread(t: Id)
    | StepRelease(v: Id, c: Id)
    | StepRemoveThread(t: Id)

  ghost predicate OnConnections(step: Step)
  {
    || step.StepChooseConnection? || step.StepNewConnection?
    || step.StepAddRequest? || step.StepRemoveRequest? || step.StepTimerConnection?
  }

  ghost predicate OnThreads(step: Step)
  {
    || step.StepChooseThread? || step.StepNewThread? || step.StepLinkThread?
    || step.StepUnlinkThread? || step.StepTimerThread? || step.StepRemoveThread?
  }

  ghost predicate Enabled(s: State, step: Step)
  {
    match step
    case StepAddServer(v) => Unused(s, v)
    case StepRemoveServer(v) => CanRemoveServer(s, v)
    case StepChooseConnection(v, c) => CanChooseConnection(s, v, c)
    case StepNewConnection(v, c) => CanNewConnection(s, v, c)
    case StepPlaceFails(v) => CanPlace(s, v)
    case StepChooseThread(v, t, after) => CanChooseThread(s, v, t, after)
    case StepNewThread(t) => s.pool.NeedThread? && Unused(s, t)
    case StepLinkThread => s.pool.Chosen?
    case StepUnlinkThread(t, c) => CanUnlink(s, t, c)
    case StepAddRequest(v) => CanAddRequest(s, v)
    case StepRemoveRequest(c) => c in s.outstanding
    case StepTimerConnection(_) => true
    case StepTimerThread(_) => true
    case StepRelease(v, c) => Unlocked(s, v) && Owns(s, v, c)
    case StepRemoveThread(t) => s.pool.PoolFree? && t in s.members
  }

  /** The assertion of server_connection_removed_i. */
  ghost predicate LinkedToServer(s: State, c: Id, v: Id)
  {
    c in s.stats.connections ==> s.stats.connections[c].server == v
  }

  /** The assertions of thread_connection_added_i. */
  ghost predicate AwaitsThread(s: State, c: Id)
  {
    c in s.stats.connections ==> s.stats.connections[c].server != 0 && s.stats.connections[c].thread == 0
  }

  /** The policy's choice is one that the server or the pool knows, so neither throws. */
  ghost predicate ChoiceIsKnown(s: State, step: Step)
  {
    && (step.StepChooseConnection? && step.c != SPECIAL ==> Owns(s, step.v, step.c))
    && (step.StepChooseThread? && step.t != SPECIAL ==> step.t in s.members)
  }

  /** The assertions and checks of the source hold where this step meets them. */
  ghost predicate Asserted(s: State, step: Step)
    requires Enabled(s, step)
  {
    && (step.StepUnlinkThread? ==> ThreadCounted(s, step.t, step.c))
    && (step.StepRemoveRequest? ==> RequestCounted(s, step.c))
    && (step.StepRelease? ==> LinkedToServer(s, step.c, step.v))
    && (step.StepPlaceFails? ==> LinkedToServer(s, s.holders[step.v].c, step.v))
    && (step.StepLinkThread? ==> AwaitsThread(s, s.pool.c))
    && ChoiceIsKnown(s, step)
  }

  ghost function Apply(s: State, step: Step): State
    requires Enabled(s, step) && Asserted(s, step)
  {
    match step
    case StepAddServer(v) => AddServer(s, v)
    case StepRemoveServer(v) => RemoveServer(s, v)
    case StepChooseConnection(v, c) => ChooseConnection(s, v, c)
    case StepNewConnection(v, c) => NewConnection(s, v, c)
    case StepPlaceFails(v) => PlaceFails(s, v)
    case StepChooseThread(v, t, after) => ChooseThread(s, v, t, after)
    case StepNewThread(t) => NewThread(s, t)
    case StepLinkThread => LinkThread(s)
    case StepUnlinkThread(t, c) => UnlinkThread(s, t, c)
    case StepAddRequest(v) => AddRequest(s, v)
    case StepRemoveRequest(c) => RemoveRequest(s, c)
    case StepTimerConnection(c) => TimerConnection(s, c)
    case StepTimerThread(t) => TimerThread(s, t)
    case StepRelease(v, c) => Release(s, v, c)
    case StepRemoveThread(t) => RemoveThread(s, t)
  }

  ghost function Init(perServer: nat, perThread: nat, delay: nat): State
  {
    State(perServer, perThread, delay, Stats(map[], map[], map[]), map[], {}, map[], map[], PoolFree, multiset{}, {})
  }

  // ---------------------------------------------------------------- records

  /** A connection record: linked on at least one side, empty if on the way out, and counting its requests. */
  ghost predicate RecordOk(s: State, c: Id)
    requires c in s.stats.connections
  {
    var r := s.stats.connections[c];
    && c != SPECIAL && c in s.used
    && (r.server != 0 || r.thread != 0)
    && (r.thread != 0 ==> r.thread in s.used)
    && (r.server != 0 ==> r.server in s.stats.servers && c in s.stats.servers[r.server])
    && (OnTheWayOut(r.status) ==> r.items == 0)
    && r.items == s.outstanding[c]
  }

  ghost predicate ServerOk(s: State, v: Id)
    requires v in s.stats.servers
  {
    && v != SPECIAL && v in s.used
    && forall c :: c in s.stats.servers[v] ==> c in s.stats.connections && s.stats.connections[c].server == v
  }

  ghost predicate ThreadOk(s: State, t: Id)
    requires t in s.stats.threads
  {
    t != SPECIAL && t in s.used && (OnTheWayOut(s.stats.threads[t].status) ==> s.stats.threads[t].items == 0)
  }

  /** While a server is locked, the connection it works on awaits its request. */
  ghost predicate HolderOk(s: State, v: Id)
    requires v in s.holders
  {
    var h := s.holders[v];
    h.Picked? || h.Unplaced? || h.Placed? ==>
      && v in s.stats.servers && h.c in s.stats.servers[v]
      && h.c in s.stats.connections && s.stats.connections[h.c].status == ActiveAwaiting
      && (h.Unplaced? ==> s.stats.connections[h.c].thread == 0)
  }

  /** While the pool is locked, the thread it works on awaits its connection. */
  ghost predicate PoolOk(s: State)
  {
    && (!s.pool.PoolFree? ==> s.pool.server in s.holders && s.holders[s.pool.server] == Unplaced(s.pool.c))
    && (s.pool.Chosen? ==> s.pool.t in s.stats.threads && s.stats.threads[s.pool.t].status == ActiveAwaiting)
  }

  ghost predicate RecordInv(s: State)
  {
    && s.holders.Keys == s.stats.servers.Keys
    && (forall c :: c in s.stats.connections ==> RecordOk(s, c))
    && (forall v :: v in s.stats.servers ==> ServerOk(s, v))
    && (forall t :: t in s.stats.threads ==> ThreadOk(s, t))
    && (forall v :: v in s.holders ==> HolderOk(s, v))
    && PoolOk(s)
    && (forall c :: c in s.outstanding ==> c in s.used)
  }

  lemma RecordAddServer(s: State, v: Id)
    requires RecordInv(s) && Unused(s, v)
    ensures RecordInv(AddServer(s, v))
  {
  }

  lemma RecordRemoveServer(s: State, v: Id)
    requires RecordInv(s) && Unlocked(s, v) && v in s.stats.servers && s.stats.servers[v] == {}
    ensures RecordInv(RemoveServer(s, v))
  {
    assert ServerOk(s, v);
  }

  lemma RecordPicked(s: State, v: Id, c: Id)
    requires RecordInv(s) && Unlocked(s, v) && v in s.stats.servers && c in s.stats.servers[v]
    requires c in s.stats.connections && s.stats.connections[c].status != Closing
    ensures RecordInv(Pick(s, v, c))
  {
  }

  lemma RecordChooseConnection(s: State, v: Id, c: Id)
    requires RecordInv(s) && CanChooseConnection(s, v, c)
    ensures RecordInv(ChooseConnection(s, v, c))
  {
    if c != SPECIAL {
      assert c in s.stats.servers[v] && c in s.stats.connections && s.stats.connections[c].status != Closing;
      hide ChoosesConnection, Usable, RecordInv;
      RecordPicked(s, v, c);
    }
  }

  lemma RecordNewConnection(s: State, v: Id, c: Id)
    requires RecordInv(s) && CanNewConnection(s, v, c)
    ensures RecordInv(NewConnection(s, v, c))
  {
  }

  lemma RecordPlaceFails(s: State, v: Id)
    requires RecordInv(s) && CanPlace(s, v)
    ensures RecordInv(PlaceFails(s, v))
  {
  }

  lemma RecordChooseThread(s: State, v: Id, t: Id, after: map<Id, Thread>)
    requires RecordInv(s) && CanChooseThread(s, v, t, after)
    ensures RecordInv(ChooseThread(s, v, t, after))
  {
  }

  lemma RecordNewThread(s: State, t: Id)
    requires RecordInv(s) && s.pool.NeedThread? && Unused(s, t)
    ensures RecordInv(NewThread(s, t))
  {
  }

  lemma RecordLinkThread(s: State)
    requires RecordInv(s) && s.pool.Chosen?
    ensures RecordInv(LinkThread(s))
  {
  }

  lemma RecordUnlinkThread(s: State, t: Id, c: Id)
    requires RecordInv(s) && CanUnlink(s, t, c) && ThreadCounted(s, t, c)
    ensures RecordInv(UnlinkThread(s, t, c))
  {
  }

  lemma RecordAddRequest(s: State, v: Id)
    requires RecordInv(s) && CanAddRequest(s, v)
    ensures RecordInv(AddRequest(s, v))
  {
  }

  lemma RecordRemoveRequest(s: State, c: Id)
    requires RecordInv(s) && c in s.outstanding
    ensures RequestCounted(s, c) && RecordInv(RemoveRequest(s, c))
  {
  }

  lemma RecordTimerConnection(s: State, c: Id)
    requires RecordInv(s)
    ensures RecordInv(TimerConnection(s, c))
  {
  }

  lemma RecordTimerThread(s: State, t: Id)
    requires RecordInv(s)
    ensures RecordInv(TimerThread(s, t))
  {
  }

  lemma RecordRelease(s: State, v: Id, c: Id)
    requires RecordInv(s) && Unlocked(s, v) && v in s.stats.servers && c in s.stats.servers[v]
    ensures RecordInv(Release(s, v, c))
  {
  }

  lemma RecordRemoveThread(s: State, t: Id)
    requires RecordInv(s) && s.pool.PoolFree?
    ensures RecordInv(RemoveThread(s, t))
  {
  }

  // ---------------------------------------------------------------- links

  /** The statistics link a connection to the thread that has it, and to no other. */
  ghost predicate LinkOk(s: State, c: Id)
    requires c in s.stats.connections
  {
    s.stats.connections[c].thread == if c in s.served then s.served[c] else 0
  }

  ghost predicate ServedOk(s: State, c: Id)
    requires c in s.served
  {
    s.served[c] != SPECIAL && c in s.stats.connections
  }

  ghost predicate LinkInv(s: State)
  {
    && (forall c :: c in s.stats.connections ==> LinkOk(s, c))
    && (forall c :: c in s.served ==> ServedOk(s, c))
  }

  /** No thread changes, and records keep their thread; a new one has none. */
  ghost predicate LinksStay(s: State, s': State)
  {
    && s'.stats.threads == s.stats.threads && s.used <= s'.used && s'.served == s.served
    && s.stats.connections.Keys <= s'.stats.connections.Keys
    && forall c :: c in s'.stats.connections ==>
         s'.stats.connections[c].thread == if c in s.stats.connections then s.stats.connections[c].thread else 0
  }

  lemma StayingKeepsLinkInv(s: State, s': State)
    requires LinkInv(s) && LinksStay(s, s')
    ensures LinkInv(s')
  {
    forall c | c in s'.stats.connections ensures LinkOk(s', c) {
      assert c in s.served ==> ServedOk(s, c);
      assert c in s.stats.connections ==> LinkOk(s, c);
    }
    forall c | c in s'.served ensures ServedOk(s', c) {
      assert ServedOk(s, c);
    }
  }

  /** A record may go only if it has no thread. */
  lemma ReleaseKeepsLinkInv(s: State, s': State, v: Id, c: Id)
    requires LinkInv(s) && s'.served == s.served && s'.stats == ServerConnectionRemoved(s.stats, v, c)
    ensures LinkInv(s')
  {
    forall d | d in s'.stats.connections ensures LinkOk(s', d) {
      assert LinkOk(s, d);
    }
    forall d | d in s'.served ensures ServedOk(s', d) {
      assert ServedOk(s, d) && LinkOk(s, d);
    }
  }

  lemma LinkThreadKeepsLinkInv(s: State)
    requires RecordInv(s) && LinkInv(s) && s.pool.Chosen?
    ensures LinkInv(LinkThread(s))
  {
    assert HolderOk(s, s.pool.server) && ThreadOk(s, s.pool.t);
    var s' := LinkThread(s);
    hide RecordInv;
    forall d | d in s'.stats.connections ensures LinkOk(s', d) {
      assert LinkOk(s, d);
    }
    forall d | d in s'.served ensures ServedOk(s', d) {
      assert d in s.served ==> ServedOk(s, d);
    }
  }

  lemma UnlinkThreadKeepsLinkInv(s: State, t: Id, c: Id)
    requires LinkInv(s) && ThreadCounted(s, t, c)
    ensures LinkInv(UnlinkThread(s, t, c))
  {
    var s' := UnlinkThread(s, t, c);
    forall d | d in s'.stats.connections ensures LinkOk(s', d) {
      assert LinkOk(s, d);
    }
    forall d | d in s'.served ensures ServedOk(s', d) {
      assert ServedOk(s, d);
    }
  }

  // ---------------------------------------------------------------- owners

  /** The statistics link a connection to the server that has it, and to no other. */
  ghost predicate OwnerOk(s: State, c: Id)
    requires c in s.stats.connections
  {
    s.stats.connections[c].server == if c in s.owned then s.owned[c] else 0
  }

  ghost predicate OwnedOk(s: State, c: Id)
    requires c in s.owned
  {
    s.owned[c] != SPECIAL && c in s.stats.connections
  }

  ghost predicate OwnInv(s: State)
  {
    && s.members == s.stats.threads.Keys
    && (forall c :: c in s.stats.connections ==> OwnerOk(s, c))
    && (forall c :: c in s.owned ==> OwnedOk(s, c))
  }

  /** What a server has is on its list. */
  lemma OwnedIsListed(s: State, v: Id, c: Id)
    requires RecordInv(s) && OwnInv(s) && Owns(s, v, c)
    ensures v in s.stats.servers && c in s.stats.servers[v] && LinkedToServer(s, c, v)
  {
    assert OwnedOk(s, c) && OwnerOk(s, c) && RecordOk(s, c);
  }

  lemma ListedIsOwned(s: State, v: Id, c: Id)
    requires RecordInv(s) && OwnInv(s) && v in s.stats.servers && c in s.stats.servers[v]
    ensures Owns(s, v, c)
  {
    assert ServerOk(s, v) && OwnerOk(s, c);
  }

  lemma NothingListed(s: State, v: Id)
    requires RecordInv(s) && OwnInv(s) && CanRemoveServer(s, v)
    ensures Unlocked(s, v) && v in s.stats.servers && s.stats.servers[v] == {}
  {
    forall c | c in s.stats.servers[v] ensures false {
      ListedIsOwned(s, v, c);
    }
  }

  /** Records come and go without a server, and keep their server; the threads do not change. */
  ghost predicate OwnersStay(s: State, s': State)
  {
    && s'.owned == s.owned && s'.members == s.members && s'.stats.threads.Keys == s.stats.threads.Keys
    && (forall c :: c in s'.stats.connections ==>
          c in s.stats.connections && s'.stats.connections[c].server == s.stats.connections[c].server)
    && (forall c :: c in s.stats.connections && s.stats.connections[c].server != 0 ==> c in s'.stats.connections)
  }

  lemma StayingKeepsOwnInv(s: State, s': State)
    requires OwnInv(s) && OwnersStay(s, s')
    ensures OwnInv(s')
  {
    forall c | c in s'.stats.connections ensures OwnerOk(s', c) {
      assert OwnerOk(s, c);
    }
    forall c | c in s'.owned ensures OwnedOk(s', c) {
      assert OwnedOk(s, c) && OwnerOk(s, c);
    }
  }

  lemma NewConnectionKeepsOwnInv(s: State, v: Id, c: Id)
    requires RecordInv(s) && OwnInv(s) && CanNewConnection(s, v, c)
    ensures OwnInv(NewConnection(s, v, c))
  {
    assert v in s.stats.servers && ServerOk(s, v);
    var s' := NewConnection(s, v, c);
    hide RecordInv;
    forall d | d in s'.stats.connections ensures OwnerOk(s', d) {
      assert d != c ==> OwnerOk(s, d);
    }
    forall d | d in s'.owned ensures OwnedOk(s', d) {
      assert d != c ==> OwnedOk(s, d);
    }
  }

  lemma ReleaseKeepsOwnInv(s: State, s': State, v: Id, c: Id)
    requires OwnInv(s) && Owns(s, v, c) && s'.owned == s.owned - {c} && s'.members == s.members
    requires s'.stats == ServerConnectionRemoved(s.stats, v, c)
    ensures OwnInv(s')
  {
    assert OwnedOk(s, c);
    forall d | d in s'.stats.connections ensures OwnerOk(s', d) {
      assert OwnerOk(s, d);
    }
    forall d | d in s'.owned ensures OwnedOk(s', d) {
      assert OwnedOk(s, d);
    }
  }

  /** Only threads come or go. */
  lemma ThreadsKeepOwnInv(s: State, s': State)
    requires OwnInv(s) && s'.owned == s.owned && s'.stats.connections == s.stats.connections
    requires s'.members == s'.stats.threads.Keys
    ensures OwnInv(s')
  {
    forall c | c in s'.stats.connections ensures OwnerOk(s', c) {
      assert OwnerOk(s, c);
    }
    forall c | c in s'.owned ensures OwnedOk(s', c) {
      assert OwnedOk(s, c);
    }
  }

  // ---------------------------------------------------------------- counts

  function AtLeast1(n: nat): nat
  {
    if n == 0 then 1 else n
  }

  /** The connections a thread serves. */
  ghost function LinkedTo(st: Stats, t: Id): set<Id>
  {
    set c | c in st.connections && st.connections[c].thread == t
  }

  ghost predicate CountInv(s: State)
  {
    && (forall t :: t in s.stats.threads ==> ThreadCount(s, t))
    && (forall v :: v in s.stats.servers ==> ServerCount(s, v))
    && (s.pool.Chosen? && s.pool.t in s.stats.threads ==> s.stats.threads[s.pool.t].items < AtLeast1(s.perThread))
  }

  ghost predicate ThreadCount(s: State, t: Id)
    requires t in s.stats.threads
  {
    s.stats.threads[t].items == |LinkedTo(s.stats, t)| && s.stats.threads[t].items <= AtLeast1(s.perThread)
  }

  ghost predicate ServerCount(s: State, v: Id)
    requires v in s.stats.servers
  {
    && |Usable(s.stats, v)| <= AtLeast1(s.perServer)
    && (v in s.holders && s.holders[v].NeedConnection? ==>
          Usable(s.stats, v) == {} || |s.stats.servers[v]| < s.perServer)
  }

  lemma FewerElements(a: set<Id>, b: set<Id>)
    requires a <= b
    ensures |a| <= |b|
  {
    assert b == a + (b - a);
  }

  /** Nothing was linked to a thread or unlinked from one, and nothing became usable. */
  lemma Shrinks(s: State, s': State)
    requires CountInv(s)
    requires s'.perThread == s.perThread && s'.perServer == s.perServer && (s'.pool == s.pool || s'.pool.PoolFree?)
    requires forall t :: t in s'.stats.threads ==>
               && t in s.stats.threads && s'.stats.threads[t].items == s.stats.threads[t].items
               && LinkedTo(s'.stats, t) == LinkedTo(s.stats, t)
    requires forall v :: v in s'.stats.servers ==>
               && v in s.stats.servers
               && Usable(s'.stats, v) <= Usable(s.stats, v) && s'.stats.servers[v] <= s.stats.servers[v]
    requires forall v :: v in s'.holders && s'.holders[v].NeedConnection? ==>
               v in s.holders && s.holders[v] == s'.holders[v]
    ensures CountInv(s')
  {
    hide LinkedTo, Usable;
    forall t | t in s'.stats.threads ensures ThreadCount(s', t) {
      assert ThreadCount(s, t);
    }
    forall v | v in s'.stats.servers ensures ServerCount(s', v) {
      assert ServerCount(s, v);
      FewerElements(Usable(s'.stats, v), Usable(s.stats, v));
      FewerElements(s'.stats.servers[v], s.stats.servers[v]);
    }
  }

  lemma SetsAfterNew(st: Stats, v: Id, c: Id, u: Id)
    requires v in st.servers && c !in st.connections && (u in st.servers ==> c !in st.servers[u])
    ensures var st' := ServerConnectionAdded(st, v, c);
            && Usable(st', u) == (if u == v then Usable(st, u) + {c} else Usable(st, u))
            && (u != 0 ==> LinkedTo(st', u) == LinkedTo(st, u))
  {
  }

  lemma CountNewConnection(s: State, v: Id, c: Id)
    requires RecordInv(s) && CountInv(s) && CanNewConnection(s, v, c)
    ensures CountInv(NewConnection(s, v, c))
  {
    var s' := NewConnection(s, v, c);
    forall u | u in s.stats.servers ensures ServerCount(s', u) {
      assert ServerOk(s, u) && ServerCount(s, u);
      SetsAfterNew(s.stats, v, c, u);
      FewerElements(Usable(s.stats, u), s.stats.servers[u]);
      hide Usable, LinkedTo, RecordInv, ServerOk;
    }
    forall t | t in s.stats.threads ensures ThreadCount(s', t) {
      assert ThreadOk(s, t) && ThreadCount(s, t);
      assert t in s.stats.servers ==> ServerOk(s, t);
      SetsAfterNew(s.stats, v, c, t);
      hide Usable, LinkedTo, RecordInv;
    }
  }

  lemma SetsAfterLink(st: Stats, t: Id, c: Id, u: Id)
    requires c in st.connections && st.connections[c].thread == 0 && u != 0
    ensures var st' := ThreadConnectionAdded(st, t, c);
            && Usable(st', u) == Usable(st, u)
            && c !in LinkedTo(st, u)
            && LinkedTo(st', u) == (if u == t then LinkedTo(st, u) + {c} else LinkedTo(st, u))
  {
  }

  lemma LinkKeepsServer(s: State, u: Id)
    requires RecordInv(s) && CountInv(s) && s.pool.Chosen? && u in s.stats.servers
    ensures ServerCount(LinkThread(s), u)
  {
    assert HolderOk(s, s.pool.server) && ServerCount(s, u) && ServerOk(s, u);
    hide RecordInv, CountInv, Usable, LinkedTo;
    SetsAfterLink(s.stats, s.pool.t, s.pool.c, u);
  }

  lemma LinkKeepsThread(s: State, t: Id)
    requires RecordInv(s) && CountInv(s) && s.pool.Chosen? && t in s.stats.threads
    ensures ThreadCount(LinkThread(s), t)
  {
    assert HolderOk(s, s.pool.server) && ThreadOk(s, t) && ThreadCount(s, t);
    hide RecordInv, Usable, LinkedTo;
    SetsAfterLink(s.stats, s.pool.t, s.pool.c, t);
  }

  lemma CountLinkThread(s: State)
    requires RecordInv(s) && CountInv(s) && s.pool.Chosen?
    ensures CountInv(LinkThread(s))
  {
    hide RecordInv, ServerCount, ThreadCount;
    forall u | u in s.stats.servers ensures ServerCount(LinkThread(s), u) {
      LinkKeepsServer(s, u);
    }
    forall t | t in s.stats.threads ensures ThreadCount(LinkThread(s), t) {
      LinkKeepsThread(s, t);
    }
  }

  lemma SetsAfterUnlink(st: Stats, c: Id, u: Id)
    requires c in st.connections && u != 0
    requires u in st.servers && c in st.servers[u] ==> st.connections[c].server == u
    requires var t := st.connections[c].thread; t != 0 && (t in st.threads ==> st.threads[t].items > 0)
    ensures var t := st.connections[c].thread;
            var st' := ThreadConnectionRemoved(st, t, c);
            && Usable(st', u) == Usable(st, u)
            && LinkedTo(st', u) == (if u == t then LinkedTo(st, u) - {c} else LinkedTo(st, u))
  {
  }

  lemma LinkIsCounted(s: State, t: Id, c: Id)
    requires RecordInv(s) && LinkInv(s) && CountInv(s) && CanUnlink(s, t, c)
    ensures ThreadCounted(s, t, c)
  {
    assert ServedOk(s, c) && LinkOk(s, c);
    assert c in LinkedTo(s.stats, t);
    if t in s.stats.threads {
      assert ThreadCount(s, t);
    }
  }

  lemma UnlinkKeepsServer(s: State, t: Id, c: Id, u: Id)
    requires RecordInv(s) && LinkInv(s) && CountInv(s)
    requires CanUnlink(s, t, c) && ThreadCounted(s, t, c) && u in s.stats.servers
    ensures ServerCount(UnlinkThread(s, t, c), u)
  {
    assert ServerCount(s, u) && ServerOk(s, u) && ServedOk(s, c) && LinkOk(s, c);
    hide LinkInv, RecordInv, CountInv, Usable, LinkedTo;
    SetsAfterUnlink(s.stats, c, u);
  }

  lemma UnlinkKeepsThread(s: State, t: Id, c: Id, u: Id)
    requires RecordInv(s) && LinkInv(s) && CountInv(s)
    requires CanUnlink(s, t, c) && ThreadCounted(s, t, c) && u in s.stats.threads
    ensures ThreadCount(UnlinkThread(s, t, c), u)
  {
    assert ThreadCount(s, u) && ThreadOk(s, u) && ServedOk(s, c) && LinkOk(s, c);
    assert u in s.stats.servers ==> ServerOk(s, u);
    assert u == t ==> c in LinkedTo(s.stats, u);
    hide LinkInv, RecordInv, CountInv, Usable, LinkedTo;
    SetsAfterUnlink(s.stats, c, u);
  }

  lemma CountUnlinkThread(s: State, t: Id, c: Id)
    requires RecordInv(s) && LinkInv(s) && CountInv(s) && CanUnlink(s, t, c)
    ensures ThreadCounted(s, t, c) && CountInv(UnlinkThread(s, t, c))
  {
    LinkIsCounted(s, t, c);
    hide LinkInv, RecordInv, ServerCount, ThreadCount, ThreadCounted;
    forall u | u in s.stats.servers ensures ServerCount(UnlinkThread(s, t, c), u) {
      UnlinkKeepsServer(s, t, c, u);
    }
    forall u | u in s.stats.threads ensures ThreadCount(UnlinkThread(s, t, c), u) {
      UnlinkKeepsThread(s, t, c, u);
    }
  }

  lemma CountReleased(s: State, v: Id, c: Id)
    requires RecordInv(s) && CountInv(s) && v in s.stats.servers && c in s.stats.servers[v]
    ensures CountInv(WithStats(s, ServerConnectionRemoved(s.stats, v, c)))
  {
    var s' := WithStats(s, ServerConnectionRemoved(s.stats, v, c));
    assert ServerOk(s, v) && RecordOk(s, c);
    forall t | t in s.stats.threads ensures LinkedTo(s'.stats, t) == LinkedTo(s.stats, t) {
      assert ThreadOk(s, t);
    }
    Shrinks(s, s');
  }

  /** A record changes its status without becoming usable, or its number of items. */
  lemma CountRecordChanged(s: State, c: Id, r: Connection)
    requires CountInv(s) && c in s.stats.connections && r.thread == s.stats.connections[c].thread
    requires s.stats.connections[c].status == Closing ==> r.status == Closing
    ensures CountInv(WithStats(s, s.stats.(connections := s.stats.connections[c := r])))
  {
    Shrinks(s, WithStats(s, s.stats.(connections := s.stats.connections[c := r])));
  }

  lemma CountPicked(s: State, v: Id, c: Id)
    requires CountInv(s) && c in s.stats.connections && s.stats.connections[c].status != Closing
    ensures CountInv(Pick(s, v, c))
  {
    hide CountInv, Usable, LinkedTo;
    var r := s.stats.connections[c].(status := ActiveAwaiting);
    CountRecordChanged(s, c, r);
    Shrinks(WithStats(s, s.stats.(connections := s.stats.connections[c := r])), Pick(s, v, c));
  }

  lemma CountChooseConnection(s: State, v: Id, c: Id)
    requires RecordInv(s) && CountInv(s) && CanChooseConnection(s, v, c)
    ensures CountInv(ChooseConnection(s, v, c))
  {
    if c == SPECIAL {
      forall u | u in s.stats.servers ensures ServerCount(ChooseConnection(s, v, c), u) {
        assert ServerCount(s, u);
      }
      forall t | t in s.stats.threads ensures ThreadCount(ChooseConnection(s, v, c), t) {
        assert ThreadCount(s, t);
      }
    } else {
      assert c in s.stats.connections && s.stats.connections[c].status != Closing;
      hide CountInv, ChoosesConnection, Usable, RecordInv;
      CountPicked(s, v, c);
    }
  }

  lemma CountChooseThread(s: State, v: Id, t: Id, after: map<Id, Thread>)
    requires RecordInv(s) && CountInv(s) && CanChooseThread(s, v, t, after)
    ensures CountInv(ChooseThread(s, v, t, after))
  {
    var s' := ChooseThread(s, v, t, after);
    forall u | u in after ensures ThreadCount(s', u) {
      assert ThreadOk(s, u) && ThreadCount(s, u);
      assert LinkedTo(s'.stats, u) == LinkedTo(s.stats, u);
    }
    forall u | u in s'.stats.servers ensures ServerCount(s', u) {
      assert ServerCount(s, u);
      assert Usable(s'.stats, u) == Usable(s.stats, u);
    }
  }

  lemma CountNewThread(s: State, t: Id)
    requires RecordInv(s) && CountInv(s) && s.pool.NeedThread? && Unused(s, t)
    ensures CountInv(NewThread(s, t))
  {
    var s' := NewThread(s, t);
    forall u | u in s'.stats.threads ensures ThreadCount(s', u) {
      assert LinkedTo(s'.stats, u) == LinkedTo(s.stats, u);
      if u == t {
        assert forall c :: c in s.stats.connections ==> RecordOk(s, c);
        assert LinkedTo(s'.stats, u) == {};
      } else {
        assert ThreadCount(s, u);
      }
    }
    forall u | u in s'.stats.servers ensures ServerCount(s', u) {
      assert ServerCount(s, u);
      assert Usable(s'.stats, u) == Usable(s.stats, u);
    }
  }

  lemma CountServers(s: State, v: Id)
    requires CountInv(s)
    ensures Unused(s, v) ==> CountInv(AddServer(s, v))
    ensures v in s.stats.servers && s.stats.servers[v] == {} ==> CountInv(RemoveServer(s, v))
  {
    if Unused(s, v) {
      var s' := AddServer(s, v);
      forall u | u in s'.stats.servers ensures ServerCount(s', u) {
        if u != v {
          assert ServerCount(s, u);
          assert Usable(s'.stats, u) == Usable(s.stats, u);
        } else {
          assert Usable(s'.stats, u) == {};
        }
      }
      forall t | t in s'.stats.threads ensures ThreadCount(s', t) {
        assert ThreadCount(s, t);
        assert LinkedTo(s'.stats, t) == LinkedTo(s.stats, t);
      }
    }
    if v in s.stats.servers && s.stats.servers[v] == {} {
      Shrinks(s, RemoveServer(s, v));
    }
  }

  lemma CountRelease(s: State, v: Id, c: Id)
    requires RecordInv(s) && CountInv(s) && v in s.stats.servers && c in s.stats.servers[v]
    ensures CountInv(Release(s, v, c))
  {
    CountReleased(s, v, c);
    var freed := WithStats(s, ServerConnectionRemoved(s.stats, v, c));
    hide CountInv, RecordInv, LinkedTo, Usable, ServerConnectionRemoved;
    Shrinks(freed, Release(s, v, c));
  }

  lemma CountPlaceFails(s: State, v: Id)
    requires RecordInv(s) && CountInv(s) && CanPlace(s, v)
    ensures CountInv(PlaceFails(s, v))
  {
    assert HolderOk(s, v);
    CountReleased(s, v, s.holders[v].c);
    var freed := WithStats(s, ServerConnectionRemoved(s.stats, v, s.holders[v].c));
    hide CountInv, RecordInv, LinkedTo, Usable, ServerConnectionRemoved;
    Shrinks(freed, PlaceFails(s, v));
  }

  lemma CountAddRequest(s: State, v: Id)
    requires RecordInv(s) && CountInv(s) && CanAddRequest(s, v)
    ensures CountInv(AddRequest(s, v))
  {
    hide CountInv, LinkedTo, Usable;
    assert HolderOk(s, v);
    hide RecordInv;
    var c := s.holders[v].c;
    var r := s.stats.connections[c];
    CountRecordChanged(s, c, r.(items := r.items + 1, status := Active));
    var counted := WithStats(s, RequestAdded(s.stats, c));
    hide RequestAdded;
    Shrinks(counted, AddRequest(s, v));
  }

  lemma CountRemoveRequest(s: State, c: Id)
    requires CountInv(s) && RequestCounted(s, c)
    ensures CountInv(RemoveRequest(s, c))
  {
    if c in s.stats.connections {
      var r := s.stats.connections[c];
      CountRecordChanged(s, c, r.(items := r.items - 1));
    }
    var counted := WithStats(s, RequestRemoved(s.stats, c));
    hide CountInv, LinkedTo, Usable, RequestRemoved;
    Shrinks(counted, RemoveRequest(s, c));
  }

  lemma CountTimerConnection(s: State, c: Id)
    requires RecordInv(s) && CountInv(s)
    ensures CountInv(TimerConnection(s, c))
  {
    if c in s.stats.connections && s.stats.connections[c].server in s.stats.servers {
      hide WhenClose, CountInv, Usable, LinkedTo;
      var e := s.stats.connections[c];
      var group := ConnectionGroup(s.stats.connections, s.stats.servers[e.server]);
      assert RecordOk(s, c);
      ClosingOrder(group, c, OfConnection(e), s.delay);
      CountRecordChanged(s, c, CloseConnection(s.stats, c, s.delay)[c]);
    }
  }

  lemma CountTimerThread(s: State, t: Id)
    requires CountInv(s)
    ensures CountInv(TimerThread(s, t))
  {
    hide WhenClose, CountInv;
    Shrinks(s, TimerThread(s, t));
  }

  lemma CountRemoveThread(s: State, t: Id)
    requires CountInv(s) && s.pool.PoolFree?
    ensures CountInv(RemoveThread(s, t))
  {
    hide CountInv;
    Shrinks(s, RemoveThread(s, t));
  }

  // ---------------------------------------------------------------- which steps touch links

  lemma UpdateKeepsLinks(s: State, s': State, c: Id)
    requires c in s.stats.connections && c in s'.stats.connections && s'.used == s.used && s'.served == s.served
    requires s'.stats == s.stats.(connections := s.stats.connections[c := s'.stats.connections[c]])
    requires s'.stats.connections[c].thread == s.stats.connections[c].thread
    ensures LinksStay(s, s')
  {
  }

  lemma ChooseKeepsLinks(s: State, v: Id, c: Id)
    requires CanChooseConnection(s, v, c)
    ensures LinksStay(s, ChooseConnection(s, v, c))
  {
    if c != SPECIAL {
      assert c in s.stats.connections;
      hide ChoosesConnection, Usable, LinksStay;
      UpdateKeepsLinks(s, ChooseConnection(s, v, c), c);
    }
  }

  lemma RequestsKeepLinks(s: State, id: Id)
    ensures CanAddRequest(s, id) ==> LinksStay(s, AddRequest(s, id))
    ensures RequestCounted(s, id) ==> LinksStay(s, RemoveRequest(s, id))
  {
    if CanAddRequest(s, id) && s.holders[id].c in s.stats.connections {
      UpdateKeepsLinks(s, AddRequest(s, id), s.holders[id].c);
    }
    if RequestCounted(s, id) && id in s.stats.connections {
      UpdateKeepsLinks(s, RemoveRequest(s, id), id);
    }
  }

  lemma TimerKeepsLinks(s: State, c: Id)
    ensures LinksStay(s, TimerConnection(s, c))
  {
    hide WhenClose;
    if c in s.stats.connections && s.stats.connections[c].server in s.stats.servers {
      UpdateKeepsLinks(s, TimerConnection(s, c), c);
    }
  }

  /** Only EventThreadPool gives a connection its thread. */
  lemma ConnectionStepsKeepLinks(s: State, step: Step)
    requires Enabled(s, step) && Asserted(s, step) && OnConnections(step)
    ensures LinksStay(s, Apply(s, step))
  {
    if step.StepNewConnection? {
      assert LinksStay(s, NewConnection(s, step.v, step.c));
    }
    hide LinksStay, ChooseConnection, NewConnection, AddRequest, RemoveRequest, TimerConnection;
    hide CanChooseConnection, CanNewConnection, CanAddRequest, RequestCounted;
    match step {
      case StepChooseConnection(v, c) => ChooseKeepsLinks(s, v, c);
      case StepNewConnection(_, _) =>
      case StepAddRequest(v) => RequestsKeepLinks(s, v);
      case StepRemoveRequest(c) => RequestsKeepLinks(s, c);
      case StepTimerConnection(c) => TimerKeepsLinks(s, c);
    }
  }

  // ---------------------------------------------------------------- runs

  ghost predicate Inv(s: State)
  {
    RecordInv(s) && LinkInv(s) && OwnInv(s) && CountInv(s)
  }

  lemma ReleasedIsLinked(s: State, step: Step)
    requires RecordInv(s) && OwnInv(s) && Enabled(s, step)
    ensures ChoiceIsKnown(s, step)
    ensures step.StepRelease? ==> LinkedToServer(s, step.c, step.v)
    ensures step.StepPlaceFails? ==> LinkedToServer(s, s.holders[step.v].c, step.v)
    ensures step.StepLinkThread? ==> AwaitsThread(s, s.pool.c)
  {
    if step.StepChooseConnection? && step.c != SPECIAL {
      ListedIsOwned(s, step.v, step.c);
    } else if step.StepRelease? {
      OwnedIsListed(s, step.v, step.c);
    } else if step.StepPlaceFails? {
      assert HolderOk(s, step.v) && ServerOk(s, step.v);
    } else if step.StepLinkThread? {
      assert HolderOk(s, s.pool.server) && ServerOk(s, s.pool.server);
    }
  }

  lemma ServerStep(s: State, step: Step)
    requires RecordInv(s) && OwnInv(s) && CountInv(s) && Enabled(s, step)
    requires step.StepAddServer? || step.StepRemoveServer? || step.StepRelease? || step.StepPlaceFails?
    ensures Asserted(s, step) && RecordInv(Apply(s, step)) && CountInv(Apply(s, step))
  {
    hide RecordInv, OwnInv, CountInv, AddServer, RemoveServer, Release, PlaceFails, CanPlace, CanRemoveServer;
    hide LinkedToServer, AwaitsThread, Owns;
    ReleasedIsLinked(s, step);
    match step
    case StepAddServer(v) => RecordAddServer(s, v); CountServers(s, v);
    case StepRemoveServer(v) => NothingListed(s, v); RecordRemoveServer(s, v); CountServers(s, v);
    case StepRelease(v, c) => OwnedIsListed(s, v, c); RecordRelease(s, v, c); CountRelease(s, v, c);
    case StepPlaceFails(v) => RecordPlaceFails(s, v); CountPlaceFails(s, v);
  }

  lemma LinkStep(s: State, step: Step)
    requires RecordInv(s) && LinkInv(s) && Enabled(s, step) && Asserted(s, step)
    ensures LinkInv(Apply(s, step))
  {
    if OnConnections(step) {
      hide RecordInv, LinkInv, LinksStay, Enabled, Asserted, Apply;
      ConnectionStepsKeepLinks(s, step);
      StayingKeepsLinkInv(s, Apply(s, step));
    } else if step.StepRelease? {
      hide RecordInv, LinkInv, ServerConnectionRemoved;
      ReleaseKeepsLinkInv(s, Apply(s, step), step.v, step.c);
    } else if step.StepPlaceFails? {
      hide RecordInv, LinkInv, ServerConnectionRemoved;
      ReleaseKeepsLinkInv(s, Apply(s, step), step.v, s.holders[step.v].c);
    } else if step.StepLinkThread? {
      hide RecordInv, LinkInv, LinkThread;
      LinkThreadKeepsLinkInv(s);
    } else if step.StepUnlinkThread? {
      hide RecordInv, LinkInv, UnlinkThread;
      UnlinkThreadKeepsLinkInv(s, step.t, step.c);
    } else {
      hide RecordInv, LinkInv, CanChooseThread, WhenClose;
      SameLinks(s, Apply(s, step));
    }
  }

  lemma UpdateKeepsOwners(s: State, s': State, c: Id)
    requires c in s.stats.connections && c in s'.stats.connections && s'.owned == s.owned && s'.members == s.members
    requires s'.stats == s.stats.(connections := s.stats.connections[c := s'.stats.connections[c]])
    requires s'.stats.connections[c].server == s.stats.connections[c].server
    ensures OwnersStay(s, s')
  {
  }

  lemma ChooseKeepsOwners(s: State, v: Id, c: Id)
    requires CanChooseConnection(s, v, c)
    ensures OwnersStay(s, ChooseConnection(s, v, c))
  {
    if c != SPECIAL {
      assert c in s.stats.connections;
      hide ChoosesConnection, Usable, OwnersStay;
      UpdateKeepsOwners(s, ChooseConnection(s, v, c), c);
    }
  }

  lemma RequestsKeepOwners(s: State, id: Id)
    ensures CanAddRequest(s, id) ==> OwnersStay(s, AddRequest(s, id))
    ensures RequestCounted(s, id) ==> OwnersStay(s, RemoveRequest(s, id))
  {
    if CanAddRequest(s, id) && s.holders[id].c in s.stats.connections {
      UpdateKeepsOwners(s, AddRequest(s, id), s.holders[id].c);
    }
    if RequestCounted(s, id) && id in s.stats.connections {
      UpdateKeepsOwners(s, RemoveRequest(s, id), id);
    }
  }

  lemma TimerKeepsOwners(s: State, c: Id)
    ensures OwnersStay(s, TimerConnection(s, c))
  {
    hide WhenClose;
    if c in s.stats.connections && s.stats.connections[c].server in s.stats.servers {
      UpdateKeepsOwners(s, TimerConnection(s, c), c);
    }
  }

  lemma LinkingKeepsOwners(s: State)
    requires RecordInv(s) && s.pool.Chosen?
    ensures OwnersStay(s, LinkThread(s))
  {
    assert s.pool.t in s.stats.threads;
    hide RecordInv;
  }

  lemma UnlinkingKeepsOwners(s: State, t: Id, c: Id)
    requires ThreadCounted(s, t, c)
    ensures OwnersStay(s, UnlinkThread(s, t, c))
  {
  }

  /** The steps that leave every connection with its server. */
  ghost predicate KeepsOwners(step: Step)
  {
    || step.StepChooseConnection? || step.StepAddRequest? || step.StepRemoveRequest? || step.StepTimerConnection?
    || step.StepLinkThread? || step.StepUnlinkThread?
  }

  lemma OwnersStayBy(s: State, step: Step)
    requires RecordInv(s) && Enabled(s, step) && Asserted(s, step) && KeepsOwners(step)
    ensures OwnersStay(s, Apply(s, step))
  {
    hide RecordInv, OwnersStay, ChooseConnection, AddRequest, RemoveRequest, TimerConnection, LinkThread, UnlinkThread;
    hide CanChooseConnection, CanAddRequest, RequestCounted, ThreadCounted;
    match step {
      case StepChooseConnection(v, c) => ChooseKeepsOwners(s, v, c);
      case StepAddRequest(v) => RequestsKeepOwners(s, v);
      case StepRemoveRequest(c) => RequestsKeepOwners(s, c);
      case StepTimerConnection(c) => TimerKeepsOwners(s, c);
      case StepLinkThread => LinkingKeepsOwners(s);
      case StepUnlinkThread(t, c) => UnlinkingKeepsOwners(s, t, c);
    }
  }

  lemma OwnStep(s: State, step: Step)
    requires RecordInv(s) && OwnInv(s) && Enabled(s, step) && Asserted(s, step)
    ensures OwnInv(Apply(s, step))
  {
    if KeepsOwners(step) {
      hide RecordInv, OwnInv, OwnersStay, Enabled, Asserted, Apply;
      OwnersStayBy(s, step);
      StayingKeepsOwnInv(s, Apply(s, step));
    } else if step.StepNewConnection? {
      hide RecordInv, OwnInv, NewConnection;
      NewConnectionKeepsOwnInv(s, step.v, step.c);
    } else if step.StepRelease? {
      hide RecordInv, OwnInv, ServerConnectionRemoved;
      ReleaseKeepsOwnInv(s, Apply(s, step), step.v, step.c);
    } else if step.StepPlaceFails? {
      assert HolderOk(s, step.v);
      hide RecordInv, OwnInv, ServerConnectionRemoved;
      ListedIsOwned(s, step.v, s.holders[step.v].c);
      ReleaseKeepsOwnInv(s, Apply(s, step), step.v, s.holders[step.v].c);
    } else {
      assert s.members == s.stats.threads.Keys;
      hide RecordInv, OwnInv, WhenClose;
      ThreadsKeepOwnInv(s, Apply(s, step));
    }
  }

  lemma SameLinks(s: State, s': State)
    requires LinkInv(s) && s'.stats.connections == s.stats.connections && s'.served == s.served
    ensures LinkInv(s')
  {
    forall c | c in s'.stats.connections ensures LinkOk(s', c) {
      assert LinkOk(s, c);
    }
    forall c | c in s'.served ensures ServedOk(s', c) {
      assert ServedOk(s, c);
    }
  }

  lemma ConnectionStep(s: State, step: Step)
    requires RecordInv(s) && OwnInv(s) && CountInv(s) && Enabled(s, step)
    requires OnConnections(step)
    ensures Asserted(s, step) && RecordInv(Apply(s, step)) && CountInv(Apply(s, step))
  {
    hide RecordInv, OwnInv, CountInv, ChooseConnection, NewConnection, AddRequest, RemoveRequest, TimerConnection;
    hide CanChooseConnection, CanNewConnection, ChoiceIsKnown;
    ReleasedIsLinked(s, step);
    match step
    case StepChooseConnection(v, c) => RecordChooseConnection(s, v, c); CountChooseConnection(s, v, c);
    case StepNewConnection(v, c) => RecordNewConnection(s, v, c); CountNewConnection(s, v, c);
    case StepAddRequest(v) => RecordAddRequest(s, v); CountAddRequest(s, v);
    case StepRemoveRequest(c) => RecordRemoveRequest(s, c); CountRemoveRequest(s, c);
    case StepTimerConnection(c) => RecordTimerConnection(s, c); CountTimerConnection(s, c);
  }

  lemma ThreadStep(s: State, step: Step)
    requires Inv(s) && Enabled(s, step)
    requires OnThreads(step)
    ensures Asserted(s, step) && RecordInv(Apply(s, step)) && CountInv(Apply(s, step))
  {
    hide RecordInv, LinkInv, OwnInv, CountInv;
    hide ChooseThread, NewThread, LinkThread, UnlinkThread, TimerThread, RemoveThread;
    hide CanChooseThread, CanUnlink, ThreadCounted, LinkedToServer, AwaitsThread, ChoiceIsKnown;
    ReleasedIsLinked(s, step);
    match step
    case StepChooseThread(v, t, after) => RecordChooseThread(s, v, t, after); CountChooseThread(s, v, t, after);
    case StepNewThread(t) => RecordNewThread(s, t); CountNewThread(s, t);
    case StepLinkThread => RecordLinkThread(s); CountLinkThread(s);
    case StepUnlinkThread(t, c) => CountUnlinkThread(s, t, c); RecordUnlinkThread(s, t, c);
    case StepTimerThread(t) => RecordTimerThread(s, t); CountTimerThread(s, t);
    case StepRemoveThread(t) => RecordRemoveThread(s, t); CountRemoveThread(s, t);
  }

  /** No step meets a failing assertion, and every step keeps the invariant. */
  lemma StepKeepsInv(s: State, step: Step)
    requires Inv(s) && Enabled(s, step)
    ensures Asserted(s, step) && Inv(Apply(s, step))
  {
    hide RecordInv, LinkInv, OwnInv, CountInv, Enabled, Apply, Asserted;
    if OnConnections(step) {
      ConnectionStep(s, step);
    } else if OnThreads(step) {
      ThreadStep(s, step);
    } else {
      ServerStep(s, step);
    }
    LinkStep(s, step);
    OwnStep(s, step);
  }

  ghost predicate Follows(s: State, s': State)
  {
    exists step :: Enabled(s, step) && Asserted(s, step) && s' == Apply(s, step)
  }

  ghost predicate IsRun(states: seq<State>, perServer: nat, perThread: nat, delay: nat)
  {
    && states != [] && states[0] == Init(perServer, perThread, delay)
    && forall i :: 0 < i < |states| ==> Follows(states[i - 1], states[i])
  }

  lemma LimitsAreFixed(s: State, step: Step)
    requires Enabled(s, step) && Asserted(s, step)
    ensures var s' := Apply(s, step); s'.perServer == s.perServer && s'.perThread == s.perThread
  {
    hide CanChooseConnection, CanNewConnection, CanPlace, CanChooseThread, CanAddRequest;
    hide WhenClose, ThreadCounted, RequestCounted;
  }

  lemma {:induction false} RunKeepsInv(states: seq<State>, perServer: nat, perThread: nat, delay: nat, n: nat)
    requires IsRun(states, perServer, perThread, delay) && n < |states|
    ensures Inv(states[n]) && states[n].perServer == perServer && states[n].perThread == perThread
    decreases n
  {
    if n > 0 {
      hide Inv, Enabled, Apply, Asserted;
      RunKeepsInv(states, perServer, perThread, delay, n - 1);
      assert Follows(states[n - 1], states[n]);
      var s := states[n - 1];
      var step :| Enabled(s, step) && Asserted(s, step) && states[n] == Apply(s, step);
      StepKeepsInv(states[n - 1], step);
      LimitsAreFixed(states[n - 1], step);
    }
  }

  /** No assertion of the statistics can fail, whatever runs next. */
  lemma AssertionsHold(states: seq<State>, perServer: nat, perThread: nat, delay: nat, n: nat, step: Step)
    requires IsRun(states, perServer, perThread, delay) && n < |states| && Enabled(states[n], step)
    ensures Asserted(states[n], step)
  {
    RunKeepsInv(states, perServer, perThread, delay, n);
    StepKeepsInv(states[n], step);
  }

  /** A thread counts exactly the connections linked to it, and neither limit is exceeded; a limit of 0 acts as 1. */
  lemma Limits(states: seq<State>, perServer: nat, perThread: nat, delay: nat, n: nat)
    requires IsRun(states, perServer, perThread, delay) && n < |states|
    ensures var st := states[n].stats;
            && (forall t :: t in st.threads ==> st.threads[t].items == |LinkedTo(st, t)| <= AtLeast1(perThread))
            && (forall v :: v in st.servers ==> |Usable(st, v)| <= AtLeast1(perServer))
  {
    RunKeepsInv(states, perServer, perThread, delay, n);
    var s := states[n];
    forall t | t in s.stats.threads ensures s.stats.threads[t].items == |LinkedTo(s.stats, t)| <= AtLeast1(perThread) {
      assert ThreadCount(s, t);
    }
    forall v | v in s.stats.servers ensures |Usable(s.stats, v)| <= AtLeast1(perServer) {
      assert ServerCount(s, v);
    }
  }

  /** The statistics link a connection to a thread exactly if that thread has it. */
  lemma LinksAgree(states: seq<State>, perServer: nat, perThread: nat, delay: nat, n: nat, t: Id)
    requires IsRun(states, perServer, perThread, delay) && n < |states| && t != SPECIAL
    ensures var s := states[n]; LinkedTo(s.stats, t) == set c | c in s.served && s.served[c] == t
  {
    RunKeepsInv(states, perServer, perThread, delay, n);
    var s := states[n];
    forall c ensures c in LinkedTo(s.stats, t) <==> c in s.served && s.served[c] == t {
      assert c in s.served ==> ServedOk(s, c);
      assert c in s.stats.connections ==> LinkOk(s, c);
    }
  }

  /** A server's list in the statistics is what the server itself has, and the threads are the pool's. */
  lemma ListsAgree(states: seq<State>, perServer: nat, perThread: nat, delay: nat, n: nat, v: Id)
    requires IsRun(states, perServer, perThread, delay) && n < |states| && v in states[n].stats.servers
    ensures var s := states[n];
            s.stats.servers[v] == (set c | c in s.owned && s.owned[c] == v) && s.members == s.stats.threads.Keys
  {
    RunKeepsInv(states, perServer, perThread, delay, n);
    var s := states[n];
    forall c ensures c in s.stats.servers[v] <==> c in s.owned && s.owned[c] == v {
      if c in s.stats.servers[v] {
        ListedIsOwned(s, v, c);
      } else if Owns(s, v, c) {
        OwnedIsListed(s, v, c);
      }
    }
  }

  /** Only the empty are on the way out: no request is on such a connection, no connection on such a thread. */
  lemma OnlyTheEmptyLeave(states: seq<State>, perServer: nat, perThread: nat, delay: nat, n: nat, id: Id)
    requires IsRun(states, perServer, perThread, delay) && n < |states|
    ensures var s := states[n];
            && (id in s.stats.connections && OnTheWayOut(s.stats.connections[id].status) ==> id !in s.outstanding)
            && (id in s.stats.threads && OnTheWayOut(s.stats.threads[id].status) ==> LinkedTo(s.stats, id) == {})
  {
    RunKeepsInv(states, perServer, perThread, delay, n);
    var s := states[n];
    if id in s.stats.connections {
      assert RecordOk(s, id);
    }
    if id in s.stats.threads {
      assert ThreadOk(s, id) && ThreadCount(s, id);
    }
  }

  // ---------------------------------------------------------------- the end of an entity

  /** A connection that closes or has closed. */
  ghost predicate Closed(s: State, c: Id)
  {
    c in s.used && c !in s.outstanding && (c in s.stats.connections ==> s.stats.connections[c].status == Closing)
  }

  ghost predicate ThreadClosed(s: State, t: Id)
  {
    t in s.used && LinkedTo(s.stats, t) == {} && (t in s.stats.threads ==> s.stats.threads[t].status == Closing)
  }

  lemma ClosedStaysByConnection(s: State, step: Step, c: Id)
    requires RecordInv(s) && Enabled(s, step) && Asserted(s, step) && Closed(s, c)
    requires OnConnections(step)
    ensures Closed(Apply(s, step), c)
  {
    if step.StepAddRequest? {
      assert HolderOk(s, step.v);
    }
  }

  lemma ClosedStaysByOther(s: State, step: Step, c: Id)
    requires RecordInv(s) && Enabled(s, step) && Asserted(s, step) && Closed(s, c)
    requires !OnConnections(step)
    ensures Closed(Apply(s, step), c)
  {
    hide CanChooseThread, WhenClose;
  }

  lemma ClosedStays(s: State, s': State, c: Id)
    requires RecordInv(s) && Follows(s, s') && Closed(s, c)
    ensures Closed(s', c)
  {
    hide RecordInv, Enabled, Apply, Asserted, Closed;
    var step :| Enabled(s, step) && Asserted(s, step) && s' == Apply(s, step);
    if OnConnections(step) {
      ClosedStaysByConnection(s, step, c);
    } else {
      ClosedStaysByOther(s, step, c);
    }
  }

  /**
    A closing connection never serves again: no request is put on it, and its status does not
    change until its record is gone.
   */
  lemma {:induction false} ClosingIsFinal(states: seq<State>, perServer: nat, perThread: nat, delay: nat,
                                          m: nat, n: nat, c: Id)
    requires IsRun(states, perServer, perThread, delay) && m <= n < |states|
    requires c in states[m].stats.connections && states[m].stats.connections[c].status == Closing
    ensures Closed(states[n], c)
    decreases n
  {
    hide Follows;
    if m < n {
      ClosingIsFinal(states, perServer, perThread, delay, m, n - 1, c);
      RunKeepsInv(states, perServer, perThread, delay, n - 1);
      hide RecordInv, CountInv, Closed;
      ClosedStays(states[n - 1], states[n], c);
    } else {
      RunKeepsInv(states, perServer, perThread, delay, m);
      assert RecordOk(states[m], c);
    }
  }

  lemma ThreadClosedStaysByThread(s: State, step: Step, t: Id)
    requires RecordInv(s) && Enabled(s, step) && Asserted(s, step) && ThreadClosed(s, t) && t != SPECIAL
    requires OnThreads(step)
    ensures ThreadClosed(Apply(s, step), t)
  {
  }

  lemma ThreadClosedStaysByConnection(s: State, step: Step, t: Id)
    requires Enabled(s, step) && Asserted(s, step) && ThreadClosed(s, t) && t != SPECIAL
    requires OnConnections(step)
    ensures ThreadClosed(Apply(s, step), t)
  {
    hide Enabled, Asserted, Apply;
    ConnectionStepsKeepLinks(s, step);
  }

  lemma ThreadClosedStaysByOther(s: State, step: Step, t: Id)
    requires Enabled(s, step) && Asserted(s, step) && ThreadClosed(s, t) && t != SPECIAL
    requires !OnConnections(step)
    requires !OnThreads(step)
    ensures ThreadClosed(Apply(s, step), t)
  {
    hide WhenClose;
  }

  lemma ThreadClosedStays(s: State, s': State, t: Id)
    requires RecordInv(s) && Follows(s, s') && ThreadClosed(s, t) && t != SPECIAL
    ensures ThreadClosed(s', t)
  {
    hide RecordInv, Enabled, Apply, Asserted, ThreadClosed;
    var step :| Enabled(s, step) && Asserted(s, step) && s' == Apply(s, step);
    if OnThreads(step) {
      ThreadClosedStaysByThread(s, step, t);
    } else if OnConnections(step) {
      ThreadClosedStaysByConnection(s, step, t);
    } else {
      ThreadClosedStaysByOther(s, step, t);
    }
  }

  /**
    A closing thread never serves again: no connection is linked to it, and its status does not
    change until its record is gone.
   */
  lemma {:induction false} ThreadClosingIsFinal(states: seq<State>, perServer: nat, perThread: nat, delay: nat,
                                                m: nat, n: nat, t: Id)
    requires IsRun(states, perServer, perThread, delay) && m <= n < |states|
    requires t in states[m].stats.threads && states[m].stats.threads[t].status == Closing
    ensures ThreadClosed(states[n], t) && t != SPECIAL
    decreases n
  {
    hide Follows;
    if m < n {
      ThreadClosingIsFinal(states, perServer, perThread, delay, m, n - 1, t);
      RunKeepsInv(states, perServer, perThread, delay, n - 1);
      hide RecordInv, CountInv, ThreadClosed;
      ThreadClosedStays(states[n - 1], states[n], t);
    } else {
      RunKeepsInv(states, perServer, perThread, delay, m);
      assert ThreadOk(states[m], t) && ThreadCount(states[m], t);
    }
  }

  /** The step takes the server's or the thread's link away from a connection. */
  ghost predicate ReleasesServer(s: State, step: Step, c: Id)
  {
    (step.StepRelease? && step.c == c) || (step.StepPlaceFails? && CanPlace(s, step.v) && s.holders[step.v].c == c)
  }

  ghost predicate ReleasesThread(step: Step, c: Id)
  {
    step.StepUnlinkThread? && step.c == c
  }

  lemma ConnectionStepsKeepRecords(s: State, step: Step, c: Id)
    requires Enabled(s, step) && Asserted(s, step) && c in s.stats.connections && OnConnections(step)
    ensures c in Apply(s, step).stats.connections
  {
    hide ChoosesConnection, Usable, WhenClose, CloseThread, CanChooseThread, LinkThread, ThreadCounted;
  }

  lemma OthersKeepRecords(s: State, step: Step, c: Id)
    requires Enabled(s, step) && Asserted(s, step) && c in s.stats.connections && !OnConnections(step)
    requires !step.StepRelease? && !step.StepPlaceFails? && !step.StepUnlinkThread?
    ensures c in Apply(s, step).stats.connections
  {
    hide CanChooseConnection, CanChooseThread, CloseThread, CloseConnection;
  }

  /** A record goes exactly with its last link. */
  lemma ErasedWithLastLink(s: State, step: Step, c: Id)
    requires RecordInv(s) && Enabled(s, step) && Asserted(s, step) && c in s.stats.connections
    ensures var r := s.stats.connections[c];
            c !in Apply(s, step).stats.connections <==>
              (ReleasesServer(s, step, c) && r.thread == 0) || (ReleasesThread(step, c) && r.server == 0)
  {
    if step.StepRelease? {
      hide RecordInv;
    } else if step.StepPlaceFails? {
      assert HolderOk(s, step.v);
      hide RecordInv;
    } else if step.StepUnlinkThread? {
      hide RecordInv;
    } else {
      hide RecordInv, Enabled, Apply, Asserted;
      if OnConnections(step) {
        ConnectionStepsKeepRecords(s, step, c);
      } else {
        OthersKeepRecords(s, step, c);
      }
    }
  }

  /** The two sides may let go in either order, with the same outcome. */
  lemma EitherOrder(s: State, v: Id, t: Id, c: Id)
    requires Inv(s) && Unlocked(s, v) && Owns(s, v, c) && CanUnlink(s, t, c)
    ensures ThreadCounted(s, t, c)
    ensures var released := Release(s, v, c);
            var unlinked := UnlinkThread(s, t, c);
            && CanUnlink(released, t, c) && ThreadCounted(released, t, c)
            && Unlocked(unlinked, v) && Owns(unlinked, v, c)
            && UnlinkThread(released, t, c) == Release(unlinked, v, c)
            && c !in UnlinkThread(released, t, c).stats.connections
  {
    hide CountInv, Usable;
    CountUnlinkThread(s, t, c);
    OwnedIsListed(s, v, c);
    assert ServerOk(s, v) && RecordOk(s, c) && ServedOk(s, c) && LinkOk(s, c);
  }
}
