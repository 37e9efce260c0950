/**
  The pool policies of src/HTTP/HttpAsyncPolicies.cpp: statistics of servers, threads and
  connections, the choice of where the next item goes, and when an empty entity closes.

  The loops of the source run over std::map in key order. Here the order of each scan is
  left open, so the contracts hold for every order.
 */
module HttpPolicy {

  type Id = nat  // an address; 0 is SPECIAL_IDENTIFIER

  const SPECIAL: Id := 0

  datatype Status = ActiveAwaiting | Active | ClosureAwaiting | ClosureOnNextTry | Closing

  datatype Connection = Connection(status: Status, items: nat, server: Id, thread: Id)
  datatype Thread = Thread(status: Status, items: nat, full: bool)

  datatype Stats = Stats(servers: map<Id, set<Id>>, threads: map<Id, Thread>, connections: map<Id, Connection>)

  // ---------------------------------------------------------------- statistics

  function ServerConnectionAdded(s: Stats, server: Id, c: Id): Stats
    requires c !in s.connections
  {
    s.(connections := s.connections[c := Connection(ActiveAwaiting, 0, server, 0)],
       servers := if server in s.servers then s.servers[server := s.servers[server] + {c}] else s.servers)
  }

  function ServerConnectionRemoved(s: Stats, server: Id, c: Id): Stats
  {
    if c !in s.connections then s
    else
      s.(servers := if server in s.servers then s.servers[server := s.servers[server] - {c}] else s.servers,
         connections := if s.connections[c].thread != 0 then s.connections[c := s.connections[c].(server := 0)]
                        else s.connections - {c})
  }

  function ThreadConnectionAdded(s: Stats, t: Id, c: Id): Stats
  {
    s.(connections := if c in s.connections then s.connections[c := s.connections[c].(thread := t)] else s.connections,
       threads :=
         if t in s.threads then s.threads[t := s.threads[t].(items := s.threads[t].items + 1, status := Active)]
         else s.threads)
  }

  function ThreadConnectionRemoved(s: Stats, t: Id, c: Id): Stats
    requires t in s.threads ==> s.threads[t].items > 0
  {
    s.(connections := if c !in s.connections then s.connections
                      else if s.connections[c].server != 0 then s.connections[c := s.connections[c].(thread := 0)]
                      else s.connections - {c},
       threads :=
         if t in s.threads then s.threads[t := s.threads[t].(items := s.threads[t].items - 1, full := false)]
         else s.threads)
  }

  function RequestAdded(s: Stats, c: Id): Stats
  {
    if c !in s.connections then s
    else s.(connections := s.connections[c := s.connections[c].(items := s.connections[c].items + 1, status := Active)])
  }

  function RequestRemoved(s: Stats, c: Id): Stats
    requires c in s.connections ==> s.connections[c].items > 0
  {
    if c !in s.connections then s
    else s.(connections := s.connections[c := s.connections[c].(items := s.connections[c].items - 1)])
  }

  // ---------------------------------------------------------------- choices

  /** Some order of scanning the threads leads choose_thread to t, marking full ones on the way. */
  ghost predicate ChoosesThread(threads: map<Id, Thread>, perThread: nat, t: Id, after: map<Id, Thread>)
  {
    && after.Keys == threads.Keys
    && (t != SPECIAL ==> t in threads && threads[t].status != Closing && threads[t].items < perThread
                         && after[t] == threads[t].(status := ActiveAwaiting))
    && (forall u :: u in threads && u != t ==>
          || after[u] == threads[u]
          || (threads[u].status != Closing && threads[u].items >= perThread && after[u] == threads[u].(full := true)))
    && (t == SPECIAL ==> forall u :: u in threads ==>
          threads[u].status == Closing || (threads[u].items >= perThread && after[u].full))
  }

  /** Connections of a server that may still be used. */
  ghost function Usable(s: Stats, server: Id): set<Id>
  {
    if server !in s.servers then {}
    else set c | c in s.servers[server] && c in s.connections && s.connections[c].status != Closing
  }

  /** choose_connection: a least loaded usable connection, or SPECIAL when a new one is due. */
  ghost predicate ChoosesConnection(s: Stats, perServer: nat, server: Id, c: Id)
  {
    if c == SPECIAL then
      server in s.servers ==>
        || Usable(s, server) == {}
        || (|s.servers[server]| < perServer && forall d :: d in Usable(s, server) ==> s.connections[d].items > 0)
    else
      && c in Usable(s, server)
      && (forall d :: d in Usable(s, server) ==> s.connections[c].items <= s.connections[d].items)
      && (s.connections[c].items == 0 || |s.servers[server]| >= perServer)
  }

  // ---------------------------------------------------------------- closing

  /** What the closing rules see of a thread or a connection; `spare` is additional_closing_validator. */
  datatype Entity = Entity(status: Status, items: nat, spare: bool)

  /** The period to wait before asking again: 0 to close now, -1 not to ask. And the new status. */
  datatype Verdict = Verdict(wait: int, status: Status)

  predicate IsAlive(status: Status)
  {
    status == Active || status == ActiveAwaiting
  }

  /** There is a spare entity besides `id`, and one besides `id` that already waits to close. */
  ghost predicate Replaceable(group: map<Id, Entity>, id: Id)
  {
    && (exists u :: u in group && u != id && group[u].spare)
    && (exists u :: u in group && u != id && group[u].status == ClosureAwaiting)
  }

  ghost predicate AnyAlive(group: map<Id, Entity>)
  {
    exists u :: u in group && IsAlive(group[u].status)
  }

  /** when_close_entity */
  ghost function WhenClose(group: map<Id, Entity>, id: Id, e: Entity, delay: nat): Verdict
  {
    match e.status
    case ActiveAwaiting => Verdict(-1, e.status)
    case Closing => Verdict(-1, e.status)
    case ClosureOnNextTry => Verdict(0, Closing)
    case Active =>
      if e.items > 0 then Verdict(-1, e.status)
      else if Replaceable(group, id) || delay == 0 then Verdict(0, Closing)
      else Verdict(delay, ClosureAwaiting)
    case ClosureAwaiting => Verdict(delay, if AnyAlive(group) then ClosureAwaiting else ClosureOnNextTry)
  }

  function OfThread(t: Thread): Entity
  {
    Entity(t.status, t.items, !t.full)
  }

  function OfConnection(c: Connection): Entity
  {
    Entity(c.status, c.items, true)
  }

  function ThreadGroup(threads: map<Id, Thread>): map<Id, Entity>
  {
    map u | u in threads :: OfThread(threads[u])
  }

  function ConnectionGroup(connections: map<Id, Connection>, ids: set<Id>): map<Id, Entity>
  {
    map c | c in ids && c in connections :: OfConnection(connections[c])
  }

  method CloseEntity(group: map<Id, Entity>, id: Id, e: Entity, delay: nat) returns (v: Verdict)
    ensures v == WhenClose(group, id, e, delay)
    ensures e.items > 0 && !OnTheWayOut(e.status) ==> v == Verdict(-1, e.status)
    ensures v.status == Closing <==> e.status == Closing || (v.wait == 0 && e.status != ClosureAwaiting)
    ensures e.status == Closing || e.status == ActiveAwaiting ==> v == Verdict(-1, e.status)
    ensures e.status == ClosureOnNextTry ==> v == Verdict(0, Closing)
    // An empty one closes at once if that is asked for, or if one is to spare and another already waits.
    ensures e.status == Active && e.items == 0 ==>
              v == if || delay == 0
                      || ((exists u :: u in group && u != id && group[u].spare)
                          && exists u :: u in group && u != id && group[u].status == ClosureAwaiting)
                   then Verdict(0, Closing) else Verdict(delay, ClosureAwaiting)
    // One that waits goes on waiting exactly as long as somebody is alive.
    ensures e.status == ClosureAwaiting ==>
              v == Verdict(delay,
                     if exists u :: u in group && (group[u].status == Active || group[u].status == ActiveAwaiting)
                     then ClosureAwaiting else ClosureOnNextTry)
  {
    match e.status {
      case ActiveAwaiting => v := Verdict(-1, e.status);
      case Closing => v := Verdict(-1, e.status);
      case ClosureOnNextTry => v := Verdict(0, Closing);
      case Active =>
        if e.items > 0 {
          return Verdict(-1, e.status);
        }
        var found := ScanOthers(group, id);
        v := if found || delay == 0 then Verdict(0, Closing) else Verdict(delay, ClosureAwaiting);
      case ClosureAwaiting =>
        var alive := ScanAlive(group);
        v := Verdict(delay, if alive then ClosureAwaiting else ClosureOnNextTry);
    }
  }

  /** The scan of process_entity_active_state. */
  method ScanOthers(group: map<Id, Entity>, id: Id) returns (found: bool)
    ensures found <==> Replaceable(group, id)
  {
    var spare, other := false, false;
    var rest := group.Keys;
    while rest != {}
      invariant rest <= group.Keys
      invariant spare <==> exists u :: u in group && u !in rest && u != id && group[u].spare
      invariant other <==> exists u :: u in group && u !in rest && u != id && group[u].status == ClosureAwaiting
      decreases rest
    {
      var u :| u in rest;
      rest := rest - {u};
      if u == id {
        continue;
      }
      if group[u].spare {
        spare := true;
        if other {
          break;
        }
      }
      if group[u].status == ClosureAwaiting {
        other := true;
        if spare {
          break;
        }
      }
    }
    found := spare && other;
  }

  /** The scan of process_entity_closure_awaiting_state. */
  method ScanAlive(group: map<Id, Entity>) returns (alive: bool)
    ensures alive <==> AnyAlive(group)
  {
    var rest := group.Keys;
    while rest != {}
      invariant rest <= group.Keys
      invariant forall u :: u in group && u !in rest ==> !IsAlive(group[u].status)
      decreases rest
    {
      var u :| u in rest;
      rest := rest - {u};
      if IsAlive(group[u].status) {
        return true;
      }
    }
    return false;
  }

  ghost function CloseThread(threads: map<Id, Thread>, t: Id, delay: nat): map<Id, Thread>
    requires t in threads
  {
    threads[t := threads[t].(status := WhenClose(ThreadGroup(threads), t, OfThread(threads[t]), delay).status)]
  }

  ghost function CloseConnection(s: Stats, c: Id, delay: nat): map<Id, Connection>
    requires c in s.connections && s.connections[c].server in s.servers
  {
    var e := s.connections[c];
    var group := ConnectionGroup(s.connections, s.servers[e.server]);
    s.connections[c := e.(status := WhenClose(group, c, OfConnection(e), delay).status)]
  }

  /** What the closing rules see of all threads. */
  lemma GroupOfThreads(m: map<Id, Thread>, t: Id)
    ensures var g := ThreadGroup(m);
            && ((exists u :: u in g && (g[u].status == Active || g[u].status == ActiveAwaiting))
                <==> exists u :: u in m && (m[u].status == Active || m[u].status == ActiveAwaiting))
            && ((exists u :: u in g && u != t && g[u].spare) <==> exists u :: u in m && u != t && !m[u].full)
            && ((exists u :: u in g && u != t && g[u].status == ClosureAwaiting)
                <==> exists u :: u in m && u != t && m[u].status == ClosureAwaiting)
  {
    var g := ThreadGroup(m);
    assert g.Keys == m.Keys && forall u :: u in m ==> u in g && g[u] == OfThread(m[u]);
  }

  /** What they see of a server's connections: each of them is to spare. */
  lemma GroupOfConnections(m: map<Id, Connection>, ids: set<Id>, c: Id)
    ensures var g := ConnectionGroup(m, ids);
            && ((exists u :: u in g && (g[u].status == Active || g[u].status == ActiveAwaiting))
                <==> exists d :: d in ids && d in m && (m[d].status == Active || m[d].status == ActiveAwaiting))
            && ((exists u :: u in g && u != c && g[u].spare) <==> exists d :: d in ids && d in m && d != c)
            && ((exists u :: u in g && u != c && g[u].status == ClosureAwaiting)
                <==> exists d :: d in ids && d in m && d != c && m[d].status == ClosureAwaiting)
  {
    var g := ConnectionGroup(m, ids);
    assert g.Keys == ids * m.Keys && forall d :: d in ids && d in m ==> d in g && g[d] == OfConnection(m[d]);
  }

  // ---------------------------------------------------------------- the loops

  class Policy {
    const perServer: nat  // CONNECTIONS_PER_SERVER_
    const perThread: nat  // CONNECTIONS_PER_THREADS_
    const delay: nat      // CLOSURE_DELAY_
    var servers: map<Id, set<Id>>
    var threads: map<Id, Thread>
    var connections: map<Id, Connection>

    ghost function All(): Stats
      reads this
    {
      Stats(servers, threads, connections)
    }

    method ChooseThread() returns (t: Id)
      requires SPECIAL !in threads
      modifies this`threads
      ensures ChoosesThread(old(threads), perThread, t, threads)
      ensures var m := old(threads);
              if t != SPECIAL then
                && t in m && m[t].status != Closing && m[t].items < perThread
                && t in threads && threads[t] == m[t].(status := ActiveAwaiting)
              else
                forall u :: u in m ==>
                  && u in threads && (m[u].status != Closing ==> m[u].items >= perThread)
                  && threads[u] == if m[u].status == Closing then m[u] else m[u].(full := true)
      ensures forall u :: u in old(threads) && u != t ==>
                || threads[u] == old(threads)[u]
                || (old(threads)[u].items >= perThread && threads[u] == old(threads)[u].(full := true))
    {
      var rest := threads.Keys;
      ghost var before := threads;
      while rest != {}
        invariant rest <= before.Keys == threads.Keys
        invariant forall u :: u in rest ==> threads[u] == before[u]
        invariant forall u :: u in before && u !in rest ==>
                    if before[u].status == Closing then threads[u] == before[u]
                    else before[u].items >= perThread && threads[u] == before[u].(full := true)
        decreases rest
      {
        var u :| u in rest;
        rest := rest - {u};
        if threads[u].status != Closing {
          if threads[u].items < perThread {
            threads := threads[u := threads[u].(status := ActiveAwaiting)];
            return u;
          } else {
            threads := threads[u := threads[u].(full := true)];
          }
        }
      }
      return SPECIAL;
    }

    /** Every pointer of a server's list leads to a record. */
    ghost predicate Linked()
      reads this
    {
      SPECIAL !in connections && forall s :: s in servers ==> servers[s] <= connections.Keys
    }

    method ChooseConnection(server: Id) returns (c: Id)
      requires Linked()
      modifies this`connections
      ensures ChoosesConnection(old(All()), perServer, server, c)
      ensures connections ==
              if c == SPECIAL then old(connections)
              else old(connections)[c := old(connections)[c].(status := ActiveAwaiting)]
      ensures var m := old(connections);
              if c != SPECIAL then
                && server in servers && c in servers[server] && m[c].status != Closing
                && (forall d :: d in servers[server] && m[d].status != Closing ==> m[c].items <= m[d].items)
                && (m[c].items == 0 || |servers[server]| >= perServer)
              else
                server in servers ==>
                  || (forall d :: d in servers[server] ==> m[d].status == Closing)
                  || (|servers[server]| < perServer
                      && forall d :: d in servers[server] && m[d].status != Closing ==> m[d].items > 0)
    {
      if server !in servers {
        return SPECIAL;
      }
      var found := LeastLoaded(server);
      assert forall d :: d in servers[server] && connections[d].status != Closing ==> d in Usable(All(), server);
      if found != SPECIAL && (|servers[server]| >= perServer || connections[found].items == 0) {
        connections := connections[found := connections[found].(status := ActiveAwaiting)];
        return found;
      }
      return SPECIAL;
    }

    /** The scan of choose_connection; it stops early at an idle connection. */
    method LeastLoaded(server: Id) returns (found: Id)
      requires Linked() && server in servers
      ensures found == SPECIAL ==> Usable(All(), server) == {}
      ensures found != SPECIAL ==>
                && found in Usable(All(), server)
                && forall d :: d in Usable(All(), server) ==> connections[found].items <= connections[d].items
    {
      var rest := servers[server];
      var requests := 0;
      found := SPECIAL;
      while rest != {}
        invariant rest <= servers[server]
        invariant found == SPECIAL ==> requests == 0 && forall d :: d in Usable(All(), server) ==> d in rest
        invariant found != SPECIAL ==> found in Usable(All(), server) && requests == connections[found].items > 0
        invariant found != SPECIAL ==>
                    forall d :: d in Usable(All(), server) && d !in rest ==> requests <= connections[d].items
        decreases rest
      {
        var d :| d in rest;
        rest := rest - {d};
        if connections[d].status != Closing {
          if connections[d].items == 0 {
            return d;
          }
          if requests == 0 || connections[d].items < requests {
            requests := connections[d].items;
            found := d;
          }
        }
      }
    }

    method WhenCloseThread(t: Id) returns (res: int)
      modifies this`threads
      ensures t !in old(threads) ==> res == -1 && threads == old(threads)
      ensures t in old(threads) ==>
                && threads == CloseThread(old(threads), t, delay)
                && res == WhenClose(ThreadGroup(old(threads)), t, OfThread(old(threads)[t]), delay).wait
      ensures t in old(threads) && old(threads)[t].status == ClosureAwaiting ==>
                var m := old(threads);
                && res == delay
                && threads == m[t := m[t].(status :=
                     if exists u :: u in m && (m[u].status == Active || m[u].status == ActiveAwaiting)
                     then ClosureAwaiting else ClosureOnNextTry)]
      ensures t in old(threads) && old(threads)[t].status == Active && old(threads)[t].items == 0 ==>
                var m := old(threads);
                if || delay == 0
                   || ((exists u :: u in m && u != t && !m[u].full)
                       && exists u :: u in m && u != t && m[u].status == ClosureAwaiting)
                then res == 0 && threads == m[t := m[t].(status := Closing)]
                else res == delay && threads == m[t := m[t].(status := ClosureAwaiting)]
      ensures t in old(threads) && old(threads)[t].status == ClosureOnNextTry ==>
                res == 0 && threads == old(threads)[t := old(threads)[t].(status := Closing)]
    {
      if t !in threads {
        return -1;
      }
      var v := CloseEntity(ThreadGroup(threads), t, OfThread(threads[t]), delay);
      GroupOfThreads(threads, t);
      threads := threads[t := threads[t].(status := v.status)];
      return v.wait;
    }

    method WhenCloseConnection(c: Id) returns (res: int)
      modifies this`connections
      ensures var s := old(All());
              if c in s.connections && s.connections[c].server in s.servers then
                && connections == CloseConnection(s, c, delay)
                && var e := s.connections[c];
                   res == WhenClose(ConnectionGroup(s.connections, s.servers[e.server]), c, OfConnection(e), delay).wait
              else
                res == -1 && connections == s.connections
      ensures c in old(connections) && old(connections)[c].server in servers ==>
                var m, peers := old(connections), servers[old(connections)[c].server];
                && (m[c].status == ClosureAwaiting ==>
                      && res == delay
                      && connections == m[c := m[c].(status :=
                           if exists d :: && d in peers && d in m
                                          && (m[d].status == Active || m[d].status == ActiveAwaiting)
                           then ClosureAwaiting else ClosureOnNextTry)])
                && (m[c].status == Active && m[c].items == 0 ==>
                      if delay == 0 || exists d :: d in peers && d in m && d != c && m[d].status == ClosureAwaiting
                      then res == 0 && connections == m[c := m[c].(status := Closing)]
                      else res == delay && connections == m[c := m[c].(status := ClosureAwaiting)])
                && (m[c].status == ClosureOnNextTry ==>
                      res == 0 && connections == m[c := m[c].(status := Closing)])
    {
      if c !in connections || connections[c].server !in servers {
        return -1;
      }
      var e := connections[c];
      var v := CloseEntity(ConnectionGroup(connections, servers[e.server]), c, OfConnection(e), delay);
      GroupOfConnections(connections, servers[e.server], c);
      connections := connections[c := e.(status := v.status)];
      return v.wait;
    }
  }

  /** Two timers in a row close a waiting connection when no connection of its server is alive. */
  method TwoTimers(p: Policy, c: Id) returns (first: int, second: int)
    requires c in p.connections && p.connections[c].server in p.servers
    requires p.connections[c].status == ClosureAwaiting
    requires forall d :: d in p.servers[p.connections[c].server] && d in p.connections ==>
               p.connections[d].status != Active && p.connections[d].status != ActiveAwaiting
    modifies p`connections
    ensures first == p.delay && second == 0
    ensures p.connections == old(p.connections)[c := old(p.connections)[c].(status := Closing)]
  {
    first := p.WhenCloseConnection(c);
    second := p.WhenCloseConnection(c);
  }

  // ---------------------------------------------------------------- what the rules guarantee

  /** The statuses on the way to being closed. */
  predicate OnTheWayOut(status: Status)
  {
    status == ClosureAwaiting || status == ClosureOnNextTry || status == Closing
  }

  /** An entity goes towards closing only while it is empty, one status at a time, and never back from Closing. */
  lemma ClosingOrder(group: map<Id, Entity>, id: Id, e: Entity, delay: nat)
    requires OnTheWayOut(e.status) ==> e.items == 0
    ensures var v := WhenClose(group, id, e, delay);
            && (OnTheWayOut(v.status) ==> e.items == 0)
            && (e.status == Closing ==> v.status == Closing)
            && (e.status == ActiveAwaiting ==> v.status == ActiveAwaiting)
            && (v.status == Closing && e.status != Closing ==> v.wait == 0)
  {
  }
}
