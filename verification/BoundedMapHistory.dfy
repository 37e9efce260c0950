/**
  What the bounded map of src/Generics/BoundedMap.hpp holds, told from the calls made to it:
  where the data, the size and the time of use of an entry come from, in which order entries
  stand, what each counter counts, and when a key is kept.
 */
module BoundedMapHistory {
  import opened BoundedMap

  // ---------------------------------------------------------------- the last call that mattered

  /** A use of the key, whether it is held or not. */
  predicate Touches<K(==), D>(op: Op<K, D>, key: K)
  {
    (op.DoFind? || op.DoInsert? || op.DoInsertOrUpdate?) && op.key == key
  }

  /** insert_or_update(), and insert() of a key that is not held. */
  predicate WritesData<K(==), D>(c: Cache<K, D>, op: Op<K, D>, key: K)
  {
    (op.DoInsertOrUpdate? && op.key == key) || (op.DoInsert? && op.key == key && !Has(c, key))
  }

  predicate WritesSize<K(==), D>(c: Cache<K, D>, op: Op<K, D>, key: K)
  {
    WritesData(c, op, key) || (op.DoUpdate? && op.key == key)
  }

  /** The index of the last call that uses the key, or -1. */
  function LastTouch<K(==), D>(calls: seq<Call<K, D>>, key: K): (i: int)
    ensures -1 <= i < |calls|
    ensures i >= 0 ==> Touches(calls[i].op, key)
    ensures forall j :: i < j < |calls| ==> !Touches(calls[j].op, key)
  {
    if calls == [] then -1 else
      var n := |calls| - 1;
      if Touches(calls[n].op, key) then n else LastTouch(calls[..n], key)
  }

  /** The index of the last call that writes data for the key, or -1. */
  function LastData<K(==), D>(c: Cache<K, D>, calls: seq<Call<K, D>>, key: K): (i: int)
    ensures -1 <= i < |calls|
    ensures i >= 0 ==> WritesData(Run(c, calls[..i]), calls[i].op, key)
    ensures forall j :: i < j < |calls| ==> !WritesData(Run(c, calls[..j]), calls[j].op, key)
  {
    if calls == [] then -1 else
      var n := |calls| - 1;
      Prefixes(calls);
      if WritesData(Run(c, calls[..n]), calls[n].op, key) then n else LastData(c, calls[..n], key)
  }

  function LastSize<K(==), D>(c: Cache<K, D>, calls: seq<Call<K, D>>, key: K): (i: int)
    ensures -1 <= i < |calls|
    ensures i >= 0 ==> WritesSize(Run(c, calls[..i]), calls[i].op, key)
    ensures forall j :: i < j < |calls| ==> !WritesSize(Run(c, calls[..j]), calls[j].op, key)
  {
    if calls == [] then -1 else
      var n := |calls| - 1;
      Prefixes(calls);
      if WritesSize(Run(c, calls[..n]), calls[n].op, key) then n else LastSize(c, calls[..n], key)
  }

  lemma Prefixes<T>(s: seq<T>)
    ensures s != [] ==> forall j :: 0 <= j < |s| ==> s[..|s| - 1][..j] == s[..j]
  {
  }

  // ---------------------------------------------------------------- entries and the calls they come from

  /** Time of use, data and size of an entry are those of the last calls for its key. */
  ghost predicate EntryOk<K, D>(c: Cache<K, D>, calls: seq<Call<K, D>>, e: Entry<K, D>)
  {
    var t, d, z := LastTouch(calls, e.key), LastData(c, calls, e.key), LastSize(c, calls, e.key);
    && t >= 0 && e.lastUsed == calls[t].now
    && d >= 0 && e.data == calls[d].op.data
    && z >= 0 && e.size == calls[z].op.size
  }

  ghost predicate AllOk<K, D>(c: Cache<K, D>, calls: seq<Call<K, D>>, es: seq<Entry<K, D>>)
  {
    forall i :: 0 <= i < |es| ==> EntryOk(c, calls, es[i])
  }

  /** Entries stand in the order of their last use. */
  ghost predicate InOrder<K, D>(calls: seq<Call<K, D>>, es: seq<Entry<K, D>>)
  {
    forall i, j :: 0 <= i < j < |es| ==> LastTouch(calls, es[i].key) < LastTouch(calls, es[j].key)
  }

  ghost predicate HistoryOk<K, D>(c: Cache<K, D>, calls: seq<Call<K, D>>, es: seq<Entry<K, D>>)
  {
    AllOk(c, calls, es) && InOrder(calls, es)
  }

  lemma OrderIsDistinct<K, D>(calls: seq<Call<K, D>>, es: seq<Entry<K, D>>)
    requires InOrder(calls, es)
    ensures DistinctKeys(es)
  {
  }

  // Parts of a list with a good history.

  lemma SuffixOk<K, D>(c: Cache<K, D>, calls: seq<Call<K, D>>, es: seq<Entry<K, D>>, k: nat)
    requires HistoryOk(c, calls, es) && k <= |es|
    ensures HistoryOk(c, calls, es[k..])
  {
    hide EntryOk, LastTouch;
  }

  lemma WithoutOk<K, D>(c: Cache<K, D>, calls: seq<Call<K, D>>, es: seq<Entry<K, D>>, i: nat)
    requires HistoryOk(c, calls, es) && i < |es|
    ensures HistoryOk(c, calls, Without(es, i))
  {
    hide EntryOk, LastTouch;
  }

  lemma OwnAndSuffixOk<K, D>(c: Cache<K, D>, calls: seq<Call<K, D>>, es: seq<Entry<K, D>>, i: nat, k: nat)
    requires HistoryOk(c, calls, es) && i < k <= |es|
    ensures HistoryOk(c, calls, [es[i]] + es[k..])
  {
    hide EntryOk, LastTouch;
  }

  lemma AppendOk<K, D>(c: Cache<K, D>, calls: seq<Call<K, D>>, es: seq<Entry<K, D>>, e: Entry<K, D>)
    requires HistoryOk(c, calls, es) && EntryOk(c, calls, e)
    requires forall i :: 0 <= i < |es| ==> LastTouch(calls, es[i].key) < LastTouch(calls, e.key)
    ensures HistoryOk(c, calls, es + [e])
  {
    hide EntryOk, LastTouch;
  }

  // One more call.

  /** The call is not about the key: the last calls for it stay the last ones. */
  ghost predicate Ignores<K, D>(now: Cache<K, D>, op: Op<K, D>, key: K)
  {
    !Touches(op, key) && !WritesSize(now, op, key)
  }

  lemma OneMoreCall<K, D>(c: Cache<K, D>, calls: seq<Call<K, D>>, call: Call<K, D>, key: K)
    ensures var all, now := calls + [call], Run(c, calls);
            && LastTouch(all, key) == (if Touches(call.op, key) then |calls| else LastTouch(calls, key))
            && LastData(c, all, key) == (if WritesData(now, call.op, key) then |calls| else LastData(c, calls, key))
            && LastSize(c, all, key) == (if WritesSize(now, call.op, key) then |calls| else LastSize(c, calls, key))
  {
    hide WritesData, WritesSize, Touches, Run;
    assert (calls + [call])[..|calls|] == calls;
  }

  lemma IgnoredOk<K, D>(c: Cache<K, D>, calls: seq<Call<K, D>>, call: Call<K, D>, es: seq<Entry<K, D>>)
    requires HistoryOk(c, calls, es)
    requires forall i :: 0 <= i < |es| ==> Ignores(Run(c, calls), call.op, es[i].key)
    ensures HistoryOk(c, calls + [call], es)
    ensures forall i :: 0 <= i < |es| ==> LastTouch(calls + [call], es[i].key) < |calls|
  {
    hide LastTouch, LastData, LastSize, Touches, WritesData, WritesSize, Run;
    forall i | 0 <= i < |es|
      ensures EntryOk(c, calls + [call], es[i])
      ensures LastTouch(calls + [call], es[i].key) == LastTouch(calls, es[i].key)
    {
      assert EntryOk(c, calls, es[i]) && Ignores(Run(c, calls), call.op, es[i].key);
      IgnoredEntry(c, calls, call, es[i]);
    }
  }

  lemma IgnoredEntry<K, D>(c: Cache<K, D>, calls: seq<Call<K, D>>, call: Call<K, D>, e: Entry<K, D>)
    requires EntryOk(c, calls, e) && Ignores(Run(c, calls), call.op, e.key)
    ensures EntryOk(c, calls + [call], e) && LastTouch(calls + [call], e.key) == LastTouch(calls, e.key)
  {
    hide LastTouch, LastData, LastSize, Run;
    OneMoreCall(c, calls, call, e.key);
  }

  /** A call about one key leaves the others alone. */
  lemma AboutOneKey<K, D>(now: Cache<K, D>, op: Op<K, D>, es: seq<Entry<K, D>>, key: K)
    requires op.DoFind? || op.DoInsert? || op.DoInsertOrUpdate? || op.DoUpdate? || op.DoErase?
    requires key == op.key && forall i :: 0 <= i < |es| ==> es[i].key != key
    ensures forall i :: 0 <= i < |es| ==> Ignores(now, op, es[i].key)
  {
  }

  /** The used entry goes to the end, all others keep their places. */
  lemma MovedOk<K, D>(c: Cache<K, D>, calls: seq<Call<K, D>>, call: Call<K, D>, rest: seq<Entry<K, D>>, e: Entry<K, D>)
    requires HistoryOk(c, calls, rest) && Touches(call.op, e.key)
    requires forall i :: 0 <= i < |rest| ==> rest[i].key != e.key
    requires EntryOk(c, calls + [call], e)
    ensures HistoryOk(c, calls + [call], rest + [e])
  {
    hide HistoryOk, LastTouch, LastData, LastSize, EntryOk, Run, Ignores;
    AboutOneKey(Run(c, calls), call.op, rest, e.key);
    IgnoredOk(c, calls, call, rest);
    OneMoreCall(c, calls, call, e.key);
    AppendOk(c, calls + [call], rest, e);
  }

  lemma OthersDiffer<K, D>(es: seq<Entry<K, D>>, i: nat)
    requires DistinctKeys(es) && i < |es|
    ensures forall j :: 0 <= j < |es| - 1 ==> Without(es, i)[j].key != es[i].key
  {
  }

  lemma FindHistory<K, D>(c: Cache<K, D>, calls: seq<Call<K, D>>, call: Call<K, D>, key: K)
    requires HistoryOk(c, calls, Run(c, calls).entries)
    requires call.op == DoFind(key) || (call.op.DoInsert? && call.op.key == key && Has(Run(c, calls), key))
    ensures HistoryOk(c, calls + [call], Find(Run(c, calls), key, call.now).entries)
  {
    var now := Run(c, calls);
    var i := IndexOf(now.entries, key);
    hide HistoryOk, LastTouch, LastData, LastSize, Run, IndexOf;
    if i < |now.entries| {
      var e := now.entries[i].(lastUsed := call.now);
      assert InOrder(calls, now.entries) && EntryOk(c, calls, now.entries[i]) by { Unfolded(c, calls, now.entries, i); }
      OrderIsDistinct(calls, now.entries);
      OthersDiffer(now.entries, i);
      WithoutOk(c, calls, now.entries, i);
      OneMoreCall(c, calls, call, key);
      MovedOk(c, calls, call, Without(now.entries, i), e);
    } else {
      AboutOneKey(now, call.op, now.entries, key);
      IgnoredOk(c, calls, call, now.entries);
    }
  }

  lemma Unfolded<K, D>(c: Cache<K, D>, calls: seq<Call<K, D>>, es: seq<Entry<K, D>>, i: nat)
    requires HistoryOk(c, calls, es) && i < |es|
    ensures InOrder(calls, es) && EntryOk(c, calls, es[i])
  {
  }

  lemma InsertNewHistory<K, D>(c: Cache<K, D>, calls: seq<Call<K, D>>, call: Call<K, D>)
    requires HistoryOk(c, calls, Run(c, calls).entries)
    requires (call.op.DoInsert? || call.op.DoInsertOrUpdate?) && !Has(Run(c, calls), call.op.key)
    ensures var op := call.op;
            HistoryOk(c, calls + [call], InsertNew(Run(c, calls), op.key, op.data, op.size, call.now).entries)
  {
    var now, op := Run(c, calls), call.op;
    hide HistoryOk, LastTouch, LastData, LastSize, Run, Evicted, Drops, Total;
    AboutOneKey(now, op, now.entries, op.key);
    if op.size > now.bound {
      IgnoredOk(c, calls, call, now.entries);
    } else {
      var k := Evicted(now.entries, op.size, now.bound, now.timeout, call.now);
      SuffixOk(c, calls, now.entries, k);
      var e := Entry(op.key, op.data, op.size, call.now);
      OneMoreCall(c, calls, call, op.key);
      IgnoredOk(c, calls, call, now.entries[k..]);
      MovedOk(c, calls, call, now.entries[k..], e);
    }
  }

  /** The shapes update_ leaves: the entry with its new size, with or without what stood before it, or not at all. */
  lemma UpdateShapes<K, D>(c: Cache<K, D>, i: nat, size: nat, now: int) returns (k: nat)
    requires i < |c.entries|
    ensures var es, r := c.entries[i := c.entries[i].(size := size)], UpdateAt(c, i, size, now).entries;
            k <= |es| && (r == Without(es, i) || r == if i < k then [es[i]] + es[k..] else es[k..])
  {
    var es, u := c.entries[i := c.entries[i].(size := size)], UpdateAt(c, i, size, now);
    hide Total;
    var newSize := Total(c.entries) - c.entries[i].size + size;
    assert Without(es, i) == Without(c.entries, i);
    k := 0;
    assert es[0..] == es;
    if newSize > c.bound >= size {
      var cut := Scan(c.entries, i, 0, newSize, c.bound, c.timeout, now);
      hide Scan;
      if cut.Some? {
        k := cut.value;
        assert es[k..] == if i < k then c.entries[k..] else c.entries[k..][i - k := es[i]];
      }
    }
  }

  lemma UpdateHistory<K, D>(c: Cache<K, D>, all: seq<Call<K, D>>, now: Cache<K, D>, i: nat, size: nat, clock: int)
    requires i < |now.entries| && HistoryOk(c, all, now.entries[i := now.entries[i].(size := size)])
    ensures HistoryOk(c, all, UpdateAt(now, i, size, clock).entries)
  {
    hide HistoryOk, UpdateAt;
    var es := now.entries[i := now.entries[i].(size := size)];
    var k := UpdateShapes(now, i, size, clock);
    WithoutOk(c, all, es, i);
    SuffixOk(c, all, es, k);
    if i < k {
      OwnAndSuffixOk(c, all, es, i, k);
    }
  }

  /** update() of a held key changes its size alone. */
  lemma ResizedOk<K, D>(c: Cache<K, D>, calls: seq<Call<K, D>>, call: Call<K, D>, es: seq<Entry<K, D>>, i: nat)
    requires HistoryOk(c, calls, es) && i < |es| && call.op.DoUpdate? && call.op.key == es[i].key
    ensures HistoryOk(c, calls + [call], es[i := es[i].(size := call.op.size)])
  {
    hide LastTouch, LastData, LastSize, Run, Has;
    OrderIsDistinct(calls, es);
    var r := es[i := es[i].(size := call.op.size)];
    forall j | 0 <= j < |r|
      ensures EntryOk(c, calls + [call], r[j])
      ensures LastTouch(calls + [call], r[j].key) == LastTouch(calls, es[j].key)
    {
      assert EntryOk(c, calls, es[j]);
      OneMoreCall(c, calls, call, es[j].key);
    }
  }

  lemma UpdateCallHistory<K, D>(c: Cache<K, D>, calls: seq<Call<K, D>>, call: Call<K, D>)
    requires HistoryOk(c, calls, Run(c, calls).entries) && call.op.DoUpdate?
    ensures HistoryOk(c, calls + [call], Update(Run(c, calls), call.op.key, call.op.size, call.now).entries)
  {
    hide HistoryOk, Run, UpdateAt;
    var now := Run(c, calls);
    var i := IndexOf(now.entries, call.op.key);
    hide IndexOf;
    if i < |now.entries| {
      ResizedOk(c, calls, call, now.entries, i);
      UpdateHistory(c, calls + [call], now, i, call.op.size, call.now);
    } else {
      AboutOneKey(now, call.op, now.entries, call.op.key);
      IgnoredOk(c, calls, call, now.entries);
    }
  }

  lemma InsertOrUpdateHistory<K, D>(c: Cache<K, D>, calls: seq<Call<K, D>>, call: Call<K, D>)
    requires HistoryOk(c, calls, Run(c, calls).entries)
    requires call.op.DoInsertOrUpdate? && Has(Run(c, calls), call.op.key)
    ensures var op := call.op;
            HistoryOk(c, calls + [call], InsertOrUpdate(Run(c, calls), op.key, op.data, op.size, call.now).entries)
  {
    hide HistoryOk, Run, UpdateAt, LastTouch, LastData, LastSize;
    var now, op := Run(c, calls), call.op;
    var i := IndexOf(now.entries, op.key);
    hide IndexOf;
    var rest, e := Without(now.entries, i), Entry(op.key, op.data, op.size, call.now);
    assert InOrder(calls, now.entries) by { Unfolded(c, calls, now.entries, i); }
    OrderIsDistinct(calls, now.entries);
    OthersDiffer(now.entries, i);
    WithoutOk(c, calls, now.entries, i);
    OneMoreCall(c, calls, call, op.key);
    MovedOk(c, calls, call, rest, e);
    var found := Find(now, op.key, call.now);
    var last := |found.entries| - 1;
    var changed := found.(entries := found.entries[last := found.entries[last].(data := op.data)]);
    assert changed.entries[last := changed.entries[last].(size := op.size)] == rest + [e];
    UpdateHistory(c, calls + [call], changed, last, op.size, call.now);
  }

  lemma ApplyHistory<K, D>(c: Cache<K, D>, calls: seq<Call<K, D>>, call: Call<K, D>)
    requires HistoryOk(c, calls, Run(c, calls).entries)
    ensures HistoryOk(c, calls + [call], Apply(Run(c, calls), call).entries)
  {
    var now := Run(c, calls);
    hide HistoryOk, Run, InsertNew, InsertOrUpdate, Update, Find;
    match call.op {
      case DoFind(key) => FindHistory(c, calls, call, key);
      case DoInsert(key, _, _) =>
        if Has(now, key) {
          FindHistory(c, calls, call, key);
        } else {
          InsertNewHistory(c, calls, call);
        }
      case DoInsertOrUpdate(key, _, _) =>
        if Has(now, key) {
          InsertOrUpdateHistory(c, calls, call);
        } else {
          InsertNewHistory(c, calls, call);
          MissingInsertOrUpdate(now, call);
        }
      case DoUpdate(_, _) => UpdateCallHistory(c, calls, call);
      case DoErase(key) =>
        IgnoredOk(c, calls, call, now.entries);
        if Has(now, key) {
          WithoutOk(c, calls + [call], now.entries, IndexOf(now.entries, key));
        }
      case DoClear => NothingOk(c, calls + [call]);
      case _ => IgnoredOk(c, calls, call, now.entries);
    }
  }

  lemma NothingOk<K, D>(c: Cache<K, D>, calls: seq<Call<K, D>>)
    ensures HistoryOk(c, calls, [])
  {
  }

  lemma MissingInsertOrUpdate<K, D>(now: Cache<K, D>, call: Call<K, D>)
    requires call.op.DoInsertOrUpdate? && !Has(now, call.op.key)
    ensures var op := call.op;
            InsertOrUpdate(now, op.key, op.data, op.size, call.now) ==
            InsertNew(now, op.key, op.data, op.size, call.now)
  {
  }

  /**
    After any run of calls on an empty map: the data of an entry is that of the last call that
    wrote it, its size that of the last call that set it, its time of use that of the last call
    for its key, and entries stand in the order of their last use.
   */
  lemma {:induction false} EntriesFromCalls<K, D>(c: Cache<K, D>, calls: seq<Call<K, D>>)
    requires c.entries == []
    ensures HistoryOk(c, calls, Run(c, calls).entries)
    decreases |calls|
  {
    hide HistoryOk, Apply;
    if calls == [] {
      NothingOk(c, calls);
    } else {
      var n := |calls| - 1;
      EntriesFromCalls(c, calls[..n]);
      ApplyHistory(c, calls[..n], calls[n]);
      assert calls == calls[..n] + [calls[n]];
    }
  }

  /** No entry has the key. */
  ghost predicate Absent<K, D>(es: seq<Entry<K, D>>, key: K)
  {
    forall i :: 0 <= i < |es| ==> es[i].key != key
  }

  /**
    The data held for a key is that of an insert() which found the key absent or of an
    insert_or_update(), after which no insert_or_update() of the key came and no insert()
    found it absent.
   */
  lemma StoredData<K, D>(c: Cache<K, D>, calls: seq<Call<K, D>>, p: nat)
    requires c.entries == [] && p < |Run(c, calls).entries|
    ensures var e := Run(c, calls).entries[p];
            exists i :: 0 <= i < |calls| && StoredBy(c, calls, e, i)
  {
    hide LastTouch, LastSize;
    EntriesFromCalls(c, calls);
    var e := Run(c, calls).entries[p];
    assert EntryOk(c, calls, e);
    assert StoredBy(c, calls, e, LastData(c, calls, e.key));
  }

  ghost predicate StoredBy<K, D>(c: Cache<K, D>, calls: seq<Call<K, D>>, e: Entry<K, D>, i: nat)
    requires i < |calls|
  {
    && (calls[i].op.DoInsert? || calls[i].op.DoInsertOrUpdate?) && calls[i].op.key == e.key
    && (calls[i].op.DoInsert? ==> Absent(Run(c, calls[..i]).entries, e.key))
    && e.data == calls[i].op.data
    && forall j :: i < j < |calls| ==>
         && !(calls[j].op.DoInsertOrUpdate? && calls[j].op.key == e.key)
         && (calls[j].op.DoInsert? && calls[j].op.key == e.key ==> !Absent(Run(c, calls[..j]).entries, e.key))
  }

  // ---------------------------------------------------------------- what the counters count

  function Plus(a: Stat, b: Stat): Stat
  {
    Stat(a.insertedNew + b.insertedNew, a.insertExisting + b.insertExisting, a.removedOutdated + b.removedOutdated,
         a.removedUpdated + b.removedUpdated, a.notInserted + b.notInserted, a.replaced + b.replaced)
  }

  function One(b: bool): nat
  {
    if b then 1 else 0
  }

  /** What a call adds to the counters, told from who is held before and after it. */
  ghost function Counts1<K, D>(before: Cache<K, D>, after: Cache<K, D>, op: Op<K, D>): (r: Stat)
  {
    if !(op.DoInsert? || op.DoInsertOrUpdate? || op.DoUpdate?) then NoStat
    else
      var was, is_ := Has(before, op.key), Has(after, op.key);
      var came, went := !was && is_, was && !is_;
      var dropped := |before.entries| + One(came) - One(went) - |after.entries|;
      Stat(One(came), One(op.DoInsert? && was), if dropped < 0 then 0 else dropped,
           One(went), One(!op.DoUpdate? && !was && !is_), One(op.DoInsertOrUpdate? && was && is_))
  }

  /** The counts of all calls since the last statistics(true). */
  ghost function CountsOf<K, D>(c: Cache<K, D>, calls: seq<Call<K, D>>): Stat
  {
    if calls == [] then NoStat else
      var n := |calls| - 1;
      var before, op := Run(c, calls[..n]), calls[n].op;
      if op.DoResetStatistics? then NoStat
      else Plus(CountsOf(c, calls[..n]), Counts1(before, Apply(before, calls[n]), op))
  }

  lemma HasIs<K, D>(c: Cache<K, D>, key: K)
    ensures Has(c, key) <==> exists i :: 0 <= i < |c.entries| && c.entries[i].key == key
  {
  }

  lemma InsertNewCounts<K, D>(c: Cache<K, D>, key: K, data: D, size: nat, now: int, op: Op<K, D>)
    requires !Has(c, key) && (op.DoInsert? || op.DoInsertOrUpdate?) && op.key == key
    ensures var r := InsertNew(c, key, data, size, now); r.stat == Plus(c.stat, Counts1(c, r, op))
  {
    hide Evicted, Drops, Total;
    var r := InsertNew(c, key, data, size, now);
    HasIs(c, key);
    HasIs(r, key);
    if r.entries != [] && r.entries[|r.entries| - 1].key == key {
      assert Has(r, key);
    }
  }

  lemma UpdateAtCounts<K, D>(c: Cache<K, D>, i: nat, size: nat, now: int)
    requires DistinctKeys(c.entries) && i < |c.entries|
    ensures var r, key := UpdateAt(c, i, size, now), c.entries[i].key;
            && Has(c, key) && r.stat.removedUpdated == c.stat.removedUpdated + One(!Has(r, key))
            && |r.entries| + One(!Has(r, key)) <= |c.entries|
            && r.stat == c.stat.(removedUpdated := r.stat.removedUpdated,
                 removedOutdated := c.stat.removedOutdated + |c.entries| - One(!Has(r, key)) - |r.entries|)
  {
    hide Total, Scan;
    var r, key := UpdateAt(c, i, size, now), c.entries[i].key;
    HasIs(c, key);
    HasIs(r, key);
    OthersDiffer(c.entries, i);
    if r.stat.removedUpdated == c.stat.removedUpdated {
      StillHeld(c, i, size, now);
    }
  }

  lemma StillHeld<K, D>(c: Cache<K, D>, i: nat, size: nat, now: int)
    requires i < |c.entries| && UpdateAt(c, i, size, now).stat.removedUpdated == c.stat.removedUpdated
    ensures exists j :: 0 <= j < |UpdateAt(c, i, size, now).entries|
                        && UpdateAt(c, i, size, now).entries[j].key == c.entries[i].key
  {
    hide Total, Scan;
    var r := UpdateAt(c, i, size, now).entries;
    var es := c.entries;
    var cut := Scan(es, i, 0, Total(es) - es[i].size + size, c.bound, c.timeout, now);
    if Total(es) - es[i].size + size <= c.bound {
      assert r[i].key == es[i].key;
    } else {
      var k := cut.value;
      assert r[if i < k then 0 else i - k].key == es[i].key;
    }
  }

  lemma UpdateCounts<K, D>(c: Cache<K, D>, op: Op<K, D>, now: int)
    requires DistinctKeys(c.entries) && op.DoUpdate?
    ensures var r := Update(c, op.key, op.size, now); r.stat == Plus(c.stat, Counts1(c, r, op))
  {
    hide UpdateAt;
    if Has(c, op.key) {
      UpdateAtCounts(c, IndexOf(c.entries, op.key), op.size, now);
    }
  }

  lemma InsertOrUpdateCounts<K, D>(c: Cache<K, D>, op: Op<K, D>, now: int)
    requires DistinctKeys(c.entries) && op.DoInsertOrUpdate? && Has(c, op.key)
    ensures var r := InsertOrUpdate(c, op.key, op.data, op.size, now); r.stat == Plus(c.stat, Counts1(c, r, op))
  {
    hide UpdateAt;
    TouchKeeps(c.entries, IndexOf(c.entries, op.key), now);
    var found := Find(c, op.key, now);
    var last := |found.entries| - 1;
    var changed := found.(entries := found.entries[last := found.entries[last].(data := op.data)]);
    assert DistinctKeys(changed.entries) && changed.entries[last].key == op.key;
    UpdateAtCounts(changed, last, op.size, now);
    var u := UpdateAt(changed, last, op.size, now);
    var r := InsertOrUpdate(c, op.key, op.data, op.size, now);
    assert r.entries == u.entries && Has(r, op.key) == Has(u, op.key);
  }

  lemma ApplyCounts<K, D>(c: Cache<K, D>, call: Call<K, D>)
    requires DistinctKeys(c.entries) && !call.op.DoResetStatistics?
    ensures Apply(c, call).stat == Plus(c.stat, Counts1(c, Apply(c, call), call.op))
  {
    hide InsertNew, InsertOrUpdate, Update, DistinctKeys;
    match call.op {
      case DoInsert(key, data, size) =>
        if !Has(c, key) {
          InsertNewCounts(c, key, data, size, call.now, call.op);
        } else {
          TouchedIsHeld(c, key, call.now);
        }
      case DoInsertOrUpdate(key, data, size) =>
        if !Has(c, key) {
          InsertNewCounts(c, key, data, size, call.now, call.op);
          MissingInsertOrUpdate(c, call);
        } else {
          InsertOrUpdateCounts(c, call.op, call.now);
        }
      case DoUpdate(_, _) => UpdateCounts(c, call.op, call.now);
      case _ =>
    }
  }

  lemma TouchedIsHeld<K, D>(c: Cache<K, D>, key: K, now: int)
    requires Has(c, key)
    ensures Has(Find(c, key, now), key) && |Find(c, key, now).entries| == |c.entries|
  {
    HasIs(Find(c, key, now), key);
    var r := Find(c, key, now).entries;
    assert r[|r| - 1].key == key;
  }

  /**
    Over any run the counters are what the calls since the last reset come to: insertions of
    absent keys that are held afterwards and that are not, inserts of held keys, replacements
    after which the key is held, updates after which it is not, and all other entries that
    went in an insertion or an update.
   */
  lemma {:induction false} CountersOfARun<K, D>(bound: nat, timeout: int, calls: seq<Call<K, D>>)
    ensures var c := Empty(bound, timeout); Run(c, calls).stat == CountsOf(c, calls)
    decreases |calls|
  {
    hide Apply, Counts1, Plus;
    if calls != [] {
      var n := |calls| - 1;
      var c: Cache<K, D> := Empty(bound, timeout);
      CountersOfARun<K, D>(bound, timeout, calls[..n]);
      RunAccounted<K, D>(bound, timeout, calls[..n]);
      if calls[n].op.DoResetStatistics? {
        ResetClears(Run(c, calls[..n]), calls[n]);
      } else {
        ApplyCounts(Run(c, calls[..n]), calls[n]);
      }
    }
  }

  lemma ResetClears<K, D>(c: Cache<K, D>, call: Call<K, D>)
    requires call.op.DoResetStatistics?
    ensures Apply(c, call).stat == NoStat
  {
  }

  // ---------------------------------------------------------------- who is kept

  /** The sizes of the entries from j on, entry i apart, that have been used within the timeout. */
  function FreshOthers<K, D>(es: seq<Entry<K, D>>, i: nat, j: nat, timeout: int, now: int): nat
    requires j <= |es|
    decreases |es| - j
  {
    if j == |es| then 0
    else (if es[j].lastUsed + timeout > now && j != i then es[j].size else 0) + FreshOthers(es, i, j + 1, timeout, now)
  }

  /** All entries before k are outdated, all from k on are not. */
  ghost predicate FreshFrom<K, D>(es: seq<Entry<K, D>>, k: nat, timeout: int, now: int)
    requires k <= |es|
  {
    && (forall i :: 0 <= i < k ==> es[i].lastUsed + timeout <= now)
    && (forall i :: k <= i < |es| ==> es[i].lastUsed + timeout > now)
  }

  lemma {:induction false} FreshAreOthers<K, D>(es: seq<Entry<K, D>>, i: nat, j: nat, k: nat, timeout: int, now: int)
    requires k <= |es| && j <= |es| && FreshFrom(es, k, timeout, now)
    ensures FreshOthers(es, i, j, timeout, now) == Others(es, i, if j < k then k else j)
    decreases |es| - j
  {
    if j < |es| {
      FreshAreOthers(es, i, j + 1, k, timeout, now);
    }
  }

  lemma {:induction false} FreshStart<K, D>(es: seq<Entry<K, D>>, timeout: int, now: int) returns (k: nat)
    requires SortedByUse(es, now)
    ensures k <= |es| && FreshFrom(es, k, timeout, now)
    decreases |es|
  {
    k := |es|;
    while k > 0 && es[k - 1].lastUsed + timeout > now
      invariant k <= |es| && forall i :: k <= i < |es| ==> es[i].lastUsed + timeout > now
    {
      k := k - 1;
    }
  }

  lemma {:induction false} OthersShrink<K, D>(es: seq<Entry<K, D>>, i: nat, j: nat, k: nat)
    requires j <= k <= |es|
    ensures Others(es, i, j) >= Others(es, i, k)
    decreases k - j
  {
    if j < k {
      OthersShrink(es, i, j + 1, k);
    }
  }

  /** insert_ of an absent key succeeds exactly if it fits beside the entries that are still fresh. */
  lemma InsertedExactly<K, D>(c: Cache<K, D>, calls: seq<Call<K, D>>, key: K, data: D, size: nat, now: int)
    requires c.entries == [] && ClockForward(calls) && forall i :: 0 <= i < |calls| ==> calls[i].now <= now
    requires !Has(Run(c, calls), key)
    ensures var before := Run(c, calls);
            Has(InsertNew(before, key, data, size, now), key) <==>
              size + FreshOthers(before.entries, |before.entries|, 0, before.timeout, now) <= before.bound
  {
    var before := Run(c, calls);
    RunSorted(c, calls, now);
    hide Run;
    InsertKeeps(before, key, data, size, now);
  }

  lemma DroppedAreOld<K, D>(es: seq<Entry<K, D>>, k: nat, f: nat, size: nat, bound: nat, timeout: int, now: int)
    requires k <= |es| && f <= |es| && Drops(es, k, size, bound, timeout, now) && FreshFrom(es, f, timeout, now)
    ensures k <= f
  {
    hide Total;
    if k > 0 {
      assert Outdated(es[k - 1], timeout, now);
    }
  }

  lemma InsertKeeps<K, D>(c: Cache<K, D>, key: K, data: D, size: nat, now: int)
    requires SortedByUse(c.entries, now) && !Has(c, key)
    ensures Has(InsertNew(c, key, data, size, now), key) <==>
              size + FreshOthers(c.entries, |c.entries|, 0, c.timeout, now) <= c.bound
  {
    hide Evicted, Drops, Total, Others, FreshOthers;
    var es, n, r := c.entries, |c.entries|, InsertNew(c, key, data, size, now);
    var f := FreshStart(es, c.timeout, now);
    FreshAreOthers(es, n, 0, f, c.timeout, now);
    HasIs(c, key);
    HasIs(r, key);
    if size <= c.bound {
      var k := Evicted(es, size, c.bound, c.timeout, now);
      OthersIsTotal(es, n, k);
      DroppedAreOld(es, k, f, size, c.bound, c.timeout, now);
      OthersShrink(es, n, k, f);
      if Total(es[k..]) + size <= c.bound {
        assert r.entries[|r.entries| - 1].key == key;
      }
    }
  }

  /** update_ keeps the key exactly if its new size fits beside the other entries that are still fresh. */
  lemma UpdatedExactly<K, D>(c: Cache<K, D>, calls: seq<Call<K, D>>, i: nat, size: nat, now: int)
    requires c.entries == [] && ClockForward(calls) && forall j :: 0 <= j < |calls| ==> calls[j].now <= now
    requires i < |Run(c, calls).entries|
    ensures var before := Run(c, calls);
            Has(UpdateAt(before, i, size, now), before.entries[i].key) <==>
              size + FreshOthers(before.entries, i, 0, before.timeout, now) <= before.bound
  {
    var before := Run(c, calls);
    RunSorted(c, calls, now);
    EntriesFromCalls(c, calls);
    OrderIsDistinct(calls, before.entries);
    hide Run, HistoryOk;
    UpdateKeeps(before, i, size, now);
  }

  lemma UpdateKeeps<K, D>(c: Cache<K, D>, i: nat, size: nat, now: int)
    requires SortedByUse(c.entries, now) && DistinctKeys(c.entries) && i < |c.entries|
    ensures Has(UpdateAt(c, i, size, now), c.entries[i].key) <==>
              size + FreshOthers(c.entries, i, 0, c.timeout, now) <= c.bound
  {
    hide Total, Others, FreshOthers, Scan, KeepFrom, Without, Has, SortedByUse, DistinctKeys, FreshFrom;
    var es := c.entries;
    var f := FreshStart(es, c.timeout, now);
    FreshAreOthers(es, i, 0, f, c.timeout, now);
    UpdateAtCounts(c, i, size, now);
    AllOthers(es, i);
    ScanStops(es, i, 0, f, size, c.bound, c.timeout, now);
    OthersShrink(es, i, 0, f);
  }

  /** The first loop of update_ goes on to the first fresh entry unless the total fits before. */
  lemma {:induction false} ScanStops<K, D>(es: seq<Entry<K, D>>, i: nat, k: nat, f: nat, size: nat,
                                           bound: nat, timeout: int, now: int)
    requires k <= f <= |es| && FreshFrom(es, f, timeout, now)
    ensures Scan(es, i, k, size + Others(es, i, k), bound, timeout, now).Some? <==> size + Others(es, i, f) <= bound
    decreases f - k
  {
    OthersShrink(es, i, k, f);
    if k < f {
      ScanStops(es, i, k + 1, f, size, bound, timeout, now);
    }
  }

  /** insert_ drops entries from the front only, each unused for the timeout and while there is no room yet. */
  lemma InsertEvicts<K, D>(c: Cache<K, D>, key: K, data: D, size: nat, now: int)
    requires !Has(c, key)
    ensures var es, r := c.entries, InsertNew(c, key, data, size, now);
            exists k :: && 0 <= k <= |es|
                   && r.entries == es[k..] + (if Has(r, key) then [Entry(key, data, size, now)] else [])
                   && forall j :: 0 <= j < k ==>
                        es[j].lastUsed + c.timeout <= now && size <= c.bound < Total(es[j..]) + size
  {
    hide Evicted, Total;
    var es, r := c.entries, InsertNew(c, key, data, size, now);
    HasIs(c, key);
    HasIs(r, key);
    if size > c.bound {
      assert es[0..] + [] == es;
    } else {
      var k := Evicted(es, size, c.bound, c.timeout, now);
      if Total(es[k..]) + size <= c.bound {
        assert r.entries[|r.entries| - 1].key == key;
      } else {
        assert es[k..] + [] == es[k..];
      }
    }
  }
}
