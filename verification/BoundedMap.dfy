/**
  The bounded least-recently-used map of src/Generics/BoundedMap.hpp.

  `Cache` is what a user of the map observes: the entries, least recently used first, and
  the statistics. The class below keeps a hash table, a list and a running total instead.
  A clock reading and the answer of the size policy are parameters of each call, because
  both may change from one call to the next.
 */
module BoundedMap {
  import opened Wrappers

  datatype Entry<K, D> = Entry(key: K, data: D, size: nat, lastUsed: int)

  datatype Stat = Stat(
    insertedNew: nat,
    insertExisting: nat,
    removedOutdated: nat,
    removedUpdated: nat,
    notInserted: nat,
    replaced: nat)

  const NoStat := Stat(0, 0, 0, 0, 0, 0)

  datatype Cache<K, D> = Cache(entries: seq<Entry<K, D>>, bound: nat, timeout: int, stat: Stat)

  // ---------------------------------------------------------------- sequences of entries

  function Total<K, D>(es: seq<Entry<K, D>>): nat
  {
    if es == [] then 0 else es[0].size + Total(es[1..])
  }

  function Without<T>(s: seq<T>, i: nat): seq<T>
    requires i < |s|
  {
    s[..i] + s[i + 1..]
  }

  /** The position of x, or the length when it is absent. */
  function FirstIndex<T(==)>(s: seq<T>, x: T): (i: nat)
    ensures i <= |s|
    ensures i < |s| ==> s[i] == x
    ensures forall j :: 0 <= j < i ==> s[j] != x
  {
    if s == [] || s[0] == x then 0 else 1 + FirstIndex(s[1..], x)
  }

  function IndexOf<K(==), D>(es: seq<Entry<K, D>>, key: K): (i: nat)
    ensures i <= |es|
    ensures i < |es| ==> es[i].key == key
    ensures forall j :: 0 <= j < i ==> es[j].key != key
  {
    var keys := seq(|es|, i requires 0 <= i < |es| => es[i].key);
    var i := FirstIndex(keys, key);
    assert forall j :: 0 <= j < |es| ==> keys[j] == es[j].key;
    i
  }

  predicate Has<K(==), D>(c: Cache<K, D>, key: K)
  {
    IndexOf(c.entries, key) < |c.entries|
  }

  ghost predicate DistinctKeys<K, D>(es: seq<Entry<K, D>>)
  {
    forall i, j :: 0 <= i < j < |es| ==> es[i].key != es[j].key
  }

  predicate Outdated<K, D>(e: Entry<K, D>, timeout: int, now: int)
  {
    e.lastUsed + timeout <= now
  }

  lemma {:induction false} TotalAppend<K, D>(a: seq<Entry<K, D>>, b: seq<Entry<K, D>>)
    ensures Total(a + b) == Total(a) + Total(b)
  {
    if a == [] {
      assert a + b == b;
    } else {
      TotalAppend(a[1..], b);
      assert (a + b)[1..] == a[1..] + b;
    }
  }

  lemma TotalAt<K, D>(es: seq<Entry<K, D>>, i: nat)
    requires i < |es|
    ensures Total(es) == Total(Without(es, i)) + es[i].size
    ensures forall e: Entry<K, D> :: Total(es[i := e]) == Total(Without(es, i)) + e.size
  {
    TotalAppend(es[..i], es[i + 1..]);
    forall e: Entry<K, D> ensures Total(es[i := e]) == Total(Without(es, i)) + e.size {
      assert es[i := e] == es[..i] + ([e] + es[i + 1..]);
      TotalAppend(es[..i], [e] + es[i + 1..]);
    }
    assert es == es[i := es[i]];
  }

  lemma TotalWith<K, D>(es: seq<Entry<K, D>>, i: nat, size: nat)
    requires i < |es|
    ensures Total(es[i := es[i].(size := size)]) == Total(es) - es[i].size + size
  {
    hide Total;
    TotalAt(es, i);
    var e := es[i].(size := size);
    assert Total(es[i := e]) == Total(Without(es, i)) + e.size;
  }

  // ---------------------------------------------------------------- the operations

  /** find_: the entry becomes the most recently used. */
  function Touch<K, D>(es: seq<Entry<K, D>>, i: nat, now: int): seq<Entry<K, D>>
    requires i < |es|
  {
    Without(es, i) + [es[i].(lastUsed := now)]
  }

  function Find<K(==), D>(c: Cache<K, D>, key: K, now: int): Cache<K, D>
  {
    var i := IndexOf(c.entries, key);
    if i < |c.entries| then c.(entries := Touch(c.entries, i, now)) else c
  }

  /**
    How many entries insert_ drops from the front. It stops as soon as the new one fits,
    or at the first entry that is still fresh.
   */
  function Evicted<K, D>(es: seq<Entry<K, D>>, size: nat, bound: nat, timeout: int, now: int): (k: nat)
    requires size <= bound
    ensures k <= |es|
    ensures Drops(es, k, size, bound, timeout, now)
    ensures Total(es[k..]) + size <= bound || (k < |es| && !Outdated(es[k], timeout, now))
  {
    if Total(es) + size <= bound || !Outdated(es[0], timeout, now) then
      assert es[0..] == es; 0
    else
      var k := Evicted(es[1..], size, bound, timeout, now);
      OneMore(es, k, size, bound, timeout, now);
      1 + k
  }

  /** k entries are dropped: each was outdated and the rest did not yet fit. */
  ghost predicate Drops<K, D>(es: seq<Entry<K, D>>, k: nat, size: nat, bound: nat, timeout: int, now: int)
    requires k <= |es|
  {
    forall j :: 0 <= j < k ==> Outdated(es[j], timeout, now) && Total(es[j..]) + size > bound
  }

  lemma OneMore<K, D>(es: seq<Entry<K, D>>, k: nat, size: nat, bound: nat, timeout: int, now: int)
    requires es != [] && k <= |es| - 1 && Drops(es[1..], k, size, bound, timeout, now)
    requires Outdated(es[0], timeout, now) && Total(es) + size > bound
    ensures Drops(es, k + 1, size, bound, timeout, now) && es[1..][k..] == es[k + 1..]
  {
    hide Total, Outdated;
    assert es[0..] == es;
    forall j | 0 < j < k + 1 ensures Outdated(es[j], timeout, now) && Total(es[j..]) + size > bound {
      assert es[1..][j - 1..] == es[j..] && es[1..][j - 1] == es[j];
    }
  }

  /** insert_(key, data, now) for a key that is not held. */
  function InsertNew<K, D>(c: Cache<K, D>, key: K, data: D, size: nat, now: int): Cache<K, D>
  {
    if size > c.bound then
      c.(stat := c.stat.(notInserted := c.stat.notInserted + 1))
    else
      var k := Evicted(c.entries, size, c.bound, c.timeout, now);
      var rest := c.entries[k..];
      var stat := c.stat.(removedOutdated := c.stat.removedOutdated + k);
      if Total(rest) + size <= c.bound then
        c.(entries := rest + [Entry(key, data, size, now)],
           stat := stat.(insertedNew := stat.insertedNew + 1))
      else
        c.(entries := rest, stat := stat.(notInserted := stat.notInserted + 1))
  }

  /** insert(value) */
  function Insert<K(==), D>(c: Cache<K, D>, key: K, data: D, size: nat, now: int): Cache<K, D>
  {
    if Has(c, key) then
      Find(c, key, now).(stat := c.stat.(insertExisting := c.stat.insertExisting + 1))
    else
      InsertNew(c, key, data, size, now)
  }

  /** The front k entries are dropped, except entry i, which takes its new size. */
  function KeepFrom<K, D>(es: seq<Entry<K, D>>, i: nat, k: nat, size: nat): seq<Entry<K, D>>
    requires i < |es| && k <= |es|
  {
    if i < k then [es[i].(size := size)] + es[k..] else es[k..][i - k := es[i].(size := size)]
  }

  /**
    The first loop of update_, from position k with the running `newSize`: where it stops
    because the total fits, or None if it meets the end or a fresh entry first.
   */
  function Scan<K, D>(es: seq<Entry<K, D>>, i: nat, k: nat, newSize: int, bound: nat, timeout: int, now: int)
    : (r: Option<nat>)
    requires k <= |es|
    ensures r.Some? ==> k <= r.value <= |es|
    decreases |es| - k
  {
    if newSize <= bound then Some(k)
    else if k == |es| || !Outdated(es[k], timeout, now) then None
    else Scan(es, i, k + 1, if k == i then newSize else newSize - es[k].size, bound, timeout, now)
  }

  /** update_ of entry i, whose size is now `size`. */
  function UpdateAt<K, D>(c: Cache<K, D>, i: nat, size: nat, now: int): Cache<K, D>
    requires i < |c.entries|
  {
    var es := c.entries;
    var newSize := Total(es) - es[i].size + size;
    var dropped := c.(entries := Without(es, i), stat := c.stat.(removedUpdated := c.stat.removedUpdated + 1));
    if newSize <= c.bound then c.(entries := es[i := es[i].(size := size)])
    else if size > c.bound then dropped
    else
      match Scan(es, i, 0, newSize, c.bound, c.timeout, now)
      case None => dropped
      case Some(k) =>
        c.(entries := KeepFrom(es, i, k, size),
           stat := c.stat.(removedOutdated := c.stat.removedOutdated + if i < k then k - 1 else k))
  }

  function Update<K(==), D>(c: Cache<K, D>, key: K, size: nat, now: int): Cache<K, D>
  {
    var i := IndexOf(c.entries, key);
    if i < |c.entries| then UpdateAt(c, i, size, now) else c
  }

  function InsertOrUpdate<K(==), D>(c: Cache<K, D>, key: K, data: D, size: nat, now: int): Cache<K, D>
  {
    if Has(c, key) then
      var found := Find(c, key, now);
      var i := |found.entries| - 1;
      var r := UpdateAt(found.(entries := found.entries[i := found.entries[i].(data := data)]), i, size, now);
      if r.stat.removedUpdated == c.stat.removedUpdated then r.(stat := r.stat.(replaced := r.stat.replaced + 1)) else r
    else
      InsertNew(c, key, data, size, now)
  }

  function Erase<K(==), D>(c: Cache<K, D>, key: K): Cache<K, D>
  {
    var i := IndexOf(c.entries, key);
    if i < |c.entries| then c.(entries := Without(c.entries, i)) else c
  }

  // ---------------------------------------------------------------- update_ is all or nothing

  /** The sizes of the entries from position k on, entry i apart. */
  function Others<K, D>(es: seq<Entry<K, D>>, i: nat, k: nat): nat
    requires k <= |es|
    decreases |es| - k
  {
    if k == |es| then 0 else (if k == i then 0 else es[k].size) + Others(es, i, k + 1)
  }

  lemma {:induction false} OthersIsTotal<K, D>(es: seq<Entry<K, D>>, i: nat, k: nat)
    requires k <= |es|
    ensures Others(es, i, k) + (if k <= i < |es| then es[i].size else 0) == Total(es[k..])
    decreases |es| - k
  {
    if k < |es| {
      OthersIsTotal(es, i, k + 1);
      assert es[k..][1..] == es[k + 1..];
    }
  }

  lemma KeepFromTotal<K, D>(es: seq<Entry<K, D>>, i: nat, k: nat, size: nat)
    requires i < |es| && k <= |es|
    ensures Total(KeepFrom(es, i, k, size)) == size + Others(es, i, k)
  {
    OthersIsTotal(es, i, k);
    if i < k {
      TotalAppend([es[i].(size := size)], es[k..]);
    } else {
      TotalAt(es[k..], i - k);
    }
  }

  /** The first k entries may go: all are outdated, and what is kept then fits. */
  ghost predicate Suffices<K, D>(c: Cache<K, D>, i: nat, k: nat, size: nat, now: int)
    requires i < |c.entries|
  {
    && k <= |c.entries|
    && Total(KeepFrom(c.entries, i, k, size)) <= c.bound
    && forall j :: 0 <= j < k ==> Outdated(c.entries[j], c.timeout, now)
  }

  lemma {:induction false} ScanFindsShortest<K, D>(c: Cache<K, D>, i: nat, k: nat, size: nat, now: int)
    requires i < |c.entries| && k <= |c.entries| && size <= c.bound
    requires forall j :: 0 <= j < k ==> Outdated(c.entries[j], c.timeout, now) && !Suffices(c, i, j, size, now)
    ensures var r := Scan(c.entries, i, k, size + Others(c.entries, i, k), c.bound, c.timeout, now);
            && (r.Some? ==> Suffices(c, i, r.value, size, now))
            && (r.Some? ==> forall j :: 0 <= j < r.value ==> !Suffices(c, i, j, size, now))
            && (r.None? ==> forall j: nat :: !Suffices(c, i, j, size, now))
            && (r.None? ==> exists j :: 0 <= j < |c.entries| && !Outdated(c.entries[j], c.timeout, now))
    decreases |c.entries| - k
  {
    KeepFromTotal(c.entries, i, k, size);
    if size + Others(c.entries, i, k) > c.bound {
      // The end cannot have been reached: the entry alone fits.
      assert k < |c.entries|;
      if Outdated(c.entries[k], c.timeout, now) {
        ScanFindsShortest(c, i, k + 1, size, now);
      }
    }
  }

  /**
    update_ either removes exactly the updated entry, or keeps it and evicts the shortest
    outdated prefix that makes the new total fit. It removes the entry only if no outdated
    prefix would do.
   */
  lemma UpdateAllOrNothing<K, D>(c: Cache<K, D>, i: nat, size: nat, now: int)
    requires i < |c.entries|
    ensures var r := UpdateAt(c, i, size, now);
            if size <= c.bound && exists k: nat :: Suffices(c, i, k, size, now) then
              exists k: nat :: && Suffices(c, i, k, size, now)
                          && (forall j :: 0 <= j < k ==> !Suffices(c, i, j, size, now))
                          && r.entries == KeepFrom(c.entries, i, k, size)
            else
              r.entries == Without(c.entries, i)
  {
    var es := c.entries;
    AllOthers(es, i);
    if size <= c.bound {
      ScanFindsShortest(c, i, 0, size, now);
      if Total(es) - es[i].size + size <= c.bound {
        KeepFromTotal(es, i, 0, size);
        assert Suffices(c, i, 0, size, now);
      } else {
        hide Suffices, KeepFrom, Total, Others, Scan;
      }
    }
  }

  lemma AllOthers<K, D>(es: seq<Entry<K, D>>, i: nat)
    requires i < |es|
    ensures Others(es, i, 0) == Total(es) - es[i].size
  {
    OthersIsTotal(es, i, 0);
    assert es[0..] == es;
  }

  // ---------------------------------------------------------------- whole runs

  datatype Op<K, D> =
    | DoFind(key: K)
    | DoInsert(key: K, data: D, size: nat)
    | DoInsertOrUpdate(key: K, data: D, size: nat)
    | DoUpdate(key: K, size: nat)
    | DoErase(key: K)
    | DoClear
    | DoBound(bound: nat)
    | DoTimeout(timeout: int)
    | DoResetStatistics

  datatype Call<K, D> = Call(op: Op<K, D>, now: int)

  function Apply<K(==), D>(c: Cache<K, D>, call: Call<K, D>): Cache<K, D>
  {
    match call.op
    case DoFind(key) => Find(c, key, call.now)
    case DoInsert(key, data, size) => Insert(c, key, data, size, call.now)
    case DoInsertOrUpdate(key, data, size) => InsertOrUpdate(c, key, data, size, call.now)
    case DoUpdate(key, size) => Update(c, key, size, call.now)
    case DoErase(key) => Erase(c, key)
    case DoClear => c.(entries := [])
    case DoBound(bound) => c.(bound := bound)
    case DoTimeout(timeout) => c.(timeout := timeout)
    case DoResetStatistics => c.(stat := NoStat)
  }

  function Run<K(==), D>(c: Cache<K, D>, calls: seq<Call<K, D>>): Cache<K, D>
  {
    if calls == [] then c else Apply(Run(c, calls[..|calls| - 1]), calls[|calls| - 1])
  }

  function Empty<K, D>(bound: nat, timeout: int): Cache<K, D>
  {
    Cache([], bound, timeout, NoStat)
  }

  /** Entries that a call takes away by erase() or clear(). */
  function Erasures1<K(==), D>(c: Cache<K, D>, op: Op<K, D>): nat
  {
    match op
    case DoErase(key) => if Has(c, key) then 1 else 0
    case DoClear => |c.entries|
    case _ => 0
  }

  /** 1 for insert(), and for insert_or_update() of a key that is not held. */
  function InsertCalls1<K(==), D>(c: Cache<K, D>, op: Op<K, D>): nat
  {
    match op
    case DoInsert(_, _, _) => 1
    case DoInsertOrUpdate(key, _, _) => if Has(c, key) then 0 else 1
    case _ => 0
  }

  /** What has happened since the statistics were last reset, or since the start. */
  datatype Since = Since(held: nat, erased: nat, insertCalls: nat)

  function Since1<K(==), D>(c: Cache<K, D>, h: Since, op: Op<K, D>): Since
  {
    if op.DoResetStatistics? then Since(|c.entries|, 0, 0)
    else Since(h.held, h.erased + Erasures1(c, op), h.insertCalls + InsertCalls1(c, op))
  }

  /** `held` is the number of entries at the reset; the others count from there on. */
  function History<K(==), D>(c: Cache<K, D>, calls: seq<Call<K, D>>): Since
  {
    if calls == [] then Since(|c.entries|, 0, 0) else
      var most := calls[..|calls| - 1];
      Since1(Run(c, most), History(c, most), calls[|calls| - 1].op)
  }

  /** The laws the comment of BoundedMapStat states, for one state and its history. */
  ghost predicate Accounted<K, D>(c: Cache<K, D>, h: Since)
  {
    && DistinctKeys(c.entries)
    && c.stat.insertedNew + h.held == |c.entries| + c.stat.removedOutdated + c.stat.removedUpdated + h.erased
    && (h.held == 0 && c.stat.insertedNew > 0 ==> c.stat.removedOutdated < c.stat.insertedNew)
    && h.insertCalls == c.stat.insertedNew + c.stat.insertExisting + c.stat.notInserted
  }

  lemma TouchKeeps<K, D>(es: seq<Entry<K, D>>, i: nat, now: int)
    requires i < |es| && DistinctKeys(es)
    ensures DistinctKeys(Touch(es, i, now)) && |Touch(es, i, now)| == |es|
    ensures Total(Touch(es, i, now)) == Total(es)
  {
    TouchTotal(es, i, now);
  }

  lemma InsertNewAccounted<K, D>(c: Cache<K, D>, key: K, data: D, size: nat, now: int, h: Since)
    requires Accounted(c, h) && forall j :: 0 <= j < |c.entries| ==> c.entries[j].key != key
    ensures Accounted(InsertNew(c, key, data, size, now), h.(insertCalls := h.insertCalls + 1))
  {
    hide Evicted, Drops;
  }

  lemma UpdateAtAccounted<K, D>(c: Cache<K, D>, i: nat, size: nat, now: int, h: Since)
    requires Accounted(c, h) && i < |c.entries|
    ensures Accounted(UpdateAt(c, i, size, now), h)
  {
  }

  lemma FindAccounted<K, D>(c: Cache<K, D>, key: K, now: int, h: Since)
    requires Accounted(c, h)
    ensures Accounted(Find(c, key, now), h)
  {
    if Has(c, key) {
      TouchKeeps(c.entries, IndexOf(c.entries, key), now);
    }
  }

  lemma InsertOrUpdateAccounted<K, D>(c: Cache<K, D>, key: K, data: D, size: nat, now: int, h: Since)
    requires Accounted(c, h) && Has(c, key)
    ensures Accounted(InsertOrUpdate(c, key, data, size, now), h)
  {
    TouchKeeps(c.entries, IndexOf(c.entries, key), now);
    var found := Find(c, key, now);
    var last := |found.entries| - 1;
    var changed := found.(entries := found.entries[last := found.entries[last].(data := data)]);
    assert Accounted(changed, h);
    UpdateAtAccounted(changed, last, size, now, h);
  }

  lemma EraseAccounted<K, D>(c: Cache<K, D>, key: K, h: Since)
    requires Accounted(c, h)
    ensures Accounted(Erase(c, key), h.(erased := h.erased + if Has(c, key) then 1 else 0))
  {
  }

  lemma ApplyAccounted<K, D>(c: Cache<K, D>, call: Call<K, D>, h: Since)
    requires Accounted(c, h)
    ensures Accounted(Apply(c, call), Since1(c, h, call.op))
  {
    hide InsertNew, UpdateAt, Touch;
    match call.op {
      case DoFind(key) => FindAccounted(c, key, call.now, h);
      case DoInsert(key, data, size) =>
        if Has(c, key) {
          FindAccounted(c, key, call.now, h);
        } else {
          InsertNewAccounted(c, key, data, size, call.now, h);
        }
      case DoInsertOrUpdate(key, data, size) =>
        if Has(c, key) {
          InsertOrUpdateAccounted(c, key, data, size, call.now, h);
        } else {
          InsertNewAccounted(c, key, data, size, call.now, h);
        }
      case DoUpdate(key, size) =>
        if Has(c, key) { UpdateAtAccounted(c, IndexOf(c.entries, key), size, call.now, h); }
      case DoErase(key) => EraseAccounted(c, key, h);
      case _ =>
    }
  }

  /**
    Over any run: entries inserted since the last reset and those held at it are held,
    evicted, dropped by an update, or erased; insert calls are the three insert counters.
    So removed_outdated is below inserted_new exactly if what was held at the reset is less
    than what is held or went otherwise, which for an empty map is once something is inserted.
   */
  lemma {:induction false} RunAccounted<K, D>(bound: nat, timeout: int, calls: seq<Call<K, D>>)
    ensures var c := Run(Empty(bound, timeout), calls);
            var h := History(Empty(bound, timeout), calls);
            && Accounted(c, h)
            && (c.stat.removedOutdated < c.stat.insertedNew
                <==> h.held < |c.entries| + c.stat.removedUpdated + h.erased)
            && (c.stat.removedOutdated + c.stat.removedUpdated <= c.stat.insertedNew
                <==> h.held <= |c.entries| + h.erased)
            && (h.held == 0 ==> (c.stat.removedOutdated < c.stat.insertedNew <==> c.stat.insertedNew > 0))
    decreases |calls|
  {
    if calls != [] {
      var most := calls[..|calls| - 1];
      RunAccounted(bound, timeout, most);
      hide Apply, Since1;
      ApplyAccounted(Run(Empty(bound, timeout), most), calls[|calls| - 1], History(Empty(bound, timeout), most));
    }
  }

  lemma RunSnoc<K, D>(c: Cache<K, D>, calls: seq<Call<K, D>>, call: Call<K, D>)
    ensures Run(c, calls + [call]) == Apply(Run(c, calls), call)
  {
    assert (calls + [call])[..|calls|] == calls;
  }

  lemma FirstInsert(key: int)
    ensures Insert(Empty<int, int>(1, 0), key, 0, 1, 0) ==
            Cache([Entry(key, 0, 1, 0)], 1, 0, NoStat.(insertedNew := 1))
  {
  }

  lemma EvictingInsert(held: int, key: int)
    requires held != key
    ensures Insert(Cache([Entry(held, 0, 1, 0)], 1, 0, NoStat), key, 0, 1, 0).stat ==
            NoStat.(insertedNew := 1, removedOutdated := 1)
  {
    var es := [Entry(held, 0, 1, 0)];
    assert es[1..] == [] && Total(es) == 1;
    assert Evicted(es, 1, 1, 0, 0) == 1;
    assert IndexOf(es, key) == 1;
  }

  /** A reset forgets insertions that later evictions still count. */
  lemma ResetBreaksTheComment()
    ensures exists calls: seq<Call<int, int>> ::
              var stat := Run(Empty(1, 0), calls).stat;
              stat.insertedNew > 0 && !(stat.removedOutdated < stat.insertedNew)
  {
    hide Run, Apply;
    var one, reset, two := Call(DoInsert(1, 0, 1), 0), Call(DoResetStatistics, 0), Call(DoInsert(2, 0, 1), 0);
    var c: Cache<int, int> := Empty(1, 0);
    RunOfThree(c, one, reset, two);
    InsertResetInsert();
    assert Run(c, [one, reset, two]).stat == NoStat.(insertedNew := 1, removedOutdated := 1);
  }

  lemma InsertResetInsert()
    ensures var one, reset, two := Call(DoInsert(1, 0, 1), 0), Call(DoResetStatistics, 0), Call(DoInsert(2, 0, 1), 0);
            Apply(Apply(Apply(Empty<int, int>(1, 0), one), reset), two).stat ==
              NoStat.(insertedNew := 1, removedOutdated := 1)
  {
    hide Insert, InsertOrUpdate, Update, Find, Erase;
    var c1 := Cache([Entry(1, 0, 1, 0)], 1, 0, NoStat.(insertedNew := 1));
    assert Apply(Empty<int, int>(1, 0), Call(DoInsert(1, 0, 1), 0)) == c1 by {
      FirstInsert(1);
    }
    var c2 := c1.(stat := NoStat);
    assert Apply(c1, Call(DoResetStatistics, 0)) == c2;
    assert Apply(c2, Call(DoInsert(2, 0, 1), 0)).stat == NoStat.(insertedNew := 1, removedOutdated := 1) by {
      EvictingInsert(1, 2);
    }
  }

  lemma RunOfThree<K, D>(c: Cache<K, D>, x: Call<K, D>, y: Call<K, D>, z: Call<K, D>)
    ensures Run(c, [x, y, z]) == Apply(Apply(Apply(c, x), y), z)
  {
    hide Apply;
    assert Run(c, []) == c;
    assert [x, y, z] == [] + [x] + [y] + [z];
    RunSnoc(c, [], x);
    RunSnoc(c, [] + [x], y);
    RunSnoc(c, [] + [x] + [y], z);
    hide Run;
  }

  /** So does every reset of a map of positive total, if a key that is not held is then inserted late enough. */
  lemma AnyResetMayBreakTheComment<K, D>(c: Cache<K, D>, key: K, data: D)
    requires !Has(c, key) && Total(c.entries) > 0
    ensures exists now ::
              var stat := Insert(c.(stat := NoStat), key, data, c.bound, now).stat;
              stat.insertedNew == 1 && stat.removedOutdated >= 1
  {
    var now := Latest(c.entries, c.timeout);
    var k := Evicted(c.entries, c.bound, c.bound, c.timeout, now);
    assert c.entries[0..] == c.entries;
    var d := c.(stat := NoStat);
    assert Insert(d, key, data, c.bound, now) == InsertNew(d, key, data, c.bound, now);
  }

  /** A time at which every entry is outdated. */
  function Latest<K, D>(es: seq<Entry<K, D>>, timeout: int): (now: int)
    ensures forall i :: 0 <= i < |es| ==> Outdated(es[i], timeout, now)
  {
    if es == [] then 0
    else
      var rest := Latest(es[1..], timeout);
      assert forall i :: 0 < i < |es| ==> es[i] == es[1..][i - 1];
      if es[0].lastUsed + timeout > rest then es[0].lastUsed + timeout else rest
  }

  // ---------------------------------------------------------------- the bound

  ghost predicate Fits<K, D>(c: Cache<K, D>)
  {
    Total(c.entries) <= c.bound
  }

  lemma InsertNewFits<K, D>(c: Cache<K, D>, key: K, data: D, size: nat, now: int)
    ensures var r := InsertNew(c, key, data, size, now);
            && (Fits(c) || r.stat.insertedNew > c.stat.insertedNew ==> Fits(r))
            && Total(r.entries) <= Total(c.entries) + size
  {
    hide Evicted, Drops;
    if size <= c.bound {
      var k := Evicted(c.entries, size, c.bound, c.timeout, now);
      assert c.entries == c.entries[..k] + c.entries[k..];
      TotalAppend(c.entries[..k], c.entries[k..]);
      TotalAppend(c.entries[k..], [Entry(key, data, size, now)]);
      assert Total([Entry(key, data, size, now)]) == size;
      hide Total;
    }
  }

  lemma UpdateAtFits<K, D>(c: Cache<K, D>, i: nat, size: nat, now: int)
    requires i < |c.entries|
    ensures var r := UpdateAt(c, i, size, now);
            Fits(c) || r.stat.removedUpdated == c.stat.removedUpdated ==> Fits(r)
  {
    TotalAt(c.entries, i);
    OthersIsTotal(c.entries, i, 0);
    assert c.entries[0..] == c.entries;
    hide KeepFrom, Others, Outdated, Total, Scan;
    if size <= c.bound && Total(c.entries) - c.entries[i].size + size > c.bound {
      ScanFindsShortest(c, i, 0, size, now);
    }
  }

  /** The bound is not lowered below what is held. */
  ghost predicate Roomy<K, D>(c: Cache<K, D>, call: Call<K, D>)
  {
    call.op.DoBound? ==> Total(c.entries) <= call.op.bound
  }

  lemma ApplyFits<K, D>(c: Cache<K, D>, call: Call<K, D>)
    requires Fits(c) && Roomy(c, call)
    ensures Fits(Apply(c, call))
  {
    match call.op {
      case DoFind(key) => if Has(c, key) { TouchTotal(c.entries, IndexOf(c.entries, key), call.now); }
      case DoInsert(key, data, size) =>
        if Has(c, key) {
          TouchTotal(c.entries, IndexOf(c.entries, key), call.now);
        } else {
          InsertNewFits(c, key, data, size, call.now);
        }
      case DoInsertOrUpdate(key, data, size) =>
        if Has(c, key) {
          InsertOrUpdateFits(c, key, data, size, call.now);
        } else {
          InsertNewFits(c, key, data, size, call.now);
        }
      case DoUpdate(key, size) => if Has(c, key) { UpdateAtFits(c, IndexOf(c.entries, key), size, call.now); }
      case DoErase(key) => if Has(c, key) { TotalAt(c.entries, IndexOf(c.entries, key)); }
      case _ =>
    }
  }

  lemma InsertOrUpdateFits<K, D>(c: Cache<K, D>, key: K, data: D, size: nat, now: int)
    requires Has(c, key)
    ensures var r := InsertOrUpdate(c, key, data, size, now);
            Fits(c) || r.stat.replaced > c.stat.replaced ==> Fits(r)
  {
    hide Total, Scan, KeepFrom, Without;
    TouchTotal(c.entries, IndexOf(c.entries, key), now);
    var found := Find(c, key, now);
    var last := |found.entries| - 1;
    TotalAt(found.entries, last);
    var changed := found.(entries := found.entries[last := found.entries[last].(data := data)]);
    UpdateAtFits(changed, last, size, now);
  }

  /** Every call of a run, seen from the state it is made in, satisfies `Roomy`. */
  ghost predicate AlwaysRoomy<K, D>(c: Cache<K, D>, calls: seq<Call<K, D>>)
  {
    forall i :: 0 <= i < |calls| ==> Roomy(Run(c, calls[..i]), calls[i])
  }

  lemma {:induction false} RoomyFits<K, D>(c: Cache<K, D>, calls: seq<Call<K, D>>, n: nat)
    requires Fits(c) && AlwaysRoomy(c, calls) && n <= |calls|
    ensures Fits(Run(c, calls[..n]))
    decreases n
  {
    hide Roomy;
    if n > 0 {
      RoomyFits(c, calls, n - 1);
      assert calls[..n][..n - 1] == calls[..n - 1];
      hide Fits, Apply;
      ApplyFits(Run(c, calls[..n - 1]), calls[n - 1]);
    }
  }

  lemma LoweredIsSeen<K, D>(c: Cache<K, D>, calls: seq<Call<K, D>>, i: nat)
    requires i < |calls| && Fits(Run(c, calls[..i + 1]))
    ensures Roomy(Run(c, calls[..i]), calls[i])
  {
    assert calls[..i + 1] == calls[..i] + [calls[i]];
    RunSnoc(c, calls[..i], calls[i]);
    hide Run, Total;
  }

  /** The total is within the bound in every state of a run exactly if no call lowers the bound below what is held. */
  lemma RunFits<K, D>(bound: nat, timeout: int, calls: seq<Call<K, D>>)
    ensures (forall n :: 0 <= n <= |calls| ==> Fits(Run(Empty(bound, timeout), calls[..n])))
            <==> AlwaysRoomy(Empty(bound, timeout), calls)
  {
    var c: Cache<K, D> := Empty(bound, timeout);
    assert Fits(c);
    hide Run, Roomy, Fits, Empty;
    if AlwaysRoomy(c, calls) {
      hide AlwaysRoomy;
      forall n | 0 <= n <= |calls| ensures Fits(Run(c, calls[..n])) {
        RoomyFits(c, calls, n);
      }
    }
    if forall n :: 0 <= n <= |calls| ==> Fits(Run(c, calls[..n])) {
      forall i | 0 <= i < |calls| ensures Roomy(Run(c, calls[..i]), calls[i]) {
        assert Fits(Run(c, calls[..i + 1]));
        LoweredIsSeen(c, calls, i);
      }
    }
  }

  // ---------------------------------------------------------------- the order of use

  ghost predicate SortedByUse<K, D>(es: seq<Entry<K, D>>, now: int)
  {
    && (forall i, j :: 0 <= i < j < |es| ==> es[i].lastUsed <= es[j].lastUsed)
    && (forall i :: 0 <= i < |es| ==> es[i].lastUsed <= now)
  }

  lemma TouchSorted<K, D>(es: seq<Entry<K, D>>, i: nat, now: int)
    requires SortedByUse(es, now) && i < |es|
    ensures SortedByUse(Touch(es, i, now), now)
  {
  }

  lemma InsertNewSorted<K, D>(c: Cache<K, D>, key: K, data: D, size: nat, now: int)
    requires SortedByUse(c.entries, now)
    ensures SortedByUse(InsertNew(c, key, data, size, now).entries, now)
  {
    hide Evicted, Drops, Total;
  }

  lemma KeepFromSorted<K, D>(es: seq<Entry<K, D>>, i: nat, k: nat, size: nat, now: int)
    requires SortedByUse(es, now) && i < |es| && k <= |es|
    ensures SortedByUse(KeepFrom(es, i, k, size), now)
  {
  }

  lemma PartsSorted<K, D>(es: seq<Entry<K, D>>, i: nat, e: Entry<K, D>, now: int)
    requires SortedByUse(es, now) && i < |es| && e.lastUsed == es[i].lastUsed
    ensures SortedByUse(Without(es, i), now) && SortedByUse(es[i := e], now)
  {
  }

  lemma UpdateAtSorted<K, D>(c: Cache<K, D>, i: nat, size: nat, now: int)
    requires SortedByUse(c.entries, now) && i < |c.entries|
    ensures SortedByUse(UpdateAt(c, i, size, now).entries, now)
  {
    PartsSorted(c.entries, i, c.entries[i].(size := size), now);
    var r := Scan(c.entries, i, 0, Total(c.entries) - c.entries[i].size + size, c.bound, c.timeout, now);
    if r.Some? {
      KeepFromSorted(c.entries, i, r.value, size, now);
    }
  }

  lemma InsertOrUpdateSorted<K, D>(c: Cache<K, D>, key: K, data: D, size: nat, now: int)
    requires SortedByUse(c.entries, now) && Has(c, key)
    ensures SortedByUse(InsertOrUpdate(c, key, data, size, now).entries, now)
  {
    TouchSorted(c.entries, IndexOf(c.entries, key), now);
    var found := Find(c, key, now);
    var last := |found.entries| - 1;
    var changed := found.(entries := found.entries[last := found.entries[last].(data := data)]);
    UpdateAtSorted(changed, last, size, now);
  }

  lemma ApplySorted<K, D>(c: Cache<K, D>, call: Call<K, D>)
    requires SortedByUse(c.entries, call.now)
    ensures SortedByUse(Apply(c, call).entries, call.now)
  {
    hide InsertNew, UpdateAt, Touch;
    match call.op {
      case DoFind(key) => if Has(c, key) { TouchSorted(c.entries, IndexOf(c.entries, key), call.now); }
      case DoInsert(key, data, size) =>
        if Has(c, key) {
          TouchSorted(c.entries, IndexOf(c.entries, key), call.now);
        } else {
          InsertNewSorted(c, key, data, size, call.now);
        }
      case DoInsertOrUpdate(key, data, size) =>
        if Has(c, key) {
          InsertOrUpdateSorted(c, key, data, size, call.now);
        } else {
          InsertNewSorted(c, key, data, size, call.now);
        }
      case DoUpdate(key, size) => if Has(c, key) { UpdateAtSorted(c, IndexOf(c.entries, key), size, call.now); }
      case _ =>
    }
  }

  /** Clock readings, in the order the calls take the lock, do not decrease. */
  ghost predicate ClockForward<K, D>(calls: seq<Call<K, D>>)
  {
    forall i, j :: 0 <= i < j < |calls| ==> calls[i].now <= calls[j].now
  }

  lemma {:induction false} RunSorted<K, D>(c: Cache<K, D>, calls: seq<Call<K, D>>, now: int)
    requires c.entries == [] && ClockForward(calls) && forall i :: 0 <= i < |calls| ==> calls[i].now <= now
    ensures SortedByUse(Run(c, calls).entries, now)
    decreases |calls|
  {
    if calls != [] {
      var call := calls[|calls| - 1];
      RunSorted(c, calls[..|calls| - 1], call.now);
      ApplySorted(Run(c, calls[..|calls| - 1]), call);
    }
  }

  /** An insert that would fit the bound and is refused leaves only entries that are still fresh. */
  lemma RefusedInsertLeavesFresh<K, D>(c: Cache<K, D>, calls: seq<Call<K, D>>, key: K, data: D, size: nat, now: int)
    requires c.entries == [] && ClockForward(calls) && forall i :: 0 <= i < |calls| ==> calls[i].now <= now
    ensures var before := Run(c, calls);
            var after := InsertNew(before, key, data, size, now);
            size <= before.bound && after.stat.insertedNew == before.stat.insertedNew ==>
              && after.entries != []
              && forall j :: 0 <= j < |after.entries| ==> !Outdated(after.entries[j], before.timeout, now)
  {
    RunSorted(c, calls, now);
  }

  // ---------------------------------------------------------------- table, list and total

  /** A list node; `id` is its address, which iterators keep hold of. */
  datatype Node<K> = Node(id: nat, key: K, lastUsed: int)

  /** BoundedMapTypes::Item; `order` is the iterator of the key's list node. */
  datatype Item<D> = Item(data: D, size: nat, order: nat)

  ghost predicate DistinctNodes<K>(queue: seq<Node<K>>)
  {
    forall i, j :: 0 <= i < j < |queue| ==> queue[i].key != queue[j].key && queue[i].id != queue[j].id
  }

  ghost predicate Owned<K, D>(queue: seq<Node<K>>, container: map<K, Item<D>>, nextId: nat)
  {
    forall i :: 0 <= i < |queue| ==> queue[i].key in container && container[queue[i].key].order == queue[i].id < nextId
  }

  ghost predicate Queued<K>(queue: seq<Node<K>>, key: K)
  {
    exists i :: 0 <= i < |queue| && queue[i].key == key
  }

  /** Table and list describe the same keys, and every `order` is the key's own node. */
  ghost predicate Linked<K, D>(queue: seq<Node<K>>, container: map<K, Item<D>>, nextId: nat)
  {
    && DistinctNodes(queue)
    && Owned(queue, container, nextId)
    && forall k :: k in container ==> Queued(queue, k)
  }

  ghost predicate Keyed<K, D>(queue: seq<Node<K>>, container: map<K, Item<D>>)
  {
    forall i :: 0 <= i < |queue| ==> queue[i].key in container
  }

  function EntryOf<K(==), D>(n: Node<K>, container: map<K, Item<D>>): Entry<K, D>
    requires n.key in container
  {
    Entry(n.key, container[n.key].data, container[n.key].size, n.lastUsed)
  }

  ghost function View<K, D>(queue: seq<Node<K>>, container: map<K, Item<D>>): (es: seq<Entry<K, D>>)
    requires Keyed(queue, container)
    ensures |es| == |queue|
    ensures forall i :: 0 <= i < |queue| ==> es[i] == EntryOf(queue[i], container)
  {
    seq(|queue|, i requires 0 <= i < |queue| => EntryOf(queue[i], container))
  }

  /** Where the node of an iterator is in the list. */
  function PositionOf<K>(queue: seq<Node<K>>, id: nat): (i: nat)
    ensures i <= |queue|
    ensures i < |queue| ==> queue[i].id == id
    ensures forall j :: 0 <= j < i ==> queue[j].id != id
  {
    var ids := seq(|queue|, i requires 0 <= i < |queue| => queue[i].id);
    var i := FirstIndex(ids, id);
    assert forall j :: 0 <= j < |queue| ==> ids[j] == queue[j].id;
    i
  }

  /** The iterator of an item is the position of its key. */
  lemma OrderIsIndex<K, D>(queue: seq<Node<K>>, container: map<K, Item<D>>, nextId: nat, key: K)
    requires Linked(queue, container, nextId)
    ensures var i := IndexOf(View(queue, container), key);
            && (key in container <==> i < |queue|)
            && (key in container ==> PositionOf(queue, container[key].order) == i && queue[i].key == key)
  {
    var es := View(queue, container);
    var i := IndexOf(es, key);
    if key in container {
      assert Queued(queue, key);
      var j :| 0 <= j < |queue| && queue[j].key == key;
      assert es[j].key == key;
    }
    if i < |queue| {
      assert queue[i].key == key;
      var p := PositionOf(queue, container[key].order);
      assert p == i;
    }
  }

  lemma WithoutAt<T>(s: seq<T>, i: nat)
    requires i < |s|
    ensures forall j {:trigger Without(s, i)[j]} :: 0 <= j < |s| - 1 ==>
              Without(s, i)[j] == if j < i then s[j] else s[j + 1]
  {
  }

  lemma WithoutDistinct<K>(queue: seq<Node<K>>, i: nat)
    requires DistinctNodes(queue) && i < |queue|
    ensures DistinctNodes(Without(queue, i))
    ensures forall j :: 0 <= j < |queue| - 1 ==>
              Without(queue, i)[j].key != queue[i].key && Without(queue, i)[j].id != queue[i].id
  {
    WithoutAt(queue, i);
  }

  lemma WithoutQueued<K>(queue: seq<Node<K>>, i: nat, key: K)
    requires i < |queue| && Queued(queue, key) && key != queue[i].key
    ensures Queued(Without(queue, i), key)
  {
    var j :| 0 <= j < |queue| && queue[j].key == key;
    assert Without(queue, i)[if j < i then j else j - 1].key == key;
  }

  lemma WithoutOwned<K, D>(queue: seq<Node<K>>, container: map<K, Item<D>>, nextId: nat, i: nat)
    requires DistinctNodes(queue) && Owned(queue, container, nextId) && i < |queue|
    ensures Owned(Without(queue, i), container - {queue[i].key}, nextId)
    ensures View(Without(queue, i), container - {queue[i].key}) == Without(View(queue, container), i)
  {
    WithoutDistinct(queue, i);
    WithoutAt(queue, i);
    WithoutAt(View(queue, container), i);
  }

  lemma DropNode<K, D>(queue: seq<Node<K>>, container: map<K, Item<D>>, nextId: nat, i: nat)
    requires Linked(queue, container, nextId) && i < |queue|
    ensures var q, m := Without(queue, i), container - {queue[i].key};
            Linked(q, m, nextId) && View(q, m) == Without(View(queue, container), i)
  {
    WithoutDistinct(queue, i);
    WithoutOwned(queue, container, nextId, i);
    forall k | k in container - {queue[i].key} ensures Queued(Without(queue, i), k) {
      WithoutQueued(queue, i, k);
    }
  }

  lemma AddNode<K, D>(queue: seq<Node<K>>, container: map<K, Item<D>>, nextId: nat,
                      key: K, data: D, size: nat, now: int)
    requires Linked(queue, container, nextId) && key !in container
    ensures var q, m := queue + [Node(nextId, key, now)], container[key := Item(data, size, nextId)];
            Linked(q, m, nextId + 1) && View(q, m) == View(queue, container) + [Entry(key, data, size, now)]
  {
    var q, m := queue + [Node(nextId, key, now)], container[key := Item(data, size, nextId)];
    forall k | k in m ensures Queued(q, k) {
      AppendQueued(queue, Node(nextId, key, now), k);
    }
  }

  lemma AppendQueued<K>(queue: seq<Node<K>>, n: Node<K>, key: K)
    requires Queued(queue, key) || n.key == key
    ensures Queued(queue + [n], key)
  {
    if n.key == key {
      assert (queue + [n])[|queue|].key == key;
    } else {
      var j :| 0 <= j < |queue| && queue[j].key == key;
      assert (queue + [n])[j].key == key;
    }
  }

  lemma SpliceOwned<K, D>(queue: seq<Node<K>>, container: map<K, Item<D>>, nextId: nat, i: nat, now: int)
    requires DistinctNodes(queue) && Owned(queue, container, nextId) && i < |queue|
    ensures var q := Without(queue, i) + [queue[i].(lastUsed := now)];
            DistinctNodes(q) && Owned(q, container, nextId)
  {
    WithoutDistinct(queue, i);
    WithoutAt(queue, i);
  }

  lemma SpliceView<K, D>(queue: seq<Node<K>>, container: map<K, Item<D>>, i: nat, now: int)
    requires Keyed(queue, container) && i < |queue|
    requires Keyed(Without(queue, i) + [queue[i].(lastUsed := now)], container)
    ensures View(Without(queue, i) + [queue[i].(lastUsed := now)], container) == Touch(View(queue, container), i, now)
  {
    WithoutAt(queue, i);
    WithoutAt(View(queue, container), i);
  }

  lemma SpliceNode<K, D>(queue: seq<Node<K>>, container: map<K, Item<D>>, nextId: nat, i: nat, now: int)
    requires Linked(queue, container, nextId) && i < |queue|
    ensures var q := Without(queue, i) + [queue[i].(lastUsed := now)];
            Linked(q, container, nextId) && View(q, container) == Touch(View(queue, container), i, now)
  {
    SpliceOwned(queue, container, nextId, i, now);
    SpliceView(queue, container, i, now);
    var node := queue[i].(lastUsed := now);
    forall k | k in container ensures Queued(Without(queue, i) + [node], k) {
      if k != node.key { WithoutQueued(queue, i, k); }
      AppendQueued(Without(queue, i), node, k);
    }
  }

  lemma ChangeItem<K, D>(queue: seq<Node<K>>, container: map<K, Item<D>>, nextId: nat, i: nat, data: D, size: nat)
    requires Linked(queue, container, nextId) && i < |queue|
    ensures var key := queue[i].key;
            var m := container[key := Item(data, size, container[key].order)];
            && Linked(queue, m, nextId)
            && View(queue, m) == View(queue, container)[i := View(queue, container)[i].(data := data, size := size)]
  {
  }

  lemma TouchTotal<K, D>(es: seq<Entry<K, D>>, i: nat, now: int)
    requires i < |es|
    ensures Total(Touch(es, i, now)) == Total(es)
  {
    TotalAt(es, i);
    TotalAppend(Without(es, i), [es[i].(lastUsed := now)]);
  }

  /** What the eviction loop of insert_ leaves. */
  function MadeRoom<K, D>(c: Cache<K, D>, size: nat, now: int): Cache<K, D>
    requires size <= c.bound
  {
    var k := Evicted(c.entries, size, c.bound, c.timeout, now);
    c.(entries := c.entries[k..], stat := c.stat.(removedOutdated := c.stat.removedOutdated + k))
  }

  /** One turn of that loop. */
  lemma MadeRoomStep<K, D>(c: Cache<K, D>, size: nat, now: int)
    requires size <= c.bound < Total(c.entries) + size && c.entries != [] && Outdated(c.entries[0], c.timeout, now)
    ensures MadeRoom(c, size, now) ==
            var stat := c.stat.(removedOutdated := c.stat.removedOutdated + 1);
            MadeRoom(c.(entries := c.entries[1..], stat := stat), size, now)
  {
    hide Drops, Total, Outdated;
    var k := Evicted(c.entries[1..], size, c.bound, c.timeout, now);
    assert c.entries[1..][k..] == c.entries[k + 1..];
  }

  /** insert_ makes room and then looks whether there is enough of it. */
  lemma InsertByRoom<K, D>(c: Cache<K, D>, key: K, data: D, size: nat, now: int)
    requires size <= c.bound
    ensures MadeRoom(c, size, now).stat.insertedNew == c.stat.insertedNew
    ensures var m := MadeRoom(c, size, now);
            InsertNew(c, key, data, size, now) ==
              if Total(m.entries) + size <= c.bound then
                m.(entries := m.entries + [Entry(key, data, size, now)],
                   stat := m.stat.(insertedNew := m.stat.insertedNew + 1))
              else
                m.(stat := m.stat.(notInserted := m.stat.notInserted + 1))
  {
    hide Evicted, Drops, Total;
  }

  lemma MadeRoomEnd<K, D>(c: Cache<K, D>, size: nat, now: int)
    requires size <= c.bound
    requires Total(c.entries) + size <= c.bound || (c.entries != [] && !Outdated(c.entries[0], c.timeout, now))
    ensures MadeRoom(c, size, now) == c
  {
    assert c.entries[0..] == c.entries;
    hide Drops;
  }

  /** s from n on, preceded by element i if that is among the first n. */
  function Kept<T>(s: seq<T>, i: nat, n: nat): seq<T>
    requires i < |s| && n <= |s|
  {
    (if i < n then [s[i]] else []) + s[n..]
  }

  lemma KeptAt<T>(s: seq<T>, i: nat, n: nat)
    requires i < |s| && n <= |s|
    ensures Kept(s, i, 0) == s
    ensures var r := if i < n then 1 else 0; |Kept(s, i, n)| == |s| - n + r && (n < |s| ==> Kept(s, i, n)[r] == s[n])
  {
  }

  lemma KeptDrops<T>(s: seq<T>, i: nat, n: nat)
    requires i < |s| && n < |s| && n != i
    ensures Without(Kept(s, i, n), if i < n then 1 else 0) == Kept(s, i, n + 1)
  {
  }

  lemma KeptOwn<T>(s: seq<T>, i: nat)
    requires i < |s|
    ensures Kept(s, i, i) == Kept(s, i, i + 1)
  {
  }

  /** Dropping the nodes before k and resizing entry i is KeepFrom. */
  lemma CutIsKeepFrom<K, D>(es: seq<Entry<K, D>>, i: nat, k: nat, size: nat)
    requires i < |es| && k <= |es|
    ensures var j := if i < k then 0 else i - k;
            j < |Kept(es, i, k)| && Kept(es, i, k)[j := es[i].(size := size)] == KeepFrom(es, i, k, size)
  {
  }

  lemma KeptOwnAt<T>(s: seq<T>, i: nat, k: nat)
    requires i < |s| && k <= |s|
    ensures var j := if i < k then 0 else i - k; j < |Kept(s, i, k)| && Kept(s, i, k)[j] == s[i]
  {
  }

  lemma ResizeTotal<K, D>(es: seq<Entry<K, D>>, i: nat, e: Entry<K, D>)
    requires i < |es| && e.size == es[i].size
    ensures Total(es[i := e]) == Total(es)
  {
    TotalAt(es, i);
  }

  lemma LastIndex<K, D>(queue: seq<Node<K>>, container: map<K, Item<D>>, nextId: nat, key: K)
    requires Linked(queue, container, nextId) && queue != [] && queue[|queue| - 1].key == key
    ensures IndexOf(View(queue, container), key) == |queue| - 1
  {
    assert View(queue, container)[|queue| - 1].key == key;
  }

  lemma SameNode<K>(queue: seq<Node<K>>, i: nat, n: nat)
    requires DistinctNodes(queue) && i < |queue| && n < |queue|
    ensures queue[n].id == queue[i].id <==> n == i
  {
  }

  class BoundedMap<Key(==), Data> {
    var bound: nat
    var timeout: int
    var container: map<Key, Item<Data>>
    var queue: seq<Node<Key>>
    var size: nat
    var stat: Stat
    var nextId: nat  // the address the next list node gets

    ghost predicate Valid()
      reads this
    {
      Linked(queue, container, nextId) && size == Total(View(queue, container))
    }

    ghost function Abs(): Cache<Key, Data>
      reads this
      requires Valid()
    {
      Cache(View(queue, container), bound, timeout, stat)
    }

    constructor (bound: nat, timeout: int)
      ensures Valid() && Abs() == Empty(bound, timeout)
    {
      this.bound := bound;
      this.timeout := timeout;
      container := map[];
      queue := [];
      size := 0;
      stat := NoStat;
      nextId := 0;
    }

    /** find_ */
    method Touch_(key: Key, now: int) returns (found: bool)
      requires Valid()
      modifies this`queue
      ensures Valid() && Abs() == Find(old(Abs()), key, now)
      ensures found <==> key in container
      ensures found <==> Has(old(Abs()), key)
      ensures found ==> queue != [] && queue[|queue| - 1].key == key
    {
      hide DistinctNodes, Owned, Queued;
      OrderIsIndex(queue, container, nextId, key);
      found := key in container;
      if found {
        var i := PositionOf(queue, container[key].order);
        SpliceNode(queue, container, nextId, i, now);
        TouchTotal(Abs().entries, i, now);
        queue := Without(queue, i) + [queue[i].(lastUsed := now)];
      }
    }

    /** find(): the data held for the key, if any. */
    method Find_(key: Key, now: int) returns (r: Option<Data>)
      requires Valid()
      modifies this`queue
      ensures Valid() && Abs() == Find(old(Abs()), key, now)
      ensures r.None? <==> forall i :: 0 <= i < |old(Abs()).entries| ==> old(Abs()).entries[i].key != key
      ensures forall i :: 0 <= i < |old(Abs()).entries| && old(Abs()).entries[i].key == key ==>
                r == Some(old(Abs()).entries[i].data)
    {
      hide DistinctNodes, Owned, Queued;
      var found := Touch_(key, now);
      if !found {
        return None;
      }
      return Some(container[key].data);
    }

    /** Takes the front node and its item away. */
    method DropFront()
      requires Valid() && queue != []
      modifies this`queue, this`container, this`size, this`stat
      ensures Valid() && container.Keys <= old(container.Keys)
      ensures Abs() == var c := old(Abs());
                       c.(entries := c.entries[1..], stat := c.stat.(removedOutdated := c.stat.removedOutdated + 1))
    {
      hide DistinctNodes, Queued;
      DropNode(queue, container, nextId, 0);
      ghost var es := Abs().entries;
      assert Without(es, 0) == es[1..];
      stat := stat.(removedOutdated := stat.removedOutdated + 1);
      var key := queue[0].key;
      size := size - container[key].size;
      container := container - {key};
      queue := Without(queue, 0);
    }

    /** The eviction loop of insert_. */
    method MakeRoom(need: nat, now: int) returns (ok: bool)
      requires Valid() && need <= bound
      modifies this`queue, this`container, this`size, this`stat
      ensures Valid() && container.Keys <= old(container.Keys)
      ensures ok <==> size + need <= bound
      ensures Abs() == MadeRoom(old(Abs()), need, now)
    {
      hide DistinctNodes, Owned, Queued, MadeRoom, Evicted, Drops;
      ghost var target := MadeRoom(Abs(), need, now);
      while size + need > bound
        invariant Valid() && container.Keys <= old(container.Keys)
        invariant MadeRoom(Abs(), need, now) == target
        decreases |queue|
      {
        assert queue != [];  // the end() test of the source is never met
        if queue[0].lastUsed + timeout > now {
          MadeRoomEnd(Abs(), need, now);
          return false;
        }
        MadeRoomStep(Abs(), need, now);
        DropFront();
      }
      MadeRoomEnd(Abs(), need, now);
      return true;
    }

    /** The end of insert_, once there is room. */
    method AppendNew(key: Key, data: Data, need: nat, now: int)
      requires Valid() && key !in container
      modifies this`queue, this`container, this`size, this`stat, this`nextId
      ensures Valid()
      ensures Abs() == var c := old(Abs());
                       c.(entries := c.entries + [Entry(key, data, need, now)],
                          stat := c.stat.(insertedNew := c.stat.insertedNew + 1))
    {
      hide DistinctNodes, Owned, Queued;
      AddNode(queue, container, nextId, key, data, need, now);
      TotalAppend(Abs().entries, [Entry(key, data, need, now)]);
      container := container[key := Item(data, need, nextId)];
      queue := queue + [Node(nextId, key, now)];
      nextId := nextId + 1;
      stat := stat.(insertedNew := stat.insertedNew + 1);
      size := size + need;
    }

    /** insert_(key, data, now) for an absent key; `need` is the size policy's answer. */
    method InsertAbsent(key: Key, data: Data, need: nat, now: int) returns (inserted: bool)
      requires Valid() && key !in container
      modifies this`queue, this`container, this`size, this`stat, this`nextId
      ensures Valid() && Abs() == InsertNew(old(Abs()), key, data, need, now)
      ensures inserted <==> stat.insertedNew > old(stat.insertedNew)
    {
      hide Linked, View, Evicted, Drops, Total, MadeRoom;
      if need > bound {
        stat := stat.(notInserted := stat.notInserted + 1);
        return false;
      }
      InsertByRoom(Abs(), key, data, need, now);
      hide InsertNew;
      inserted := MakeRoom(need, now);
      if !inserted {
        stat := stat.(notInserted := stat.notInserted + 1);
        return;
      }
      AppendNew(key, data, need, now);
    }

    /** insert(value) */
    method Insert_(key: Key, data: Data, need: nat, now: int) returns (inserted: bool)
      requires Valid()
      modifies this`queue, this`container, this`size, this`stat, this`nextId
      ensures Valid() && Abs() == Insert(old(Abs()), key, data, need, now)
      ensures inserted <==> stat.insertedNew > old(stat.insertedNew)
    {
      hide DistinctNodes, Owned, Queued;
      OrderIsIndex(queue, container, nextId, key);
      var found := Touch_(key, now);
      if found {
        stat := stat.(insertExisting := stat.insertExisting + 1);
        return false;
      }
      inserted := InsertAbsent(key, data, need, now);
    }

    /** Takes one key away, as update_ and erase() do through its iterator. */
    method DropKey(key: Key)
      requires Valid() && key in container
      modifies this`queue, this`container, this`size
      ensures Valid() && Abs() == Erase(old(Abs()), key)
      ensures key !in container
    {
      hide DistinctNodes, Owned, Queued;
      OrderIsIndex(queue, container, nextId, key);
      var i := PositionOf(queue, container[key].order);
      DropNode(queue, container, nextId, i);
      TotalAt(Abs().entries, i);
      size := size - container[key].size;
      container := container - {key};
      queue := Without(queue, i);
    }

    method Erase_(key: Key)
      requires Valid()
      modifies this`queue, this`container, this`size
      ensures Valid() && Abs() == Erase(old(Abs()), key)
    {
      hide DistinctNodes, Owned, Queued;
      OrderIsIndex(queue, container, nextId, key);
      if key in container {
        DropKey(key);
      }
    }

    method Clear()
      requires Valid()
      modifies this`queue, this`container, this`size
      ensures Valid() && Abs() == old(Abs()).(entries := [])
    {
      size := 0;
      container := map[];
      queue := [];
    }

    /** The first loop of update_: where the eviction would stop, or None. */
    method FindCut(own: nat, newTotal: nat, now: int) returns (cut: Option<nat>, fitted: int)
      requires Valid() && own < |queue|
      ensures cut == Scan(Abs().entries, own, 0, newTotal, bound, timeout, now)
      ensures cut.Some? ==> fitted == newTotal - Others(Abs().entries, own, 0) + Others(Abs().entries, own, cut.value)
    {
      ghost var es := Abs().entries;
      var order := 0;
      fitted := newTotal;
      while fitted > bound
        invariant order <= |queue|
        invariant fitted == newTotal - Others(es, own, 0) + Others(es, own, order)
        invariant Scan(es, own, order, fitted, bound, timeout, now) == Scan(es, own, 0, newTotal, bound, timeout, now)
        decreases |queue| - order
      {
        if order == |queue| || queue[order].lastUsed + timeout > now {
          return None, fitted;
        }
        if order != own {
          fitted := fitted - container[queue[order].key].size;
        }
        order := order + 1;
      }
      return Some(order), fitted;
    }

    /** The second loop of update_: drops the nodes before `cut`, except `own`. */
    method EvictBefore(own: nat, cut: nat)
      requires Linked(queue, container, nextId) && own < |queue| && cut <= |queue|
      modifies this`queue, this`container, this`stat
      ensures Linked(queue, container, nextId)
      ensures queue == Kept(old(queue), own, cut)
      ensures View(queue, container) == Kept(old(View(queue, container)), own, cut)
      ensures stat == old(stat).(removedOutdated := old(stat).removedOutdated + if own < cut then cut - 1 else cut)
    {
      hide DistinctNodes, Queued, Kept, Without, EntryOf;
      ghost var q, es, n := queue, View(queue, container), 0;
      var remove, stop, ownId := 0, cut, queue[own].id;
      KeptAt(q, own, 0);
      KeptAt(es, own, 0);
      while remove != stop
        invariant n <= cut && remove == (if own < n then 1 else 0) && stop == cut - n + remove
        invariant Linked(queue, container, nextId)
        invariant queue == Kept(q, own, n) && View(queue, container) == Kept(es, own, n)
        invariant stat == old(stat).(removedOutdated := old(stat).removedOutdated + n - remove)
        decreases cut - n
      {
        KeptAt(q, own, n);
        SameNode(q, own, n);
        if queue[remove].id != ownId {
          KeptDrops(q, own, n);
          KeptDrops(es, own, n);
          DropNode(queue, container, nextId, remove);
          stat := stat.(removedOutdated := stat.removedOutdated + 1);
          container := container - {queue[remove].key};
          queue := Without(queue, remove);
          stop := stop - 1;
        } else {
          KeptOwn(q, own);
          KeptOwn(es, own);
          remove := remove + 1;
        }
        n := n + 1;
      }
    }

    /** itor->second.size = need */
    method Resize(key: Key, ghost i: nat, need: nat)
      requires Linked(queue, container, nextId) && i < |queue| && queue[i].key == key
      modifies this`container
      ensures Linked(queue, container, nextId)
      ensures var es := old(View(queue, container)); View(queue, container) == es[i := es[i].(size := need)]
    {
      hide DistinctNodes, Queued;
      ChangeItem(queue, container, nextId, i, container[key].data, need);
      container := container[key := container[key].(size := need)];
    }

    /** update_ once the new size alone fits the bound but the new total does not. */
    method UpdateTight(key: Key, own: nat, need: nat, newSize: nat, now: int) returns (kept: bool)
      requires Valid() && own < |queue| && queue[own].key == key && key in container
      requires newSize == need + Others(Abs().entries, own, 0)
      modifies this`queue, this`container, this`size, this`stat
      ensures Valid()
      ensures var c := old(Abs());
              match Scan(c.entries, own, 0, newSize, bound, timeout, now)
              case None =>
                && !kept
                && Abs() == Erase(c, key).(stat := c.stat.(removedUpdated := c.stat.removedUpdated + 1))
              case Some(k) =>
                && kept
                && Abs().entries == KeepFrom(c.entries, own, k, need)
                && stat == c.stat.(removedOutdated := c.stat.removedOutdated + if own < k then k - 1 else k)
    {
      hide DistinctNodes, Owned, Queued, Kept, KeepFrom, EntryOf;
      ghost var es := Abs().entries;
      var cut, fitted := FindCut(own, newSize, now);
      if cut.None? {
        stat := stat.(removedUpdated := stat.removedUpdated + 1);
        DropKey(key);
        return false;
      }
      CutIsKeepFrom(es, own, cut.value, need);
      KeepFromTotal(es, own, cut.value, need);
      KeptOwnAt(es, own, cut.value);
      KeptOwnAt(queue, own, cut.value);
      EvictBefore(own, cut.value);
      Resize(key, if own < cut.value then 0 else own - cut.value, need);
      size := fitted;
      return true;
    }

    /** The three outcomes of update_, once the new total is known. */
    method Refit(key: Key, own: nat, need: nat, newSize: nat, now: int) returns (kept: bool)
      requires Valid() && own < |queue| && queue[own].key == key && key in container
      requires newSize == need + Others(Abs().entries, own, 0) == Total(Abs().entries) - Abs().entries[own].size + need
      requires IndexOf(Abs().entries, key) == own
      modifies this`queue, this`container, this`size, this`stat
      ensures Valid() && Abs() == UpdateAt(old(Abs()), own, need, now)
      ensures kept <==> stat.removedUpdated == old(stat).removedUpdated
    {
      hide Owned, EntryOf, View, Linked, Scan, Total, DistinctNodes, Queued, KeepFrom;
      if newSize <= bound {
        ghost var es := Abs().entries;
        TotalWith(es, own, need);
        Resize(key, own, need);
        size := newSize;
        return true;
      }
      if need > bound {
        ghost var c := Abs();
        stat := stat.(removedUpdated := stat.removedUpdated + 1);
        assert Abs() == c.(stat := stat);
        DropKey(key);
        assert Abs() == c.(entries := Without(c.entries, own), stat := stat);
        return false;
      }
      kept := UpdateTight(key, own, need, newSize, now);
    }

    /** update_ of a held key; `need` is the size policy's answer for its data. */
    method Update_(key: Key, need: nat, now: int) returns (kept: bool)
      requires Valid() && key in container
      modifies this`queue, this`container, this`size, this`stat
      ensures Valid() && Abs() == Update(old(Abs()), key, need, now)
      ensures kept <==> stat.removedUpdated == old(stat).removedUpdated
    {
      hide DistinctNodes, Queued, UpdateAt;
      ghost var es := Abs().entries;
      OrderIsIndex(queue, container, nextId, key);
      var own := PositionOf(queue, container[key].order);
      TotalAt(es, own);
      OthersIsTotal(es, own, 0);
      assert es[0..] == es;
      kept := Refit(key, own, need, size + need - container[key].size, now);
    }

    method UpdateHeld(key: Key, need: nat, now: int)
      requires Valid()
      modifies this`queue, this`container, this`size, this`stat
      ensures Valid() && Abs() == Update(old(Abs()), key, need, now)
    {
      hide DistinctNodes, Owned, Queued;
      OrderIsIndex(queue, container, nextId, key);
      if key in container {
        var _ := Update_(key, need, now);
      }
    }

    /** itor->second.data = data, right after find_ moved the key to the end. */
    method SetData(key: Key, data: Data)
      requires Valid() && queue != [] && queue[|queue| - 1].key == key && key in container
      modifies this`container
      ensures Valid() && key in container
      ensures Abs() == var c := old(Abs());
                       var i := |c.entries| - 1;
                       c.(entries := c.entries[i := c.entries[i].(data := data)])
      ensures IndexOf(Abs().entries, key) == |Abs().entries| - 1
    {
      hide DistinctNodes, Queued;
      ghost var es := Abs().entries;
      ChangeItem(queue, container, nextId, |queue| - 1, data, container[key].size);
      ResizeTotal(es, |queue| - 1, es[|queue| - 1].(data := data));
      container := container[key := container[key].(data := data)];
      LastIndex(queue, container, nextId, key);
    }

    /** insert_or_update_ */
    method InsertOrUpdate_(key: Key, data: Data, need: nat, now: int)
      requires Valid()
      modifies this`queue, this`container, this`size, this`stat, this`nextId
      ensures Valid() && Abs() == InsertOrUpdate(old(Abs()), key, data, need, now)
    {
      hide Linked, View, UpdateAt, InsertNew;
      OrderIsIndex(queue, container, nextId, key);
      var found := Touch_(key, now);
      if found {
        SetData(key, data);
        var kept := Update_(key, need, now);
        if kept {
          stat := stat.(replaced := stat.replaced + 1);
        }
        return;
      }
      var _ := InsertAbsent(key, data, need, now);
    }
  }

  /** The class, driven by any sequence of calls, does what the runs above do. */
  method Replay<K(==), D>(bound: nat, timeout: int, calls: seq<Call<K, D>>) returns (bm: BoundedMap<K, D>)
    ensures bm.Valid() && bm.Abs() == Run(Empty(bound, timeout), calls)
  {
    bm := new BoundedMap(bound, timeout);
    var i := 0;
    assert calls[..0] == [];
    while i < |calls|
      invariant i <= |calls| && fresh(bm) && bm.Valid()
      invariant bm.Abs() == Run(Empty(bound, timeout), calls[..i])
    {
      RunSnoc(Empty(bound, timeout), calls[..i], calls[i]);
      assert calls[..i + 1] == calls[..i] + [calls[i]];
      Perform(bm, calls[i]);
      i := i + 1;
    }
    assert calls[..i] == calls;
  }

  method Perform<K(==), D>(bm: BoundedMap<K, D>, call: Call<K, D>)
    requires bm.Valid()
    modifies bm
    ensures bm.Valid() && bm.Abs() == Apply(old(bm.Abs()), call)
  {
    hide Linked, View, Insert, InsertOrUpdate, Update, Find, Erase;
    var now := call.now;
    match call.op {
      case DoFind(key) => var _ := bm.Find_(key, now);
      case DoInsert(key, data, size) => var _ := bm.Insert_(key, data, size, now);
      case DoInsertOrUpdate(key, data, size) => bm.InsertOrUpdate_(key, data, size, now);
      case DoUpdate(key, size) => bm.UpdateHeld(key, size, now);
      case DoErase(key) => bm.Erase_(key);
      case DoClear => bm.Clear();
      case DoBound(bound) => bm.bound := bound;
      case DoTimeout(timeout) => bm.timeout := timeout;
      case DoResetStatistics => bm.stat := NoStat;
    }
  }
}
