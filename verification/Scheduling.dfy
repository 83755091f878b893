/** Scheduling URLs for a job: one pending row per new (job, normalized URL) pair. */
module Scheduling {
  import opened Prelude
  import opened Protocol

  /** A URL to schedule: as given, normalized, and the clock reading taken for it. */
  datatype Target = Target(url: string, key: string, now: int)

  datatype Table = Table(items: map<int, Item>, next: int)

  /** The arguments shared by all URLs of one call. */
  datatype Request = Request(jobId: int, priority: int, maxAttempts: int)

  function RowKeys(items: map<int, Item>, jobId: int): set<string> {
    set i | i in items && items[i].jobId == jobId :: items[i].key
  }

  function TargetKeys(targets: seq<Target>): set<string> { set i | 0 <= i < |targets| :: targets[i].key }

  ghost predicate Numbered(t: Table) {
    t.next >= 1 && forall i :: i in t.items <==> 1 <= i < t.next
  }

  function NewRow(id: int, r: Request, t: Target): Item {
    Item(id, r.jobId, t.url, t.key, r.priority, Pending, 0, r.maxAttempts, t.now, None, None, None)
  }

  function ScheduleOne(t: Table, r: Request, x: Target): Table {
    if x.key in RowKeys(t.items, r.jobId) then t
    else Table(t.items[t.next := NewRow(t.next, r, x)], t.next + 1)
  }

  /** The table after the call; `next` minus the old `next` is the count it returns. */
  function ScheduleAll(t: Table, r: Request, xs: seq<Target>): Table {
    if xs == [] then t else ScheduleOne(ScheduleAll(t, r, xs[..|xs| - 1]), r, xs[|xs| - 1])
  }

  function Count(t: Table, r: Request, xs: seq<Target>): int { ScheduleAll(t, r, xs).next - t.next }

  lemma ScheduleOneFacts(t: Table, r: Request, x: Target)
    requires Numbered(t)
    ensures Numbered(ScheduleOne(t, r, x))
    ensures RowKeys(ScheduleOne(t, r, x).items, r.jobId) == RowKeys(t.items, r.jobId) + {x.key}
  {
    var t' := ScheduleOne(t, r, x);
    if x.key !in RowKeys(t.items, r.jobId) {
      assert t'.items[t.next].jobId == r.jobId && t'.items[t.next].key == x.key;
      assert forall i :: i in t.items ==> i in t'.items && t'.items[i] == t.items[i];
    }
  }

  lemma TargetKeysSnoc(xs: seq<Target>)
    requires xs != []
    ensures TargetKeys(xs) == TargetKeys(xs[..|xs| - 1]) + {xs[|xs| - 1].key}
  {
  }

  lemma {:induction false} ScheduleAllKeys(t: Table, r: Request, xs: seq<Target>)
    requires Numbered(t)
    ensures Numbered(ScheduleAll(t, r, xs))
    ensures RowKeys(ScheduleAll(t, r, xs).items, r.jobId) == RowKeys(t.items, r.jobId) + TargetKeys(xs)
  {
    if xs == [] {
      assert TargetKeys(xs) == {};
    } else {
      TargetKeysSnoc(xs);
      ScheduleAllKeys(t, r, xs[..|xs| - 1]);
      ScheduleOneFacts(ScheduleAll(t, r, xs[..|xs| - 1]), r, xs[|xs| - 1]);
    }
  }

  /** Scheduling leaves every existing row as it is: a leased, complete or dead row is never reset. */
  lemma {:induction false} ScheduleKeepsRows(t: Table, r: Request, xs: seq<Target>, i: int)
    requires Numbered(t) && i in t.items
    ensures i in ScheduleAll(t, r, xs).items && ScheduleAll(t, r, xs).items[i] == t.items[i]
  {
    if xs != [] {
      ScheduleAllKeys(t, r, xs[..|xs| - 1]);
      ScheduleKeepsRows(t, r, xs[..|xs| - 1], i);
    }
  }

  /** The job's keys grow by exactly the requested ones, and the count returned is the number of
   *  distinct new keys. */
  lemma {:induction false} ScheduleAllFacts(t: Table, r: Request, xs: seq<Target>)
    requires Numbered(t)
    ensures Numbered(ScheduleAll(t, r, xs))
    ensures RowKeys(ScheduleAll(t, r, xs).items, r.jobId) == RowKeys(t.items, r.jobId) + TargetKeys(xs)
    ensures Count(t, r, xs) == |TargetKeys(xs) - RowKeys(t.items, r.jobId)|
  {
    ScheduleAllKeys(t, r, xs);
    if xs == [] {
      assert TargetKeys(xs) - RowKeys(t.items, r.jobId) == {};
    } else {
      var init, x := xs[..|xs| - 1], xs[|xs| - 1];
      ScheduleAllKeys(t, r, init);
      ScheduleAllFacts(t, r, init);
      TargetKeysSnoc(xs);
      NewKeyCount(RowKeys(t.items, r.jobId), TargetKeys(init), x.key);
    }
  }

  lemma {:induction false} KnownTargetsChangeNothing(t: Table, r: Request, xs: seq<Target>)
    requires TargetKeys(xs) <= RowKeys(t.items, r.jobId)
    ensures ScheduleAll(t, r, xs) == t
  {
    if xs != [] {
      var init := xs[..|xs| - 1];
      assert xs[|xs| - 1].key in TargetKeys(xs);
      assert TargetKeys(init) <= TargetKeys(xs);
      KnownTargetsChangeNothing(t, r, init);
    }
  }

  /** Scheduling the same URLs for the same job again, at any later time, priority or attempt limit,
   *  schedules nothing and changes nothing. */
  lemma RescheduleIsNoOp(t: Table, r: Request, r': Request, xs: seq<Target>, ys: seq<Target>)
    requires Numbered(t) && r.jobId == r'.jobId && TargetKeys(ys) <= TargetKeys(xs)
    ensures ScheduleAll(ScheduleAll(t, r, xs), r', ys) == ScheduleAll(t, r, xs)
  {
    ScheduleAllFacts(t, r, xs);
    KnownTargetsChangeNothing(ScheduleAll(t, r, xs), r', ys);
  }

  /** Every row that a call adds is new work as asked for: pending, never tried, free, with the URL of the
   *  first target of its key, available from the reading taken for it, and the call's priority and limit. */
  lemma {:induction false} AddedRowsAreAsAsked(t: Table, r: Request, xs: seq<Target>, i: int)
    requires Numbered(t) && i in ScheduleAll(t, r, xs).items && i !in t.items
    ensures exists a :: 0 <= a < |xs| && IsNewWork(ScheduleAll(t, r, xs).items[i], i, r, xs[a])
              && forall b :: 0 <= b < a ==> xs[b].key != xs[a].key
  {
    var n := |xs| - 1;
    var init := ScheduleAll(t, r, xs[..n]);
    ScheduleAllFacts(t, r, xs[..n]);
    if i in init.items {
      AddedRowsAreAsAsked(t, r, xs[..n], i);
      var a :| 0 <= a < n && IsNewWork(init.items[i], i, r, xs[..n][a])
        && forall b :: 0 <= b < a ==> xs[..n][b].key != xs[..n][a].key;
      ScheduleOneFacts(init, r, xs[n]);
      assert ScheduleAll(t, r, xs).items[i] == init.items[i];
      assert xs[a] == xs[..n][a] && forall b :: 0 <= b < a ==> xs[b] == xs[..n][b];
    } else {
      assert IsNewWork(ScheduleAll(t, r, xs).items[i], i, r, xs[n]);
      forall b | 0 <= b < n
        ensures xs[b].key != xs[n].key
      {
        assert xs[..n][b].key in TargetKeys(xs[..n]);
      }
    }
  }

  predicate IsNewWork(row: Item, id: int, r: Request, x: Target) {
    && row.id == id && row.jobId == r.jobId && row.url == x.url && row.key == x.key
    && row.priority == r.priority && row.maxAttempts == r.maxAttempts && row.availableAt == x.now
    && row.phase == Pending && row.attempts == 0
    && row.owner == None && row.token == None && row.expiresAt == None
  }

  lemma {:induction false} ScheduleAppend(t: Table, r: Request, a: seq<Target>, b: seq<Target>)
    ensures ScheduleAll(t, r, a + b) == ScheduleAll(ScheduleAll(t, r, a), r, b)
  {
    if b == [] {
      assert a + b == a;
    } else {
      assert (a + b)[..|a| + |b| - 1] == a + b[..|b| - 1];
      ScheduleAppend(t, r, a, b[..|b| - 1]);
    }
  }

  /** Cutting a list into pieces of the given size, the last one possibly shorter. */
  function Chunks<T>(xs: seq<T>, size: nat): seq<seq<T>>
    requires size > 0
    decreases |xs|
  {
    if xs == [] then [] else [xs[..Min(size, |xs|)]] + Chunks(xs[Min(size, |xs|)..], size)
  }

  /** The position of the first target with a key. */
  function FirstOf(xs: seq<Target>, key: string): (i: nat)
    requires key in TargetKeys(xs)
    ensures i < |xs| && xs[i].key == key && forall j :: 0 <= j < i ==> xs[j].key != key
  {
    var init := xs[..|xs| - 1];
    if key in TargetKeys(init) then
      assert forall j :: 0 <= j < |init| ==> init[j] == xs[j];
      FirstOf(init, key)
    else
      assert forall j :: 0 <= j < |init| ==> init[j].key in TargetKeys(init) && init[j] == xs[j];
      |xs| - 1
  }

  /** The rows of one job by normalized URL; the database numbers them as it likes, so ids are zero. */
  type JobRows = map<string, Item>

  /** The row stored under a key after the statement: the one already there, else the first target's. */
  function RowAfter(rows: JobRows, r: Request, xs: seq<Target>, key: string): Item
    requires key in rows.Keys + TargetKeys(xs)
  {
    if key in rows then rows[key] else NewRow(0, r, xs[FirstOf(xs, key)])
  }

  /** One insert-or-ignore statement: of the targets with a key not stored yet the first goes in, all
   *  others are ignored.  It reports the rows inserted. */
  function InsertOrIgnore(rows: JobRows, r: Request, xs: seq<Target>): (JobRows, int) {
    (map k | k in rows.Keys + TargetKeys(xs) :: RowAfter(rows, r, xs, k), |TargetKeys(xs) - rows.Keys|)
  }

  /** One statement per chunk, adding up the row counts. */
  function InsertChunks(rows: JobRows, r: Request, chunks: seq<seq<Target>>): (JobRows, int)
    decreases |chunks|
  {
    if chunks == [] then (rows, 0)
    else
      var (rows', n) := InsertOrIgnore(rows, r, chunks[0]);
      var (rows'', rest) := InsertChunks(rows', r, chunks[1..]);
      (rows'', n + rest)
  }

  /** The table holds the job's rows, up to their ids. */
  ghost predicate HasJobRows(items: map<int, Item>, jobId: int, rows: JobRows) {
    && rows.Keys == RowKeys(items, jobId)
    && forall i :: i in items && items[i].jobId == jobId ==>
         items[i].key in rows && rows[items[i].key] == items[i].(id := 0)
  }

  lemma FirstOfSnoc(xs: seq<Target>, n: nat, key: string)
    requires |xs| == n + 1 && key in TargetKeys(xs)
    ensures if key in TargetKeys(xs[..n]) then FirstOf(xs, key) == FirstOf(xs[..n], key)
            else key == xs[n].key && FirstOf(xs, key) == n
  {
    TargetKeysSnoc(xs);
  }

  lemma RowAfterSnoc(rows: JobRows, r: Request, xs: seq<Target>, n: nat, key: string)
    requires |xs| == n + 1 && key in rows.Keys + TargetKeys(xs)
    ensures RowAfter(rows, r, xs, key)
         == if key in rows.Keys + TargetKeys(xs[..n]) then RowAfter(rows, r, xs[..n], key) else NewRow(0, r, xs[n])
  {
    if key !in rows {
      FirstOfSnoc(xs, n, key);
    }
  }

  lemma RowsAfter(rows: JobRows, r: Request, xs: seq<Target>)
    ensures var after := InsertOrIgnore(rows, r, xs).0;
      && after.Keys == rows.Keys + TargetKeys(xs)
      && forall k :: k in rows.Keys + TargetKeys(xs) ==> after[k] == RowAfter(rows, r, xs, k)
  {
    hide RowAfter, TargetKeys;
  }

  lemma InsertOrIgnoreSnoc(rows: JobRows, r: Request, xs: seq<Target>, n: nat)
    requires |xs| == n + 1
    ensures InsertOrIgnore(rows, r, xs).0
         == var before := InsertOrIgnore(rows, r, xs[..n]).0;
            if xs[n].key in before then before else before[xs[n].key := NewRow(0, r, xs[n])]
  {
    hide RowAfter, TargetKeys, NewRow, InsertOrIgnore;
    TargetKeysSnoc(xs);
    var before, after := InsertOrIgnore(rows, r, xs[..n]).0, InsertOrIgnore(rows, r, xs).0;
    RowsAfter(rows, r, xs);
    RowsAfter(rows, r, xs[..n]);
    forall k | k in after
      ensures after[k] == if k in before then before[k] else NewRow(0, r, xs[n])
    {
      RowAfterSnoc(rows, r, xs, n, k);
    }
    SameOrOneMore(before, after, xs[n].key, NewRow(0, r, xs[n]));
  }

  lemma SameOrOneMore(before: JobRows, after: JobRows, key: string, row: Item)
    requires after.Keys == before.Keys + {key}
    requires forall k :: k in after ==> after[k] == if k in before then before[k] else row
    ensures after == if key in before then before else before[key := row]
  {
  }

  lemma ScheduleOneHasJobRows(t: Table, r: Request, x: Target, rows: JobRows)
    requires Numbered(t) && HasJobRows(t.items, r.jobId, rows)
    ensures HasJobRows(ScheduleOne(t, r, x).items, r.jobId,
                       if x.key in rows then rows else rows[x.key := NewRow(0, r, x)])
  {
    ScheduleOneFacts(t, r, x);
    if x.key !in rows {
      var t' := ScheduleOne(t, r, x);
      assert forall i :: i in t.items ==> t'.items[i] == t.items[i];
      assert forall i :: i in t.items && t.items[i].jobId == r.jobId ==> t.items[i].key != x.key;
    }
  }

  lemma NoTargets()
    ensures TargetKeys([]) == {}
  {
  }

  /** The statement stores the rows that the row-by-row loop stores, and reports as many. */
  lemma {:induction false} InsertOrIgnoreIsTheLoop(t: Table, r: Request, xs: seq<Target>, rows: JobRows)
    requires Numbered(t) && HasJobRows(t.items, r.jobId, rows)
    ensures Numbered(ScheduleAll(t, r, xs))
    ensures HasJobRows(ScheduleAll(t, r, xs).items, r.jobId, InsertOrIgnore(rows, r, xs).0)
    ensures Count(t, r, xs) == InsertOrIgnore(rows, r, xs).1
  {
    ScheduleAllFacts(t, r, xs);
    assert Count(t, r, xs) == InsertOrIgnore(rows, r, xs).1;
    hide RowKeys, TargetKeys, Numbered, HasJobRows, ScheduleOne;
    if xs == [] {
      assert InsertOrIgnore(rows, r, xs).0 == rows by { assert TargetKeys(xs) == {} by { NoTargets(); } }
      hide InsertOrIgnore;
    } else {
      hide InsertOrIgnore;
      var n := |xs| - 1;
      InsertOrIgnoreIsTheLoop(t, r, xs[..n], rows);
      InsertOrIgnoreSnoc(rows, r, xs, n);
      ScheduleOneHasJobRows(ScheduleAll(t, r, xs[..n]), r, xs[n], InsertOrIgnore(rows, r, xs[..n]).0);
    }
  }

  lemma {:induction false} ChunkSizes<T>(xs: seq<T>, size: nat)
    requires size > 0
    ensures forall c :: c in Chunks(xs, size) ==> 0 < |c| <= size
    decreases |xs|
  {
    if xs != [] {
      ChunkSizes(xs[Min(size, |xs|)..], size);
    }
  }

  /** The chunked path stores the same rows, up to their ids, and reports the same total as the
   *  row-by-row loop, whatever the chunk size. */
  lemma {:induction false} ChunkedIsSequential(t: Table, r: Request, xs: seq<Target>, size: nat, rows: JobRows)
    requires size > 0 && Numbered(t) && HasJobRows(t.items, r.jobId, rows)
    ensures var (rows', n) := InsertChunks(rows, r, Chunks(xs, size));
      HasJobRows(ScheduleAll(t, r, xs).items, r.jobId, rows') && n == Count(t, r, xs)
    decreases |xs|
  {
    hide HasJobRows, InsertOrIgnore, Numbered;
    if xs != [] {
      var n := Min(size, |xs|);
      var a, b := xs[..n], xs[n..];
      assert xs == a + b;
      ScheduleAppend(t, r, a, b);
      InsertOrIgnoreIsTheLoop(t, r, a, rows);
      var t' := ScheduleAll(t, r, a);
      ChunkedIsSequential(t', r, b, size, InsertOrIgnore(rows, r, a).0);
      var cs := Chunks(xs, size);
      assert cs[0] == a && cs[1..] == Chunks(b, size);
      assert Count(t, r, xs) == Count(t, r, a) + Count(t', r, b);
    }
  }
}
