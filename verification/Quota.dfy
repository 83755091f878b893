/** The submission quota: at most so many requests and so many URLs per principal and minute.
 *
 * The reference below remembers every request ever made.  The API keeps counters instead: one row
 * per principal and minute, old rows deleted as it goes; with an injected repository, one single
 * entry.  Times are microseconds; what serializes the decisions is the row lock, or the quota lock.
 */
module Quota {
  import opened Prelude

  const MINUTE := 60_000_000
  const RETENTION := 5 * MINUTE

  datatype Limits = Limits(requests: nat, urls: nat)
  datatype Usage = Usage(requests: nat, urls: nat)
  datatype Request = Request(principal: string, now: int, urls: nat)
  datatype Key = Key(principal: string, window: int)

  /** The start of the minute. */
  function Window(now: int): int { now - now % MINUTE }

  /** A window is a minute of the clock. */
  lemma WindowMeans(now: int)
    ensures Window(now) <= now < Window(now) + 60_000_000 && Window(now) % 60_000_000 == 0
  {
  }

  function KeyOf(r: Request): Key { Key(r.principal, Window(r.now)) }

  predicate Fits(l: Limits, used: Usage, urls: nat) {
    used.requests < l.requests && used.urls + urls <= l.urls
  }

  function Add(used: Usage, urls: nat): Usage { Usage(used.requests + 1, used.urls + urls) }

  // ---------------------------------------------------------------- the reference

  /** What the requests accepted so far have used of a principal's minute. */
  function Used(l: Limits, rs: seq<Request>, k: Key): Usage {
    if rs == [] then Usage(0, 0)
    else
      var n := |rs| - 1;
      var used := Used(l, rs[..n], k);
      if KeyOf(rs[n]) == k && Fits(l, used, rs[n].urls) then Add(used, rs[n].urls) else used
  }

  /** Is the next request accepted, given all requests made before it? */
  predicate Admits(l: Limits, rs: seq<Request>, r: Request) {
    Fits(l, Used(l, rs, KeyOf(r)), r.urls)
  }

  /** What the accepted requests of a principal made between two instants used, both included. */
  function UsedBetween(l: Limits, rs: seq<Request>, principal: string, from: int, to: int): Usage {
    if rs == [] then Usage(0, 0)
    else
      var n := |rs| - 1;
      var used := UsedBetween(l, rs[..n], principal, from, to);
      if rs[n].principal == principal && from <= rs[n].now <= to && Admits(l, rs[..n], rs[n])
      then Add(used, rs[n].urls) else used
  }

  /** No principal's minute ever exceeds either limit. */
  lemma {:induction false} MinuteWithinLimits(l: Limits, rs: seq<Request>, k: Key)
    ensures Used(l, rs, k).requests <= l.requests && Used(l, rs, k).urls <= l.urls
  {
    if rs != [] {
      MinuteWithinLimits(l, rs[..|rs| - 1], k);
    }
  }

  /** A minute nobody asked in is unused. */
  lemma {:induction false} FreshMinuteIsUnused(l: Limits, rs: seq<Request>, k: Key)
    requires forall i :: 0 <= i < |rs| ==> Window(rs[i].now) != k.window
    ensures Used(l, rs, k) == Usage(0, 0)
  {
    if rs != [] {
      FreshMinuteIsUnused(l, rs[..|rs| - 1], k);
    }
  }

  lemma {:induction false} TwoMinutesCover(l: Limits, rs: seq<Request>, principal: string, from: int, to: int)
    requires to <= from + MINUTE
    ensures var used := UsedBetween(l, rs, principal, from, to);
      var first := Used(l, rs, Key(principal, Window(from)));
      var second := Used(l, rs, Key(principal, Window(from) + MINUTE));
      used.requests <= first.requests + second.requests && used.urls <= first.urls + second.urls
  {
    if rs != [] {
      var r := rs[|rs| - 1];
      TwoMinutesCover(l, rs[..|rs| - 1], principal, from, to);
      if from <= r.now <= to {
        WindowsTouched(from, r.now);
      }
    }
  }

  lemma WindowsTouched(from: int, now: int)
    requires from <= now <= from + MINUTE
    ensures Window(now) == Window(from) || Window(now) == Window(from) + MINUTE
  {
  }

  /** Any interval of sixty seconds, ends included, admits at most twice each limit. */
  lemma AnyMinuteWithinTwiceLimits(l: Limits, rs: seq<Request>, principal: string, from: int, to: int)
    requires to <= from + MINUTE
    ensures UsedBetween(l, rs, principal, from, to).requests <= 2 * l.requests
    ensures UsedBetween(l, rs, principal, from, to).urls <= 2 * l.urls
  {
    TwoMinutesCover(l, rs, principal, from, to);
    MinuteWithinLimits(l, rs, Key(principal, Window(from)));
    MinuteWithinLimits(l, rs, Key(principal, Window(from) + MINUTE));
  }

  /** Requests made at one instant, with the given numbers of URLs. */
  function Burst(principal: string, now: int, counts: seq<nat>): (r: seq<Request>)
    ensures |r| == |counts|
  {
    seq(|counts|, i requires 0 <= i < |counts| => Request(principal, now, counts[i]))
  }

  function UrlsIn(counts: seq<nat>): nat {
    if counts == [] then 0 else UrlsIn(counts[..|counts| - 1]) + counts[|counts| - 1]
  }

  lemma OneMoreAccepted(l: Limits, rs: seq<Request>, r: Request, from: int, to: int)
    requires Admits(l, rs, r) && from <= r.now <= to
    ensures Used(l, rs + [r], KeyOf(r)) == Add(Used(l, rs, KeyOf(r)), r.urls)
    ensures UsedBetween(l, rs + [r], r.principal, from, to)
         == Add(UsedBetween(l, rs, r.principal, from, to), r.urls)
  {
    assert (rs + [r])[..|rs|] == rs;
  }

  /** A burst within the limits, made in a minute unused so far, is accepted entirely. */
  lemma {:induction false} BurstIsAccepted(l: Limits, before: seq<Request>, principal: string, now: int,
                                           counts: seq<nat>, from: int, to: int)
    requires |counts| <= l.requests && UrlsIn(counts) <= l.urls && from <= now <= to
    requires Used(l, before, Key(principal, Window(now))) == Usage(0, 0)
    ensures var rs := before + Burst(principal, now, counts);
      var was := UsedBetween(l, before, principal, from, to);
      && Used(l, rs, Key(principal, Window(now))) == Usage(|counts|, UrlsIn(counts))
      && UsedBetween(l, rs, principal, from, to) == Usage(was.requests + |counts|, was.urls + UrlsIn(counts))
  {
    hide Used, UsedBetween, Window;
    if counts == [] {
      assert before + Burst(principal, now, counts) == before;
    } else {
      var n := |counts| - 1;
      var init := before + Burst(principal, now, counts[..n]);
      assert before + Burst(principal, now, counts) == init + [Request(principal, now, counts[n])];
      BurstIsAccepted(l, before, principal, now, counts[..n], from, to);
      OneMoreAccepted(l, init, Request(principal, now, counts[n]), from, to);
    }
  }

  /** Twice is reached, whatever the limits: a full burst at the end of one minute and another at the
   *  start of the next, however the URLs are spread over the requests of each. */
  lemma TwiceIsReached(l: Limits, principal: string, start: int, first: seq<nat>, second: seq<nat>)
    requires start % MINUTE == 0
    requires |first| == |second| == l.requests && UrlsIn(first) == UrlsIn(second) == l.urls
    ensures var rs := Burst(principal, start - 1, first) + Burst(principal, start, second);
      UsedBetween(l, rs, principal, start - 1, start) == Usage(2 * l.requests, 2 * l.urls)
  {
    var burst := Burst(principal, start - 1, first);
    assert [] + burst == burst;
    BurstIsAccepted(l, [], principal, start - 1, first, start - 1, start);
    FreshMinuteIsUnused(l, burst, Key(principal, start));
    BurstIsAccepted(l, burst, principal, start, second, start - 1, start);
  }

  // ---------------------------------------------------------------- the pruned table

  type Table = map<Key, Usage>

  /** The conditional upsert: a first row is inserted whatever it holds, an existing one is raised
   *  only within the limits. */
  function Upsert(l: Limits, t: Table, r: Request): (bool, Table) {
    var k := KeyOf(r);
    if k !in t then (true, t[k := Usage(1, r.urls)])
    else if Fits(l, t[k], r.urls) then (true, t[k := Add(t[k], r.urls)])
    else (false, t)
  }

  function Prune(t: Table, now: int): Table { map k | k in t && k.window >= now - RETENTION :: t[k] }

  /** One call of consume_quota: whether it lets the request through, and the table it leaves. */
  function Serve(l: Limits, t: Table, r: Request): (bool, Table) {
    if r.urls > l.urls then (false, t)
    else
      var (allowed, t') := Upsert(l, t, r);
      (allowed, Prune(t', r.now))
  }

  function TableAfter(l: Limits, rs: seq<Request>): Table {
    if rs == [] then map[] else Serve(l, TableAfter(l, rs[..|rs| - 1]), rs[|rs| - 1]).1
  }

  function RowOf(t: Table, k: Key): Usage { if k in t then t[k] else Usage(0, 0) }

  /** The clock readings of a history. */
  function Readings(rs: seq<Request>): (ts: seq<int>)
    ensures |ts| == |rs|
  {
    seq(|rs|, i requires 0 <= i < |rs| => rs[i].now)
  }

  /** The minute that starts at w was asked for and afterwards deleted. */
  predicate Lost(ts: seq<int>, w: int) {
    exists i, j :: 0 <= i < j < |ts| && Window(ts[i]) == w && w < ts[j] - RETENTION
  }

  lemma LostLater(rs: seq<Request>, w: int)
    requires rs != [] && !Lost(Readings(rs), w)
    ensures !Lost(Readings(rs[..|rs| - 1]), w)
    ensures w < rs[|rs| - 1].now - RETENTION ==> forall i :: 0 <= i < |rs| - 1 ==> Window(rs[i].now) != w
  {
    var ts := Readings(rs);
    var n := |rs| - 1;
    assert Readings(rs[..n]) == ts[..n];
    assert forall i :: 0 <= i < n ==> Window(ts[i]) == Window(rs[i].now);
    assert ts[n] == rs[n].now;
  }

  /** The row of a minute that was not lost is exactly what the reference says. */
  lemma {:induction false} RowIsExact(l: Limits, rs: seq<Request>, k: Key)
    requires l.requests >= 1 && !Lost(Readings(rs), k.window)
    ensures RowOf(TableAfter(l, rs), k) == Used(l, rs, k)
  {
    if rs != [] {
      var init, r := rs[..|rs| - 1], rs[|rs| - 1];
      LostLater(rs, k.window);
      hide Lost;
      RowIsExact(l, init, k);
      if k.window < r.now - RETENTION {
        FreshMinuteIsUnused(l, init, k);
        assert KeyOf(r) != k;
      } else {
        ServeIsExact(l, TableAfter(l, init), r, k, Used(l, init, k));
      }
    }
  }

  lemma ServeIsExact(l: Limits, t: Table, r: Request, k: Key, used: Usage)
    requires l.requests >= 1 && RowOf(t, k) == used && k.window >= r.now - RETENTION
    ensures RowOf(Serve(l, t, r).1, k)
         == if KeyOf(r) == k && Fits(l, used, r.urls) then Add(used, r.urls) else used
    ensures KeyOf(r) == k ==> (Serve(l, t, r).0 <==> Fits(l, used, r.urls))
  {
  }

  /** A request whose minute was not asked for and then deleted is decided as if nobody ever deleted
   *  a row. */
  lemma PruningChangesNoDecision(l: Limits, rs: seq<Request>, r: Request)
    requires l.requests >= 1 && !Lost(Readings(rs), Window(r.now))
    ensures Serve(l, TableAfter(l, rs), r).0 <==> Admits(l, rs, r)
  {
    RowIsExact(l, rs, KeyOf(r));
    ServeIsExact(l, TableAfter(l, rs), r, KeyOf(r), Used(l, rs, KeyOf(r)));
  }

  /** Principal p uses up its minute at reading i; everybody else asks for one URL. */
  function UsedUpAt(l: Limits, ts: seq<int>, i: nat, p: string, q: string): (rs: seq<Request>)
    ensures |rs| == |ts|
  {
    seq(|ts|, a requires 0 <= a < |ts| =>
      if a == i then Request(p, ts[a], l.urls) else Request(q, ts[a], 1))
  }

  lemma {:induction false} UsedUpStays(l: Limits, ts: seq<int>, i: nat, p: string, q: string, n: nat)
    requires l.requests >= 1 && i < |ts| && n <= |ts| && p != q
    ensures Used(l, UsedUpAt(l, ts, i, p, q)[..n], Key(p, Window(ts[i])))
         == if n <= i then Usage(0, 0) else Usage(1, l.urls)
  {
    if n > 0 {
      var rs := UsedUpAt(l, ts, i, p, q);
      assert rs[..n][..n - 1] == rs[..n - 1];
      UsedUpStays(l, ts, i, p, q, n - 1);
    }
  }

  lemma {:induction false} DeletedRowStaysAway(l: Limits, ts: seq<int>, i: nat, j: nat, p: string, q: string,
                                               n: nat)
    requires l.urls >= 1 && i < j < n <= |ts| && p != q && Window(ts[i]) < ts[j] - RETENTION
    ensures Key(p, Window(ts[i])) !in TableAfter(l, UsedUpAt(l, ts, i, p, q)[..n])
  {
    var rs := UsedUpAt(l, ts, i, p, q);
    assert rs[..n][..n - 1] == rs[..n - 1];
    if n > j + 1 {
      DeletedRowStaysAway(l, ts, i, j, p, q, n - 1);
    }
  }

  lemma LateRequestIsLetThrough(l: Limits, ts: seq<int>, t: int, p: string, q: string)
      returns (rs: seq<Request>, r: Request)
    requires l.requests >= 1 && l.urls >= 1 && p != q && Lost(ts, Window(t))
    ensures Readings(rs) == ts && r.now == t
    ensures !Admits(l, rs, r) && Serve(l, TableAfter(l, rs), r).0
  {
    var i, j :| 0 <= i < j < |ts| && Window(ts[i]) == Window(t) && Window(t) < ts[j] - RETENTION;
    rs, r := UsedUpAt(l, ts, i, p, q), Request(p, t, 1);
    assert rs[..|ts|] == rs;
    UsedUpStays(l, ts, i, p, q, |ts|);
    DeletedRowStaysAway(l, ts, i, j, p, q, |ts|);
  }

  /** For given clock readings, the pruned table decides a request at t, in every history with those
   *  readings, like a table nobody ever deletes from, exactly when no earlier request of the same
   *  minute was followed by a deletion of that minute. */
  lemma PruningIsExactIff(l: Limits, ts: seq<int>, t: int)
    requires l.requests >= 1 && l.urls >= 1
    ensures (forall rs, r: Request :: Readings(rs) == ts && r.now == t ==>
              (Serve(l, TableAfter(l, rs), r).0 <==> Admits(l, rs, r)))
      <==> !Lost(ts, Window(t))
  {
    if Lost(ts, Window(t)) {
      var rs, r := LateRequestIsLetThrough(l, ts, t, "p", "q");
    } else {
      forall rs, r: Request | Readings(rs) == ts && r.now == t
        ensures Serve(l, TableAfter(l, rs), r).0 <==> Admits(l, rs, r)
      {
        PruningChangesNoDecision(l, rs, r);
      }
    }
  }

  /** Replicas sharing the database clock meet the condition even if a transaction is decided up to
   *  four minutes after it read the clock. */
  lemma FourMinutesLateLosesNothing(ts: seq<int>, t: int)
    requires forall j :: 0 <= j < |ts| ==> t >= ts[j] - 4 * MINUTE
    ensures !Lost(ts, Window(t))
  {
    assert Window(t) > t - MINUTE;
  }

  /** No request of the history is decided after its minute was lost. */
  predicate NothingLost(ts: seq<int>) {
    forall n :: 0 <= n < |ts| ==> !Lost(ts[..n], Window(ts[n]))
  }

  /** What the requests let through between two instants used. */
  function ServedBetween(l: Limits, rs: seq<Request>, principal: string, from: int, to: int): Usage {
    if rs == [] then Usage(0, 0)
    else
      var n := |rs| - 1;
      var used := ServedBetween(l, rs[..n], principal, from, to);
      if rs[n].principal == principal && from <= rs[n].now <= to && Serve(l, TableAfter(l, rs[..n]), rs[n]).0
      then Add(used, rs[n].urls) else used
  }

  lemma {:induction false} ServedIsUsed(l: Limits, rs: seq<Request>, principal: string, from: int, to: int)
    requires l.requests >= 1 && NothingLost(Readings(rs))
    ensures ServedBetween(l, rs, principal, from, to) == UsedBetween(l, rs, principal, from, to)
  {
    if rs != [] {
      var n := |rs| - 1;
      var ts := Readings(rs);
      assert Readings(rs[..n]) == ts[..n];
      assert !Lost(ts[..n], Window(ts[n]));
      forall m | 0 <= m < n
        ensures !Lost(ts[..n][..m], Window(ts[..n][m]))
      {
        assert ts[..n][..m] == ts[..m];
      }
      hide Lost;
      ServedIsUsed(l, rs[..n], principal, from, to);
      PruningChangesNoDecision(l, rs[..n], rs[n]);
    }
  }

  /** The pruned table lets through at most one limit in a calendar minute and two in any sixty
   *  seconds. */
  lemma ServedWithinLimits(l: Limits, rs: seq<Request>, principal: string, from: int, to: int)
    requires l.requests >= 1 && NothingLost(Readings(rs)) && to <= from + MINUTE
    ensures var served := ServedBetween(l, rs, principal, from, to);
      && served.requests <= 2 * l.requests && served.urls <= 2 * l.urls
      && (Window(from) == Window(to) ==> served.requests <= l.requests && served.urls <= l.urls)
  {
    ServedIsUsed(l, rs, principal, from, to);
    AnyMinuteWithinTwiceLimits(l, rs, principal, from, to);
    if Window(from) == Window(to) {
      OneMinuteCovers(l, rs, principal, from, to);
      MinuteWithinLimits(l, rs, Key(principal, Window(from)));
    }
  }

  lemma {:induction false} OneMinuteCovers(l: Limits, rs: seq<Request>, principal: string, from: int, to: int)
    requires Window(from) == Window(to)
    ensures var used := UsedBetween(l, rs, principal, from, to);
      var minute := Used(l, rs, Key(principal, Window(from)));
      used.requests <= minute.requests && used.urls <= minute.urls
  {
    if rs != [] {
      var r := rs[|rs| - 1];
      OneMinuteCovers(l, rs[..|rs| - 1], principal, from, to);
      if from <= r.now <= to {
        SameWindow(from, r.now, to);
      }
    }
  }

  lemma SameWindow(from: int, now: int, to: int)
    requires from <= now <= to && Window(from) == Window(to)
    ensures Window(now) == Window(from)
  {
  }

  /** The unguarded insert decides like the guarded update exactly when some request is allowed at
   *  all, which the settings require. */
  lemma FirstRowNeedsPositiveLimit(l: Limits, r: Request)
    requires r.urls <= l.urls
    ensures (Serve(l, map[], r).0 <==> Admits(l, [], r)) <==> l.requests >= 1
  {
  }

  class ApiQuota {
    const limits: Limits
    var rows: Table
    ghost var served: seq<Request>

    ghost predicate Valid()
      reads this
    {
      rows == TableAfter(limits, served)
    }

    constructor (limits: Limits)
      ensures Valid() && this.limits == limits && served == []
    {
      this.limits := limits;
      rows := map[];
      served := [];
    }

    method Consume(principal: string, now: int, urls: nat) returns (allowed: bool)
      requires Valid()
      modifies this
      ensures Valid() && served == old(served) + [Request(principal, now, urls)]
      ensures limits.requests >= 1 && !Lost(Readings(old(served)), Window(now)) ==>
        (allowed <==> Admits(limits, old(served), Request(principal, now, urls)))
      ensures urls > limits.urls ==> !allowed && rows == old(rows)
      ensures forall k :: k in rows && urls <= limits.urls ==> k.window >= now - 300_000_000
      ensures forall k :: k in old(rows) && k != Key(principal, Window(now)) ==>
        (k in rows <==> urls > limits.urls || k.window >= now - 300_000_000) && (k in rows ==> rows[k] == old(rows)[k])
    {
      ghost var r := Request(principal, now, urls);
      ghost var before := served;
      assert (before + [r])[..|before|] == before;
      served := served + [r];
      if limits.requests >= 1 && !Lost(Readings(before), Window(now)) {
        PruningChangesNoDecision(limits, before, r);
      }
      if urls > limits.urls {
        return false;
      }
      var k := Key(principal, Window(now));
      if k !in rows {
        rows := rows[k := Usage(1, urls)];
        allowed := true;
      } else if Fits(limits, rows[k], urls) {
        rows := rows[k := Add(rows[k], urls)];
        allowed := true;
      } else {
        allowed := false;
      }
      rows := map k | k in rows && k.window >= now - RETENTION :: rows[k];
    }
  }

  // ---------------------------------------------------------------- the single entry

  /** With an injected repository there is no principal, and an accepted request replaces the whole
   *  dictionary by the entry of its minute. */
  function ServeSingle(l: Limits, t: map<int, Usage>, now: int, urls: nat): (bool, map<int, Usage>) {
    var w := Window(now);
    var used := if w in t then t[w] else Usage(0, 0);
    if urls <= l.urls && Fits(l, used, urls) then (true, map[w := Add(used, urls)]) else (false, t)
  }

  function EntryAfter(l: Limits, rs: seq<Request>): map<int, Usage> {
    if rs == [] then map[]
    else
      var r := rs[|rs| - 1];
      ServeSingle(l, EntryAfter(l, rs[..|rs| - 1]), r.now, r.urls).1
  }

  predicate NobodySigned(rs: seq<Request>) { forall i :: 0 <= i < |rs| ==> rs[i].principal == "" }

  /** The minute that starts at w was asked for, and another one afterwards. */
  predicate Displaced(ts: seq<int>, w: int) {
    exists i, j :: 0 <= i < j < |ts| && Window(ts[i]) == w && Window(ts[j]) != w
  }

  lemma DisplacedLater(rs: seq<Request>, w: int)
    requires rs != [] && !Displaced(Readings(rs), w)
    ensures !Displaced(Readings(rs[..|rs| - 1]), w)
    ensures Window(rs[|rs| - 1].now) != w ==> forall i :: 0 <= i < |rs| - 1 ==> Window(rs[i].now) != w
  {
    var ts := Readings(rs);
    var n := |rs| - 1;
    assert Readings(rs[..n]) == ts[..n];
    assert forall i :: 0 <= i < n ==> Window(ts[i]) == Window(rs[i].now);
    assert ts[n] == rs[n].now;
  }

  lemma {:induction false} EntryIsExact(l: Limits, rs: seq<Request>, w: int)
    requires NobodySigned(rs) && !Displaced(Readings(rs), w)
    ensures (if w in EntryAfter(l, rs) then EntryAfter(l, rs)[w] else Usage(0, 0)) == Used(l, rs, Key("", w))
  {
    if rs != [] {
      var init, r := rs[..|rs| - 1], rs[|rs| - 1];
      DisplacedLater(rs, w);
      hide Displaced;
      EntryIsExact(l, init, w);
      if Window(r.now) != w {
        FreshMinuteIsUnused(l, init, Key("", w));
      }
    }
  }

  lemma SingleEntryChangesNoDecision(l: Limits, rs: seq<Request>, r: Request)
    requires NobodySigned(rs + [r]) && !Displaced(Readings(rs), Window(r.now))
    ensures ServeSingle(l, EntryAfter(l, rs), r.now, r.urls).0 <==> Admits(l, rs, r)
  {
    assert (rs + [r])[|rs|] == r;
    assert forall i :: 0 <= i < |rs| ==> (rs + [r])[i] == rs[i];
    EntryIsExact(l, rs, Window(r.now));
  }

  /** Only the requests at readings i and j are small enough, and each uses up its minute. */
  function OnlyTwo(l: Limits, ts: seq<int>, i: nat, j: nat): (rs: seq<Request>)
    ensures |rs| == |ts|
  {
    seq(|ts|, a requires 0 <= a < |ts| => Request("", ts[a], if a == i || a == j then l.urls else l.urls + 1))
  }

  lemma {:induction false} OnlyTwoCount(l: Limits, ts: seq<int>, i: nat, j: nat, n: nat)
    requires l.requests >= 1 && i < j < |ts| && n <= |ts| && Window(ts[i]) != Window(ts[j])
    ensures Used(l, OnlyTwo(l, ts, i, j)[..n], Key("", Window(ts[i])))
         == if n <= i then Usage(0, 0) else Usage(1, l.urls)
    ensures EntryAfter(l, OnlyTwo(l, ts, i, j)[..n])
         == if n <= i then map[] else map[Window(if n <= j then ts[i] else ts[j]) := Usage(1, l.urls)]
  {
    if n > 0 {
      var rs := OnlyTwo(l, ts, i, j);
      assert rs[..n][..n - 1] == rs[..n - 1];
      OnlyTwoCount(l, ts, i, j, n - 1);
    }
  }

  /** For given clock readings, keeping one minute decides a request at t, in every history with those
   *  readings, like keeping all, exactly when no earlier request of the same minute was followed by
   *  one of another minute. */
  lemma SingleEntryIsExactIff(l: Limits, ts: seq<int>, t: int)
    requires l.requests >= 1 && l.urls >= 1
    ensures (forall rs, r: Request :: NobodySigned(rs + [r]) && Readings(rs) == ts && r.now == t ==>
              (ServeSingle(l, EntryAfter(l, rs), r.now, r.urls).0 <==> Admits(l, rs, r)))
      <==> !Displaced(ts, Window(t))
  {
    if Displaced(ts, Window(t)) {
      var i, j :| 0 <= i < j < |ts| && Window(ts[i]) == Window(t) && Window(ts[j]) != Window(t);
      var rs, r := OnlyTwo(l, ts, i, j), Request("", t, l.urls);
      OnlyTwoCount(l, ts, i, j, |ts|);
      assert rs[..|ts|] == rs;
      assert NobodySigned(rs + [r]) && Readings(rs) == ts;
      assert ServeSingle(l, EntryAfter(l, rs), r.now, r.urls).0 && !Admits(l, rs, r);
    } else {
      forall rs, r: Request | NobodySigned(rs + [r]) && Readings(rs) == ts && r.now == t
        ensures ServeSingle(l, EntryAfter(l, rs), r.now, r.urls).0 <==> Admits(l, rs, r)
      {
        SingleEntryChangesNoDecision(l, rs, r);
      }
    }
  }

  /** A clock whose minutes do not go back meets the condition. */
  lemma ForwardMinutesDisplaceNothing(ts: seq<int>, t: int)
    requires forall i, j :: 0 <= i < j < |ts| ==> Window(ts[i]) <= Window(ts[j])
    requires forall j :: 0 <= j < |ts| ==> Window(ts[j]) <= Window(t)
    ensures !Displaced(ts, Window(t))
  {
  }

  class SingleMinuteQuota {
    const limits: Limits
    var entry: map<int, Usage>
    ghost var served: seq<Request>

    ghost predicate Valid()
      reads this
    {
      entry == EntryAfter(limits, served) && NobodySigned(served)
    }

    constructor (limits: Limits)
      ensures Valid() && this.limits == limits && served == []
    {
      this.limits := limits;
      entry := map[];
      served := [];
    }

    method Consume(now: int, urls: nat) returns (allowed: bool)
      requires Valid()
      modifies this
      ensures Valid() && served == old(served) + [Request("", now, urls)]
      ensures !Displaced(Readings(old(served)), Window(now)) ==>
        (allowed <==> Admits(limits, old(served), Request("", now, urls)))
      ensures !allowed ==> entry == old(entry)
      ensures allowed ==> entry.Keys == {Window(now)}
    {
      ghost var r := Request("", now, urls);
      ghost var before := served;
      assert (before + [r])[..|before|] == before;
      served := served + [r];
      if !Displaced(Readings(before), Window(now)) {
        SingleEntryChangesNoDecision(limits, before, r);
      }
      if urls > limits.urls {
        return false;
      }
      var w := Window(now);
      var used := if w in entry then entry[w] else Usage(0, 0);
      allowed := Fits(limits, used, urls);
      if allowed {
        entry := map[w := Add(used, urls)];
      }
    }
  }
}
