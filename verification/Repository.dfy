/** The in-memory repository: dictionaries of frontier rows and pages, updated in place.
 *
 * The object keeps, as ghost state, the protocol steps it has taken since it was empty.  Its
 * frontier is always the one that run of the lease protocol leads to, and every method says which
 * steps it adds, so the theorems about runs hold for any sequence of calls on the object.
 */
module Repository {
  import opened Prelude
  import opened Protocol
  import opened LeaseTheorems
  import opened PageStore
  import opened Scheduling
  import opened JobProgress
  import Sorting

  datatype FrontierLease = FrontierLease(
    id: int, jobId: int, url: string, key: string, attempts: int,
    owner: string, token: string, expiresAt: int)

  function LeaseOf(it: Item, owner: string, token: string, expires: int): FrontierLease {
    FrontierLease(it.id, it.jobId, it.url, it.key, it.attempts + 1, owner, token, expires)
  }

  /** Claim order: higher priority first, then lower id. */
  predicate RanksBefore(a: Item, b: Item) {
    a.priority > b.priority || (a.priority == b.priority && a.id <= b.id)
  }

  ghost function DueIds(items: map<int, Item>, now: int): set<int> {
    set i | i in items && Claimable(items[i], now)
  }

  ghost function LeasedIds(leases: seq<FrontierLease>): set<int> {
    set a | 0 <= a < |leases| :: leases[a].id
  }

  function AfterReaping(it: Item, now: int): Item {
    if Exhausted(it, now) then Retired(it, now) else it
  }

  predicate Distinct(xs: seq<string>) {
    forall a, b :: 0 <= a < b < |xs| ==> xs[a] != xs[b]
  }

  ghost predicate AllUnused(g: map<int, seq<Grant>>, tokens: seq<string>) {
    forall a :: 0 <= a < |tokens| ==> Unused(g, tokens[a])
  }

  /** The leases are for min(k, number due) different due rows, in rank order, and no due row that was
   *  left out ranks before one that was taken. */
  ghost predicate BestDueLeased(items: map<int, Item>, now: int, k: nat, leases: seq<FrontierLease>) {
    && |leases| == Min(k, |DueIds(items, now)|)
    && (forall a :: 0 <= a < |leases| ==> leases[a].id in DueIds(items, now))
    && (forall a, b :: 0 <= a < b < |leases| ==>
          leases[a].id != leases[b].id && RanksBefore(items[leases[a].id], items[leases[b].id]))
    && (forall a, i :: 0 <= a < |leases| && i in DueIds(items, now) && i !in LeasedIds(leases) ==>
          RanksBefore(items[leases[a].id], items[i]))
  }

  /** `rows` are due rows of the table, each once. */
  ghost predicate DueRows(items: map<int, Item>, now: int, rows: seq<Item>) {
    && (forall a :: 0 <= a < |rows| ==> rows[a].id in DueIds(items, now) && rows[a] == items[rows[a].id])
    && (forall a, b :: 0 <= a < b < |rows| ==> rows[a].id != rows[b].id)
  }

  /** Between the two tables exactly the exhausted rows were retired. */
  ghost predicate OnlyRetired(before: map<int, Item>, after: map<int, Item>, now: int) {
    after.Keys == before.Keys && forall i :: i in before ==> after[i] == AfterReaping(before[i], now)
  }

  /** Between the two tables exactly the leased rows were claimed, each under its own token. */
  ghost predicate OnlyLeased(before: map<int, Item>, after: map<int, Item>, leases: seq<FrontierLease>,
                             owner: string, tokens: seq<string>, expires: int)
  {
    && after.Keys == before.Keys && |leases| <= |tokens|
    && (forall a :: 0 <= a < |leases| ==>
          && leases[a].id in before
          && leases[a] == LeaseOf(before[leases[a].id], owner, tokens[a], expires)
          && after[leases[a].id] == Claimed(before[leases[a].id], owner, tokens[a], expires))
    && (forall i :: i in before && i !in LeasedIds(leases) ==> after[i] == before[i])
  }

  function LeasesFor(rows: seq<Item>, owner: string, tokens: seq<string>, expires: int): seq<FrontierLease>
    requires |rows| <= |tokens|
  {
    seq(|rows|, a requires 0 <= a < |rows| => LeaseOf(rows[a], owner, tokens[a], expires))
  }

  function ClaimSteps(rows: seq<Item>, owner: string, tokens: seq<string>, now: int, expires: int): seq<Step>
    requires |rows| <= |tokens|
  {
    seq(|rows|, a requires 0 <= a < |rows| => Claim(rows[a].id, owner, tokens[a], now, expires))
  }

  function AfterClaims(items: map<int, Item>, rows: seq<Item>, owner: string, tokens: seq<string>,
                       expires: int): map<int, Item>
    requires |rows| <= |tokens|
  {
    if rows == [] then items
    else
      var n := |rows| - 1;
      AfterClaims(items, rows[..n], owner, tokens, expires)
        [rows[n].id := Claimed(rows[n], owner, tokens[n], expires)]
  }

  lemma {:induction false} AfterClaimsRest(items: map<int, Item>, rows: seq<Item>, owner: string,
                                           tokens: seq<string>, expires: int, i: int)
    requires |rows| <= |tokens| && i in items
    ensures i in AfterClaims(items, rows, owner, tokens, expires)
    ensures (forall a :: 0 <= a < |rows| ==> rows[a].id != i) ==>
      AfterClaims(items, rows, owner, tokens, expires)[i] == items[i]
  {
    if rows != [] {
      AfterClaimsRest(items, rows[..|rows| - 1], owner, tokens, expires, i);
    }
  }

  lemma {:induction false} AfterClaimsAt(items: map<int, Item>, rows: seq<Item>, owner: string,
                                         tokens: seq<string>, expires: int, a: nat)
    requires a < |rows| <= |tokens|
    requires forall b, c :: 0 <= b < c < |rows| ==> rows[b].id != rows[c].id
    ensures rows[a].id in AfterClaims(items, rows, owner, tokens, expires)
    ensures AfterClaims(items, rows, owner, tokens, expires)[rows[a].id]
            == Claimed(rows[a], owner, tokens[a], expires)
  {
    if a < |rows| - 1 {
      AfterClaimsAt(items, rows[..|rows| - 1], owner, tokens, expires, a);
      assert rows[a].id != rows[|rows| - 1].id;
    }
  }

  lemma {:induction false} AfterClaimsKeys(items: map<int, Item>, rows: seq<Item>, owner: string,
                                           tokens: seq<string>, expires: int)
    requires |rows| <= |tokens| && forall a :: 0 <= a < |rows| ==> rows[a].id in items
    ensures AfterClaims(items, rows, owner, tokens, expires).Keys == items.Keys
  {
    if rows != [] {
      AfterClaimsKeys(items, rows[..|rows| - 1], owner, tokens, expires);
    }
  }

  /** The steps all used a clock reading of at most t, and leases and delays within the bounds. */
  ghost predicate TimelySteps(es: seq<Step>, t: int, delay: int, lease: int) {
    forall i :: 0 <= i < |es| ==> Timely(es[i], t, delay, lease)
  }

  class InMemoryRepository {
    var items: map<int, Item>
    var nextFrontierId: int
    var pages: map<int, Page>
    var nextPageId: int
    ghost var history: seq<Step>

    ghost function State(): Sys
      reads this
    {
      Run(EMPTY, history)
    }

    ghost function PageTable(): Store
      reads this
    {
      Store(pages, nextPageId)
    }

    ghost predicate Valid()
      reads this
    {
      && ValidRun(EMPTY, history)
      && items == State().items
      && Numbered(Table(items, nextFrontierId))
      && WellFormed(PageTable())
      && State().pages <= Keys(pages)
    }

    constructor Empty()
      ensures Valid() && history == [] && nextFrontierId == 1 && nextPageId == 1
    {
      items, nextFrontierId, pages, nextPageId, history := map[], 1, map[], 1, [];
    }

    lemma ValidMeansInv()
      requires Valid()
      ensures Inv(State())
    {
      assert Inv(EMPTY);
      RunKeepsInv(EMPTY, history);
    }

    lemma ValidMeansRun()
      requires Valid()
      ensures ValidRun(EMPTY, history)
    {
    }

    lemma RowsKnowTheirIds()
      requires Valid()
      ensures forall i :: i in items ==> items[i].id == i
    {
      ValidMeansInv();
    }

    method SavePages(batch: seq<Page>) returns (saved: int)
      requires Valid()
      modifies this`pages, this`nextPageId
      ensures Valid()
      ensures PageTable() == SaveAll(old(PageTable()), batch)
      ensures saved == Saved(old(PageTable()), batch)
      ensures Keys(pages) == old(Keys(pages)) + BatchKeys(batch)
    {
      saved := 0;
      var existing := Keys(pages);
      for a := 0 to |batch|
        invariant PageTable() == SaveAll(old(PageTable()), batch[..a])
        invariant saved == Saved(old(PageTable()), batch[..a])
        invariant existing == Keys(pages)
        invariant WellFormed(PageTable())
      {
        assert batch[..a + 1][..a] == batch[..a];
        SaveOneFacts(PageTable(), batch[a]);
        if batch[a].key !in existing {
          pages := pages[nextPageId := batch[a]];
          nextPageId := nextPageId + 1;
          saved := saved + 1;
          existing := existing + {batch[a].key};
        }
      }
      assert batch[..|batch|] == batch;
      SaveAllKeys(old(PageTable()), batch);
    }

    method InsertRow(row: Item)
      requires Valid() && row.id == nextFrontierId && FreshRow(row)
      requires !Scheduled(items, row.jobId, row.key)
      modifies this`items, this`nextFrontierId, this`history
      ensures Valid() && history == old(history) + [Insert(row)]
      ensures items == old(items)[row.id := row] && nextFrontierId == old(nextFrontierId) + 1
    {
      RunSnoc(EMPTY, history, Insert(row));
      items := items[nextFrontierId := row];
      nextFrontierId := nextFrontierId + 1;
      history := history + [Insert(row)];
    }

    method ScheduleFrontierUrls(r: Request, targets: seq<Target>)
      returns (scheduled: int, ghost steps: seq<Step>)
      requires Valid() && r.maxAttempts >= 1
      modifies this`items, this`nextFrontierId, this`history
      ensures Valid() && history == old(history) + steps
      ensures Table(items, nextFrontierId) == ScheduleAll(old(Table(items, nextFrontierId)), r, targets)
      ensures scheduled == |TargetKeys(targets) - RowKeys(old(items), r.jobId)|
      ensures forall i :: 0 <= i < |steps| ==> steps[i].Insert? && steps[i].row.jobId == r.jobId
    {
      scheduled, steps := 0, [];
      var existing := RowKeys(items, r.jobId);
      for a := 0 to |targets|
        invariant Valid() && existing == RowKeys(items, r.jobId) && history == old(history) + steps
        invariant Table(items, nextFrontierId)
                  == ScheduleAll(old(Table(items, nextFrontierId)), r, targets[..a])
        invariant scheduled == nextFrontierId - old(nextFrontierId)
        invariant forall i :: 0 <= i < |steps| ==> steps[i].Insert? && steps[i].row.jobId == r.jobId
      {
        assert targets[..a + 1][..a] == targets[..a];
        ScheduleOneFacts(Table(items, nextFrontierId), r, targets[a]);
        if targets[a].key !in existing {
          var row := NewRow(nextFrontierId, r, targets[a]);
          assert !Scheduled(items, r.jobId, row.key);
          InsertRow(row);
          steps := steps + [Insert(row)];
          scheduled := scheduled + 1;
          existing := existing + {targets[a].key};
        }
      }
      assert targets[..|targets|] == targets;
      ScheduleAllFacts(old(Table(items, nextFrontierId)), r, targets);
    }

    method RetireRow(id: int, now: int)
      requires Valid() && id in items && Exhausted(items[id], now)
      modifies this`items, this`history
      ensures Valid() && items == old(items)[id := Retired(old(items)[id], now)]
      ensures history == old(history) + [Reap(id, now)]
    {
      RowsKnowTheirIds();
      RunSnoc(EMPTY, history, Reap(id, now));
      items := items[id := Retired(items[id], now)];
      history := history + [Reap(id, now)];
    }

    /** First pass of a claim: rows whose last permitted lease has run out become dead. */
    method RetireExhausted(now: int) returns (ghost steps: seq<Step>)
      requires Valid()
      modifies this`items, this`history
      ensures Valid() && OnlyRetired(old(items), items, now)
      ensures history == old(history) + steps && forall a :: 0 <= a < |steps| ==> steps[a].Reap?
    {
      hide Run, ValidRun, WellFormed, Keys, Exhausted, Retired;
      steps := [];
      for id := 1 to nextFrontierId
        invariant Valid() && items.Keys == old(items.Keys)
        invariant forall i :: i in items && i < id ==> items[i] == AfterReaping(old(items)[i], now)
        invariant forall i :: i in items && i >= id ==> items[i] == old(items)[i]
        invariant history == old(history) + steps
        invariant forall a :: 0 <= a < |steps| ==> steps[a].Reap?
      {
        if Exhausted(items[id], now) {
          RetireRow(id, now);
          steps := steps + [Reap(id, now)];
        }
      }
    }

    method FindClaimable(now: int) returns (found: seq<Item>)
      requires Valid()
      ensures DueRows(items, now, found)
      ensures forall i :: i in DueIds(items, now) ==> items[i] in found
    {
      RowsKnowTheirIds();
      found := [];
      for id := 1 to nextFrontierId
        invariant forall a :: 0 <= a < |found| ==>
          found[a].id in DueIds(items, now) && found[a].id < id && found[a] == items[found[a].id]
        invariant forall a, b :: 0 <= a < b < |found| ==> found[a].id != found[b].id
        invariant forall i :: i in DueIds(items, now) && i < id ==> items[i] in found
      {
        if Claimable(items[id], now) {
          assert items[id].id == id;
          found := found + [items[id]];
        }
      }
    }

    /** Second pass: the rows a claim could take, best first. */
    method RankedClaimable(now: int) returns (claimable: seq<Item>)
      requires Valid()
      ensures Sorting.Sorted(RanksBefore, claimable)
      ensures DueRows(items, now, claimable)
      ensures forall i :: i in DueIds(items, now) ==> items[i] in claimable
    {
      var found := FindClaimable(now);
      claimable := Sorting.Sort(RanksBefore, found);
      Sorting.SortSorted(RanksBefore, found);
      SameElements(found, claimable);
      forall a | 0 <= a < |claimable|
        ensures claimable[a].id in DueIds(items, now) && claimable[a] == items[claimable[a].id]
      {
        assert claimable[a] in found;
      }
    }

    /** A list of the rows with the given ids, each once, is as long as the set of ids. */
    lemma {:induction false} OneEach(rows: seq<Item>, ids: set<int>)
      requires forall a, b :: 0 <= a < b < |rows| ==> rows[a].id != rows[b].id
      requires forall a :: 0 <= a < |rows| ==> rows[a].id in ids
      requires forall i :: i in ids ==> exists a :: 0 <= a < |rows| && rows[a].id == i
      ensures |rows| == |ids|
      decreases |rows|
    {
      if rows == [] {
        assert forall i :: i !in ids;
        assert ids == {};
      } else {
        var n := |rows| - 1;
        forall i | i in ids - {rows[n].id}
          ensures exists a :: 0 <= a < |rows[..n]| && rows[..n][a].id == i
        {
          var a :| 0 <= a < |rows| && rows[a].id == i;
          assert rows[..n][a].id == i;
        }
        OneEach(rows[..n], ids - {rows[n].id});
      }
    }

    /** Rearranging rows with pairwise different ids leaves the same rows, with different ids. */
    lemma SameElements(xs: seq<Item>, ys: seq<Item>)
      requires multiset(xs) == multiset(ys)
      requires forall a, b :: 0 <= a < b < |xs| ==> xs[a].id != xs[b].id
      ensures forall x :: x in xs <==> x in ys
      ensures forall a, b :: 0 <= a < b < |ys| ==> ys[a].id != ys[b].id
    {
      assert forall x :: x in multiset(xs) <==> x in multiset(ys);
      assert forall x :: x in xs <==> x in multiset(xs);
      assert forall x :: x in ys <==> x in multiset(ys);
      forall a, b | 0 <= a < b < |ys|
        ensures ys[a].id != ys[b].id
      {
        if ys[a].id == ys[b].id {
          assert ys[a] in xs && ys[b] in xs;
          assert ys[a] == ys[b];
          assert ys == ys[..a] + [ys[a]] + ys[a + 1..b] + [ys[b]] + ys[b + 1..];
          assert multiset(ys)[ys[a]] >= 2;
          OccursOnce(xs, ys[a]);
        }
      }
    }

    lemma {:induction false} OccursOnce(xs: seq<Item>, x: Item)
      requires forall a, b :: 0 <= a < b < |xs| ==> xs[a].id != xs[b].id
      ensures multiset(xs)[x] <= 1
    {
      if xs != [] {
        OccursOnce(xs[1..], x);
        assert xs == [xs[0]] + xs[1..];
        if x == xs[0] { assert x !in xs[1..]; }
      }
    }

    /** `rest` are tokens kept for later claims: they stay unused. */
    method ClaimRow(id: int, owner: string, token: string, now: int, expires: int, ghost rest: seq<string>)
      requires Valid() && id in items && Claimable(items[id], now) && Unused(State().grants, token)
      requires AllUnused(State().grants, rest) && token !in rest
      modifies this`items, this`history
      ensures Valid() && items == old(items)[id := Claimed(old(items)[id], owner, token, expires)]
      ensures history == old(history) + [Claim(id, owner, token, now, expires)]
      ensures AllUnused(State().grants, rest)
    {
      RowsKnowTheirIds();
      RunSnoc(EMPTY, history, Claim(id, owner, token, now, expires));
      items := items[id := Claimed(items[id], owner, token, expires)];
      history := history + [Claim(id, owner, token, now, expires)];
    }

    /** Third pass: lease the first `batchSize` of the ranked rows, each under a token of its own. */
    method ClaimFirst(claimable: seq<Item>, owner: string, batchSize: nat, now: int, expires: int,
                      tokens: seq<string>)
      returns (leases: seq<FrontierLease>)
      requires Valid() && DueRows(items, now, claimable)
      requires batchSize <= |tokens| && Distinct(tokens) && AllUnused(State().grants, tokens)
      modifies this`items, this`history
      ensures Valid()
      ensures var taken := claimable[..Min(batchSize, |claimable|)];
        && items == AfterClaims(old(items), taken, owner, tokens, expires)
        && leases == LeasesFor(taken, owner, tokens, expires)
        && history == old(history) + ClaimSteps(taken, owner, tokens, now, expires)
    {
      hide Run, ValidRun, WellFormed, Keys, Numbered, Claimed, Claimable, LeaseOf;
      leases := [];
      for a := 0 to Min(batchSize, |claimable|)
        invariant Valid() && AllUnused(State().grants, tokens[a..])
        invariant items == AfterClaims(old(items), claimable[..a], owner, tokens, expires)
        invariant leases == LeasesFor(claimable[..a], owner, tokens, expires)
        invariant history == old(history) + ClaimSteps(claimable[..a], owner, tokens, now, expires)
      {
        var it := claimable[a];
        assert claimable[..a + 1][..a] == claimable[..a];
        assert tokens[a..][0] == tokens[a] && tokens[a..][1..] == tokens[a + 1..];
        AfterClaimsRest(old(items), claimable[..a], owner, tokens, expires, it.id);
        ClaimRow(it.id, owner, tokens[a], now, expires, tokens[a + 1..]);
        leases := leases + [LeaseOf(it, owner, tokens[a], expires)];
      }
    }

    lemma {:induction false} ReapsIssueNothing(s: Sys, es: seq<Step>, t: string)
      requires Inv(s) && ValidRun(s, es) && Unused(s.grants, t)
      requires forall a :: 0 <= a < |es| ==> es[a].Reap?
      ensures Unused(Run(s, es).grants, t)
      decreases |es|
    {
      if es != [] {
        assert Unused(Apply(s, es[0]).grants, t) by { InvRow(s, es[0].id); }
        hide Unused, Apply, Inv;
        StepKeepsInv(s, es[0]);
        ReapsIssueNothing(Apply(s, es[0]), es[1..], t);
      }
    }

    lemma RetiringIssuesNothing(before: seq<Step>, es: seq<Step>, tokens: seq<string>)
      requires ValidRun(EMPTY, before + es) && forall a :: 0 <= a < |es| ==> es[a].Reap?
      requires AllUnused(Run(EMPTY, before).grants, tokens)
      ensures AllUnused(Run(EMPTY, before + es).grants, tokens)
    {
      RunAppend(EMPTY, before, es);
      assert Inv(EMPTY);
      RunKeepsInv(EMPTY, before);
      forall a | 0 <= a < |tokens| ensures Unused(Run(EMPTY, before + es).grants, tokens[a]) {
        ReapsIssueNothing(Run(EMPTY, before), es, tokens[a]);
      }
    }

    /** The first k of a ranked list come before everything that is not among them. */
    lemma PrefixRanksFirst(claimable: seq<Item>, k: nat, a: nat, i: int)
      requires Sorting.Sorted(RanksBefore, claimable) && a < k <= |claimable|
      requires exists b :: 0 <= b < |claimable| && claimable[b].id == i
      requires forall b :: 0 <= b < k ==> claimable[b].id != i
      ensures exists b :: k <= b < |claimable| && claimable[b].id == i
                          && RanksBefore(claimable[a], claimable[b])
    {
    }

    /** Second and third pass together. */
    method ClaimBest(owner: string, batchSize: nat, now: int, expires: int, tokens: seq<string>)
      returns (leases: seq<FrontierLease>, ghost steps: seq<Step>)
      requires Valid()
      requires batchSize <= |tokens| && Distinct(tokens) && AllUnused(State().grants, tokens)
      modifies this`items, this`history
      ensures Valid() && history == old(history) + steps
      ensures BestDueLeased(old(items), now, batchSize, leases)
      ensures OnlyLeased(old(items), items, leases, owner, tokens, expires)
      ensures |steps| == |leases| <= |tokens|
      ensures forall a :: 0 <= a < |steps| ==>
        steps[a] == Claim(leases[a].id, owner, tokens[a], now, expires)
    {
      hide AllUnused, Distinct, Run, BestDueLeased, OnlyLeased;
      RowsKnowTheirIds();
      var claimable := RankedClaimable(now);
      leases := ClaimFirst(claimable, owner, batchSize, now, expires, tokens);
      ghost var taken := claimable[..Min(batchSize, |claimable|)];
      steps := ClaimSteps(taken, owner, tokens, now, expires);
      ClaimOutcome(old(items), items, taken, leases, owner, tokens, expires);
      RankedPrefixIsBest(old(items), now, batchSize, claimable, leases);
    }

    /** A claim.  The leases are the best due rows, no more than asked for and no fewer than there
     *  are; nothing else changes except that rows out of attempts are retired. */
    method AcquireFrontierBatch(owner: string, batchSize: nat, leaseSeconds: int, now: int,
                                tokens: seq<string>)
      returns (leases: seq<FrontierLease>, ghost steps: seq<Step>, ghost mid: map<int, Item>)
      requires Valid()
      requires batchSize <= |tokens| && Distinct(tokens) && AllUnused(State().grants, tokens)
      modifies this`items, this`history
      ensures Valid() && history == old(history) + steps
      ensures BestDueLeased(old(items), now, batchSize, leases)
      ensures OnlyRetired(old(items), mid, now)
      ensures OnlyLeased(mid, items, leases, owner, tokens, now + leaseSeconds * SECOND)
      ensures NoInserts(steps) && TimelySteps(steps, now, 0, leaseSeconds * SECOND)
      ensures forall a :: 0 <= a < |steps| ==>
        steps[a].Reap? || (steps[a].Claim? && steps[a].owner == owner && steps[a].token in tokens)
      ensures CountTaken(old(State()), steps, IsClaim) == |leases|
      ensures forall a :: 0 <= a < |leases| ==>
        leases[a].id in old(items) && ReadyToLease(old(items)[leases[a].id], now)
    {
      hide OnlyRetired, BestDueLeased, OnlyLeased, AllUnused, Distinct, Run, CountTaken;
      ghost var retired := RetireExhausted(now);
      mid := items;
      RetiringIssuesNothing(old(history), retired, tokens);
      ghost var claims;
      leases, claims := ClaimBest(owner, batchSize, now, now + leaseSeconds * SECOND, tokens);
      steps := retired + claims;
      ClaimCount(old(State()), retired, claims);
      DueBeforeAndAfter(old(items), mid, batchSize, leases, now);
      LeasedRowsWereReady(old(items), mid, items, batchSize, leases, owner, tokens, now,
                          now + leaseSeconds * SECOND);
    }

    lemma ClaimCount(s: Sys, retired: seq<Step>, claims: seq<Step>)
      requires forall a :: 0 <= a < |retired| ==> retired[a].Reap?
      requires forall a :: 0 <= a < |claims| ==> claims[a].Claim?
      ensures CountTaken(s, retired + claims, IsClaim) == |claims|
    {
      CountAppend(s, retired, claims, IsClaim);
      CountNone(s, retired, IsClaim);
      CountAllClaims(Run(s, retired), claims, IsClaim);
    }

    /** Retiring exhausted rows neither creates nor removes nor changes due rows. */
    lemma DueBeforeAndAfter(before: map<int, Item>, mid: map<int, Item>, k: nat,
                            leases: seq<FrontierLease>, now: int)
      requires OnlyRetired(before, mid, now) && BestDueLeased(mid, now, k, leases)
      ensures BestDueLeased(before, now, k, leases)
    {
      assert forall i :: i in before ==> (Claimable(mid[i], now) <==> Claimable(before[i], now));
      assert DueIds(mid, now) == DueIds(before, now);
      assert forall i :: i in DueIds(before, now) ==> mid[i] == before[i];
    }

    /** What the third pass does to the table. */
    lemma ClaimOutcome(before: map<int, Item>, after: map<int, Item>, taken: seq<Item>,
                       leases: seq<FrontierLease>, owner: string, tokens: seq<string>, expires: int)
      requires forall a :: 0 <= a < |taken| ==> taken[a].id in before && taken[a] == before[taken[a].id]
      requires forall a, b :: 0 <= a < b < |taken| ==> taken[a].id != taken[b].id
      requires |taken| <= |tokens|
      requires leases == LeasesFor(taken, owner, tokens, expires)
      requires after == AfterClaims(before, taken, owner, tokens, expires)
      ensures OnlyLeased(before, after, leases, owner, tokens, expires)
    {
      AfterClaimsKeys(before, taken, owner, tokens, expires);
      forall i | i in before && i !in LeasedIds(leases)
        ensures after[i] == before[i]
      {
        assert forall a :: 0 <= a < |taken| ==> leases[a].id == taken[a].id;
        AfterClaimsRest(before, taken, owner, tokens, expires, i);
      }
      forall a | 0 <= a < |leases|
        ensures leases[a].id in before
        ensures leases[a] == LeaseOf(before[leases[a].id], owner, tokens[a], expires)
        ensures after[leases[a].id] == Claimed(before[leases[a].id], owner, tokens[a], expires)
      {
        AfterClaimsAt(before, taken, owner, tokens, expires, a);
      }
    }

    lemma RankedPrefixIsBest(items: map<int, Item>, now: int, k: nat, claimable: seq<Item>,
                             leases: seq<FrontierLease>)
      requires Sorting.Sorted(RanksBefore, claimable)
      requires DueRows(items, now, claimable)
      requires forall i :: i in DueIds(items, now) ==> items[i] in claimable
      requires forall i :: i in items ==> items[i].id == i
      requires |leases| == Min(k, |claimable|)
      requires forall a :: 0 <= a < |leases| ==> leases[a].id == claimable[a].id
      ensures BestDueLeased(items, now, k, leases)
    {
      OneEach(claimable, DueIds(items, now));
      forall a, i | 0 <= a < |leases| && i in DueIds(items, now) && i !in LeasedIds(leases)
        ensures RanksBefore(items[leases[a].id], items[i])
      {
        assert exists b :: 0 <= b < |claimable| && claimable[b].id == i by {
          assert items[i] in claimable;
        }
        PrefixRanksFirst(claimable, |leases|, a, i);
      }
    }

    method CompleteFrontierItem(id: int, owner: string, token: string, now: int)
      returns (accepted: bool)
      requires Valid()
      modifies this`items, this`history
      ensures Valid() && history == old(history) + [Finish(id, owner, token, now, None)]
      ensures accepted == CallAccepted(old(State()), Finish(id, owner, token, now, None))
      ensures items == if accepted then old(items)[id := Completed(old(items)[id])] else old(items)
    {
      RowsKnowTheirIds();
      ghost var step := Finish(id, owner, token, now, None);
      RunSnoc(EMPTY, history, step);
      history := history + [step];
      if id !in items { return false; }
      var it := items[id];
      if it.phase != Leased || it.owner != Some(owner) || it.token != Some(token)
         || !LeaseUnexpired(it, now) {
        return false;
      }
      items := items[id := Completed(it)];
      accepted := true;
    }

    /** `now` is the clock reading of the fence check, `later` the one the extension counts from. */
    method RenewFrontierLease(id: int, owner: string, token: string, extendSeconds: int,
                              now: int, later: int)
      returns (accepted: bool)
      requires Valid()
      modifies this`items, this`history
      ensures var step := Renew(id, owner, token, now, later + extendSeconds * SECOND);
        Valid() && history == old(history) + [step] && accepted == CallAccepted(old(State()), step)
      ensures items == if accepted
                       then old(items)[id := Renewed(old(items)[id], later + extendSeconds * SECOND)]
                       else old(items)
    {
      RowsKnowTheirIds();
      ghost var step := Renew(id, owner, token, now, later + extendSeconds * SECOND);
      RunSnoc(EMPTY, history, step);
      history := history + [step];
      if id !in items { return false; }
      var it := items[id];
      if it.phase != Leased || it.owner != Some(owner) || it.token != Some(token)
         || !LeaseUnexpired(it, now) {
        return false;
      }
      items := items[id := Renewed(it, later + extendSeconds * SECOND)];
      accepted := true;
    }

    method SavePageAndCompleteFrontierItem(id: int, owner: string, token: string, page: Page, now: int)
      returns (accepted: bool)
      requires Valid()
      modifies this`items, this`history, this`pages, this`nextPageId
      ensures var step := Finish(id, owner, token, now, Some(page.key));
        Valid() && history == old(history) + [step] && accepted == CallAccepted(old(State()), step)
      ensures items == if accepted then old(items)[id := Completed(old(items)[id])] else old(items)
      ensures PageTable() == if accepted then SaveAll(old(PageTable()), [page]) else old(PageTable())
    {
      RowsKnowTheirIds();
      ghost var step := Finish(id, owner, token, now, Some(page.key));
      RunSnoc(EMPTY, history, step);
      if !CallAccepted(State(), step) {
        history := history + [step];
      }
      if id !in items { return false; }
      var it := items[id];
      if it.phase != Leased || it.owner != Some(owner) || it.token != Some(token)
         || !LeaseUnexpired(it, now) {
        return false;
      }
      var _ := SavePages([page]);
      assert [page][0].key in BatchKeys([page]);
      items := items[id := Completed(it)];
      history := history + [step];
      accepted := true;
    }

    /** `now` is the clock reading of the fence check, `later` the one the delay counts from. */
    method FailFrontierItem(id: int, owner: string, token: string, retryAfterSeconds: int,
                            now: int, later: int)
      returns (accepted: bool)
      requires Valid()
      modifies this`items, this`history
      ensures var step := GiveBack(id, owner, token, now, later + retryAfterSeconds * SECOND);
        Valid() && history == old(history) + [step] && accepted == CallAccepted(old(State()), step)
      ensures items == if accepted
                       then old(items)[id := Released(old(items)[id], later + retryAfterSeconds * SECOND)]
                       else old(items)
    {
      RowsKnowTheirIds();
      ghost var step := GiveBack(id, owner, token, now, later + retryAfterSeconds * SECOND);
      RunSnoc(EMPTY, history, step);
      history := history + [step];
      if id !in items { return false; }
      var it := items[id];
      if it.phase != Leased || it.owner != Some(owner) || it.token != Some(token)
         || !LeaseUnexpired(it, now) {
        return false;
      }
      items := items[id := Released(it, later + retryAfterSeconds * SECOND)];
      accepted := true;
    }

    method FrontierStatistics(job: Option<int>) returns (st: FrontierStats)
      requires Valid()
      ensures st == StatsOf(State(), nextFrontierId, job)
    {
      st := FrontierStats(0, 0, 0, 0, 0);
      assert StatsOf(State(), 1, job) == st by {
        StatsSnoc(State(), 0, job);
      }
      for id := 1 to nextFrontierId
        invariant st == StatsOf(State(), id, job)
      {
        StatsSnoc(State(), id, job);
        var it := items[id];
        if job.None? || it.jobId == job.value {
          match it.phase
          case Pending => st := st.(pending := st.pending + 1);
          case Leased => st := st.(leased := st.leased + 1);
          case Complete => st := st.(complete := st.complete + 1);
          case Failed => st := st.(failed := st.failed + 1);
          case Dead => st := st.(dead := st.dead + 1);
        }
      }
    }
  }

  /** The table after a claim in terms of the table before it: claimed rows carry their lease, all others
   *  are as they were or retired, and no two leases of the claim share a row or a token. */
  lemma ClaimEffect(before: map<int, Item>, mid: map<int, Item>, after: map<int, Item>, k: nat,
                    leases: seq<FrontierLease>, owner: string, tokens: seq<string>, now: int, expires: int)
    requires OnlyRetired(before, mid, now) && OnlyLeased(mid, after, leases, owner, tokens, expires)
    requires BestDueLeased(before, now, k, leases) && Distinct(tokens)
    ensures after.Keys == before.Keys
    ensures forall i :: i in before && i !in LeasedIds(leases) ==> after[i] == AfterReaping(before[i], now)
    ensures forall a :: 0 <= a < |leases| ==>
      leases[a] == LeaseOf(before[leases[a].id], owner, tokens[a], expires)
      && after[leases[a].id] == Claimed(before[leases[a].id], owner, tokens[a], expires)
    ensures forall a, b :: 0 <= a < b < |leases| ==>
      leases[a].id != leases[b].id && leases[a].token != leases[b].token
  {
    forall a | 0 <= a < |leases| ensures mid[leases[a].id] == before[leases[a].id] {
      assert leases[a].id in DueIds(before, now);
    }
  }

  /** The same in columns.  Each leased row was pending and available, or leased and past its deadline,
   *  with attempts left; it and its lease carry the caller's name, a token of their own and the deadline. */
  lemma LeasedRowsInColumns(before: map<int, Item>, mid: map<int, Item>, after: map<int, Item>, k: nat,
                            leases: seq<FrontierLease>, owner: string, tokens: seq<string>, now: int, expires: int,
                            a: nat)
    requires OnlyRetired(before, mid, now) && OnlyLeased(mid, after, leases, owner, tokens, expires)
    requires BestDueLeased(before, now, k, leases) && Distinct(tokens)
    requires a < |leases|
    ensures |leases| <= k && leases[a].id in before && leases[a].id in after
    ensures var it, it', lease := before[leases[a].id], after[leases[a].id], leases[a];
      && it.attempts < it.maxAttempts
      && ((it.phase == Pending && it.availableAt <= now)
          || (it.phase == Leased && it.expiresAt.Some? && it.expiresAt.value < now))
      && it'.phase == Leased && it'.attempts == it.attempts + 1
      && it'.owner == Some(owner) && it'.token == Some(tokens[a]) && it'.expiresAt == Some(expires)
      && it'.id == it.id && it'.jobId == it.jobId && it'.url == it.url && it'.key == it.key
      && it'.priority == it.priority && it'.maxAttempts == it.maxAttempts && it'.availableAt == it.availableAt
      && lease.jobId == it.jobId && lease.url == it.url && lease.key == it.key
      && lease.attempts == it.attempts + 1
      && lease.owner == owner && lease.token == tokens[a] && lease.expiresAt == expires
  {
    ClaimEffect(before, mid, after, k, leases, owner, tokens, now, expires);
    assert leases[a].id in DueIds(before, now);
    hide OnlyRetired, OnlyLeased, BestDueLeased, Distinct, AfterReaping, LeasedIds;
  }

  /** Pending and available, or past the deadline of a lease, with attempts left. */
  predicate ReadyToLease(it: Item, now: int) {
    it.attempts < it.maxAttempts
    && if it.phase == Pending then it.availableAt <= now
       else it.phase == Leased && it.expiresAt.Some? && it.expiresAt.value < now
  }

  lemma LeasedRowsWereReady(before: map<int, Item>, mid: map<int, Item>, after: map<int, Item>, k: nat,
                            leases: seq<FrontierLease>, owner: string, tokens: seq<string>, now: int, expires: int)
    requires OnlyRetired(before, mid, now) && OnlyLeased(mid, after, leases, owner, tokens, expires)
    requires BestDueLeased(before, now, k, leases) && Distinct(tokens)
    ensures forall a :: 0 <= a < |leases| ==> leases[a].id in before && ReadyToLease(before[leases[a].id], now)
  {
    hide OnlyRetired, OnlyLeased, BestDueLeased, Distinct;
    forall a | 0 <= a < |leases|
      ensures leases[a].id in before && ReadyToLease(before[leases[a].id], now)
    {
      LeasedRowsInColumns(before, mid, after, k, leases, owner, tokens, now, expires, a);
    }
  }

  /** A row that could have been taken is left out only when the batch is full, and then every leased row
   *  has a higher priority, or the same and a lower id.  Of the rows left out, those whose last lease has
   *  run out become dead; no other changes. */
  lemma LeftOutRowsInColumns(before: map<int, Item>, mid: map<int, Item>, after: map<int, Item>, k: nat,
                             leases: seq<FrontierLease>, owner: string, tokens: seq<string>, now: int, expires: int,
                             i: int)
    requires OnlyRetired(before, mid, now) && OnlyLeased(mid, after, leases, owner, tokens, expires)
    requires BestDueLeased(before, now, k, leases) && Distinct(tokens)
    requires forall j :: j in before ==> before[j].id == j
    requires i in before && i !in LeasedIds(leases)
    ensures var it := before[i];
      var ranOut := it.phase == Leased && it.expiresAt.Some? && it.expiresAt.value < now;
      && (it.attempts < it.maxAttempts && ((it.phase == Pending && it.availableAt <= now) || ranOut) ==>
           && |leases| == k
           && forall a :: 0 <= a < |leases| ==>
                leases[a].id in before && Outranks(before[leases[a].id], it))
      && i in after
      && after[i] == if it.attempts >= it.maxAttempts && ranOut
                     then it.(phase := Dead, availableAt := now, owner := None, token := None, expiresAt := None)
                     else it
  {
    ClaimEffect(before, mid, after, k, leases, owner, tokens, now, expires);
    hide OnlyRetired, OnlyLeased, Distinct, Claimed, LeaseOf;
    if Claimable(before[i], now) {
      LeftOutIsOutranked(before, now, k, leases, i);
    }
    hide BestDueLeased, LeasedIds;
  }

  lemma LeftOutIsOutranked(before: map<int, Item>, now: int, k: nat, leases: seq<FrontierLease>, i: int)
    requires BestDueLeased(before, now, k, leases) && forall j :: j in before ==> before[j].id == j
    requires i in before && Claimable(before[i], now) && i !in LeasedIds(leases)
    ensures |leases| == k
    ensures forall a :: 0 <= a < |leases| ==> leases[a].id in before && Outranks(before[leases[a].id], before[i])
  {
    LeftOutMeansFull(before, now, k, leases, i);
    hide Claimable;
    forall a | 0 <= a < |leases|
      ensures leases[a].id in before && Outranks(before[leases[a].id], before[i])
    {
      assert leases[a].id in DueIds(before, now) && leases[a].id in LeasedIds(leases) && i in DueIds(before, now);
    }
  }

  /** The leases come by priority, highest first, and among equals by id. */
  lemma LeasesAreRanked(before: map<int, Item>, now: int, k: nat, leases: seq<FrontierLease>, a: nat, b: nat)
    requires BestDueLeased(before, now, k, leases) && a < b < |leases|
    requires forall j :: j in before ==> before[j].id == j
    ensures leases[a].id in before && leases[b].id in before
    ensures before[leases[a].id].priority >= before[leases[b].id].priority
    ensures before[leases[a].id].priority == before[leases[b].id].priority ==> leases[a].id < leases[b].id
  {
    assert leases[a].id in DueIds(before, now) && leases[b].id in DueIds(before, now);
  }

  predicate Outranks(x: Item, y: Item) { x.priority > y.priority || (x.priority == y.priority && x.id < y.id) }

  lemma LeftOutMeansFull(items: map<int, Item>, now: int, k: nat, leases: seq<FrontierLease>, i: int)
    requires BestDueLeased(items, now, k, leases) && i in DueIds(items, now) && i !in LeasedIds(leases)
    ensures |leases| == k
  {
    LeasedCount(leases);
    assert LeasedIds(leases) + {i} <= DueIds(items, now);
    SubsetSize(LeasedIds(leases) + {i}, DueIds(items, now));
  }

  lemma {:induction false} LeasedCount(leases: seq<FrontierLease>)
    requires forall a, b :: 0 <= a < b < |leases| ==> leases[a].id != leases[b].id
    ensures |LeasedIds(leases)| == |leases|
  {
    if leases == [] {
      assert LeasedIds(leases) == {};
    } else {
      var n := |leases| - 1;
      LeasedCount(leases[..n]);
      assert LeasedIds(leases) == LeasedIds(leases[..n]) + {leases[n].id};
    }
  }

  /** No lost work, at the repository: if no clock reading so far exceeded t, then a claim made more
   *  than max(delay, lease) later that comes back empty has left every row complete or dead. */
  lemma EmptyClaimMeansDrained(s: Sys, es: seq<Step>, t: int, delay: nat, lease: int, now: int, k: nat,
                               after: map<int, Item>)
    requires ValidRun(EMPTY, es) && s == Run(EMPTY, es) && TimelySteps(es, t, delay, lease)
    requires now > t + Max(delay, lease) && k > 0
    requires BestDueLeased(s.items, now, k, []) && OnlyRetired(s.items, after, now)
    ensures forall i :: i in after ==> Terminal(after[i])
  {
    IdleMakesEverythingRecoverable(s, es, t, delay, lease, now);
    assert DueIds(s.items, now) == {};
    forall i | i in after ensures Terminal(after[i]) {
      assert Claimable(s.items[i], now) ==> i in DueIds(s.items, now);
    }
  }
}
