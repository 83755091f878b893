/** The frontier worker: it claims a batch from the shared repository, fetches each page under its
 *  lease, and settles the lease.  Other workers act on the repository whenever this one awaits. */
module Worker {
  import opened Prelude
  import opened Sums
  import opened Protocol
  import opened LeaseTheorems
  import opened PageStore
  import opened Repository
  import opened Retry

  /** What a fetch returned; `page` is the page record it converts to, if it does. */
  datatype FetchResult = FetchResult(
    errorType: Option<string>, status: Option<int>, retryAfter: Option<int>, page: Option<Page>)

  function Converted(r: FetchResult): Option<Page> {
    if r.errorType.Some? || r.status.None? then None else r.page
  }

  predicate Conclusive(r: FetchResult) { r.errorType.None? && !ShouldRetryStatus(r.status) }

  datatype WorkerResult = WorkerResult(claimed: nat, completed: nat, failed: nat, stale: nat)

  function Plus(a: WorkerResult, b: WorkerResult): WorkerResult {
    WorkerResult(a.claimed + b.claimed, a.completed + b.completed, a.failed + b.failed, a.stale + b.stale)
  }

  /** The world's part in processing one lease: the responses the fetcher would give to successive
   *  attempts, the jitter draw, and the clock readings of the settling call. */
  datatype Work = Work(responses: seq<FetchResult>, random: real, now: int, later: int)

  /** The world's part in one pass: the clock reading of the claim and the latest reading of anyone until
   *  the next pass, fresh tokens, and the work behind each lease. */
  datatype Pass = Pass(now: int, latest: int, tokens: seq<string>, work: seq<Work>)

  /** The call that settles a lease, given the fetch result. */
  function SettlingCall(lease: FrontierLease, r: FetchResult, p: RetryPolicy, w: Work): (call: Step)
    ensures (call.Finish? || call.GiveBack?) && call.owner == lease.owner
  {
    if r.errorType.Some? then
      GiveBack(lease.id, lease.owner, lease.token, w.now,
               w.later + Ceil(RetryDelay(p, r.retryAfter, 0, w.random)) * SECOND)
    else if ShouldRetryStatus(r.status) then
      GiveBack(lease.id, lease.owner, lease.token, w.now,
               w.later + Ceil(RetryDelay(p, r.retryAfter, p.maxRetries + 1, w.random)) * SECOND)
    else match Converted(r)
      case None => GiveBack(lease.id, lease.owner, lease.token, w.now, w.later)
      case Some(page) => Finish(lease.id, lease.owner, lease.token, w.now, Some(page.key))
  }

  /** A worker completes a row only together with its page, and hands it back for at most 30 seconds:
   *  its calls satisfy the assumptions of the recovery and page theorems. */
  lemma SettlingCallIsTimely(lease: FrontierLease, r: FetchResult, p: RetryPolicy, w: Work, leaseTime: int)
    ensures Timely(SettlingCall(lease, r, p, w), w.later, 30 * SECOND, leaseTime)
    ensures SettlingCall(lease, r, p, w).Finish? ==> SettlingCall(lease, r, p, w).page.Some?
    ensures SettlingCall(lease, r, p, w).Finish? <==> Conclusive(r) && Converted(r).Some?
  {
    RetryDelayCapped(p, r.retryAfter, 0, w.random);
    RetryDelayCapped(p, r.retryAfter, p.maxRetries + 1, w.random);
  }

  /** The seconds a row waits after a response that did not complete it. */
  function WaitSeconds(r: FetchResult, p: RetryPolicy, random: real): int {
    if r.errorType.None? && !(r.status.Some? && r.status.value in {429, 500, 502, 503, 504}) then 0
    else if r.retryAfter.Some? then Min(Max(r.retryAfter.value, 0), 30)
    else Ceil(RealMin(DelayForAttempt(p, if r.errorType.Some? then 0 else p.maxRetries + 1, random), 30.0))
  }

  /** The row is leased to the lease's owner under its token, and its deadline is ahead. */
  predicate HoldsLive(items: map<int, Item>, lease: FrontierLease, now: int) {
    && lease.id in items
    && var it := items[lease.id];
       it.phase == Leased && it.owner == Some(lease.owner) && it.token == Some(lease.token)
       && it.expiresAt.Some? && it.expiresAt.value > now
  }

  /** A response that completes a row: no error, a status that is not one of the five, and a page. */
  predicate Completes(r: FetchResult) {
    r.errorType.None? && r.status.Some? && r.status.value !in {429, 500, 502, 503, 504} && r.page.Some?
  }

  /** Settling a live lease always has an effect: the row is complete exactly when the response completes
   *  it, else it goes back, after the wait the response asks for, or is dead if its attempts are used up. */
  lemma LiveLeaseIsSettled(s: Sys, lease: FrontierLease, r: FetchResult, p: RetryPolicy, w: Work)
    requires Inv(s) && HoldsLive(s.items, lease, w.now)
    ensures var call := SettlingCall(lease, r, p, w);
      CallAccepted(s, call) && (call.Finish? <==> Completes(r))
    ensures Settled(s.items[lease.id], Apply(s, SettlingCall(lease, r, p, w)).items, r, p, w)
  {
    hide Inv, Apply, CallAccepted;
    var call := SettlingCall(lease, r, p, w);
    CallFits(lease, r, p, w);
    hide SettlingCall, WaitSeconds, Completes;
    InvRow(s, lease.id);
    AcceptedIffLeaseMatches(s, call);
    AppliedRow(s, call);
    WhatStepsWrite(s, call);
  }

  lemma AppliedRow(s: Sys, e: Step)
    requires Inv(s) && CallAccepted(s, e)
    ensures e.id in Apply(s, e).items
  {
    InvRow(s, e.id);
    hide Inv;
  }

  /** The settling call presents the lease, completes or hands back as the response demands, and for the
   *  wait it demands. */
  lemma CallFits(lease: FrontierLease, r: FetchResult, p: RetryPolicy, w: Work)
    ensures var call := SettlingCall(lease, r, p, w);
      && (call.Finish? || call.GiveBack?) && (call.Finish? <==> Completes(r))
      && call.id == lease.id && call.owner == lease.owner && call.token == lease.token && call.now == w.now
      && (call.GiveBack? ==> call.availableAt == w.later + WaitSeconds(r, p, w.random) * 1_000_000)
  {
    RetryDelayCapped(p, r.retryAfter, 0, w.random);
    RetryDelayCapped(p, r.retryAfter, p.maxRetries + 1, w.random);
  }

  /** What settling leaves of the row. */
  predicate Settled(it: Item, after: map<int, Item>, r: FetchResult, p: RetryPolicy, w: Work) {
    && it.id in after
    && var it' := after[it.id];
       && it'.owner == None && it'.token == None && it'.expiresAt == None && it'.attempts == it.attempts
       && (Completes(r) ==> it'.phase == Complete)
       && (!Completes(r) ==>
            && it'.phase == (if it.attempts < it.maxAttempts then Pending else Dead)
            && it'.availableAt == w.later + WaitSeconds(r, p, w.random) * 1_000_000)
  }

  // Named kinds of step, by owner.
  function ClaimBy(owner: string): Step -> bool { (e: Step) => e.Claim? && e.owner == owner }
  function FinishBy(owner: string): Step -> bool { (e: Step) => e.Finish? && e.owner == owner }
  function GiveBackBy(owner: string): Step -> bool { (e: Step) => e.GiveBack? && e.owner == owner }

  /** The leases claimed, completed and handed back under one owner's name in a history. */
  function Own(history: seq<Step>, owner: string): WorkerResult {
    WorkerResult(CountTaken(EMPTY, history, ClaimBy(owner)), CountTaken(EMPTY, history, FinishBy(owner)),
                 CountTaken(EMPTY, history, GiveBackBy(owner)), 0)
  }

  function Accepted(r: WorkerResult): WorkerResult { r.(stale := 0) }

  lemma OwnAppend(h: seq<Step>, es: seq<Step>, owner: string, s: Sys)
    requires s == Run(EMPTY, h)
    ensures Own(h + es, owner) == Plus(Own(h, owner), WorkerResult(
      CountTaken(s, es, ClaimBy(owner)), CountTaken(s, es, FinishBy(owner)),
      CountTaken(s, es, GiveBackBy(owner)), 0))
  {
    hide Run, CountTaken;
    CountAppend(EMPTY, h, es, ClaimBy(owner));
    CountAppend(EMPTY, h, es, FinishBy(owner));
    CountAppend(EMPTY, h, es, GiveBackBy(owner));
  }

  lemma OthersAreNotOwn(h: seq<Step>, es: seq<Step>, owner: string)
    requires forall a :: 0 <= a < |es| && (es[a].Claim? || es[a].Finish? || es[a].GiveBack?) ==>
               es[a].owner != owner
    ensures Own(h + es, owner) == Own(h, owner)
  {
    var s := Run(EMPTY, h);
    hide Run, CountTaken;
    OwnAppend(h, es, owner, s);
    CountNone(s, es, ClaimBy(owner));
    CountNone(s, es, FinishBy(owner));
    CountNone(s, es, GiveBackBy(owner));
  }

  lemma CountOne(s: Sys, e: Step, kind: Step -> bool)
    ensures CountTaken(s, [e], kind) == if kind(e) && Taken(s, e) then 1 else 0
  {
    assert [e][1..] == [];
    assert CountTaken(Apply(s, e), [], kind) == 0;
  }

  lemma CallIsOwn(h: seq<Step>, e: Step, owner: string, s: Sys)
    requires s == Run(EMPTY, h) && (e.Finish? || e.GiveBack?) && e.owner == owner
    ensures Own(h + [e], owner) == Plus(Own(h, owner), WorkerResult(
      0, if CallAccepted(s, e) && e.Finish? then 1 else 0, if CallAccepted(s, e) && e.GiveBack? then 1 else 0, 0))
  {
    hide Run, CountTaken;
    OwnAppend(h, [e], owner, s);
    CountOne(s, e, ClaimBy(owner));
    CountOne(s, e, FinishBy(owner));
    CountOne(s, e, GiveBackBy(owner));
  }

  lemma AcquireIsOwn(h: seq<Step>, es: seq<Step>, owner: string, s: Sys)
    requires s == Run(EMPTY, h)
    requires forall a :: 0 <= a < |es| ==> es[a].Reap? || (es[a].Claim? && es[a].owner == owner)
    ensures Own(h + es, owner) == Plus(Own(h, owner), WorkerResult(CountTaken(s, es, IsClaim), 0, 0, 0))
  {
    hide Run, CountTaken;
    OwnAppend(h, es, owner, s);
    CountNone(s, es, FinishBy(owner));
    CountNone(s, es, GiveBackBy(owner));
    SameClaims(s, es, owner);
  }

  lemma {:induction false} SameClaims(s: Sys, es: seq<Step>, owner: string)
    requires forall a :: 0 <= a < |es| ==> es[a].Reap? || (es[a].Claim? && es[a].owner == owner)
    ensures CountTaken(s, es, ClaimBy(owner)) == CountTaken(s, es, IsClaim)
    decreases |es|
  {
    if es != [] { SameClaims(Apply(s, es[0]), es[1..], owner); }
  }

  function FinishesBy(s: Sys, es: seq<Step>, owners: seq<string>): seq<int> {
    seq(|owners|, k requires 0 <= k < |owners| => CountTaken(s, es, FinishBy(owners[k])))
  }

  lemma {:induction false} FinishesAddUp(s: Sys, es: seq<Step>, owners: seq<string>)
    requires Distinct(owners) && forall a :: 0 <= a < |es| && es[a].Finish? ==> es[a].owner in owners
    ensures Sum(FinishesBy(s, es, owners)) == CountTaken(s, es, IsFinish)
    decreases |es|
  {
    hide Apply, Taken, Sum;
    if es == [] {
      SumScale(FinishesBy(s, es, owners), FinishesBy(s, es, owners), 0);
    } else {
      FinishesAddUp(Apply(s, es[0]), es[1..], owners);
      var xs, ys := FinishesBy(Apply(s, es[0]), es[1..], owners), FinishesBy(s, es, owners);
      if es[0].Finish? && Taken(s, es[0]) {
        var k :| 0 <= k < |owners| && owners[k] == es[0].owner;
        SumUpdate(xs, ys, k);
      } else {
        assert xs == ys;
      }
    }
  }

  /** The complete rows are exactly what all workers together have completed, when nobody else
   *  completes rows. */
  lemma CompletedByAllWorkers(h: seq<Step>, owners: seq<string>, n: nat)
    requires ValidRun(EMPTY, h) && Covers(Run(EMPTY, h), n)
    requires Distinct(owners) && forall a :: 0 <= a < |h| && h[a].Finish? ==> h[a].owner in owners
    ensures Total(Run(EMPTY, h), n, IsComplete)
         == Sum(seq(|owners|, k requires 0 <= k < |owners| => Own(h, owners[k]).completed))
  {
    var each := seq(|owners|, k requires 0 <= k < |owners| => Own(h, owners[k]).completed as int);
    assert Inv(EMPTY);
    hide Run, ValidRun, Covers, CountTaken, Inv;
    assert each == FinishesBy(EMPTY, h, owners);
    FinishesAddUp(EMPTY, h, owners);
    RunCounts(EMPTY, h, n);
    NothingComplete(n);
  }

  lemma NothingComplete(n: nat)
    ensures Total(EMPTY, n, IsComplete) == 0
  {
    SumScale(RowValues(EMPTY, n, IsComplete), RowValues(EMPTY, n, IsComplete), 0);
  }

  /** The tokens a history has issued. */
  ghost function Issued(h: seq<Step>): iset<string> {
    if h == [] then iset{}
    else Issued(h[..|h| - 1]) + (if h[|h| - 1].Claim? then iset{h[|h| - 1].token} else iset{})
  }

  lemma {:induction false} IssuedAppend(h: seq<Step>, es: seq<Step>, reserved: iset<string>)
    requires Issued(h) !! reserved
    requires forall a :: 0 <= a < |es| && es[a].Claim? ==> es[a].token !in reserved
    ensures Issued(h + es) !! reserved
  {
    if es == [] {
      assert h + es == h;
    } else {
      var init := es[..|es| - 1];
      IssuedAppend(h, init, reserved);
      assert (h + es)[..|h + es| - 1] == h + init;
    }
  }

  lemma StepIssuesItsToken(s: Sys, e: Step, t: string)
    requires Inv(s) && Enabled(s, e) && Unused(s.grants, t) && (e.Claim? ==> e.token != t)
    ensures Unused(Apply(s, e).grants, t)
  {
    hide Inv;
    if !e.Insert? && e.id in s.items { InvRow(s, e.id); }
  }

  lemma {:induction false} NotIssuedIsUnused(h: seq<Step>, t: string)
    requires ValidRun(EMPTY, h) && t !in Issued(h)
    ensures Unused(Run(EMPTY, h).grants, t)
  {
    if h != [] {
      hide Apply, Enabled, Unused, Inv;
      var init, e := h[..|h| - 1], h[|h| - 1];
      assert h == init + [e];
      RunSnoc(EMPTY, init, e);
      NotIssuedIsUnused(init, t);
      assert Inv(EMPTY);
      RunKeepsInv(EMPTY, init);
      StepIssuesItsToken(Run(EMPTY, init), e, t);
    }
  }

  /** The tokens drawn in pass number q or later. */
  ghost function DrawnFrom(passes: nat -> Pass, q: nat): iset<string> {
    iset p: nat, a: nat | p >= q && a < |passes(p).tokens| :: passes(p).tokens[a]
  }

  ghost predicate TokensNotIssued(h: seq<Step>, tokens: seq<string>) {
    forall a :: 0 <= a < |tokens| ==> tokens[a] !in Issued(h)
  }

  lemma TokensNotIssuedAreUnused(h: seq<Step>, tokens: seq<string>)
    requires ValidRun(EMPTY, h) && TokensNotIssued(h, tokens)
    ensures AllUnused(Run(EMPTY, h).grants, tokens)
  {
    forall a | 0 <= a < |tokens| ensures Unused(Run(EMPTY, h).grants, tokens[a]) {
      NotIssuedIsUnused(h, tokens[a]);
    }
  }

  function Indices(n: nat): (r: set<nat>)
    ensures |r| == n && forall a: nat :: a in r <==> a < n
  {
    if n == 0 then {} else Indices(n - 1) + {n - 1}
  }

  ghost function Rank(h: seq<Step>, n: nat): int { Total(Run(EMPTY, h), n, Weight) }

  /** From history h to its extension h', nothing was scheduled beyond id n, no reserved token was
   *  issued, the steps under the owner's name amount to r, and each claim used up rank. */
  ghost predicate Progressed(h: seq<Step>, h': seq<Step>, owner: string, reserved: iset<string>, n: nat,
                             r: WorkerResult)
  {
    && h <= h'
    && Covers(Run(EMPTY, h'), n)
    && Issued(h') !! reserved
    && Own(h', owner) == Plus(Own(h, owner), Accepted(r))
    && 0 <= Rank(h', n) <= Rank(h, n) - r.claimed
  }

  /** The tokens still to be drawn are not in use, and the ids in use are below n. */
  ghost predicate Ready(h: seq<Step>, reserved: iset<string>, n: nat) {
    ValidRun(EMPTY, h) && Issued(h) !! reserved && Covers(Run(EMPTY, h), n)
  }

  lemma ReadyAgain(h: seq<Step>, h': seq<Step>, owner: string, reserved: iset<string>, n: nat,
                   r: WorkerResult)
    requires Progressed(h, h', owner, reserved, n, r) && ValidRun(EMPTY, h')
    ensures Ready(h', reserved, n)
  {
  }

  lemma NothingAdded(r: WorkerResult)
    ensures Plus(WorkerResult(0, 0, 0, 0), r) == r == Plus(r, WorkerResult(0, 0, 0, 0))
  {
  }

  lemma ProgressedTrans(h: seq<Step>, h': seq<Step>, h'': seq<Step>, owner: string,
                        reserved: iset<string>, n: nat, r: WorkerResult, q: WorkerResult)
    requires Progressed(h, h', owner, reserved, n, r) && Progressed(h', h'', owner, reserved, n, q)
    ensures Progressed(h, h'', owner, reserved, n, Plus(r, q))
  {
  }

  /** Steps without scheduling use up at least one rank per claim. */
  lemma RankDrops(h: seq<Step>, es: seq<Step>, n: nat, s: Sys)
    requires ValidRun(EMPTY, h + es) && NoInserts(es) && s == Run(EMPTY, h) && Covers(s, n)
    ensures Covers(Run(EMPTY, h + es), n)
    ensures CountTaken(s, es, IsClaim) + Rank(h + es, n) <= Rank(h, n) <= Total(s, n, Budget)
    ensures Rank(h + es, n) >= 0
  {
    assert Inv(EMPTY);
    hide Run, Inv, Total, CountTaken, Apply, Enabled, Covers;
    RunAppend(EMPTY, h, es);
    RunKeepsInv(EMPTY, h);
    MovesBoundedByRank(s, es, n);
    CountSubkind(s, es, IsClaim, IsMove);
  }

  lemma NothingHappened(h: seq<Step>, owner: string, reserved: iset<string>, n: nat)
    requires Ready(h, reserved, n)
    ensures Progressed(h, h, owner, reserved, n, WorkerResult(0, 0, 0, 0))
    ensures Rank(h, n) <= Total(Run(EMPTY, h), n, Budget)
  {
    assert h + [] == h;
    RankDrops(h, [], n, Run(EMPTY, h));
  }

  lemma OthersProgressed(h: seq<Step>, es: seq<Step>, owner: string, reserved: iset<string>, n: nat)
    requires Ready(h, reserved, n) && ValidRun(EMPTY, h + es) && NoInserts(es)
    requires forall a :: 0 <= a < |es| && es[a].Claim? ==> es[a].token !in reserved
    requires forall a :: 0 <= a < |es| && (es[a].Claim? || es[a].Finish? || es[a].GiveBack?) ==>
               es[a].owner != owner
    ensures Progressed(h, h + es, owner, reserved, n, WorkerResult(0, 0, 0, 0))
  {
    hide Run, Own, Total, Issued, CountTaken;
    IssuedAppend(h, es, reserved);
    OthersAreNotOwn(h, es, owner);
    RankDrops(h, es, n, Run(EMPTY, h));
  }

  lemma CallProgressed(h: seq<Step>, call: Step, owner: string, reserved: iset<string>, n: nat,
                       outcome: Option<bool>)
    requires Ready(h, reserved, n) && (call.Finish? || call.GiveBack?) && call.owner == owner
    requires outcome.Some? <==> CallAccepted(Run(EMPTY, h), call)
    requires outcome.Some? ==> outcome.value == call.Finish?
    ensures Progressed(h, h + [call], owner, reserved, n, Counted(outcome))
  {
    hide Run, Own, Total, Issued, CountTaken;
    RunSnoc(EMPTY, h, call);
    IssuedAppend(h, [call], reserved);
    CallIsOwn(h, call, owner, Run(EMPTY, h));
    RankDrops(h, [call], n, Run(EMPTY, h));
  }

  lemma AcquireProgressed(h: seq<Step>, es: seq<Step>, owner: string, reserved: iset<string>, n: nat,
                          s: Sys, k: nat)
    requires Ready(h, reserved, n) && ValidRun(EMPTY, h + es) && s == Run(EMPTY, h)
    requires OnlyReapsAndClaims(es, owner, reserved) && CountTaken(s, es, IsClaim) == k
    ensures Progressed(h, h + es, owner, reserved, n, WorkerResult(k, 0, 0, 0))
  {
    hide Total, Run, CountTaken, Own, Issued;
    assert Issued(h + es) !! reserved by { IssuedAppend(h, es, reserved); }
    assert Own(h + es, owner) == Plus(Own(h, owner), WorkerResult(k, 0, 0, 0)) by {
      AcquireIsOwn(h, es, owner, s);
    }
    RankDrops(h, es, n, s);
  }

  ghost predicate OnlyReapsAndClaims(es: seq<Step>, owner: string, reserved: iset<string>) {
    forall a :: 0 <= a < |es| ==>
      (es[a].Reap? || (es[a].Claim? && es[a].owner == owner && es[a].token !in reserved))
  }

  function Counted(outcome: Option<bool>): WorkerResult {
    match outcome
    case Some(true) => WorkerResult(0, 1, 0, 0)
    case Some(false) => WorkerResult(0, 0, 1, 0)
    case None => WorkerResult(0, 0, 0, 1)
  }

  /** How often a page was fetched under each lease token, by whichever worker: history only. */
  class FetchLog {
    ghost var counts: multiset<string>

    constructor ()
      ensures counts == multiset{}
    {
      counts := multiset{};
    }
  }

  ghost function CountIn(counts: multiset<string>): string -> nat { (x: string) => counts[x] }

  ghost predicate Unfetched(counts: multiset<string>, tokens: iset<string>) {
    forall x :: x in tokens ==> counts[x] == 0
  }

  ghost predicate Untouched(before: multiset<string>, after: multiset<string>, tokens: iset<string>) {
    forall x :: x in tokens ==> after[x] == before[x]
  }

  ghost predicate FetchedAtMost(counts: multiset<string>, most: int) {
    forall x: string :: counts[x] <= most
  }

  /** No row has been fetched more than maxAttempts * most times, over all its leases. */
  ghost predicate WithinFetchBudget(s: Sys, counts: multiset<string>, most: nat) {
    forall i :: i in s.items ==>
      Sum(FetchesOf(GrantsOf(s, i), CountIn(counts))) <= s.items[i].maxAttempts * most
  }

  lemma FetchBudgetKept(h: seq<Step>, counts: multiset<string>, most: nat)
    requires ValidRun(EMPTY, h) && FetchedAtMost(counts, most)
    ensures WithinFetchBudget(Run(EMPTY, h), counts, most)
  {
    assert Inv(EMPTY);
    RunKeepsInv(EMPTY, h);
    var s := Run(EMPTY, h);
    hide Inv, Run, ValidRun;
    forall i | i in s.items
      ensures Sum(FetchesOf(GrantsOf(s, i), CountIn(counts))) <= s.items[i].maxAttempts * most
    {
      FetchBudget(s, i, CountIn(counts), most);
    }
  }

  /** The tokens of the leases still to be processed. */
  ghost function HeldTokens(leases: seq<FrontierLease>, pending: set<nat>): iset<string> {
    iset a: nat | a in pending && a < |leases| :: leases[a].token
  }

  ghost predicate AllTerminal(s: Sys) { forall i :: i in s.items ==> Terminal(s.items[i]) }

  lemma {:induction false} NoNewRows(s: Sys, es: seq<Step>)
    requires Inv(s) && ValidRun(s, es) && NoInserts(es)
    ensures Run(s, es).items.Keys == s.items.Keys
    decreases |es|
  {
    if es != [] {
      StepKeepsInv(s, es[0]);
      if es[0].id in s.items { InvRow(s, es[0].id); }
      hide Inv;
      NoNewRows(Apply(s, es[0]), es[1..]);
    }
  }

  /** When all rows are terminal they stay so, while nothing is scheduled. */
  lemma AllTerminalStays(h: seq<Step>, es: seq<Step>)
    requires ValidRun(EMPTY, h + es) && NoInserts(es) && AllTerminal(Run(EMPTY, h))
    ensures AllTerminal(Run(EMPTY, h + es))
  {
    assert Inv(EMPTY);
    RunAppend(EMPTY, h, es);
    RunKeepsInv(EMPTY, h);
    var s := Run(EMPTY, h);
    hide Inv, ValidRun, Run;
    NoNewRows(s, es);
    forall i | i in s.items
      ensures i in Run(s, es).items && Terminal(Run(s, es).items[i])
    {
      TerminalIsForever(s, es, i);
    }
  }

  lemma TimelyTogether(h: seq<Step>, es: seq<Step>, t: int, t': int, delay: int, lease: int, shorter: int)
    requires TimelySteps(h, t, delay, lease) && t <= t' && shorter <= lease && delay >= 0
    requires TimelySteps(es, t', delay, lease) || TimelySteps(es, t', 0, shorter)
    ensures TimelySteps(h + es, t', delay, lease)
  {
  }

  class FrontierWorker {
    const owner: string
    const repo: InMemoryRepository
    const batchSize: nat
    const concurrency: nat
    const leaseSeconds: int
    const policy: RetryPolicy
    const log: FetchLog
    ghost const longestLease: int      // the longest lease any worker takes

    constructor (owner: string, repo: InMemoryRepository, batchSize: nat, concurrency: nat,
                 leaseSeconds: int, policy: RetryPolicy, log: FetchLog, ghost longestLease: int)
      ensures this.owner == owner && this.repo == repo && this.batchSize == batchSize
              && this.concurrency == concurrency && this.leaseSeconds == leaseSeconds
              && this.policy == policy && this.log == log && this.longestLease == longestLease
    {
      this.owner, this.repo, this.batchSize := owner, repo, batchSize;
      this.concurrency, this.leaseSeconds, this.policy := concurrency, leaseSeconds, policy;
      this.log, this.longestLease := log, longestLease;
    }

    /** What every worker keeps to, up to clock reading t: leases, delays and fetches within bounds. */
    ghost predicate Orderly(h: seq<Step>, counts: multiset<string>, t: int) {
      TimelySteps(h, t, 30 * SECOND, longestLease) && FetchedAtMost(counts, policy.maxRetries + 1)
    }

    /** At most maxRetries + 1 fetches, each logged under the lease; the result is the first conclusive
     *  response, or the last one tried.  With a negative retry limit no fetch is made and the original
     *  raises an error. */
    method FetchWithRetries(ghost token: string, responses: seq<FetchResult>)
      returns (result: Option<FetchResult>, calls: nat)
      requires |responses| > policy.maxRetries
      modifies log
      ensures policy.maxRetries < 0 <==> result.None?
      ensures result.None? ==> calls == 0
      ensures result.Some? ==>
        && 1 <= calls <= policy.maxRetries + 1 && result.value == responses[calls - 1]
        && (forall b :: 0 <= b < calls - 1 ==> !Conclusive(responses[b]))
        && (Conclusive(result.value) || calls == policy.maxRetries + 1)
      ensures log.counts == old(log.counts)[token := old(log.counts[token]) + calls]
    {
      result, calls := None, 0;
      var attempt := 1;
      while attempt < policy.maxRetries + 2
        invariant attempt == calls + 1 && (attempt <= policy.maxRetries + 2 || policy.maxRetries < 0)
        invariant calls == 0 <==> result.None?
        invariant result.Some? ==> calls <= policy.maxRetries + 1 && result.value == responses[calls - 1]
        invariant forall b :: 0 <= b < calls ==> !Conclusive(responses[b])
        invariant log.counts == old(log.counts)[token := old(log.counts[token]) + calls]
      {
        log.counts := log.counts[token := log.counts[token] + 1];
        result, calls := Some(responses[calls]), calls + 1;
        if Conclusive(result.value) { return; }
        attempt := attempt + 1;
      }
    }

    /** Settles a lease according to the fetch result.  The outcome is true when the completion was
     *  accepted, false when the failure was, and nothing when the call was rejected as stale. */
    method SettleLease(lease: FrontierLease, result: FetchResult, w: Work) returns (outcome: Option<bool>)
      requires repo.Valid()
      modifies repo
      ensures var call := SettlingCall(lease, result, policy, w);
        && repo.Valid() && repo.history == old(repo.history) + [call]
        && (outcome.Some? <==> CallAccepted(old(repo.State()), call))
        && (outcome.Some? ==> outcome.value == call.Finish?)
      ensures outcome == Some(true) ==>
        Converted(result).Some? && Converted(result).value.key in Keys(repo.pages)
      ensures HoldsLive(old(repo.items), lease, w.now) ==>
        && outcome == Some(Completes(result))
        && Settled(old(repo.items)[lease.id], repo.items, result, policy, w)
      ensures !HoldsLive(old(repo.items), lease, w.now) ==> outcome == None && repo.items == old(repo.items)
      ensures repo.PageTable() == if outcome == Some(true) && result.page.Some?
                                  then SaveAll(old(repo.PageTable()), [result.page.value])
                                  else old(repo.PageTable())
    {
      hide Settled, HoldsLive, Completes, Run, Inv;
      ghost var was, call := repo.State(), SettlingCall(lease, result, policy, w);
      RunSnoc(EMPTY, repo.history, call);
      repo.ValidMeansInv();
      if HoldsLive(repo.items, lease, w.now) {
        LiveLeaseIsSettled(was, lease, result, policy, w);
      } else {
        StaleCall(was, lease, result, w);
      }
      var accepted;
      if result.errorType.Some? {
        var delay := Ceil(RetryDelay(policy, result.retryAfter, 0, w.random));
        accepted := repo.FailFrontierItem(lease.id, lease.owner, lease.token, delay, w.now, w.later);
        return if accepted then Some(false) else None;
      }
      if ShouldRetryStatus(result.status) {
        var delay := Ceil(RetryDelay(policy, result.retryAfter, policy.maxRetries + 1, w.random));
        accepted := repo.FailFrontierItem(lease.id, lease.owner, lease.token, delay, w.now, w.later);
        return if accepted then Some(false) else None;
      }
      var page := Converted(result);
      if page.None? {
        accepted := repo.FailFrontierItem(lease.id, lease.owner, lease.token, 0, w.now, w.later);
        return if accepted then Some(false) else None;
      }
      accepted := repo.SavePageAndCompleteFrontierItem(lease.id, lease.owner, lease.token, page.value, w.now);
      SaveAllKeys(old(repo.PageTable()), [page.value]);
      assert [page.value][0].key in BatchKeys([page.value]);
      return if accepted then Some(true) else None;
    }

    lemma StaleCall(s: Sys, lease: FrontierLease, r: FetchResult, w: Work)
      requires !HoldsLive(s.items, lease, w.now)
      ensures !CallAccepted(s, SettlingCall(lease, r, policy, w))
      ensures Apply(s, SettlingCall(lease, r, policy, w)) == s
    {
    }

    /** Other callers of the shared repository, until the clock shows t.  This worker may rely on nothing
     *  but this contract, which is what it keeps itself: they take any protocol steps except scheduling;
     *  they never draw a reserved token, and do not settle or claim leases under this worker's name; they
     *  keep the bounds, and they do not fetch under tokens reserved or held here. */
    method OtherCallers(ghost reserved: iset<string>, ghost held: iset<string>, ghost t: int)
      returns (ghost steps: seq<Step>)
      requires repo.Valid() && Orderly(repo.history, log.counts, t)
      modifies repo, log
      ensures repo.Valid() && repo.history == old(repo.history) + steps && NoInserts(steps)
      ensures forall a :: 0 <= a < |steps| && steps[a].Claim? ==>
        steps[a].token !in reserved && steps[a].owner != owner
      ensures forall a :: 0 <= a < |steps| && (steps[a].Finish? || steps[a].GiveBack?) ==>
        steps[a].owner != owner
      ensures Orderly(repo.history, log.counts, t) && Untouched(old(log.counts), log.counts, reserved + held)
    {
      steps := [];
    }

    /** Control is given up: other callers act on the repository. */
    method Await(ghost reserved: iset<string>, ghost held: iset<string>, ghost t: int, ghost n: nat)
      returns (ghost others: seq<Step>)
      requires repo.Valid() && Ready(repo.history, reserved, n) && Orderly(repo.history, log.counts, t)
      modifies repo, log
      ensures repo.Valid() && Orderly(repo.history, log.counts, t)
      ensures repo.history == old(repo.history) + others && NoInserts(others)
      ensures Untouched(old(log.counts), log.counts, reserved + held)
      ensures Progressed(old(repo.history), repo.history, owner, reserved, n, WorkerResult(0, 0, 0, 0))
    {
      hide Orderly, Untouched;
      others := OtherCallers(reserved, held, t);
      OthersProgressed(old(repo.history), others, owner, reserved, n);
    }

    /** One lease: fetch, while others act, and settle with the call the fetch result asks for. */
    method ProcessRenewed(lease: FrontierLease, w: Work, ghost reserved: iset<string>,
                          ghost held: iset<string>, ghost t: int, ghost n: nat)
      returns (outcome: Option<bool>, ghost calls: nat, ghost before: seq<Step>)
      requires repo.Valid() && Ready(repo.history, reserved, n) && lease.owner == owner
      requires policy.maxRetries >= 0 && |w.responses| > policy.maxRetries && w.later <= t
      requires Orderly(repo.history, log.counts, t)
      requires log.counts[lease.token] == 0 && lease.token !in reserved + held
      modifies repo, log
      ensures repo.Valid() && 1 <= calls <= policy.maxRetries + 1
      ensures var call := SettlingCall(lease, w.responses[calls - 1], policy, w);
        && repo.history == before + [call]
        && (outcome.Some? <==> CallAccepted(Run(EMPTY, before), call))
        && (outcome.Some? ==> outcome.value == call.Finish?)
      ensures var s, r := Run(EMPTY, before), w.responses[calls - 1];
        if HoldsLive(s.items, lease, w.now)
        then outcome == Some(Completes(r)) && Settled(s.items[lease.id], repo.items, r, policy, w)
        else outcome == None && repo.items == s.items
      ensures log.counts[lease.token] == calls
      ensures Orderly(repo.history, log.counts, t) && Untouched(old(log.counts), log.counts, reserved + held)
      ensures Ready(repo.history, reserved, n)
      ensures Progressed(old(repo.history), repo.history, owner, reserved, n, Counted(outcome))
    {
      hide Progressed, Ready, Run, SettlingCall, CallAccepted, Counted, Orderly, Untouched;
      var _ := Await(reserved, held + iset{lease.token}, t, n);
      ReadyAgain(old(repo.history), repo.history, owner, reserved, n, WorkerResult(0, 0, 0, 0));
      before := repo.history;
      ghost var awaited := log.counts;
      StillZero(old(log.counts), awaited, reserved + (held + iset{lease.token}), lease.token);
      var r, fetches := FetchWithRetries(lease.token, w.responses);
      calls := fetches;
      outcome := SettleLease(lease, r.value, w);
      CallProgressed(before, SettlingCall(lease, r.value, policy, w), owner, reserved, n, outcome);
      ReadyAgain(before, repo.history, owner, reserved, n, Counted(outcome));
      ProgressedTrans(old(repo.history), before, repo.history, owner, reserved, n,
                      WorkerResult(0, 0, 0, 0), Counted(outcome));
      NothingAdded(Counted(outcome));
      FetchedAndSettled(before, old(log.counts), awaited, lease, r.value, w, calls, reserved, held, t);
    }

    lemma StillZero(before: multiset<string>, after: multiset<string>, tokens: iset<string>, x: string)
      requires Untouched(before, after, tokens) && x in tokens && before[x] == 0
      ensures after[x] == 0
    {
    }

    lemma FetchedAndSettled(h: seq<Step>, start: multiset<string>, counts: multiset<string>, lease: FrontierLease,
                            r: FetchResult, w: Work, calls: nat, reserved: iset<string>, held: iset<string>, t: int)
      requires Orderly(h, counts, t) && w.later <= t && calls <= policy.maxRetries + 1
      requires counts[lease.token] == 0 && lease.token !in reserved + held
      requires Untouched(start, counts, reserved + (held + iset{lease.token}))
      ensures var after := counts[lease.token := calls];
        && Orderly(h + [SettlingCall(lease, r, policy, w)], after, t)
        && Untouched(start, after, reserved + held)
    {
      SettlingCallIsTimely(lease, r, policy, w, longestLease);
      hide SettlingCall;
    }

    /** The world plays its part in a pass. */
    ghost predicate Playable(p: Pass) {
      && Min(batchSize, concurrency) <= |p.tokens| && Distinct(p.tokens)
      && Min(batchSize, concurrency) <= |p.work|
      && (forall a :: 0 <= a < |p.work| ==> |p.work[a].responses| > policy.maxRetries && p.work[a].later <= p.latest)
      && p.now <= p.latest && leaseSeconds * SECOND <= longestLease
    }

    /** A claim that comes back empty long enough after the last clock reading finds nothing to do. */
    method Acquire(p: Pass, ghost reserved: iset<string>, ghost t: int, ghost n: nat)
      returns (leases: seq<FrontierLease>)
      requires repo.Valid() && Ready(repo.history, reserved, n)
      requires Playable(p) && TokensNotIssued(repo.history, p.tokens)
      requires forall a :: 0 <= a < |p.tokens| ==> p.tokens[a] !in reserved
      requires Orderly(repo.history, log.counts, t) && t <= p.latest
      modifies repo
      ensures repo.Valid() && Orderly(repo.history, log.counts, p.latest)
      ensures |leases| == Min(Min(batchSize, concurrency), |DueIds(old(repo.items), p.now)|)
      ensures forall a :: 0 <= a < |leases| ==> leases[a].owner == owner
      ensures |leases| <= |p.tokens| && forall a :: 0 <= a < |leases| ==> leases[a].token == p.tokens[a]
      ensures leases == [] && Min(batchSize, concurrency) >= 1 && p.now > t + Max(30 * SECOND, longestLease) ==>
        AllTerminal(repo.State())
      ensures Progressed(old(repo.history), repo.history, owner, reserved, n,
                         WorkerResult(|leases|, 0, 0, 0))
    {
      ghost var acquired, mid;
      TokensNotIssuedAreUnused(repo.history, p.tokens);
      leases, acquired, mid := repo.AcquireFrontierBatch(
        owner, Min(batchSize, concurrency), leaseSeconds, p.now, p.tokens);
      hide Run, ValidRun, CountTaken, Playable, TokensNotIssued, DueIds;
      AcquireProgressed(old(repo.history), acquired, owner, reserved, n, old(repo.State()), |leases|);
      hide Ready, Progressed;
      ClaimsAreTimely(acquired, p, leaseSeconds * SECOND);
      TimelyTogether(old(repo.history), acquired, t, p.latest, 30 * SECOND, longestLease, leaseSeconds * SECOND);
      if leases == [] && Min(batchSize, concurrency) >= 1 && p.now > t + Max(30 * SECOND, longestLease) {
        NothingLeased(mid, repo.items, owner, p.tokens, p.now + leaseSeconds * SECOND);
        EmptyClaimMeansDrained(old(repo.State()), old(repo.history), t, 30 * SECOND, longestLease, p.now,
                               Min(batchSize, concurrency), mid);
      }
    }

    lemma ClaimsAreTimely(es: seq<Step>, p: Pass, lease: int)
      requires TimelySteps(es, p.now, 0, lease) && Playable(p)
      ensures TimelySteps(es, p.latest, 0, lease)
    {
    }

    lemma NothingLeased(before: map<int, Item>, after: map<int, Item>, o: string, tokens: seq<string>, expires: int)
      requires OnlyLeased(before, after, [], o, tokens, expires)
      ensures after == before
    {
      forall i | i in before
        ensures i in after && after[i] == before[i]
      {
        assert i !in LeasedIds([]);
      }
    }

    /** The leases are processed concurrently: they settle in any order, with other callers in between. */
    method ProcessPending(leases: seq<FrontierLease>, work: seq<Work>, pending: set<nat>,
                          ghost reserved: iset<string>, ghost t: int, ghost n: nat)
      returns (done: WorkerResult)
      requires repo.Valid() && Ready(repo.history, reserved, n)
      requires policy.maxRetries >= 0 && |leases| <= |work|
      requires forall a :: 0 <= a < |leases| ==> leases[a].owner == owner && leases[a].token !in reserved
      requires forall a, b :: 0 <= a < b < |leases| ==> leases[a].token != leases[b].token
      requires forall a :: 0 <= a < |work| ==> |work[a].responses| > policy.maxRetries && work[a].later <= t
      requires forall a: nat :: a in pending ==> a < |leases|
      requires Orderly(repo.history, log.counts, t) && Unfetched(log.counts, HeldTokens(leases, pending))
      modifies repo, log
      ensures repo.Valid() && Orderly(repo.history, log.counts, t)
      ensures Untouched(old(log.counts), log.counts, reserved)
      ensures done.claimed == 0 && |pending| == done.completed + done.failed + done.stale
      ensures Progressed(old(repo.history), repo.history, owner, reserved, n, done)
      decreases |pending|
    {
      hide Progressed, Ready, Orderly, InMemoryRepository.Valid;
      if pending == {} {
        done := WorkerResult(0, 0, 0, 0);
        NothingHappened(repo.history, owner, reserved, n);
      } else {
        var a: nat :| a in pending;
        HeldApart(leases, pending, a, log.counts);
        ghost var rest := HeldTokens(leases, pending - {a});
        var outcome, _, _ := ProcessRenewed(leases[a], work[a], reserved, rest, t, n);
        ghost var h, counts := repo.history, log.counts;
        var others := ProcessPending(leases, work, pending - {a}, reserved, t, n);
        ProgressedTrans(old(repo.history), h, repo.history, owner, reserved, n, Counted(outcome), others);
        done := Plus(Counted(outcome), others);
      }
    }

    lemma HeldApart(leases: seq<FrontierLease>, pending: set<nat>, a: nat, counts: multiset<string>)
      requires a in pending && forall b: nat :: b in pending ==> b < |leases|
      requires forall b, c :: 0 <= b < c < |leases| ==> leases[b].token != leases[c].token
      requires Unfetched(counts, HeldTokens(leases, pending))
      ensures counts[leases[a].token] == 0 && leases[a].token !in HeldTokens(leases, pending - {a})
      ensures Unfetched(counts, HeldTokens(leases, pending - {a}))
    {
      assert leases[a].token in HeldTokens(leases, pending);
    }

    /** One pass.  Every claimed lease is counted exactly once, and the claimed, completed and failed
     *  counts are exactly the steps taken under this worker's name. */
    method RunOnce(p: Pass, ghost reserved: iset<string>, ghost t: int, ghost n: nat) returns (r: WorkerResult)
      requires repo.Valid() && Ready(repo.history, reserved, n)
      requires policy.maxRetries >= 0 && Playable(p) && TokensNotIssued(repo.history, p.tokens)
      requires forall a :: 0 <= a < |p.tokens| ==> p.tokens[a] !in reserved && log.counts[p.tokens[a]] == 0
      requires Orderly(repo.history, log.counts, t) && t <= p.latest
      modifies repo, log
      ensures repo.Valid() && Orderly(repo.history, log.counts, p.latest)
      ensures Untouched(old(log.counts), log.counts, reserved)
      ensures r.claimed == Min(Min(batchSize, concurrency), |DueIds(old(repo.items), p.now)|)
      ensures r.claimed == r.completed + r.failed + r.stale
      ensures r.claimed == 0 && Min(batchSize, concurrency) >= 1 && p.now > t + Max(30 * SECOND, longestLease) ==>
        AllTerminal(repo.State())
      ensures WithinFetchBudget(repo.State(), log.counts, policy.maxRetries + 1)
      ensures Progressed(old(repo.history), repo.history, owner, reserved, n, r)
    {
      hide Progressed, Run, DueIds, AllTerminal, WithinFetchBudget;
      var leases := Acquire(p, reserved, t, n);
      ghost var h := repo.history;
      if leases == [] {
        FetchBudgetKept(repo.history, log.counts, policy.maxRetries + 1);
        return WorkerResult(0, 0, 0, 0);
      }
      ReadyAgain(old(repo.history), h, owner, reserved, n, WorkerResult(|leases|, 0, 0, 0));
      hide Ready, TokensNotIssued, InMemoryRepository.Valid;
      var done := ProcessPending(leases, p.work, Indices(|leases|), reserved, p.latest, n);
      r := Plus(WorkerResult(|leases|, 0, 0, 0), done);
      ProgressedTrans(old(repo.history), h, repo.history, owner, reserved, n,
                      WorkerResult(|leases|, 0, 0, 0), done);
      repo.ValidMeansRun();
      FetchBudgetKept(repo.history, log.counts, policy.maxRetries + 1);
    }

    /** No two passes draw the same token. */
    ghost predicate TokensApart(passes: nat -> Pass) {
      forall p, q, a, b :: p < q && 0 <= a < |passes(p).tokens| && 0 <= b < |passes(q).tokens| ==>
        passes(p).tokens[a] != passes(q).tokens[b]
    }

    lemma TokensOfPass(h: seq<Step>, passes: nat -> Pass, q: nat)
      requires Issued(h) !! DrawnFrom(passes, q) && TokensApart(passes)
      ensures TokensNotIssued(h, passes(q).tokens) && Issued(h) !! DrawnFrom(passes, q + 1)
      ensures forall a :: 0 <= a < |passes(q).tokens| ==>
        passes(q).tokens[a] !in DrawnFrom(passes, q + 1)
    {
      assert DrawnFrom(passes, q + 1) <= DrawnFrom(passes, q);
      forall a | 0 <= a < |passes(q).tokens| ensures passes(q).tokens[a] !in Issued(h) {
        assert passes(q).tokens[a] in DrawnFrom(passes, q);
      }
    }

    /** At the point h of the history no row was due, by that clock reading. */
    ghost predicate NothingDue(history: seq<Step>, h: seq<Step>, now: int) {
      h <= history && DueIds(Run(EMPTY, h).items, now) == {}
    }

    /** The latest clock reading before pass q. */
    ghost function LatestBefore(passes: nat -> Pass, start: int, q: nat): int {
      if q == 0 then start else passes(q - 1).latest
    }

    lemma LatestAtStart(passes: nat -> Pass, start: int)
      ensures LatestBefore(passes, start, 0) == start
    {
    }

    lemma LatestAfter(passes: nat -> Pass, start: int, q: nat)
      ensures LatestBefore(passes, start, q + 1) == passes(q).latest
    {
    }

    /** If pass q comes long enough after the last clock reading before it, then all rows are terminal. */
    ghost predicate DrainedIfLate(h: seq<Step>, passes: nat -> Pass, start: int, q: nat) {
      passes(q).now > LatestBefore(passes, start, q) + Max(30 * SECOND, longestLease) ==> AllTerminal(Run(EMPTY, h))
    }

    /** A pass, and whatever other callers do until the next one. */
    method Poll(passes: nat -> Pass, q: nat, ghost start: int, ghost n: nat) returns (r: WorkerResult)
      requires repo.Valid() && Ready(repo.history, DrawnFrom(passes, q), n)
      requires policy.maxRetries >= 0 && Playable(passes(q)) && TokensApart(passes)
      requires Orderly(repo.history, log.counts, LatestBefore(passes, start, q))
      requires LatestBefore(passes, start, q) <= passes(q).latest
      requires Unfetched(log.counts, DrawnFrom(passes, q))
      modifies repo, log
      ensures repo.Valid() && Orderly(repo.history, log.counts, passes(q).latest)
      ensures Unfetched(log.counts, DrawnFrom(passes, q + 1))
      ensures r.claimed == 0 && Min(batchSize, concurrency) >= 1 ==>
        NothingDue(repo.history, old(repo.history), passes(q).now) && DrainedIfLate(repo.history, passes, start, q)
      ensures r.claimed == r.completed + r.failed + r.stale
      ensures Progressed(old(repo.history), repo.history, owner, DrawnFrom(passes, q + 1), n, r)
      ensures Ready(repo.history, DrawnFrom(passes, q + 1), n)
    {
      TokensOfPass(repo.history, passes, q);
      TokensUnfetched(log.counts, passes, q);
      hide Progressed, TokensNotIssued, TokensApart, DrawnFrom, Playable, Run, Orderly, WithinFetchBudget, AllTerminal,
           Unfetched, Untouched;
      ghost var before := log.counts;
      r := RunOnce(passes(q), DrawnFrom(passes, q + 1), LatestBefore(passes, start, q), n);
      StillUnfetched(before, log.counts, DrawnFrom(passes, q + 1), DrawnFrom(passes, q + 1));
      ghost var h, counts := repo.history, log.counts;
      ReadyAgain(old(repo.history), h, owner, DrawnFrom(passes, q + 1), n, r);
      ghost var others := Await(DrawnFrom(passes, q + 1), iset{}, passes(q).latest, n);
      StillUnfetched(counts, log.counts, DrawnFrom(passes, q + 1) + iset{}, DrawnFrom(passes, q + 1));
      if AllTerminal(Run(EMPTY, h)) {
        AllTerminalStays(h, others);
      }
      ReadyAgain(h, repo.history, owner, DrawnFrom(passes, q + 1), n, WorkerResult(0, 0, 0, 0));
      ProgressedTrans(old(repo.history), h, repo.history, owner, DrawnFrom(passes, q + 1), n,
                      r, WorkerResult(0, 0, 0, 0));
      NothingAdded(r);
      ProgressedMeans(old(repo.history), repo.history, owner, DrawnFrom(passes, q + 1), n, r);
    }

    lemma StillUnfetched(before: multiset<string>, after: multiset<string>, left: iset<string>, tokens: iset<string>)
      requires Unfetched(before, tokens) && Untouched(before, after, left) && tokens <= left
      ensures Unfetched(after, tokens)
    {
    }

    lemma TokensUnfetched(counts: multiset<string>, passes: nat -> Pass, q: nat)
      requires Unfetched(counts, DrawnFrom(passes, q))
      ensures Unfetched(counts, DrawnFrom(passes, q + 1))
      ensures forall a :: 0 <= a < |passes(q).tokens| ==> counts[passes(q).tokens[a]] == 0
    {
      assert DrawnFrom(passes, q + 1) <= DrawnFrom(passes, q);
      forall a | 0 <= a < |passes(q).tokens| ensures counts[passes(q).tokens[a]] == 0 {
        assert passes(q).tokens[a] in DrawnFrom(passes, q);
      }
    }

    /** Polls until `maxEmptyPolls` passes in a row claim nothing.  Without new scheduling this ends,
     *  since every claim uses up rank, and at its last poll nothing was due; if that poll came long enough
     *  after every other clock reading, all rows are terminal.  `start` is the latest reading before. */
    method RunUntilDrained(passes: nat -> Pass, maxEmptyPolls: int, ghost start: int, ghost n: nat)
      returns (total: WorkerResult, ghost lastPoll: seq<Step>, ghost last: nat)
      requires repo.Valid() && policy.maxRetries >= 0 && Min(batchSize, concurrency) >= 1
      requires (forall q :: Playable(passes(q))) && TokensApart(passes)
      requires forall q: nat :: LatestBefore(passes, start, q) <= passes(q).latest
      requires Ready(repo.history, DrawnFrom(passes, 0), n)
      requires Orderly(repo.history, log.counts, start) && Unfetched(log.counts, DrawnFrom(passes, 0))
      modifies repo, log
      ensures repo.Valid() && old(repo.history) <= repo.history
      ensures total.claimed == total.completed + total.failed + total.stale
      ensures Own(repo.history, owner) == Plus(Own(old(repo.history), owner), Accepted(total))
      ensures total.claimed <= Total(old(repo.State()), n, Budget)
      ensures maxEmptyPolls >= 1 ==>
        NothingDue(repo.history, lastPoll, passes(last).now) && DrainedIfLate(repo.history, passes, start, last)
      ensures WithinFetchBudget(repo.State(), log.counts, policy.maxRetries + 1)
    {
      hide Progressed, Ready, Rank, Own, Playable, TokensApart, DrawnFrom, Total, Run, Orderly, Unfetched,
           NothingDue, InMemoryRepository.Valid, Draining, DrainedIfLate, WithinFetchBudget, LatestBefore;
      LatestAtStart(passes, start);
      total, lastPoll, last := WorkerResult(0, 0, 0, 0), [], 0;
      var emptyPolls, poll: nat := 0, 0;
      StartsDraining(repo.history, passes, start, n);
      while emptyPolls < maxEmptyPolls
        invariant repo.Valid() && Ready(repo.history, DrawnFrom(passes, poll), n)
        invariant Orderly(repo.history, log.counts, LatestBefore(passes, start, poll))
        invariant Unfetched(log.counts, DrawnFrom(passes, poll))
        invariant Draining(old(repo.history), repo.history, passes, start, n, poll, total, emptyPolls, lastPoll, last)
        decreases Rank(repo.history, n), maxEmptyPolls - emptyPolls
      {
        ghost var h := repo.history;
        var r := Poll(passes, poll, start, n);
        KeepsDraining(old(repo.history), h, repo.history, passes, start, n, poll, total, emptyPolls, lastPoll, last, r);
        LatestAfter(passes, start, poll);
        total, last := Plus(total, r), poll;
        poll, lastPoll := poll + 1, h;
        emptyPolls := if r.claimed == 0 then emptyPolls + 1 else 0;
      }
      EndsDraining(old(repo.history), repo.history, passes, start, n, poll, total, emptyPolls, lastPoll, last);
      repo.ValidMeansRun();
      OrderlyIsWithinBudget(repo.history, log.counts, LatestBefore(passes, start, poll));
    }

    lemma OrderlyIsWithinBudget(h: seq<Step>, counts: multiset<string>, t: int)
      requires ValidRun(EMPTY, h) && policy.maxRetries >= 0 && Orderly(h, counts, t)
      ensures WithinFetchBudget(Run(EMPTY, h), counts, policy.maxRetries + 1)
    {
      FetchBudgetKept(h, counts, policy.maxRetries + 1);
    }

    /** Where the polling loop is, having started at history h0. */
    ghost predicate Draining(h0: seq<Step>, h: seq<Step>, passes: nat -> Pass, start: int, n: nat, poll: nat,
                             total: WorkerResult, emptyPolls: nat, lastPoll: seq<Step>, last: nat)
    {
      && Progressed(h0, h, owner, DrawnFrom(passes, poll), n, total)
      && total.claimed == total.completed + total.failed + total.stale
      && (emptyPolls > 0 ==> NothingDue(h, lastPoll, passes(last).now) && DrainedIfLate(h, passes, start, last))
    }

    lemma StartsDraining(h: seq<Step>, passes: nat -> Pass, start: int, n: nat)
      requires Ready(h, DrawnFrom(passes, 0), n)
      ensures Draining(h, h, passes, start, n, 0, WorkerResult(0, 0, 0, 0), 0, [], 0)
      ensures Rank(h, n) <= Total(Run(EMPTY, h), n, Budget)
    {
      hide Progressed, Ready, Rank, Total, Run;
      NothingHappened(h, owner, DrawnFrom(passes, 0), n);
    }

    lemma KeepsDraining(h0: seq<Step>, h: seq<Step>, h': seq<Step>, passes: nat -> Pass, start: int, n: nat,
                        poll: nat, total: WorkerResult, emptyPolls: nat, lastPoll: seq<Step>, last: nat,
                        r: WorkerResult)
      requires Draining(h0, h, passes, start, n, poll, total, emptyPolls, lastPoll, last)
      requires Progressed(h, h', owner, DrawnFrom(passes, poll + 1), n, r)
      requires r.claimed == r.completed + r.failed + r.stale
      requires r.claimed == 0 ==> NothingDue(h', h, passes(poll).now) && DrainedIfLate(h', passes, start, poll)
      ensures Draining(h0, h', passes, start, n, poll + 1, Plus(total, r),
                       if r.claimed == 0 then emptyPolls + 1 else 0, h, poll)
      ensures 0 <= Rank(h', n) <= Rank(h, n) - r.claimed
    {
      hide Progressed, Rank, NothingDue, DrainedIfLate;
      ProgressedAcross(h0, h, h', owner, DrawnFrom(passes, poll), DrawnFrom(passes, poll + 1), n, total, r);
    }

    lemma EndsDraining(h0: seq<Step>, h: seq<Step>, passes: nat -> Pass, start: int, n: nat, poll: nat,
                       total: WorkerResult, emptyPolls: nat, lastPoll: seq<Step>, last: nat)
      requires Draining(h0, h, passes, start, n, poll, total, emptyPolls, lastPoll, last)
      ensures h0 <= h && 0 <= Rank(h, n) <= Rank(h0, n) - total.claimed
      ensures total.claimed == total.completed + total.failed + total.stale
      ensures Own(h, owner) == Plus(Own(h0, owner), Accepted(total))
      ensures emptyPolls > 0 ==> NothingDue(h, lastPoll, passes(last).now) && DrainedIfLate(h, passes, start, last)
    {
      hide Rank, Own, NothingDue, DrainedIfLate;
      ProgressedMeans(h0, h, owner, DrawnFrom(passes, poll), n, total);
    }

    lemma ProgressedMeans(h: seq<Step>, h': seq<Step>, owner: string, reserved: iset<string>, n: nat,
                          r: WorkerResult)
      requires Progressed(h, h', owner, reserved, n, r)
      ensures h <= h' && 0 <= Rank(h', n) <= Rank(h, n) - r.claimed
      ensures Own(h', owner) == Plus(Own(h, owner), Accepted(r))
    {
    }

    lemma ProgressedAcross(h: seq<Step>, h': seq<Step>, h'': seq<Step>, owner: string,
                           reserved: iset<string>, reserved': iset<string>, n: nat,
                           r: WorkerResult, q: WorkerResult)
      requires Progressed(h, h', owner, reserved, n, r) && Progressed(h', h'', owner, reserved', n, q)
      ensures Progressed(h, h'', owner, reserved', n, Plus(r, q))
      ensures 0 <= Rank(h'', n) <= Rank(h', n) - q.claimed
    {
    }
  }
}
