/** Job progress as derived from the frontier, against the frontier itself. */
module JobProgress {
  import opened Prelude
  import opened Sums
  import opened Protocol
  import opened LeaseTheorems

  datatype FrontierStats = FrontierStats(pending: int, leased: int, complete: int, failed: int, dead: int)

  datatype Job = Job(id: int, status: string, processed: int, success: int, failure: int)

  /** 1 for a row of the job (of any job, when none is given) in the phase, else 0. */
  function InPhase(job: Option<int>, phase: Phase): (Item, seq<Grant>) -> int {
    (it: Item, g: seq<Grant>) =>
      if (job.None? || it.jobId == job.value) && it.phase == phase then 1 else 0
  }

  function InJob(job: int): (Item, seq<Grant>) -> int {
    (it: Item, g: seq<Grant>) => if it.jobId == job then 1 else 0
  }

  function StatsOf(s: Sys, n: nat, job: Option<int>): FrontierStats {
    FrontierStats(Total(s, n, InPhase(job, Pending)), Total(s, n, InPhase(job, Leased)),
                  Total(s, n, InPhase(job, Complete)), Total(s, n, InPhase(job, Failed)),
                  Total(s, n, InPhase(job, Dead)))
  }

  function AccountedFor(st: FrontierStats): int { st.complete + st.dead }

  function Progress(job: Job, st: FrontierStats): Job {
    var count := st.pending + st.leased + st.complete + st.failed + st.dead;
    if count == 0 || job.status == "cancelled" then job
    else
      var status :=
        if st.complete + st.dead == count then
          (if st.dead != 0 then "completed_with_errors" else "completed")
        else if st.leased != 0 || st.complete != 0 || st.dead != 0 then "running"
        else "pending";
      job.(status := status, processed := st.complete + st.dead, success := st.complete,
           failure := st.dead)
  }

  lemma TotalSnoc(s: Sys, n: nat, w: (Item, seq<Grant>) -> int)
    ensures Total(s, n + 1, w) == Total(s, n, w) + RowValue(s, w, n)
  {
    assert RowValues(s, n + 1, w)[..n] == RowValues(s, n, w);
  }

  lemma StatsSnoc(s: Sys, n: nat, job: Option<int>)
    ensures var a, b := StatsOf(s, n, job), StatsOf(s, n + 1, job);
      && b.pending == a.pending + RowValue(s, InPhase(job, Pending), n)
      && b.leased == a.leased + RowValue(s, InPhase(job, Leased), n)
      && b.complete == a.complete + RowValue(s, InPhase(job, Complete), n)
      && b.failed == a.failed + RowValue(s, InPhase(job, Failed), n)
      && b.dead == a.dead + RowValue(s, InPhase(job, Dead), n)
  {
    TotalSnoc(s, n, InPhase(job, Pending));
    TotalSnoc(s, n, InPhase(job, Leased));
    TotalSnoc(s, n, InPhase(job, Complete));
    TotalSnoc(s, n, InPhase(job, Failed));
    TotalSnoc(s, n, InPhase(job, Dead));
  }

  /** A total of zero-or-one row values is zero exactly when no row has one. */
  lemma CountZeroIff(s: Sys, n: nat, w: (Item, seq<Grant>) -> int)
    requires Covers(s, n)
    requires forall i :: i in s.items ==> 0 <= w(s.items[i], GrantsOf(s, i)) <= 1
    ensures Total(s, n, w) >= 0
    ensures Total(s, n, w) == 0 <==> forall i :: i in s.items ==> w(s.items[i], GrantsOf(s, i)) == 0
  {
    var xs := RowValues(s, n, w);
    SumNonNegative(xs);
    if forall i :: i in s.items ==> w(s.items[i], GrantsOf(s, i)) == 0 {
      assert xs == seq(n, i => 0);
      SumScale(xs, xs, 0);
    } else {
      var i :| i in s.items && w(s.items[i], GrantsOf(s, i)) != 0;
      assert xs[i] != 0;
    }
  }

  /** The five phase counts add up to the number of the job's rows. */
  lemma {:induction false} PhasesAddUp(s: Sys, n: nat, job: int)
    ensures var st := StatsOf(s, n, Some(job));
      st.pending + st.leased + st.complete + st.failed + st.dead == Total(s, n, InJob(job))
  {
    if n > 0 {
      PhasesAddUp(s, n - 1, job);
      StatsSnoc(s, n - 1, Some(job));
      TotalSnoc(s, n - 1, InJob(job));
    }
  }

  ghost predicate AllIn(s: Sys, job: int, phases: set<Phase>) {
    forall i :: i in s.items && s.items[i].jobId == job ==> s.items[i].phase in phases
  }

  ghost predicate SomeIn(s: Sys, job: int, phase: Phase) {
    exists i :: i in s.items && s.items[i].jobId == job && s.items[i].phase == phase
  }

  ghost predicate HasRows(s: Sys, job: int) { exists i :: i in s.items && s.items[i].jobId == job }

  lemma PhaseCount(s: Sys, n: nat, job: int, phase: Phase)
    requires Covers(s, n)
    ensures Total(s, n, InPhase(Some(job), phase)) >= 0
    ensures Total(s, n, InPhase(Some(job), phase)) != 0 <==> SomeIn(s, job, phase)
  {
    CountZeroIff(s, n, InPhase(Some(job), phase));
  }

  lemma StatsMeaning(s: Sys, n: nat, job: int)
    requires Covers(s, n)
    ensures var st := StatsOf(s, n, Some(job));
      && st.pending >= 0 && st.leased >= 0 && st.complete >= 0 && st.failed >= 0 && st.dead >= 0
      && (st.pending != 0 <==> SomeIn(s, job, Pending)) && (st.leased != 0 <==> SomeIn(s, job, Leased))
      && (st.complete != 0 <==> SomeIn(s, job, Complete)) && (st.failed != 0 <==> SomeIn(s, job, Failed))
      && (st.dead != 0 <==> SomeIn(s, job, Dead))
  {
    PhaseCount(s, n, job, Pending);
    PhaseCount(s, n, job, Leased);
    PhaseCount(s, n, job, Complete);
    PhaseCount(s, n, job, Failed);
    PhaseCount(s, n, job, Dead);
  }

  /** The rows of a job avoid a phase exactly when none of them is in it. */
  lemma PhasesOf(s: Sys, job: int)
    requires Inv(s)
    ensures !SomeIn(s, job, Failed)
    ensures AllIn(s, job, {Complete}) <==>
      !SomeIn(s, job, Pending) && !SomeIn(s, job, Leased) && !SomeIn(s, job, Dead)
    ensures AllIn(s, job, {Complete, Dead}) <==> !SomeIn(s, job, Pending) && !SomeIn(s, job, Leased)
    ensures AllIn(s, job, {Pending}) <==>
      !SomeIn(s, job, Leased) && !SomeIn(s, job, Complete) && !SomeIn(s, job, Dead)
    ensures HasRows(s, job) <==> (SomeIn(s, job, Pending) || SomeIn(s, job, Leased)
                                  || SomeIn(s, job, Complete) || SomeIn(s, job, Dead))
  {
    NeverFailed(s);
  }

  /** The rows of a job in a phase. */
  ghost function RowsInPhase(items: map<int, Item>, job: int, phase: Phase): set<int> {
    set i | i in items && items[i].jobId == job && items[i].phase == phase
  }

  ghost function PhaseBelow(items: map<int, Item>, job: int, phase: Phase, n: int): set<int> {
    set i | i in RowsInPhase(items, job, phase) && 0 <= i < n
  }

  lemma PhaseBelowNext(items: map<int, Item>, job: int, phase: Phase, n: nat)
    ensures |PhaseBelow(items, job, phase, n + 1)|
         == |PhaseBelow(items, job, phase, n)| + if n in RowsInPhase(items, job, phase) then 1 else 0
  {
    hide RowsInPhase;
    assert PhaseBelow(items, job, phase, n + 1)
        == PhaseBelow(items, job, phase, n) + if n in RowsInPhase(items, job, phase) then {n} else {};
  }

  /** A phase count is the number of rows in that phase. */
  lemma {:induction false} PhaseCountIsRows(s: Sys, n: nat, job: int, phase: Phase)
    ensures Total(s, n, InPhase(Some(job), phase)) == |PhaseBelow(s.items, job, phase, n)|
  {
    if n == 0 {
      assert PhaseBelow(s.items, job, phase, 0) == {};
    } else {
      PhaseCountIsRows(s, n - 1, job, phase);
      TotalSnoc(s, n - 1, InPhase(Some(job), phase));
      PhaseBelowNext(s.items, job, phase, n - 1);
      hide Total, PhaseBelow;
    }
  }

  /** The report counts the complete rows of the job as successes and its dead rows as failures. */
  lemma ProgressCountsRows(s: Sys, n: nat, job: Job)
    requires Covers(s, n) && job.status != "cancelled" && HasRows(s, job.id)
    ensures var r := Progress(job, StatsOf(s, n, Some(job.id)));
      && r.success == |RowsInPhase(s.items, job.id, Complete)|
      && r.failure == |RowsInPhase(s.items, job.id, Dead)|
      && r.processed == r.success + r.failure && r.id == job.id
  {
    forall phase: Phase
      ensures Total(s, n, InPhase(Some(job.id), phase)) == |RowsInPhase(s.items, job.id, phase)|
    {
      PhaseCountIsRows(s, n, job.id, phase);
      assert PhaseBelow(s.items, job.id, phase, n) == RowsInPhase(s.items, job.id, phase);
    }
    CountIsPositive(s, n, job.id);
    hide Total, RowsInPhase, Covers, HasRows;
  }

  /** A job without rows, or cancelled, is reported as it is. */
  lemma NothingToReport(s: Sys, n: nat, job: Job)
    requires Covers(s, n) && (job.status == "cancelled" || !HasRows(s, job.id))
    ensures Progress(job, StatsOf(s, n, Some(job.id))) == job
  {
    if !HasRows(s, job.id) {
      PhasesAddUp(s, n, job.id);
      CountZeroIff(s, n, InJob(job.id));
    }
  }

  /** For a job with rows that is not cancelled: "completed" holds exactly when all its rows are
   *  complete, "completed_with_errors" exactly when all are terminal and some are dead, "pending"
   *  exactly when all are pending, and processed is success plus failure. */
  lemma StatusMeaning(s: Sys, n: nat, job: Job)
    requires Inv(s) && Covers(s, n) && job.status != "cancelled" && HasRows(s, job.id)
    ensures var r := Progress(job, StatsOf(s, n, Some(job.id)));
      && (r.status == "completed" <==> AllIn(s, job.id, {Complete}))
      && (r.status == "completed_with_errors" <==>
            AllIn(s, job.id, {Complete, Dead}) && SomeIn(s, job.id, Dead))
      && (r.status == "pending" <==> AllIn(s, job.id, {Pending}))
      && (r.status == "running" <==> !AllIn(s, job.id, {Pending}) && !AllIn(s, job.id, {Complete, Dead}))
      && r.processed == r.success + r.failure
  {
    hide Inv, SomeIn, AllIn, HasRows, Covers, Total;
    StatsMeaning(s, n, job.id);
    PhasesOf(s, job.id);
    var strings := ["completed", "completed_with_errors", "pending", "running"];
    assert |strings[0]| == 9 && |strings[1]| == 21 && |strings[2]| == 7 && |strings[3]| == 7;
    assert strings[2][0] == 'p' && strings[3][0] == 'r';
  }

  predicate NoInsertsFor(es: seq<Step>, job: int) {
    forall i :: 0 <= i < |es| && es[i].Insert? ==> es[i].row.jobId != job
  }

  lemma {:induction false} RowsOfJobFixed(s: Sys, es: seq<Step>, job: int, i: int)
    requires Inv(s) && ValidRun(s, es) && NoInsertsFor(es, job)
    requires i in Run(s, es).items && Run(s, es).items[i].jobId == job
    ensures i in s.items && s.items[i].jobId == job
    decreases |es|
  {
    hide Inv, Enabled;
    if es != [] {
      StepKeepsInv(s, es[0]);
      RowsOfJobFixed(Apply(s, es[0]), es[1..], job, i);
      assert es[0].Insert? ==> es[0].row.jobId != job;
      if !es[0].Insert? && es[0].id in s.items { InvRow(s, es[0].id); }
    }
  }

  /** While nothing new is scheduled for a job, its success and failure counts, hence its processed
   *  count, never go down. */
  lemma ProgressNeverGoesBack(s: Sys, es: seq<Step>, n: nat, job: Job)
    requires Inv(s) && ValidRun(s, es) && Covers(Run(s, es), n) && job.status != "cancelled"
    requires HasRows(s, job.id)
    ensures var before := Progress(job, StatsOf(s, n, Some(job.id)));
      var after := Progress(job, StatsOf(Run(s, es), n, Some(job.id)));
      before.success <= after.success && before.failure <= after.failure
      && before.processed <= after.processed
  {
    var t := Run(s, es);
    RunCovers(s, es, n);
    forall phase | phase == Complete || phase == Dead
      ensures Total(s, n, InPhase(Some(job.id), phase)) <= Total(t, n, InPhase(Some(job.id), phase))
    {
      var w := InPhase(Some(job.id), phase);
      forall i | 0 <= i < n
        ensures RowValues(s, n, w)[i] <= RowValues(t, n, w)[i]
      {
        if i in s.items && Terminal(s.items[i]) { TerminalIsForever(s, es, i); }
      }
      SumLe(RowValues(s, n, w), RowValues(t, n, w));
    }
    JobKeepsRows(s, es, job.id);
    CountIsPositive(s, n, job.id);
    CountIsPositive(t, n, job.id);
  }

  lemma JobKeepsRows(s: Sys, es: seq<Step>, job: int)
    requires Inv(s) && ValidRun(s, es) && HasRows(s, job)
    ensures HasRows(Run(s, es), job)
  {
    var i :| i in s.items && s.items[i].jobId == job;
    RowKeepsJob(s, es, i);
  }

  lemma {:induction false} RowKeepsJob(s: Sys, es: seq<Step>, i: int)
    requires Inv(s) && ValidRun(s, es) && i in s.items
    ensures i in Run(s, es).items && Run(s, es).items[i].jobId == s.items[i].jobId
    decreases |es|
  {
    hide Inv;
    if es != [] {
      StepKeepsInv(s, es[0]);
      RowKeepsJob(Apply(s, es[0]), es[1..], i);
      if !es[0].Insert? && es[0].id in s.items { InvRow(s, es[0].id); }
    }
  }

  lemma CountIsPositive(s: Sys, n: nat, job: int)
    requires Covers(s, n) && HasRows(s, job)
    ensures var st := StatsOf(s, n, Some(job));
      st.pending + st.leased + st.complete + st.failed + st.dead > 0
  {
    PhasesAddUp(s, n, job);
    CountZeroIff(s, n, InJob(job));
  }

  /** Once all rows of a job are terminal, and nothing new is scheduled for it, its progress report
   *  never changes again: "completed" and "completed_with_errors" are absorbing. */
  lemma FinishedIsAbsorbing(s: Sys, es: seq<Step>, n: nat, job: Job)
    requires Inv(s) && ValidRun(s, es) && NoInsertsFor(es, job.id) && Covers(Run(s, es), n)
    requires AllIn(s, job.id, {Complete, Dead})
    ensures Progress(job, StatsOf(Run(s, es), n, Some(job.id))) == Progress(job, StatsOf(s, n, Some(job.id)))
  {
    var t := Run(s, es);
    forall phase: Phase
      ensures Total(s, n, InPhase(Some(job.id), phase)) == Total(t, n, InPhase(Some(job.id), phase))
    {
      var w := InPhase(Some(job.id), phase);
      forall i | 0 <= i < n
        ensures RowValues(s, n, w)[i] == RowValues(t, n, w)[i]
      {
        if i in s.items && s.items[i].jobId == job.id {
          TerminalIsForever(s, es, i);
        } else if i in t.items && t.items[i].jobId == job.id {
          RowsOfJobFixed(s, es, job.id, i);
        }
      }
      assert RowValues(s, n, w) == RowValues(t, n, w);
    }
  }

  /** The step hands back the last row of the job that was not pending, with attempts left. */
  ghost predicate HandsBackTheOnlyActive(s: Sys, e: Step, job: int) {
    && e.GiveBack? && CallAccepted(s, e)
    && s.items[e.id].jobId == job && s.items[e.id].attempts < s.items[e.id].maxAttempts
    && forall i :: i in s.items && s.items[i].jobId == job && i != e.id ==> s.items[i].phase == Pending
  }

  lemma AllPendingAfterIff(s: Sys, e: Step, job: int)
    requires Inv(s) && Enabled(s, e) && !AllIn(s, job, {Pending})
    ensures AllIn(Apply(s, e), job, {Pending}) <==> HandsBackTheOnlyActive(s, e, job)
  {
    var t := Apply(s, e);
    if e.Insert? {
      var k :| k in s.items && s.items[k].jobId == job && s.items[k].phase != Pending;
      assert t.items[k] == s.items[k];
    } else if e.id in s.items {
      InvRow(s, e.id);
      OnlyItsRowChanges(s, e);
      hide Inv, Apply, Enabled, CallAccepted;
      RestPending(s, t, e.id, job);
    }
  }

  /** When only row r changes, the rows of the job come to be all pending exactly when all others were
   *  and r becomes so. */
  lemma RestPending(s: Sys, t: Sys, r: int, job: int)
    requires r in s.items && t.items.Keys == s.items.Keys && t.items[r].jobId == s.items[r].jobId
    requires forall i :: i in s.items && i != r ==> t.items[i] == s.items[i]
    requires !AllIn(s, job, {Pending})
    ensures AllIn(t, job, {Pending}) <==>
      && s.items[r].jobId == job && s.items[r].phase != Pending && t.items[r].phase == Pending
      && forall i :: i in s.items && s.items[i].jobId == job && i != r ==> s.items[i].phase == Pending
  {
    var k :| k in s.items && s.items[k].jobId == job && s.items[k].phase != Pending;
    assert k in t.items;
  }

  lemma OnlyItsRowChanges(s: Sys, e: Step)
    requires Enabled(s, e) && !e.Insert? && e.id in s.items && s.items[e.id].id == e.id
    ensures var t := Apply(s, e);
      && t.items.Keys == s.items.Keys && t.items[e.id].jobId == s.items[e.id].jobId
      && (forall i :: i in s.items && i != e.id ==> t.items[i] == s.items[i])
      && (t.items[e.id].phase == Pending <==>
           if e.GiveBack? && CallAccepted(s, e) then s.items[e.id].attempts < s.items[e.id].maxAttempts
           else s.items[e.id].phase == Pending && !e.Claim?)
  {
  }

  /** Over every step from every reachable state: a running job goes back to "pending" exactly when the
   *  step is an accepted failure with attempts left, on the only row of the job that was not pending. */
  lemma RunningFallsBackIff(s: Sys, e: Step, n: nat, job: Job)
    requires Inv(s) && Enabled(s, e) && Covers(Apply(s, e), n) && job.status != "cancelled"
    requires HasRows(s, job.id) && Progress(job, StatsOf(s, n, Some(job.id))).status == "running"
    ensures Progress(job, StatsOf(Apply(s, e), n, Some(job.id))).status == "pending"
      <==> HandsBackTheOnlyActive(s, e, job.id)
  {
    RunCoversStep(s, e, n);
    StepKeepsInv(s, e);
    JobKeepsRowsStep(s, e, job.id);
    hide Inv, Enabled, Apply, Covers, HasRows, AllIn, SomeIn, HandsBackTheOnlyActive, Progress, StatsOf;
    StatusMeaning(s, n, job);
    StatusMeaning(Apply(s, e), n, job);
    DifferentWords();
    AllPendingAfterIff(s, e, job.id);
  }

  lemma DifferentWords()
    ensures "running" != "pending" && "running"[0] == 'r' && "pending"[0] == 'p'
  {
    assert "running"[0] == 'r' && "pending"[0] == 'p';
  }

  lemma RunCoversStep(s: Sys, e: Step, n: nat)
    requires Enabled(s, e) && Covers(Apply(s, e), n)
    ensures Covers(s, n)
  {
    assert forall i :: i in s.items ==> i in Apply(s, e).items;
  }

  lemma JobKeepsRowsStep(s: Sys, e: Step, job: int)
    requires Inv(s) && Enabled(s, e) && HasRows(s, job)
    ensures HasRows(Apply(s, e), job)
  {
    hide Inv;
    var i :| i in s.items && s.items[i].jobId == job;
    InvRow(s, i);
    if !e.Insert? && e.id in s.items { InvRow(s, e.id); }
    assert i in Apply(s, e).items && Apply(s, e).items[i].jobId == job;
  }

  /** Once a row of the job is complete or dead, no run makes the job "pending" again. */
  lemma NeverPendingAfterTerminal(s: Sys, es: seq<Step>, n: nat, job: Job, i: int)
    requires Inv(s) && ValidRun(s, es) && Covers(Run(s, es), n) && job.status != "cancelled"
    requires i in s.items && s.items[i].jobId == job.id && Terminal(s.items[i])
    ensures Progress(job, StatsOf(Run(s, es), n, Some(job.id))).status != "pending"
  {
    TerminalIsForever(s, es, i);
    RunKeepsInv(s, es);
    var t := Run(s, es);
    hide Run, ValidRun, Inv, Progress, StatsOf, Covers;
    assert HasRows(t, job.id) && !AllIn(t, job.id, {Pending});
    StatusMeaning(t, n, job);
  }

  function SingleRow(it: Item, g: seq<Grant>): Sys { Sys(map[it.id := it], map[it.id := g], {}) }

  lemma SingleRowStatus(it: Item, g: seq<Grant>, job: Job)
    requires RowMatchesHistory(it, g) && it.id >= 1
    requires forall a, b :: 0 <= a < |g| && 0 <= b < |g| && g[a].token == g[b].token ==> a == b
    requires forall a :: 0 <= a < |g| ==> !g[a].fate.Fulfilled?
    requires job.id == it.jobId && job.status != "cancelled"
    ensures var r := Progress(job, StatsOf(SingleRow(it, g), it.id + 1, Some(job.id)));
      (it.phase == Pending ==> r.status == "pending") && (it.phase == Leased ==> r.status == "running")
  {
    var s := SingleRow(it, g);
    assert Inv(s);
    hide Inv, RowMatchesHistory;
    assert it.id in s.items && s.items[it.id].jobId == job.id;
    StatusMeaning(s, it.id + 1, job);
  }

  lemma ClaimThenHandBack(row: Item, owner: string, token: string, now: int, expires: int)
    requires FreshRow(row) && row.maxAttempts >= 2 && row.availableAt <= now < expires
    ensures var claim := Claim(row.id, owner, token, now, expires);
      var handBack := GiveBack(row.id, owner, token, now, now);
      var g := [Grant(owner, token, Outstanding)];
      var claimed := SingleRow(Claimed(row, owner, token, expires), g);
      && Enabled(SingleRow(row, []), claim) && Apply(SingleRow(row, []), claim) == claimed
      && CallAccepted(claimed, handBack)
      && Apply(claimed, handBack)
         == SingleRow(Released(Claimed(row, owner, token, expires), now), Settle(g, GivenBack))
  {
    assert [] + [Grant(owner, token, Outstanding)] == [Grant(owner, token, Outstanding)];
  }

  /** "running" on the other hand is not absorbing: a claim of the only row of a job makes the job
   *  running, and when the worker hands the row back the job is pending again. */
  lemma RunningMayFallBack(row: Item, owner: string, token: string, now: int, expires: int, job: Job)
    requires FreshRow(row) && row.maxAttempts >= 2 && row.availableAt <= now < expires
    requires job.id == row.jobId && job.status != "cancelled"
    ensures var claimed := Apply(SingleRow(row, []), Claim(row.id, owner, token, now, expires));
      var back := Apply(claimed, GiveBack(row.id, owner, token, now, now));
      && Progress(job, StatsOf(claimed, row.id + 1, Some(job.id))).status == "running"
      && Progress(job, StatsOf(back, row.id + 1, Some(job.id))).status == "pending"
  {
    hide Progress, StatsOf, Apply, Enabled, CallAccepted;
    ClaimThenHandBack(row, owner, token, now, expires);
    var it := Claimed(row, owner, token, expires);
    var g := [Grant(owner, token, Outstanding)];
    SingleRowStatus(it, g, job);
    SingleRowStatus(Released(it, now), Settle(g, GivenBack), job);
  }

  ghost function RowsBelow(items: map<int, Item>, n: int): set<int> { set i | i in items && 0 <= i < n }

  lemma RowsBelowNext(items: map<int, Item>, n: nat)
    ensures |RowsBelow(items, n + 1)| == |RowsBelow(items, n)| + if n in items then 1 else 0
  {
    assert RowsBelow(items, n + 1) == RowsBelow(items, n) + if n in items then {n} else {};
  }

  lemma {:induction false} PhasesAddUpToRows(s: Sys, n: nat)
    ensures var st := StatsOf(s, n, None);
      st.pending + st.leased + st.complete + st.failed + st.dead == |RowsBelow(s.items, n)|
  {
    if n == 0 {
      assert RowsBelow(s.items, n) == {};
    } else {
      PhasesAddUpToRows(s, n - 1);
      RowsBelowNext(s.items, n - 1);
      StatsSnoc(s, n - 1, None);
      hide RowsBelow;
    }
  }

  /** accounted_for equals the number of scheduled rows exactly when every row is terminal. */
  lemma AccountedForIffDrained(s: Sys, n: nat)
    requires Inv(s) && Covers(s, n)
    ensures AccountedFor(StatsOf(s, n, None)) <= |s.items|
    ensures AccountedFor(StatsOf(s, n, None)) == |s.items| <==> forall i :: i in s.items ==> Terminal(s.items[i])
  {
    hide Inv, Total;
    PhasesAddUpToRows(s, n);
    assert RowsBelow(s.items, n) == s.items.Keys;
    NoneInPhase(s, n, Pending);
    NoneInPhase(s, n, Leased);
    NoneInPhase(s, n, Failed);
    NeverFailed(s);
  }

  lemma NoneInPhase(s: Sys, n: nat, phase: Phase)
    requires Covers(s, n)
    ensures Total(s, n, InPhase(None, phase)) >= 0
    ensures Total(s, n, InPhase(None, phase)) == 0 <==> forall i :: i in s.items ==> s.items[i].phase != phase
  {
    CountZeroIff(s, n, InPhase(None, phase));
  }

  /** No row is ever in the `failed` phase. */
  lemma NeverFailed(s: Sys)
    requires Inv(s)
    ensures forall i :: i in s.items ==> s.items[i].phase != Failed
  {
    forall i | i in s.items ensures s.items[i].phase != Failed {
      InvRow(s, i);
    }
  }
}
