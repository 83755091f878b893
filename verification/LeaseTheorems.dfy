/** What the lease protocol guarantees over whole runs, for any number of workers and any
 *  interleaving of their calls. */
module LeaseTheorems {
  import opened Prelude
  import opened Sums
  import opened Protocol

  // ---- Fencing ------------------------------------------------------------------------------

  /** History only grows, and a settled grant stays as it was settled. */
  ghost predicate Extends(g: seq<Grant>, h: seq<Grant>) {
    |g| <= |h| && forall a :: 0 <= a < |g| ==>
      h[a].token == g[a].token && h[a].owner == g[a].owner
      && (g[a].fate == Outstanding || h[a].fate == g[a].fate)
  }

  lemma StepExtends(s: Sys, e: Step, i: int)
    requires Inv(s) && Enabled(s, e) && i in s.items && i in s.grants
    ensures i in Apply(s, e).items && i in Apply(s, e).grants
    ensures Extends(s.grants[i], Apply(s, e).grants[i])
  {
    hide Inv;
    InvRow(s, i);
    if !e.Insert? && e.id in s.items { InvRow(s, e.id); }
  }

  lemma {:induction false} RunExtends(s: Sys, es: seq<Step>, i: int)
    requires Inv(s) && ValidRun(s, es) && i in s.items && i in s.grants
    ensures i in Run(s, es).items && i in Run(s, es).grants
    ensures Extends(s.grants[i], Run(s, es).grants[i])
    decreases |es|
  {
    hide Inv, Apply, Enabled;
    if es != [] {
      StepKeepsInv(s, es[0]);
      StepExtends(s, es[0], i);
      RunExtends(Apply(s, es[0]), es[1..], i);
    }
  }

  /** The lease with this token was issued and is over: settled, taken over or run out. */
  ghost predicate Spent(s: Sys, token: string) {
    exists i, a :: i in s.grants && 0 <= a < |s.grants[i]|
      && s.grants[i][a].token == token && s.grants[i][a].fate != Outstanding
  }

  /** A call passes the fence exactly when it presents the newest grant of that very row, that grant
   *  is still outstanding, and it has not reached its deadline by the caller's clock. */
  lemma AcceptedIffNewestOutstanding(s: Sys, e: Step)
    requires Inv(s) && (e.Renew? || e.Finish? || e.GiveBack?)
    ensures CallAccepted(s, e) <==>
      (e.id in s.items && s.grants[e.id] != []
       && var newest := s.grants[e.id][|s.grants[e.id]| - 1];
          newest == Grant(e.owner, e.token, Outstanding)
          && s.items[e.id].expiresAt.Some? && s.items[e.id].expiresAt.value > e.now)
  {
    if e.id in s.items {
      InvRow(s, e.id);
    }
  }

  lemma InvKeys(s: Sys)
    requires Inv(s)
    ensures s.grants.Keys == s.items.Keys
  {
  }

  lemma SpentNotAccepted(s: Sys, e: Step)
    requires Inv(s) && (e.Renew? || e.Finish? || e.GiveBack?) && Spent(s, e.token)
    ensures !CallAccepted(s, e)
  {
    AcceptedIffNewestOutstanding(s, e);
  }

  /** Once a lease is over, no renewal, completion or failure presenting its token is ever accepted
   *  again, whatever the workers do and whatever their clocks say. */
  lemma SpentNeverAcceptedAgain(s: Sys, es: seq<Step>, e: Step)
    requires Inv(s) && ValidRun(s, es) && (e.Renew? || e.Finish? || e.GiveBack?) && Spent(s, e.token)
    ensures !CallAccepted(Run(s, es), e) && Apply(Run(s, es), e) == Run(s, es)
  {
    var i, a :| i in s.grants && 0 <= a < |s.grants[i]|
      && s.grants[i][a].token == e.token && s.grants[i][a].fate != Outstanding;
    hide Run, ValidRun, Enabled, Apply, CallAccepted;
    InvKeys(s);
    hide Inv;
    RunExtends(s, es, i);
    RunKeepsInv(s, es);
    assert Run(s, es).grants[i][a].token == e.token;
    SpentNotAccepted(Run(s, es), e);
    RejectedChangesNothing(Run(s, es), e);
  }

  lemma RejectedChangesNothing(s: Sys, e: Step)
    requires (e.Renew? || e.Finish? || e.GiveBack?) && !CallAccepted(s, e)
    ensures Apply(s, e) == s
  {
  }

  /** Every lease but the newest of a row is over, and on a terminal row so is the newest. */
  lemma SupersededIsSpent(s: Sys, i: int, a: int)
    requires Inv(s) && i in s.items && 0 <= a < |s.grants[i]|
    requires a < |s.grants[i]| - 1 || Terminal(s.items[i])
    ensures Spent(s, s.grants[i][a].token)
  {
    InvRow(s, i);
    assert s.grants[i][a].fate != Outstanding;
  }

  /** In any run, each issued lease is ended by at most one accepted call: after step i accepted a
   *  completion or failure with some token, no later step j with that token is accepted. */
  lemma AtMostOneAcceptance(s: Sys, es: seq<Step>, i: nat, j: nat)
    requires Inv(s) && ValidRun(s, es) && i < j < |es|
    requires es[i].Finish? || es[i].GiveBack?
    requires es[j].Renew? || es[j].Finish? || es[j].GiveBack?
    requires es[i].token == es[j].token
    requires CallAccepted(Run(s, es[..i]), es[i])
    ensures !CallAccepted(Run(s, es[..j]), es[j])
  {
    hide Run, ValidRun, Inv, Enabled;
    var before, between := es[..i], es[i + 1..j];
    assert es[..j] == (before + [es[i]]) + between;
    assert es == es[..j] + es[j..];
    RunAppend(s, es[..j], es[j..]);
    RunAppend(s, before + [es[i]], between);
    RunSnoc(s, before, es[i]);
    RunKeepsInv(s, before);
    AcceptanceSpends(Run(s, before), es[i]);
    SpentNeverAcceptedAgain(Apply(Run(s, before), es[i]), between, es[j]);
  }

  /** An accepted completion or failure ends the lease it presents. */
  lemma AcceptanceSpends(s: Sys, e: Step)
    requires Inv(s) && (e.Finish? || e.GiveBack?) && CallAccepted(s, e)
    ensures Inv(Apply(s, e)) && Spent(Apply(s, e), e.token)
  {
    StepKeepsInv(s, e);
    hide Inv;
    InvRow(s, e.id);
    var g := Apply(s, e).grants[e.id];
    assert g[|g| - 1].token == e.token && g[|g| - 1].fate != Outstanding;
  }

  /** Nobody can be accepted on a row that a claim could take at the same instant. */
  lemma AcceptedNotClaimable(it: Item, owner: string, token: string, now: int)
    ensures !(Accepts(it, owner, token, now) && (Claimable(it, now) || Exhausted(it, now)))
  {
  }

  lemma StepKeepsTerminal(s: Sys, e: Step, i: int)
    requires Inv(s) && Enabled(s, e) && i in s.items && Terminal(s.items[i])
    ensures i in Apply(s, e).items && Apply(s, e).items[i] == s.items[i]
  {
    hide Inv;
    if !e.Insert? && e.id in s.items { InvRow(s, e.id); }
  }

  /** Completed and dead rows never change again; in particular scheduling never resets them. */
  lemma {:induction false} TerminalIsForever(s: Sys, es: seq<Step>, i: int)
    requires Inv(s) && ValidRun(s, es) && i in s.items && Terminal(s.items[i])
    ensures i in Run(s, es).items && Run(s, es).items[i] == s.items[i]
    decreases |es|
  {
    hide Inv, Apply, Enabled;
    if es != [] {
      StepKeepsInv(s, es[0]);
      StepKeepsTerminal(s, es[0], i);
      TerminalIsForever(Apply(s, es[0]), es[1..], i);
    }
  }

  // ---- Totals over rows ---------------------------------------------------------------------

  function RowValue(s: Sys, w: (Item, seq<Grant>) -> int, i: int): int {
    if i in s.items then w(s.items[i], GrantsOf(s, i)) else 0
  }

  function RowValues(s: Sys, n: nat, w: (Item, seq<Grant>) -> int): seq<int> {
    seq(n, i => RowValue(s, w, i))
  }

  /** The total of a per-row quantity over the rows with ids below n. */
  function Total(s: Sys, n: nat, w: (Item, seq<Grant>) -> int): int { Sum(RowValues(s, n, w)) }

  ghost predicate Covers(s: Sys, n: nat) { forall i :: i in s.items ==> 0 <= i < n }

  function StepId(e: Step): int { if e.Insert? then e.row.id else e.id }

  /** A step changes a total by exactly the change at its own row. */
  lemma TotalStep(s: Sys, e: Step, n: nat, w: (Item, seq<Grant>) -> int)
    requires Inv(s) && Covers(Apply(s, e), n)
    ensures Total(Apply(s, e), n, w)
            == Total(s, n, w) - RowValue(s, w, StepId(e)) + RowValue(Apply(s, e), w, StepId(e))
  {
    hide Inv;
    if !e.Insert? && e.id in s.items { InvRow(s, e.id); }
    var xs, ys := RowValues(s, n, w), RowValues(Apply(s, e), n, w);
    if 0 <= StepId(e) < n {
      SumUpdate(xs, ys, StepId(e));
    } else {
      assert xs == ys;
    }
  }

  lemma {:induction false} RunCovers(s: Sys, es: seq<Step>, n: nat)
    requires Covers(Run(s, es), n)
    ensures Covers(s, n)
    decreases |es|
  {
    if es != [] {
      RunCovers(Apply(s, es[0]), es[1..], n);
      assert forall i :: i in s.items ==> i in Apply(s, es[0]).items;
    }
  }

  // ---- Termination --------------------------------------------------------------------------

  function Weight(it: Item, g: seq<Grant>): int {
    match it.phase
    case Pending => 2 * (it.maxAttempts - it.attempts)
    case Leased => 2 * (it.maxAttempts - it.attempts) + 1
    case _ => 0
  }

  function Budget(it: Item, g: seq<Grant>): int { 2 * it.maxAttempts }

  /** The step changed a row: it is one of the repository's own, or a call that was accepted. */
  predicate Taken(s: Sys, e: Step) { e.Insert? || e.Reap? || e.Claim? || CallAccepted(s, e) }

  /** How many steps of the run of the given kind were taken. */
  function CountTaken(s: Sys, es: seq<Step>, kind: Step -> bool): nat
    decreases |es|
  {
    if es == [] then 0
    else (if kind(es[0]) && Taken(s, es[0]) then 1 else 0) + CountTaken(Apply(s, es[0]), es[1..], kind)
  }

  /** Steps that take, end or retire a lease. */
  predicate IsMove(e: Step) { e.Reap? || e.Claim? || e.Finish? || e.GiveBack? }
  predicate IsClaim(e: Step) { e.Claim? }
  predicate IsFinish(e: Step) { e.Finish? }
  predicate IsGiveBack(e: Step) { e.GiveBack? }

  lemma {:induction false} CountAppend(s: Sys, a: seq<Step>, b: seq<Step>, kind: Step -> bool)
    ensures CountTaken(s, a + b, kind) == CountTaken(s, a, kind) + CountTaken(Run(s, a), b, kind)
    decreases |a|
  {
    if a == [] {
      assert a + b == b;
    } else {
      assert (a + b)[0] == a[0] && (a + b)[1..] == a[1..] + b;
      CountAppend(Apply(s, a[0]), a[1..], b, kind);
    }
  }

  lemma {:induction false} CountNone(s: Sys, es: seq<Step>, kind: Step -> bool)
    requires forall i :: 0 <= i < |es| ==> !kind(es[i])
    ensures CountTaken(s, es, kind) == 0
    decreases |es|
  {
    if es != [] { CountNone(Apply(s, es[0]), es[1..], kind); }
  }

  lemma {:induction false} CountAllClaims(s: Sys, es: seq<Step>, kind: Step -> bool)
    requires forall i :: 0 <= i < |es| ==> es[i].Claim? && kind(es[i])
    ensures CountTaken(s, es, kind) == |es|
    decreases |es|
  {
    if es != [] { CountAllClaims(Apply(s, es[0]), es[1..], kind); }
  }

  lemma {:induction false} CountSubkind(s: Sys, es: seq<Step>, kind: Step -> bool, wider: Step -> bool)
    requires forall e :: kind(e) ==> wider(e)
    ensures CountTaken(s, es, kind) <= CountTaken(s, es, wider)
    decreases |es|
  {
    if es != [] { CountSubkind(Apply(s, es[0]), es[1..], kind, wider); }
  }

  predicate NoInserts(es: seq<Step>) { forall i :: 0 <= i < |es| ==> !es[i].Insert? }

  lemma StepLowersWeight(s: Sys, e: Step, n: nat)
    requires Inv(s) && Enabled(s, e) && !e.Insert? && Covers(s, n)
    ensures Covers(Apply(s, e), n)
    ensures Total(Apply(s, e), n, Weight) <= Total(s, n, Weight) - (if IsMove(e) && Taken(s, e) then 1 else 0)
  {
    hide Inv, Total;
    if e.id in s.items { InvRow(s, e.id); }
    TotalStep(s, e, n, Weight);
  }

  /** Without new scheduling, the claims, retirements, completions and accepted failures of a run
   *  are at most the drop in total rank, hence at most twice the total attempt budget. */
  lemma {:induction false} MovesBoundedByRank(s: Sys, es: seq<Step>, n: nat)
    requires Inv(s) && ValidRun(s, es) && NoInserts(es) && Covers(s, n)
    ensures Covers(Run(s, es), n)
    ensures CountTaken(s, es, IsMove) + Total(Run(s, es), n, Weight) <= Total(s, n, Weight)
    ensures 0 <= Total(Run(s, es), n, Weight)
    ensures Total(s, n, Weight) <= Total(s, n, Budget)
    decreases |es|
  {
    WeightWithinBudget(s, n);
    hide Inv, Apply, Enabled, Total, Covers, Taken;
    if es != [] {
      StepKeepsInv(s, es[0]);
      StepLowersWeight(s, es[0], n);
      MovesBoundedByRank(Apply(s, es[0]), es[1..], n);
    }
  }

  lemma WeightWithinBudget(s: Sys, n: nat)
    requires Inv(s)
    ensures 0 <= Total(s, n, Weight) <= Total(s, n, Budget)
  {
    forall i | 0 <= i < n
      ensures 0 <= RowValues(s, n, Weight)[i] <= RowValues(s, n, Budget)[i]
    {
      if i in s.items { InvRow(s, i); }
    }
    SumLe(RowValues(s, n, Weight), RowValues(s, n, Budget));
    SumNonNegative(RowValues(s, n, Weight));
  }

  /** The rank is used up exactly when every row is terminal. */
  lemma RankZeroIffDrained(s: Sys, n: nat)
    requires Inv(s) && Covers(s, n)
    ensures Total(s, n, Weight) == 0 <==> forall i :: i in s.items ==> Terminal(s.items[i])
  {
    var ws := RowValues(s, n, Weight);
    hide Inv;
    forall i | 0 <= i < n
      ensures 0 <= ws[i] && (ws[i] == 0 <==> i !in s.items || Terminal(s.items[i]))
    {
      if i in s.items { InvRow(s, i); }
    }
    SumNonNegative(ws);
    if forall i :: i in s.items ==> Terminal(s.items[i]) {
      SumLe(ws, seq(n, i => 0));
      SumScale(ws, seq(n, i => 0), 0);
    }
  }

  // ---- Conservation -------------------------------------------------------------------------

  datatype Kind = Held | Done | Returned | Lost

  function KindOf(f: Fate): Kind {
    match f
    case Outstanding => Held
    case Fulfilled(_) => Done
    case GivenBack => Returned
    case TakenOver => Lost
    case RanOut => Lost
  }

  function Tally(g: seq<Grant>, k: Kind): int {
    if g == [] then 0
    else Tally(g[..|g| - 1], k) + (if KindOf(g[|g| - 1].fate) == k then 1 else 0)
  }

  function Attempts(it: Item, g: seq<Grant>): int { it.attempts }
  function HeldGrants(it: Item, g: seq<Grant>): int { Tally(g, Held) }
  function DoneGrants(it: Item, g: seq<Grant>): int { Tally(g, Done) }
  function ReturnedGrants(it: Item, g: seq<Grant>): int { Tally(g, Returned) }
  function LostGrants(it: Item, g: seq<Grant>): int { Tally(g, Lost) }
  function IsLeased(it: Item, g: seq<Grant>): int { if it.phase == Leased then 1 else 0 }
  function IsComplete(it: Item, g: seq<Grant>): int { if it.phase == Complete then 1 else 0 }

  lemma {:induction false} TallyPartition(g: seq<Grant>)
    ensures Tally(g, Held) + Tally(g, Done) + Tally(g, Returned) + Tally(g, Lost) == |g|
    ensures forall k :: Tally(g, k) >= 0
    ensures (forall a :: 0 <= a < |g| ==> g[a].fate == GivenBack || g[a].fate == TakenOver)
            ==> Tally(g, Held) == 0 && Tally(g, Done) == 0
  {
    if g != [] {
      TallyPartition(g[..|g| - 1]);
    }
  }

  lemma RowConservation(it: Item, g: seq<Grant>)
    requires RowMatchesHistory(it, g)
    ensures it.attempts == Tally(g, Done) + Tally(g, Returned) + Tally(g, Lost) + Tally(g, Held)
    ensures Tally(g, Held) == IsLeased(it, g) && Tally(g, Done) == IsComplete(it, g)
  {
    TallyPartition(g);
    if g != [] { TallyPartition(g[..|g| - 1]); }
  }

  /** Leases issued = completions + accepted failures + leases lost + leases currently held, and
   *  the held ones are exactly the leased rows, the completions exactly the complete rows. */
  lemma LeaseConservation(s: Sys, n: nat)
    requires Inv(s)
    ensures Total(s, n, Attempts)
            == Total(s, n, DoneGrants) + Total(s, n, ReturnedGrants)
               + Total(s, n, LostGrants) + Total(s, n, IsLeased)
    ensures Total(s, n, HeldGrants) == Total(s, n, IsLeased)
    ensures Total(s, n, DoneGrants) == Total(s, n, IsComplete)
  {
    var held, done := RowValues(s, n, HeldGrants), RowValues(s, n, DoneGrants);
    var returned, lost := RowValues(s, n, ReturnedGrants), RowValues(s, n, LostGrants);
    forall i | i in s.items
      ensures RowValue(s, Attempts, i) == RowValue(s, DoneGrants, i) + RowValue(s, ReturnedGrants, i)
                + RowValue(s, LostGrants, i) + RowValue(s, HeldGrants, i)
      ensures RowValue(s, HeldGrants, i) == RowValue(s, IsLeased, i)
      ensures RowValue(s, DoneGrants, i) == RowValue(s, IsComplete, i)
    {
      InvRow(s, i);
      RowConservation(s.items[i], s.grants[i]);
    }
    assert held == RowValues(s, n, IsLeased) && done == RowValues(s, n, IsComplete);
    var over := seq(n, i requires 0 <= i < n => done[i] + returned[i]);
    var ended := seq(n, i requires 0 <= i < n => over[i] + lost[i]);
    SumPlus(done, returned, over);
    SumPlus(over, lost, ended);
    SumPlus(ended, held, RowValues(s, n, Attempts));
  }

  lemma SettleTally(g: seq<Grant>, f: Fate, k: Kind)
    requires g != []
    ensures Tally(Settle(g, f), k)
            == Tally(g, k) - (if KindOf(g[|g| - 1].fate) == k then 1 else 0)
               + (if KindOf(f) == k then 1 else 0)
  {
    var r := Settle(g, f);
    assert r[..|g| - 1] == g[..|g| - 1];
  }

  lemma StepAttempts(s: Sys, e: Step, n: nat)
    requires Inv(s) && Enabled(s, e) && Covers(Apply(s, e), n)
    ensures Total(Apply(s, e), n, Attempts)
            == Total(s, n, Attempts) + (if e.Claim? then 1 else 0)
  {
    hide Inv, Total;
    TotalStep(s, e, n, Attempts);
    if !e.Insert? && e.id in s.items { InvRow(s, e.id); }
  }

  lemma StepCompletes(s: Sys, e: Step, n: nat)
    requires Inv(s) && Enabled(s, e) && Covers(Apply(s, e), n)
    ensures Total(Apply(s, e), n, IsComplete)
            == Total(s, n, IsComplete) + (if e.Finish? && CallAccepted(s, e) then 1 else 0)
  {
    hide Inv, Total;
    TotalStep(s, e, n, IsComplete);
    if !e.Insert? && e.id in s.items { InvRow(s, e.id); }
  }

  /** What a taken step does to the returned grants of its row. */
  lemma RowReturns(s: Sys, e: Step)
    requires Inv(s) && Enabled(s, e) && !e.Insert? && e.id in s.items
    ensures RowValue(Apply(s, e), ReturnedGrants, e.id) == RowValue(s, ReturnedGrants, e.id)
            + (if e.GiveBack? && CallAccepted(s, e) then 1 else 0)
  {
    hide Inv;
    InvRow(s, e.id);
    hide Settle;
    var it, g := s.items[e.id], s.grants[e.id];
    match e
    case Reap(_, _) => SettleTally(g, RanOut, Returned);
    case Finish(_, _, _, _, page) => if CallAccepted(s, e) { SettleTally(g, Fulfilled(page), Returned); }
    case GiveBack(_, _, _, _, _) => if CallAccepted(s, e) { SettleTally(g, GivenBack, Returned); }
    case Claim(_, owner, token, _, _) => ClaimReturnsNothing(s, e);
    case Renew(_, _, _, _, _) =>
  }

  lemma ClaimReturnsNothing(s: Sys, e: Step)
    requires Inv(s) && Enabled(s, e) && e.Claim?
    ensures RowValue(Apply(s, e), ReturnedGrants, e.id) == RowValue(s, ReturnedGrants, e.id)
  {
    hide Inv;
    InvRow(s, e.id);
    hide Settle;
    var it, g := s.items[e.id], s.grants[e.id];
    var settled := if it.phase == Leased then Settle(g, TakenOver) else g;
    if it.phase == Leased { SettleTally(g, TakenOver, Returned); }
    var h := settled + [Grant(e.owner, e.token, Outstanding)];
    assert h[..|h| - 1] == settled;
  }

  lemma StepReturns(s: Sys, e: Step, n: nat)
    requires Inv(s) && Enabled(s, e) && Covers(Apply(s, e), n)
    ensures Total(Apply(s, e), n, ReturnedGrants)
            == Total(s, n, ReturnedGrants) + (if e.GiveBack? && CallAccepted(s, e) then 1 else 0)
  {
    hide Total;
    TotalStep(s, e, n, ReturnedGrants);
    if !e.Insert? && e.id in s.items {
      hide Inv, RowValue;
      RowReturns(s, e);
    }
  }

  /** Over any run, the attempt counts grow by the leases issued, the complete rows by the accepted
   *  completions, and the returned leases by the accepted failures, summed over all workers. */
  lemma {:induction false} RunCounts(s: Sys, es: seq<Step>, n: nat)
    requires Inv(s) && ValidRun(s, es) && Covers(Run(s, es), n)
    ensures Total(Run(s, es), n, Attempts) == Total(s, n, Attempts) + CountTaken(s, es, IsClaim)
    ensures Total(Run(s, es), n, IsComplete) == Total(s, n, IsComplete) + CountTaken(s, es, IsFinish)
    ensures Total(Run(s, es), n, ReturnedGrants)
            == Total(s, n, ReturnedGrants) + CountTaken(s, es, IsGiveBack)
    decreases |es|
  {
    hide Inv, Apply, Enabled, Total, Covers;
    if es != [] {
      StepKeepsInv(s, es[0]);
      RunCovers(Apply(s, es[0]), es[1..], n);
      StepAttempts(s, es[0], n);
      StepCompletes(s, es[0], n);
      StepReturns(s, es[0], n);
      RunCounts(Apply(s, es[0]), es[1..], n);
    }
  }

  // ---- Bounded recovery ---------------------------------------------------------------------

  /** The step used a clock reading of at most t, hands a row back for at most `delay` and leases it
   *  for at most `lease`. */
  predicate Timely(e: Step, t: int, delay: int, lease: int) {
    match e
    case Insert(row) => row.availableAt <= t
    case Reap(_, _) => true
    case Claim(_, _, _, _, expires) => expires <= t + lease
    case Renew(_, _, _, _, expires) => expires <= t + lease
    case Finish(_, _, _, _, _) => true
    case GiveBack(_, _, _, _, availableAt) => availableAt <= t + delay
  }

  ghost predicate Recoverable(s: Sys, t: int, delay: int, lease: int) {
    forall i :: i in s.items ==>
      && (s.items[i].phase == Pending ==> s.items[i].availableAt <= t + delay)
      && (s.items[i].phase == Leased ==>
            s.items[i].expiresAt.Some? && s.items[i].expiresAt.value <= t + lease)
  }

  lemma TimelyStepIsRecoverable(s: Sys, e: Step, t: int, delay: nat, lease: int)
    requires Inv(s) && Enabled(s, e) && Recoverable(s, t, delay, lease) && Timely(e, t, delay, lease)
    ensures Recoverable(Apply(s, e), t, delay, lease)
  {
    hide Inv;
    if !e.Insert? && e.id in s.items { InvRow(s, e.id); }
  }

  lemma {:induction false} TimelyRunIsRecoverable(s: Sys, es: seq<Step>, t: int, delay: nat, lease: int)
    requires Inv(s) && ValidRun(s, es) && Recoverable(s, t, delay, lease)
    requires forall i :: 0 <= i < |es| ==> Timely(es[i], t, delay, lease)
    ensures Recoverable(Run(s, es), t, delay, lease)
    decreases |es|
  {
    hide Inv, Apply, Enabled, Recoverable, Timely;
    if es != [] {
      StepKeepsInv(s, es[0]);
      TimelyStepIsRecoverable(s, es[0], t, delay, lease);
      TimelyRunIsRecoverable(Apply(s, es[0]), es[1..], t, delay, lease);
    }
  }

  /** No lost work: if no clock reading so far exceeded t, then once the clock has passed
   *  t + max(delay, lease) every row that is not terminal can be claimed or retired. */
  lemma IdleMakesEverythingRecoverable(s: Sys, es: seq<Step>, t: int, delay: nat, lease: int, now: int)
    requires ValidRun(EMPTY, es) && s == Run(EMPTY, es)
    requires forall i :: 0 <= i < |es| ==> Timely(es[i], t, delay, lease)
    requires now > t + Max(delay, lease)
    ensures forall i :: i in s.items ==>
      Terminal(s.items[i]) || Claimable(s.items[i], now) || Exhausted(s.items[i], now)
  {
    assert Inv(EMPTY) && Recoverable(EMPTY, t, delay, lease);
    hide Run, ValidRun, Inv, Timely;
    TimelyRunIsRecoverable(EMPTY, es, t, delay, lease);
    RunKeepsInv(EMPTY, es);
    forall i | i in s.items
      ensures Terminal(s.items[i]) || Claimable(s.items[i], now) || Exhausted(s.items[i], now)
    {
      InvRow(s, i);
    }
  }

  // ---- Attempt budget -----------------------------------------------------------------------

  /** The fetches made under each of a row's leases, given the fetches made under each token. */
  function FetchesOf(g: seq<Grant>, fetches: string -> nat): seq<int> {
    seq(|g|, a requires 0 <= a < |g| => fetches(g[a].token))
  }

  /** If no lease makes more than perLease fetches, a row costs at most maxAttempts * perLease
   *  fetches over all workers, crashes and reclaims. */
  lemma FetchBudget(s: Sys, i: int, fetches: string -> nat, perLease: nat)
    requires Inv(s) && i in s.items
    requires forall t :: fetches(t) <= perLease
    ensures s.items[i].attempts <= s.items[i].maxAttempts
    ensures Sum(FetchesOf(GrantsOf(s, i), fetches)) <= s.items[i].maxAttempts * perLease
  {
    InvRow(s, i);
    hide Inv, Sum;
    var it, g := s.items[i], s.grants[i];
    FetchSum(g, fetches, perLease);
    MultiplyLe(|g|, it.maxAttempts, perLease);
  }

  lemma MultiplyLe(a: nat, b: nat, c: nat)
    requires a <= b
    ensures a * c <= b * c
  {
  }

  lemma {:induction false} FetchSum(g: seq<Grant>, fetches: string -> nat, perLease: nat)
    requires forall t :: fetches(t) <= perLease
    ensures Sum(FetchesOf(g, fetches)) <= |g| * perLease
  {
    if g != [] {
      var n := |g| - 1;
      FetchSum(g[..n], fetches, perLease);
      assert FetchesOf(g, fetches)[..n] == FetchesOf(g[..n], fetches);
      assert FetchesOf(g, fetches)[n] == fetches(g[n].token);
      assert |g| * perLease == n * perLease + perLease;
    }
  }

  // ---- Pages --------------------------------------------------------------------------------

  predicate SavesPages(es: seq<Step>) {
    forall i :: 0 <= i < |es| && es[i].Finish? ==> es[i].page.Some?
  }

  ghost predicate CompleteHavePages(s: Sys) {
    forall i :: i in s.items && s.items[i].phase == Complete ==>
      var g := GrantsOf(s, i);
      g != [] && g[|g| - 1].fate.Fulfilled? && g[|g| - 1].fate.page.Some?
      && g[|g| - 1].fate.page.value in s.pages
  }

  lemma StepKeepsPages(s: Sys, e: Step, i: int)
    requires Inv(s) && CompleteHavePages(s) && Enabled(s, e) && (e.Finish? ==> e.page.Some?)
    requires i in Apply(s, e).items && Apply(s, e).items[i].phase == Complete
    ensures var t := Apply(s, e);
      var g := GrantsOf(t, i);
      g != [] && g[|g| - 1].fate.Fulfilled? && g[|g| - 1].fate.page.Some?
      && g[|g| - 1].fate.page.value in t.pages
  {
    hide Inv;
    if i in s.items { InvRow(s, i); }
    if !e.Insert? && e.id in s.items { InvRow(s, e.id); }
  }

  lemma StepKeepsAllPages(s: Sys, e: Step)
    requires Inv(s) && CompleteHavePages(s) && Enabled(s, e) && (e.Finish? ==> e.page.Some?)
    ensures CompleteHavePages(Apply(s, e))
  {
    hide Inv, Apply, Enabled;
    var t := Apply(s, e);
    forall i | i in t.items && t.items[i].phase == Complete
      ensures var g := GrantsOf(t, i);
        g != [] && g[|g| - 1].fate.Fulfilled? && g[|g| - 1].fate.page.Some?
        && g[|g| - 1].fate.page.value in t.pages
    {
      StepKeepsPages(s, e, i);
    }
  }

  /** When completions only arrive together with a page, every complete row has its page stored. */
  lemma {:induction false} CompleteImpliesPage(s: Sys, es: seq<Step>)
    requires Inv(s) && CompleteHavePages(s) && ValidRun(s, es) && SavesPages(es)
    ensures CompleteHavePages(Run(s, es))
    decreases |es|
  {
    hide Inv, Apply, Enabled, CompleteHavePages;
    if es != [] {
      StepKeepsInv(s, es[0]);
      StepKeepsAllPages(s, es[0]);
      CompleteImpliesPage(Apply(s, es[0]), es[1..]);
    }
  }

  // ---- Steps in columns ---------------------------------------------------------------------

  /** When a row may be taken: a pending one from its availability time on, a leased one once its
   *  deadline is past; by a claim while it has attempts left, by a reaping when it has none. */
  lemma TakenOnlyWhenDue(s: Sys, id: int, owner: string, token: string, now: int, expires: int)
    requires id in s.items
    ensures var it := s.items[id];
      var ranOut := it.phase == Leased && it.expiresAt.Some? && it.expiresAt.value < now;
      && (Enabled(s, Claim(id, owner, token, now, expires)) <==>
           && it.attempts < it.maxAttempts
           && ((it.phase == Pending && it.availableAt <= now) || ranOut)
           && forall i, a :: i in s.grants && 0 <= a < |s.grants[i]| ==> s.grants[i][a].token != token)
      && (Enabled(s, Reap(id, now)) <==> it.attempts >= it.maxAttempts && ranOut)
  {
  }

  /** A row may be inserted when its id and its URL in the job are new, and it is new work. */
  lemma InsertedOnlyWhenNew(s: Sys, row: Item)
    ensures Enabled(s, Insert(row)) <==>
      && row.id !in s.items && row.id >= 1
      && (forall i :: i in s.items ==> !(s.items[i].jobId == row.jobId && s.items[i].key == row.key))
      && row.maxAttempts >= 1 && row.phase == Pending && row.attempts == 0
      && row.owner == None && row.token == None && row.expiresAt == None
  {
  }

  /** The fence, in columns. */
  lemma AcceptedIffLeaseMatches(s: Sys, e: Step)
    requires e.Renew? || e.Finish? || e.GiveBack?
    ensures CallAccepted(s, e) <==>
      && e.id in s.items
      && var it := s.items[e.id];
         && it.phase == Leased && it.owner == Some(e.owner) && it.token == Some(e.token)
         && it.expiresAt.Some? && it.expiresAt.value > e.now
  {
  }

  /** What a claim, a reaping and an accepted call leave in the row they name; all other rows stay. */
  lemma WhatStepsWrite(s: Sys, e: Step)
    requires Inv(s) && Enabled(s, e) && !e.Insert? && e.id in s.items
    requires e.Claim? || e.Reap? || CallAccepted(s, e)
    ensures var it, it' := s.items[e.id], Apply(s, e).items[e.id];
      && (forall i :: i in s.items && i != e.id ==> Apply(s, e).items[i] == s.items[i])
      && it'.id == it.id && it'.jobId == it.jobId && it'.url == it.url && it'.key == it.key
      && it'.priority == it.priority && it'.maxAttempts == it.maxAttempts
      && it'.attempts == (if e.Claim? then it.attempts + 1 else it.attempts)
      && it'.phase == (if e.Claim? || e.Renew? then Leased
                       else if e.Finish? then Complete
                       else if e.GiveBack? && it.attempts < it.maxAttempts then Pending
                       else Dead)
      && it'.owner == (if e.Claim? then Some(e.owner) else if e.Renew? then it.owner else None)
      && it'.token == (if e.Claim? then Some(e.token) else if e.Renew? then it.token else None)
      && it'.expiresAt == (if e.Claim? || e.Renew? then Some(e.expires) else None)
      && it'.availableAt == (if e.Reap? then e.now else if e.GiveBack? then e.availableAt else it.availableAt)
  {
    InvRow(s, e.id);
    hide Inv;
  }

  /** A pending row is left alone until a claim whose clock has reached its availability time. */
  lemma {:induction false} PendingRowWaits(s: Sys, es: seq<Step>, i: int)
    requires Inv(s) && ValidRun(s, es) && i in s.items && s.items[i].phase == Pending
    requires forall k :: 0 <= k < |es| && es[k].Claim? && es[k].id == i ==> es[k].now < s.items[i].availableAt
    ensures i in Run(s, es).items && Run(s, es).items[i] == s.items[i]
    ensures forall k :: 0 <= k < |es| ==> !(es[k].Claim? && es[k].id == i) && !(es[k].Reap? && es[k].id == i)
    decreases |es|
  {
    if es != [] {
      PendingRowSurvives(s, es[0], i);
      StepKeepsInv(s, es[0]);
      hide Inv, Enabled, Apply;
      PendingRowWaits(Apply(s, es[0]), es[1..], i);
    }
  }

  lemma PendingRowSurvives(s: Sys, e: Step, i: int)
    requires Inv(s) && Enabled(s, e) && i in s.items && s.items[i].phase == Pending
    requires e.Claim? && e.id == i ==> e.now < s.items[i].availableAt
    ensures i in Apply(s, e).items && Apply(s, e).items[i] == s.items[i]
    ensures !(e.Claim? && e.id == i) && !(e.Reap? && e.id == i)
  {
    hide Inv;
    if !e.Insert? && e.id in s.items { InvRow(s, e.id); }
  }

  /** After an accepted failure with attempts left, no step takes the row before a claim that reads the
   *  clock at or after the availability time it was given. */
  lemma HandedBackRowWaits(s: Sys, e: Step, es: seq<Step>)
    requires Inv(s) && e.GiveBack? && CallAccepted(s, e) && s.items[e.id].attempts < s.items[e.id].maxAttempts
    requires ValidRun(Apply(s, e), es)
    requires forall k :: 0 <= k < |es| && es[k].Claim? && es[k].id == e.id ==> es[k].now < e.availableAt
    ensures forall k :: 0 <= k < |es| ==> !(es[k].Claim? && es[k].id == e.id) && !(es[k].Reap? && es[k].id == e.id)
    ensures e.id in Run(Apply(s, e), es).items && Run(Apply(s, e), es).items[e.id].phase == Pending
  {
    StepKeepsInv(s, e);
    WhatStepsWrite(s, e);
    assert e.id in Apply(s, e).items;
    hide Inv, Apply, Enabled, Run, ValidRun, CallAccepted;
    PendingRowWaits(Apply(s, e), es, e.id);
  }

  /** Nobody takes a leased row while its deadline is ahead. */
  lemma LiveLeaseIsNotTaken(s: Sys, e: Step, i: int)
    requires Inv(s) && Enabled(s, e) && (e.Claim? || e.Reap?) && e.id == i
    requires i in s.items && s.items[i].phase == Leased
    ensures s.items[i].expiresAt.Some? && s.items[i].expiresAt.value < e.now
  {
  }
}
