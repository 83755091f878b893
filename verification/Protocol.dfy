/** The crawl frontier as a lease protocol.
 *
 * The state is the table of frontier rows, the set of stored page keys, and, as history, for every
 * row the grants (leases) it has been given so far, oldest first, each with what became of it.
 * A step is one change of one row.  Both repositories take several such steps per call: see
 * InMemoryRepository for the dictionary-backed one and SqlTransactions for the transactional one.
 *
 * Every step carries the clock reading its caller used.  Readings of different steps are not
 * related to each other, so every result about runs covers workers whose clocks disagree, unless
 * it says otherwise.
 */
module Protocol {
  import opened Prelude

  /** Clock readings count microseconds, the resolution of the original's timestamps. */
  const SECOND := 1_000_000

  datatype Phase = Pending | Leased | Complete | Failed | Dead

  /** A frontier row, reduced to the columns the protocol reads or writes. */
  datatype Item = Item(
    id: int,
    jobId: int,
    url: string,
    key: string,
    priority: int,
    phase: Phase,
    attempts: int,
    maxAttempts: int,
    availableAt: int,
    owner: Option<string>,
    token: Option<string>,
    expiresAt: Option<int>)

  predicate Terminal(it: Item) { it.phase == Complete || it.phase == Dead }

  predicate LeaseUnexpired(it: Item, now: int) {
    it.expiresAt.Some? && it.expiresAt.value > now
  }

  predicate LeaseExpired(it: Item, now: int) {
    it.expiresAt.Some? && it.expiresAt.value < now
  }

  predicate IsDue(it: Item, now: int) {
    match it.phase
    case Pending => it.availableAt <= now
    case Leased => LeaseExpired(it, now)
    case _ => false
  }

  /** A claim may take this row. */
  predicate Claimable(it: Item, now: int) { it.attempts < it.maxAttempts && IsDue(it, now) }

  /** A claim must first retire this row: its last permitted lease ran out. */
  predicate Exhausted(it: Item, now: int) {
    it.phase == Leased && it.attempts >= it.maxAttempts && LeaseExpired(it, now)
  }

  /** The fence in front of every call that ends or extends a lease. */
  predicate Accepts(it: Item, owner: string, token: string, now: int) {
    && it.phase == Leased
    && it.owner == Some(owner)
    && it.token == Some(token)
    && LeaseUnexpired(it, now)
  }

  function Unleased(it: Item, phase: Phase): Item {
    it.(phase := phase, owner := None, token := None, expiresAt := None)
  }

  function Retired(it: Item, now: int): Item { Unleased(it, Dead).(availableAt := now) }

  function Claimed(it: Item, owner: string, token: string, expires: int): Item {
    it.(phase := Leased, owner := Some(owner), token := Some(token), expiresAt := Some(expires),
        attempts := it.attempts + 1)
  }

  function Renewed(it: Item, expires: int): Item { it.(expiresAt := Some(expires)) }

  function Completed(it: Item): Item { Unleased(it, Complete) }

  function Released(it: Item, availableAt: int): Item {
    Unleased(it, if it.attempts < it.maxAttempts then Pending else Dead).(availableAt := availableAt)
  }

  predicate FreshRow(it: Item) {
    && it.id >= 1 && it.maxAttempts >= 1
    && it.phase == Pending && it.attempts == 0
    && it.owner.None? && it.token.None? && it.expiresAt.None?
  }

  // ---- History ------------------------------------------------------------------------------

  /** What became of a grant: still held; ended by an accepted completion (with the key of the page
   *  saved in the same call, if any); ended by an accepted failure; taken over by a later claim;
   *  or ended because it ran out with the attempt budget spent. */
  datatype Fate = Outstanding | Fulfilled(page: Option<string>) | GivenBack | TakenOver | RanOut

  datatype Grant = Grant(owner: string, token: string, fate: Fate)

  function Settle(g: seq<Grant>, fate: Fate): (r: seq<Grant>)
    ensures |r| == |g|
    ensures forall a :: 0 <= a < |g| ==> r[a].token == g[a].token && r[a].owner == g[a].owner
  {
    if g == [] then g else g[|g| - 1 := g[|g| - 1].(fate := fate)]
  }

  /** The row is exactly what its history of grants says it should be. */
  ghost predicate RowMatchesHistory(it: Item, g: seq<Grant>) {
    && it.maxAttempts >= 1
    && it.attempts == |g| <= it.maxAttempts
    && (forall a :: 0 <= a < |g| - 1 ==> g[a].fate == GivenBack || g[a].fate == TakenOver)
    && (it.phase != Leased ==> it.owner.None? && it.token.None? && it.expiresAt.None?)
    && match it.phase
       case Pending => |g| < it.maxAttempts && (g != [] ==> g[|g| - 1].fate == GivenBack)
       case Leased =>
         && g != [] && g[|g| - 1].fate == Outstanding
         && it.owner == Some(g[|g| - 1].owner) && it.token == Some(g[|g| - 1].token)
         && it.expiresAt.Some?
       case Complete => g != [] && g[|g| - 1].fate.Fulfilled?
       case Dead =>
         && |g| == it.maxAttempts
         && (g[|g| - 1].fate == GivenBack || g[|g| - 1].fate == RanOut)
       case Failed => false
  }

  // ---- System -------------------------------------------------------------------------------

  datatype Sys = Sys(items: map<int, Item>, grants: map<int, seq<Grant>>, pages: set<string>)

  const EMPTY := Sys(map[], map[], {})

  datatype Step =
    | Insert(row: Item)
    | Reap(id: int, now: int)
    | Claim(id: int, owner: string, token: string, now: int, expires: int)
    | Renew(id: int, owner: string, token: string, now: int, expires: int)
    | Finish(id: int, owner: string, token: string, now: int, page: Option<string>)
    | GiveBack(id: int, owner: string, token: string, now: int, availableAt: int)

  ghost predicate Unused(g: map<int, seq<Grant>>, token: string) {
    forall i, a :: i in g && 0 <= a < |g[i]| ==> g[i][a].token != token
  }

  ghost predicate Scheduled(items: map<int, Item>, jobId: int, key: string) {
    exists i :: i in items && items[i].jobId == jobId && items[i].key == key
  }

  /** Calls that present a lease may arrive at any time with any arguments; the other steps are
   *  taken by the repository itself, under its own guards. */
  ghost predicate Enabled(s: Sys, e: Step) {
    match e
    case Insert(row) =>
      row.id !in s.items && FreshRow(row) && !Scheduled(s.items, row.jobId, row.key)
    case Reap(id, now) => id in s.items && Exhausted(s.items[id], now)
    case Claim(id, _, token, now, _) =>
      id in s.items && Claimable(s.items[id], now) && Unused(s.grants, token)
    case _ => true
  }

  /** Whether a call presenting a lease passes the fence. */
  predicate CallAccepted(s: Sys, e: Step) {
    (e.Renew? || e.Finish? || e.GiveBack?)
    && e.id in s.items && Accepts(s.items[e.id], e.owner, e.token, e.now)
  }

  function GrantsOf(s: Sys, id: int): seq<Grant> { if id in s.grants then s.grants[id] else [] }

  function Write(s: Sys, it: Item, g: seq<Grant>): Sys {
    s.(items := s.items[it.id := it], grants := s.grants[it.id := g])
  }

  function Apply(s: Sys, e: Step): Sys {
    if e.Insert? then Write(s, e.row, [])
    else if e.id !in s.items then s
    else
      var it := s.items[e.id];
      var g := GrantsOf(s, e.id);
      match e
      case Reap(_, now) => Write(s, Retired(it, now), Settle(g, RanOut))
      case Claim(_, owner, token, _, expires) =>
        var settled := if it.phase == Leased then Settle(g, TakenOver) else g;
        Write(s, Claimed(it, owner, token, expires), settled + [Grant(owner, token, Outstanding)])
      case Renew(_, _, _, _, expires) =>
        if CallAccepted(s, e) then Write(s, Renewed(it, expires), g) else s
      case Finish(_, _, _, _, page) =>
        if CallAccepted(s, e) then
          Write(s, Completed(it), Settle(g, Fulfilled(page)))
          .(pages := s.pages + (if page.Some? then {page.value} else {}))
        else s
      case GiveBack(_, _, _, _, availableAt) =>
        if CallAccepted(s, e) then Write(s, Released(it, availableAt), Settle(g, GivenBack)) else s
  }

  // ---- Invariant ----------------------------------------------------------------------------

  ghost predicate TokensUnique(g: map<int, seq<Grant>>) {
    forall i, a, j, b ::
      i in g && 0 <= a < |g[i]| && j in g && 0 <= b < |g[j]| && g[i][a].token == g[j][b].token
      ==> i == j && a == b
  }

  ghost predicate KeysUnique(items: map<int, Item>) {
    forall i, j ::
      i in items && j in items && items[i].jobId == items[j].jobId && items[i].key == items[j].key
      ==> i == j
  }

  /** A page named in an accepted completion is stored. */
  ghost predicate PagesStored(s: Sys) {
    forall i, a ::
      i in s.grants && 0 <= a < |s.grants[i]| && s.grants[i][a].fate.Fulfilled?
      && s.grants[i][a].fate.page.Some?
      ==> s.grants[i][a].fate.page.value in s.pages
  }

  ghost predicate Inv(s: Sys) {
    && s.grants.Keys == s.items.Keys
    && (forall i :: i in s.items ==>
          i >= 1 && s.items[i].id == i && RowMatchesHistory(s.items[i], s.grants[i]))
    && TokensUnique(s.grants)
    && KeysUnique(s.items)
    && PagesStored(s)
  }

  /** What the invariant says about one row. */
  lemma InvRow(s: Sys, i: int)
    requires Inv(s) && i in s.items
    ensures i >= 1 && s.items[i].id == i && i in s.grants && RowMatchesHistory(s.items[i], s.grants[i])
  {
  }

  /** The new history of a row repeats the old tokens and adds at most one, unused so far. */
  ghost predicate TokensKept(s: Sys, i: int, g: seq<Grant>)
    requires i in s.grants
  {
    && |s.grants[i]| <= |g| <= |s.grants[i]| + 1
    && (forall a :: 0 <= a < |s.grants[i]| ==> g[a].token == s.grants[i][a].token)
    && (|g| == |s.grants[i]| + 1 ==> Unused(s.grants, g[|g| - 1].token))
  }

  lemma WriteKeepsTokensUnique(grants: map<int, seq<Grant>>, s: Sys, i: int, g: seq<Grant>)
    requires grants == s.grants && TokensUnique(grants) && i in grants && TokensKept(s, i, g)
    ensures TokensUnique(grants[i := g])
  {
    var after: map<int, seq<Grant>> := grants[i := g];
    forall j: int, a: int, k: int, b: int | j in after && 0 <= a < |after[j]| && k in after && 0 <= b < |after[k]|
                        && after[j][a].token == after[k][b].token
      ensures j == k && a == b
    {
      // Each of the two positions is either an old one or the added grant.
      var oldA := j != i || a < |grants[j]|;
      var oldB := k != i || b < |grants[k]|;
      assert oldA ==> grants[j][a].token == after[j][a].token;
      assert oldB ==> grants[k][b].token == after[k][b].token;
    }
  }

  /** Pages named in the history g are among `page`. */
  predicate NamesOnly(g: seq<Grant>, page: Option<string>) {
    forall a :: 0 <= a < |g| && g[a].fate.Fulfilled? && g[a].fate.page.Some? ==>
      Some(g[a].fate.page.value) == page
  }

  /** Rewriting one row, without changing its identity, and its history, by settling the last grant
   *  or adding one with an unused token, keeps the invariant. */
  lemma WriteKeepsInv(s: Sys, it: Item, g: seq<Grant>, page: Option<string>)
    requires Inv(s) && it.id in s.items
    requires it.jobId == s.items[it.id].jobId && it.key == s.items[it.id].key
    requires RowMatchesHistory(it, g) && TokensKept(s, it.id, g) && NamesOnly(g, page)
    ensures Inv(Write(s, it, g).(pages := s.pages + (if page.Some? then {page.value} else {})))
  {
    hide RowMatchesHistory, TokensUnique, TokensKept;
    WriteKeepsTokensUnique(s.grants, s, it.id, g);
    InvRow(s, it.id);
  }

  lemma SettledRow(s: Sys, it: Item, fate: Fate, page: Option<string>)
    requires Inv(s) && it.id in s.items
    requires it.jobId == s.items[it.id].jobId && it.key == s.items[it.id].key
    requires RowMatchesHistory(it, Settle(s.grants[it.id], fate))
    requires NamesOnly(Settle(s.grants[it.id], fate), page)
    ensures Inv(Write(s, it, Settle(s.grants[it.id], fate))
                .(pages := s.pages + (if page.Some? then {page.value} else {})))
  {
    hide Inv, RowMatchesHistory, NamesOnly;
    assert it.id in s.grants by { InvRow(s, it.id); }
    WriteKeepsInv(s, it, Settle(s.grants[it.id], fate), page);
  }

  lemma ReapKeepsInv(s: Sys, id: int, now: int)
    requires Inv(s) && Enabled(s, Reap(id, now))
    ensures Inv(Apply(s, Reap(id, now)))
  {
    hide Inv;
    InvRow(s, id);
    SettledRow(s, Retired(s.items[id], now), RanOut, None);
    assert s.pages + {} == s.pages;
  }

  lemma ClaimKeepsInv(s: Sys, id: int, owner: string, token: string, now: int, expires: int)
    requires Inv(s) && Enabled(s, Claim(id, owner, token, now, expires))
    ensures Inv(Apply(s, Claim(id, owner, token, now, expires)))
  {
    hide Inv;
    InvRow(s, id);
    var it, g := s.items[id], s.grants[id];
    var settled := if it.phase == Leased then Settle(g, TakenOver) else g;
    WriteKeepsInv(s, Claimed(it, owner, token, expires), settled + [Grant(owner, token, Outstanding)], None);
    assert s.pages + {} == s.pages;
  }

  lemma RenewKeepsInv(s: Sys, e: Step)
    requires Inv(s) && e.Renew? && CallAccepted(s, e)
    ensures Inv(Apply(s, e))
  {
    hide Inv;
    InvRow(s, e.id);
    WriteKeepsInv(s, Renewed(s.items[e.id], e.expires), s.grants[e.id], None);
    assert s.pages + {} == s.pages;
  }

  lemma FinishKeepsInv(s: Sys, e: Step)
    requires Inv(s) && e.Finish? && CallAccepted(s, e)
    ensures Inv(Apply(s, e))
  {
    hide Inv;
    InvRow(s, e.id);
    SettledRow(s, Completed(s.items[e.id]), Fulfilled(e.page), e.page);
  }

  lemma GiveBackKeepsInv(s: Sys, e: Step)
    requires Inv(s) && e.GiveBack? && CallAccepted(s, e)
    ensures Inv(Apply(s, e))
  {
    hide Inv;
    InvRow(s, e.id);
    SettledRow(s, Released(s.items[e.id], e.availableAt), GivenBack, None);
    assert s.pages + {} == s.pages;
  }

  lemma InsertKeepsKeysUnique(items: map<int, Item>, row: Item)
    requires KeysUnique(items) && row.id !in items && !Scheduled(items, row.jobId, row.key)
    ensures KeysUnique(items[row.id := row])
  {
    var after := items[row.id := row];
    forall i, j | i in after && j in after && after[i].jobId == after[j].jobId && after[i].key == after[j].key
      ensures i == j
    {
      assert i in items && j == row.id ==> Scheduled(items, row.jobId, row.key);
      assert j in items && i == row.id ==> Scheduled(items, row.jobId, row.key);
    }
  }

  lemma InsertKeepsInv(s: Sys, row: Item)
    requires Inv(s) && Enabled(s, Insert(row))
    ensures Inv(Apply(s, Insert(row)))
  {
    assert RowMatchesHistory(row, []);
    assert KeysUnique(s.items[row.id := row]) by { InsertKeepsKeysUnique(s.items, row); }
    InsertKeepsGrants(s, row);
    hide RowMatchesHistory, KeysUnique, TokensUnique, PagesStored, Scheduled;
  }

  /** A row without history adds no token and no completion. */
  lemma InsertKeepsGrants(s: Sys, row: Item)
    requires Enabled(s, Insert(row)) && row.id !in s.grants && TokensUnique(s.grants) && PagesStored(s)
    ensures TokensUnique(Apply(s, Insert(row)).grants) && PagesStored(Apply(s, Insert(row)))
  {
    hide Scheduled;
  }

  lemma StepKeepsInv(s: Sys, e: Step)
    requires Inv(s) && Enabled(s, e)
    ensures Inv(Apply(s, e))
  {
    hide Inv;
    match e
    case Insert(row) => InsertKeepsInv(s, row);
    case Reap(id, now) => ReapKeepsInv(s, id, now);
    case Claim(id, owner, token, now, expires) => ClaimKeepsInv(s, id, owner, token, now, expires);
    case Renew(_, _, _, _, _) => if CallAccepted(s, e) { RenewKeepsInv(s, e); }
    case Finish(_, _, _, _, _) => if CallAccepted(s, e) { FinishKeepsInv(s, e); }
    case GiveBack(_, _, _, _, _) => if CallAccepted(s, e) { GiveBackKeepsInv(s, e); }
  }

  // ---- Runs ---------------------------------------------------------------------------------

  function Run(s: Sys, es: seq<Step>): Sys
    decreases |es|
  {
    if es == [] then s else Run(Apply(s, es[0]), es[1..])
  }

  ghost predicate ValidRun(s: Sys, es: seq<Step>)
    decreases |es|
  {
    es == [] || (Enabled(s, es[0]) && ValidRun(Apply(s, es[0]), es[1..]))
  }

  lemma {:induction false} RunKeepsInv(s: Sys, es: seq<Step>)
    requires Inv(s) && ValidRun(s, es)
    ensures Inv(Run(s, es))
    decreases |es|
  {
    hide Inv, Apply, Enabled;
    if es != [] {
      StepKeepsInv(s, es[0]);
      RunKeepsInv(Apply(s, es[0]), es[1..]);
    }
  }

  lemma {:induction false} RunAppend(s: Sys, a: seq<Step>, b: seq<Step>)
    ensures Run(s, a + b) == Run(Run(s, a), b)
    ensures ValidRun(s, a + b) <==> ValidRun(s, a) && ValidRun(Run(s, a), b)
    decreases |a|
  {
    hide Apply, Enabled;
    if a == [] {
      assert a + b == b;
    } else {
      assert (a + b)[0] == a[0] && (a + b)[1..] == a[1..] + b;
      RunAppend(Apply(s, a[0]), a[1..], b);
    }
  }

  lemma RunSnoc(s: Sys, a: seq<Step>, e: Step)
    ensures Run(s, a + [e]) == Apply(Run(s, a), e)
    ensures ValidRun(s, a + [e]) <==> ValidRun(s, a) && Enabled(Run(s, a), e)
  {
    hide Apply, Enabled;
    RunAppend(s, a, [e]);
    assert Run(Run(s, a), [e]) == Run(Apply(Run(s, a), e), []);
  }
}
