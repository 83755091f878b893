/** The frontier on a transactional database.
 *
 * Every repository call runs in a transaction of its own, as a few statements: lock the row if it
 * matches the fence, write the page, write the row, commit.  Statements of different transactions
 * interleave freely, and a transaction may be aborted at any point (a crash, an error, a rollback).
 * Assumed of the database: a row lock is exclusive and held to the end of the transaction, a locking
 * statement sees the latest committed version of the row it locks, SKIP LOCKED passes over locked
 * rows, a unique key being inserted blocks other inserts of it, and aborted writes vanish.
 *
 * `script` records, for the proof only, the protocol steps behind what was written.
 */
module SqlTransactions {
  import opened Prelude
  import opened Protocol
  import opened LeaseTheorems

  datatype Call =
    | SaveAndComplete(id: int, owner: string, token: string, page: string)
    | CompleteOnly(id: int, owner: string, token: string)
    | RenewLease(id: int, owner: string, token: string, extend: int)
    | FailItem(id: int, owner: string, token: string, delay: int)
    | AcquireBatch(owner: string, limit: nat, lease: int)
    | Schedule(jobId: int, urls: set<string>, priority: int, maxAttempts: int)

  datatype Pc = Begun | Locked | PageWritten | Claiming | Ended(result: bool)

  /** A transaction in flight: its call, the clock reading it took when it began and the one it took
   *  last, where it is, the rows and unique keys it has locked, the tokens it drew, and its uncommitted
   *  writes. */
  datatype Tx = Tx(
    call: Call, now: int, later: int, pc: Pc,
    locks: set<int>, keys: set<(int, string)>, tokens: set<string>,
    rows: map<int, Item>, pages: set<string>, script: seq<Step>)

  datatype Db = Db(items: map<int, Item>, pages: set<string>, txs: map<int, Tx>, script: seq<Step>)

  const NEW_DB := Db(map[], {}, map[], [])

  datatype Action =
    | Begin(tid: int, call: Call, now: int)
    | LockFenced(tid: int)
    | RejectFenced(tid: int)
    | UpsertPage(tid: int)
    | MarkComplete(tid: int)
    | MarkFailed(tid: int, later: int)
    | GuardedUpdate(tid: int)
    | ReapRow(tid: int, id: int)
    | SelectClaims(tid: int)
    | ClaimRow(tid: int, id: int, token: string)
    | InsertRow(tid: int, row: Item)
    | Finished(tid: int)
    | Commit(tid: int)
    | Abort(tid: int)

  ghost predicate Unlocked(db: Db, id: int) {
    forall t :: t in db.txs ==> id !in db.txs[t].locks
  }

  predicate Fenced(c: Call) { c.SaveAndComplete? || c.CompleteOnly? || c.RenewLease? || c.FailItem? }

  /** The row the call names exists and passes its fence, by the clock reading of the transaction. */
  predicate Matches(items: map<int, Item>, tx: Tx)
    requires Fenced(tx.call)
  {
    tx.call.id in items && Accepts(items[tx.call.id], tx.call.owner, tx.call.token, tx.now)
  }

  ghost predicate Can(db: Db, a: Action) {
    if a.Begin? then a.tid !in db.txs else a.tid in db.txs && MayDo(db, db.txs[a.tid], a)
  }

  ghost predicate MayDo(db: Db, tx: Tx, a: Action) {
    match a
    case Begin(_, _, _) => false
    case LockFenced(_) =>
      tx.pc.Begun? && (tx.call.SaveAndComplete? || tx.call.FailItem?)
      && Matches(db.items, tx) && Unlocked(db, tx.call.id)
    case RejectFenced(_) => tx.pc.Begun? && Fenced(tx.call) && !Matches(db.items, tx)
    case UpsertPage(_) => tx.pc.Locked? && tx.call.SaveAndComplete?
    case MarkComplete(_) => tx.pc.PageWritten?
    case MarkFailed(_, _) => tx.pc.Locked? && tx.call.FailItem?
    case GuardedUpdate(_) =>
      tx.pc.Begun? && (tx.call.CompleteOnly? || tx.call.RenewLease?)
      && Matches(db.items, tx) && Unlocked(db, tx.call.id)
    case ReapRow(_, id) =>
      tx.pc.Begun? && tx.call.AcquireBatch? && Unlocked(db, id)
      && id in db.items && Exhausted(db.items[id], tx.now)
    case SelectClaims(_) => tx.pc.Begun? && tx.call.AcquireBatch?
    case ClaimRow(_, id, token) =>
      tx.pc.Claiming? && tx.call.AcquireBatch? && |tx.tokens| < tx.call.limit && Unlocked(db, id)
      && id in db.items && Claimable(db.items[id], tx.now) && TokenFresh(db, token)
    case InsertRow(_, row) =>
      tx.pc.Begun? && tx.call.Schedule? && Asked(tx.call, row) && FreshRow(row) && Unlocked(db, row.id)
      && row.id !in db.items && KeyFree(db, row.jobId, row.key)
    case Finished(_) => tx.pc.Claiming? || (tx.pc.Begun? && tx.call.Schedule? && NothingToInsert(db, tx))
    case Commit(_) => tx.pc.Ended?
    case Abort(_) => true
  }

  predicate Asked(c: Call, row: Item)
    requires c.Schedule?
  {
    row.jobId == c.jobId && row.key in c.urls && row.priority == c.priority && row.maxAttempts == c.maxAttempts
  }

  /** Every URL asked for is stored already or has just been inserted. */
  ghost predicate NothingToInsert(db: Db, tx: Tx)
    requires tx.call.Schedule?
  {
    forall k :: k in tx.call.urls ==> Scheduled(db.items, tx.call.jobId, k) || (tx.call.jobId, k) in tx.keys
  }

  /** Tokens never repeat: not one of an issued lease, not one drawn by a transaction in flight. */
  ghost predicate TokenFresh(db: Db, token: string) {
    Unused(Run(EMPTY, db.script).grants, token) && forall t :: t in db.txs ==> token !in db.txs[t].tokens
  }

  /** An insert-or-ignore goes in only if the key is neither stored nor being inserted. */
  ghost predicate KeyFree(db: Db, jobId: int, key: string) {
    !Scheduled(db.items, jobId, key) && forall t :: t in db.txs ==> (jobId, key) !in db.txs[t].keys
  }

  function Wrote(tx: Tx, e: Step, row: Item): Tx {
    tx.(rows := tx.rows[StepId(e) := row], locks := tx.locks + {StepId(e)}, script := tx.script + [e])
  }

  function Put(db: Db, tid: int, tx: Tx): Db { db.(txs := db.txs[tid := tx]) }

  ghost function Next(db: Db, a: Action): Db
    requires Can(db, a)
  {
    if a.Begin? then Put(db, a.tid, Tx(a.call, a.now, a.now, Begun, {}, {}, {}, map[], {}, []))
    else
      var tx := db.txs[a.tid];
      var c := tx.call;
      match a
      case LockFenced(_) => Put(db, a.tid, tx.(pc := Locked, locks := tx.locks + {c.id}))
      case RejectFenced(_) => Put(db, a.tid, tx.(pc := Ended(false)))
      case UpsertPage(_) => Put(db, a.tid, tx.(pc := PageWritten, pages := {c.page}))
      case MarkComplete(_) => MarkCompleted(db, a.tid)
      case MarkFailed(_, later) => MarkedFailed(db, a.tid, later)
      case GuardedUpdate(_) => Updated(db, a.tid)
      case ReapRow(_, id) => Put(db, a.tid, Wrote(tx, Reap(id, tx.now), Retired(db.items[id], tx.now)))
      case SelectClaims(_) => Put(db, a.tid, tx.(pc := Claiming))
      case ClaimRow(_, id, token) =>
        var e := Claim(id, c.owner, token, tx.now, tx.now + c.lease);
        Put(db, a.tid, Wrote(tx, e, Claimed(db.items[id], c.owner, token, tx.now + c.lease))
                       .(tokens := tx.tokens + {token}))
      case InsertRow(_, row) =>
        Put(db, a.tid, Wrote(tx, Insert(row), row).(keys := tx.keys + {(row.jobId, row.key)}))
      case Finished(_) => Put(db, a.tid, tx.(pc := Ended(true)))
      case Commit(_) =>
        Db(db.items + tx.rows, db.pages + tx.pages, db.txs - {a.tid}, db.script + tx.script)
      case Abort(_) => db.(txs := db.txs - {a.tid})
  }

  ghost function MarkCompleted(db: Db, tid: int): Db
    requires Can(db, MarkComplete(tid))
  {
    var tx := db.txs[tid];
    if tx.call.SaveAndComplete? && tx.call.id in db.items then
      Put(db, tid, Wrote(tx, Finish(tx.call.id, tx.call.owner, tx.call.token, tx.now, Some(tx.call.page)),
                         Completed(db.items[tx.call.id])).(pc := Ended(true)))
    else db
  }

  /** The delay a failure call asks for, if the row may be tried again. */
  function DelayFor(it: Item, c: Call): int
    requires c.FailItem?
  {
    if it.attempts < it.maxAttempts then c.delay else 0
  }

  /** `later` is the second clock reading, taken once the row is locked; a row that has used up its
   *  attempts is not delayed any further. */
  ghost function MarkedFailed(db: Db, tid: int, later: int): Db
    requires Can(db, MarkFailed(tid, later))
  {
    var tx := db.txs[tid];
    var c := tx.call;
    if c.id in db.items then
      var it := db.items[c.id];
      var at := later + DelayFor(it, c);
      Put(db, tid, Wrote(tx, GiveBack(c.id, c.owner, c.token, tx.now, at), Released(it, at))
                   .(pc := Ended(true), later := later))
    else db
  }

  ghost function Updated(db: Db, tid: int): Db
    requires Can(db, GuardedUpdate(tid))
  {
    var tx := db.txs[tid];
    var c := tx.call;
    var it := db.items[c.id];
    if c.CompleteOnly? then
      Put(db, tid, Wrote(tx, Finish(c.id, c.owner, c.token, tx.now, None), Completed(it)).(pc := Ended(true)))
    else
      Put(db, tid, Wrote(tx, Renew(c.id, c.owner, c.token, tx.now, tx.now + c.extend),
                         Renewed(it, tx.now + c.extend)).(pc := Ended(true)))
  }

  // ---- Invariant ----------------------------------------------------------------------------

  // What a script writes and uses up.

  function StepPages(e: Step): set<string> {
    if e.Finish? && e.page.Some? then {e.page.value} else {}
  }

  function StepTokens(e: Step): set<string> { if e.Claim? then {e.token} else {} }

  function StepKeys(e: Step): set<(int, string)> { if e.Insert? then {(e.row.jobId, e.row.key)} else {} }

  function PagesOf(es: seq<Step>): set<string> {
    if es == [] then {} else PagesOf(es[..|es| - 1]) + StepPages(es[|es| - 1])
  }

  function TokensOf(es: seq<Step>): set<string> {
    if es == [] then {} else TokensOf(es[..|es| - 1]) + StepTokens(es[|es| - 1])
  }

  function KeysOf(es: seq<Step>): set<(int, string)> {
    if es == [] then {} else KeysOf(es[..|es| - 1]) + StepKeys(es[|es| - 1])
  }

  function IdsOf(es: seq<Step>): set<int> {
    if es == [] then {} else IdsOf(es[..|es| - 1]) + {StepId(es[|es| - 1])}
  }

  lemma Snoc(es: seq<Step>, e: Step)
    ensures PagesOf(es + [e]) == PagesOf(es) + StepPages(e)
    ensures TokensOf(es + [e]) == TokensOf(es) + StepTokens(e)
    ensures KeysOf(es + [e]) == KeysOf(es) + StepKeys(e)
    ensures IdsOf(es + [e]) == IdsOf(es) + {StepId(e)}
  {
    assert (es + [e])[..|es|] == es;
  }

  /** Seen from the committed state s, the written row is what the recorded step makes of it. */
  ghost predicate WriteJustified(s: Sys, rows: map<int, Item>, e: Step) {
    && Enabled(s, e) && Taken(s, e)
    && StepId(e) in rows && StepId(e) in Apply(s, e).items
    && rows[StepId(e)] == Apply(s, e).items[StepId(e)]
  }

  /** The step shares no row, token or key with the steps before it. */
  ghost predicate ApartFrom(es: seq<Step>, e: Step) {
    StepId(e) !in IdsOf(es) && StepTokens(e) !! TokensOf(es) && StepKeys(e) !! KeysOf(es)
  }

  ghost predicate ScriptOk(s: Sys, rows: map<int, Item>, es: seq<Step>) {
    forall a :: 0 <= a < |es| ==> WriteJustified(s, rows, es[a]) && ApartFrom(es[..a], es[a])
  }

  /** The protocol step a fenced call asks for, by its two clock readings. */
  predicate CarriesOut(e: Step, tx: Tx, items: map<int, Item>)
    requires Fenced(tx.call)
  {
    var c := tx.call;
    (e.Finish? || e.Renew? || e.GiveBack?)
    && e.id == c.id && e.owner == c.owner && e.token == c.token && e.now == tx.now
    && match c
       case SaveAndComplete(_, _, _, page) => e.Finish? && e.page == Some(page)
       case CompleteOnly(_, _, _) => e.Finish? && e.page == None
       case RenewLease(_, _, _, extend) => e.Renew? && e.expires == tx.now + extend
       case FailItem(id, _, _, _) =>
         e.GiveBack? && id in items && e.availableAt == tx.later + DelayFor(items[id], c)
  }

  ghost predicate PcOk(items: map<int, Item>, tx: Tx) {
    match tx.pc
    case Begun => tx.pages == {} && PagesOf(tx.script) == {} && (Fenced(tx.call) ==> tx.script == [])
    case Locked =>
      (tx.call.SaveAndComplete? || tx.call.FailItem?) && tx.script == [] && tx.pages == {}
      && tx.call.id in tx.locks && Matches(items, tx)
    case PageWritten =>
      tx.call.SaveAndComplete? && tx.script == [] && tx.pages == {tx.call.page}
      && tx.call.id in tx.locks && Matches(items, tx)
    case Claiming => tx.call.AcquireBatch? && tx.pages == {} && PagesOf(tx.script) == {}
    case Ended(ok) =>
      tx.pages == PagesOf(tx.script)
      && (Fenced(tx.call) ==>
            if ok then |tx.script| == 1 && CarriesOut(tx.script[0], tx, items) && tx.call.id in tx.locks
            else tx.script == [])
  }

  ghost predicate TxOk(s: Sys, tx: Tx) {
    && ScriptOk(s, tx.rows, tx.script)
    && tx.rows.Keys == IdsOf(tx.script) <= tx.locks
    && TokensOf(tx.script) <= tx.tokens && KeysOf(tx.script) <= tx.keys
    && (forall t :: t in tx.tokens ==> Unused(s.grants, t))
    && (forall k :: k in tx.keys ==> !Scheduled(s.items, k.0, k.1))
    && PcOk(s.items, tx)
  }

  ghost predicate Apart(x: Tx, y: Tx) { x.locks !! y.locks && x.keys !! y.keys && x.tokens !! y.tokens }

  ghost predicate DbInv(db: Db) {
    && ValidRun(EMPTY, db.script)
    && Run(EMPTY, db.script).items == db.items && Run(EMPTY, db.script).pages == db.pages
    && (forall t :: t in db.txs ==> TxOk(Run(EMPTY, db.script), db.txs[t]))
    && (forall t, u :: t in db.txs && u in db.txs && t != u ==> Apart(db.txs[t], db.txs[u]))
  }

  // ---- A step depends on its own row only ---------------------------------------------------

  ghost predicate Agree(s: Sys, t: Sys, i: int) {
    && (i in s.items <==> i in t.items) && (i in s.items ==> s.items[i] == t.items[i])
    && GrantsOf(s, i) == GrantsOf(t, i)
  }

  lemma LocalStep(s: Sys, t: Sys, e: Step)
    requires Inv(s) && Inv(t) && Enabled(s, e) && Taken(s, e) && Agree(s, t, StepId(e))
    requires e.Claim? ==> Unused(t.grants, e.token)
    requires e.Insert? ==> !Scheduled(t.items, e.row.jobId, e.row.key)
    ensures Enabled(t, e) && Taken(t, e)
    ensures StepId(e) in Apply(s, e).items
    ensures Apply(t, e).items == t.items[StepId(e) := Apply(s, e).items[StepId(e)]]
    ensures Apply(t, e).pages == t.pages + StepPages(e)
    ensures Agree(Apply(s, e), Apply(t, e), StepId(e))
    ensures forall i :: i != StepId(e) ==> Agree(t, Apply(t, e), i)
  {
    hide Inv;
    if !e.Insert? { InvRow(s, e.id); InvRow(t, e.id); }
  }

  /** A step uses up no token and no key but its own. */
  lemma LocalFreshness(t: Sys, e: Step, token: string, jobId: int, key: string)
    requires Inv(t) && Enabled(t, e)
    ensures Unused(t.grants, token) && !(e.Claim? && e.token == token) ==> Unused(Apply(t, e).grants, token)
    ensures !Scheduled(t.items, jobId, key) && !(e.Insert? && e.row.jobId == jobId && e.row.key == key)
            ==> !Scheduled(Apply(t, e).items, jobId, key)
  {
    hide Inv;
    if !e.Insert? && e.id in t.items { InvRow(t, e.id); }
  }

  /** From s to t, exactly the rows in ids changed, to what rows says. */
  ghost predicate RowsWritten(s: Sys, t: Sys, rows: map<int, Item>, ids: set<int>) {
    && (forall i :: i !in ids ==> Agree(s, t, i))
    && (forall i :: i in ids ==> i in t.items && i in rows && t.items[i] == rows[i])
  }

  /** From s to t, no more tokens and keys were used up. */
  ghost predicate UsedUp(s: Sys, t: Sys, tokens: set<string>, keys: set<(int, string)>) {
    && (forall x :: Unused(s.grants, x) && x !in tokens ==> Unused(t.grants, x))
    && (forall j, k :: !Scheduled(s.items, j, k) && (j, k) !in keys ==> !Scheduled(t.items, j, k))
  }

  ghost predicate Replayed(s: Sys, t: Sys, rows: map<int, Item>, es: seq<Step>) {
    && ValidRun(s, es) && t == Run(s, es) && Inv(t)
    && t.pages == s.pages + PagesOf(es)
    && RowsWritten(s, t, rows, IdsOf(es))
    && UsedUp(s, t, TokensOf(es), KeysOf(es))
  }

  lemma RowsWrittenStep(s: Sys, t: Sys, e: Step, rows: map<int, Item>, ids: set<int>)
    requires Inv(s) && Inv(t) && RowsWritten(s, t, rows, ids) && WriteJustified(s, rows, e)
    requires StepId(e) !in ids && Enabled(t, e)
    requires Apply(t, e).items == t.items[StepId(e) := Apply(s, e).items[StepId(e)]]
    requires forall i :: i != StepId(e) ==> Agree(t, Apply(t, e), i)
    ensures RowsWritten(s, Apply(t, e), rows, ids + {StepId(e)})
  {
    hide Inv, Enabled, Apply, Taken;
    var u := Apply(t, e);
    forall i | i !in ids + {StepId(e)} ensures Agree(s, u, i) {
      assert Agree(s, t, i) && Agree(t, u, i);
    }
    forall i | i in ids + {StepId(e)} ensures i in u.items && i in rows && u.items[i] == rows[i] {
      assert i != StepId(e) ==> Agree(t, u, i);
    }
  }

  lemma UsedUpStep(s: Sys, t: Sys, e: Step, tokens: set<string>, keys: set<(int, string)>)
    requires Inv(t) && Enabled(t, e) && UsedUp(s, t, tokens, keys)
    ensures UsedUp(s, Apply(t, e), tokens + StepTokens(e), keys + StepKeys(e))
  {
    hide Inv, Enabled, Apply, Unused, Scheduled;
    forall x | Unused(s.grants, x) && x !in tokens + StepTokens(e) ensures Unused(Apply(t, e).grants, x) {
      LocalFreshness(t, e, x, 0, "");
    }
    forall j, k | !Scheduled(s.items, j, k) && (j, k) !in keys + StepKeys(e)
      ensures !Scheduled(Apply(t, e).items, j, k)
    {
      LocalFreshness(t, e, "", j, k);
    }
  }

  /** A justified step apart from the steps before it is just as good after them. */
  lemma ReplayStep(s: Sys, t: Sys, rows: map<int, Item>, es: seq<Step>, e: Step)
    requires Inv(s) && Replayed(s, t, rows, es) && WriteJustified(s, rows, e) && ApartFrom(es, e)
    requires e.Claim? ==> Unused(s.grants, e.token)
    requires e.Insert? ==> !Scheduled(s.items, e.row.jobId, e.row.key)
    ensures Replayed(s, Apply(t, e), rows, es + [e])
  {
    hide Inv, Run, ValidRun, Unused, Scheduled, UsedUp, RowsWritten, Apply, Enabled, Taken, Agree,
         WriteJustified, StepTokens, StepKeys, StepPages, PagesOf, TokensOf, KeysOf, IdsOf;
    LocalAfter(s, t, rows, es, e);
    RunSnoc(s, es, e);
    StepKeepsInv(t, e);
    Snoc(es, e);
    RowsWrittenStep(s, t, e, rows, IdsOf(es));
    UsedUpStep(s, t, e, TokensOf(es), KeysOf(es));
    assert s.pages + PagesOf(es) + StepPages(e) == s.pages + PagesOf(es + [e]);
  }

  lemma LocalAfter(s: Sys, t: Sys, rows: map<int, Item>, es: seq<Step>, e: Step)
    requires Inv(s) && Inv(t) && WriteJustified(s, rows, e) && ApartFrom(es, e)
    requires RowsWritten(s, t, rows, IdsOf(es)) && UsedUp(s, t, TokensOf(es), KeysOf(es))
    requires e.Claim? ==> Unused(s.grants, e.token)
    requires e.Insert? ==> !Scheduled(s.items, e.row.jobId, e.row.key)
    ensures Enabled(t, e)
    ensures Apply(t, e).items == t.items[StepId(e) := Apply(s, e).items[StepId(e)]]
    ensures Apply(t, e).pages == t.pages + StepPages(e)
    ensures forall i :: i != StepId(e) ==> Agree(t, Apply(t, e), i)
  {
    hide Inv, Unused, Scheduled, Apply, Enabled, Taken, Agree;
    assert e.Claim? ==> e.token in StepTokens(e);
    assert e.Insert? ==> (e.row.jobId, e.row.key) in StepKeys(e);
    LocalStep(s, t, e);
  }

  /** Replaying a justified script from the committed state is a valid run that writes exactly the
   *  written rows and pages and uses up exactly the recorded tokens and keys. */
  lemma {:induction false} ReplayPrefix(s: Sys, rows: map<int, Item>, es: seq<Step>, k: nat)
    requires Inv(s) && ScriptOk(s, rows, es) && k <= |es|
    requires forall a :: 0 <= a < |es| && es[a].Claim? ==> Unused(s.grants, es[a].token)
    requires forall a :: 0 <= a < |es| && es[a].Insert? ==>
               !Scheduled(s.items, es[a].row.jobId, es[a].row.key)
    ensures Replayed(s, Run(s, es[..k]), rows, es[..k])
    decreases k
  {
    hide Inv, Unused, Scheduled, Enabled, Apply, Taken, WriteJustified, ApartFrom;
    if k == 0 {
      assert es[..0] == [];
      ReplayNothing(s, rows);
    } else {
      assert WriteJustified(s, rows, es[k - 1]) && ApartFrom(es[..k - 1], es[k - 1]);
      hide ScriptOk, Replayed, Run, ValidRun;
      ReplayPrefix(s, rows, es, k - 1);
      ReplayStep(s, Run(s, es[..k - 1]), rows, es[..k - 1], es[k - 1]);
      assert es[..k] == es[..k - 1] + [es[k - 1]];
      RunSnoc(s, es[..k - 1], es[k - 1]);
    }
  }

  lemma ReplayNothing(s: Sys, rows: map<int, Item>)
    requires Inv(s)
    ensures Replayed(s, Run(s, []), rows, [])
  {
    hide Inv, Unused, Scheduled;
    assert s.pages + {} == s.pages;
  }

  lemma {:induction false} TokensOfHas(es: seq<Step>, a: nat)
    requires a < |es|
    ensures StepTokens(es[a]) <= TokensOf(es) && StepKeys(es[a]) <= KeysOf(es) && StepId(es[a]) in IdsOf(es)
  {
    if a < |es| - 1 { TokensOfHas(es[..|es| - 1], a); }
  }

  /** The run a transaction's script makes from the committed state. */
  lemma ReplayAll(s: Sys, tx: Tx, t: Sys)
    requires Inv(s) && TxOk(s, tx) && t == Run(s, tx.script)
    ensures ValidRun(s, tx.script) && Inv(t)
    ensures t.items == s.items + tx.rows && t.pages == s.pages + PagesOf(tx.script)
    ensures forall i :: i !in tx.locks ==> Agree(s, t, i)
    ensures UsedUp(s, t, tx.tokens, tx.keys)
  {
    hide Run, ValidRun, Inv, Enabled, Apply, Taken, PcOk, Unused, Scheduled, ScriptOk;
    var es := tx.script;
    forall a | 0 <= a < |es|
      ensures es[a].Claim? ==> Unused(s.grants, es[a].token)
      ensures es[a].Insert? ==> !Scheduled(s.items, es[a].row.jobId, es[a].row.key)
    {
      TokensOfHas(es, a);
      assert es[a].Insert? ==> (es[a].row.jobId, es[a].row.key) in StepKeys(es[a]);
      assert es[a].Claim? ==> es[a].token in StepTokens(es[a]);
    }
    ReplayPrefix(s, tx.rows, es, |es|);
    assert es[..|es|] == es;
    RowsWrittenMerge(s, t, tx.rows, IdsOf(es));
  }

  lemma RowsWrittenMerge(s: Sys, t: Sys, rows: map<int, Item>, ids: set<int>)
    requires RowsWritten(s, t, rows, ids) && rows.Keys == ids
    ensures t.items == s.items + rows
  {
    forall i ensures i in t.items <==> i in s.items + rows {
      if i !in ids { assert Agree(s, t, i); }
    }
    forall i | i in t.items ensures t.items[i] == (s.items + rows)[i] {
      if i !in ids { assert Agree(s, t, i); }
    }
  }

  lemma JustifiedElsewhere(s: Sys, t: Sys, rows: map<int, Item>, e: Step)
    requires Inv(s) && Inv(t) && WriteJustified(s, rows, e) && Agree(s, t, StepId(e))
    requires e.Claim? ==> Unused(t.grants, e.token)
    requires e.Insert? ==> !Scheduled(t.items, e.row.jobId, e.row.key)
    ensures WriteJustified(t, rows, e)
  {
    hide Inv, Enabled, Apply, Taken, Agree;
    LocalStep(s, t, e);
  }

  /** Another transaction's pending writes stay justified across a commit it has nothing in common
   *  with. */
  lemma CommitKeepsOther(s: Sys, tx: Tx, t: Sys, other: Tx)
    requires Inv(s) && TxOk(s, tx) && t == Run(s, tx.script) && TxOk(s, other) && Apart(tx, other)
    ensures TxOk(t, other)
  {
    hide Run, ValidRun, Inv, Enabled, Apply, Taken, Unused, Scheduled, WriteJustified, ApartFrom;
    ReplayAll(s, tx, t);
    var es := other.script;
    forall a | 0 <= a < |es| ensures WriteJustified(t, other.rows, es[a]) {
      TokensOfHas(es, a);
      assert es[a].Claim? ==> es[a].token in StepTokens(es[a]);
      assert es[a].Insert? ==> (es[a].row.jobId, es[a].row.key) in StepKeys(es[a]);
      JustifiedElsewhere(s, t, other.rows, es[a]);
    }
    assert Fenced(other.call) && other.call.id in other.locks ==> Agree(s, t, other.call.id);
  }

  lemma EndedPages(s: Sys, tx: Tx)
    requires TxOk(s, tx) && tx.pc.Ended?
    ensures tx.pages == PagesOf(tx.script)
  {
  }

  lemma EmptyInv()
    ensures Inv(EMPTY)
  {
  }

  lemma CommitReplays(db: Db, tid: int, t: Sys)
    requires DbInv(db) && tid in db.txs && db.txs[tid].pc.Ended?
    requires t == Run(EMPTY, db.script + db.txs[tid].script)
    ensures ValidRun(EMPTY, db.script + db.txs[tid].script)
    ensures t == Run(Run(EMPTY, db.script), db.txs[tid].script)
    ensures t.items == db.items + db.txs[tid].rows && t.pages == db.pages + db.txs[tid].pages
  {
    hide Run, ValidRun, Inv, TxOk, Apart, PagesOf, Agree, UsedUp;
    var s, tx := Run(EMPTY, db.script), db.txs[tid];
    EmptyInv();
    assert TxOk(s, tx);
    EndedPages(s, tx);
    RunKeepsInv(EMPTY, db.script);
    RunAppend(EMPTY, db.script, tx.script);
    ReplayAll(s, tx, t);
  }

  lemma CommitKeepsInv(db: Db, tid: int)
    requires DbInv(db) && Can(db, Commit(tid))
    ensures DbInv(Next(db, Commit(tid)))
  {
    var tx := db.txs[tid];
    var db' := Db(db.items + tx.rows, db.pages + tx.pages, db.txs - {tid}, db.script + tx.script);
    assert db' == Next(db, Commit(tid));
    hide Run, ValidRun, TxOk, Apart, Next, Can;
    CommitReplays(db, tid, Run(EMPTY, db'.script));
    forall o | o in db'.txs ensures TxOk(Run(EMPTY, db'.script), db'.txs[o]) {
      OtherAcrossCommit(db, tid, o);
    }
  }

  lemma OtherAcrossCommit(db: Db, tid: int, o: int)
    requires DbInv(db) && tid in db.txs && o in db.txs && o != tid
    ensures TxOk(Run(Run(EMPTY, db.script), db.txs[tid].script), db.txs[o])
  {
    assert Inv(EMPTY);
    hide TxOk, Run, ValidRun, Inv;
    RunKeepsInv(EMPTY, db.script);
    var s, tx := Run(EMPTY, db.script), db.txs[tid];
    assert Apart(tx, db.txs[o]);
    CommitKeepsOther(s, tx, Run(s, tx.script), db.txs[o]);
  }

  // ---- The other statements -----------------------------------------------------------------

  /** A statement that writes one row: the new write is justified, and apart from the transaction's
   *  earlier writes. */
  lemma WroteIsOk(s: Sys, tx: Tx, e: Step, tx': Tx)
    requires TxOk(s, tx) && StepId(e) !in IdsOf(tx.script) && WriteJustified(s, tx'.rows, e)
    requires tx'.script == tx.script + [e]
    requires tx'.rows.Keys == tx.rows.Keys + {StepId(e)}
    requires forall i :: i in tx.rows ==> tx'.rows[i] == tx.rows[i]
    requires tx'.locks == tx.locks + {StepId(e)}
    requires tx'.tokens == tx.tokens + StepTokens(e) && tx'.keys == tx.keys + StepKeys(e)
    requires StepTokens(e) !! tx.tokens && StepKeys(e) !! tx.keys
    requires forall t :: t in StepTokens(e) ==> Unused(s.grants, t)
    requires forall k :: k in StepKeys(e) ==> !Scheduled(s.items, k.0, k.1)
    requires PcOk(s.items, tx')
    ensures TxOk(s, tx')
  {
    hide Enabled, Apply, Taken, PcOk, Unused, Scheduled, WriteJustified, ScriptOk, StepTokens, StepKeys, StepId;
    hide PagesOf, TokensOf, KeysOf, IdsOf;
    Snoc(tx.script, e);
    assert ApartFrom(tx.script, e);
    ScriptOkSnoc(s, tx.rows, tx'.rows, tx.script, e);
  }

  lemma JustifiedInMoreRows(s: Sys, rows: map<int, Item>, rows': map<int, Item>, e: Step)
    requires WriteJustified(s, rows, e) && forall i :: i in rows ==> i in rows' && rows'[i] == rows[i]
    ensures WriteJustified(s, rows', e)
  {
    hide Enabled, Apply, Taken;
  }

  lemma ScriptOkSnoc(s: Sys, rows: map<int, Item>, rows': map<int, Item>, es: seq<Step>, e: Step)
    requires ScriptOk(s, rows, es) && WriteJustified(s, rows', e) && ApartFrom(es, e)
    requires forall i :: i in rows ==> i in rows' && rows'[i] == rows[i]
    ensures ScriptOk(s, rows', es + [e])
  {
    hide WriteJustified, ApartFrom;
    var all := es + [e];
    forall a | 0 <= a < |all|
      ensures WriteJustified(s, rows', all[a]) && ApartFrom(all[..a], all[a])
    {
      assert all[..a] == es[..a];
      if a < |es| {
        JustifiedInMoreRows(s, rows, rows', es[a]);
      } else {
        assert es[..a] == es;
      }
    }
  }

  ghost function Committed(db: Db): Sys { Run(EMPTY, db.script) }

  lemma CommittedState(db: Db)
    requires DbInv(db)
    ensures Inv(Committed(db)) && Committed(db).items == db.items && Committed(db).pages == db.pages
    ensures forall t :: t in db.txs ==> TxOk(Committed(db), db.txs[t])
  {
    assert Inv(EMPTY);
    RunKeepsInv(EMPTY, db.script);
  }

  /** A statement of one transaction that leaves it in order, and apart from the others, keeps the
   *  invariant: nothing committed changes. */
  lemma StatementKeepsInv(db: Db, tid: int, tx: Tx)
    requires DbInv(db) && TxOk(Committed(db), tx)
    requires forall o :: o in db.txs && o != tid ==> Apart(tx, db.txs[o])
    ensures DbInv(Put(db, tid, tx))
  {
    hide TxOk, Run, ValidRun;
  }

  /** Taking one more row lock, token or key that nobody else holds keeps transactions apart. */
  lemma StillApart(db: Db, tid: int, tx': Tx)
    requires DbInv(db) && tid in db.txs
    requires forall i :: i in tx'.locks ==> i in db.txs[tid].locks || Unlocked(db, i)
    requires forall x :: x in tx'.tokens ==> x in db.txs[tid].tokens || TokenFresh(db, x)
    requires forall k :: k in tx'.keys ==> k in db.txs[tid].keys || KeyFree(db, k.0, k.1)
    ensures forall o :: o in db.txs && o != tid ==> Apart(tx', db.txs[o])
  {
    hide TxOk, Run, ValidRun;
    forall o | o in db.txs && o != tid ensures Apart(tx', db.txs[o]) {
      var y := db.txs[o];
      assert Apart(db.txs[tid], y);
      forall i | i in tx'.locks ensures i !in y.locks {}
      forall x | x in tx'.tokens ensures x !in y.tokens {}
      forall k | k in tx'.keys ensures k !in y.keys { assert k == (k.0, k.1); }
    }
  }

  lemma PcOnly(s: Sys, tx: Tx, tx': Tx)
    requires TxOk(s, tx) && tx' == tx.(pc := tx'.pc, locks := tx'.locks, pages := tx'.pages)
    requires tx.locks <= tx'.locks && PcOk(s.items, tx')
    ensures TxOk(s, tx')
  {
    hide ScriptOk, Unused, Scheduled;
  }

  lemma BeginKeepsInv(db: Db, a: Action)
    requires DbInv(db) && Can(db, a) && a.Begin?
    ensures DbInv(Next(db, a))
  {
    var tx := Tx(a.call, a.now, a.now, Begun, {}, {}, {}, map[], {}, []);
    assert TxOk(Committed(db), tx);
    hide TxOk, DbInv;
    StatementKeepsInv(db, a.tid, tx);
  }

  /** Locking, rejecting, writing the page, and ending without a write. */
  lemma LockStatementKeepsInv(db: Db, a: Action)
    requires DbInv(db) && Can(db, a)
    requires a.LockFenced? || a.RejectFenced? || a.UpsertPage? || a.SelectClaims? || a.Finished?
    ensures DbInv(Next(db, a))
  {
    CommittedState(db);
    var tx, tx' := db.txs[a.tid], Next(db, a).txs[a.tid];
    var s := Committed(db);
    hide Run, ValidRun, DbInv;
    assert TxOk(s, tx);
    assert a.LockFenced? ==> tx.script == [] && tx.rows == map[] && IdsOf(tx.script) == {};
    hide ScriptOk, Accepts, PagesOf, TokensOf, KeysOf;
    if a.LockFenced? {
      LockedOk(s, tx, tx');
    } else {
      PcOnly(s, tx, tx');
    }
    StillApart(db, a.tid, tx');
    StatementKeepsInv(db, a.tid, tx');
  }

  lemma LockedOk(s: Sys, tx: Tx, tx': Tx)
    requires TxOk(s, tx) && tx.script == [] && tx.pages == {}
    requires tx' == tx.(pc := Locked, locks := tx'.locks)
    requires PcOk(s.items, tx')
    ensures TxOk(s, tx')
  {
  }

  /** A statement that writes a row: what it writes is what the protocol step does. */
  lemma RowStatementKeepsInv(db: Db, tid: int, e: Step, tx': Tx)
    requires DbInv(db) && tid in db.txs
    requires var tx := db.txs[tid];
      && StepId(e) !in IdsOf(tx.script) && (StepId(e) in tx.locks || Unlocked(db, StepId(e)))
      && tx'.script == tx.script + [e] && tx'.locks == tx.locks + {StepId(e)}
      && tx'.rows.Keys == tx.rows.Keys + {StepId(e)}
      && (forall i :: i in tx.rows ==> tx'.rows[i] == tx.rows[i])
      && tx'.tokens == tx.tokens + StepTokens(e) && tx'.keys == tx.keys + StepKeys(e)
    requires PcOk(db.items, tx') && WriteJustified(Committed(db), tx'.rows, e)
    requires forall x :: x in StepTokens(e) ==> TokenFresh(db, x)
    requires forall k :: k in StepKeys(e) ==> KeyFree(db, k.0, k.1)
    ensures DbInv(Put(db, tid, tx'))
  {
    var tx, s := db.txs[tid], Committed(db);
    StillApart(db, tid, tx');
    assert forall x :: x in StepTokens(e) ==> Unused(s.grants, x) && x !in tx.tokens;
    assert forall k :: k in StepKeys(e) ==> !Scheduled(db.items, k.0, k.1) && k !in tx.keys;
    hide Run, ValidRun, DbInv, PcOk, WriteJustified, Unused, Scheduled, ScriptOk,
         PagesOf, TokensOf, KeysOf, IdsOf, StepTokens, StepKeys;
    CommittedState(db);
    assert TxOk(s, tx);
    hide TxOk;
    WroteIsOk(s, tx, e, tx');
    StatementKeepsInv(db, tid, tx');
  }

  /** What the invariant says about one transaction. */
  lemma TxFacts(db: Db, tid: int)
    requires DbInv(db) && tid in db.txs
    ensures var tx := db.txs[tid];
      PcOk(db.items, tx) && tx.rows.Keys == IdsOf(tx.script) <= tx.locks
    ensures Inv(Committed(db)) && Committed(db).items == db.items
    ensures forall i :: i in db.items ==> db.items[i].id == i
  {
    CommittedState(db);
    forall i | i in db.items ensures db.items[i].id == i { InvRow(Committed(db), i); }
  }

  lemma JustifyCall(s: Sys, rows: map<int, Item>, e: Step)
    requires Inv(s) && CallAccepted(s, e) && e.id in rows
    requires e.Finish? ==> rows[e.id] == Completed(s.items[e.id])
    requires e.Renew? ==> rows[e.id] == Renewed(s.items[e.id], e.expires)
    requires e.GiveBack? ==> rows[e.id] == Released(s.items[e.id], e.availableAt)
    ensures WriteJustified(s, rows, e)
  {
    InvRow(s, e.id);
    hide Inv;
  }

  lemma JustifyReap(s: Sys, rows: map<int, Item>, id: int, now: int)
    requires Inv(s) && id in s.items && Exhausted(s.items[id], now)
    requires id in rows && rows[id] == Retired(s.items[id], now)
    ensures WriteJustified(s, rows, Reap(id, now))
  {
    InvRow(s, id);
    hide Inv;
  }

  lemma JustifyClaim(s: Sys, rows: map<int, Item>, id: int, owner: string, token: string, now: int, expires: int)
    requires Inv(s) && id in s.items && Claimable(s.items[id], now) && Unused(s.grants, token)
    requires id in rows && rows[id] == Claimed(s.items[id], owner, token, expires)
    ensures WriteJustified(s, rows, Claim(id, owner, token, now, expires))
  {
    InvRow(s, id);
    hide Inv;
  }

  lemma JustifyInsert(db: Db, rows: map<int, Item>, row: Item)
    requires Committed(db).items == db.items && row.id !in db.items && FreshRow(row)
    requires KeyFree(db, row.jobId, row.key) && row.id in rows && rows[row.id] == row
    ensures WriteJustified(Committed(db), rows, Insert(row))
  {
    hide Run, Unlocked;
  }

  lemma SingleStep(e: Step)
    ensures PagesOf([e]) == StepPages(e) && [] + [e] == [e] && IdsOf([]) == {}
  {
    Snoc([], e);
    assert [] + [e] == [e];
  }

  /** The fenced calls, once their row is locked (or, for the one-statement ones, with the lock). */
  lemma FencedWriteKeepsInv(db: Db, tid: int, e: Step, row: Item, later: int)
    requires DbInv(db) && tid in db.txs
    requires var tx := db.txs[tid];
      && Fenced(tx.call) && tx.script == [] && Matches(db.items, tx)
      && (tx.call.id in tx.locks || Unlocked(db, tx.call.id))
      && CarriesOut(e, tx.(later := later), db.items) && tx.pages == StepPages(e)
    requires e.Finish? ==> row == Completed(db.items[e.id])
    requires e.Renew? ==> row == Renewed(db.items[e.id], e.expires)
    requires e.GiveBack? ==> row == Released(db.items[e.id], e.availableAt)
    ensures DbInv(Put(db, tid, Wrote(db.txs[tid], e, row).(pc := Ended(true), later := later)))
  {
    hide Run, ValidRun, DbInv, Inv, TxOk, Accepts, Unlocked, IdsOf, TokensOf, KeysOf, PagesOf,
         WriteJustified, RowMatchesHistory, Completed, Renewed, Released;
    var tx, s := db.txs[tid], Committed(db);
    var tx' := Wrote(tx, e, row).(pc := Ended(true), later := later);
    TxFacts(db, tid);
    SingleStep(e);
    JustifyCall(s, tx'.rows, e);
    RowStatementKeepsInv(db, tid, e, tx');
  }

  lemma MarkKeepsInv(db: Db, a: Action)
    requires DbInv(db) && Can(db, a) && (a.MarkComplete? || a.MarkFailed?)
    ensures DbInv(Next(db, a))
  {
    hide DbInv, Run, ValidRun, Accepts, TxOk, Inv, RowMatchesHistory;
    TxFacts(db, a.tid);
    var tx, c := db.txs[a.tid], db.txs[a.tid].call;
    var it := db.items[c.id];
    if a.MarkComplete? {
      FencedWriteKeepsInv(db, a.tid, Finish(c.id, c.owner, c.token, tx.now, Some(c.page)), Completed(it),
                          tx.later);
    } else {
      var at := a.later + DelayFor(it, c);
      FencedWriteKeepsInv(db, a.tid, GiveBack(c.id, c.owner, c.token, tx.now, at), Released(it, at), a.later);
    }
  }

  lemma UpdateKeepsInv(db: Db, a: Action)
    requires DbInv(db) && Can(db, a) && a.GuardedUpdate?
    ensures DbInv(Next(db, a))
  {
    hide DbInv, Run, ValidRun, Accepts, TxOk, Inv, RowMatchesHistory;
    TxFacts(db, a.tid);
    var tx, c := db.txs[a.tid], db.txs[a.tid].call;
    var it := db.items[c.id];
    if c.CompleteOnly? {
      FencedWriteKeepsInv(db, a.tid, Finish(c.id, c.owner, c.token, tx.now, None), Completed(it), tx.later);
    } else {
      FencedWriteKeepsInv(db, a.tid, Renew(c.id, c.owner, c.token, tx.now, tx.now + c.extend),
                          Renewed(it, tx.now + c.extend), tx.later);
    }
  }

  lemma ReapStatementKeepsInv(db: Db, a: Action)
    requires DbInv(db) && Can(db, a) && a.ReapRow?
    ensures DbInv(Next(db, a))
  {
    hide DbInv, Run, ValidRun, TxOk, Inv, RowMatchesHistory, WriteJustified, Exhausted;
    TxFacts(db, a.tid);
    var tx, s := db.txs[a.tid], Committed(db);
    var e, row := Reap(a.id, tx.now), Retired(db.items[a.id], tx.now);
    Snoc(tx.script, e);
    JustifyReap(s, Wrote(tx, e, row).rows, a.id, tx.now);
    RowStatementKeepsInv(db, a.tid, e, Wrote(tx, e, row));
  }

  lemma ClaimStatementKeepsInv(db: Db, a: Action)
    requires DbInv(db) && Can(db, a) && a.ClaimRow?
    ensures DbInv(Next(db, a))
  {
    hide DbInv, Run, ValidRun, TxOk, Inv, RowMatchesHistory, WriteJustified, Claimable, Unused,
         IdsOf, TokensOf, KeysOf, PagesOf;
    TxFacts(db, a.tid);
    var tx, s, c := db.txs[a.tid], Committed(db), db.txs[a.tid].call;
    var e := Claim(a.id, c.owner, a.token, tx.now, tx.now + c.lease);
    var row := Claimed(db.items[a.id], c.owner, a.token, tx.now + c.lease);
    Snoc(tx.script, e);
    JustifyClaim(s, Wrote(tx, e, row).rows, a.id, c.owner, a.token, tx.now, tx.now + c.lease);
    RowStatementKeepsInv(db, a.tid, e, Wrote(tx, e, row).(tokens := tx.tokens + {a.token}));
  }

  lemma InsertStatementKeepsInv(db: Db, a: Action)
    requires DbInv(db) && Can(db, a) && a.InsertRow?
    ensures DbInv(Next(db, a))
  {
    hide DbInv, Run, ValidRun, TxOk, Inv, RowMatchesHistory, WriteJustified, KeyFree,
         IdsOf, TokensOf, KeysOf, PagesOf;
    TxFacts(db, a.tid);
    var tx, e := db.txs[a.tid], Insert(a.row);
    Snoc(tx.script, e);
    JustifyInsert(db, Wrote(tx, e, a.row).rows, a.row);
    RowStatementKeepsInv(db, a.tid, e, Wrote(tx, e, a.row).(keys := tx.keys + {(a.row.jobId, a.row.key)}));
  }

  lemma AbortKeepsInv(db: Db, tid: int)
    requires DbInv(db) && Can(db, Abort(tid))
    ensures DbInv(Next(db, Abort(tid)))
  {
    hide TxOk, Apart, Run, ValidRun;
  }

  lemma NextKeepsInv(db: Db, a: Action)
    requires DbInv(db) && Can(db, a)
    ensures DbInv(Next(db, a))
  {
    hide DbInv, Can, Next;
    match a
    case Begin(_, _, _) => BeginKeepsInv(db, a);
    case LockFenced(_) => LockStatementKeepsInv(db, a);
    case RejectFenced(_) => LockStatementKeepsInv(db, a);
    case UpsertPage(_) => LockStatementKeepsInv(db, a);
    case MarkComplete(_) => MarkKeepsInv(db, a);
    case MarkFailed(_, _) => MarkKeepsInv(db, a);
    case GuardedUpdate(_) => UpdateKeepsInv(db, a);
    case ReapRow(_, _) => ReapStatementKeepsInv(db, a);
    case SelectClaims(_) => LockStatementKeepsInv(db, a);
    case ClaimRow(_, _, _) => ClaimStatementKeepsInv(db, a);
    case InsertRow(_, _) => InsertStatementKeepsInv(db, a);
    case Finished(_) => LockStatementKeepsInv(db, a);
    case Commit(tid) => CommitKeepsInv(db, tid);
    case Abort(tid) => AbortKeepsInv(db, tid);
  }

  // ---- Runs of the database -----------------------------------------------------------------

  ghost predicate CanAll(db: Db, acts: seq<Action>)
    decreases |acts|
  {
    acts == [] || (Can(db, acts[0]) && CanAll(Next(db, acts[0]), acts[1..]))
  }

  ghost function NextAll(db: Db, acts: seq<Action>): Db
    requires CanAll(db, acts)
    decreases |acts|
  {
    if acts == [] then db else NextAll(Next(db, acts[0]), acts[1..])
  }

  lemma NewDbInv()
    ensures DbInv(NEW_DB)
  {
  }

  lemma {:induction false} RunKeepsDbInv(db: Db, acts: seq<Action>)
    requires DbInv(db) && CanAll(db, acts)
    ensures DbInv(NextAll(db, acts))
    decreases |acts|
  {
    hide DbInv, Can, Next;
    if acts != [] {
      NextKeepsInv(db, acts[0]);
      RunKeepsDbInv(Next(db, acts[0]), acts[1..]);
    }
  }

  /** Refinement: whatever the interleaving of statements, commits and aborts, the committed rows and
   *  pages are those of a run of the atomic lease protocol, the one recorded in the script. */
  lemma CommittedRefinesProtocol(acts: seq<Action>)
    requires CanAll(NEW_DB, acts)
    ensures var db := NextAll(NEW_DB, acts);
      && ValidRun(EMPTY, db.script)
      && Run(EMPTY, db.script).items == db.items && Run(EMPTY, db.script).pages == db.pages
  {
    RunKeepsDbInv(NEW_DB, acts);
  }

  /** What a transaction that carried out its fenced call has recorded. */
  lemma AcceptedCall(db: Db, tid: int)
    requires DbInv(db) && Can(db, Commit(tid)) && Fenced(db.txs[tid].call) && db.txs[tid].pc.result
    ensures var tx := db.txs[tid];
      |tx.script| == 1 && CarriesOut(tx.script[0], tx, db.items)
      && Enabled(Committed(db), tx.script[0]) && CallAccepted(Committed(db), tx.script[0])
  {
    var tx, s := db.txs[tid], Committed(db);
    assert TxOk(s, tx);
    hide Run, ValidRun, Apply, ApartFrom, Unused, Scheduled, PagesOf, TokensOf, KeysOf, IdsOf;
    assert WriteJustified(s, tx.rows, tx.script[0]);
  }

  lemma RejectedCall(db: Db, tid: int)
    requires DbInv(db) && Can(db, Commit(tid)) && Fenced(db.txs[tid].call) && !db.txs[tid].pc.result
    ensures db.txs[tid].script == [] && db.txs[tid].rows == map[] && db.txs[tid].pages == {}
  {
    var tx, s := db.txs[tid], Committed(db);
    assert TxOk(s, tx);
    hide Run, ValidRun, ScriptOk, Unused, Scheduled;
    assert IdsOf([]) == {} && PagesOf([]) == {};
    assert tx.rows.Keys == {};
  }

  /** A commit is all or nothing and is exactly the call that was made: the committed state takes the
   *  protocol step of an accepted fenced call, and nothing of a rejected one. */
  lemma CommitIsTheCall(db: Db, tid: int)
    requires DbInv(db) && Can(db, Commit(tid)) && Fenced(db.txs[tid].call)
    ensures var tx, db' := db.txs[tid], Next(db, Commit(tid));
      if tx.pc.result then
        exists e :: CarriesOut(e, tx, db.items) && CallAccepted(Committed(db), e)
          && Committed(db') == Apply(Committed(db), e) && db'.items == Committed(db').items
          && db'.pages == Committed(db').pages
      else db'.items == db.items && db'.pages == db.pages && Committed(db') == Committed(db)
  {
    if db.txs[tid].pc.result {
      AcceptedCommit(db, tid);
    } else {
      RejectedCall(db, tid);
      hide Run, ValidRun, DbInv;
      var tx := db.txs[tid];
      assert db.script + tx.script == db.script;
      assert db.items + tx.rows == db.items && db.pages + {} == db.pages;
    }
  }

  lemma AcceptedCommit(db: Db, tid: int)
    requires DbInv(db) && Can(db, Commit(tid)) && Fenced(db.txs[tid].call) && db.txs[tid].pc.result
    ensures var tx, db' := db.txs[tid], Next(db, Commit(tid));
      && |tx.script| == 1 && CarriesOut(tx.script[0], tx, db.items)
      && CallAccepted(Committed(db), tx.script[0])
      && Committed(db') == Apply(Committed(db), tx.script[0]) && db'.items == Committed(db').items
      && db'.pages == Committed(db').pages
  {
    AcceptedCall(db, tid);
    CommitKeepsInv(db, tid);
    var tx, db' := db.txs[tid], Next(db, Commit(tid));
    assert db'.script == db.script + tx.script;
    hide Next, Can, CarriesOut, CallAccepted, Enabled, Apply;
    CommittedState(db');
    hide DbInv, Run, ValidRun;
    assert tx.script == [tx.script[0]];
    RunSnoc(EMPTY, db.script, tx.script[0]);
  }

  /** Until a transaction commits, nothing it did is visible; once aborted, nothing ever is. */
  lemma OnlyCommitsShow(db: Db, a: Action)
    requires Can(db, a) && !a.Commit?
    ensures Next(db, a).items == db.items && Next(db, a).pages == db.pages
    ensures Next(db, a).script == db.script
  {
  }

  lemma LockFreezesRowStep(db: Db, a: Action, tid: int, id: int)
    requires DbInv(db) && Can(db, a) && a != Commit(tid) && a != Abort(tid)
    requires tid in db.txs && id in db.txs[tid].locks
    ensures var db' := Next(db, a);
      && tid in db'.txs && id in db'.txs[tid].locks
      && (id in db'.items <==> id in db.items) && (id in db.items ==> db'.items[id] == db.items[id])
  {
    hide Run, ValidRun, ScriptOk, Unused, Scheduled, TokensOf, KeysOf, PagesOf;
    if a.Commit? {
      assert Apart(db.txs[tid], db.txs[a.tid]);
      assert db.txs[a.tid].rows.Keys <= db.txs[a.tid].locks by {
        assert TxOk(Run(EMPTY, db.script), db.txs[a.tid]);
      }
    }
  }

  /** A row lock holds the row still: from the fence check to the commit no other transaction claims,
   *  retires, renews or settles it, however long that takes and whatever the clock says then. */
  lemma {:induction false} LockFreezesRow(db: Db, acts: seq<Action>, tid: int, id: int)
    requires DbInv(db) && CanAll(db, acts) && tid in db.txs && id in db.txs[tid].locks
    requires forall k :: 0 <= k < |acts| ==> acts[k] != Commit(tid) && acts[k] != Abort(tid)
    ensures var db' := NextAll(db, acts);
      && tid in db'.txs && id in db'.txs[tid].locks
      && (id in db'.items <==> id in db.items) && (id in db.items ==> db'.items[id] == db.items[id])
    decreases |acts|
  {
    hide DbInv, Can, Next;
    if acts != [] {
      NextKeepsInv(db, acts[0]);
      LockFreezesRowStep(db, acts[0], tid, id);
      LockFreezesRow(Next(db, acts[0]), acts[1..], tid, id);
    }
  }

  /** A save-and-complete that passed its fence commits onto the very lease it was checked against,
   *  and its row and page appear together, even if the lease has run out in the meantime. */
  lemma CommitAfterDeadline(db: Db, tid: int)
    requires DbInv(db) && Can(db, Commit(tid))
    requires db.txs[tid].call.SaveAndComplete? && db.txs[tid].pc.result
    ensures var c, db' := db.txs[tid].call, Next(db, Commit(tid));
      && c.id in db.items && db.items[c.id].phase == Leased && db.items[c.id].token == Some(c.token)
      && db'.items == db.items[c.id := Completed(db.items[c.id])]
      && db'.pages == db.pages + {c.page}
  {
    AcceptedCommit(db, tid);
    CommittedState(db);
    var tx, db' := db.txs[tid], Next(db, Commit(tid));
    hide DbInv, Run, Inv, Next, Can;
    InvRow(Committed(db), tx.script[0].id);
  }

  // ---- Complete rows have their pages -------------------------------------------------------

  predicate NoBareCompletion(acts: seq<Action>) {
    forall k :: 0 <= k < |acts| && acts[k].Begin? ==> !acts[k].call.CompleteOnly?
  }

  ghost predicate OnlyWithPages(db: Db) {
    && SavesPages(db.script)
    && forall t :: t in db.txs ==> !db.txs[t].call.CompleteOnly? && SavesPages(db.txs[t].script)
  }

  lemma NextOnlyWithPages(db: Db, a: Action)
    requires OnlyWithPages(db) && Can(db, a) && (a.Begin? ==> !a.call.CompleteOnly?)
    ensures OnlyWithPages(Next(db, a))
  {
  }

  lemma {:induction false} RunOnlyWithPages(db: Db, acts: seq<Action>)
    requires OnlyWithPages(db) && CanAll(db, acts) && NoBareCompletion(acts)
    ensures OnlyWithPages(NextAll(db, acts))
    decreases |acts|
  {
    hide OnlyWithPages, Can, Next;
    if acts != [] {
      NextOnlyWithPages(db, acts[0]);
      RunOnlyWithPages(Next(db, acts[0]), acts[1..]);
    }
  }

  /** When rows are completed by save-and-complete only, as the worker does, every committed complete
   *  row has its page committed, through any interleaving of crashes and commits. */
  lemma CommittedCompleteHasPage(acts: seq<Action>)
    requires CanAll(NEW_DB, acts) && NoBareCompletion(acts)
    ensures CompleteHavePages(Committed(NextAll(NEW_DB, acts)))
    ensures Committed(NextAll(NEW_DB, acts)).items == NextAll(NEW_DB, acts).items
    ensures Committed(NextAll(NEW_DB, acts)).pages == NextAll(NEW_DB, acts).pages
  {
    hide Run, ValidRun, CompleteHavePages, TxOk;
    NewDbInv();
    RunKeepsDbInv(NEW_DB, acts);
    RunOnlyWithPages(NEW_DB, acts);
    EmptyInv();
    assert CompleteHavePages(EMPTY) by { EmptyHasPages(); }
    CompleteImpliesPage(EMPTY, NextAll(NEW_DB, acts).script);
  }

  lemma EmptyHasPages()
    ensures CompleteHavePages(EMPTY)
  {
  }

  // ---- Bounded recovery ---------------------------------------------------------------------

  predicate AllTimely(es: seq<Step>, t: int, delay: int, lease: int) {
    forall i :: 0 <= i < |es| ==> Timely(es[i], t, delay, lease)
  }

  /** The call asks for no lease longer than `lease` and no delay longer than `delay`. */
  predicate Bounded(c: Call, delay: int, lease: int) {
    match c
    case AcquireBatch(_, _, l) => l <= lease
    case RenewLease(_, _, _, extend) => extend <= lease
    case FailItem(_, _, _, d) => d <= delay
    case _ => true
  }

  /** The action reads no clock beyond t. */
  predicate ReadsUpTo(a: Action, t: int, delay: int, lease: int) {
    match a
    case Begin(_, call, now) => now <= t && Bounded(call, delay, lease)
    case MarkFailed(_, later) => later <= t
    case InsertRow(_, row) => row.availableAt <= t
    case _ => true
  }

  ghost predicate TimelyDb(db: Db, t: int, delay: int, lease: int) {
    && AllTimely(db.script, t, delay, lease)
    && forall x :: x in db.txs ==>
         db.txs[x].now <= t && Bounded(db.txs[x].call, delay, lease) && AllTimely(db.txs[x].script, t, delay, lease)
  }

  lemma NextIsTimely(db: Db, a: Action, t: int, delay: nat, lease: int)
    requires TimelyDb(db, t, delay, lease) && Can(db, a) && ReadsUpTo(a, t, delay, lease)
    ensures TimelyDb(Next(db, a), t, delay, lease)
  {
    hide Unlocked, TokenFresh, KeyFree, Accepts, Claimable, Exhausted, Run;
  }

  lemma {:induction false} RunIsTimely(db: Db, acts: seq<Action>, t: int, delay: nat, lease: int)
    requires TimelyDb(db, t, delay, lease) && CanAll(db, acts)
    requires forall k :: 0 <= k < |acts| ==> ReadsUpTo(acts[k], t, delay, lease)
    ensures TimelyDb(NextAll(db, acts), t, delay, lease)
    decreases |acts|
  {
    hide TimelyDb, Can, Next, ReadsUpTo;
    if acts != [] {
      NextIsTimely(db, acts[0], t, delay, lease);
      RunIsTimely(Next(db, acts[0]), acts[1..], t, delay, lease);
    }
  }

  /** No lost work on the database: if no transaction read a clock beyond t, then once the clock passes
   *  t + max(delay, lease) every committed row that is not terminal can be claimed or retired, whatever
   *  crashed on the way. */
  lemma IdleDatabaseIsRecoverable(acts: seq<Action>, t: int, delay: nat, lease: int, now: int)
    requires CanAll(NEW_DB, acts) && now > t + Max(delay, lease)
    requires forall k :: 0 <= k < |acts| ==> ReadsUpTo(acts[k], t, delay, lease)
    ensures var items := NextAll(NEW_DB, acts).items;
      forall i :: i in items ==> Terminal(items[i]) || Claimable(items[i], now) || Exhausted(items[i], now)
  {
    hide Run, ValidRun, ReadsUpTo, Timely, TxOk;
    CommittedRefinesProtocol(acts);
    RunIsTimely(NEW_DB, acts, t, delay, lease);
    var db := NextAll(NEW_DB, acts);
    IdleMakesEverythingRecoverable(Committed(db), db.script, t, delay, lease, now);
  }
}
