/** What a commit on the database leaves, column by column: for claims, for scheduling, and which way a
 *  fenced call can go. */
module SqlCommits {
  import opened Prelude
  import opened Protocol
  import opened LeaseTheorems
  import opened SqlTransactions

  // ---- The fence ----------------------------------------------------------------------------

  /** A fenced call that has begun may be rejected exactly when its row is missing, not leased, leased to
   *  another owner or under another token, or not ahead of its deadline by the transaction's clock. */
  lemma RejectedIffFenceFails(db: Db, tid: int)
    requires tid in db.txs && db.txs[tid].pc.Begun? && Fenced(db.txs[tid].call)
    ensures var tx := db.txs[tid];
      Can(db, RejectFenced(tid)) <==>
      !(tx.call.id in db.items
        && var it := db.items[tx.call.id];
           it.phase == Leased && it.owner == Some(tx.call.owner) && it.token == Some(tx.call.token)
           && it.expiresAt.Some? && it.expiresAt.value > tx.now)
  {
  }

  /** Otherwise it goes ahead as soon as no other transaction has the row locked. */
  lemma GoesAheadIffFenceHolds(db: Db, tid: int)
    requires tid in db.txs && db.txs[tid].pc.Begun? && Fenced(db.txs[tid].call)
    ensures var tx := db.txs[tid];
      Can(db, if tx.call.SaveAndComplete? || tx.call.FailItem? then LockFenced(tid) else GuardedUpdate(tid)) <==>
      && !Can(db, RejectFenced(tid))
      && forall t :: t in db.txs ==> tx.call.id !in db.txs[t].locks
  {
  }

  /** A claiming transaction may take a row exactly when it may take more rows at all, nobody has the row
   *  locked, the row is due at the transaction's reading with attempts left, and the token is new; it may
   *  retire a row whose last lease has run out. */
  lemma ClaimPossibleIff(db: Db, tid: int, id: int, token: string)
    requires tid in db.txs && db.txs[tid].call.AcquireBatch? && id in db.items
    requires forall t :: t in db.txs ==> id !in db.txs[t].locks
    ensures var tx, it := db.txs[tid], db.items[id];
      var ranOut := it.phase == Leased && it.expiresAt.Some? && it.expiresAt.value < tx.now;
      && (Can(db, ClaimRow(tid, id, token)) <==>
           && tx.pc == Claiming && |tx.tokens| < tx.call.limit && TokenFresh(db, token)
           && it.attempts < it.maxAttempts && ((it.phase == Pending && it.availableAt <= tx.now) || ranOut))
      && (Can(db, ReapRow(tid, id)) <==> tx.pc == Begun && it.attempts >= it.maxAttempts && ranOut)
  {
    hide TokenFresh;
  }

  /** What a transaction remembers of how it began, and of the second clock reading of a failure call. */
  lemma TransactionRemembers(db: Db, tid: int, call: Call, now: int, later: int)
    ensures Can(db, Begin(tid, call, now)) ==>
      var tx := Next(db, Begin(tid, call, now)).txs[tid];
      tx.call == call && tx.now == now && tx.pc == Begun && tx.rows == map[] && tx.pages == {}
    ensures Can(db, MarkFailed(tid, later)) && db.txs[tid].call.id in db.items ==>
      var tx := Next(db, MarkFailed(tid, later)).txs[tid];
      tx.later == later && tx.call == db.txs[tid].call && tx.now == db.txs[tid].now && tx.pc == Ended(true)
  {
    hide Unlocked, TokenFresh, KeyFree;
  }

  /** What a fenced call asks of its row, column by column. */
  predicate AsAsked(it: Item, it': Item, tx: Tx)
    requires Fenced(tx.call)
  {
    var c := tx.call;
    && SameIdentity(it, it') && it'.attempts == it.attempts
    && (c.SaveAndComplete? || c.CompleteOnly? ==> it'.phase == Complete && it'.availableAt == it.availableAt)
    && (c.RenewLease? ==> it' == it.(expiresAt := Some(tx.now + c.extend)))
    && (c.FailItem? ==>
         if it.attempts < it.maxAttempts then it'.phase == Pending && it'.availableAt == tx.later + c.delay
         else it'.phase == Dead && it'.availableAt == tx.later)
    && (!c.RenewLease? ==> it'.owner == None && it'.token == None && it'.expiresAt == None)
  }

  lemma AcceptedAsAsked(s: Sys, e: Step, tx: Tx)
    requires Inv(s) && Fenced(tx.call) && CarriesOut(e, tx, s.items) && CallAccepted(s, e)
    ensures e.id in s.items && e.id in Apply(s, e).items && AsAsked(s.items[e.id], Apply(s, e).items[e.id], tx)
    ensures forall i :: i in s.items && i != e.id ==> i in Apply(s, e).items && Apply(s, e).items[i] == s.items[i]
  {
    AcceptedIffLeaseMatches(s, e);
    assert Enabled(s, e);
    WhatStepsWrite(s, e);
    RowStays(s, e);
    hide Inv, Apply, CallAccepted, Enabled;
  }

  lemma RowStays(s: Sys, e: Step)
    requires Inv(s) && CallAccepted(s, e)
    ensures Apply(s, e).items.Keys == s.items.Keys
    ensures e.Renew? ==> Apply(s, e).items[e.id] == s.items[e.id].(expiresAt := Some(e.expires))
  {
    InvRow(s, e.id);
    hide Inv;
  }

  /** Committing an accepted fenced call leaves in its row what the call asked for: complete; a deadline the
   *  extension after the first reading; or handed back, available the delay after the second reading, or
   *  dead if the attempts are used up.  The row was leased to the caller, its deadline ahead of the first
   *  reading.  The page is stored with a save-and-complete; nothing else changes. */
  lemma CommittedCallInColumns(db: Db, tid: int)
    requires DbInv(db) && Can(db, Commit(tid)) && Fenced(db.txs[tid].call) && db.txs[tid].pc.result
    ensures var tx, db' := db.txs[tid], Next(db, Commit(tid));
      var c := tx.call;
      && c.id in db.items && c.id in db'.items
      && (forall i :: i in db.items && i != c.id ==> i in db'.items && db'.items[i] == db.items[i])
      && AsAsked(db.items[c.id], db'.items[c.id], tx)
      && db.items[c.id].phase == Leased && db.items[c.id].owner == Some(c.owner)
      && db.items[c.id].token == Some(c.token)
      && db.items[c.id].expiresAt.Some? && db.items[c.id].expiresAt.value > tx.now
      && db'.pages == db.pages + if c.SaveAndComplete? then {c.page} else {}
  {
    AcceptedCommit(db, tid);
    CommittedState(db);
    var tx, db' := db.txs[tid], Next(db, Commit(tid));
    var e := tx.script[0];
    hide DbInv, Next, Can, Run, ValidRun, TxOk, Inv, CallAccepted, Apply;
    var s := Committed(db);
    AcceptedIffLeaseMatches(s, e);
    AcceptedAsAsked(s, e, tx);
    PagesAfter(s, e);
    hide AsAsked, Committed;
  }

  lemma PagesAfter(s: Sys, e: Step)
    requires CallAccepted(s, e)
    ensures Apply(s, e).pages == s.pages + if e.Finish? && e.page.Some? then {e.page.value} else {}
  {
    assert s.pages + {} == s.pages;
  }

  // ---- Claims -------------------------------------------------------------------------------

  /** it' is it, taken by the call of the transaction. */
  predicate ClaimWrote(it: Item, it': Item, tx: Tx)
    requires tx.call.AcquireBatch?
  {
    && it.attempts < it.maxAttempts
    && ((it.phase == Pending && it.availableAt <= tx.now)
        || (it.phase == Leased && it.expiresAt.Some? && it.expiresAt.value < tx.now))
    && it'.phase == Leased && it'.attempts == it.attempts + 1
    && it'.owner == Some(tx.call.owner) && it'.token.Some? && it'.token.value in tx.tokens
    && it'.expiresAt == Some(tx.now + tx.call.lease)
    && SameIdentity(it, it') && it'.availableAt == it.availableAt
  }

  predicate SameIdentity(it: Item, it': Item) {
    && it'.id == it.id && it'.jobId == it.jobId && it'.url == it.url && it'.key == it.key
    && it'.priority == it.priority && it'.maxAttempts == it.maxAttempts
  }

  /** it' is it, retired because its last lease had run out. */
  predicate ReapWrote(it: Item, it': Item, tx: Tx) {
    && it.phase == Leased && it.attempts >= it.maxAttempts
    && it.expiresAt.Some? && it.expiresAt.value < tx.now
    && it'.phase == Dead && it'.attempts == it.attempts && it'.availableAt == tx.now
    && it'.owner == None && it'.token == None && it'.expiresAt == None && SameIdentity(it, it')
  }

  ghost function LeasedRows(rows: map<int, Item>): set<int> { set i | i in rows && rows[i].phase == Leased }

  ghost predicate ClaimsRecorded(db: Db, tx: Tx) {
    tx.call.AcquireBatch? ==>
      && |LeasedRows(tx.rows)| <= |tx.tokens| <= tx.call.limit
      && forall i :: i in tx.rows ==>
           && i in db.items
           && (ClaimWrote(db.items[i], tx.rows[i], tx) || ReapWrote(db.items[i], tx.rows[i], tx))
  }

  ghost predicate AllClaimsRecorded(db: Db) { forall t :: t in db.txs ==> ClaimsRecorded(db, db.txs[t]) }

  lemma WroteLeased(rows: map<int, Item>, id: int, row: Item)
    ensures |LeasedRows(rows[id := row])| <= |LeasedRows(rows)| + if row.phase == Leased then 1 else 0
  {
    var after, more := LeasedRows(rows[id := row]), if row.phase == Leased then {id} else {};
    assert after <= LeasedRows(rows) + more;
    SubsetSize(after, LeasedRows(rows) + more);
  }

  lemma NoneLeased()
    ensures LeasedRows(map[]) == {}
  {
    var none: map<int, Item> := map[];
    assert LeasedRows(none) == {};
  }

  /** The statements of the claiming transaction itself. */
  lemma OwnStatementRecorded(db: Db, a: Action)
    requires DbInv(db) && AllClaimsRecorded(db) && Can(db, a) && !a.Commit? && !a.Abort?
    ensures ClaimsRecorded(Next(db, a), Next(db, a).txs[a.tid])
  {
    hide DbInv, Unlocked, TokenFresh, KeyFree, Matches, LeasedRows;
    match a
    case Begin(_, _, _) => NoneLeased();
    case ReapRow(_, id) => WroteLeased(db.txs[a.tid].rows, id, Retired(db.items[id], db.txs[a.tid].now));
    case ClaimRow(_, id, token) => ClaimRecorded(db, a);
    case _ =>
  }

  lemma ClaimRecorded(db: Db, a: Action)
    requires AllClaimsRecorded(db) && Can(db, a) && a.ClaimRow?
    ensures ClaimsRecorded(Next(db, a), Next(db, a).txs[a.tid])
  {
    hide DbInv, Unlocked, KeyFree, Matches, LeasedRows;
    var tx, c := db.txs[a.tid], db.txs[a.tid].call;
    WroteLeased(tx.rows, a.id, Claimed(db.items[a.id], c.owner, a.token, tx.now + c.lease));
    assert a.token !in tx.tokens;
  }

  lemma OtherTxStays(db: Db, a: Action, t: int)
    requires Can(db, a) && a.tid != t && t in db.txs
    ensures t in Next(db, a).txs && Next(db, a).txs[t] == db.txs[t]
  {
    hide Unlocked, TokenFresh, KeyFree, Matches, Claimable, Exhausted;
  }

  /** Rows written by a transaction that does not move stay as they are in the committed table. */
  lemma UnderlyingRowStays(db: Db, a: Action, t: int, i: int)
    requires DbInv(db) && Can(db, a) && a.tid != t && t in db.txs && i in db.txs[t].rows
    ensures i in Next(db, a).items <==> i in db.items
    ensures i in db.items ==> Next(db, a).items[i] == db.items[i]
  {
    TxFacts(db, t);
    hide DbInv, Can, Next;
    LockFreezesRowStep(db, a, t, i);
  }

  lemma OthersStayRecorded(db: Db, a: Action, t: int)
    requires DbInv(db) && AllClaimsRecorded(db) && Can(db, a) && a.tid != t && t in db.txs
    ensures t in Next(db, a).txs && ClaimsRecorded(Next(db, a), Next(db, a).txs[t])
  {
    OtherTxStays(db, a, t);
    assert ClaimsRecorded(db, db.txs[t]);
    hide DbInv, Can, Next, AllClaimsRecorded, ClaimWrote, ReapWrote;
    forall i | i in db.txs[t].rows
      ensures i in Next(db, a).items <==> i in db.items
      ensures i in db.items ==> Next(db, a).items[i] == db.items[i]
    {
      UnderlyingRowStays(db, a, t, i);
    }
  }

  lemma StepKeepsRecorded(db: Db, a: Action)
    requires DbInv(db) && AllClaimsRecorded(db) && Can(db, a)
    ensures AllClaimsRecorded(Next(db, a))
  {
    assert forall t :: t in Next(db, a).txs ==> t == a.tid || t in db.txs;
    assert a.Commit? || a.Abort? ==> a.tid !in Next(db, a).txs;
    hide DbInv, Can, Next, ClaimsRecorded;
    forall t | t in Next(db, a).txs
      ensures ClaimsRecorded(Next(db, a), Next(db, a).txs[t])
    {
      if t == a.tid { OwnStatementRecorded(db, a); } else { OthersStayRecorded(db, a, t); }
    }
  }

  lemma {:induction false} RunKeepsRecorded(db: Db, acts: seq<Action>)
    requires DbInv(db) && AllClaimsRecorded(db) && CanAll(db, acts)
    ensures AllClaimsRecorded(NextAll(db, acts))
    decreases |acts|
  {
    hide DbInv, Can, Next, AllClaimsRecorded;
    if acts != [] {
      NextKeepsInv(db, acts[0]);
      StepKeepsRecorded(db, acts[0]);
      RunKeepsRecorded(Next(db, acts[0]), acts[1..]);
    }
  }

  /** Committing a claim changes the committed table as asked for: at most `limit` rows become leased, each
   *  was due at the transaction's reading with attempts left and now carries the owner, a token of the
   *  transaction and the deadline asked for; some rows whose last lease had run out become dead; nothing
   *  else changes. */
  lemma CommittedClaim(acts: seq<Action>, tid: int)
    requires CanAll(NEW_DB, acts)
    requires var db := NextAll(NEW_DB, acts);
      tid in db.txs && db.txs[tid].call.AcquireBatch? && Can(db, Commit(tid))
    ensures var db := NextAll(NEW_DB, acts);
      var tx, after := db.txs[tid], Next(db, Commit(tid)).items;
      && after.Keys == db.items.Keys
      && |LeasedRows(tx.rows)| <= tx.call.limit
      && forall i :: i in db.items ==>
           if i !in tx.rows then after[i] == db.items[i]
           else if after[i].phase == Leased then i in LeasedRows(tx.rows) && ClaimWrote(db.items[i], after[i], tx)
           else ReapWrote(db.items[i], after[i], tx)
  {
    NewDbInv();
    RunKeepsRecorded(NEW_DB, acts);
    var db := NextAll(NEW_DB, acts);
    var tx := db.txs[tid];
    assert ClaimsRecorded(db, tx);
    assert Next(db, Commit(tid)).items == db.items + tx.rows;
    hide DbInv, CanAll, NextAll, Next, Can, AllClaimsRecorded;
    ClaimedTable(db, tx);
  }

  lemma ClaimedTable(db: Db, tx: Tx)
    requires tx.call.AcquireBatch? && ClaimsRecorded(db, tx)
    ensures var after := db.items + tx.rows;
      && after.Keys == db.items.Keys
      && |LeasedRows(tx.rows)| <= tx.call.limit
      && forall i :: i in db.items ==>
           if i !in tx.rows then after[i] == db.items[i]
           else if after[i].phase == Leased then i in LeasedRows(tx.rows) && ClaimWrote(db.items[i], after[i], tx)
           else ReapWrote(db.items[i], after[i], tx)
  {
    OverwrittenKeys(db.items, tx.rows);
  }

  lemma OverwrittenKeys(items: map<int, Item>, rows: map<int, Item>)
    requires forall i :: i in rows ==> i in items
    ensures (items + rows).Keys == items.Keys
  {
    forall i
      ensures i in (items + rows).Keys <==> i in items.Keys
    {
    }
  }

  /** Right after such a commit the fence lets the owner through, with the token of the row, at every clock
   *  reading before the deadline asked for, and no two of the rows share a token. */
  lemma CommittedClaimIsAccepted(acts: seq<Action>, tid: int, i: int, now: int, page: Option<string>)
    requires CanAll(NEW_DB, acts)
    requires var db := NextAll(NEW_DB, acts);
      tid in db.txs && db.txs[tid].call.AcquireBatch? && Can(db, Commit(tid))
      && i in LeasedRows(db.txs[tid].rows) && now < db.txs[tid].now + db.txs[tid].call.lease
    ensures var db := NextAll(NEW_DB, acts);
      var tx, db' := db.txs[tid], Next(db, Commit(tid));
      && i in db'.items && db'.items[i].token.Some?
      && CallAccepted(Committed(db'), Finish(i, tx.call.owner, db'.items[i].token.value, now, page))
      && forall j :: j in LeasedRows(tx.rows) && j != i ==> j in db'.items && db'.items[j].token != db'.items[i].token
  {
    NewDbInv();
    RunKeepsDbInv(NEW_DB, acts);
    RunKeepsRecorded(NEW_DB, acts);
    var db := NextAll(NEW_DB, acts);
    assert ClaimsRecorded(db, db.txs[tid]);
    hide AllClaimsRecorded, CanAll, NextAll, DbInv;
    AcceptedAfterCommit(db, tid, i, now, page);
  }

  lemma AcceptedAfterCommit(db: Db, tid: int, i: int, now: int, page: Option<string>)
    requires DbInv(db) && Can(db, Commit(tid)) && db.txs[tid].call.AcquireBatch?
    requires ClaimsRecorded(db, db.txs[tid])
    requires i in LeasedRows(db.txs[tid].rows) && now < db.txs[tid].now + db.txs[tid].call.lease
    ensures var tx, db' := db.txs[tid], Next(db, Commit(tid));
      && i in db'.items && db'.items[i].token.Some?
      && CallAccepted(Committed(db'), Finish(i, tx.call.owner, db'.items[i].token.value, now, page))
      && forall j :: j in LeasedRows(tx.rows) && j != i ==> j in db'.items && db'.items[j].token != db'.items[i].token
  {
    var tx := db.txs[tid];
    hide DbInv, Next, Can, Committed, Inv, ClaimsRecorded, LeasedRows, CallAccepted;
    CommittedTable(db, tid);
    AcceptedOnRows(db, tx, Committed(Next(db, Commit(tid))), i, now, page);
  }

  lemma CommittedTable(db: Db, tid: int)
    requires DbInv(db) && Can(db, Commit(tid))
    ensures var db' := Next(db, Commit(tid));
      && db'.items == db.items + db.txs[tid].rows
      && Inv(Committed(db')) && Committed(db').items == db'.items
  {
    hide DbInv, Inv, Run, TxOk;
    CommitItems(db, tid);
    CommitKeepsInv(db, tid);
    hide Next, Can, Committed;
    CommittedState(Next(db, Commit(tid)));
  }

  lemma CommitItems(db: Db, tid: int)
    requires Can(db, Commit(tid))
    ensures Next(db, Commit(tid)).items == db.items + db.txs[tid].rows
  {
  }

  lemma AcceptedOnRows(db: Db, tx: Tx, s: Sys, i: int, now: int, page: Option<string>)
    requires tx.call.AcquireBatch? && ClaimsRecorded(db, tx) && Inv(s) && s.items == db.items + tx.rows
    requires i in LeasedRows(tx.rows) && now < tx.now + tx.call.lease
    ensures i in s.items && s.items[i].token.Some?
    ensures CallAccepted(s, Finish(i, tx.call.owner, s.items[i].token.value, now, page))
    ensures forall j :: j in LeasedRows(tx.rows) && j != i ==> j in s.items && s.items[j].token != s.items[i].token
  {
    hide Inv;
    assert forall j :: j in LeasedRows(tx.rows) ==> j in s.items && s.items[j] == tx.rows[j];
    AcceptedIffLeaseMatches(s, Finish(i, tx.call.owner, s.items[i].token.value, now, page));
    forall j | j in LeasedRows(tx.rows) && j != i
      ensures j in s.items && s.items[j].token != s.items[i].token
    {
      LeasedTokensDiffer(s, i, j);
    }
  }

  lemma LeasedTokensDiffer(s: Sys, i: int, j: int)
    requires Inv(s) && i in s.items && j in s.items && i != j
    requires s.items[i].phase == Leased && s.items[j].phase == Leased
    ensures s.items[i].token != s.items[j].token
  {
    InvRow(s, i);
    InvRow(s, j);
  }

  // ---- Scheduling ---------------------------------------------------------------------------

  /** The row is new work, as the call asked for. */
  predicate NewlyScheduled(row: Item, id: int, c: Call)
    requires c.Schedule?
  {
    && row.id == id && row.jobId == c.jobId && row.key in c.urls
    && row.priority == c.priority && row.maxAttempts == c.maxAttempts
    && row.phase == Pending && row.attempts == 0
    && row.owner == None && row.token == None && row.expiresAt == None
  }

  ghost predicate InsertsRecorded(db: Db, tx: Tx) {
    tx.call.Schedule? ==>
      && (forall i :: i in tx.rows ==> i !in db.items && NewlyScheduled(tx.rows[i], i, tx.call))
      && (forall k :: k in tx.keys ==> Scheduled(tx.rows, k.0, k.1))
      && (tx.pc.Ended? ==> forall k :: k in tx.call.urls ==>
           Scheduled(db.items, tx.call.jobId, k) || Scheduled(tx.rows, tx.call.jobId, k))
  }

  ghost predicate AllInsertsRecorded(db: Db) { forall t :: t in db.txs ==> InsertsRecorded(db, db.txs[t]) }

  lemma OwnInsertRecorded(db: Db, a: Action)
    requires DbInv(db) && AllInsertsRecorded(db) && Can(db, a) && !a.Commit? && !a.Abort?
    ensures InsertsRecorded(Next(db, a), Next(db, a).txs[a.tid])
  {
    if a.Begin? {
      hide DbInv, Scheduled;
    } else if db.txs[a.tid].call.Schedule? {
      if a.InsertRow? { InsertRecorded(db, a); } else { FinishedRecorded(db, a); }
    } else {
      NotScheduling(db, a);
    }
  }

  lemma NotScheduling(db: Db, a: Action)
    requires Can(db, a) && !a.Begin? && !a.Commit? && !a.Abort? && !db.txs[a.tid].call.Schedule?
    ensures InsertsRecorded(Next(db, a), Next(db, a).txs[a.tid])
  {
    CallStays(db, a);
    hide Can, Next;
  }

  lemma CallStays(db: Db, a: Action)
    requires Can(db, a) && !a.Begin? && !a.Commit? && !a.Abort?
    ensures a.tid in Next(db, a).txs && Next(db, a).txs[a.tid].call == db.txs[a.tid].call
  {
    hide Unlocked, TokenFresh, KeyFree, Claimable, Exhausted, Scheduled, Completed, Released, Claimed, Retired, Renewed;
  }

  lemma InsertRecorded(db: Db, a: Action)
    requires DbInv(db) && AllInsertsRecorded(db) && Can(db, a) && a.InsertRow?
    ensures InsertsRecorded(Next(db, a), Next(db, a).txs[a.tid])
  {
    var tx := db.txs[a.tid];
    assert InsertsRecorded(db, tx);
    NotWrittenYet(db, a);
    InsertedTx(db, a);
    hide DbInv, AllInsertsRecorded, Can, Next, NewlyScheduled;
    InsertedKeys(tx.rows, a.row, tx.keys);
    hide Scheduled;
  }

  lemma NotWrittenYet(db: Db, a: Action)
    requires DbInv(db) && Can(db, a) && a.InsertRow?
    ensures a.row.id !in db.txs[a.tid].rows
  {
    hide DbInv, KeyFree, PcOk, IdsOf, Committed, Inv, Scheduled;
    TxFacts(db, a.tid);
  }

  lemma InsertedTx(db: Db, a: Action)
    requires Can(db, a) && a.InsertRow?
    ensures var tx, tx' := db.txs[a.tid], Next(db, a).txs[a.tid];
      && tx'.call == tx.call && tx'.rows == tx.rows[a.row.id := a.row] && !tx'.pc.Ended?
      && tx'.keys == tx.keys + {(a.row.jobId, a.row.key)} && Next(db, a).items == db.items
      && a.row.id !in db.items && tx.call.Schedule? && NewlyScheduled(a.row, a.row.id, tx.call)
  {
    hide Unlocked, KeyFree;
  }

  lemma FinishedRecorded(db: Db, a: Action)
    requires DbInv(db) && AllInsertsRecorded(db)
    requires Can(db, a) && !a.Begin? && !a.Commit? && !a.Abort? && !a.InsertRow?
    requires db.txs[a.tid].call.Schedule?
    ensures InsertsRecorded(Next(db, a), Next(db, a).txs[a.tid])
  {
    assert InsertsRecorded(db, db.txs[a.tid]);
    TxFacts(db, a.tid);
    hide DbInv, AllInsertsRecorded, Unlocked, TokenFresh, KeyFree, Matches, Claimable, Exhausted, Scheduled,
         NewlyScheduled;
  }

  lemma InsertedKeys(rows: map<int, Item>, row: Item, keys: set<(int, string)>)
    requires forall k :: k in keys ==> Scheduled(rows, k.0, k.1)
    requires row.id !in rows
    ensures forall k :: k in keys + {(row.jobId, row.key)} ==> Scheduled(rows[row.id := row], k.0, k.1)
  {
    var after := rows[row.id := row];
    assert after[row.id].jobId == row.jobId;
    forall k | k in keys
      ensures Scheduled(after, k.0, k.1)
    {
      var i :| i in rows && rows[i].jobId == k.0 && rows[i].key == k.1;
      assert i in after && after[i].jobId == k.0 && after[i].key == k.1;
    }
  }

  /** Rows are never removed and keep their job and URL. */
  lemma {:induction false} RunKeepsKeys(s: Sys, es: seq<Step>, i: int)
    requires Inv(s) && ValidRun(s, es) && i in s.items
    ensures i in Run(s, es).items
    ensures Run(s, es).items[i].jobId == s.items[i].jobId && Run(s, es).items[i].key == s.items[i].key
    decreases |es|
  {
    hide Inv, Apply, Enabled;
    if es != [] {
      StepKeepsInv(s, es[0]);
      StepKeepsKeys(s, es[0], i);
      RunKeepsKeys(Apply(s, es[0]), es[1..], i);
    }
  }

  lemma StepKeepsKeys(s: Sys, e: Step, i: int)
    requires Inv(s) && Enabled(s, e) && i in s.items
    ensures i in Apply(s, e).items
    ensures Apply(s, e).items[i].jobId == s.items[i].jobId && Apply(s, e).items[i].key == s.items[i].key
  {
    if !e.Insert? && e.id in s.items { InvRow(s, e.id); }
    hide Inv;
  }

  lemma CommitKeepsKeys(db: Db, tid: int, i: int)
    requires DbInv(db) && Can(db, Commit(tid)) && i in db.items
    ensures var after := Next(db, Commit(tid)).items;
      i in after && after[i].jobId == db.items[i].jobId && after[i].key == db.items[i].key
  {
    CommittedState(db);
    CommitKeepsInv(db, tid);
    var script := db.txs[tid].script;
    assert Next(db, Commit(tid)).script == db.script + script;
    CommittedState(Next(db, Commit(tid)));
    RunAppend(EMPTY, db.script, script);
    assert ValidRun(EMPTY, db.script + script);
    hide DbInv, Run, ValidRun, Inv, Next, Can;
    RunKeepsKeys(Committed(db), script, i);
  }

  lemma StillScheduled(db: Db, a: Action, jobId: int, key: string)
    requires DbInv(db) && Can(db, a) && Scheduled(db.items, jobId, key)
    ensures Scheduled(Next(db, a).items, jobId, key)
  {
    var i :| i in db.items && db.items[i].jobId == jobId && db.items[i].key == key;
    if a.Commit? {
      CommitKeepsKeys(db, a.tid, i);
    } else {
      OnlyCommitsShow(db, a);
    }
    hide DbInv, Can, Next;
    assert i in Next(db, a).items && Next(db, a).items[i].jobId == jobId;
  }

  lemma OtherInsertsStay(db: Db, a: Action, t: int)
    requires DbInv(db) && AllInsertsRecorded(db) && Can(db, a) && a.tid != t && t in db.txs
    ensures t in Next(db, a).txs && InsertsRecorded(Next(db, a), Next(db, a).txs[t])
  {
    OtherTxStays(db, a, t);
    var tx := db.txs[t];
    assert InsertsRecorded(db, tx);
    hide DbInv, Can, Next, AllInsertsRecorded, NewlyScheduled, Scheduled;
    forall i | i in tx.rows
      ensures i in Next(db, a).items <==> i in db.items
    {
      UnderlyingRowStays(db, a, t, i);
    }
    if tx.call.Schedule? {
      forall k | k in tx.call.urls && Scheduled(db.items, tx.call.jobId, k)
        ensures Scheduled(Next(db, a).items, tx.call.jobId, k)
      {
        StillScheduled(db, a, tx.call.jobId, k);
      }
    }
  }

  lemma StepKeepsInserts(db: Db, a: Action)
    requires DbInv(db) && AllInsertsRecorded(db) && Can(db, a)
    ensures AllInsertsRecorded(Next(db, a))
  {
    assert forall t :: t in Next(db, a).txs ==> t == a.tid || t in db.txs;
    assert a.Commit? || a.Abort? ==> a.tid !in Next(db, a).txs;
    hide DbInv, Can, Next, InsertsRecorded;
    forall t | t in Next(db, a).txs
      ensures InsertsRecorded(Next(db, a), Next(db, a).txs[t])
    {
      if t == a.tid { OwnInsertRecorded(db, a); } else { OtherInsertsStay(db, a, t); }
    }
  }

  lemma {:induction false} RunKeepsInserts(db: Db, acts: seq<Action>)
    requires DbInv(db) && AllInsertsRecorded(db) && CanAll(db, acts)
    ensures AllInsertsRecorded(NextAll(db, acts))
    decreases |acts|
  {
    hide DbInv, Can, Next, AllInsertsRecorded;
    if acts != [] {
      NextKeepsInv(db, acts[0]);
      StepKeepsInserts(db, acts[0]);
      RunKeepsInserts(Next(db, acts[0]), acts[1..]);
    }
  }

  /** Committing a schedule call leaves every row there was, adds only new pending rows as asked for, and
   *  afterwards every URL asked for has exactly one row in the job, whatever ran at the same time. */
  lemma CommittedSchedule(acts: seq<Action>, tid: int)
    requires CanAll(NEW_DB, acts)
    requires var db := NextAll(NEW_DB, acts);
      tid in db.txs && db.txs[tid].call.Schedule? && Can(db, Commit(tid))
    ensures var db := NextAll(NEW_DB, acts);
      var c, after := db.txs[tid].call, Next(db, Commit(tid)).items;
      && (forall i :: i in db.items ==> i in after && after[i] == db.items[i])
      && (forall i :: i in after && i !in db.items ==> NewlyScheduled(after[i], i, c))
      && (forall k :: k in c.urls ==> Scheduled(after, c.jobId, k))
      && (forall i, j ::
            (i in after && j in after && after[i].jobId == after[j].jobId && after[i].key == after[j].key)
            ==> i == j)
  {
    NewDbInv();
    RunKeepsDbInv(NEW_DB, acts);
    RunKeepsInserts(NEW_DB, acts);
    var db := NextAll(NEW_DB, acts);
    var tx, db' := db.txs[tid], Next(db, Commit(tid));
    assert InsertsRecorded(db, tx) && tx.pc.Ended?;
    assert db'.items == db.items + tx.rows;
    CommitKeepsInv(db, tid);
    CommittedState(db');
    UniqueKeys(Committed(db'));
    hide DbInv, CanAll, NextAll, Next, Can, Inv, AllInsertsRecorded, NewlyScheduled;
    forall k | k in tx.call.urls
      ensures Scheduled(db'.items, tx.call.jobId, k)
    {
      ScheduledAfter(db.items, tx.rows, tx.call.jobId, k);
    }
  }

  lemma ScheduledAfter(items: map<int, Item>, rows: map<int, Item>, jobId: int, key: string)
    requires forall i :: i in rows ==> i !in items
    requires Scheduled(items, jobId, key) || Scheduled(rows, jobId, key)
    ensures Scheduled(items + rows, jobId, key)
  {
    if i :| i in items && items[i].jobId == jobId && items[i].key == key {
      assert (items + rows)[i] == items[i];
    } else {
      var i :| i in rows && rows[i].jobId == jobId && rows[i].key == key;
      assert (items + rows)[i] == rows[i];
    }
  }

  lemma UniqueKeys(s: Sys)
    requires Inv(s)
    ensures forall i, j ::
      (i in s.items && j in s.items && s.items[i].jobId == s.items[j].jobId && s.items[i].key == s.items[j].key)
      ==> i == j
  {
  }
}
