/** The bounded crawl pipeline: a producer, N workers and a batching writer over two bounded FIFO
 *  queues, with sentinels and a join handshake.
 *
 * A step is what one task does between two of its awaits; the event loop may schedule the tasks in
 * any order.  A `put` on a full queue and a `get` on an empty one are not enabled.  What a fetch
 * leads to is an arbitrary input: nothing to save, or a page.
 */
module Pipeline {
  import opened Prelude
  import opened PageStore

  /** Messages of a queue: Some(x) is a unit of work, None the sentinel. */
  type Message<T> = Option<T>

  /** The arguments of a run, the settings of the pipeline object, and what the object and the
   *  repository hold when the run starts. */
  datatype Config = Config(
    urls: seq<string>,
    workers: nat,
    queueSize: Option<nat>,
    batchSize: nat,
    seenUrls: set<string>,
    seenHashes: set<string>,
    store: Store)

  function Capacity(c: Config): (n: nat)
    ensures n >= 1
  {
    if c.queueSize.Some? && c.queueSize.value != 0 then c.queueSize.value else Max(c.workers * 2, 1)
  }

  /** Where the producer, which is `run` itself, is. */
  datatype Producer =
    | Feeding(put: nat)         // URLs already put; at least one is not
    | Stopping(put: nat)        // sentinels already put; at least one is not
    | Joining                   // waiting for every unit of work to be marked done
    | Closing                   // putting the sentinel for the writer
    | AwaitingWriter
    | Finished

  datatype Worker =
    | Idle
    | Fetching                  // holds a URL
    | Putting(page: Page)       // holds a page it has accepted
    | Exited

  datatype Writer =
    | Collecting
    | Saving(last: bool)        // inside save_pages; last when the sentinel has been taken
    | Stopped

  datatype State = State(
    producer: Producer,
    queue: seq<Message<string>>,
    unfinished: int,               // task_done accounting of the input queue
    workers: seq<Worker>,
    output: seq<Message<Page>>,
    writer: Writer,
    batch: seq<Page>,
    store: Store,
    saved: int,
    seenUrls: set<string>,
    seenHashes: set<string>,
    processed: int,
    failed: int,
    duplicates: int,
    // history, read by no step:
    taken: seq<Message<string>>,   // messages the workers took, in order
    checked: seq<Page>,            // pages given to check_and_remember, in order
    accepted: seq<Page>,           // those that were not duplicates
    emitted: seq<Page>,            // pages put on the output queue, in order
    batches: seq<seq<Page>>)       // the save_pages calls that returned

  datatype Step =
    | PutUrl
    | PutSentinel
    | JoinReturns
    | PutOutputSentinel
    | WriterAwaited
    | Take(w: nat)
    | Discard(w: nat)                  // invalid URL, failed fetch, or not HTML
    | Check(w: nat, page: Page)        // a page came back: deduplicate it
    | PutPage(w: nat)
    | Write                            // the writer takes a message
    | SaveReturns

  predicate Enabled(c: Config, s: State, e: Step) {
    match e
    case PutUrl => s.producer.Feeding? && s.producer.put < |c.urls| && |s.queue| < Capacity(c)
    case PutSentinel => s.producer.Stopping? && s.producer.put < c.workers && |s.queue| < Capacity(c)
    case JoinReturns => s.producer.Joining? && s.unfinished == 0
    case PutOutputSentinel => s.producer.Closing? && |s.output| < Capacity(c)
    case WriterAwaited => s.producer.AwaitingWriter? && s.writer.Stopped?
    case Take(w) => w < |s.workers| && s.workers[w].Idle? && s.queue != []
    case Discard(w) => w < |s.workers| && s.workers[w].Fetching?
    case Check(w, _) => w < |s.workers| && s.workers[w].Fetching?
    case PutPage(w) => w < |s.workers| && s.workers[w].Putting? && |s.output| < Capacity(c)
    case Write => s.writer.Collecting? && s.output != []
    case SaveReturns => s.writer.Saving?
  }

  /** The producer moves on to the next phase as soon as it has nothing left to put. */
  function Fed(c: Config, put: nat): Producer {
    if put < |c.urls| then Feeding(put) else Signalled(c, 0)
  }

  function Signalled(c: Config, put: nat): Producer {
    if put < c.workers then Stopping(put) else Joining
  }

  function Initial(c: Config): State {
    State(Fed(c, 0), [], 0, seq(c.workers, _ => Idle), [], Collecting, [], c.store, 0,
          c.seenUrls, c.seenHashes, 0, 0, 0, [], [], [], [], [])
  }

  function SetWorker(s: State, w: nat, x: Worker): State
    requires w < |s.workers|
  {
    s.(workers := s.workers[w := x])
  }

  function Hash(p: Page): string { if p.contentHash.Some? then p.contentHash.value else "" }

  /** check_and_remember, and the counter it leads to. */
  function CheckStep(s: State, w: nat, p: Page): State
    requires w < |s.workers|
  {
    var s' := s.(seenUrls := s.seenUrls + {p.key}, seenHashes := s.seenHashes + {Hash(p)},
                 checked := s.checked + [p]);
    if p.key in s.seenUrls || Hash(p) in s.seenHashes then
      SetWorker(s', w, Idle).(duplicates := s.duplicates + 1, unfinished := s.unfinished - 1)
    else
      SetWorker(s', w, Putting(p)).(processed := s.processed + 1, accepted := s.accepted + [p])
  }

  function WriteStep(c: Config, s: State): State
    requires s.output != []
  {
    var s' := s.(output := s.output[1..]);
    match s.output[0]
    case None => s'.(writer := if s.batch == [] then Writer.Stopped else Saving(true))
    case Some(p) =>
      var batch := s.batch + [p];
      s'.(batch := batch, writer := if |batch| >= c.batchSize then Saving(false) else Collecting)
  }

  function SaveStep(s: State): State
    requires s.writer.Saving?
  {
    s.(store := SaveAll(s.store, s.batch), saved := s.saved + Saved(s.store, s.batch),
       batch := [], batches := s.batches + [s.batch],
       writer := if s.writer.last then Writer.Stopped else Collecting)
  }

  function Apply(c: Config, s: State, e: Step): State
    requires Enabled(c, s, e)
  {
    match e
    case PutUrl =>
      s.(producer := Fed(c, s.producer.put + 1), queue := s.queue + [Some(c.urls[s.producer.put])],
         unfinished := s.unfinished + 1)
    case PutSentinel =>
      s.(producer := Signalled(c, s.producer.put + 1), queue := s.queue + [None],
         unfinished := s.unfinished + 1)
    case JoinReturns => s.(producer := Closing)
    case PutOutputSentinel => s.(producer := AwaitingWriter, output := s.output + [None])
    case WriterAwaited => s.(producer := Finished)
    case Take(w) =>
      var s' := s.(queue := s.queue[1..], taken := s.taken + [s.queue[0]]);
      if s.queue[0].None? then SetWorker(s', w, Exited).(unfinished := s.unfinished - 1)
      else SetWorker(s', w, Fetching)
    case Discard(w) => SetWorker(s, w, Idle).(failed := s.failed + 1, unfinished := s.unfinished - 1)
    case Check(w, p) => CheckStep(s, w, p)
    case PutPage(w) =>
      var p := s.workers[w].page;
      SetWorker(s, w, Idle).(output := s.output + [Some(p)], emitted := s.emitted + [p],
                             unfinished := s.unfinished - 1)
    case Write => WriteStep(c, s)
    case SaveReturns => SaveStep(s)
  }

  function Run(c: Config, s: State, es: seq<Step>): State
    requires ValidRun(c, s, es)
    decreases |es|
  {
    if es == [] then s else Run(c, Apply(c, s, es[0]), es[1..])
  }

  predicate ValidRun(c: Config, s: State, es: seq<Step>)
    decreases |es|
  {
    es == [] || (Enabled(c, s, es[0]) && ValidRun(c, Apply(c, s, es[0]), es[1..]))
  }

  // ---------------------------------------------------------------- counting workers

  datatype Phase = AtFetch | AtPut | AtExit

  function Is(w: Worker, k: Phase): int {
    match k
    case AtFetch => if w.Fetching? then 1 else 0
    case AtPut => if w.Putting? then 1 else 0
    case AtExit => if w.Exited? then 1 else 0
  }

  /** How many workers are in the given phase. */
  function Tally(ws: seq<Worker>, k: Phase): int {
    if ws == [] then 0 else Tally(ws[..|ws| - 1], k) + Is(ws[|ws| - 1], k)
  }

  lemma {:induction false} TallyUpdate(ws: seq<Worker>, w: nat, x: Worker, k: Phase)
    requires w < |ws|
    ensures Tally(ws[w := x], k) == Tally(ws, k) - Is(ws[w], k) + Is(x, k)
  {
    var n := |ws| - 1;
    if w == n {
      assert ws[w := x][..n] == ws[..n];
    } else {
      assert ws[w := x][..n] == ws[..n][w := x];
      TallyUpdate(ws[..n], w, x, k);
    }
  }

  lemma {:induction false} TallyBounds(ws: seq<Worker>, k: Phase)
    ensures 0 <= Tally(ws, k) <= |ws|
    ensures Tally(ws, k) == 0 <==> forall i :: 0 <= i < |ws| ==> Is(ws[i], k) == 0
    ensures Tally(ws, k) == |ws| <==> forall i :: 0 <= i < |ws| ==> Is(ws[i], k) == 1
  {
    if ws != [] {
      var init := ws[..|ws| - 1];
      TallyBounds(init, k);
      assert forall i :: 0 <= i < |init| ==> init[i] == ws[i];
    }
  }

  /** The pages workers hold between accepting and putting them. */
  function Held(ws: seq<Worker>): multiset<Page> {
    if ws == [] then multiset{} else Held(ws[..|ws| - 1]) + HeldBy(ws[|ws| - 1])
  }

  function HeldBy(w: Worker): multiset<Page> { if w.Putting? then multiset{w.page} else multiset{} }

  lemma {:induction false} HeldUpdate(ws: seq<Worker>, w: nat, x: Worker)
    requires w < |ws|
    ensures Held(ws[w := x]) + HeldBy(ws[w]) == Held(ws) + HeldBy(x)
  {
    hide HeldBy;
    var n := |ws| - 1;
    var ws' := ws[w := x];
    if w == n {
      assert ws'[..n] == ws[..n];
      assert Held(ws') == Held(ws[..n]) + HeldBy(x);
      assert Held(ws') + HeldBy(ws[n]) == Held(ws[..n]) + HeldBy(ws[n]) + HeldBy(x);
    } else {
      assert ws'[..n] == ws[..n][w := x];
      HeldUpdate(ws[..n], w, x);
      assert Held(ws') + HeldBy(ws[w]) == Held(ws[..n][w := x]) + HeldBy(ws[..n][w]) + HeldBy(ws[n]);
      assert Held(ws) + HeldBy(x) == Held(ws[..n]) + HeldBy(x) + HeldBy(ws[n]);
    }
  }

  /** A worker's move either leaves what is held alone, adds a page to it or removes one. */
  lemma HeldAfter(ws: seq<Worker>, w: nat, x: Worker)
    requires w < |ws| && !(ws[w].Putting? && x.Putting?)
    ensures !ws[w].Putting? && !x.Putting? ==> Held(ws[w := x]) == Held(ws)
    ensures x.Putting? ==> Held(ws[w := x]) == Held(ws) + multiset{x.page}
    ensures ws[w].Putting? ==> Held(ws) == Held(ws[w := x]) + multiset{ws[w].page}
  {
    HeldUpdate(ws, w, x);
    hide Held;
    assert Held(ws) + multiset{} == Held(ws);
    assert Held(ws[w := x]) + multiset{} == Held(ws[w := x]);
  }

  lemma {:induction false} NothingHeld(ws: seq<Worker>)
    requires forall i :: 0 <= i < |ws| ==> !ws[i].Putting?
    ensures Held(ws) == multiset{}
  {
    if ws != [] {
      NothingHeld(ws[..|ws| - 1]);
    }
  }

  // ---------------------------------------------------------------- the invariant

  /** Everything the producer puts on the input queue, in order: the URLs, then one sentinel per
   *  worker. */
  function Tape(c: Config): seq<Message<string>> {
    seq(|c.urls| + c.workers, i requires 0 <= i < |c.urls| + c.workers =>
      if i < |c.urls| then Some(c.urls[i]) else None)
  }

  function PutSoFar(c: Config, p: Producer): nat {
    match p
    case Feeding(n) => n
    case Stopping(n) => |c.urls| + n
    case _ => |c.urls| + c.workers
  }

  /** The input queue is first in, first out, and has one producer. */
  ghost predicate InputInv(c: Config, s: State) {
    && |s.workers| == c.workers
    && (s.producer.Feeding? ==> s.producer.put < |c.urls|)
    && (s.producer.Stopping? ==> s.producer.put < c.workers)
    && s.taken + s.queue == Tape(c)[..PutSoFar(c, s.producer)]
    && (c.workers == 0 ==> s.taken == [])
  }

  /** Every unit taken is at a worker or has been counted. */
  ghost predicate CountInv(c: Config, s: State) {
    && s.unfinished == |s.queue| + Tally(s.workers, AtFetch) + Tally(s.workers, AtPut)
    && Tally(s.workers, AtFetch) + s.processed + s.failed + s.duplicates == Min(|s.taken|, |c.urls|)
    && Tally(s.workers, AtExit) == Max(|s.taken| - |c.urls|, 0)
    && s.failed >= 0 && s.duplicates >= 0
  }

  predicate Joined(p: Producer) { p.Closing? || p.AwaitingWriter? || p.Finished? }

  predicate SentinelSent(p: Producer) { p.AwaitingWriter? || p.Finished? }

  /** Once join has returned, the input side is over. */
  ghost predicate JoinInv(c: Config, s: State) {
    && (Joined(s.producer) ==> s.queue == [] && forall i :: 0 <= i < |s.workers| ==> s.workers[i].Exited?)
    && (s.producer.Finished? ==> s.writer.Stopped?)
  }

  function Messages(ps: seq<Page>): (r: seq<Message<Page>>)
    ensures |r| == |ps|
  {
    seq(|ps|, i requires 0 <= i < |ps| => Some(ps[i]))
  }

  function Sentinels(b: bool): seq<Message<Page>> { if b then [None] else [] }

  predicate SentinelTaken(w: Writer) { w.Stopped? || (w.Saving? && w.last) }

  /** A queue is first in, first out: what was taken from it, followed by what it holds, is what
   *  was put on it.  The writer's pages are followed by at most one sentinel. */
  ghost predicate OutputLaw(done: seq<Page>, taken: bool, output: seq<Message<Page>>,
                            emitted: seq<Page>, sent: bool) {
    Messages(done) + Sentinels(taken) + output == Messages(emitted) + Sentinels(sent)
  }

  ghost predicate OutputInv(s: State) {
    && OutputLaw(Flatten(s.batches) + s.batch, SentinelTaken(s.writer), s.output,
                 s.emitted, SentinelSent(s.producer))
    && (s.writer.Saving? ==> s.batch != [])
    && (s.writer.Stopped? ==> s.batch == [])
  }

  function FullBatch(c: Config): int { Max(c.batchSize, 1) }

  ghost predicate BatchInv(c: Config, s: State) {
    && (s.writer.Collecting? ==> |s.batch| < FullBatch(c))
    && (s.writer.Saving? && s.writer.last ==> 0 < |s.batch| < FullBatch(c))
    && (s.writer.Saving? && !s.writer.last ==> |s.batch| == FullBatch(c))
    && (forall i :: 0 <= i < |s.batches| ==>
          |s.batches[i]| == FullBatch(c)
          || (s.writer.Stopped? && i == |s.batches| - 1 && 0 < |s.batches[i]| < FullBatch(c)))
  }

  /** Accepted pages are on their way to the output queue or have been put there. */
  ghost predicate PageInv(s: State) {
    && multiset(s.accepted) == multiset(s.emitted) + Held(s.workers)
    && s.processed == |s.accepted|
  }

  function CheckedUrls(ps: seq<Page>): set<string> { set i | 0 <= i < |ps| :: ps[i].key }

  function CheckedHashes(ps: seq<Page>): set<string> { set i | 0 <= i < |ps| :: Hash(ps[i]) }

  /** Neither the normalized URL nor the content of p occurs among what was checked before. */
  predicate IsNew(c: Config, before: seq<Page>, p: Page) {
    p.key !in c.seenUrls + CheckedUrls(before) && Hash(p) !in c.seenHashes + CheckedHashes(before)
  }

  function NewOnes(c: Config, ps: seq<Page>): seq<Page> {
    if ps == [] then [] else
      var init, p := ps[..|ps| - 1], ps[|ps| - 1];
      NewOnes(c, init) + if IsNew(c, init, p) then [p] else []
  }

  ghost predicate DedupInv(c: Config, s: State) {
    && s.seenUrls == c.seenUrls + CheckedUrls(s.checked)
    && s.seenHashes == c.seenHashes + CheckedHashes(s.checked)
    && s.accepted == NewOnes(c, s.checked)
    && s.duplicates == |s.checked| - |s.accepted|
  }

  ghost predicate StoreInv(c: Config, s: State) {
    s.store == SaveBatches(c.store, s.batches) && s.saved == SavedBatches(c.store, s.batches)
  }

  ghost predicate Inv(c: Config, s: State) {
    && InputInv(c, s)
    && CountInv(c, s)
    && JoinInv(c, s)
    && OutputInv(s)
    && BatchInv(c, s)
    && PageInv(s)
    && DedupInv(c, s)
    && StoreInv(c, s)
  }

  lemma {:induction false} AllIdle(ws: seq<Worker>, k: Phase)
    requires forall i :: 0 <= i < |ws| ==> ws[i].Idle?
    ensures Tally(ws, k) == 0
  {
    TallyBounds(ws, k);
  }

  lemma InitialInv(c: Config)
    ensures Inv(c, Initial(c))
  {
    var s := Initial(c);
    AllIdle(s.workers, AtFetch);
    AllIdle(s.workers, AtPut);
    AllIdle(s.workers, AtExit);
    NothingHeld(s.workers);
  }

  lemma StepKeepsInput(c: Config, s: State, e: Step)
    requires InputInv(c, s) && Enabled(c, s, e)
    ensures InputInv(c, Apply(c, s, e))
  {
    match e
    case PutUrl => PutKeepsInput(c, s, e, |s.taken + s.queue|);
    case PutSentinel => PutKeepsInput(c, s, e, |s.taken + s.queue|);
    case Take(w) => TakeKeepsInput(c, s, w);
    case _ =>
  }

  lemma PutKeepsInput(c: Config, s: State, e: Step, n: nat)
    requires InputInv(c, s) && Enabled(c, s, e) && (e.PutUrl? || e.PutSentinel?) && n == |s.taken + s.queue|
    ensures InputInv(c, Apply(c, s, e))
  {
    var s' := Apply(c, s, e);
    assert s'.queue == s.queue + [Tape(c)[n]];
    assert s.taken + s'.queue == s.taken + s.queue + [Tape(c)[n]];
    assert PutSoFar(c, s'.producer) == n + 1;
    assert Tape(c)[..n + 1] == Tape(c)[..n] + [Tape(c)[n]];
  }

  lemma TakeKeepsInput(c: Config, s: State, w: nat)
    requires InputInv(c, s) && Enabled(c, s, Take(w))
    ensures InputInv(c, Apply(c, s, Take(w)))
  {
    hide Tape, PutSoFar;
    assert (s.taken + [s.queue[0]]) + s.queue[1..] == s.taken + s.queue;
  }

  /** The next message taken is a URL exactly while URLs are left. */
  lemma NextMessage(c: Config, s: State)
    requires InputInv(c, s) && s.queue != []
    ensures |s.taken| < |c.urls| + c.workers
    ensures s.queue[0] == if |s.taken| < |c.urls| then Some(c.urls[|s.taken|]) else None
  {
    assert s.queue[0] == (s.taken + s.queue)[|s.taken|];
  }

  lemma StepKeepsCounts(c: Config, s: State, e: Step)
    requires InputInv(c, s) && CountInv(c, s) && Enabled(c, s, e)
    ensures CountInv(c, Apply(c, s, e))
  {
    hide InputInv, Tally;
    match e
    case Take(w) => TakeKeepsCounts(c, s, w);
    case Discard(w) => TallyAfter(s.workers, w, Idle);
    case Check(w, p) =>
      TallyAfter(s.workers, w, Idle);
      TallyAfter(s.workers, w, Putting(p));
    case PutPage(w) => TallyAfter(s.workers, w, Idle);
    case _ =>
  }

  lemma TakeKeepsCounts(c: Config, s: State, w: nat)
    requires InputInv(c, s) && CountInv(c, s) && Enabled(c, s, Take(w))
    ensures CountInv(c, Apply(c, s, Take(w)))
  {
    NextMessage(c, s);
    hide InputInv, Tally;
    TallyAfter(s.workers, w, if s.queue[0].None? then Exited else Fetching);
  }

  lemma TallyAfter(ws: seq<Worker>, w: nat, x: Worker)
    requires w < |ws|
    ensures forall k :: Tally(ws[w := x], k) == Tally(ws, k) - Is(ws[w], k) + Is(x, k)
  {
    forall k {
      TallyUpdate(ws, w, x, k);
    }
  }

  /** When the queue's accounting reaches zero after the last put, every worker has left. */
  lemma JoinMeansExited(c: Config, s: State)
    requires InputInv(c, s) && CountInv(c, s) && s.producer.Joining? && s.unfinished == 0
    ensures s.queue == [] && forall i :: 0 <= i < |s.workers| ==> s.workers[i].Exited?
  {
    TallyBounds(s.workers, AtFetch);
    TallyBounds(s.workers, AtPut);
    TallyBounds(s.workers, AtExit);
    assert |s.taken + s.queue| == |c.urls| + c.workers;
    assert forall i :: 0 <= i < |s.workers| ==> Is(s.workers[i], AtExit) == 1;
  }

  lemma StepKeepsJoin(c: Config, s: State, e: Step)
    requires InputInv(c, s) && CountInv(c, s) && JoinInv(c, s) && Enabled(c, s, e)
    ensures JoinInv(c, Apply(c, s, e))
  {
    if e.JoinReturns? {
      JoinMeansExited(c, s);
    }
  }

  lemma MessagesAppend(a: seq<Page>, b: seq<Page>)
    ensures Messages(a + b) == Messages(a) + Messages(b)
  {
  }

  lemma FlattenSnoc(batches: seq<seq<Page>>, b: seq<Page>)
    ensures Flatten(batches + [b]) == Flatten(batches) + b
  {
    assert (batches + [b])[..|batches|] == batches;
  }

  lemma PageEnqueued(done: seq<Page>, taken: bool, output: seq<Message<Page>>, emitted: seq<Page>, p: Page)
    requires OutputLaw(done, taken, output, emitted, false)
    ensures OutputLaw(done, taken, output + [Some(p)], emitted + [p], false)
  {
    MessagesAppend(emitted, [p]);
    assert Messages(done) + Sentinels(taken) + (output + [Some(p)])
        == Messages(done) + Sentinels(taken) + output + [Some(p)];
  }

  lemma SentinelEnqueued(done: seq<Page>, taken: bool, output: seq<Message<Page>>, emitted: seq<Page>)
    requires OutputLaw(done, taken, output, emitted, false)
    ensures OutputLaw(done, taken, output + [None], emitted, true)
  {
    assert Messages(emitted) + [] == Messages(emitted);
    assert Messages(done) + Sentinels(taken) + (output + [None])
        == Messages(done) + Sentinels(taken) + output + [None];
  }

  lemma PageDequeued(done: seq<Page>, output: seq<Message<Page>>, emitted: seq<Page>, sent: bool)
    requires OutputLaw(done, false, output, emitted, sent) && output != [] && output[0].Some?
    ensures OutputLaw(done + [output[0].value], false, output[1..], emitted, sent)
  {
    MessagesAppend(done, [output[0].value]);
    assert Messages(done) + [] + output == Messages(done) + [output[0]] + [] + output[1..];
  }

  lemma SentinelDequeued(done: seq<Page>, output: seq<Message<Page>>, emitted: seq<Page>, sent: bool)
    requires OutputLaw(done, false, output, emitted, sent) && output != [] && output[0].None?
    ensures OutputLaw(done, true, output[1..], emitted, sent)
  {
    assert Messages(done) + [] + output == Messages(done) + [None] + output[1..];
  }

  lemma WriteKeepsOutput(c: Config, s: State)
    requires OutputInv(s) && Enabled(c, s, Write)
    ensures OutputInv(Apply(c, s, Write))
  {
    hide OutputLaw, Flatten;
    var done := Flatten(s.batches) + s.batch;
    if s.output[0].Some? {
      PageDequeued(done, s.output, s.emitted, SentinelSent(s.producer));
      assert Flatten(s.batches) + (s.batch + [s.output[0].value]) == done + [s.output[0].value];
    } else {
      SentinelDequeued(done, s.output, s.emitted, SentinelSent(s.producer));
    }
  }

  /** The writer cannot have taken a sentinel that was not sent. */
  lemma SentinelNotTakenEarly(s: State)
    requires OutputInv(s) && !SentinelSent(s.producer)
    ensures !SentinelTaken(s.writer)
  {
    var done := Flatten(s.batches) + s.batch;
    SentinelAt(done, SentinelTaken(s.writer), s.output);
    assert forall i :: 0 <= i < |s.emitted| ==> Messages(s.emitted)[i].Some?;
    assert Messages(done) + Sentinels(SentinelTaken(s.writer)) + s.output == Messages(s.emitted);
  }

  lemma SentinelAt(done: seq<Page>, taken: bool, output: seq<Message<Page>>)
    ensures var l := Messages(done) + Sentinels(taken) + output;
      taken ==> |l| > |done| && l[|done|] == None
  {
  }

  lemma StepKeepsOutput(c: Config, s: State, e: Step)
    requires OutputInv(s) && JoinInv(c, s) && Enabled(c, s, e)
    ensures OutputInv(Apply(c, s, e))
  {
    hide OutputLaw, Flatten;
    var done := Flatten(s.batches) + s.batch;
    match e
    case PutPage(w) => PageEnqueued(done, SentinelTaken(s.writer), s.output, s.emitted, s.workers[w].page);
    case PutOutputSentinel => SentinelEnqueued(done, SentinelTaken(s.writer), s.output, s.emitted);
    case Write => WriteKeepsOutput(c, s);
    case SaveReturns =>
      FlattenSnoc(s.batches, s.batch);
      assert Flatten(s.batches + [s.batch]) + [] == done;
    case _ =>
  }

  lemma StepKeepsBatches(c: Config, s: State, e: Step)
    requires BatchInv(c, s) && OutputInv(s) && Enabled(c, s, e)
    ensures BatchInv(c, Apply(c, s, e))
  {
    hide OutputInv;
  }

  lemma StepKeepsPages(c: Config, s: State, e: Step)
    requires PageInv(s) && Enabled(c, s, e)
    ensures PageInv(Apply(c, s, e))
  {
    hide Held;
    match e
    case Take(w) => HeldAfter(s.workers, w, if s.queue[0].None? then Exited else Fetching);
    case Discard(w) => HeldAfter(s.workers, w, Idle);
    case Check(w, p) => CheckKeepsPages(c, s, w, p);
    case PutPage(w) => PutKeepsPages(c, s, w);
    case _ =>
  }

  lemma PutKeepsPages(c: Config, s: State, w: nat)
    requires PageInv(s) && Enabled(c, s, PutPage(w))
    ensures PageInv(Apply(c, s, PutPage(w)))
  {
    hide Held;
    var p := s.workers[w].page;
    HeldAfter(s.workers, w, Idle);
    assert multiset(s.emitted + [p]) == multiset(s.emitted) + multiset{p};
  }

  lemma CheckKeepsPages(c: Config, s: State, w: nat, p: Page)
    requires PageInv(s) && Enabled(c, s, Check(w, p))
    ensures PageInv(Apply(c, s, Check(w, p)))
  {
    hide Held;
    HeldAfter(s.workers, w, Idle);
    HeldAfter(s.workers, w, Putting(p));
    assert multiset(s.accepted + [p]) == multiset(s.accepted) + multiset{p};
  }

  lemma CheckedSnoc(ps: seq<Page>, p: Page)
    ensures CheckedUrls(ps + [p]) == CheckedUrls(ps) + {p.key}
    ensures CheckedHashes(ps + [p]) == CheckedHashes(ps) + {Hash(p)}
  {
    assert forall i :: 0 <= i < |ps| ==> (ps + [p])[i] == ps[i];
    assert (ps + [p])[|ps|] == p;
    assert forall i :: 0 <= i < |ps| ==> ps[i].key in CheckedUrls(ps + [p]) by {
      assert forall i :: 0 <= i < |ps| ==> (ps + [p])[i].key == ps[i].key;
    }
    assert forall i :: 0 <= i < |ps| ==> Hash(ps[i]) in CheckedHashes(ps + [p]) by {
      assert forall i :: 0 <= i < |ps| ==> Hash((ps + [p])[i]) == Hash(ps[i]);
    }
  }

  lemma NewOnesSnoc(c: Config, ps: seq<Page>, p: Page)
    ensures NewOnes(c, ps + [p]) == NewOnes(c, ps) + if IsNew(c, ps, p) then [p] else []
  {
    assert (ps + [p])[..|ps|] == ps;
  }

  lemma StepKeepsDedup(c: Config, s: State, e: Step)
    requires DedupInv(c, s) && Enabled(c, s, e)
    ensures DedupInv(c, Apply(c, s, e))
  {
    hide NewOnes, CheckedUrls, CheckedHashes;
    if e.Check? {
      CheckedSnoc(s.checked, e.page);
      NewOnesSnoc(c, s.checked, e.page);
      assert s.accepted + [] == s.accepted;
    }
  }

  lemma SavedSnoc(st: Store, batches: seq<seq<Page>>, b: seq<Page>)
    ensures SaveBatches(st, batches + [b]) == SaveAll(SaveBatches(st, batches), b)
    ensures SavedBatches(st, batches + [b]) == SavedBatches(st, batches) + Saved(SaveBatches(st, batches), b)
  {
    hide SaveAll, Saved;
    assert (batches + [b])[..|batches|] == batches;
  }

  lemma StepKeepsStore(c: Config, s: State, e: Step)
    requires StoreInv(c, s) && Enabled(c, s, e)
    ensures StoreInv(c, Apply(c, s, e))
  {
    hide SaveAll, Saved, SaveBatches, SavedBatches;
    if e.SaveReturns? {
      SavedSnoc(c.store, s.batches, s.batch);
    }
  }

  lemma StepKeepsInv(c: Config, s: State, e: Step)
    requires Inv(c, s) && Enabled(c, s, e)
    ensures Inv(c, Apply(c, s, e))
  {
    hide InputInv, CountInv, JoinInv, OutputInv, BatchInv, PageInv, DedupInv, StoreInv, Enabled, Apply;
    StepKeepsInput(c, s, e);
    StepKeepsCounts(c, s, e);
    StepKeepsJoin(c, s, e);
    StepKeepsOutput(c, s, e);
    StepKeepsBatches(c, s, e);
    StepKeepsPages(c, s, e);
    StepKeepsDedup(c, s, e);
    StepKeepsStore(c, s, e);
  }

  /** The invariant survives every run, whatever order the tasks are scheduled in. */
  lemma {:induction false} RunKeepsInv(c: Config, s: State, es: seq<Step>)
    requires Inv(c, s) && ValidRun(c, s, es)
    ensures Inv(c, Run(c, s, es))
    decreases |es|
  {
    hide Inv, Apply, Enabled;
    if es != [] {
      StepKeepsInv(c, s, es[0]);
      RunKeepsInv(c, Apply(c, s, es[0]), es[1..]);
    }
  }
}
