/** What every interleaving of the pipeline guarantees: the shutdown handshake, the accounting of
 *  its result, what ends up in the repository, and that it ends. */
module PipelineTheorems {
  import opened Prelude
  import opened PageStore
  import opened Pipeline
  import opened Deduplication

  /** A complete run, as `run` sees it: it started with nothing in flight and returned. */
  ghost predicate Completes(c: Config, es: seq<Step>) {
    ValidRun(c, Initial(c), es) && Run(c, Initial(c), es).producer.Finished?
  }

  lemma AfterRun(c: Config, es: seq<Step>)
    requires ValidRun(c, Initial(c), es)
    ensures Inv(c, Run(c, Initial(c), es))
  {
    InitialInv(c);
    RunKeepsInv(c, Initial(c), es);
  }

  // ---------------------------------------------------------------- shutdown

  predicate IsClosingStep(e: Step) {
    e.PutOutputSentinel? || e.WriterAwaited? || e.Write? || e.SaveReturns?
  }

  lemma {:induction false} OnlyClosingStepsFollow(c: Config, s: State, es: seq<Step>, j: nat)
    requires Inv(c, s) && ValidRun(c, s, es) && Joined(s.producer) && j < |es|
    ensures IsClosingStep(es[j])
    ensures es[j].PutOutputSentinel? ==> s.producer.Closing?
    decreases |es|
  {
    ClosingStep(c, s, es[0]);
    if j > 0 {
      StepKeepsInv(c, s, es[0]);
      hide Inv, Enabled, Apply;
      OnlyClosingStepsFollow(c, Apply(c, s, es[0]), es[1..], j - 1);
    }
  }

  lemma ClosingStep(c: Config, s: State, e: Step)
    requires Inv(c, s) && Joined(s.producer) && Enabled(c, s, e)
    ensures IsClosingStep(e) && Joined(Apply(c, s, e).producer)
    ensures e.PutOutputSentinel? ==> s.producer.Closing?
    ensures Apply(c, s, e).producer.Closing? ==> s.producer.Closing? && !e.PutOutputSentinel?
  {
    hide InputInv, CountInv, OutputInv, BatchInv, PageInv, DedupInv, StoreInv;
  }

  lemma JoinReached(c: Config, s: State, e: Step)
    requires Enabled(c, s, e) && (e.JoinReturns? || e.PutOutputSentinel?)
    ensures Joined(Apply(c, s, e).producer)
    ensures e.PutOutputSentinel? ==> !Apply(c, s, e).producer.Closing?
  {
  }

  /** After `queue.join()` returns no worker runs again and nothing but the one sentinel is put on
   *  the output queue: in particular no page is enqueued behind the sentinel. */
  lemma {:induction false} NothingBehindTheSentinel(c: Config, s: State, es: seq<Step>, i: nat, j: nat)
    requires Inv(c, s) && ValidRun(c, s, es) && i < j < |es|
    requires es[i].JoinReturns? || es[i].PutOutputSentinel?
    ensures IsClosingStep(es[j])
    ensures es[i].PutOutputSentinel? ==> !es[j].PutOutputSentinel?
    decreases |es|
  {
    hide Inv, Enabled, Apply;
    StepKeepsInv(c, s, es[0]);
    if i == 0 {
      JoinReached(c, s, es[0]);
      OnlyClosingStepsFollow(c, Apply(c, s, es[0]), es[1..], j - 1);
    } else {
      NothingBehindTheSentinel(c, Apply(c, s, es[0]), es[1..], i - 1, j - 1);
    }
  }

  /** How many sentinels worker w takes during a run. */
  function SentinelsTakenBy(c: Config, s: State, es: seq<Step>, w: nat): nat
    requires ValidRun(c, s, es)
    decreases |es|
  {
    if es == [] then 0
    else
      (if TakesSentinel(s, es[0], w) then 1 else 0)
      + SentinelsTakenBy(c, Apply(c, s, es[0]), es[1..], w)
  }

  lemma OneExit(c: Config, s: State, e: Step, w: nat)
    requires Enabled(c, s, e) && w < |s.workers|
    ensures var s' := Apply(c, s, e);
      && |s'.workers| == |s.workers|
      && Is(s'.workers[w], AtExit) - Is(s.workers[w], AtExit) == if TakesSentinel(s, e, w) then 1 else 0
  {
  }

  predicate TakesSentinel(s: State, e: Step, w: nat) {
    e == Take(w) && s.queue != [] && s.queue[0].None?
  }

  lemma {:induction false} SentinelsAreExits(c: Config, s: State, es: seq<Step>, w: nat)
    requires ValidRun(c, s, es) && w < |s.workers|
    ensures |Run(c, s, es).workers| == |s.workers|
    ensures SentinelsTakenBy(c, s, es, w) == Is(Run(c, s, es).workers[w], AtExit) - Is(s.workers[w], AtExit)
    decreases |es|
  {
    if es != [] {
      OneExit(c, s, es[0], w);
      hide Enabled, Apply;
      SentinelsAreExits(c, Apply(c, s, es[0]), es[1..], w);
    }
  }

  /** In a complete run the URLs are taken in the order given, each once, before any sentinel, and
   *  every worker takes exactly one sentinel. */
  lemma OneSentinelPerWorker(c: Config, es: seq<Step>, w: nat)
    requires Completes(c, es) && w < c.workers
    ensures Run(c, Initial(c), es).taken == Tape(c)
    ensures SentinelsTakenBy(c, Initial(c), es, w) == 1
  {
    AfterRun(c, es);
    var s := Run(c, Initial(c), es);
    SentinelsAreExits(c, Initial(c), es, w);
    assert s.workers[w].Exited?;
    assert s.taken + s.queue == s.taken;
    assert Tape(c)[..|Tape(c)|] == Tape(c);
  }

  // ---------------------------------------------------------------- accounting

  /** At every instant each URL is not yet taken, at a worker, or in exactly one counter. */
  lemma EveryUrlAccountedFor(c: Config, es: seq<Step>)
    requires ValidRun(c, Initial(c), es)
    ensures var s := Run(c, Initial(c), es);
      |c.urls| == Max(|c.urls| - |s.taken|, 0) + Tally(s.workers, AtFetch)
                  + s.processed + s.failed + s.duplicates
  {
    AfterRun(c, es);
  }

  /** The result of a complete run adds up; what was accepted went out in full batches, the last
   *  one excepted, each page in exactly one of them, in the order the pages were put. */
  lemma ResultAddsUp(c: Config, es: seq<Step>)
    requires Completes(c, es)
    ensures var s := Run(c, Initial(c), es);
      && |c.urls| == s.processed + s.failed + s.duplicates
      && s.processed == |s.accepted|
      && s.accepted == NewOnes(c, s.checked)
      && Flatten(s.batches) == s.emitted
      && multiset(Flatten(s.batches)) == multiset(s.accepted)
      && forall i :: 0 <= i < |s.batches| ==>
           0 < |s.batches[i]| <= FullBatch(c) && (i < |s.batches| - 1 ==> |s.batches[i]| == FullBatch(c))
  {
    AfterRun(c, es);
    var s := Run(c, Initial(c), es);
    NothingHeld(s.workers);
    assert JoinInv(c, s);
    TallyBounds(s.workers, AtFetch);
    assert |s.taken + s.queue| == |c.urls| + c.workers;
    AllPagesOut(c, s);
  }

  lemma AllPagesOut(c: Config, s: State)
    requires OutputInv(s) && JoinInv(c, s) && s.producer.Finished?
    ensures Flatten(s.batches) == s.emitted && s.output == []
  {
    var done := Flatten(s.batches);
    assert done + s.batch == done;
    var l, r := Messages(done) + [None] + s.output, Messages(s.emitted) + [None];
    assert l == r;
    assert l[|done|] == None && r[|s.emitted|] == None;
    assert forall i :: 0 <= i < |s.emitted| ==> r[i].Some?;
    forall i | 0 <= i < |done|
      ensures i < |s.emitted| && done[i] == s.emitted[i]
    {
      assert l[i] == Some(done[i]) && r[i] == Messages(s.emitted)[i];
    }
  }

  /** The two pages have their normalized URL or their content in common. */
  predicate Share(p: Page, q: Page) {
    p.key == q.key || p.contentHash == q.contentHash || (WithoutContent(p) && WithoutContent(q))
  }

  /** The page has no content hash, or an empty one, which counts as the same. */
  predicate WithoutContent(p: Page) { p.contentHash == None || p.contentHash == Some("") }

  /** An earlier run of the object has met the page's URL or content. */
  predicate Known(c: Config, p: Page) {
    || p.key in c.seenUrls
    || (p.contentHash.Some? && p.contentHash.value in c.seenHashes)
    || (p.contentHash.None? && "" in c.seenHashes)
  }

  lemma CheckedPrefix(ps: seq<Page>, n: nat)
    requires n <= |ps|
    ensures CheckedUrls(ps[..n]) <= CheckedUrls(ps) && CheckedHashes(ps[..n]) <= CheckedHashes(ps)
  {
    forall k | k in CheckedUrls(ps[..n])
      ensures k in CheckedUrls(ps)
    {
      var i :| 0 <= i < n && ps[..n][i].key == k;
      assert ps[i].key == k;
    }
    forall h | h in CheckedHashes(ps[..n])
      ensures h in CheckedHashes(ps)
    {
      var i :| 0 <= i < n && Hash(ps[..n][i]) == h;
      assert Hash(ps[i]) == h;
    }
  }

  lemma {:induction false} NewOnesWereChecked(c: Config, ps: seq<Page>, a: nat)
    requires a < |NewOnes(c, ps)|
    ensures var p := NewOnes(c, ps)[a];
      p.key in CheckedUrls(ps) - c.seenUrls && Hash(p) in CheckedHashes(ps) - c.seenHashes
  {
    var init := ps[..|ps| - 1];
    CheckedPrefix(ps, |ps| - 1);
    if a < |NewOnes(c, init)| {
      NewOnesWereChecked(c, init, a);
    } else {
      assert ps[|ps| - 1].key in CheckedUrls(ps) && Hash(ps[|ps| - 1]) in CheckedHashes(ps);
    }
  }

  /** Accepted pages are pairwise distinct in normalized URL and in content. */
  lemma {:induction false} AcceptedAreDistinct(c: Config, ps: seq<Page>, a: nat, b: nat)
    requires a < b < |NewOnes(c, ps)|
    ensures !Share(NewOnes(c, ps)[a], NewOnes(c, ps)[b])
  {
    var init := ps[..|ps| - 1];
    if b < |NewOnes(c, init)| {
      AcceptedAreDistinct(c, init, a, b);
    } else {
      NewOnesWereChecked(c, init, a);
    }
  }

  /** Nothing checked before position i, in this run or earlier, shares URL or content with it. */
  predicate KeptAt(c: Config, ps: seq<Page>, i: nat)
    requires i < |ps|
  {
    !Known(c, ps[i]) && forall j :: 0 <= j < i ==> !Share(ps[j], ps[i])
  }

  /** The set lookups of the pipeline compare URLs and contents. */
  lemma ByHash(c: Config, p: Page)
    ensures forall q: Page :: Share(q, p) <==> q.key == p.key || Hash(q) == Hash(p)
    ensures Known(c, p) <==> p.key in c.seenUrls || Hash(p) in c.seenHashes
  {
  }

  lemma KeptIffNew(c: Config, ps: seq<Page>, i: nat)
    requires i < |ps|
    ensures KeptAt(c, ps, i) <==> IsNew(c, ps[..i], ps[i])
  {
    var before, p := ps[..i], ps[i];
    hide Share, Known, Hash;
    ByHash(c, p);
    assert forall j :: 0 <= j < i ==> before[j] == ps[j];
    assert forall j :: 0 <= j < i ==> before[j].key in CheckedUrls(before) && Hash(before[j]) in CheckedHashes(before);
  }

  ghost function KeptPositions(c: Config, ps: seq<Page>): set<int> {
    set i: int | 0 <= i < |ps| && KeptAt(c, ps, i)
  }

  ghost function KeptPages(c: Config, ps: seq<Page>): set<Page> {
    set i | i in KeptPositions(c, ps) :: ps[i]
  }

  lemma KeptSnoc(c: Config, ps: seq<Page>, n: nat)
    requires |ps| == n + 1
    ensures |KeptPositions(c, ps)| == |KeptPositions(c, ps[..n])| + if KeptAt(c, ps, n) then 1 else 0
    ensures KeptPages(c, ps) == KeptPages(c, ps[..n]) + if KeptAt(c, ps, n) then {ps[n]} else {}
  {
    var all, init := KeptPositions(c, ps), KeptPositions(c, ps[..n]);
    assert forall i :: 0 <= i < n ==> (KeptAt(c, ps, i) <==> KeptAt(c, ps[..n], i));
    assert all == init + if KeptAt(c, ps, n) then {n} else {};
    hide KeptAt, KeptPositions;
    assert forall i :: i in init ==> i in all;
  }

  lemma {:induction false} NewOnesAreKept(c: Config, ps: seq<Page>)
    ensures |NewOnes(c, ps)| == |KeptPositions(c, ps)|
    ensures forall p :: p in NewOnes(c, ps) <==> p in KeptPages(c, ps)
  {
    if ps == [] {
      assert KeptPositions(c, ps) == {};
    } else {
      var n := |ps| - 1;
      KeptIffNew(c, ps, n);
      KeptSnoc(c, ps, n);
      hide KeptAt, IsNew, KeptPositions, KeptPages;
      NewOnesAreKept(c, ps[..n]);
    }
  }

  /** In every run, a page was accepted exactly when it was checked at some point before which nothing
   *  sharing its URL or content had been, and there are as many accepted pages as such points. */
  lemma AcceptedIffNew(c: Config, es: seq<Step>, p: Page)
    requires ValidRun(c, Initial(c), es)
    ensures var s := Run(c, Initial(c), es);
      && (p in s.accepted <==>
           exists i :: 0 <= i < |s.checked| && s.checked[i] == p && KeptAt(c, s.checked, i))
      && |s.accepted| == |KeptPositions(c, s.checked)|
  {
    AfterRun(c, es);
    var s := Run(c, Initial(c), es);
    assert DedupInv(c, s);
    hide Inv, ValidRun, Run, KeptAt;
    NewOnesAreKept(c, s.checked);
    assert p in s.accepted <==> p in KeptPages(c, s.checked);
  }

  /** Each page has a URL and a content hash of its own, and earlier runs met neither. */
  predicate Unrelated(c: Config, ps: seq<Page>) {
    && (forall i :: 0 <= i < |ps| ==>
          && ps[i].key !in c.seenUrls
          && ps[i].contentHash.Some? && ps[i].contentHash.value !in c.seenHashes)
    && (forall i, j :: 0 <= i < j < |ps| ==> ps[i].key != ps[j].key && ps[i].contentHash != ps[j].contentHash)
  }

  /** Such pages are all accepted, in every run. */
  lemma UnrelatedPagesAreAccepted(c: Config, es: seq<Step>)
    requires ValidRun(c, Initial(c), es) && Unrelated(c, Run(c, Initial(c), es).checked)
    ensures var s := Run(c, Initial(c), es);
      s.accepted == s.checked && s.duplicates == 0 && s.processed == |s.checked|
  {
    AfterRun(c, es);
    var s := Run(c, Initial(c), es);
    assert DedupInv(c, s) && PageInv(s);
    hide Inv, ValidRun, Run, Unrelated;
    AllAreNew(c, s.checked);
  }

  lemma {:induction false} AllAreNew(c: Config, ps: seq<Page>)
    requires Unrelated(c, ps)
    ensures NewOnes(c, ps) == ps
  {
    if ps != [] {
      var n := |ps| - 1;
      AllAreNew(c, ps[..n]);
      KeptIffNew(c, ps, n);
      assert KeptAt(c, ps, n);
      hide KeptAt, Unrelated, IsNew;
      assert ps == ps[..n] + [ps[n]];
    }
  }

  // ---------------------------------------------------------------- why a page is dropped

  /** The page at position i was kept, or an earlier run knew it, or a page kept before it shares its
   *  URL or content. */
  predicate Explained(c: Config, ps: seq<Page>, i: nat)
    requires i < |ps|
  {
    KeptAt(c, ps, i) || Known(c, ps[i]) || exists k :: 0 <= k < i && KeptAt(c, ps, k) && Share(ps[k], ps[i])
  }

  ghost predicate AllExplained(c: Config, ps: seq<Page>) {
    forall i :: 0 <= i < |ps| ==> Explained(c, ps, i)
  }

  /** Pages that share with a known page are known, and among the others sharing is transitive. */
  ghost predicate SharingIsTransitive(c: Config, ps: seq<Page>) {
    && (forall x, y :: x in ps && y in ps && Known(c, x) && Share(x, y) ==> Known(c, y))
    && (forall x, y, z ::
          (x in ps && y in ps && z in ps && !Known(c, x) && !Known(c, y) && !Known(c, z)
           && Share(x, y) && Share(y, z)) ==> Share(x, z))
  }

  lemma {:induction false} TransitiveExplains(c: Config, ps: seq<Page>, i: nat)
    requires SharingIsTransitive(c, ps) && i < |ps|
    ensures Explained(c, ps, i)
  {
    if !KeptAt(c, ps, i) && !Known(c, ps[i]) {
      var j :| 0 <= j < i && Share(ps[j], ps[i]);
      assert ps[j] in ps && ps[i] in ps;
      assert !Known(c, ps[j]);
      TransitiveExplains(c, ps, j);
      if !KeptAt(c, ps, j) {
        var k :| 0 <= k < j && KeptAt(c, ps, k) && Share(ps[k], ps[j]);
        assert ps[k] in ps;
        assert Share(ps[k], ps[i]);
      }
    }
  }

  lemma ToFront(ps: seq<Page>, x: Page) returns (rest: seq<Page>)
    requires x in ps
    ensures multiset([x] + rest) == multiset(ps)
    ensures forall y :: y in ps && y != x ==> y in rest
  {
    var i :| 0 <= i < |ps| && ps[i] == x;
    rest := ps[..i] + ps[i + 1..];
    assert ps == ps[..i] + [x] + ps[i + 1..];
  }

  /** A page that shares with a known page but is not known is dropped for nothing if it comes second. */
  lemma KnownNeighbourDrops(c: Config, ps: seq<Page>, x: Page, y: Page) returns (qs: seq<Page>)
    requires x in ps && y in ps && Known(c, x) && !Known(c, y) && Share(x, y)
    ensures multiset(qs) == multiset(ps) && !AllExplained(c, qs)
  {
    var one := ToFront(ps, x);
    var two := ToFront(one, y);
    qs := [x] + ([y] + two);
    assert multiset(qs) == multiset{x} + multiset([y] + two);
    assert multiset(ps) == multiset{x} + multiset(one);
    assert qs[0] == x && qs[1] == y;
    assert !Explained(c, qs, 1);
  }

  /** If x shares with y and y with z but x not with z, then in this order z is dropped for nothing. */
  lemma ChainDrops(c: Config, ps: seq<Page>, x: Page, y: Page, z: Page) returns (qs: seq<Page>)
    requires x in ps && y in ps && z in ps && !Known(c, x) && !Known(c, y) && !Known(c, z)
    requires Share(x, y) && Share(y, z) && !Share(x, z)
    ensures multiset(qs) == multiset(ps) && !AllExplained(c, qs)
  {
    var one := ToFront(ps, x);
    var two := ToFront(one, y);
    var three := ToFront(two, z);
    qs := [x] + ([y] + ([z] + three));
    assert multiset(qs) == multiset{x} + (multiset{y} + multiset([z] + three));
    assert multiset(ps) == multiset{x} + multiset(one) && multiset(one) == multiset{y} + multiset(two);
    assert qs[0] == x && qs[1] == y && qs[2] == z;
    assert !KeptAt(c, qs, 1) && !Explained(c, qs, 2);
  }

  /** Whatever order the pages are checked in, each dropped page shares URL or content with a page kept
   *  before it, or is known from an earlier run, exactly when sharing is transitive among them. */
  lemma DropsExplainedIff(c: Config, ps: seq<Page>)
    ensures (forall qs :: multiset(qs) == multiset(ps) ==> AllExplained(c, qs)) <==> SharingIsTransitive(c, ps)
  {
    if SharingIsTransitive(c, ps) {
      forall qs: seq<Page> | multiset(qs) == multiset(ps)
        ensures AllExplained(c, qs)
      {
        assert forall x :: x in qs <==> x in multiset(ps);
        forall i | 0 <= i < |qs|
          ensures Explained(c, qs, i)
        {
          TransitiveExplains(c, qs, i);
        }
      }
    } else if x, y :| x in ps && y in ps && Known(c, x) && Share(x, y) && !Known(c, y) {
      var qs := KnownNeighbourDrops(c, ps, x, y);
    } else {
      var x, y, z :| x in ps && y in ps && z in ps && !Known(c, x) && !Known(c, y) && !Known(c, z)
        && Share(x, y) && Share(y, z) && !Share(x, z);
      var qs := ChainDrops(c, ps, x, y, z);
    }
  }

  /** So in a run over such pages every page checked and not accepted has an accepted twin, or is known
   *  from an earlier run. */
  lemma DroppedPagesHaveTwins(c: Config, es: seq<Step>, i: nat)
    requires ValidRun(c, Initial(c), es)
    requires var s := Run(c, Initial(c), es); SharingIsTransitive(c, s.checked) && i < |s.checked|
    ensures var s := Run(c, Initial(c), es);
      Known(c, s.checked[i]) || exists q :: q in s.accepted && Share(q, s.checked[i])
  {
    var s := Run(c, Initial(c), es);
    TransitiveExplains(c, s.checked, i);
    hide SharingIsTransitive, ValidRun, Run;
    if !Known(c, s.checked[i]) {
      var k :| 0 <= k <= i && KeptAt(c, s.checked, k) && Share(s.checked[k], s.checked[i]);
      AcceptedIffNew(c, es, s.checked[k]);
    }
  }

  // ---------------------------------------------------------------- the deduplicator itself

  /** What is passed for the content: the stored hash, or the empty text. */
  function ContentOf(p: Page): string {
    match p.contentHash
    case None => ""
    case Some(h) => h
  }

  function CallsOf(ps: seq<Page>): seq<Call> {
    seq(|ps|, i requires 0 <= i < |ps| => Call(ps[i].key, ContentOf(ps[i]), ps[i].body))
  }

  /** The pipeline's sets answer as the deduplicator does, which has answered the calls of earlier runs
   *  and of this one. */
  lemma CheckIsTheDeduplicators(c: Config, s: State, earlier: seq<Call>, p: Page)
    requires DedupInv(c, s)
    requires forall u :: u in c.seenUrls <==> UrlAmong(earlier, u)
    requires forall h :: h in c.seenHashes <==> HashAmong(earlier, h)
    ensures var calls := earlier + CallsOf(s.checked);
      && (p.key in s.seenUrls <==> UrlAmong(calls, p.key))
      && (Hash(p) in s.seenHashes <==> HashAmong(calls, ContentOf(p)))
  {
    var now := CallsOf(s.checked);
    var calls := earlier + now;
    assert forall i :: 0 <= i < |earlier| ==> calls[i] == earlier[i];
    assert forall i :: 0 <= i < |now| ==> calls[|earlier| + i] == now[i];
    assert forall i :: |earlier| <= i < |calls| ==> calls[i] == now[i - |earlier|];
    assert forall i :: 0 <= i < |now| ==> now[i].url == s.checked[i].key;
    assert forall i :: 0 <= i < |now| ==> now[i].contentHash == Hash(s.checked[i]);
    assert p.key in CheckedUrls(s.checked) <==> UrlAmong(now, p.key);
    assert Hash(p) in CheckedHashes(s.checked) <==> HashAmong(now, ContentOf(p));
  }

  /** A page turned away is remembered too: the third page below is dropped although it shares
   *  neither URL nor content with any page that was kept. */
  lemma DroppedWithoutAKeptTwin(c: Config, a: Page, b: Page, d: Page)
    requires c.seenUrls == {} && c.seenHashes == {}
    requires a.key == b.key != d.key && b.contentHash == d.contentHash && !Share(a, d)
    ensures NewOnes(c, [a, b, d]) == [a]
  {
    assert [a, b, d][..2] == [a, b] && [a, b][..1] == [a] && [a][..0] == [];
    assert !IsNew(c, [a], b) by { assert [a][0].key in CheckedUrls([a]); }
    assert !IsNew(c, [a, b], d) by { assert Hash([a, b][1]) in CheckedHashes([a, b]); }
    assert NewOnes(c, [a]) == NewOnes(c, []) + [a];
    assert NewOnes(c, [a, b]) == NewOnes(c, [a]) + [];
  }

  // ---------------------------------------------------------------- what is saved

  lemma {:induction false} DistinctKeysCount(ps: seq<Page>)
    requires forall a, b :: 0 <= a < b < |ps| ==> ps[a].key != ps[b].key
    ensures |BatchKeys(ps)| == |ps|
  {
    if ps != [] {
      var init := ps[..|ps| - 1];
      DistinctKeysCount(init);
      BatchKeysSnoc(ps);
      assert ps[|ps| - 1].key !in BatchKeys(init);
    } else {
      assert BatchKeys(ps) == {};
    }
  }

  lemma SamePagesSameKeys(a: seq<Page>, b: seq<Page>)
    requires multiset(a) == multiset(b)
    ensures BatchKeys(a) == BatchKeys(b)
  {
    SomewhereInBoth(a, b);
    SomewhereInBoth(b, a);
  }

  lemma SomewhereInBoth(a: seq<Page>, b: seq<Page>)
    requires multiset(a) == multiset(b)
    ensures BatchKeys(a) <= BatchKeys(b)
  {
    forall k | k in BatchKeys(a)
      ensures k in BatchKeys(b)
    {
      var i :| 0 <= i < |a| && a[i].key == k;
      assert a[i] in multiset(b);
      var j :| 0 <= j < |b| && b[j] == a[i];
      assert b[j].key == k;
    }
  }

  /** However the tasks were interleaved, the repository afterwards holds what it held plus the
   *  accepted pages, and `saved` is the number of accepted URLs it did not hold. */
  lemma SavedCountsNewUrls(c: Config, es: seq<Step>)
    requires Completes(c, es) && WellFormed(c.store)
    ensures var s := Run(c, Initial(c), es);
      && WellFormed(s.store)
      && Keys(s.store.pages) == Keys(c.store.pages) + BatchKeys(s.accepted)
      && s.saved == |BatchKeys(s.accepted) - Keys(c.store.pages)|
      && |BatchKeys(s.accepted)| == s.processed
  {
    var s := Run(c, Initial(c), es);
    AfterRun(c, es);
    ResultAddsUp(c, es);
    assert StoreInv(c, s);
    hide Inv, ValidRun, Completes, Run;
    BatchingIrrelevant(c.store, s.batches);
    SaveAllFacts(c.store, Flatten(s.batches));
    SamePagesSameKeys(Flatten(s.batches), s.accepted);
    forall a, b | 0 <= a < b < |s.accepted|
      ensures s.accepted[a].key != s.accepted[b].key
    {
      AcceptedAreDistinct(c, s.checked, a, b);
    }
    DistinctKeysCount(s.accepted);
  }

  /** `saved` equals `processed` exactly when no accepted page was stored before. */
  lemma SavedIsProcessedIff(c: Config, es: seq<Step>)
    requires Completes(c, es) && WellFormed(c.store)
    ensures var s := Run(c, Initial(c), es);
      s.saved == s.processed <==> BatchKeys(s.accepted) !! Keys(c.store.pages)
  {
    SavedCountsNewUrls(c, es);
    hide Completes, Run, ValidRun, WellFormed;
    var s := Run(c, Initial(c), es);
    var added, known := BatchKeys(s.accepted), Keys(c.store.pages);
    assert added == (added - known) + (added * known);
    assert |added| == |added - known| + |added * known|;
    if added !! known {
      assert added * known == {};
    } else {
      var k :| k in added && k in known;
      assert k in added * known;
    }
  }

  lemma AcceptedWereNew(c: Config, es: seq<Step>)
    requires ValidRun(c, Initial(c), es)
    ensures var s := Run(c, Initial(c), es);
      && BatchKeys(s.accepted) !! c.seenUrls
      && c.seenUrls + BatchKeys(s.accepted) <= s.seenUrls
  {
    AfterRun(c, es);
    var s := Run(c, Initial(c), es);
    assert DedupInv(c, s);
    hide Inv, ValidRun, Run;
    forall k | k in BatchKeys(s.accepted)
      ensures k in CheckedUrls(s.checked) - c.seenUrls
    {
      var a :| 0 <= a < |s.accepted| && s.accepted[a].key == k;
      NewOnesWereChecked(c, s.checked, a);
    }
  }

  /** Runs of one pipeline object, each starting from what the one before left behind. */
  ghost predicate Session(cs: seq<Config>, ess: seq<seq<Step>>) {
    && |cs| == |ess|
    && (forall i :: 0 <= i < |cs| ==> Completes(cs[i], ess[i]))
    && (forall i :: 0 < i < |cs| ==> Follows(cs[i - 1], ess[i - 1], cs[i]))
  }

  ghost predicate Follows(c: Config, es: seq<Step>, d: Config)
    requires ValidRun(c, Initial(c), es)
  {
    var s := Run(c, Initial(c), es);
    d.seenUrls == s.seenUrls && d.seenHashes == s.seenHashes && d.store == s.store
  }

  /** The pipeline has seen every page of the repository: it is the only writer. */
  ghost predicate SoleWriter(c: Config) { WellFormed(c.store) && Keys(c.store.pages) <= c.seenUrls }

  lemma {:induction false} SoleWriterThroughout(cs: seq<Config>, ess: seq<seq<Step>>, i: nat)
    requires Session(cs, ess) && i < |cs| && SoleWriter(cs[0])
    ensures SoleWriter(cs[i])
  {
    if i > 0 {
      SoleWriterThroughout(cs, ess, i - 1);
      var c, es := cs[i - 1], ess[i - 1];
      assert Completes(c, es) && Follows(c, es, cs[i]);
      SavedCountsNewUrls(c, es);
      AcceptedWereNew(c, es);
    }
  }

  /** A pipeline that is the only writer of an initially empty repository saves what it reports as
   *  processed, in its first run and in every later one. */
  lemma SavedIsProcessedInEveryRun(cs: seq<Config>, ess: seq<seq<Step>>, i: nat)
    requires Session(cs, ess) && i < |cs| && cs[0].store == Store(map[], 1)
    ensures var s := Run(cs[i], Initial(cs[i]), ess[i]); s.saved == s.processed
  {
    assert Keys(cs[0].store.pages) == {};
    SoleWriterThroughout(cs, ess, i);
    assert Completes(cs[i], ess[i]);
    SavedIsProcessedIff(cs[i], ess[i]);
    AcceptedWereNew(cs[i], ess[i]);
  }

  lemma {:induction false} SeenIsKept(cs: seq<Config>, ess: seq<seq<Step>>, i: nat, j: nat)
    requires Session(cs, ess) && i < j < |cs|
    ensures Run(cs[i], Initial(cs[i]), ess[i]).seenUrls <= cs[j].seenUrls
  {
    assert Completes(cs[j - 1], ess[j - 1]) && Follows(cs[j - 1], ess[j - 1], cs[j]);
    if i < j - 1 {
      SeenIsKept(cs, ess, i, j - 1);
      AcceptedWereNew(cs[j - 1], ess[j - 1]);
    }
  }

  /** No URL is accepted in two runs of the same object. */
  lemma RunsAcceptDisjointUrls(cs: seq<Config>, ess: seq<seq<Step>>, i: nat, j: nat)
    requires Session(cs, ess) && i < j < |cs|
    ensures BatchKeys(Run(cs[i], Initial(cs[i]), ess[i]).accepted)
         !! BatchKeys(Run(cs[j], Initial(cs[j]), ess[j]).accepted)
  {
    assert Completes(cs[i], ess[i]) && Completes(cs[j], ess[j]);
    SeenIsKept(cs, ess, i, j);
    AcceptedWereNew(cs[i], ess[i]);
    AcceptedWereNew(cs[j], ess[j]);
  }

  /** What was checked in the runs before run i. */
  ghost predicate CheckedBefore(cs: seq<Config>, ess: seq<seq<Step>>, i: nat, q: Page)
    requires Session(cs, ess) && i <= |cs|
  {
    exists j :: 0 <= j < i && Completes(cs[j], ess[j]) && q in Run(cs[j], Initial(cs[j]), ess[j]).checked
  }

  lemma CheckedBeforeNext(cs: seq<Config>, ess: seq<seq<Step>>, i: nat)
    requires Session(cs, ess) && 0 < i <= |cs| && Completes(cs[i - 1], ess[i - 1])
    ensures var s := Run(cs[i - 1], Initial(cs[i - 1]), ess[i - 1]);
      forall q :: CheckedBefore(cs, ess, i, q) <==> CheckedBefore(cs, ess, i - 1, q) || q in s.checked
  {
    hide Session, Run, ValidRun;
  }

  lemma {:induction false} KnownIsCheckedBefore(cs: seq<Config>, ess: seq<seq<Step>>, i: nat, p: Page)
    requires Session(cs, ess) && i < |cs| && cs[0].seenUrls == {} && cs[0].seenHashes == {}
    ensures Known(cs[i], p) <==> exists q :: CheckedBefore(cs, ess, i, q) && Share(q, p)
  {
    if i > 0 {
      KnownIsCheckedBefore(cs, ess, i - 1, p);
      var c, es := cs[i - 1], ess[i - 1];
      assert Completes(c, es) && Follows(c, es, cs[i]);
      var s := Run(c, Initial(c), es);
      AfterRun(c, es);
      assert DedupInv(c, s);
      CheckedBeforeNext(cs, ess, i);
      KnownAfter(c, s, cs[i], p);
      hide Session, Inv, ValidRun, Run, Known, Share, CheckedBefore, Completes, Follows, DedupInv;
    }
  }

  /** A later run knows what the run before it knew and what it checked. */
  lemma KnownAfter(c: Config, s: State, d: Config, p: Page)
    requires DedupInv(c, s) && d.seenUrls == s.seenUrls && d.seenHashes == s.seenHashes
    ensures Known(d, p) <==> Known(c, p) || exists q :: q in s.checked && Share(q, p)
  {
    var ps := s.checked;
    if i :| 0 <= i < |ps| && ps[i].key == p.key {
      assert ps[i] in s.checked && Share(ps[i], p);
    }
    if i :| 0 <= i < |ps| && Hash(ps[i]) == Hash(p) {
      assert ps[i] in s.checked && Share(ps[i], p);
    }
    if q :| q in ps && Share(q, p) {
      var i :| 0 <= i < |ps| && ps[i] == q;
      assert ps[i].key in CheckedUrls(ps) && Hash(ps[i]) in CheckedHashes(ps);
      assert q.key == p.key || Hash(q) == Hash(p);
    }
  }

  /** Over all runs of a fresh object: a page is accepted exactly when it is checked at some point before
   *  which no page, of that run or an earlier one, had its URL or its content hash. */
  lemma AcceptedIffNewInSession(cs: seq<Config>, ess: seq<seq<Step>>, i: nat, p: Page)
    requires Session(cs, ess) && i < |cs| && cs[0].seenUrls == {} && cs[0].seenHashes == {}
    ensures var s := Run(cs[i], Initial(cs[i]), ess[i]);
      p in s.accepted <==>
        && (exists n :: 0 <= n < |s.checked| && s.checked[n] == p
                        && forall m :: 0 <= m < n ==> !Share(s.checked[m], p))
        && !exists q :: CheckedBefore(cs, ess, i, q) && Share(q, p)
  {
    assert Completes(cs[i], ess[i]);
    KnownIsCheckedBefore(cs, ess, i, p);
    AcceptedIffNew(cs[i], ess[i], p);
  }

  // ---------------------------------------------------------------- back pressure

  /** The size of both queues, from the settings. */
  function QueueLimit(c: Config): nat {
    match c.queueSize
    case Some(n) => if n > 0 then n else if c.workers > 0 then 2 * c.workers else 1
    case None => if c.workers > 0 then 2 * c.workers else 1
  }

  /** Neither queue ever holds more than the settings allow, and a put waits exactly while its queue does. */
  lemma {:induction false} QueuesStayWithinLimit(c: Config, s: State, es: seq<Step>)
    requires ValidRun(c, s, es) && |s.queue| <= QueueLimit(c) && |s.output| <= QueueLimit(c)
    ensures var t := Run(c, s, es);
      && |t.queue| <= QueueLimit(c) && |t.output| <= QueueLimit(c)
      && (t.producer.Feeding? && t.producer.put < |c.urls| ==>
           (Enabled(c, t, PutUrl) <==> |t.queue| < QueueLimit(c)))
      && (t.producer.Stopping? && t.producer.put < c.workers ==>
           (Enabled(c, t, PutSentinel) <==> |t.queue| < QueueLimit(c)))
      && (t.producer.Closing? ==> (Enabled(c, t, PutOutputSentinel) <==> |t.output| < QueueLimit(c)))
      && (forall w :: 0 <= w < |t.workers| && t.workers[w].Putting? ==>
           (Enabled(c, t, PutPage(w)) <==> |t.output| < QueueLimit(c)))
    decreases |es|
  {
    assert Capacity(c) == QueueLimit(c);
    if es != [] {
      StepWithinLimit(c, s, es[0]);
      hide Enabled, Apply;
      QueuesStayWithinLimit(c, Apply(c, s, es[0]), es[1..]);
    }
  }

  lemma StepWithinLimit(c: Config, s: State, e: Step)
    requires Enabled(c, s, e) && |s.queue| <= QueueLimit(c) && |s.output| <= QueueLimit(c)
    ensures |Apply(c, s, e).queue| <= QueueLimit(c) && |Apply(c, s, e).output| <= QueueLimit(c)
  {
    assert Capacity(c) == QueueLimit(c);
  }

  // ---------------------------------------------------------------- every run ends

  function ProducerRank(c: Config, p: Producer): int {
    match p
    case Feeding(n) => |c.urls| - n + c.workers + 6
    case Stopping(n) => c.workers - n + 6
    case Joining => 5
    case Closing => 4
    case AwaitingWriter => 1
    case Finished => 0
  }

  /** What is left to do: every step lowers it. */
  function Work(c: Config, s: State): int {
    ProducerRank(c, s.producer)
    + 5 * Max(|c.urls| - |s.taken|, 0) + (c.workers - Max(|s.taken| - |c.urls|, 0))
    + 4 * Tally(s.workers, AtFetch) + 3 * Tally(s.workers, AtPut)
    + 2 * |s.output| + (if s.writer.Saving? then 1 else 0)
  }

  lemma WorkIsNatural(c: Config, s: State)
    requires Inv(c, s)
    ensures Work(c, s) >= 0
  {
    TallyBounds(s.workers, AtFetch);
    TallyBounds(s.workers, AtPut);
    TallyBounds(s.workers, AtExit);
    assert |s.taken + s.queue| <= |c.urls| + c.workers;
  }

  lemma TakeLowersWork(c: Config, s: State, w: nat)
    requires InputInv(c, s) && Enabled(c, s, Take(w))
    ensures Work(c, Apply(c, s, Take(w))) < Work(c, s)
  {
    NextMessage(c, s);
    hide Tally, InputInv;
    TallyAfter(s.workers, w, if s.queue[0].None? then Exited else Fetching);
  }

  lemma StepLowersWork(c: Config, s: State, e: Step)
    requires InputInv(c, s) && Enabled(c, s, e)
    ensures Work(c, Apply(c, s, e)) < Work(c, s)
  {
    hide Tally;
    match e
    case Take(w) => TakeLowersWork(c, s, w);
    case Discard(w) => TallyAfter(s.workers, w, Idle);
    case Check(w, p) =>
      TallyAfter(s.workers, w, Idle);
      TallyAfter(s.workers, w, Putting(p));
    case PutPage(w) => TallyAfter(s.workers, w, Idle);
    case _ =>
  }

  /** No schedule is longer than six steps a URL, two a worker and six more. */
  lemma {:induction false} EveryRunEnds(c: Config, s: State, es: seq<Step>)
    requires Inv(c, s) && ValidRun(c, s, es)
    ensures |es| + Work(c, Run(c, s, es)) <= Work(c, s)
    ensures |es| <= Work(c, s)
    ensures s == Initial(c) ==> |es| <= 6 * |c.urls| + 2 * c.workers + 6
    decreases |es|
  {
    hide Apply, Enabled;
    if es == [] {
      WorkIsNatural(c, s);
    } else {
      StepLowersWork(c, s, es[0]);
      StepKeepsInv(c, s, es[0]);
      hide Inv;
      EveryRunEnds(c, Apply(c, s, es[0]), es[1..]);
    }
    if s == Initial(c) {
      AllIdle(s.workers, AtFetch);
      AllIdle(s.workers, AtPut);
    }
  }

  ghost predicate Stuck(c: Config, s: State) { forall e :: !Enabled(c, s, e) }

  lemma WriterHasMessage(s: State)
    requires OutputInv(s) && s.producer.AwaitingWriter? && s.writer.Collecting?
    ensures s.output != []
  {
    var done := Flatten(s.batches) + s.batch;
    var l, r := Messages(done) + [] + s.output, Messages(s.emitted) + [None];
    assert l == r;
    assert r[|s.emitted|] == None;
    assert s.output == [] ==> l == Messages(done);
  }

  /** No reachable state is stuck before `run` has returned, given a worker or nothing to do. */
  lemma NeverStuckEarly(c: Config, s: State) returns (e: Step)
    requires Inv(c, s) && !s.producer.Finished? && (c.workers > 0 || c.urls == [])
    ensures Enabled(c, s, e)
  {
    if w :| 0 <= w < |s.workers| && s.workers[w].Fetching? {
      return Discard(w);
    } else if s.writer.Saving? {
      return SaveReturns;
    } else if s.writer.Collecting? && s.output != [] {
      return Write;
    } else if s.producer.AwaitingWriter? {
      if s.writer.Collecting? { WriterHasMessage(s); }
      return WriterAwaited;
    }
    if !SentinelSent(s.producer) { SentinelNotTakenEarly(s); }
    if w :| 0 <= w < |s.workers| && s.workers[w].Putting? {
      return PutPage(w);
    } else if s.producer.Closing? {
      return PutOutputSentinel;
    } else if w :| 0 <= w < |s.workers| && s.workers[w].Idle? && s.queue != [] {
      return Take(w);
    }
    e := ProducerCanGoOn(c, s);
  }

  lemma ProducerCanGoOn(c: Config, s: State) returns (e: Step)
    requires InputInv(c, s) && CountInv(c, s) && !Joined(s.producer) && (c.workers > 0 || c.urls == [])
    requires forall w :: 0 <= w < |s.workers| ==>
      (s.workers[w].Idle? && s.queue == []) || s.workers[w].Exited?
    ensures Enabled(c, s, e)
  {
    TallyBounds(s.workers, AtFetch);
    TallyBounds(s.workers, AtPut);
    TallyBounds(s.workers, AtExit);
    assert |s.taken + s.queue| <= |c.urls| + c.workers;
    assert s.queue != [] ==> Tally(s.workers, AtExit) == |s.workers|;
    e := match s.producer
      case Feeding(_) => PutUrl
      case Stopping(_) => PutSentinel
      case _ => JoinReturns;
  }

  lemma NoWorkersNoJoin(c: Config, s: State)
    requires Inv(c, s) && c.workers == 0 && c.urls != []
    ensures !Joined(s.producer)
  {
    assert Joined(s.producer) ==> |s.taken + s.queue| == |c.urls|;
  }

  /** A run that can go no further has returned, exactly when there is a worker or nothing to
   *  fetch: with no workers and something to fetch every schedule ends in a deadlock. */
  lemma MaximalRunReturnsIff(c: Config, es: seq<Step>)
    requires ValidRun(c, Initial(c), es) && Stuck(c, Run(c, Initial(c), es))
    ensures Completes(c, es) <==> (c.workers > 0 || c.urls == [])
  {
    AfterRun(c, es);
    var s := Run(c, Initial(c), es);
    if c.workers > 0 || c.urls == [] {
      if !s.producer.Finished? {
        var e := NeverStuckEarly(c, s);
      }
    } else {
      NoWorkersNoJoin(c, s);
    }
  }

  /** Every state reached so far can be driven on until nothing is left to do. */
  lemma {:induction false} EveryRunCanBeCompleted(c: Config, s: State) returns (es: seq<Step>)
    requires Inv(c, s)
    ensures ValidRun(c, s, es) && Stuck(c, Run(c, s, es))
    decreases Work(c, s)
  {
    hide Enabled, Apply, Inv;
    if e :| Enabled(c, s, e) {
      assert InputInv(c, s) && CountInv(c, s) by { InvParts(c, s); }
      StepLowersWork(c, s, e);
      StepKeepsInv(c, s, e);
      WorkIsNatural(c, s);
      var rest := EveryRunCanBeCompleted(c, Apply(c, s, e));
      es := [e] + rest;
      assert es[1..] == rest;
    } else {
      es := [];
    }
  }

  lemma InvParts(c: Config, s: State)
    requires Inv(c, s)
    ensures InputInv(c, s) && CountInv(c, s)
  {
  }
}
