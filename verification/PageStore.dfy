/** The page table of the in-memory repository: pages numbered in the order they were first saved,
 *  at most one per normalized URL. */
module PageStore {
  import opened Prelude

  /** A page record, reduced to the columns other parts of the model read; `body` stands for the
   *  rest.  `key` is the normalized URL. */
  datatype Page = Page(
    key: string,
    domain: string,
    contentHash: Option<string>,
    httpStatus: Option<int>,
    contentLength: Option<int>,
    body: string)

  datatype Store = Store(pages: map<int, Page>, next: int)

  function Keys(pages: map<int, Page>): set<string> { set i | i in pages :: pages[i].key }

  function BatchKeys(batch: seq<Page>): set<string> { set i | 0 <= i < |batch| :: batch[i].key }

  ghost predicate WellFormed(st: Store) {
    && st.next >= 1
    && (forall i :: i in st.pages <==> 1 <= i < st.next)
    && (forall i, j :: i in st.pages && j in st.pages && st.pages[i].key == st.pages[j].key ==> i == j)
  }

  function SaveOne(st: Store, p: Page): Store {
    if p.key in Keys(st.pages) then st else Store(st.pages[st.next := p], st.next + 1)
  }

  /** The store after saving the batch, page by page. */
  function SaveAll(st: Store, batch: seq<Page>): Store {
    if batch == [] then st else SaveOne(SaveAll(st, batch[..|batch| - 1]), batch[|batch| - 1])
  }

  /** What one save_pages call reports. */
  function Saved(st: Store, batch: seq<Page>): int { SaveAll(st, batch).next - st.next }

  lemma SaveOneFacts(st: Store, p: Page)
    requires WellFormed(st)
    ensures WellFormed(SaveOne(st, p))
    ensures Keys(SaveOne(st, p).pages) == Keys(st.pages) + {p.key}
  {
    var st' := SaveOne(st, p);
    if p.key !in Keys(st.pages) {
      assert st'.pages[st.next].key == p.key;
      assert forall i :: i in st.pages ==> st'.pages[i] == st.pages[i] && st'.pages[i].key in Keys(st.pages);
      forall k | k in Keys(st.pages)
        ensures k in Keys(st'.pages)
      {
        var i :| i in st.pages && st.pages[i].key == k;
        assert st'.pages[i].key == k;
      }
    }
  }

  lemma {:induction false} SaveAllKeys(st: Store, batch: seq<Page>)
    requires WellFormed(st)
    ensures WellFormed(SaveAll(st, batch))
    ensures Keys(SaveAll(st, batch).pages) == Keys(st.pages) + BatchKeys(batch)
  {
    if batch == [] {
      assert BatchKeys(batch) == {};
    } else {
      BatchKeysSnoc(batch);
      SaveAllKeys(st, batch[..|batch| - 1]);
      SaveOneFacts(SaveAll(st, batch[..|batch| - 1]), batch[|batch| - 1]);
    }
  }

  lemma BatchKeysSnoc(batch: seq<Page>)
    requires batch != []
    ensures BatchKeys(batch) == BatchKeys(batch[..|batch| - 1]) + {batch[|batch| - 1].key}
  {
  }

  lemma {:induction false} SaveAllKeepsOld(st: Store, batch: seq<Page>, i: int)
    requires WellFormed(st) && i in st.pages
    ensures i in SaveAll(st, batch).pages && SaveAll(st, batch).pages[i] == st.pages[i]
  {
    if batch != [] {
      SaveAllKeys(st, batch[..|batch| - 1]);
      SaveAllKeepsOld(st, batch[..|batch| - 1], i);
    }
  }

  /** Stored normalized URLs stay unique with ids below next, the stored keys grow by exactly the
   *  keys of the batch, and the count returned is the number of distinct new keys. */
  lemma {:induction false} SaveAllFacts(st: Store, batch: seq<Page>)
    requires WellFormed(st)
    ensures WellFormed(SaveAll(st, batch))
    ensures Keys(SaveAll(st, batch).pages) == Keys(st.pages) + BatchKeys(batch)
    ensures Saved(st, batch) == |BatchKeys(batch) - Keys(st.pages)|
  {
    SaveAllKeys(st, batch);
    if batch == [] {
      assert BatchKeys(batch) - Keys(st.pages) == {};
    } else {
      var init, p := batch[..|batch| - 1], batch[|batch| - 1];
      SaveAllKeys(st, init);
      SaveAllFacts(st, init);
      BatchKeysSnoc(batch);
      NewKeyCount(Keys(st.pages), BatchKeys(init), p.key);
    }
  }

  /** Saving A and then B is saving A followed by B at once. */
  lemma {:induction false} SaveAppend(st: Store, a: seq<Page>, b: seq<Page>)
    ensures SaveAll(st, a + b) == SaveAll(SaveAll(st, a), b)
    ensures Saved(st, a + b) == Saved(st, a) + Saved(SaveAll(st, a), b)
  {
    if b == [] {
      assert a + b == a;
    } else {
      var n := |a| + |b| - 1;
      assert (a + b)[..n] == a + b[..|b| - 1];
      SaveAppend(st, a, b[..|b| - 1]);
    }
  }

  /** The first page of a batch with a new key is the one stored: later ones do not overwrite it. */
  lemma FirstWriteWins(st: Store, batch: seq<Page>, a: nat)
    requires WellFormed(st) && a < |batch| && batch[a].key !in Keys(st.pages)
    requires forall b :: 0 <= b < a ==> batch[b].key != batch[a].key
    ensures var i := SaveAll(st, batch[..a]).next;
      i in SaveAll(st, batch).pages && SaveAll(st, batch).pages[i] == batch[a]
  {
    var upTo := batch[..a + 1];
    assert upTo[..a] == batch[..a] && batch == upTo + batch[a + 1..];
    SaveAllKeys(st, batch[..a]);
    SaveAllKeys(st, upTo);
    assert batch[a].key !in BatchKeys(batch[..a]);
    SaveAppend(st, upTo, batch[a + 1..]);
    SaveAllKeepsOld(SaveAll(st, upTo), batch[a + 1..], SaveAll(st, batch[..a]).next);
  }

  lemma {:induction false} KnownKeysChangeNothing(st: Store, batch: seq<Page>)
    requires BatchKeys(batch) <= Keys(st.pages)
    ensures SaveAll(st, batch) == st
  {
    if batch != [] {
      var init := batch[..|batch| - 1];
      assert batch[|batch| - 1].key in BatchKeys(batch);
      assert BatchKeys(init) <= BatchKeys(batch);
      KnownKeysChangeNothing(st, init);
    }
  }

  /** Saving the same batch again reports zero and changes nothing. */
  lemma SaveTwiceIsSaveOnce(st: Store, batch: seq<Page>)
    requires WellFormed(st)
    ensures SaveAll(SaveAll(st, batch), batch) == SaveAll(st, batch)
    ensures Saved(SaveAll(st, batch), batch) == 0
  {
    SaveAllFacts(st, batch);
    KnownKeysChangeNothing(SaveAll(st, batch), batch);
  }

  function Flatten<T>(batches: seq<seq<T>>): seq<T> {
    if batches == [] then [] else Flatten(batches[..|batches| - 1]) + batches[|batches| - 1]
  }

  /** The store after a sequence of save calls, and the sum of what they report. */
  function SaveBatches(st: Store, batches: seq<seq<Page>>): Store {
    if batches == [] then st
    else SaveAll(SaveBatches(st, batches[..|batches| - 1]), batches[|batches| - 1])
  }

  function SavedBatches(st: Store, batches: seq<seq<Page>>): int {
    if batches == [] then 0
    else
      var init := batches[..|batches| - 1];
      SavedBatches(st, init) + Saved(SaveBatches(st, init), batches[|batches| - 1])
  }

  /** However the pages are cut into batches, the store and the total are the same. */
  lemma {:induction false} BatchingIrrelevant(st: Store, batches: seq<seq<Page>>)
    ensures SaveBatches(st, batches) == SaveAll(st, Flatten(batches))
    ensures SavedBatches(st, batches) == Saved(st, Flatten(batches))
  {
    if batches != [] {
      var init := batches[..|batches| - 1];
      BatchingIrrelevant(st, init);
      SaveAppend(st, Flatten(init), batches[|batches| - 1]);
    }
  }
}
