/** Per-domain statistics: grouping the page table live, and answering from a rollup table that a
 *  refresh rebuilds.
 *
 * The page table is a sequence of rows; an aggregate is stated over the set of row numbers it
 * counts, so it does not depend on how the rows are visited.
 */
module Rollup {
  import opened Prelude
  import opened Sums
  import opened PageStore

  datatype Row = Row(pages: nat, successes: nat, failures: nat, bytes: int, hashes: nat)

  function Domains(pages: seq<Page>): set<string> { set i | 0 <= i < |pages| :: pages[i].domain }

  function RowsOf(pages: seq<Page>, d: string): set<int> {
    set i | 0 <= i < |pages| && pages[i].domain == d
  }

  predicate Succeeded(p: Page) { p.httpStatus.Some? && 200 <= p.httpStatus.value <= 399 }

  predicate Failed(p: Page) { p.httpStatus.Some? && p.httpStatus.value >= 400 }

  function SuccessesOf(pages: seq<Page>, d: string): set<int> {
    set i | i in RowsOf(pages, d) && Succeeded(pages[i])
  }

  function FailuresOf(pages: seq<Page>, d: string): set<int> {
    set i | i in RowsOf(pages, d) && Failed(pages[i])
  }

  /** The distinct content hashes among the given rows: rows without a hash do not count. */
  function HashesAmong(pages: seq<Page>, rows: set<int>): set<string>
    requires forall i :: i in rows ==> 0 <= i < |pages|
  {
    set i | i in rows && pages[i].contentHash.Some? :: pages[i].contentHash.value
  }

  /** count(distinct content_hash). */
  function HashesOf(pages: seq<Page>, d: string): set<string> { HashesAmong(pages, RowsOf(pages, d)) }

  /** coalesce(sum(content_length), 0). */
  function BytesOf(pages: seq<Page>, d: string): int {
    Sum(seq(|pages|, i requires 0 <= i < |pages| =>
      if pages[i].domain == d && pages[i].contentLength.Some? then pages[i].contentLength.value else 0))
  }

  function RowFor(pages: seq<Page>, d: string): Row {
    Row(|RowsOf(pages, d)|, |SuccessesOf(pages, d)|, |FailuresOf(pages, d)|, BytesOf(pages, d),
        |HashesOf(pages, d)|)
  }

  type Table = map<string, Row>

  /** What a refresh puts in the rollup table. */
  function Grouped(pages: seq<Page>): Table { map d | d in Domains(pages) :: RowFor(pages, d) }

  /** Live grouping: pages per domain. */
  function Live(pages: seq<Page>): map<string, nat> {
    map d | d in Domains(pages) :: |RowsOf(pages, d)|
  }

  /** domain_stats: from the rollup if it has any row, else by live grouping. */
  function Answer(rollup: Table, pages: seq<Page>): map<string, nat> {
    if |rollup| > 0 then map d | d in rollup :: rollup[d].pages else Live(pages)
  }

  lemma EmptyRollupIff(pages: seq<Page>)
    ensures |Grouped(pages)| == 0 <==> pages == []
    ensures pages == [] <==> Domains(pages) == {}
  {
    if pages != [] {
      assert pages[0].domain in Domains(pages);
      assert Grouped(pages).Keys == Domains(pages);
    }
  }

  /** The rollup answers like live grouping now exactly when grouping has not changed since the
   *  refresh, or the refresh found no page at all. */
  lemma AgreementIff(refreshed: seq<Page>, pages: seq<Page>)
    ensures Answer(Grouped(refreshed), pages) == if refreshed == [] then Live(pages) else Live(refreshed)
    ensures Answer(Grouped(refreshed), pages) == Live(pages)
      <==> refreshed == [] || Live(refreshed) == Live(pages)
  {
    EmptyRollupIff(refreshed);
    hide RowsOf, Domains, SuccessesOf, FailuresOf, BytesOf, HashesOf;
    assert refreshed != [] ==> Answer(Grouped(refreshed), pages) == Live(refreshed);
  }

  // ---------------------------------------------------------------- what a row says

  lemma {:induction false} NoMoreHashesThanRows(pages: seq<Page>, rows: set<int>)
    requires forall i :: i in rows ==> 0 <= i < |pages|
    ensures |HashesAmong(pages, rows)| <= |rows|
    decreases |rows|
  {
    var hashes := HashesAmong(pages, rows);
    if rows == {} {
      assert hashes == {};
    } else {
      var i :| i in rows;
      var rest := rows - {i};
      NoMoreHashesThanRows(pages, rest);
      var others := HashesAmong(pages, rest);
      var own := if pages[i].contentHash.Some? then {pages[i].contentHash.value} else {};
      assert hashes <= others + own;
      SubsetSize(hashes, others + own);
      assert |others + own| <= |others| + |own|;
    }
  }

  /** In every row: a page at least, successes and failures are different pages, and no more
   *  distinct contents than pages. Every page is one or the other exactly when each has a status of
   *  200 or above. */
  lemma RowBounds(pages: seq<Page>, d: string)
    requires d in Domains(pages)
    ensures var r := Grouped(pages)[d];
      && 1 <= r.pages
      && r.successes + r.failures <= r.pages
      && r.hashes <= r.pages
      && (r.successes + r.failures == r.pages <==>
           forall i :: i in RowsOf(pages, d) ==> pages[i].httpStatus.Some? && pages[i].httpStatus.value >= 200)
  {
    var all, good, bad := RowsOf(pages, d), SuccessesOf(pages, d), FailuresOf(pages, d);
    var i :| 0 <= i < |pages| && pages[i].domain == d;
    assert i in all;
    SubsetSize({i}, all);
    assert good !! bad && |good + bad| == |good| + |bad|;
    SubsetSize(good + bad, all);
    NoMoreHashesThanRows(pages, all);
    if forall k :: k in all ==> pages[k].httpStatus.Some? && pages[k].httpStatus.value >= 200 {
      assert all == good + bad;
    } else {
      var k :| k in all && !(pages[k].httpStatus.Some? && pages[k].httpStatus.value >= 200);
      assert k !in good + bad;
    }
  }

  // ---------------------------------------------------------------- conservation

  lemma RowsSnoc(pages: seq<Page>, p: Page, d: string)
    ensures |RowsOf(pages + [p], d)| == |RowsOf(pages, d)| + if p.domain == d then 1 else 0
    ensures Domains(pages + [p]) == Domains(pages) + {p.domain}
  {
    assert RowsOf(pages + [p], d) == RowsOf(pages, d) + if p.domain == d then {|pages|} else {};
    DomainsSnoc(pages, p);
  }

  lemma DomainsSnoc(pages: seq<Page>, p: Page)
    ensures Domains(pages + [p]) == Domains(pages) + {p.domain}
  {
    var all := pages + [p];
    assert forall i :: 0 <= i < |pages| ==> all[i].domain == pages[i].domain && all[i].domain in Domains(all);
    assert all[|pages|].domain in Domains(all);
  }

  /** What one more page adds to the row of its domain: a page; a success for a status from 200 to 399, a
   *  failure for one of 400 or above; its length, if known; and a distinct content, if it has a hash that
   *  no page of the domain has yet.  The rows of other domains stay. */
  lemma OneMorePage(pages: seq<Page>, p: Page, d: string)
    ensures var before, after := RowFor(pages, d), RowFor(pages + [p], d);
      if d != p.domain then after == before
      else
        && after.pages == before.pages + 1
        && after.successes == before.successes
             + (if p.httpStatus.Some? && 200 <= p.httpStatus.value < 400 then 1 else 0)
        && after.failures == before.failures + (if p.httpStatus.Some? && p.httpStatus.value >= 400 then 1 else 0)
        && after.bytes == before.bytes + (if p.contentLength.Some? then p.contentLength.value else 0)
        && after.hashes == before.hashes
             + (if p.contentHash.Some? && forall i :: 0 <= i < |pages| && pages[i].domain == d ==>
                  pages[i].contentHash != p.contentHash then 1 else 0)
  {
    OneMoreRow(pages, p, d);
    OneMoreHash(pages, p, d);
    OneMoreLength(pages, p, d);
    hide RowsOf, SuccessesOf, FailuresOf, HashesOf, BytesOf;
  }

  lemma OneMoreRow(pages: seq<Page>, p: Page, d: string)
    ensures var all := pages + [p];
      && |RowsOf(all, d)| == |RowsOf(pages, d)| + (if p.domain == d then 1 else 0)
      && |SuccessesOf(all, d)| == |SuccessesOf(pages, d)|
           + (if p.domain == d && p.httpStatus.Some? && 200 <= p.httpStatus.value < 400 then 1 else 0)
      && |FailuresOf(all, d)| == |FailuresOf(pages, d)|
           + (if p.domain == d && p.httpStatus.Some? && p.httpStatus.value >= 400 then 1 else 0)
  {
    RowsSnoc(pages, p, d);
    OneMoreSuccess(pages, p, d);
    OneMoreFailure(pages, p, d);
    hide RowsOf, SuccessesOf, FailuresOf;
  }

  lemma OneMoreSuccess(pages: seq<Page>, p: Page, d: string)
    ensures |SuccessesOf(pages + [p], d)| == |SuccessesOf(pages, d)|
         + (if p.domain == d && p.httpStatus.Some? && 200 <= p.httpStatus.value < 400 then 1 else 0)
  {
    assert SuccessesOf(pages + [p], d)
        == SuccessesOf(pages, d) + if p.domain == d && Succeeded(p) then {|pages|} else {};
  }

  lemma OneMoreFailure(pages: seq<Page>, p: Page, d: string)
    ensures |FailuresOf(pages + [p], d)| == |FailuresOf(pages, d)|
         + (if p.domain == d && p.httpStatus.Some? && p.httpStatus.value >= 400 then 1 else 0)
  {
    assert FailuresOf(pages + [p], d) == FailuresOf(pages, d) + if p.domain == d && Failed(p) then {|pages|} else {};
  }

  lemma OneMoreHash(pages: seq<Page>, p: Page, d: string)
    ensures |HashesOf(pages + [p], d)| == |HashesOf(pages, d)|
         + (if p.domain == d && p.contentHash.Some?
               && forall i :: 0 <= i < |pages| && pages[i].domain == d ==> pages[i].contentHash != p.contentHash
            then 1 else 0)
  {
    HashesSnoc(pages, p, d);
    if p.contentHash.Some? {
      var own := {p.contentHash.value};
      assert HashesOf(pages, d) + own == if p.contentHash.value in HashesOf(pages, d) then HashesOf(pages, d)
                                         else HashesOf(pages, d) + own;
      assert (forall i :: 0 <= i < |pages| && pages[i].domain == d ==> pages[i].contentHash != p.contentHash)
        <==> p.contentHash.value !in HashesOf(pages, d);
    }
  }

  lemma HashesSnoc(pages: seq<Page>, p: Page, d: string)
    ensures HashesOf(pages + [p], d)
         == HashesOf(pages, d) + if p.domain == d && p.contentHash.Some? then {p.contentHash.value} else {}
    ensures p.contentHash.Some? ==>
      (p.contentHash.value in HashesOf(pages, d) <==>
        exists i :: 0 <= i < |pages| && pages[i].domain == d && pages[i].contentHash == p.contentHash)
  {
    var all := pages + [p];
    assert forall i :: 0 <= i < |pages| ==> all[i] == pages[i];
    assert all[|pages|] == p;
    forall h | h in HashesOf(pages, d)
      ensures h in HashesOf(all, d)
    {
      var i :| i in RowsOf(pages, d) && pages[i].contentHash == Some(h);
      assert i in RowsOf(all, d) && all[i].contentHash == Some(h);
    }
    if p.domain == d && p.contentHash.Some? {
      assert |pages| in RowsOf(all, d);
    }
    if i :| 0 <= i < |pages| && pages[i].domain == d && pages[i].contentHash == p.contentHash && p.contentHash.Some? {
      assert i in RowsOf(pages, d);
    }
  }

  lemma OneMoreLength(pages: seq<Page>, p: Page, d: string)
    ensures BytesOf(pages + [p], d)
         == BytesOf(pages, d) + if p.domain == d && p.contentLength.Some? then p.contentLength.value else 0
  {
    var all := pages + [p];
    var n := |pages|;
    var xs := seq(n, i requires 0 <= i < n =>
      if pages[i].domain == d && pages[i].contentLength.Some? then pages[i].contentLength.value else 0);
    var ys := seq(n + 1, i requires 0 <= i < n + 1 =>
      if all[i].domain == d && all[i].contentLength.Some? then all[i].contentLength.value else 0);
    assert ys[..n] == xs;
  }

  function Counts(pages: seq<Page>, ds: seq<string>): seq<int> {
    seq(|ds|, k requires 0 <= k < |ds| => |RowsOf(pages, ds[k])|)
  }

  ghost predicate Lists(ds: seq<string>, domains: set<string>) {
    && (forall j, k :: 0 <= j < k < |ds| ==> ds[j] != ds[k])
    && (forall d :: d in domains ==> d in ds)
  }

  /** The page counts of all domains, in whatever order they are listed, sum to the number of pages. */
  lemma {:induction false} CountsSumToPages(pages: seq<Page>, ds: seq<string>)
    requires Lists(ds, Domains(pages))
    ensures Sum(Counts(pages, ds)) == |pages|
  {
    if pages == [] {
      SumScale(Counts([], ds), Counts([], ds), 0);
    } else {
      var init, p := pages[..|pages| - 1], pages[|pages| - 1];
      assert pages == init + [p];
      RowsSnoc(init, p, p.domain);
      forall d {
        RowsSnoc(init, p, d);
      }
      var k :| 0 <= k < |ds| && ds[k] == p.domain;
      CountsSumToPages(init, ds);
      SumUpdate(Counts(init, ds), Counts(pages, ds), k);
    }
  }

  // ---------------------------------------------------------------- until when it agrees

  function KeyIndex(pages: seq<Page>, key: string): (r: Option<nat>)
    ensures r.Some? ==> r.value < |pages| && pages[r.value].key == key
    ensures r.None? ==> forall i :: 0 <= i < |pages| ==> pages[i].key != key
  {
    if pages == [] then None
    else if pages[|pages| - 1].key == key then Some(|pages| - 1)
    else KeyIndex(pages[..|pages| - 1], key)
  }

  /** Saving one page: the row with its normalized URL is overwritten, or a row is added. */
  function Upsert(pages: seq<Page>, p: Page): seq<Page> {
    var i := KeyIndex(pages, p.key);
    if i.Some? then pages[i.value := p] else pages + [p]
  }

  /** After saving a page, a row with its URL holds it, every row with another URL is as it was, and there
   *  is one row more exactly when no row had the URL. */
  lemma UpsertMeans(pages: seq<Page>, p: Page)
    ensures p in Upsert(pages, p)
    ensures forall i :: 0 <= i < |pages| ==>
      i < |Upsert(pages, p)| && (Upsert(pages, p)[i] == pages[i] || (pages[i].key == p.key && Upsert(pages, p)[i] == p))
    ensures |Upsert(pages, p)| == |pages| + if exists i :: 0 <= i < |pages| && pages[i].key == p.key then 0 else 1
  {
    var i := KeyIndex(pages, p.key);
    assert Upsert(pages, p)[if i.Some? then i.value else |pages|] == p;
  }

  /** Saving a page leaves the live counts as they were exactly when it overwrites a row of the same
   *  domain. */
  lemma SaveKeepsCountsIff(pages: seq<Page>, p: Page)
    ensures Live(Upsert(pages, p)) == Live(pages)
      <==> var i := KeyIndex(pages, p.key); i.Some? && pages[i.value].domain == p.domain
  {
    var i := KeyIndex(pages, p.key);
    var after := Upsert(pages, p);
    var d := p.domain;
    assert p in after && d in Domains(after) by {
      var at := if i.Some? then i.value else |pages|;
      assert after[at] == p && after[at].domain in Domains(after);
    }
    if i.None? {
      RowsSnoc(pages, p, d);
      assert Live(after)[d] == |RowsOf(pages, d)| + 1;
    } else if pages[i.value].domain == d {
      assert forall e :: RowsOf(after, e) == RowsOf(pages, e);
      SameDomains(pages, after);
    } else {
      assert RowsOf(after, d) == RowsOf(pages, d) + {i.value};
      assert i.value !in RowsOf(pages, d);
      assert Live(after)[d] == |RowsOf(pages, d)| + 1;
    }
  }

  lemma SameDomains(a: seq<Page>, b: seq<Page>)
    requires |a| == |b| && forall i :: 0 <= i < |a| ==> a[i].domain == b[i].domain
    ensures Live(a) == Live(b)
  {
    assert Domains(a) == Domains(b);
    assert forall d :: RowsOf(a, d) == RowsOf(b, d);
  }

  /** Agreement reached by a refresh of a table with pages in it survives a save exactly when the
   *  save overwrites a page without moving it to another domain. */
  lemma AgreementSurvivesSaveIff(refreshed: seq<Page>, pages: seq<Page>, p: Page)
    requires refreshed != [] && Answer(Grouped(refreshed), pages) == Live(pages)
    ensures Answer(Grouped(refreshed), Upsert(pages, p)) == Live(Upsert(pages, p))
      <==> var i := KeyIndex(pages, p.key); i.Some? && pages[i.value].domain == p.domain
  {
    AgreementIff(refreshed, pages);
    AgreementIff(refreshed, Upsert(pages, p));
    SaveKeepsCountsIff(pages, p);
  }

  // ---------------------------------------------------------------- the operations

  /** The in-memory repository counts page by page. */
  method CountDomains(pages: seq<Page>) returns (counts: map<string, nat>)
    ensures counts == Live(pages)
  {
    counts := map[];
    for n := 0 to |pages|
      invariant counts == Live(pages[..n])
    {
      var d := pages[n].domain;
      assert pages[..n + 1] == pages[..n] + [pages[n]];
      forall e {
        RowsSnoc(pages[..n], pages[n], e);
      }
      if d !in Domains(pages[..n]) {
        NoRowsElsewhere(pages[..n], d);
      }
      counts := counts[d := (if d in counts then counts[d] else 0) + 1];
    }
    assert pages[..|pages|] == pages;
  }

  lemma NoRowsElsewhere(pages: seq<Page>, d: string)
    requires d !in Domains(pages)
    ensures RowsOf(pages, d) == {}
  {
    assert forall i :: 0 <= i < |pages| ==> pages[i].domain in Domains(pages);
  }

  class StatisticsTables {
    var pages: seq<Page>
    var rollup: Table
    ghost var refreshed: seq<Page>     // the page table as the last refresh saw it

    ghost predicate Valid()
      reads this
    {
      rollup == Grouped(refreshed)
    }

    constructor ()
      ensures Valid() && pages == [] && refreshed == []
    {
      pages, rollup, refreshed := [], map[], [];
    }

    method SavePage(p: Page)
      requires Valid()
      modifies this`pages
      ensures Valid() && pages == Upsert(old(pages), p)
    {
      pages := Upsert(pages, p);
    }

    method DomainStats() returns (counts: map<string, nat>)
      requires Valid()
      ensures counts == if refreshed != [] then Live(refreshed) else Live(pages)
      ensures counts == Live(pages) <==> refreshed == [] || Live(refreshed) == Live(pages)
    {
      AgreementIff(refreshed, pages);
      EmptyRollupIff(refreshed);
      hide Live, Grouped;
      if |rollup| > 0 {
        counts := map d | d in rollup :: rollup[d].pages;
      } else {
        counts := CountDomains(pages);
      }
    }

    /** Rebuilds the rollup; answers with the number of domains. */
    method RefreshDomainStats() returns (n: nat)
      requires Valid()
      modifies this`rollup, this`refreshed
      ensures Valid() && refreshed == pages
      ensures n == |Domains(pages)|
      ensures Answer(rollup, pages) == Live(pages)
    {
      AgreementIff(pages, pages);
      rollup := Grouped(pages);
      refreshed := pages;
      assert rollup.Keys == Domains(pages);
      n := |rollup|;
    }
  }
}
