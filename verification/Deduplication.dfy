/** What the deduplicator remembers between calls, and what it answers from it. */
module Deduplication {
  import opened Prelude

  datatype Answer = Answer(urlSeen: bool, contentSeen: bool, nearDuplicate: bool)

  /** The arguments of one check_and_remember call. */
  datatype Call = Call(url: string, contentHash: string, text: string)

  predicate UrlAmong(calls: seq<Call>, url: string) { exists i :: 0 <= i < |calls| && calls[i].url == url }

  predicate HashAmong(calls: seq<Call>, hash: string) {
    exists i :: 0 <= i < |calls| && calls[i].contentHash == hash
  }

  predicate SimilarAmong(similar: string -> bool, calls: seq<Call>) {
    exists i :: 0 <= i < |calls| && calls[i].text != "" && similar(calls[i].text)
  }

  /** The texts kept for comparison: those that were not empty, in order. */
  function TextsOf(calls: seq<Call>): seq<string> {
    if calls == [] then []
    else
      var last := calls[|calls| - 1];
      TextsOf(calls[..|calls| - 1]) + if last.text == "" then [] else [last.text]
  }

  lemma {:induction false} SomeTextIff(p: string -> bool, calls: seq<Call>)
    ensures (exists i :: 0 <= i < |TextsOf(calls)| && p(TextsOf(calls)[i])) <==> SimilarAmong(p, calls)
  {
    if calls != [] {
      var init, last := calls[..|calls| - 1], calls[|calls| - 1];
      SomeTextIff(p, init);
      assert forall i :: 0 <= i < |init| ==> init[i] == calls[i];
      if last.text != "" {
        assert TextsOf(calls)[|TextsOf(init)|] == last.text;
      }
      if i :| 0 <= i < |TextsOf(init)| && p(TextsOf(init)[i]) {
        assert TextsOf(calls)[i] == TextsOf(init)[i];
        assert SimilarAmong(p, init);
        var j :| 0 <= j < |init| && init[j].text != "" && p(init[j].text);
        assert calls[j].text != "" && p(calls[j].text);
      }
    }
  }

  class Deduplicator {
    const threshold: Option<real>
    const similarity: (string, string) -> real
    var urls: set<string>
    var contentHashes: set<string>
    var texts: seq<string>
    ghost var calls: seq<Call>

    ghost predicate Valid()
      reads this
    {
      && (forall u :: u in urls <==> UrlAmong(calls, u))
      && (forall h :: h in contentHashes <==> HashAmong(calls, h))
      && texts == TextsOf(calls)
    }

    constructor (threshold: Option<real>, similarity: (string, string) -> real)
      ensures Valid() && calls == [] && urls == {} && contentHashes == {}
      ensures this.threshold == threshold && this.similarity == similarity
    {
      this.threshold, this.similarity := threshold, similarity;
      urls, contentHashes, texts, calls := {}, {}, [], [];
    }

    function IsNear(text: string): string -> bool {
      other => threshold.Some? && similarity(text, other) >= threshold.value
    }

    /** Each answer is about the calls made before this one, whatever those were answered. */
    method CheckAndRemember(url: string, contentHash: string, text: string) returns (r: Answer)
      requires Valid()
      modifies this
      ensures Valid() && calls == old(calls) + [Call(url, contentHash, text)]
      ensures urls == old(urls) + {url} && contentHashes == old(contentHashes) + {contentHash}
      ensures r.urlSeen <==> UrlAmong(old(calls), url)
      ensures r.contentSeen <==> HashAmong(old(calls), contentHash)
      ensures r.nearDuplicate <==> SimilarAmong(IsNear(text), old(calls))
    {
      hide SimilarAmong, IsNear;
      var urlSeen := url in urls;
      var contentSeen := contentHash in contentHashes;
      var near := AnyNear(text);
      assert (calls + [Call(url, contentHash, text)])[..|calls|] == calls;
      AmongSnoc(calls, Call(url, contentHash, text));
      urls := urls + {url};
      contentHashes := contentHashes + {contentHash};
      if text != "" {
        texts := texts + [text];
      }
      calls := calls + [Call(url, contentHash, text)];
      r := Answer(urlSeen, contentSeen, near);
    }

    method AnyNear(text: string) returns (near: bool)
      requires Valid()
      ensures near <==> SimilarAmong(IsNear(text), calls)
    {
      SomeTextIff(IsNear(text), calls);
      if threshold.None? {
        return false;
      }
      for k := 0 to |texts|
        invariant forall i :: 0 <= i < k ==> !IsNear(text)(texts[i])
      {
        if similarity(text, texts[k]) >= threshold.value {
          assert IsNear(text)(texts[k]);
          return true;
        }
      }
      near := false;
    }
  }

  lemma AmongSnoc(calls: seq<Call>, c: Call)
    ensures forall u :: UrlAmong(calls + [c], u) <==> UrlAmong(calls, u) || u == c.url
    ensures forall h :: HashAmong(calls + [c], h) <==> HashAmong(calls, h) || h == c.contentHash
  {
    var all := calls + [c];
    assert all[|calls|] == c;
    assert forall i :: 0 <= i < |calls| ==> all[i] == calls[i];
    forall u
      ensures UrlAmong(all, u) <==> UrlAmong(calls, u) || u == c.url
    {
      if i :| 0 <= i < |calls| && calls[i].url == u { assert all[i].url == u; }
    }
    forall h
      ensures HashAmong(all, h) <==> HashAmong(calls, h) || h == c.contentHash
    {
      if i :| 0 <= i < |calls| && calls[i].contentHash == h { assert all[i].contentHash == h; }
    }
  }
}
