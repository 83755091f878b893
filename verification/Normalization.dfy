/** URL normalization, the key pages are deduplicated by.
 *
 * A URL comes in the parts urlsplit finds in it, with its query as text.  Text is a sequence of
 * bytes in UTF-8, whose order is the order of code points.
 */
module Normalization {
  import opened Prelude
  import opened Sorting

  type Byte = c: char | c as int < 256 witness 'a'
  type Text = seq<Byte>

  datatype Url = Url(scheme: Text, host: Text, port: Option<nat>, path: Text, query: Text, fragment: Text)

  datatype Pair = Pair(key: Text, value: Text)

  // ---------------------------------------------------------------- characters

  predicate IsDigit(c: Byte) { '0' <= c <= '9' }
  predicate IsUpper(c: Byte) { 'A' <= c <= 'Z' }
  predicate IsLower(c: Byte) { 'a' <= c <= 'z' }

  /** Never quoted by urllib. */
  predicate Unreserved(c: Byte) { IsDigit(c) || IsUpper(c) || IsLower(c) || c in "_.-~" }

  predicate PathSafe(c: Byte) { Unreserved(c) || c in "/%:@" }

  function LowerByte(c: Byte): Byte { if IsUpper(c) then (c as int + 32) as char else c }

  function Lower(t: Text): (r: Text)
    ensures |r| == |t|
  {
    seq(|t|, i requires 0 <= i < |t| => LowerByte(t[i]))
  }

  function HexDigit(d: int): (c: Byte)
    requires 0 <= d < 16
    ensures HexValue(c) == Some(d)
    ensures d < 10 ==> IsDigit(c)
  {
    if d < 10 then ('0' as int + d) as char else ('A' as int + d - 10) as char
  }

  function HexValue(c: Byte): Option<int> {
    if IsDigit(c) then Some(c as int - '0' as int)
    else if 'A' <= c <= 'F' then Some(c as int - 'A' as int + 10)
    else if 'a' <= c <= 'f' then Some(c as int - 'a' as int + 10)
    else None
  }

  function Percent(c: Byte): Text { ['%', HexDigit(c as int / 16), HexDigit(c as int % 16)] }

  // ---------------------------------------------------------------- quoting

  /** quote(t, safe="/%:@"). */
  function QuotePath(t: Text): Text {
    if t == [] then [] else PathByte(t[0]) + QuotePath(t[1..])
  }

  function PlusByte(c: Byte): Text {
    if c == ' ' then ['+'] else if Unreserved(c) then [c] else Percent(c)
  }

  function QuotePlus(t: Text): Text {
    if t == [] then [] else PlusByte(t[0]) + QuotePlus(t[1..])
  }

  /** A percent sign not followed by two hexadecimal digits stands for itself. */
  function UnquotePlus(t: Text): Text {
    if t == [] then []
    else if t[0] == '+' then [' '] + UnquotePlus(t[1..])
    else if t[0] == '%' && |t| >= 3 && HexValue(t[1]).Some? && HexValue(t[2]).Some? then
      [(HexValue(t[1]).value * 16 + HexValue(t[2]).value) as char] + UnquotePlus(t[3..])
    else [t[0]] + UnquotePlus(t[1..])
  }

  lemma UnquoteOne(c: Byte, rest: Text)
    ensures UnquotePlus(PlusByte(c) + rest) == [c] + UnquotePlus(rest)
  {
    var t := PlusByte(c) + rest;
    if c != ' ' && !Unreserved(c) {
      assert t[0] == '%' && t[3..] == rest;
      assert HexValue(t[1]) == Some(c as int / 16) && HexValue(t[2]) == Some(c as int % 16);
    } else {
      assert t[1..] == rest;
    }
  }

  lemma {:induction false} UnquoteQuote(t: Text)
    ensures UnquotePlus(QuotePlus(t)) == t
  {
    if t != [] {
      UnquoteQuote(t[1..]);
      UnquoteOne(t[0], QuotePlus(t[1..]));
    }
  }

  /** Quoted text contains no separator. */
  lemma {:induction false} QuotedHasNoSeparator(t: Text)
    ensures forall c | c in QuotePlus(t) :: c != '&' && c != '=' && c != '#'
  {
    if t != [] {
      QuotedHasNoSeparator(t[1..]);
      assert forall c | c in PlusByte(t[0]) :: c != '&' && c != '=' && c != '#';
    }
  }

  // ---------------------------------------------------------------- decoding with replacement

  /** What bytes that are not UTF-8 are replaced by: U+FFFD. */
  const REPLACEMENT: Text := [239 as char, 191 as char, 189 as char]

  /** How many bytes a character starting with this byte has; zero if none starts with it. */
  function LeadLength(c: Byte): nat {
    var b := c as int;
    if b < 0x80 then 1
    else if 0xC2 <= b < 0xE0 then 2
    else if 0xE0 <= b < 0xF0 then 3
    else if 0xF0 <= b < 0xF5 then 4
    else 0
  }

  predicate Continues(c: Byte) { 0x80 <= c as int < 0xC0 }

  predicate ContinuesSecond(lead: Byte, c: Byte) {
    && Continues(c)
    && (lead as int == 0xE0 ==> c as int >= 0xA0) && (lead as int == 0xED ==> (c as int) < 0xA0)
    && (lead as int == 0xF0 ==> c as int >= 0x90) && (lead as int == 0xF4 ==> (c as int) < 0x90)
  }

  /** How many bytes are decoded together: a character, or the longest start of one. */
  function Unit(t: Text): (n: nat)
    requires t != []
    ensures 1 <= n <= |t|
  {
    var n := LeadLength(t[0]);
    if n <= 1 || |t| < 2 || !ContinuesSecond(t[0], t[1]) then 1
    else if n == 2 || |t| < 3 || !Continues(t[2]) then 2
    else if n == 3 || |t| < 4 || !Continues(t[3]) then 3
    else 4
  }

  /** The text starts with a complete character. */
  predicate Whole(t: Text)
    requires t != []
  {
    Unit(t) == LeadLength(t[0])
  }

  /** bytes.decode("utf-8", errors="replace"), encoded again. */
  function Decoded(t: Text): Text {
    if t == [] then []
    else (if Whole(t) then t[..Unit(t)] else REPLACEMENT) + Decoded(t[Unit(t)..])
  }

  predicate Utf8(t: Text) { t == [] || (Whole(t) && Utf8(t[Unit(t)..])) }

  /** One of the characters is the replacement character. */
  predicate HasReplacement(t: Text) {
    t != [] && (t[..Unit(t)] == REPLACEMENT || HasReplacement(t[Unit(t)..]))
  }

  lemma WholeInFront(w: Text, rest: Text)
    requires w != [] && Whole(w) && Unit(w) == |w|
    ensures Whole(w + rest) && Unit(w + rest) == |w|
    ensures (w + rest)[..|w|] == w && (w + rest)[|w|..] == rest
  {
    var t := w + rest;
    assert t[0] == w[0] && (|w| >= 2 ==> t[1] == w[1]) && (|w| >= 3 ==> t[2] == w[2]) && (|w| >= 4 ==> t[3] == w[3]);
  }

  lemma WholeAlone(t: Text)
    requires t != [] && Whole(t)
    ensures Whole(t[..Unit(t)]) && Unit(t[..Unit(t)]) == Unit(t)
  {
  }

  lemma ReplacementIsWhole()
    ensures Whole(REPLACEMENT) && Unit(REPLACEMENT) == 3
  {
  }

  /** What the first unit of a text decodes to is a complete character. */
  lemma FirstDecoded(t: Text) returns (w: Text)
    requires t != []
    ensures w == if Whole(t) then t[..Unit(t)] else REPLACEMENT
    ensures w != [] && Whole(w) && Unit(w) == |w| && Decoded(t) == w + Decoded(t[Unit(t)..])
  {
    w := if Whole(t) then t[..Unit(t)] else REPLACEMENT;
    ReplacementIsWhole();
    if Whole(t) { WholeAlone(t); }
  }

  lemma {:induction false} DecodedIsUtf8(t: Text)
    ensures Utf8(Decoded(t))
    decreases |t|
  {
    if t != [] {
      DecodedIsUtf8(t[Unit(t)..]);
      var w := FirstDecoded(t);
      WholeInFront(w, Decoded(t[Unit(t)..]));
    }
  }

  /** Decoding leaves a text alone exactly when it is UTF-8. */
  lemma {:induction false} DecodedIsSameIff(t: Text)
    ensures Decoded(t) == t <==> Utf8(t)
    decreases |t|
  {
    if t != [] {
      var rest := t[Unit(t)..];
      DecodedIsSameIff(rest);
      var w := FirstDecoded(t);
      WholeInFront(w, Decoded(rest));
      assert t == t[..Unit(t)] + rest;
      assert Whole(Decoded(t));
    }
  }

  lemma {:induction false} NothingReplaced(t: Text)
    requires !HasReplacement(Decoded(t))
    ensures Decoded(t) == t
    decreases |t|
  {
    if t != [] {
      var rest := t[Unit(t)..];
      var w := FirstDecoded(t);
      WholeInFront(w, Decoded(rest));
      NothingReplaced(rest);
    }
  }

  /** The text with a byte no character has in place of its first replacement character. */
  function WithBadByte(t: Text): (r: Text)
    requires HasReplacement(t)
    ensures |r| == |t| - 2
  {
    if t[..Unit(t)] == REPLACEMENT then ['\U{FF}'] + t[Unit(t)..]
    else t[..Unit(t)] + WithBadByte(t[Unit(t)..])
  }

  lemma {:induction false} BadByteIsReplaced(t: Text)
    requires Utf8(t) && HasReplacement(t)
    ensures Decoded(WithBadByte(t)) == Decoded(t)
    decreases |t|
  {
    var w, rest := t[..Unit(t)], t[Unit(t)..];
    var r := WithBadByte(t);
    if w == REPLACEMENT {
      assert LeadLength(r[0]) == 0 && Unit(r) == 1 && r[1..] == rest;
    } else {
      BadByteIsReplaced(rest);
      WholeAlone(t);
      WholeInFront(w, WithBadByte(rest));
    }
  }

  /** Some other text decodes to the same exactly when this one is not UTF-8 or contains U+FFFD. */
  lemma DecodingCollidesIff(x: Text)
    ensures (exists y: Text :: y != x && Decoded(y) == Decoded(x)) <==> !Utf8(x) || HasReplacement(x)
  {
    DecodedIsSameIff(x);
    if !Utf8(x) {
      DecodedIsUtf8(x);
      DecodedIsSameIff(Decoded(x));
      assert Decoded(x) != x && Decoded(Decoded(x)) == Decoded(x);
    } else if HasReplacement(x) {
      BadByteIsReplaced(x);
      assert WithBadByte(x) != x;
    } else {
      forall y: Text | Decoded(y) == Decoded(x)
        ensures y == x
      {
        NothingReplaced(y);
      }
    }
  }

  // ---------------------------------------------------------------- queries

  function IndexOf(t: Text, c: Byte): (i: nat)
    ensures i <= |t|
    ensures i < |t| ==> t[i] == c
    ensures c !in t[..i]
  {
    if t == [] || t[0] == c then 0 else
      assert forall i :: 0 <= i < |t| ==> t[..i + 1] == [t[0]] + t[1..][..i];
      1 + IndexOf(t[1..], c)
  }

  lemma {:induction false} IndexOfSeparator(a: Text, c: Byte, b: Text)
    requires c !in a
    ensures IndexOf(a + [c] + b, c) == |a|
    ensures IndexOf(a, c) == |a|
  {
    if a != [] {
      assert a[0] in a;
      assert (a + [c] + b)[1..] == a[1..] + [c] + b;
      IndexOfSeparator(a[1..], c, b);
    }
  }

  /** parse_qsl with keep_blank_values: empty fields are skipped, a field without '=' has an empty
   *  value. */
  function ParseQuery(t: Text): seq<Pair>
    decreases |t|
  {
    if t == [] then []
    else
      var i := IndexOf(t, '&');
      (if i == 0 then [] else [ParseField(t[..i])]) + if i < |t| then ParseQuery(t[i + 1..]) else []
  }

  function ParseField(f: Text): Pair {
    var i := IndexOf(f, '=');
    Pair(Unquoted(f[..i]), if i < |f| then Unquoted(f[i + 1..]) else [])
  }

  /** Unquoted bytes are decoded with errors="replace". */
  function Unquoted(t: Text): Text { Decoded(UnquotePlus(t)) }

  function DecodedPair(p: Pair): Pair { Pair(Decoded(p.key), Decoded(p.value)) }

  predicate Utf8Pair(p: Pair) { Utf8(p.key) && Utf8(p.value) }

  function DecodedPairs(ps: seq<Pair>): seq<Pair> {
    seq(|ps|, i requires 0 <= i < |ps| => DecodedPair(ps[i]))
  }

  function EncodeField(p: Pair): Text { QuotePlus(p.key) + ['='] + QuotePlus(p.value) }

  /** urlencode. */
  function EncodeQuery(ps: seq<Pair>): Text {
    if ps == [] then []
    else if |ps| == 1 then EncodeField(ps[0])
    else EncodeField(ps[0]) + ['&'] + EncodeQuery(ps[1..])
  }

  lemma ParseCut(k: Text, v: Text)
    requires '=' !in k
    ensures ParseField(k + ['='] + v) == Pair(Unquoted(k), Unquoted(v))
  {
    IndexOfSeparator(k, '=', v);
    hide Unquoted, IndexOf;
    var f := k + ['='] + v;
    assert f[..|k|] == k && f[|k| + 1..] == v;
  }

  lemma FieldRoundTrip(p: Pair)
    ensures ParseField(EncodeField(p)) == DecodedPair(p)
    ensures '&' !in EncodeField(p) && '#' !in EncodeField(p) && EncodeField(p) != []
  {
    QuotedHasNoSeparator(p.key);
    QuotedHasNoSeparator(p.value);
    UnquoteQuote(p.key);
    UnquoteQuote(p.value);
    ParseCut(QuotePlus(p.key), QuotePlus(p.value));
    hide QuotePlus, UnquotePlus, ParseField, Decoded;
  }

  lemma ParseFirst(f: Text, rest: Text)
    requires f != [] && '&' !in f
    ensures ParseQuery(f) == [ParseField(f)]
    ensures ParseQuery(f + ['&'] + rest) == [ParseField(f)] + ParseQuery(rest)
  {
    IndexOfSeparator(f, '&', rest);
    hide IndexOf, ParseField;
    var t := f + ['&'] + rest;
    assert t[..|f|] == f && t[|f| + 1..] == rest && f[..|f|] == f;
  }

  lemma {:induction false} EncodedHasNoHash(ps: seq<Pair>)
    ensures '#' !in EncodeQuery(ps)
  {
    hide EncodeField;
    if ps != [] {
      FieldRoundTrip(ps[0]);
      EncodedHasNoHash(ps[1..]);
    }
  }

  lemma EncodeFirst(ps: seq<Pair>)
    requires ps != []
    ensures EncodeQuery(ps)
         == if |ps| == 1 then EncodeField(ps[0]) else EncodeField(ps[0]) + ['&'] + EncodeQuery(ps[1..])
  {
  }

  lemma DecodedFirst(ps: seq<Pair>)
    requires ps != []
    ensures DecodedPairs(ps) == [DecodedPair(ps[0])] + DecodedPairs(ps[1..])
  {
    hide DecodedPair;
  }

  lemma {:induction false} ParseEncoded(ps: seq<Pair>)
    ensures ParseQuery(EncodeQuery(ps)) == DecodedPairs(ps)
  {
    if ps == [] {
    } else {
      FieldRoundTrip(ps[0]);
      ParseFirst(EncodeField(ps[0]), EncodeQuery(ps[1..]));
      EncodeFirst(ps);
      DecodedFirst(ps);
      ParseEncoded(ps[1..]);
      assert |ps| == 1 ==> DecodedPairs(ps[1..]) == [];
      hide ParseQuery, EncodeQuery, EncodeField, ParseField, IndexOf, DecodedPair, DecodedPairs;
    }
  }

  /** Encoding a list of pairs and parsing it gives the list back exactly when all of it is UTF-8. */
  lemma QueryRoundTripIff(ps: seq<Pair>)
    ensures ParseQuery(EncodeQuery(ps)) == ps <==> forall p | p in ps :: Utf8Pair(p)
  {
    ParseEncoded(ps);
    hide ParseQuery, EncodeQuery, Decoded, Utf8;
    forall p: Pair
      ensures DecodedPair(p) == p <==> Utf8Pair(p)
    {
      DecodedIsSameIff(p.key);
      DecodedIsSameIff(p.value);
    }
    if DecodedPairs(ps) == ps {
      assert forall i :: 0 <= i < |ps| ==> DecodedPairs(ps)[i] == ps[i];
    }
  }

  /** What parsing finds is UTF-8. */
  lemma FieldIsUtf8(f: Text)
    ensures Utf8Pair(ParseField(f))
  {
    var j := IndexOf(f, '=');
    DecodedIsUtf8(UnquotePlus(f[..j]));
    if j < |f| { DecodedIsUtf8(UnquotePlus(f[j + 1..])); }
    assert Utf8([]);
    hide Utf8, Decoded, UnquotePlus, IndexOf;
  }

  lemma {:induction false} ParsedIsUtf8(t: Text)
    ensures forall p | p in ParseQuery(t) :: Utf8Pair(p)
    decreases |t|
  {
    hide ParseField, Utf8Pair, IndexOf;
    if t != [] {
      var i := IndexOf(t, '&');
      FieldIsUtf8(t[..i]);
      if i < |t| { ParsedIsUtf8(t[i + 1..]); }
    }
  }

  // ---------------------------------------------------------------- which pairs are kept, and their order

  const TRACKING_NAMES: set<seq<char>> := {"fbclid", "gclid", "msclkid", "mc_cid", "mc_eid"}
  const TRACKING_PREFIX: seq<char> := "utm_"

  predicate Tracking(key: Text) {
    Lower(key) in TRACKING_NAMES || TRACKING_PREFIX <= Lower(key)
  }

  function Kept(ps: seq<Pair>): (r: seq<Pair>)
    ensures forall p | p in r :: !Tracking(p.key)
  {
    if ps == [] then []
    else Kept(ps[..|ps| - 1]) + if Tracking(ps[|ps| - 1].key) then [] else [ps[|ps| - 1]]
  }

  /** Every occurrence of a pair is kept unless its key is for tracking. */
  lemma {:induction false} KeptCount(ps: seq<Pair>, p: Pair)
    ensures multiset(Kept(ps))[p] == if Tracking(p.key) then 0 else multiset(ps)[p]
  {
    if ps != [] {
      var n := |ps| - 1;
      KeptCount(ps[..n], p);
      assert ps == ps[..n] + [ps[n]];
      hide Tracking;
    }
  }

  /** Pairs are judged one by one, and keep their order. */
  lemma {:induction false} KeptAppend(a: seq<Pair>, b: seq<Pair>)
    ensures Kept(a + b) == Kept(a) + Kept(b)
  {
    if b == [] {
      assert a + b == a;
    } else {
      var n := |a| + |b| - 1;
      assert (a + b)[..n] == a + b[..|b| - 1];
      KeptAppend(a, b[..|b| - 1]);
    }
  }

  predicate TextLeq(a: Text, b: Text) {
    a == [] || (b != [] && (a[0] < b[0] || (a[0] == b[0] && TextLeq(a[1..], b[1..]))))
  }

  /** Tuples are compared by key first. */
  predicate PairLeq(p: Pair, q: Pair) {
    if p.key == q.key then TextLeq(p.value, q.value) else TextLeq(p.key, q.key)
  }

  lemma {:induction false} TextLeqTotal(a: Text, b: Text)
    ensures TextLeq(a, b) || TextLeq(b, a)
    ensures TextLeq(a, b) && TextLeq(b, a) ==> a == b
  {
    if a != [] && b != [] {
      TextLeqTotal(a[1..], b[1..]);
      assert a == [a[0]] + a[1..] && b == [b[0]] + b[1..];
    }
  }

  lemma {:induction false} TextLeqTransitive(a: Text, b: Text, c: Text)
    requires TextLeq(a, b) && TextLeq(b, c)
    ensures TextLeq(a, c)
  {
    if a != [] && b != [] && c != [] && a[0] == b[0] == c[0] {
      TextLeqTransitive(a[1..], b[1..], c[1..]);
    }
  }

  lemma PairLeqIsTotalOrder()
    ensures TotalPreorder(PairLeq) && Antisymmetric(PairLeq)
  {
    forall p: Pair, q: Pair
      ensures PairLeq(p, q) || PairLeq(q, p)
      ensures PairLeq(p, q) && PairLeq(q, p) ==> p == q
    {
      TextLeqTotal(p.key, q.key);
      TextLeqTotal(p.value, q.value);
    }
    forall p: Pair, q: Pair, r: Pair | PairLeq(p, q) && PairLeq(q, r)
      ensures PairLeq(p, r)
    {
      PairLeqTransitive(p, q, r);
    }
  }

  lemma PairLeqTransitive(p: Pair, q: Pair, r: Pair)
    requires PairLeq(p, q) && PairLeq(q, r)
    ensures PairLeq(p, r)
  {
    if p.key == q.key == r.key {
      TextLeqTransitive(p.value, q.value, r.value);
    } else if p.key != q.key && q.key != r.key {
      TextLeqTransitive(p.key, q.key, r.key);
      TextLeqTotal(p.key, q.key);
    }
  }

  /** Sorted pairs are the same exactly when the pairs are, in whatever order. */
  lemma SortedPairsEqualIff(a: seq<Pair>, b: seq<Pair>)
    ensures Sort(PairLeq, a) == Sort(PairLeq, b) <==> multiset(a) == multiset(b)
  {
    PairLeqIsTotalOrder();
    SortSorted(PairLeq, a);
    SortSorted(PairLeq, b);
    if multiset(a) == multiset(b) {
      SortedUnique(PairLeq, Sort(PairLeq, a), Sort(PairLeq, b));
    }
  }

  lemma {:induction false} KeptIsAll(ps: seq<Pair>)
    requires forall p | p in ps :: !Tracking(p.key)
    ensures Kept(ps) == ps
  {
    if ps != [] {
      KeptIsAll(ps[..|ps| - 1]);
      assert ps[|ps| - 1] in ps;
    }
  }

  function CleanQuery(t: Text): Text { EncodeQuery(Sort(PairLeq, Kept(ParseQuery(t)))) }

  /** The pairs kept, in their order, are what the cleaned query parses to. */
  lemma CleanQueryParses(t: Text)
    ensures ParseQuery(CleanQuery(t)) == Sort(PairLeq, Kept(ParseQuery(t)))
    ensures forall p | p in ParseQuery(CleanQuery(t)) :: !Tracking(p.key)
    ensures '#' !in CleanQuery(t)
  {
    var kept := Kept(ParseQuery(t));
    var ps := Sort(PairLeq, kept);
    ParsedIsUtf8(t);
    KeptAreThere(ParseQuery(t));
    EncodedHasNoHash(ps);
    QueryRoundTripIff(ps);
    hide ParseQuery, EncodeQuery, Utf8Pair, Kept, Tracking, Sort;
    forall p | p in ps
      ensures Utf8Pair(p) && !Tracking(p.key)
    {
      assert p in multiset(ps);
      assert p in multiset(kept);
    }
  }

  lemma {:induction false} KeptAreThere(ps: seq<Pair>)
    ensures forall p | p in Kept(ps) :: p in ps
  {
    if ps != [] {
      KeptAreThere(ps[..|ps| - 1]);
    }
  }

  lemma CleanQueryIsFixed(t: Text)
    ensures CleanQuery(CleanQuery(t)) == CleanQuery(t)
  {
    CleanQueryParses(t);
    var kept := Kept(ParseQuery(t));
    KeptIsAll(Sort(PairLeq, kept));
    SortedPairsEqualIff(Sort(PairLeq, kept), kept);
  }

  /** Two values of a parameter that is kept lead to the same query exactly when they decode to the same
   *  text: so by DecodingCollidesIff a value that is not UTF-8, or has U+FFFD in it, collides. */
  lemma ValuesCollideIff(k: Text, x: Text, y: Text)
    requires !Tracking(Decoded(k))
    ensures CleanQuery(EncodeQuery([Pair(k, x)])) == CleanQuery(EncodeQuery([Pair(k, y)]))
      <==> Decoded(x) == Decoded(y)
  {
    hide CleanQuery, ParseQuery, EncodeQuery, Tracking, Decoded, SameParameters;
    CleanQueryEqualIff(EncodeQuery([Pair(k, x)]), EncodeQuery([Pair(k, y)]));
    OneParameter(k, x);
    OneParameter(k, y);
    SameSingleIff(Pair(Decoded(k), Decoded(x)), Pair(Decoded(k), Decoded(y)));
  }

  lemma OneParameter(k: Text, x: Text)
    ensures ParseQuery(EncodeQuery([Pair(k, x)])) == [Pair(Decoded(k), Decoded(x))]
  {
    ParseEncoded([Pair(k, x)]);
    hide ParseQuery, EncodeQuery, Decoded;
  }

  lemma SameSingleIff(p: Pair, q: Pair)
    requires !Tracking(p.key)
    ensures SameParameters([p], [q]) <==> p == q
  {
    hide Tracking;
    assert multiset([p])[p] == 1;
    assert multiset([q])[p] == if p == q then 1 else 0;
  }

  // ---------------------------------------------------------------- paths

  predicate AllSlashes(t: Text) { forall c | c in t :: c == '/' }

  lemma AllSlashesAppend(a: Text, b: Text)
    ensures AllSlashes(a + b) <==> AllSlashes(a) && AllSlashes(b)
  {
    assert forall c | c in a :: c in a + b;
    assert forall c | c in b :: c in a + b;
  }

  function StripSlashes(t: Text): (r: Text)
    ensures r <= t
    ensures r == [] || r[|r| - 1] != '/'
    ensures r == [] <==> AllSlashes(t)
    ensures AllSlashes(t[|r|..])
  {
    if t != [] && t[|t| - 1] == '/' then
      AllSlashesAppend(t[..|t| - 1], ['/']);
      assert t == t[..|t| - 1] + ['/'];
      var r := StripSlashes(t[..|t| - 1]);
      AllSlashesAppend(t[..|t| - 1][|r|..], ['/']);
      assert t[|r|..] == t[..|t| - 1][|r|..] + ['/'];
      r
    else
      assert t != [] ==> t[|t| - 1] in t;
      t
  }

  /** Slashes at the end go, except for the path "/" itself. */
  function WithoutEndSlashes(quoted: Text): Text {
    if quoted != "/" && quoted != [] && quoted[|quoted| - 1] == '/' then StripSlashes(quoted) else quoted
  }

  function CleanPath(path: Text): Text { WithoutEndSlashes(QuotePath(if path == [] then "/" else path)) }

  function PathByte(c: Byte): Text { if PathSafe(c) then [c] else Percent(c) }

  lemma PathByteFacts(c: Byte)
    ensures PathByte(c) != [] && forall x | x in PathByte(c) :: PathSafe(x)
    ensures AllSlashes(PathByte(c)) <==> c == '/'
    ensures c == '/' ==> PathByte(c) == [c]
  {
    assert PathByte(c)[0] in PathByte(c);
  }

  lemma {:induction false} QuotedPathFacts(t: Text)
    ensures forall c | c in QuotePath(t) :: PathSafe(c)
    ensures |QuotePath(t)| >= |t| && (t == [] ==> QuotePath(t) == [])
    ensures AllSlashes(QuotePath(t)) <==> AllSlashes(t)
    ensures t != [] && t[0] == '/' ==> QuotePath(t)[0] == '/'
  {
    if t != [] {
      QuotedPathFacts(t[1..]);
      PathByteFacts(t[0]);
      AllSlashesAppend(PathByte(t[0]), QuotePath(t[1..]));
      AllSlashesAppend([t[0]], t[1..]);
      assert t == [t[0]] + t[1..] && t[0] in [t[0]];
      hide PathByte, PathSafe;
    }
  }

  lemma {:induction false} SafePathIsFixed(t: Text)
    requires forall c | c in t :: PathSafe(c)
    ensures QuotePath(t) == t
  {
    if t != [] {
      assert t[0] in t;
      SafePathIsFixed(t[1..]);
    }
  }

  predicate SlashRun(path: Text) { |path| >= 2 && AllSlashes(path) }

  lemma CleanPathFacts(path: Text)
    ensures forall c | c in CleanPath(path) :: PathSafe(c)
    ensures CleanPath(path) == [] <==> SlashRun(path)
    ensures |CleanPath(path)| > 1 ==> CleanPath(path)[|CleanPath(path)| - 1] != '/'
    ensures path == [] || path[0] == '/' ==> CleanPath(path) == [] || CleanPath(path)[0] == '/'
  {
    var p: Text := if path == [] then "/" else path;
    var q, r := QuotePath(p), CleanPath(path);
    QuotedPathFacts(p);
    SafePathIsFixed("/");
    hide QuotePath, PathSafe, StripSlashes;
    assert r <= q;
    assert forall c | c in r :: c in q;
    assert |p| == 1 && AllSlashes(p) ==> p == "/" by {
      assert |p| == 1 ==> p[0] in p;
    }
    assert AllSlashes(q) ==> q == [] || q[|q| - 1] in q;
  }

  /** Cleaning a path twice is cleaning it once, except for a run of two or more slashes. */
  lemma CleanPathIsFixedIff(path: Text)
    ensures CleanPath(CleanPath(path)) == CleanPath(path) <==> !SlashRun(path)
    ensures SlashRun(path) ==> CleanPath(path) == [] && CleanPath(CleanPath(path)) == "/"
  {
    CleanPathFacts(path);
    var r := CleanPath(path);
    SafePathIsFixed(r);
    SafePathIsFixed("/");
  }

  // ---------------------------------------------------------------- the normal form

  predicate Avoids(t: Text, stops: seq<char>) { forall c | c in t :: c !in stops }

  const MAX_PORT := 65535

  /** What urlsplit promises of a URL with a registered name for host. */
  predicate WellFormed(u: Url) {
    && u.host != []
    && Avoids(u.host, ":/?#@[]")
    && Avoids(u.scheme, ":")
    && (u.port.Some? ==> u.port.value <= MAX_PORT)
    && (u.path == [] || u.path[0] == '/')
  }

  function CleanScheme(u: Url): Text { Lower(if u.scheme == [] then "https" else u.scheme) }

  predicate IsDefaultPort(scheme: Text, port: nat) {
    (scheme == "http" && port == 80) || (scheme == "https" && port == 443)
  }

  function CleanPort(u: Url): Option<nat> {
    if u.port.Some? && IsDefaultPort(CleanScheme(u), u.port.value) then None else u.port
  }

  function NormalForm(u: Url): Url {
    Url(CleanScheme(u), Lower(u.host), CleanPort(u), CleanPath(u.path), CleanQuery(u.query), [])
  }

  function Digits(n: nat): (r: Text)
    ensures |r| >= 1
    ensures n >= 10 ==> |r| >= 2
  {
    if n < 10 then [HexDigit(n)] else Digits(n / 10) + [HexDigit(n % 10)]
  }

  function Netloc(host: Text, port: Option<nat>): Text {
    if port.Some? then host + [':'] + Digits(port.value) else host
  }

  /** A part introduced by a character, or nothing. */
  function Introduced(c: Byte, part: Text): Text { if part == [] then [] else [c] + part }

  /** urlunsplit, given an authority and no fragment. */
  function Unsplit(u: Url): Text {
    u.scheme + "://" + Netloc(u.host, u.port) + u.path + Introduced('?', u.query)
  }

  /** normalize_url. */
  function Key(u: Url): Text { Unsplit(NormalForm(u)) }

  /** The port a connection is made to, where the scheme tells. */
  function EffectivePort(u: Url): Option<nat> {
    if u.port.Some? then u.port
    else if CleanScheme(u) == "http" then Some(80)
    else if CleanScheme(u) == "https" then Some(443)
    else None
  }

  /** Two URLs that differ in nothing but case of scheme and host, a default port, how the path ends
   *  and is quoted, the order of the query, tracking parameters and the fragment. */
  ghost predicate Equivalent(u: Url, v: Url) {
    && CleanScheme(u) == CleanScheme(v)
    && Lower(u.host) == Lower(v.host)
    && EffectivePort(u) == EffectivePort(v)
    && CleanPath(u.path) == CleanPath(v.path)
    && SameParameters(ParseQuery(u.query), ParseQuery(v.query))
  }

  /** Every parameter that is not for tracking occurs equally often, with the same value, in both. */
  ghost predicate SameParameters(ps: seq<Pair>, qs: seq<Pair>) {
    forall p: Pair :: !Tracking(p.key) ==> multiset(ps)[p] == multiset(qs)[p]
  }

  lemma SamePortIff(u: Url, v: Url)
    requires CleanScheme(u) == CleanScheme(v)
    ensures CleanPort(u) == CleanPort(v) <==> EffectivePort(u) == EffectivePort(v)
  {
  }

  lemma SameKeptIff(ps: seq<Pair>, qs: seq<Pair>)
    ensures multiset(Kept(ps)) == multiset(Kept(qs)) <==> SameParameters(ps, qs)
  {
    forall p: Pair
      ensures multiset(Kept(ps))[p] == if Tracking(p.key) then 0 else multiset(ps)[p]
      ensures multiset(Kept(qs))[p] == if Tracking(p.key) then 0 else multiset(qs)[p]
    {
      KeptCount(ps, p);
      KeptCount(qs, p);
    }
    hide Kept, Tracking;
    if SameParameters(ps, qs) {
      assert forall p: Pair :: multiset(Kept(ps))[p] == multiset(Kept(qs))[p];
    }
  }

  lemma CleanQueryEqualIff(a: Text, b: Text)
    ensures CleanQuery(a) == CleanQuery(b) <==> SameParameters(ParseQuery(a), ParseQuery(b))
  {
    var ps, qs := ParseQuery(a), ParseQuery(b);
    SortedPairsEqualIff(Kept(ps), Kept(qs));
    CleanQueryParses(a);
    CleanQueryParses(b);
    SameKeptIff(ps, qs);
    hide ParseQuery, EncodeQuery, Sort, Kept, SameParameters, Tracking;
  }

  lemma {:induction false} DigitsAreDigits(n: nat)
    ensures forall c | c in Digits(n) :: IsDigit(c)
  {
    if n >= 10 {
      DigitsAreDigits(n / 10);
    }
  }

  /** What the parts of a normal form look like. */
  predicate Separable(u: Url) {
    && u.scheme != [] && Avoids(u.scheme, ":") && Lower(u.scheme) == u.scheme
    && u.host != [] && Avoids(u.host, ":/?#") && Lower(u.host) == u.host
    && (u.port.Some? ==> u.port.value <= MAX_PORT)
    && Avoids(u.path, "?#") && (u.path == [] || u.path[0] == '/')
    && Avoids(u.query, "#") && u.fragment == []
  }

  lemma NetlocHasNoStop(h: Text, p: Option<nat>)
    requires Avoids(h, ":/?#")
    ensures Avoids(Netloc(h, p), "/?#") && Avoids(h, ":")
  {
    if p.Some? {
      DigitsAreDigits(p.value);
    }
  }

  // ---------------------------------------------------------------- taking a text apart

  /** The position of the first of some stop characters, or the end. */
  function Until(t: Text, stops: seq<char>): (i: nat)
    ensures i <= |t|
  {
    if t == [] || t[0] in stops then 0 else 1 + Until(t[1..], stops)
  }

  lemma {:induction false} UntilStop(a: Text, s: Text, stops: seq<char>)
    requires Avoids(a, stops) && (s == [] || s[0] in stops)
    ensures Until(a + s, stops) == |a| && (a + s)[..|a|] == a && (a + s)[|a|..] == s
  {
    if a == [] {
      assert a + s == s;
    } else {
      assert a[0] in a;
      assert (a + s)[1..] == a[1..] + s;
      UntilStop(a[1..], s, stops);
    }
  }

  /** int(), of digits. */
  function Number(t: Text): nat
    requires forall c | c in t :: IsDigit(c)
  {
    if t == [] then 0
    else
      assert t[|t| - 1] in t && IsDigit(t[|t| - 1]);
      Number(t[..|t| - 1]) * 10 + (t[|t| - 1] as int - '0' as int)
  }

  lemma {:induction false} NumberOfDigits(n: nat)
    ensures forall c | c in Digits(n) :: IsDigit(c)
    ensures Number(Digits(n)) == n
  {
    DigitsAreDigits(n);
    if n >= 10 {
      NumberOfDigits(n / 10);
      var d := Digits(n);
      assert d[..|d| - 1] == Digits(n / 10);
    } else {
      assert Digits(n)[..0] == [];
    }
  }

  /** What comes before and after the first stop character, which is dropped. */
  function CutAt(t: Text, stop: Byte): (Text, Text) {
    var i := Until(t, [stop]);
    (t[..i], if i < |t| then t[i + 1..] else [])
  }

  lemma CutBack(a: Text, c: Byte, part: Text)
    requires Avoids(a, [c])
    ensures CutAt(a + Introduced(c, part), c) == (a, part)
  {
    var s := Introduced(c, part);
    UntilStop(a, s, [c]);
    assert part != [] ==> (a + s)[|a| + 1..] == part;
  }

  /** Host and port; nothing when the port is not a number up to 65535. */
  function SplitNetloc(t: Text): Option<(Text, Option<nat>)> {
    var (host, digits) := CutAt(t, ':');
    if digits == [] then Some((Lower(host), None))
    else if (forall c | c in digits :: IsDigit(c)) && Number(digits) <= MAX_PORT
    then Some((Lower(host), Some(Number(digits))))
    else None
  }

  /** Path, query and fragment. */
  function SplitTail(t: Text): (Text, Text, Text) {
    var (before, fragment) := CutAt(t, '#');
    var (path, query) := CutAt(before, '?');
    (path, query, fragment)
  }

  /** urlsplit, hostname and port of an absolute URL whose authority is a registered name and a port. */
  function Split(t: Text): Option<Url> {
    var i := Until(t, ":");
    if !("://" <= t[i..]) then None
    else
      var rest := t[i + 3..];
      var j := Until(rest, "/?#");
      var (path, query, fragment) := SplitTail(rest[j..]);
      match SplitNetloc(rest[..j])
      case None => None
      case Some(hp) => Some(Url(Lower(t[..i]), hp.0, hp.1, path, query, fragment))
  }

  lemma SplitNetlocBack(h: Text, p: Option<nat>)
    requires Avoids(h, ":") && (p.Some? ==> p.value <= MAX_PORT)
    ensures SplitNetloc(Netloc(h, p)) == Some((Lower(h), p))
  {
    var digits := if p.Some? then Digits(p.value) else [];
    CutBack(h, ':', digits);
    assert Netloc(h, p) == h + Introduced(':', digits);
    if p.Some? { NumberOfDigits(p.value); }
    hide CutAt, Lower, Digits, Number;
  }

  function Tail(u: Url): Text { u.path + Introduced('?', u.query) }

  lemma SplitTailBack(u: Url)
    requires Avoids(u.path, "?#") && Avoids(u.query, "#")
    ensures SplitTail(Tail(u) + Introduced('#', u.fragment)) == (u.path, u.query, u.fragment)
  {
    assert Avoids(Tail(u), "#") && Avoids(u.path, "?");
    hide CutAt, Introduced;
    CutBack(Tail(u), '#', u.fragment);
    CutBack(u.path, '?', u.query);
  }

  /** A URL in text: scheme, authority, path, query and fragment, each introduced as RFC 3986 has it. */
  function TextOf(u: Url): Text { Unsplit(u) + Introduced('#', u.fragment) }

  /** Splitting such a text gives its parts, scheme and host in lower case. */
  lemma SplitText(u: Url)
    requires u.scheme != [] && Avoids(u.scheme, ":") && Avoids(u.host, ":/?#")
    requires u.port.Some? ==> u.port.value <= MAX_PORT
    requires Avoids(u.path, "?#") && (u.path == [] || u.path[0] == '/') && Avoids(u.query, "#")
    ensures Split(TextOf(u)) == Some(u.(scheme := Lower(u.scheme), host := Lower(u.host)))
  {
    hide Netloc, SplitNetloc, SplitTail, Introduced;
    var netloc := Netloc(u.host, u.port);
    var tail := Tail(u) + Introduced('#', u.fragment);
    var rest := netloc + tail;
    NetlocHasNoStop(u.host, u.port);
    SplitNetlocBack(u.host, u.port);
    SplitTailBack(u);
    assert TextOf(u) == u.scheme + ("://" + rest);
    UntilStop(u.scheme, "://" + rest, ":");
    assert ("://" + rest)[3..] == rest;
    TailStarts(u);
    UntilStop(netloc, tail, "/?#");
  }

  lemma TailStarts(u: Url)
    requires u.path == [] || u.path[0] == '/'
    ensures var tail := Tail(u) + Introduced('#', u.fragment); tail == [] || tail[0] in "/?#"
  {
  }

  /** Splitting the text of a normal form gives its parts back. */
  lemma SplitUnsplit(u: Url)
    requires Separable(u)
    ensures Split(Unsplit(u)) == Some(u)
  {
    assert TextOf(u) == Unsplit(u) + [] == Unsplit(u);
    hide Split, Unsplit, Lower, Avoids;
    SplitText(u);
  }

  lemma LowerKeeps(t: Text, stops: seq<char>)
    requires forall c | c in stops :: !('A' <= c <= 'Z') && !('a' <= c <= 'z')
    requires Avoids(t, stops)
    ensures Avoids(Lower(t), stops)
  {
    forall i | 0 <= i < |t|
      ensures Lower(t)[i] !in stops
    {
      assert t[i] in t;
    }
  }

  /** A normal form is again what urlsplit could have found, and its key can be taken apart. */
  lemma NormalFormIsSeparable(u: Url)
    requires WellFormed(u)
    ensures WellFormed(NormalForm(u)) && Separable(NormalForm(u))
  {
    var scheme: Text := if u.scheme == [] then "https" else u.scheme;
    LowerKeeps(u.host, ":/?#@[]");
    LowerKeeps(scheme, ":");
    LowerIsFixed(u.host);
    LowerIsFixed(scheme);
    CleanPathFacts(u.path);
    SafeIsNoStop(CleanPath(u.path));
    FewerStops(Lower(u.host));
    CleanQueryParses(u.query);
    NoHash(CleanQuery(u.query));
    hide Avoids, CleanPath, CleanQuery, Lower, PathSafe, IsDefaultPort;
  }

  lemma NoHash(t: Text)
    requires '#' !in t
    ensures Avoids(t, "#")
  {
  }

  lemma FewerStops(t: Text)
    requires Avoids(t, ":/?#@[]")
    ensures Avoids(t, ":/?#")
  {
  }

  lemma SafeIsNoStop(t: Text)
    requires forall c | c in t :: PathSafe(c)
    ensures Avoids(t, "?#")
  {
  }

  /** The text of a key, split again, is the normal form it was made of. */
  lemma SplitKey(u: Url)
    requires WellFormed(u)
    ensures Split(Key(u)) == Some(NormalForm(u))
  {
    NormalFormIsSeparable(u);
    SplitUnsplit(NormalForm(u));
  }

  /** The key is a canonical form: two URLs have the same key exactly when they are equivalent. */
  lemma SameKeyIffEquivalent(u: Url, v: Url)
    requires WellFormed(u) && WellFormed(v)
    ensures Key(u) == Key(v) <==> Equivalent(u, v)
  {
    CleanQueryEqualIff(u.query, v.query);
    if CleanScheme(u) == CleanScheme(v) { SamePortIff(u, v); }
    SplitKey(u);
    SplitKey(v);
    hide CleanPort, EffectivePort, CleanScheme, CleanPath, CleanQuery, Lower, WellFormed, Kept, ParseQuery,
         Unsplit, Split;
  }

  lemma LowerIsFixed(t: Text)
    ensures Lower(Lower(t)) == Lower(t)
  {
  }

  /** Normalizing twice is normalizing once exactly when the path is not a run of two or more
   *  slashes; for such a path the second result has the path "/" where the first has none. */
  lemma NormalizingTwiceIff(u: Url)
    ensures NormalForm(NormalForm(u)) == NormalForm(u) <==> !SlashRun(u.path)
    ensures SlashRun(u.path) ==> NormalForm(NormalForm(u)) == NormalForm(u).(path := "/")
  {
    LowerIsFixed(if u.scheme == [] then "https" else u.scheme);
    LowerIsFixed(u.host);
    CleanPathIsFixedIff(u.path);
    CleanQueryIsFixed(u.query);
    assert CleanScheme(u) != [];
    hide CleanPath, CleanQuery, Lower, SlashRun;
  }

  /** normalize_url on text, where the text is a URL of the kind considered. */
  function NormalizeText(t: Text): Option<Text> {
    match Split(t)
    case None => None
    case Some(u) => Some(Key(u))
  }

  /** The key of a key differs from it exactly in that case, and the key of that never differs again. */
  lemma KeyOfKeyIff(u: Url)
    requires WellFormed(u)
    ensures NormalizeText(Key(u)) == Some(Key(u)) <==> !SlashRun(u.path)
    ensures var again := NormalizeText(Key(u)); again.Some? && NormalizeText(again.value) == again
  {
    var n := NormalForm(u);
    NormalFormIsSeparable(u);
    SplitKey(u);
    SplitKey(n);
    NormalizingTwiceIff(u);
    NormalizingTwiceIff(n);
    NotARunAgain(u.path);
    hide Split, Unsplit, SlashRun, WellFormed, Separable, NormalForm;
    assert NormalForm(n) == n <==> Key(n) == Key(u);
  }

  lemma NotARunAgain(path: Text)
    ensures !SlashRun(CleanPath(path))
  {
    CleanPathFacts(path);
    var r := CleanPath(path);
    if |r| >= 2 {
      assert r[|r| - 1] in r;
    }
  }

  method KeepPairs(pairs: seq<Pair>) returns (kept: seq<Pair>)
    ensures kept == Kept(pairs)
  {
    hide Tracking;
    kept := [];
    for i := 0 to |pairs|
      invariant kept == Kept(pairs[..i])
    {
      assert pairs[..i + 1][..i] == pairs[..i];
      if Tracking(pairs[i].key) {
        continue;
      }
      kept := kept + [pairs[i]];
    }
    assert pairs[..|pairs|] == pairs;
  }

  method NormalizePath(rawPath: Text) returns (path: Text)
    ensures path == CleanPath(rawPath)
  {
    path := QuotePath(if rawPath == [] then "/" else rawPath);
    if path != "/" && path != [] && path[|path| - 1] == '/' {
      path := StripSlashes(path);
    }
  }

  /** The function as it is written: the parts rebuilt one after the other. */
  method NormalizeUrl(u: Url) returns (r: Text)
    ensures r == Key(u)
  {
    hide Kept, ParseQuery, EncodeQuery, Digits, Lower, Sort, PairLeq, CleanPath;
    var scheme := Lower(if u.scheme == [] then "https" else u.scheme);
    var netloc := Lower(u.host);
    if u.port.Some? && !IsDefaultPort(scheme, u.port.value) {
      netloc := netloc + [':'] + Digits(u.port.value);
    }
    assert netloc == Netloc(Lower(u.host), CleanPort(u));
    hide Netloc, CleanPort, IsDefaultPort;
    var path := NormalizePath(u.path);
    var kept := KeepPairs(ParseQuery(u.query));
    var query := EncodeQuery(Sort(PairLeq, kept));
    assert query == CleanQuery(u.query);
    r := scheme + "://" + netloc + path + if query == [] then [] else ['?'] + query;
  }
}
