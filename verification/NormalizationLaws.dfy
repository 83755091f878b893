/** What the pieces of URL normalization mean, each in terms of literal characters or as a law that says
 *  how it acts on any text. */
module NormalizationLaws {
  import opened Prelude
  import opened Sorting
  import opened Normalization

  // ---------------------------------------------------------------- characters

  /** Lowering maps A to Z to a to z and leaves every other byte alone. */
  lemma LowerMeans(t: Text, i: nat)
    requires i < |t|
    ensures var c := t[i] as int;
      Lower(t)[i] as int == if 65 <= c <= 90 then c + 32 else c
  {
  }

  /** Texts that differ in the case of ASCII letters lower to the same, others do not. */
  lemma SameLowerIff(a: Text, b: Text)
    ensures Lower(a) == Lower(b) <==>
      |a| == |b| && forall i :: 0 <= i < |a| ==>
        a[i] == b[i] || (IsUpper(a[i]) && b[i] as int == a[i] as int + 32)
        || (IsUpper(b[i]) && a[i] as int == b[i] as int + 32)
  {
    if Lower(a) == Lower(b) {
      forall i | 0 <= i < |a|
        ensures a[i] == b[i] || (IsUpper(a[i]) && b[i] as int == a[i] as int + 32)
                || (IsUpper(b[i]) && a[i] as int == b[i] as int + 32)
      {
        assert Lower(a)[i] == Lower(b)[i];
      }
    }
  }

  /** In a path, letters, digits and _ . - ~ / % : @ stand for themselves; in a query, the first two and
   *  _ . - ~ only, and a space is a plus sign.  Any other byte becomes a percent sign and two upper-case
   *  hexadecimal digits, high half first. */
  lemma QuotingMeans(c: Byte)
    ensures var b := c as int;
      var plain := 48 <= b <= 57 || 65 <= b <= 90 || 97 <= b <= 122 || c == '_' || c == '.' || c == '-' || c == '~';
      var hex := ['%', UpperHex(b / 16), UpperHex(b % 16)];
      && QuotePath([c]) == (if plain || c == '/' || c == '%' || c == ':' || c == '@' then [c] else hex)
      && QuotePlus([c]) == (if plain then [c] else if c == ' ' then "+" else hex)
  {
    assert QuotePath([c]) == PathByte(c) + QuotePath([]);
    assert QuotePlus([c]) == PlusByte(c) + QuotePlus([]);
    assert c as int / 16 < 16;
  }

  function UpperHex(d: int): Byte
    requires 0 <= d < 16
  {
    if d < 10 then (48 + d) as char else (55 + d) as char
  }

  /** Quoting works byte by byte. */
  lemma {:induction false} QuotingPathAppends(a: Text, b: Text)
    ensures QuotePath(a + b) == QuotePath(a) + QuotePath(b)
  {
    hide PathByte;
    if a == [] {
      assert a + b == b;
    } else {
      assert (a + b)[1..] == a[1..] + b;
      QuotingPathAppends(a[1..], b);
      assert PathByte(a[0]) + (QuotePath(a[1..]) + QuotePath(b)) == (PathByte(a[0]) + QuotePath(a[1..])) + QuotePath(b);
    }
  }

  lemma {:induction false} QuotingPlusAppends(a: Text, b: Text)
    ensures QuotePlus(a + b) == QuotePlus(a) + QuotePlus(b)
  {
    hide PlusByte;
    if a == [] {
      assert a + b == b;
    } else {
      assert (a + b)[1..] == a[1..] + b;
      QuotingPlusAppends(a[1..], b);
      assert PlusByte(a[0]) + (QuotePlus(a[1..]) + QuotePlus(b)) == (PlusByte(a[0]) + QuotePlus(a[1..])) + QuotePlus(b);
    }
  }

  function LowerHex(d: int): Byte
    requires 0 <= d < 16
  {
    if d < 10 then (48 + d) as char else (87 + d) as char
  }

  /** An escape decodes to its byte, whichever case its digits have; a plus sign is a space; every other
   *  byte that does not start an escape stands for itself. */
  lemma UnquotingMeans(c: Byte, rest: Text)
    ensures var high, low := c as int / 16, c as int % 16;
      && UnquotePlus(['%', UpperHex(high), UpperHex(low)] + rest) == [c] + UnquotePlus(rest)
      && UnquotePlus(['%', LowerHex(high), LowerHex(low)] + rest) == [c] + UnquotePlus(rest)
    ensures UnquotePlus(['+'] + rest) == [' '] + UnquotePlus(rest)
    ensures c != '%' && c != '+' ==> UnquotePlus([c] + rest) == [c] + UnquotePlus(rest)
  {
    var high, low := c as int / 16, c as int % 16;
    assert 0 <= high < 16;
    HexDigits(high);
    HexDigits(low);
    Escape(UpperHex(high), UpperHex(low), rest);
    Escape(LowerHex(high), LowerHex(low), rest);
    assert (['+'] + rest)[1..] == rest && ([c] + rest)[1..] == rest;
  }

  lemma HexDigits(d: int)
    requires 0 <= d < 16
    ensures HexValue(UpperHex(d)) == Some(d) && HexValue(LowerHex(d)) == Some(d)
  {
  }

  lemma Escape(x: Byte, y: Byte, rest: Text)
    requires HexValue(x).Some? && HexValue(y).Some?
    ensures UnquotePlus(['%', x, y] + rest)
         == [(HexValue(x).value * 16 + HexValue(y).value) as char] + UnquotePlus(rest)
  {
    var t := ['%', x, y] + rest;
    assert t[0] == '%' && t[1] == x && t[2] == y && t[3..] == rest;
  }

  /** A percent sign that no two hexadecimal digits follow stands for itself. */
  lemma LonePercent(rest: Text)
    requires |rest| < 2 || HexValue(rest[0]).None? || HexValue(rest[1]).None?
    ensures UnquotePlus(['%'] + rest) == ['%'] + UnquotePlus(rest)
  {
    assert (['%'] + rest)[1..] == rest;
  }

  /** The hexadecimal digits, by character. */
  lemma HexValueMeans(c: Byte)
    ensures HexValue(c).Some? <==> '0' <= c <= '9' || 'A' <= c <= 'F' || 'a' <= c <= 'f'
    ensures HexValue('0') == Some(0) && HexValue('9') == Some(9)
    ensures HexValue('A') == HexValue('a') == Some(10) && HexValue('F') == HexValue('f') == Some(15)
  {
  }

  // ---------------------------------------------------------------- UTF-8

  /** The numbers of characters: all up to 10FFFF but the surrogates. */
  predicate Scalar(v: int) { 0 <= v < 0xD800 || 0xE000 <= v <= 0x10FFFF }

  /** The UTF-8 form of a character (section 3 of RFC 3629). */
  function Utf8Form(v: int): (t: Text)
    requires Scalar(v)
  {
    if v < 0x80 then [v as char]
    else if v < 0x800 then [(0xC0 + v / 64) as char, (0x80 + v % 64) as char]
    else if v < 0x1_0000 then
      [(0xE0 + v / 4096) as char, (0x80 + v / 64 % 64) as char, (0x80 + v % 64) as char]
    else
      [(0xF0 + v / 262144) as char, (0x80 + v / 4096 % 64) as char, (0x80 + v / 64 % 64) as char,
       (0x80 + v % 64) as char]
  }

  /** A text starts with a complete character exactly when it starts with the UTF-8 form of one. */
  lemma WholeIffForm(t: Text)
    requires t != []
    ensures Whole(t) <==> exists v :: Scalar(v) && Utf8Form(v) <= t
  {
    if Whole(t) {
      var v := CharacterOf(t);
      assert Utf8Form(v) <= t;
    }
    forall v | Scalar(v) && Utf8Form(v) <= t
      ensures Whole(t)
    {
      FormIsWhole(v);
      var n := |Utf8Form(v)|;
      WholeInFront(Utf8Form(v), t[n..]);
      assert t == t[..n] + t[n..];
    }
  }

  lemma FormIsWhole(v: int)
    requires Scalar(v)
    ensures Utf8Form(v) != [] && Whole(Utf8Form(v)) && Unit(Utf8Form(v)) == |Utf8Form(v)|
  {
    if v >= 0x1_0000 {
      var t := Utf8Form(v);
      assert LeadLength(t[0]) == 4 && ContinuesSecond(t[0], t[1]) && Continues(t[2]) && Continues(t[3]);
    } else if v >= 0x800 {
      var t := Utf8Form(v);
      assert LeadLength(t[0]) == 3 && ContinuesSecond(t[0], t[1]) && Continues(t[2]);
    }
  }

  /** Six-bit digits of a number. */
  lemma SixBits(a: int, b: int, c: int, d: int)
    requires 0 <= b < 64 && 0 <= c < 64 && 0 <= d < 64
    ensures var v := ((a * 64 + b) * 64 + c) * 64 + d;
      v % 64 == d && v / 64 == (a * 64 + b) * 64 + c && v / 64 % 64 == c && v / 4096 == a * 64 + b
      && v / 4096 % 64 == b && v / 262144 == a
  {
    var v := ((a * 64 + b) * 64 + c) * 64 + d;
    assert v / 64 == (a * 64 + b) * 64 + c;
    assert v / 4096 == v / 64 / 64;
    assert v / 262144 == v / 4096 / 64;
  }

  /** The character a text starts with. */
  lemma CharacterOf(t: Text) returns (v: int)
    requires t != [] && Whole(t)
    ensures Scalar(v) && Utf8Form(v) == t[..Unit(t)]
  {
    var n, x := Unit(t), t[0] as int;
    if n == 1 {
      v := x;
    } else if n == 2 {
      v := TwoBytes(t);
    } else if n == 3 {
      v := ThreeBytes(t);
    } else {
      v := FourBytes(t);
    }
  }

  lemma TwoBytes(t: Text) returns (v: int)
    requires t != [] && Whole(t) && Unit(t) == 2
    ensures Scalar(v) && Utf8Form(v) == t[..2]
  {
    var x, y := t[0] as int - 0xC0, t[1] as int - 0x80;
    v := x * 64 + y;
    SixBits(0, 0, x, y);
  }

  lemma ThreeBytes(t: Text) returns (v: int)
    requires t != [] && Whole(t) && Unit(t) == 3
    ensures Scalar(v) && Utf8Form(v) == t[..3]
  {
    var x, y, z := t[0] as int - 0xE0, t[1] as int - 0x80, t[2] as int - 0x80;
    v := (x * 64 + y) * 64 + z;
    SixBits(0, x, y, z);
  }

  lemma FourBytes(t: Text) returns (v: int)
    requires t != [] && Whole(t) && Unit(t) == 4
    ensures Scalar(v) && Utf8Form(v) == t[..4]
  {
    var w, x, y, z := t[0] as int - 0xF0, t[1] as int - 0x80, t[2] as int - 0x80, t[3] as int - 0x80;
    v := ((w * 64 + x) * 64 + y) * 64 + z;
    SixBits(w, x, y, z);
  }

  /** Decoding with replacement keeps complete characters and replaces a byte none starts with by U+FFFD. */
  lemma DecodingMeans(v: int, bad: Byte, rest: Text)
    requires Scalar(v) && (0x80 <= bad as int < 0xC2 || bad as int >= 0xF5)
    ensures Decoded(Utf8Form(v) + rest) == Utf8Form(v) + Decoded(rest)
    ensures Decoded([bad] + rest) == Utf8Form(0xFFFD) + Decoded(rest)
  {
    FormIsWhole(v);
    WholeInFront(Utf8Form(v), rest);
    assert ([bad] + rest)[1..] == rest;
  }

  // ---------------------------------------------------------------- queries

  /** What a text without '&' is read as. */
  function HeadPairs(head: Text): seq<Pair> { if head == [] then [] else [ParseField(head)] }

  /** Two texts with '&' between them. */
  function Joined(a: Text, b: Text): Text { a + ['&'] + b }

  lemma ParseHead(head: Text, rest: Text)
    requires '&' !in head
    ensures ParseQuery(Joined(head, rest)) == HeadPairs(head) + ParseQuery(rest)
    ensures ParseQuery(head) == HeadPairs(head)
  {
    IndexOfSeparator(head, '&', rest);
    hide IndexOf, ParseField;
    var t := head + ['&'] + rest;
    assert t[..|head|] == head && t[|head| + 1..] == rest && head[..|head|] == head;
  }

  lemma Regroup(head: Text, rest: Text, b: Text)
    ensures Joined(Joined(head, rest), b) == Joined(head, Joined(rest, b))
  {
  }

  /** Fields separated by '&' are read one by one. */
  lemma {:induction false} ParseAppends(a: Text, b: Text)
    ensures ParseQuery(Joined(a, b)) == ParseQuery(a) + ParseQuery(b)
    decreases |a|
  {
    var i := IndexOf(a, '&');
    assert '&' !in a[..i];
    if i == |a| {
      assert a[..i] == a;
      ParseHead(a, b);
    } else {
      var head, rest := a[..i], a[i + 1..];
      assert a == Joined(head, rest);
      hide ParseQuery, ParseField, IndexOf, Joined, HeadPairs;
      Regroup(head, rest, b);
      ParseHead(head, rest);
      ParseHead(head, Joined(rest, b));
      ParseAppends(rest, b);
      JoinThree(HeadPairs(head), ParseQuery(rest), ParseQuery(b));
    }
  }

  lemma JoinThree(a: seq<Pair>, b: seq<Pair>, c: seq<Pair>)
    ensures a + (b + c) == (a + b) + c
  {
  }

  /** Encoded pairs are joined by '&', key and value of each by '='. */
  lemma {:induction false} EncodingAppends(a: seq<Pair>, b: seq<Pair>)
    requires a != [] && b != []
    ensures EncodeQuery(a + b) == Joined(EncodeQuery(a), EncodeQuery(b))
  {
    hide EncodeQuery, EncodeField;
    assert (a + b)[1..] == a[1..] + b && (a + b)[0] == a[0] && |a + b| > 1;
    EncodeFirst(a + b);
    EncodeFirst(a);
    if |a| == 1 {
      assert a[1..] + b == b;
    } else {
      EncodingAppends(a[1..], b);
      Regroup(EncodeField(a[0]), EncodeQuery(a[1..]), EncodeQuery(b));
    }
  }

  lemma EncodingOne(p: Pair)
    ensures EncodeQuery([p]) == QuotePlus(p.key) + ['='] + QuotePlus(p.value)
    ensures EncodeQuery([]) == []
  {
    hide QuotePlus;
  }

  /** A field is cut at its first '='; without one the value is empty; an empty field is nothing. */
  lemma FieldMeans(key: Text, value: Text)
    requires '=' !in key && '&' !in key && '&' !in value
    ensures ParseQuery(key + ['='] + value) == [Pair(Unquoted(key), Unquoted(value))]
    ensures key != [] ==> ParseQuery(key) == [Pair(Unquoted(key), [])]
    ensures ParseQuery([]) == []
  {
    var f := key + ['='] + value;
    ParseCut(key, value);
    IndexOfSeparator(f, '&', []);
    IndexOfSeparator(key, '&', []);
    IndexOfSeparator(key, '=', []);
    hide IndexOf, Unquoted;
    assert f[..|f|] == f && key[..|key|] == key;
  }

  /** The tracking parameters, by name: any case of these five, and of anything starting with utm_. */
  lemma TrackingMeans(key: Text)
    ensures var name := Lower(key);
      Tracking(key) <==>
      || name == "fbclid" || name == "gclid" || name == "msclkid" || name == "mc_cid" || name == "mc_eid"
      || (|name| >= 4 && name[0] == 'u' && name[1] == 't' && name[2] == 'm' && name[3] == '_')
  {
  }

  /** Texts are ordered like words in a dictionary. */
  lemma {:induction false} DictionaryOrder(a: Text, b: Text)
    ensures TextLeq(a, b) <==> a <= b || exists k :: DiffersFirstAt(a, b, k) && a[k] < b[k]
  {
    if a != [] && b != [] && a[0] == b[0] {
      DictionaryOrder(a[1..], b[1..]);
      assert a == [a[0]] + a[1..] && b == [b[0]] + b[1..];
      if k :| DiffersFirstAt(a[1..], b[1..], k) && a[1..][k] < b[1..][k] {
        assert DiffersFirstAt(a, b, k + 1);
      }
      if k :| DiffersFirstAt(a, b, k) && a[k] < b[k] {
        assert DiffersFirstAt(a[1..], b[1..], k - 1);
      }
    } else if a != [] && b != [] {
      assert DiffersFirstAt(a, b, 0);
    }
  }

  predicate DiffersFirstAt(a: Text, b: Text, k: int) {
    0 <= k < |a| && k < |b| && a[k] != b[k] && forall i :: 0 <= i < k ==> a[i] == b[i]
  }

  /** The parameters of a cleaned query come in dictionary order of their keys, and of their values where
   *  keys are equal. */
  lemma CleanQueryIsOrdered(t: Text, i: nat, j: nat)
    requires i < j < |ParseQuery(CleanQuery(t))|
    ensures var p, q := ParseQuery(CleanQuery(t))[i], ParseQuery(CleanQuery(t))[j];
      if p.key == q.key then TextLeq(p.value, q.value) else TextLeq(p.key, q.key)
  {
    CleanQueryParses(t);
    PairLeqIsTotalOrder();
    SortSorted(PairLeq, Kept(ParseQuery(t)));
  }

  // ---------------------------------------------------------------- paths and the rest

  /** A cleaned path is the quoted path, or "/" for none, without the slashes at its end. */
  lemma CleanPathMeans(path: Text)
    ensures path == [] ==> CleanPath(path) == "/"
    ensures CleanPath("/") == "/"
    ensures path != [] ==>
      var r, q := CleanPath(path), QuotePath(path);
      && r <= q && AllSlashes(q[|r|..])
      && (q != "/" && r != [] ==> r[|r| - 1] != '/')
  {
    SafePathIsFixed("/");
    hide QuotePath, StripSlashes, AllSlashes, PathSafe;
  }

  lemma StripOneMore(q: Text)
    ensures StripSlashes(q + ['/']) == StripSlashes(q)
  {
    assert (q + ['/'])[..|q|] == q;
  }

  lemma EndSlashGoes(q: Text)
    requires !AllSlashes(q)
    ensures WithoutEndSlashes(q + ['/']) == WithoutEndSlashes(q)
  {
    assert AllSlashes("/") && AllSlashes([]);
    assert q != [];
    hide AllSlashes;
    var more := q + ['/'];
    assert more[..|q|] == q && more[|more| - 1] == '/' && |more| >= 2;
    assert StripSlashes(more) == StripSlashes(q);
    assert q[|q| - 1] != '/' ==> StripSlashes(q) == q;
  }

  /** Slashes at the end of a path that has anything else in it do not matter. */
  lemma TrailingSlashDoesNotMatter(path: Text)
    requires !AllSlashes(path)
    ensures CleanPath(path + ['/']) == CleanPath(path)
  {
    QuotingPathAppends(path, ['/']);
    QuotingMeans('/');
    QuotedPathFacts(path);
    EndSlashGoes(QuotePath(path));
    assert path != [] && path + ['/'] != [];
    hide QuotePath, AllSlashes, WithoutEndSlashes, PathSafe;
  }

  /** A URL without a scheme is taken for an https one, and the fragment is ignored. */
  lemma DefaultScheme(u: Url, fragment: Text)
    ensures u.scheme == [] ==> NormalForm(u) == NormalForm(u.(scheme := "https")) && NormalForm(u).scheme == "https"
    ensures NormalForm(u.(fragment := fragment)) == NormalForm(u)
  {
    assert Lower("https") == "https";
  }

  /** Only port 80 of http and port 443 of https go without saying. */
  lemma PortMeans(u: Url)
    ensures var scheme := NormalForm(u).scheme;
      NormalForm(u).port == if (scheme == "http" && u.port == Some(80)) || (scheme == "https" && u.port == Some(443))
                            then None else u.port
  {
  }

  /** Ports are written without leading zeros. */
  lemma {:induction false} NoLeadingZero(n: nat)
    ensures n < 10 ==> |Digits(n)| == 1
    ensures n > 0 ==> Digits(n)[0] != '0'
  {
    if n >= 10 {
      NoLeadingZero(n / 10);
    }
  }

  /** On the text of a URL normalization gives the key of its parts. */
  lemma NormalizeTextMeans(u: Url)
    requires WellFormed(u) && u.scheme != [] && Avoids(u.path, "?#") && Avoids(u.query, "#")
    ensures NormalizeText(TextOf(u)) == Some(Key(u))
  {
    HostStops(u.host);
    SplitText(u);
    LowerIsFixed(u.scheme);
    LowerIsFixed(u.host);
    hide Split, TextOf, Lower, CleanPath, CleanQuery, Avoids, Unsplit;
  }

  lemma HostStops(host: Text)
    requires Avoids(host, ":/?#@[]")
    ensures Avoids(host, ":/?#")
  {
  }
}
