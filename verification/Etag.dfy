/** The conditional-request caching of src/middlewares/etag.ts. */
module Etag {
  import opened Common
  import opened Text

  // ---- The matcher ----

  /** `s.split(',')`. */
  function Split(s: string): (pieces: seq<string>)
    ensures pieces != []
  {
    if s == [] then [[]] else
      var rest := Split(s[1..]);
      if s[0] == ',' then [[]] + rest else [[s[0]] + rest[0]] + rest[1..]
  }

  /** `tag.replace(/^W\//, '')`. */
  function StripWeak(tag: string): string {
    if |tag| >= 2 && tag[0] == 'W' && tag[1] == '/' then tag[2..] else tag
  }

  function Normalize(tag: string): string {
    StripWeak(Trim(tag))
  }

  predicate SomeMatches(pieces: seq<string>, target: string) {
    exists i :: 0 <= i < |pieces| && Normalize(pieces[i]) == target
  }

  predicate IfNoneMatchSatisfied(header: Option<string>, etag: string) {
    if header.None? || header.value == "" then false
    else if Trim(header.value) == "*" then true
    else SomeMatches(Split(header.value), Normalize(etag))
  }

  // ---- Entity tags, sections 8.8.3 and 13.1.2 of RFC 9110 ----

  /** An entity tag: `weak` for the W/ prefix. */
  datatype Tag = Tag(weak: bool, core: string)

  /** etagc: visible ASCII except the double quote, or obs-text; commas are allowed. */
  predicate IsEtagChar(c: char) {
    c == '!' || '#' <= c <= '~' || '\U{0080}' <= c <= '\U{00FF}'
  }

  predicate IsOws(s: string) {
    forall i :: 0 <= i < |s| ==> s[i] == ' ' || s[i] == '\t'
  }

  /** One element of the list, between commas; recipients accept empty elements. */
  datatype Item = Item(before: string, tag: Option<Tag>, after: string) {
    predicate Valid() {
      IsOws(before) && IsOws(after) && (tag.Some? ==> forall i :: 0 <= i < |tag.value.core| ==> IsEtagChar(tag.value.core[i]))
    }

    function Text(): string {
      before + (if tag.Some? then TagText(tag.value) else "") + after
    }
  }

  function Quoted(core: string): string {
    "\"" + core + "\""
  }

  function TagText(t: Tag): string {
    (if t.weak then "W/" else "") + Quoted(t.core)
  }

  /** The field value of a list of items. */
  function Render(items: seq<Item>): string
    requires items != []
  {
    if |items| == 1 then items[0].Text() else items[0].Text() + "," + Render(items[1..])
  }

  /** The weak comparison of section 8.8.3.2: the quoted parts agree, weak or not. */
  predicate WeaklyMatches(t: Tag, core: string) {
    t.core == core
  }

  ghost predicate ListMatches(items: seq<Item>, core: string) {
    exists i :: 0 <= i < |items| && items[i].tag.Some? && WeaklyMatches(items[i].tag.value, core)
  }

  // ---- Quotes survive trimming ----

  function Quotes(s: string): nat {
    if s == [] then 0 else (if s[0] == '"' then 1 else 0) + Quotes(s[1..])
  }

  lemma {:induction false} QuotesAppend(a: string, b: string)
    ensures Quotes(a + b) == Quotes(a) + Quotes(b)
  {
    if a == [] {
      assert a + b == b;
    } else {
      QuotesAppend(a[1..], b);
      assert (a + b)[1..] == a[1..] + b;
    }
  }

  lemma {:induction false} TrimStartKeepsQuotes(s: string)
    ensures Quotes(TrimStart(s)) == Quotes(s)
  {
    if s != [] && IsSpace(s[0]) {
      TrimStartKeepsQuotes(s[1..]);
    }
  }

  lemma {:induction false} TrimEndKeepsQuotes(s: string)
    ensures Quotes(TrimEnd(s)) == Quotes(s)
  {
    if s != [] && IsSpace(s[|s| - 1]) {
      var k := |s| - 1;
      TrimEndKeepsQuotes(s[..k]);
      QuotesAppend(s[..k], [s[k]]);
      assert s == s[..k] + [s[k]] && [s[k]][1..] == [];
    }
  }

  lemma StripWeakKeepsQuotes(t: string)
    ensures Quotes(StripWeak(t)) == Quotes(t)
  {
    if |t| >= 2 && t[0] == 'W' && t[1] == '/' {
      assert t[1..][1..] == t[2..];
      assert Quotes(t) == Quotes(t[1..]) == Quotes(t[1..][1..]);
    }
  }

  lemma NormalizeKeepsQuotes(s: string)
    ensures Quotes(Normalize(s)) == Quotes(s) && Quotes(Trim(s)) == Quotes(s)
  {
    hide Quotes, TrimStart, TrimEnd, StripWeak;
    TrimStartKeepsQuotes(s);
    TrimEndKeepsQuotes(TrimStart(s));
    StripWeakKeepsQuotes(Trim(s));
  }

  /** No piece has more quotes than the whole. */
  lemma {:induction false} PiecesHaveFewerQuotes(s: string, i: nat)
    requires i < |Split(s)|
    ensures Quotes(Split(s)[i]) <= Quotes(s)
  {
    if s == [] {
    } else if s[0] == ',' {
      if i > 0 { PiecesHaveFewerQuotes(s[1..], i - 1); }
    } else {
      PiecesHaveFewerQuotes(s[1..], i);
      var rest := Split(s[1..]);
      assert ([s[0]] + rest[0])[1..] == rest[0];
    }
  }

  lemma {:induction false} NoQuotes(s: string)
    requires forall i :: 0 <= i < |s| ==> s[i] != '"'
    ensures Quotes(s) == 0
  {
    if s != [] { NoQuotes(s[1..]); }
  }

  lemma {:induction false} PaddedStart(left: string, s: string)
    requires IsOws(left) && s != [] && !IsSpace(s[0])
    ensures TrimStart(left + s) == s
  {
    if left == [] {
      assert left + s == s;
    } else {
      assert (left + s)[1..] == left[1..] + s;
      PaddedStart(left[1..], s);
    }
  }

  lemma {:induction false} PaddedEnd(s: string, right: string)
    requires IsOws(right) && s != [] && !IsSpace(s[|s| - 1])
    ensures TrimEnd(s + right) == s
  {
    if right == [] {
      assert s + right == s;
    } else {
      assert (s + right)[..|s + right| - 1] == s + right[..|right| - 1];
      PaddedEnd(s, right[..|right| - 1]);
    }
  }

  lemma NoSpaces(s: string, left: string, right: string)
    requires IsOws(left) && IsOws(right) && s != [] && !IsSpace(s[0]) && !IsSpace(s[|s| - 1])
    ensures Trim(left + s + right) == s
  {
    hide TrimStart, TrimEnd, IsSpace;
    assert left + s + right == left + (s + right);
    PaddedStart(left, s + right);
    PaddedEnd(s, right);
  }

  // ---- Splitting ----

  /** Splitting with one more character in front. */
  function Extend(c: char, pieces: seq<string>): seq<string>
    requires pieces != []
  {
    if c == ',' then [[]] + pieces else [[c] + pieces[0]] + pieces[1..]
  }

  lemma SplitCons(c: char, s: string)
    ensures Split([c] + s) == Extend(c, Split(s))
  {
    assert ([c] + s)[1..] == s;
  }

  lemma ExtendAppend(c: char, x: seq<string>, y: seq<string>)
    requires x != []
    ensures Extend(c, x + y) == Extend(c, x) + y
  {
    if c != ',' {
      assert (x + y)[0] == x[0] && (x + y)[1..] == x[1..] + y;
    }
  }

  lemma {:induction false} SplitAtComma(a: string, b: string)
    ensures Split(a + "," + b) == Split(a) + Split(b)
  {
    if a == [] {
      SplitCons(',', b);
      assert a + "," + b == [','] + b;
      assert Split(a) == [[]];
    } else {
      var rest := a[1..];
      SplitAtComma(rest, b);
      assert a == [a[0]] + rest;
      SplitConsTwice(a[0], rest, b);
    }
  }

  lemma SplitConsTwice(c: char, rest: string, b: string)
    requires Split(rest + "," + b) == Split(rest) + Split(b)
    ensures Split([c] + rest + "," + b) == Split([c] + rest) + Split(b)
  {
    hide Split, Extend;
    SplitCons(c, rest);
    SplitCons(c, rest + "," + b);
    assert [c] + rest + "," + b == [c] + (rest + "," + b);
    ExtendAppend(c, Split(rest), Split(b));
  }

  lemma {:induction false} SplitWithoutComma(s: string)
    requires ',' !in s
    ensures Split(s) == [s]
  {
    if s != [] {
      assert s == [s[0]] + s[1..];
      SplitWithoutComma(s[1..]);
    }
  }

  lemma SomeMatchesAppend(a: seq<string>, b: seq<string>, target: string)
    ensures SomeMatches(a + b, target) <==> SomeMatches(a, target) || SomeMatches(b, target)
  {
    hide Normalize;
    if i :| 0 <= i < |a| && Normalize(a[i]) == target {
      assert (a + b)[i] == a[i];
    }
    if i :| 0 <= i < |b| && Normalize(b[i]) == target {
      assert (a + b)[|a| + i] == b[i];
    }
  }

  /** A tag holding a comma falls apart into pieces none of which is a quoted tag. */
  lemma CommaTagNeverMatches(item: Item, h: string)
    requires item.Valid() && item.tag.Some? && ',' in item.tag.value.core
    ensures !SomeMatches(Split(item.Text()), Quoted(h))
  {
    var o := item.tag.value.core;
    var k :| 0 <= k < |o| && o[k] == ',';
    var weak := if item.tag.value.weak then "W/" else "";
    assert o == o[..k] + "," + o[k + 1..];
    assert item.Text() == item.before + (weak + ("\"" + (o[..k] + "," + o[k + 1..]) + "\"")) + item.after;
    AroundComma(item.before, weak, o[..k], o[k + 1..], item.after);
    assert QuoteFree(item.before) && QuoteFree(weak) && QuoteFree(o) && QuoteFree(item.after);
    QuoteFreeParts(o, k);
    HalvesNeverMatch(item.before, weak, o[..k], o[k + 1..], item.after, h);
  }

  predicate QuoteFree(s: string) {
    forall i :: 0 <= i < |s| ==> s[i] != '"'
  }

  lemma QuoteFreeParts(s: string, k: nat)
    requires k < |s| && QuoteFree(s)
    ensures QuoteFree(s[..k]) && QuoteFree(s[k + 1..])
  {
  }

  lemma AroundComma(before: string, weak: string, x: string, y: string, after: string)
    ensures before + (weak + ("\"" + (x + "," + y) + "\"")) + after == (before + weak + "\"" + x) + "," + (y + "\"" + after)
  {
    var q := "\"";
    assert q + (x + "," + y) + q == (q + x) + "," + (y + q);
    assert weak + ((q + x) + "," + (y + q)) == (weak + q + x) + "," + (y + q);
    assert before + ((weak + q + x) + "," + (y + q)) == (before + weak + q + x) + "," + (y + q);
    assert (before + weak + q + x) + "," + (y + q) + after == (before + weak + q + x) + "," + (y + q + after);
  }

  lemma HalvesNeverMatch(before: string, weak: string, x: string, y: string, after: string, h: string)
    requires QuoteFree(before) && QuoteFree(weak) && QuoteFree(x) && QuoteFree(y) && QuoteFree(after)
    ensures !SomeMatches(Split((before + weak + "\"" + x) + "," + (y + "\"" + after)), Quoted(h))
  {
    var left, right := before + weak + "\"" + x, y + "\"" + after;
    assert QuoteFree(before + weak);
    hide Split, SomeMatches, Quoted, Quotes;
    OneQuote(before + weak, x);
    OneQuote(y, after);
    FewQuotesNeverMatch(left, h);
    FewQuotesNeverMatch(right, h);
    SplitAtComma(left, right);
    SomeMatchesAppend(Split(left), Split(right), Quoted(h));
  }

  lemma OneQuote(a: string, b: string)
    requires QuoteFree(a) && QuoteFree(b)
    ensures Quotes(a + "\"" + b) == 1
  {
    NoQuotes(a);
    NoQuotes(b);
    QuotesAppend(a + "\"", b);
    QuotesAppend(a, "\"");
    assert "\""[1..] == [];
  }

  lemma FewQuotesNeverMatch(s: string, h: string)
    requires Quotes(s) <= 1
    ensures !SomeMatches(Split(s), Quoted(h))
  {
    QuotesAppend("\"" + h, "\"");
    QuotesAppend("\"", h);
    assert "\""[1..] == [];
    forall i | 0 <= i < |Split(s)| ensures Normalize(Split(s)[i]) != Quoted(h) {
      NormalizeKeepsQuotes(Split(s)[i]);
      PiecesHaveFewerQuotes(s, i);
    }
  }

  lemma PlainTagMatches(item: Item, h: string)
    requires item.Valid() && item.tag.Some? && ',' !in item.tag.value.core
    ensures SomeMatches(Split(item.Text()), Quoted(h)) <==> item.tag.value.core == h
  {
    var t := item.tag.value;
    TagTextNormal(t);
    NoCommaInText(item);
    assert item.Text() == item.before + TagText(t) + item.after;
    hide Item.Text, TagText, Trim, TrimStart, TrimEnd, StripWeak, IsSpace;
    SplitWithoutComma(item.Text());
    NoSpaces(TagText(t), item.before, item.after);
    hide Split;
    assert Split(item.Text())[0] == item.Text();
    assert Normalize(item.Text()) == Quoted(t.core);
    QuotedInjective(t.core, h);
  }

  lemma NoCommaInText(item: Item)
    requires item.Valid() && item.tag.Some? && ',' !in item.tag.value.core
    ensures ',' !in item.Text()
  {
  }

  lemma TagTextNormal(t: Tag)
    ensures var x := TagText(t); x != [] && !IsSpace(x[0]) && !IsSpace(x[|x| - 1]) && StripWeak(x) == Quoted(t.core)
  {
    var x := TagText(t);
    assert t.weak ==> x == ['W', '/'] + Quoted(t.core);
  }

  lemma QuotedInjective(a: string, b: string)
    ensures Quoted(a) == Quoted(b) <==> a == b
  {
    assert Quoted(a)[1..|a| + 1] == a && Quoted(b)[1..|b| + 1] == b;
  }

  lemma ItemMatches(item: Item, h: string)
    requires item.Valid()
    ensures SomeMatches(Split(item.Text()), Quoted(h)) <==> (item.tag.Some? && item.tag.value.core == h && ',' !in h)
  {
    if item.tag.Some? {
      if ',' in item.tag.value.core {
        CommaTagNeverMatches(item, h);
      } else {
        PlainTagMatches(item, h);
      }
    } else {
      NoQuotes(item.Text());
      FewQuotesNeverMatch(item.Text(), h);
    }
  }

  lemma {:induction false} ListMatchesSplit(items: seq<Item>, h: string)
    requires items != [] && forall i :: 0 <= i < |items| ==> items[i].Valid()
    ensures SomeMatches(Split(Render(items)), Quoted(h)) <==> ListMatches(items, h) && ',' !in h
  {
    hide SomeMatches, Split, Item.Text, Quoted;
    ItemMatches(items[0], h);
    if |items| > 1 {
      SplitAtComma(items[0].Text(), Render(items[1..]));
      SomeMatchesAppend(Split(items[0].Text()), Split(Render(items[1..])), Quoted(h));
      ListMatchesSplit(items[1..], h);
      assert forall i :: 0 < i < |items| ==> items[i] == items[1..][i - 1];
    }
  }

  /** A list with a tag in it has quotes; one without has nothing but white space and commas. */
  lemma {:induction false} RenderedList(items: seq<Item>)
    requires items != [] && forall i :: 0 <= i < |items| ==> items[i].Valid()
    ensures (exists i :: 0 <= i < |items| && items[i].tag.Some?) ==> Quotes(Render(items)) > 0
    ensures (forall i :: 0 <= i < |items| ==> items[i].tag.None?) ==> '*' !in Render(items)
  {
    RenderedItem(items[0]);
    if |items| > 1 {
      hide Item.Text, Quotes;
      assert forall i :: 0 < i < |items| ==> items[i] == items[1..][i - 1];
      RenderedList(items[1..]);
      QuotesAppend(items[0].Text() + ",", Render(items[1..]));
      QuotesAppend(items[0].Text(), ",");
    }
  }

  lemma RenderedItem(item: Item)
    requires item.Valid()
    ensures item.tag.Some? ==> Quotes(item.Text()) > 0
    ensures item.tag.None? ==> '*' !in item.Text()
  {
    if item.tag.Some? {
      var weak, o := if item.tag.value.weak then "W/" else "", item.tag.value.core;
      assert item.Text() == (item.before + weak) + ("\"" + (o + "\"" + item.after)) by {
        assert Quoted(o) + item.after == "\"" + (o + "\"" + item.after);
        assert item.before + (weak + Quoted(o)) + item.after == (item.before + weak) + (Quoted(o) + item.after);
      }
      QuotesAppend(item.before + weak, "\"" + (o + "\"" + item.after));
    }
  }

  lemma {:induction false} TrimmedCharacters(s: string, c: char)
    requires c in Trim(s)
    ensures c in s
  {
    var t := TrimStart(s);
    assert TrimEnd(t) <= t;
    var k :| 0 <= k <= |s| && t == s[k..];
  }

  /** A list is neither the wildcard nor, if it has a tag, empty. */
  lemma ListIsNoWildcard(items: seq<Item>)
    requires items != [] && forall i :: 0 <= i < |items| ==> items[i].Valid()
    ensures Trim(Render(items)) != "*"
    ensures Render(items) == "" ==> forall i :: 0 <= i < |items| ==> items[i].tag.None?
  {
    RenderedList(items);
    hide Trim, Render, Quotes, Item.Valid;
    NoStarNoWildcard(Render(items));
    assert Quotes("") == 0 by { NoQuotes(""); }
  }

  lemma NoStarNoWildcard(header: string)
    requires Quotes(header) > 0 || '*' !in header
    ensures Trim(header) != "*"
  {
    NormalizeKeepsQuotes(header);
    NoQuotes("*");
    hide Trim, Quotes;
    assert "*"[0] == '*';
    if '*' in Trim(header) {
      TrimmedCharacters(header, '*');
    }
  }

  /**
   * For every well-formed list the matcher is exactly the weak comparison with the server's tag,
   * provided that tag has no comma (as no base64 tag has); a tag with a comma would never match.
   */
  lemma MatcherIsWeakComparison(items: seq<Item>, h: string)
    requires items != [] && forall i :: 0 <= i < |items| ==> items[i].Valid()
    ensures IfNoneMatchSatisfied(Some(Render(items)), Quoted(h)) <==> ListMatches(items, h) && ',' !in h
  {
    hide Split, SomeMatches, Render, Trim, Quoted, Normalize, Item.Valid;
    ListMatchesSplit(items, h);
    ListIsNoWildcard(items);
    OwnTagIsNormal(h);
  }

  lemma OwnTagIsNormal(h: string)
    ensures Normalize(Quoted(h)) == Quoted(h)
  {
    var q := Quoted(h);
    NoSpaces(q, "", "");
    assert "" + q + "" == q;
  }

  /** The wildcard matches any tag. */
  lemma WildcardMatches(left: string, right: string, etag: string)
    requires IsOws(left) && IsOws(right)
    ensures IfNoneMatchSatisfied(Some(left + "*" + right), etag)
  {
    NoSpaces("*", left, right);
  }

  // ---- The middleware ----

  /** What the client receives for one JSON reply. */
  datatype Reply = NotModified(etag: string) | Full(body: string, newEtag: Option<string>)

  predicate Successful(status: int) {
    200 <= status < 300
  }

  function EtagOf(hash: string -> string, payload: string): string {
    Quoted(hash(payload))
  }

  function ReplyTo(hash: string -> string, method': string, ifNoneMatch: Option<string>, status: int, payload: string): Reply {
    if (method' == "GET" || method' == "HEAD") && Successful(status) then
      var etag := EtagOf(hash, payload);
      if IfNoneMatchSatisfied(ifNoneMatch, etag) then NotModified(etag) else Full(payload, Some(etag))
    else Full(payload, None)
  }

  class Response {
    var statusCode: int
    var headers: map<string, string>
    var body: Option<string>

    constructor (status: int, headers: map<string, string>)
      ensures statusCode == status && this.headers == headers && body == None
    {
      statusCode, this.headers, body := status, headers, None;
    }

    /**
     * The wrapped `res.json`, for a body that serializes to `payload`; with `tagFails`, computing
     * the tag throws, and the body goes out as it would without the middleware.
     */
    method Json(hash: string -> string, tagFails: bool, cacheControl: string, method': string, ifNoneMatch: Option<string>, payload: string)
      modifies this
      // Only a successful GET or HEAD gets validators, and only then can it become a 304.
      ensures tagFails || (method' != "GET" && method' != "HEAD") || !(200 <= old(statusCode) <= 299) ==>
        statusCode == old(statusCode) && body == Some(payload) && headers == old(headers)
      ensures !tagFails && (method' == "GET" || method' == "HEAD") && 200 <= old(statusCode) <= 299 ==>
        var etag := "\"" + hash(payload) + "\"";
        var validators := old(headers)["ETag" := etag]["Cache-Control" := cacheControl];
        if IfNoneMatchSatisfied(ifNoneMatch, etag)
        then statusCode == 304 && body == old(body) && headers == validators - {"Content-Type", "Content-Length"}
        else statusCode == old(statusCode) && body == Some(payload) && headers == validators
      // What a client of the reply sees.
      ensures !tagFails ==> match ReplyTo(hash, method', ifNoneMatch, old(statusCode), payload)
        case NotModified(etag) =>
          && statusCode == 304 && body == old(body)
          && headers == old(headers)["ETag" := etag]["Cache-Control" := cacheControl] - {"Content-Type", "Content-Length"}
        case Full(p, Some(etag)) =>
          statusCode == old(statusCode) && body == Some(p) && headers == old(headers)["ETag" := etag]["Cache-Control" := cacheControl]
        case Full(p, None) =>
          statusCode == old(statusCode) && body == Some(p) && headers == old(headers)
    {
      hide IfNoneMatchSatisfied;
      if method' == "GET" || method' == "HEAD" {
        if 200 <= statusCode < 300 && !tagFails {
          var etag := EtagOf(hash, payload);
          headers := headers["ETag" := etag];
          headers := headers["Cache-Control" := cacheControl];
          if IfNoneMatchSatisfied(ifNoneMatch, etag) {
            statusCode := 304;
            headers := headers - {"Content-Type"};
            headers := headers - {"Content-Length"};
            assert headers == old(headers)["ETag" := etag]["Cache-Control" := cacheControl] - {"Content-Type", "Content-Length"};
            return;
          }
        }
      }
      body := Some(payload);
    }
  }

  // ---- Clients that revalidate ----

  datatype Stored = Stored(etag: string, body: string)
  /** The server's current payload, the client's stored reply, and what the client's last request gave it. */
  datatype Session = Session(current: string, stored: Option<Stored>, shown: Option<string>)
  datatype Event = Change(body: string) | Fetch(status: int)

  function Step(hash: string -> string, s: Session, e: Event): Session {
    match e
    case Change(body) => s.(current := body)
    case Fetch(status) =>
      var ifNoneMatch := if s.stored.Some? then Some(s.stored.value.etag) else None;
      match ReplyTo(hash, "GET", ifNoneMatch, status, s.current)
      case NotModified(_) => s.(shown := if s.stored.Some? then Some(s.stored.value.body) else None)
      case Full(body, Some(etag)) => s.(stored := Some(Stored(etag, body)), shown := Some(body))
      case Full(body, None) => s.(shown := None)
  }

  function Run(hash: string -> string, s: Session, events: seq<Event>): Session {
    if events == [] then s else Step(hash, Run(hash, s, events[..|events| - 1]), events[|events| - 1])
  }

  /** Different payloads hash differently, to text that is legal in a tag and free of commas. */
  ghost predicate GoodHash(hash: string -> string) {
    && (forall a, b :: hash(a) == hash(b) ==> a == b)
    && forall a, i :: 0 <= i < |hash(a)| ==> IsEtagChar(hash(a)[i]) && hash(a)[i] != ','
  }

  lemma OwnTagMatchesItself(hash: string -> string, a: string, b: string)
    requires GoodHash(hash)
    ensures IfNoneMatchSatisfied(Some(EtagOf(hash, a)), EtagOf(hash, b)) <==> a == b
  {
    var item := Item("", Some(Tag(false, hash(a))), "");
    assert item.Text() == Quoted(hash(a));
    hide IfNoneMatchSatisfied, Quoted, Item.Text;
    MatcherIsWeakComparison([item], hash(b));
    assert [item][0].tag.value.core == hash(a);
  }

  ghost predicate StoredIsGenuine(hash: string -> string, s: Session) {
    s.stored.Some? ==> s.stored.value.etag == EtagOf(hash, s.stored.value.body)
  }

  lemma {:induction false} RunKeepsStored(hash: string -> string, s: Session, events: seq<Event>)
    requires GoodHash(hash) && StoredIsGenuine(hash, s)
    ensures StoredIsGenuine(hash, Run(hash, s, events))
  {
    hide IfNoneMatchSatisfied, GoodHash;
    if events != [] {
      RunKeepsStored(hash, s, events[..|events| - 1]);
    }
  }

  /** Over any run of payload changes and requests, a successful fetch leaves the client with the current payload. */
  lemma RevalidationIsFresh(hash: string -> string, first: string, events: seq<Event>, status: int)
    requires GoodHash(hash) && Successful(status)
    ensures
      var s := Run(hash, Session(first, None, None), events + [Fetch(status)]);
      s.shown == Some(s.current)
  {
    var before := Run(hash, Session(first, None, None), events);
    RunKeepsStored(hash, Session(first, None, None), events);
    assert (events + [Fetch(status)])[..|events|] == events;
    if before.stored.Some? {
      OwnTagMatchesItself(hash, before.stored.value.body, before.current);
    }
    hide IfNoneMatchSatisfied, GoodHash;
    NoHeaderNoMatch(EtagOf(hash, before.current));
  }

  /** A missing or empty header matches nothing. */
  lemma NoHeaderNoMatch(etag: string)
    ensures !IfNoneMatchSatisfied(None, etag) && !IfNoneMatchSatisfied(Some(""), etag)
  {
  }
}
