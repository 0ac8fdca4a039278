/** The route comparison of scripts/check-openapi-drift.js. */
module OpenApiDrift {
  import opened Common

  // ---- The two rewrites ----

  /** Length of the leading run of characters other than `stop`. */
  function Run(s: string, stop: char): (n: nat)
    ensures n <= |s| && stop !in s[..n] && (n < |s| ==> s[n] == stop)
  {
    if s == [] || s[0] == stop then 0 else
      assert s == [s[0]] + s[1..];
      var n := 1 + Run(s[1..], stop);
      assert s[..n] == [s[0]] + s[1..][..n - 1];
      n
  }

  /** `path.replace(/:([^/]+)/g, '{$1}')`. */
  function ToBraces(s: string): string
    decreases |s|
  {
    if s == [] then [] else
      var n := Run(s[1..], '/');
      if s[0] == ':' && n > 0 then "{" + s[1..][..n] + "}" + ToBraces(s[1..][n..])
      else [s[0]] + ToBraces(s[1..])
  }

  /** Does `\{([^}]+)\}` match at the start of `s`? */
  predicate BraceAt(s: string) {
    s != [] && s[0] == '{' && 0 < Run(s[1..], '}') < |s| - 1
  }

  /** `path.replace(/\{([^}]+)\}/g, ':$1')`. */
  function ToColons(s: string): string
    decreases |s|
  {
    if s == [] then [] else
      var n := Run(s[1..], '}');
      if BraceAt(s) then ":" + s[1..][..n] + ToColons(s[1..][n + 1..])
      else [s[0]] + ToColons(s[1..])
  }

  // ---- Stepping the rewrites over known beginnings ----

  lemma {:induction false} RunOfPrefix(x: string, y: string, stop: char)
    requires stop !in x
    ensures Run(x + y, stop) == |x| + Run(y, stop)
  {
    if x == [] {
      assert x + y == y;
    } else {
      assert x == [x[0]] + x[1..] && (x + y)[1..] == x[1..] + y;
      RunOfPrefix(x[1..], y, stop);
    }
  }

  lemma ToBracesChar(c: char, s: string)
    requires c != ':'
    ensures ToBraces([c] + s) == [c] + ToBraces(s)
  {
    assert ([c] + s)[1..] == s;
  }

  lemma ToColonsChar(c: char, s: string)
    requires c != '{'
    ensures ToColons([c] + s) == [c] + ToColons(s)
  {
    assert ([c] + s)[1..] == s;
  }

  lemma ToColonsBrace(name: string, rest: string)
    requires name != [] && '}' !in name
    ensures ToColons("{" + name + "}" + rest) == ":" + name + ToColons(rest)
  {
    var s := "{" + name + "}" + rest;
    assert s[1..] == name + ("}" + rest);
    RunOfPrefix(name, "}" + rest, '}');
    assert s[1..][..|name|] == name && s[1..][|name| + 1..] == rest;
  }

  /** A colon, the run up to the next slash, and what follows. */
  lemma ToBracesColon(name: string, rest: string)
    requires name != [] && '/' !in name && (rest == [] || rest[0] == '/')
    ensures ToBraces(":" + name + rest) == "{" + name + "}" + ToBraces(rest)
  {
    var s := ":" + name + rest;
    assert s[1..] == name + rest;
    RunOfPrefix(name, rest, '/');
    assert s[1..][..|name|] == name && s[1..][|name|..] == rest;
  }

  predicate BraceFree(s: string) {
    '{' !in s && '}' !in s
  }

  /** A route path survives the rewrite to braces and back. */
  lemma {:induction false} RouteRoundTrip(p: string)
    requires BraceFree(p)
    ensures ToColons(ToBraces(p)) == p
    decreases |p|
  {
    if p != [] {
      var t := p[1..];
      assert p == [p[0]] + t;
      var n := Run(t, '/');
      if p[0] == ':' && n > 0 {
        var name, rest := t[..n], t[n..];
        assert t == name + rest && p == ":" + name + rest;
        assert '}' !in name && BraceFree(rest);
        hide ToBraces, ToColons;
        RouteRoundTrip(rest);
        ToBracesColon(name, rest);
        ToColonsBrace(name, ToBraces(rest));
      } else {
        RouteRoundTrip(t);
        assert ToBraces(p) == [p[0]] + ToBraces(t);
        hide ToBraces, ToColons;
        ToColonsChar(p[0], ToBraces(t));
      }
    }
  }

  // ---- The way back ----

  /** Closing braces, if any, and then the end of the segment. */
  predicate ClosesSegment(s: string) {
    s == [] || s[0] == '/' || (s[0] == '}' && ClosesSegment(s[1..]))
  }

  /** Every `{name}` the rewrite finds has no slash in its name and is the end of its segment. */
  predicate SegmentEnding(s: string)
    decreases |s|
  {
    if s == [] then true else
      var n := Run(s[1..], '}');
      if BraceAt(s) then
        var rest := s[1..][n + 1..];
        '/' !in s[1..][..n] && ClosesSegment(rest) && SegmentEnding(rest)
      else SegmentEnding(s[1..])
  }

  /** `s` splits at a brace match. */
  lemma BraceSplit(s: string) returns (name: string, rest: string)
    requires BraceAt(s)
    ensures s == "{" + name + "}" + rest && name != [] && '}' !in name && |rest| < |s|
    ensures ToColons(s) == ":" + name + ToColons(rest)
    ensures SegmentEnding(s) <==> '/' !in name && ClosesSegment(rest) && SegmentEnding(rest)
  {
    var n := Run(s[1..], '}');
    name, rest := s[1..][..n], s[1..][n + 1..];
    assert s[1..][n] == '}';
    assert s == "{" + name + "}" + rest;
  }

  /** Rewriting a name followed by closing braces and a rewritten segment end. */
  lemma {:induction false} ClosedSegmentRoundTrip(name: string, rest: string)
    requires name != [] && '/' !in name && ClosesSegment(rest) && ToBraces(ToColons(rest)) == rest
    ensures ToBraces(":" + name + ToColons(rest)) == "{" + name + "}" + rest
    decreases |rest|
  {
    if rest == [] {
      ToBracesColon(name, []);
      assert ":" + name + [] == ":" + name && "{" + name + "}" + [] == "{" + name + "}";
    } else {
      var t := rest[1..];
      assert rest == [rest[0]] + t;
      ToColonsChar(rest[0], t);
      ToBracesChar(rest[0], ToColons(t));
      if rest[0] == '/' {
        ToBracesColon(name, ToColons(rest));
      } else {
        assert [rest[0]] + ToBraces(ToColons(t)) == [rest[0]] + t;
        assert ToBraces(ToColons(t)) == ([rest[0]] + ToBraces(ToColons(t)))[1..] == t;
        ClosedSegmentRoundTrip(name + "}", t);
        assert ":" + name + ToColons(rest) == ":" + (name + "}") + ToColons(t);
        assert "{" + (name + "}") + "}" + t == "{" + name + "}" + rest;
      }
    }
  }

  lemma {:induction false} SegmentEndingRoundTrip(s: string)
    requires ':' !in s && SegmentEnding(s)
    ensures ToBraces(ToColons(s)) == s
    decreases |s|
  {
    if s != [] {
      if BraceAt(s) {
        var name, rest := BraceSplit(s);
        assert ':' !in rest by { assert forall i :: 0 <= i < |rest| ==> rest[i] == s[|s| - |rest| + i]; }
        SegmentEndingRoundTrip(rest);
        ClosedSegmentRoundTrip(name, rest);
      } else {
        assert s == [s[0]] + s[1..];
        SegmentEndingRoundTrip(s[1..]);
        ToBracesChar(s[0], ToColons(s[1..]));
      }
    }
  }

  /** What the rewrite to braces makes of a colon followed by a character other than a slash. */
  lemma ToBracesRun(w: string) returns (m: nat, after: string)
    requires w != [] && w[0] != '/'
    ensures m == Run(w, '/') > 0 && ToBraces(":" + w) == "{" + w[..m] + "}" + after
  {
    assert (":" + w)[1..] == w;
    m := Run(w, '/');
    after := ToBraces(w[m..]);
  }

  lemma {:induction false} OnlyClosedSegmentsReturn(name: string, rest: string)
    requires name != [] && '/' !in name && ':' !in rest
    requires ToBraces(":" + name + ToColons(rest)) == "{" + name + "}" + rest
    ensures ClosesSegment(rest) && ToBraces(ToColons(rest)) == rest
    decreases |rest|
  {
    if rest != [] {
      hide ToBraces, ToColons;
      var b, t := ToColons(rest), rest[1..];
      assert rest == [rest[0]] + t;
      if rest[0] == '/' {
        ToColonsChar('/', t);
        ToBracesColon(name, b);
        SameTail("{" + name + "}", ToBraces(b), rest);
      } else {
        AfterName(name, rest);
        ToColonsChar('}', t);
        ToBracesChar('}', ToColons(t));
        MoveBrace(":", name, ToColons(t));
        MoveBrace("{", name, "}" + t);
        assert "{" + (name + "}") + "}" + t == "{" + (name + "}") + ("}" + t);
        OnlyClosedSegmentsReturn(name + "}", t);
      }
    }
  }

  lemma MoveBrace(first: string, name: string, t: string)
    ensures first + name + ("}" + t) == first + (name + "}") + t
    ensures first + name + "}" + t == first + (name + "}") + t
  {
  }

  lemma SameTail(x: string, y: string, z: string)
    requires x + y == x + z
    ensures y == z
  {
    assert (x + y)[|x|..] == y && (x + z)[|x|..] == z;
  }

  lemma FirstOfToColons(rest: string)
    requires rest != []
    ensures ToColons(rest) != [] && (ToColons(rest)[0] == rest[0] || ToColons(rest)[0] == ':')
  {
  }

  /** What shows up in the output just after the name when the segment goes on. */
  lemma ShowsAfterName(name: string, b: string)
    requires name != [] && '/' !in name && b != [] && b[0] != '/'
    ensures var out := ToBraces(":" + name + b); |out| > 1 + |name| && out[1 + |name|] == b[0]
  {
    RunOfPrefix(name, b, '/');
    assert ":" + name + b == ":" + (name + b);
    assert (name + b)[0] == name[0] && name[0] in name;
    var m, after := ToBracesRun(name + b);
    assert (name + b)[|name|] == b[0];
  }

  /** The character after the name comes back unchanged only if it is a closing brace. */
  lemma AfterName(name: string, rest: string)
    requires name != [] && '/' !in name && rest != [] && rest[0] != '/'
    requires ToBraces(":" + name + ToColons(rest)) == "{" + name + "}" + rest
    ensures rest[0] == '}'
  {
    FirstOfToColons(rest);
    hide ToBraces, ToColons;
    ShowsAfterName(name, ToColons(rest));
    assert ("{" + name + "}" + rest)[1 + |name|] == '}';
  }

  /** A name starting with a slash leaves the colon in front of it as it is. */
  lemma ShowsColon(name: string, b: string)
    requires name != [] && name[0] == '/'
    ensures var out := ToBraces(":" + name + b); out != [] && out[0] == ':'
  {
    assert (":" + name + b)[1..] == name + b;
  }

  /** A slash later in the name shows up in the output as an early closing brace. */
  lemma ShowsSlash(x: string, y: string, b: string)
    requires x != [] && '/' !in x && y != [] && y[0] == '/'
    ensures var out := ToBraces(":" + (x + y) + b); |out| > 1 + |x| && out[1 + |x|] == '}'
  {
    var rest := y + b;
    assert ":" + (x + y) + b == ":" + x + rest;
    ToBracesColon(x, rest);
  }

  lemma NameShows(name: string, rest: string, j: nat)
    requires j < |name|
    ensures ("{" + name + "}" + rest)[1 + j] == name[j]
  {
  }

  lemma NoSlashInName(name: string, b: string, rest: string)
    requires name != [] && '}' !in name && ToBraces(":" + name + b) == "{" + name + "}" + rest
    ensures '/' !in name
  {
    var j := Run(name, '/');
    assert name == name[..j] + name[j..];
    if j < |name| {
      NameShows(name, rest, j);
      hide ToBraces;
      if j == 0 {
        ShowsColon(name, b);
      } else {
        ShowsSlash(name[..j], name[j..], b);
      }
    }
  }

  /**
   * A documented path without colons survives the rewrite to colons and back exactly if each
   * `{name}` in it has no slash in its name and ends its segment (up to further closing braces).
   */
  lemma {:induction false} DocumentedRoundTrip(s: string)
    requires ':' !in s
    ensures ToBraces(ToColons(s)) == s <==> SegmentEnding(s)
    decreases |s|
  {
    if SegmentEnding(s) {
      SegmentEndingRoundTrip(s);
    } else if ToBraces(ToColons(s)) == s {
      if BraceAt(s) {
        var name, rest := BraceSplit(s);
        assert ':' !in rest by { assert forall i :: 0 <= i < |rest| ==> rest[i] == s[|s| - |rest| + i]; }
        NoSlashInName(name, ToColons(rest), rest);
        OnlyClosedSegmentsReturn(name, rest);
        DocumentedRoundTrip(rest);
      } else {
        assert s == [s[0]] + s[1..];
        ToBracesChar(s[0], ToColons(s[1..]));
        SameTail([s[0]], ToBraces(ToColons(s[1..])), s[1..]);
        DocumentedRoundTrip(s[1..]);
      }
      assert false;
    }
  }

  // ---- The comparison ----

  datatype Route = Route(method': string, path: string, file: string)

  const API := "/api"

  /** The route counts as documented, as it stands or under the API prefix. */
  predicate Documented(r: Route, documented: seq<string>) {
    ToBraces(r.path) in documented || API + ToBraces(r.path) in documented
  }

  /** `docPath.replace(/^\/api/, '')`. */
  function StripApi(d: string): string {
    if API <= d then d[|API|..] else d
  }

  predicate Exists(d: string, routes: seq<Route>) {
    exists i :: 0 <= i < |routes| && routes[i].path == ToColons(StripApi(d))
  }

  function MissingOf(routes: seq<Route>, documented: seq<string>): seq<Route> {
    if routes == [] then [] else
      var k := |routes| - 1;
      MissingOf(routes[..k], documented) + if Documented(routes[k], documented) then [] else [routes[k]]
  }

  function StaleOf(documented: seq<string>, routes: seq<Route>): seq<string> {
    if documented == [] then [] else
      var k := |documented| - 1;
      StaleOf(documented[..k], routes) + if Exists(documented[k], routes) then [] else [documented[k]]
  }

  method CheckDrift(routes: seq<Route>, documented: seq<string>) returns (missing: seq<Route>, stale: seq<string>)
    ensures missing == MissingOf(routes, documented)
    ensures stale == StaleOf(documented, routes)
  {
    hide ToBraces, ToColons, StripApi;
    missing := [];
    for i := 0 to |routes|
      invariant missing == MissingOf(routes[..i], documented)
    {
      assert routes[..i + 1][..i] == routes[..i];
      var normalized := ToBraces(routes[i].path);
      var full := API + normalized;
      if normalized !in documented && full !in documented {
        missing := missing + [routes[i]];
      }
    }
    assert routes[..|routes|] == routes;
    stale := [];
    for i := 0 to |documented|
      invariant stale == StaleOf(documented[..i], routes)
    {
      assert documented[..i + 1][..i] == documented[..i];
      if !Exists(documented[i], routes) {
        stale := stale + [documented[i]];
      }
    }
    assert documented[..|documented|] == documented;
  }

  lemma MissingLast(routes: seq<Route>, documented: seq<string>)
    ensures routes == [] ==> MissingOf(routes, documented) == []
    ensures routes != [] ==>
      var k := |routes| - 1;
      MissingOf(routes, documented) == MissingOf(routes[..k], documented) + if !Documented(routes[k], documented) then [routes[k]] else []
  {
    hide Documented;
  }

  lemma {:induction false} MissingSelected(routes: seq<Route>, documented: seq<string>) returns (pos: seq<nat>)
    ensures Selects(routes, pos, MissingOf(routes, documented))
    ensures forall i :: 0 <= i < |routes| ==> (i in pos <==> !Documented(routes[i], documented))
  {
    MissingLast(routes, documented);
    if routes == [] {
      pos := [];
    } else {
      hide *;
      var init, last := routes[..|routes| - 1], routes[|routes| - 1];
      pos := MissingSelected(init, documented);
      pos := SelectsNext(routes, pos, MissingOf(init, documented), !Documented(last, documented));
    }
  }

  /** Each route without a documented form is listed once for each time it occurs, in order. */
  lemma MissingInOrder(routes: seq<Route>, documented: seq<string>) returns (pos: seq<nat>)
    ensures Selects(routes, pos, MissingOf(routes, documented))
    ensures forall i :: 0 <= i < |routes| ==>
      (i in pos <==> ToBraces(routes[i].path) !in documented && "/api" + ToBraces(routes[i].path) !in documented)
  {
    hide ToBraces, MissingOf, Selects;
    pos := MissingSelected(routes, documented);
  }

  ghost predicate NoRouteHas(routes: seq<Route>, path: string) {
    forall r :: r in routes ==> r.path != path
  }

  lemma StaleLast(documented: seq<string>, routes: seq<Route>)
    ensures documented == [] ==> StaleOf(documented, routes) == []
    ensures documented != [] ==>
      var k := |documented| - 1;
      StaleOf(documented, routes) == StaleOf(documented[..k], routes) + if !Exists(documented[k], routes) then [documented[k]] else []
  {
    hide Exists;
  }

  lemma {:induction false} StaleSelected(documented: seq<string>, routes: seq<Route>) returns (pos: seq<nat>)
    ensures Selects(documented, pos, StaleOf(documented, routes))
    ensures forall i :: 0 <= i < |documented| ==> (i in pos <==> !Exists(documented[i], routes))
  {
    StaleLast(documented, routes);
    if documented == [] {
      pos := [];
    } else {
      hide *;
      var init, last := documented[..|documented| - 1], documented[|documented| - 1];
      pos := StaleSelected(init, routes);
      pos := SelectsNext(documented, pos, StaleOf(init, routes), !Exists(last, routes));
    }
  }

  /** Likewise for the documented paths that no route accounts for. */
  lemma StaleInOrder(documented: seq<string>, routes: seq<Route>) returns (pos: seq<nat>)
    ensures Selects(documented, pos, StaleOf(documented, routes))
    ensures forall i :: 0 <= i < |documented| ==> (i in pos <==> NoRouteHas(routes, ToColons(StripApi(documented[i]))))
  {
    hide *;
    pos := StaleSelected(documented, routes);
    forall i | 0 <= i < |documented| ensures Exists(documented[i], routes) <==> !NoRouteHas(routes, ToColons(StripApi(documented[i]))) {
      ExistsMeans(documented[i], routes);
    }
  }

  lemma ExistsMeans(d: string, routes: seq<Route>)
    ensures Exists(d, routes) <==> !NoRouteHas(routes, ToColons(StripApi(d)))
  {
    hide ToColons, StripApi;
    if r :| r in routes && r.path == ToColons(StripApi(d)) {
      var i :| 0 <= i < |routes| && routes[i] == r;
    }
  }

  lemma {:induction false} MissingMeans(routes: seq<Route>, documented: seq<string>)
    ensures forall r :: r in MissingOf(routes, documented) <==> r in routes && !Documented(r, documented)
  {
    if routes != [] {
      var k := |routes| - 1;
      hide Documented;
      MissingMeans(routes[..k], documented);
      assert routes == routes[..k] + [routes[k]];
    }
  }

  lemma {:induction false} StaleMeans(documented: seq<string>, routes: seq<Route>)
    ensures forall d :: d in StaleOf(documented, routes) <==> d in documented && !Exists(d, routes)
  {
    if documented != [] {
      var k := |documented| - 1;
      hide Exists;
      StaleMeans(documented[..k], routes);
      assert documented == documented[..k] + [documented[k]];
    }
  }

  /** A route documented under its API form is never stale under that form. */
  lemma DocumentedFormIsNotStale(routes: seq<Route>, documented: seq<string>, r: Route)
    requires r in routes && BraceFree(r.path)
    ensures API + ToBraces(r.path) !in StaleOf(documented, routes)
  {
    var d := API + ToBraces(r.path);
    StaleMeans(documented, routes);
    RouteRoundTrip(r.path);
    hide ToBraces, ToColons, StaleOf;
    assert StripApi(d) == ToBraces(r.path);
    var i :| 0 <= i < |routes| && routes[i] == r;
    assert Exists(d, routes);
  }

  /** The rewrite passes over a prefix without colons. */
  lemma {:induction false} BracesOverPrefix(prefix: string, rest: string)
    requires ':' !in prefix
    ensures ToBraces(prefix + rest) == prefix + ToBraces(rest)
  {
    if prefix == [] {
      assert prefix + rest == rest;
    } else {
      var c, t := prefix[0], prefix[1..];
      assert c in prefix && forall x :: x in t ==> x in prefix;
      assert prefix == [c] + t && prefix + rest == [c] + (t + rest);
      BracesOverPrefix(t, rest);
      ToBracesChar(c, t + rest);
    }
  }

  lemma {:induction false} ColonsOverPrefix(prefix: string, rest: string)
    requires '{' !in prefix
    ensures ToColons(prefix + rest) == prefix + ToColons(rest)
  {
    if prefix == [] {
      assert prefix + rest == rest;
    } else {
      var c, t := prefix[0], prefix[1..];
      assert c in prefix && forall x :: x in t ==> x in prefix;
      assert prefix == [c] + t && prefix + rest == [c] + (t + rest);
      ColonsOverPrefix(t, rest);
      ToColonsChar(c, t + rest);
    }
  }

  /** An Express parameter, up to the end of its segment, becomes a documented one. */
  lemma ParameterGetsBraces(prefix: string, name: string, rest: string)
    requires ':' !in prefix && name != [] && '/' !in name && (rest == [] || rest[0] == '/')
    ensures ToBraces(prefix + (":" + name + rest)) == prefix + ("{" + name + "}" + ToBraces(rest))
  {
    hide ToBraces;
    BracesOverPrefix(prefix, ":" + name + rest);
    ToBracesColon(name, rest);
  }

  /** A documented parameter becomes an Express one. */
  lemma ParameterGetsColon(prefix: string, name: string, rest: string)
    requires '{' !in prefix && name != [] && '}' !in name
    ensures ToColons(prefix + ("{" + name + "}" + rest)) == prefix + (":" + name + ToColons(rest))
  {
    hide ToColons;
    ColonsOverPrefix(prefix, "{" + name + "}" + rest);
    ToColonsBrace(name, rest);
  }

  /** A path without parameters stays as it is. */
  lemma NoParameters(s: string)
    ensures ':' !in s ==> ToBraces(s) == s
    ensures '{' !in s ==> ToColons(s) == s
  {
    assert s + [] == s;
    if ':' !in s { BracesOverPrefix(s, []); }
    if '{' !in s { ColonsOverPrefix(s, []); }
  }

  lemma PrefixCons(h: char, tail: string, c: char, t: string)
    ensures [h] + tail <= [c] + t <==> h == c && tail <= t
  {
    if [h] + tail <= [c] + t {
      assert ([h] + tail)[0] == ([c] + t)[0];
      assert tail == ([h] + tail)[1..] && t[..|tail|] == ([c] + t)[..|tail| + 1][1..];
    }
  }

  /** The rewrite does not invent a prefix that has neither colons nor braces. */
  lemma {:induction false} PrefixComesFromInput(prefix: string, p: string)
    requires ':' !in prefix && '{' !in prefix && prefix <= ToBraces(p)
    ensures prefix <= p
  {
    if prefix != [] {
      var h, tail := prefix[0], prefix[1..];
      assert prefix == [h] + tail && h in prefix && forall x :: x in tail ==> x in prefix;
      assert p != [];
      var c, t := p[0], p[1..];
      assert p == [c] + t;
      FirstChar(c, t);
      hide ToBraces;
      assert ToBraces(p)[0] == h;
      PrefixCons(h, tail, c, ToBraces(t));
      PrefixComesFromInput(tail, t);
      PrefixCons(h, tail, c, t);
    }
  }

  /** A first character other than a colon stays; a colon stays or becomes an opening brace. */
  lemma FirstChar(c: char, t: string)
    ensures c != ':' ==> ToBraces([c] + t) == [c] + ToBraces(t)
    ensures c == ':' ==> ToBraces([c] + t) != [] && ToBraces([c] + t)[0] in ":{"
  {
    assert ([c] + t)[1..] == t;
  }

  /** The forms the script reads from the document: under the API prefix, without further colons. */
  ghost predicate FromDocument(d: string) {
    "/api/" <= d && ':' !in d
  }

  ghost predicate PathSetsCoincide(routes: seq<Route>, documented: seq<string>) {
    && (forall r :: r in routes ==> API + ToBraces(r.path) in documented)
    && forall d :: d in documented ==> exists i :: 0 <= i < |routes| && d == API + ToBraces(routes[i].path)
  }

  /** A route that does not start with `/api/` can only be documented under its API form. */
  lemma OnlyUnderApi(documented: seq<string>, r: Route)
    requires (forall d :: d in documented ==> FromDocument(d)) && !("/api/" <= r.path)
    ensures Documented(r, documented) <==> API + ToBraces(r.path) in documented
  {
    if ToBraces(r.path) in documented {
      assert FromDocument(ToBraces(r.path));
      PrefixComesFromInput("/api/", r.path);
    }
  }

  lemma StripApiOfForm(x: string)
    ensures StripApi(API + x) == x
  {
    assert (API + x)[|API|..] == x;
  }

  /** Only a leading `/api` is taken off. */
  lemma StripApiMeans(d: string)
    ensures StripApi("/api" + d) == d && (!("/api" <= d) ==> StripApi(d) == d)
  {
    StripApiOfForm(d);
  }

  lemma ApiFormIs(d: string)
    requires FromDocument(d)
    ensures d == API + StripApi(d) && ':' !in StripApi(d)
  {
    assert "/api/"[..4] == API && API <= d;
    assert forall i :: 0 <= i < |StripApi(d)| ==> StripApi(d)[i] == d[i + 4];
  }

  /**
   * For routes written without braces and not starting with `/api/`: the script finds no drift, and
   * every documented parameter ends its segment, exactly if the two sets of paths coincide.
   */
  lemma NoDriftIffPathsCoincide(routes: seq<Route>, documented: seq<string>)
    requires forall r :: r in routes ==> BraceFree(r.path) && !("/api/" <= r.path)
    requires forall d :: d in documented ==> FromDocument(d)
    ensures
      && MissingOf(routes, documented) == [] && StaleOf(documented, routes) == []
      && (forall d :: d in documented ==> SegmentEnding(StripApi(d)))
      <==> PathSetsCoincide(routes, documented)
  {
    hide MissingOf, StaleOf, ToBraces, ToColons, SegmentEnding, BraceFree, StripApi, Documented;
    MissingIffEmpty(routes, documented);
    StaleIffEmpty(documented, routes);
    forall r | r in routes ensures Documented(r, documented) <==> API + ToBraces(r.path) in documented {
      OnlyUnderApi(documented, r);
    }
    forall d | d in documented
      ensures Exists(d, routes) && SegmentEnding(StripApi(d)) <==> exists i :: 0 <= i < |routes| && d == API + ToBraces(routes[i].path)
    {
      ExistsIffForm(d, routes);
    }
  }

  lemma ExistsIffForm(d: string, routes: seq<Route>)
    requires FromDocument(d) && forall r :: r in routes ==> BraceFree(r.path)
    ensures Exists(d, routes) && SegmentEnding(StripApi(d)) <==> exists i :: 0 <= i < |routes| && d == API + ToBraces(routes[i].path)
  {
    hide ToBraces, ToColons, SegmentEnding, BraceFree, StripApi;
    ApiFormIs(d);
    DocumentedRoundTrip(StripApi(d));
    if i :| 0 <= i < |routes| && d == API + ToBraces(routes[i].path) {
      assert routes[i] in routes;
      StripApiOfForm(ToBraces(routes[i].path));
      RouteRoundTrip(routes[i].path);
      assert routes[i].path == ToColons(StripApi(d));
    }
  }

  lemma MissingIffEmpty(routes: seq<Route>, documented: seq<string>)
    ensures MissingOf(routes, documented) == [] <==> forall r :: r in routes ==> Documented(r, documented)
  {
    hide MissingOf, Documented;
    MissingMeans(routes, documented);
    var m := MissingOf(routes, documented);
    assert m == [] || m[0] in m;
  }

  lemma StaleIffEmpty(documented: seq<string>, routes: seq<Route>)
    ensures StaleOf(documented, routes) == [] <==> forall d :: d in documented ==> Exists(d, routes)
  {
    hide StaleOf, Exists;
    StaleMeans(documented, routes);
    var s := StaleOf(documented, routes);
    assert s == [] || s[0] in s;
  }

  /**
   * A route that itself starts with the API prefix and is documented as it stands is not missing,
   * and that entry is stale exactly unless the rest of its path is also a route.
   */
  lemma PrefixedRouteMayBeStale(routes: seq<Route>, documented: seq<string>, r: Route)
    requires r in routes && BraceFree(r.path) && API <= r.path && ToBraces(r.path) in documented
    ensures r !in MissingOf(routes, documented)
    ensures ToBraces(r.path) in StaleOf(documented, routes) <==> forall other :: other in routes ==> other.path != r.path[4..]
  {
    hide MissingOf, StaleOf;
    MissingMeans(routes, documented);
    StaleMeans(documented, routes);
    var d, rest := ToBraces(r.path), r.path[4..];
    assert r.path == API + rest;
    BracesOverPrefix(API, rest);
    assert forall i :: 0 <= i < |rest| ==> rest[i] == r.path[i + 4] && rest[i] in r.path;
    RouteRoundTrip(rest);
    StripApiOfForm(ToBraces(rest));
    hide ToBraces, ToColons, StripApi;
    if other :| other in routes && other.path == rest {
      var i :| 0 <= i < |routes| && routes[i] == other;
      assert Exists(d, routes);
    }
    if Exists(d, routes) {
      var i :| 0 <= i < |routes| && routes[i].path == ToColons(StripApi(d));
      assert routes[i] in routes;
    }
  }
}
