/**
 * The request gate that runs before every matched request: it lets the
 * session SDK refresh the session through a cookie adapter, classifies the
 * path as public or not, and redirects a visitor without a user to the login
 * page with the original path as `redirectTo`.
 *
 * The SDK itself is not modelled. What it does during each `getUser` call is
 * an input: the sequence of cookie writes it makes through the adapter, and,
 * for the second call, whether a user came back.
 */
module RequestGate {
  import opened Wrappers
  import opened Text

  // ---------------------------------------------------------------------------
  // Path classification and the redirect decision
  // ---------------------------------------------------------------------------

  /** The allow-list, in source order. */
  const PublicPaths: seq<string> := ["/", "/login", "/signup", "/forgot-password", "/api/webhooks"]

  /** `publicPaths.some((publicPath) => path.startsWith(publicPath))`: a case-sensitive prefix test. */
  predicate IsPublicPath(path: string) {
    exists k :: 0 <= k < |PublicPaths| && PublicPaths[k] <= path
  }

  /**
   * Because `/` is on the allow-list and the test is a prefix test, a path
   * is public exactly when it starts with `/`, which every request path does.
   */
  lemma PublicIffRooted(path: string)
    ensures IsPublicPath(path) <==> "/" <= path
  {
    if IsPublicPath(path) {
      var k :| 0 <= k < |PublicPaths| && PublicPaths[k] <= path;
      assert PublicPaths[k][0] == '/';
      assert path[0] == PublicPaths[k][0];
    }
    if "/" <= path {
      assert PublicPaths[0] <= path;
    }
  }

  datatype Decision = PassThrough | RedirectToLogin(returnPath: string)

  /** The branch at the end of the gate: redirect only a non-public path without a user. */
  function Decide(path: string, userPresent: bool): (d: Decision)
    ensures d.RedirectToLogin? <==> !IsPublicPath(path) && !userPresent
    ensures d.RedirectToLogin? ==> d.returnPath == path
  {
    if !IsPublicPath(path) && !userPresent then RedirectToLogin(path) else PassThrough
  }

  /** The redirect branch is unreachable for every path that starts with `/`. */
  lemma NeverRedirects(path: string, userPresent: bool)
    requires "/" <= path
    ensures Decide(path, userPresent) == PassThrough
  {
    PublicIffRooted(path);
  }

  // ---------------------------------------------------------------------------
  // The redirect URL
  // ---------------------------------------------------------------------------

  datatype Param = Param(name: string, value: string)

  /** A URL as the gate sees it; serialisation and percent-encoding are not modelled. */
  datatype Url = Url(origin: string, pathname: string, search: seq<Param>, hash: string)

  /** `searchParams.get(name)`: the first value under `name`. */
  function GetParam(ps: seq<Param>, name: string): Option<string>
    decreases |ps|
  {
    if ps == [] then None
    else if ps[0].name == name then Some(ps[0].value)
    else GetParam(ps[1..], name)
  }

  /** Number of entries under `name`. */
  function CountNamed(ps: seq<Param>, name: string): nat
    decreases |ps|
  {
    if ps == [] then 0 else (if ps[0].name == name then 1 else 0) + CountNamed(ps[1..], name)
  }

  /** The entries not under `name`, in order. */
  function Others(ps: seq<Param>, name: string): (r: seq<Param>)
    ensures CountNamed(r, name) == 0
    ensures |r| == |ps| - CountNamed(ps, name)
    ensures CountNamed(ps, name) == 0 ==> r == ps
    decreases |ps|
  {
    if ps == [] then []
    else if ps[0].name == name then Others(ps[1..], name)
    else [ps[0]] + Others(ps[1..], name)
  }

  /** `Others` keeps exactly the entries under other names. */
  lemma {:induction false} OthersMembers(ps: seq<Param>, name: string)
    ensures forall p :: p in Others(ps, name) <==> p in ps && p.name != name
    decreases |ps|
  {
    if ps != [] {
      OthersMembers(ps[1..], name);
      assert ps == [ps[0]] + ps[1..];
    }
  }

  /**
   * `searchParams.set(name, value)`: the first entry under `name` takes the
   * new value and the other entries under `name` are deleted; with no such
   * entry, one is appended. Entries under other names keep their order.
   */
  function SetParam(ps: seq<Param>, name: string, value: string): (r: seq<Param>)
    ensures GetParam(r, name) == Some(value)
    ensures CountNamed(r, name) == 1
    ensures Others(r, name) == Others(ps, name)
    decreases |ps|
  {
    if ps == [] then [Param(name, value)]
    else if ps[0].name == name then
      var rest := Others(ps[1..], name);
      var r := [Param(name, value)] + rest;
      assert r[1..] == rest;
      r
    else [ps[0]] + SetParam(ps[1..], name, value)
  }

  /** With no entry under `name`, `set` appends one at the end. */
  lemma {:induction false} SetParamAppends(ps: seq<Param>, name: string, value: string)
    requires CountNamed(ps, name) == 0
    ensures SetParam(ps, name, value) == ps + [Param(name, value)]
    decreases |ps|
  {
    if ps != [] {
      assert ps[0].name != name;
      SetParamAppends(ps[1..], name, value);
      assert [ps[0]] + (ps[1..] + [Param(name, value)]) == ps + [Param(name, value)];
    }
  }

  /** Otherwise the new entry takes the place of the first one under `name`, and what precedes it is unchanged. */
  lemma {:induction false} SetParamInPlace(ps: seq<Param>, name: string, value: string, i: nat)
    requires i < |ps| && ps[i].name == name && CountNamed(ps[..i], name) == 0
    ensures i < |SetParam(ps, name, value)|
    ensures SetParam(ps, name, value)[..i] == ps[..i] && SetParam(ps, name, value)[i] == Param(name, value)
    decreases i
  {
    if i > 0 {
      assert ps[0].name != name by {
        assert ps[..i][0] == ps[0];
      }
      assert CountNamed(ps[1..][..i - 1], name) == 0 by {
        assert ps[..i][1..] == ps[1..][..i - 1];
      }
      SetParamInPlace(ps[1..], name, value, i - 1);
      var rest := SetParam(ps[1..], name, value);
      assert SetParam(ps, name, value) == [ps[0]] + rest;
      assert ([ps[0]] + rest)[..i] == [ps[0]] + rest[..i - 1];
      assert ps[..i] == [ps[0]] + ps[1..][..i - 1];
    }
  }

  /** Where `set` puts the entry, for every position at once. */
  lemma SetParamPlaces(ps: seq<Param>, name: string, value: string)
    ensures CountNamed(ps, name) == 0 ==> SetParam(ps, name, value) == ps + [Param(name, value)]
    ensures forall i :: 0 <= i < |ps| && ps[i].name == name && CountNamed(ps[..i], name) == 0 ==>
      i < |SetParam(ps, name, value)| && SetParam(ps, name, value)[..i] == ps[..i] && SetParam(ps, name, value)[i] == Param(name, value)
  {
    if CountNamed(ps, name) == 0 {
      SetParamAppends(ps, name, value);
    }
    forall i | 0 <= i < |ps| && ps[i].name == name && CountNamed(ps[..i], name) == 0
      ensures i < |SetParam(ps, name, value)| && SetParam(ps, name, value)[..i] == ps[..i] && SetParam(ps, name, value)[i] == Param(name, value)
    {
      SetParamInPlace(ps, name, value, i);
    }
  }

  /**
   * The redirect target: a clone of the request URL whose path is `/login`
   * and whose only `redirectTo` parameter is the original path; the origin,
   * the fragment and every other parameter are kept. The parameter takes
   * the place of the first existing `redirectTo`, or goes at the end.
   */
  function RedirectUrl(url: Url, path: string): (r: Url)
    ensures r.origin == url.origin && r.hash == url.hash
    ensures r.pathname == "/login"
    ensures GetParam(r.search, "redirectTo") == Some(path)
    ensures CountNamed(r.search, "redirectTo") == 1
    ensures Others(r.search, "redirectTo") == Others(url.search, "redirectTo")
    ensures CountNamed(url.search, "redirectTo") == 0 ==> r.search == url.search + [Param("redirectTo", path)]
    ensures forall i :: 0 <= i < |url.search| && url.search[i].name == "redirectTo" && CountNamed(url.search[..i], "redirectTo") == 0 ==>
      i < |r.search| && r.search[..i] == url.search[..i] && r.search[i] == Param("redirectTo", path)
  {
    SetParamPlaces(url.search, "redirectTo", path);
    url.(pathname := "/login", search := SetParam(url.search, "redirectTo", path))
  }

  // ---------------------------------------------------------------------------
  // The cookie adapter handed to the session SDK
  // ---------------------------------------------------------------------------

  /** A response: pass the request on, or redirect; each carries the cookies it sets. */
  datatype Response = Next(cookies: map<string, string>) | Redirect(location: Url, cookies: map<string, string>)

  /**
   * The state the adapter's callbacks share: the request's cookies, which
   * they update in place, and the `response` variable, which every write
   * replaces with a fresh pass-through response carrying only that write.
   */
  class CookieAdapter {
    var requestCookies: map<string, string>
    var response: Response

    /** The gate's start: the request's cookies and a fresh pass-through response. */
    constructor (cookies: map<string, string>)
      ensures requestCookies == cookies && response == Next(map[])
    {
      requestCookies := cookies;
      response := Next(map[]);
    }

    /** `get(name)`: the request cookie's value, if there is one. */
    function Get(name: string): (r: Option<string>)
      reads this
      ensures r.Some? <==> name in requestCookies
      ensures r.Some? ==> r.value == requestCookies[name]
    {
      if name in requestCookies then Some(requestCookies[name]) else None
    }

    /** `set(name, value, options)` */
    method Set(name: string, value: string)
      modifies this
      ensures requestCookies == old(requestCookies)[name := value]
      ensures response == Next(map[name := value])
      ensures Get(name) == Some(value)
    {
      requestCookies := requestCookies[name := value];
      response := Next(map[]);
      response := Next(response.cookies[name := value]);
    }

    /** `remove(name, options)`: the cookie stays, with the empty string as its value. */
    method Remove(name: string)
      modifies this
      ensures requestCookies == old(requestCookies)[name := ""]
      ensures response == Next(map[name := ""])
      ensures Get(name) == Some("")
    {
      requestCookies := requestCookies[name := ""];
      response := Next(map[]);
      response := Next(response.cookies[name := ""]);
    }
  }

  /** One callback invocation made by the SDK. */
  datatype CookieWrite = SetCookie(name: string, value: string) | RemoveCookie(name: string)

  /** The value a write leaves behind. */
  function Written(w: CookieWrite): string {
    match w
    case SetCookie(_, v) => v
    case RemoveCookie(_) => ""
  }

  function Lookup(m: map<string, string>, name: string): Option<string> {
    if name in m then Some(m[name]) else None
  }

  /** The request cookies after a sequence of writes. */
  function Replay(cookies: map<string, string>, writes: seq<CookieWrite>): map<string, string>
    decreases |writes|
  {
    if writes == [] then cookies
    else
      var w := writes[|writes| - 1];
      Replay(cookies, writes[..|writes| - 1])[w.name := Written(w)]
  }

  /** The value left by the last write to `name`, if any write touched it. */
  function LastWriteTo(writes: seq<CookieWrite>, name: string): (r: Option<string>)
    ensures r.Some? <==> exists k :: 0 <= k < |writes| && writes[k].name == name
    ensures r.Some? ==> exists k :: 0 <= k < |writes| && writes[k].name == name && r.value == Written(writes[k]) &&
                          forall j :: k < j < |writes| ==> writes[j].name != name
    decreases |writes|
  {
    if writes == [] then None
    else
      var w := writes[|writes| - 1];
      if w.name == name then Some(Written(w))
      else
        var r := LastWriteTo(writes[..|writes| - 1], name);
        assert forall k :: 0 <= k < |writes| - 1 ==> writes[..|writes| - 1][k] == writes[k];
        r
  }

  /**
   * The request cookies accumulate every write: each cookie holds the value
   * of the last write to it, and a cookie no write touched keeps its value.
   */
  lemma {:induction false} ReplayLookup(cookies: map<string, string>, writes: seq<CookieWrite>, name: string)
    ensures Lookup(Replay(cookies, writes), name) ==
      if LastWriteTo(writes, name).Some? then LastWriteTo(writes, name) else Lookup(cookies, name)
    decreases |writes|
  {
    if writes != [] {
      ReplayLookup(cookies, writes[..|writes| - 1], name);
    }
  }

  /** The `response` variable after a non-empty sequence of writes. */
  function ResponseAfter(writes: seq<CookieWrite>): Response
    requires writes != []
  {
    var w := writes[|writes| - 1];
    Next(map[w.name := Written(w)])
  }

  /**
   * The callbacks the SDK invokes during one `getUser` call, in order. Every
   * write replaces the response, so it ends up carrying the last cookie
   * written and no other.
   */
  method ApplyWrites(adapter: CookieAdapter, writes: seq<CookieWrite>)
    modifies adapter
    ensures adapter.requestCookies == Replay(old(adapter.requestCookies), writes)
    ensures adapter.response == if writes == [] then old(adapter.response) else ResponseAfter(writes)
    ensures writes != [] ==>
      adapter.response.Next? && adapter.response.cookies == map[writes[|writes| - 1].name := Written(writes[|writes| - 1])]
  {
    for i := 0 to |writes|
      invariant adapter.requestCookies == Replay(old(adapter.requestCookies), writes[..i])
      invariant adapter.response == if i == 0 then old(adapter.response) else ResponseAfter(writes[..i])
    {
      assert writes[..i + 1][..i] == writes[..i];
      match writes[i]
      case SetCookie(name, value) => adapter.Set(name, value);
      case RemoveCookie(name) => adapter.Remove(name);
    }
    assert writes[..|writes|] == writes;
  }

  // ---------------------------------------------------------------------------
  // The gate
  // ---------------------------------------------------------------------------

  datatype Request = Request(nextUrl: Url, cookies: map<string, string>)

  /** The writes the gate sees: the refresh call's, then the second call's when that call is made. */
  function WritesSeen(path: string, refreshWrites: seq<CookieWrite>, checkWrites: seq<CookieWrite>): seq<CookieWrite> {
    refreshWrites + (if IsPublicPath(path) then [] else checkWrites)
  }

  /**
   * The gate for one request. `refreshWrites` are the cookie writes of the
   * first `getUser` call, `checkWrites` those of the second, and
   * `userPresent` whether the second call returned a user; the second call
   * is only made for a non-public path. Also returned: the request cookies,
   * which a pass-through response passes on to the rest of the request.
   */
  method Middleware(request: Request, refreshWrites: seq<CookieWrite>, checkWrites: seq<CookieWrite>, userPresent: bool)
    returns (response: Response, requestCookies: map<string, string>)
    ensures var path := request.nextUrl.pathname;
      Decide(path, userPresent) == PassThrough ==>
        requestCookies == Replay(request.cookies, WritesSeen(path, refreshWrites, checkWrites))
    ensures var path := request.nextUrl.pathname;
      Decide(path, userPresent).RedirectToLogin? ==> response == Redirect(RedirectUrl(request.nextUrl, path), map[])
    ensures var path := request.nextUrl.pathname; var writes := WritesSeen(path, refreshWrites, checkWrites);
      Decide(path, userPresent) == PassThrough ==> response == if writes == [] then Next(map[]) else ResponseAfter(writes)
    ensures "/" <= request.nextUrl.pathname ==>
      && requestCookies == Replay(request.cookies, refreshWrites)
      && response == if refreshWrites == [] then Next(map[]) else ResponseAfter(refreshWrites)
  {
    var adapter := new CookieAdapter(request.cookies);
    ApplyWrites(adapter, refreshWrites);
    var path := request.nextUrl.pathname;
    var isPublicPath := IsPublicPath(path);
    PublicIffRooted(path);
    if !isPublicPath {
      ApplyWrites(adapter, checkWrites);
      assert Replay(request.cookies, refreshWrites + checkWrites) == adapter.requestCookies by {
        ReplayAppend(request.cookies, refreshWrites, checkWrites);
      }
      if !userPresent {
        return Redirect(RedirectUrl(request.nextUrl, path), map[]), adapter.requestCookies;
      }
      assert checkWrites == [] ==> refreshWrites + checkWrites == refreshWrites;
      assert checkWrites != [] ==> ResponseAfter(refreshWrites + checkWrites) == ResponseAfter(checkWrites) by {
        if checkWrites != [] {
          assert (refreshWrites + checkWrites)[|refreshWrites + checkWrites| - 1] == checkWrites[|checkWrites| - 1];
        }
      }
    } else {
      assert refreshWrites + [] == refreshWrites;
    }
    return adapter.response, adapter.requestCookies;
  }

  lemma {:induction false} ReplayAppend(cookies: map<string, string>, a: seq<CookieWrite>, b: seq<CookieWrite>)
    ensures Replay(cookies, a + b) == Replay(Replay(cookies, a), b)
    decreases |b|
  {
    if b == [] {
      assert a + b == a;
    } else {
      assert (a + b)[..|a + b| - 1] == a + b[..|b| - 1];
      ReplayAppend(cookies, a, b[..|b| - 1]);
    }
  }

  // ---------------------------------------------------------------------------
  // Which requests the gate runs on
  // ---------------------------------------------------------------------------

  /** What the regular expression's `.` does not match. */
  predicate IsLineTerminator(c: char) {
    c == '\n' || c == '\r' || c == '\U{2028}' || c == '\U{2029}'
  }

  predicate NoLineTerminator(s: string) {
    forall k :: 0 <= k < |s| ==> !IsLineTerminator(s[k])
  }

  const ImageExtensions: seq<string> := ["svg", "png", "jpg", "jpeg", "gif", "webp"]

  /** `favicon.ico` at the start, where the unescaped `.` matches any one character. */
  predicate FaviconAt(r: string) {
    |r| >= 11 && r[..7] == "favicon" && !IsLineTerminator(r[7]) && r[8..11] == "ico"
  }

  /**
   * The negative lookahead, applied to the text after the leading `/`. Its
   * last alternative, `.*\.(?:svg|...)$`, holds for a line-terminator-free
   * text exactly when the text ends in a dot and one of the extensions.
   */
  predicate Excluded(r: string) {
    || "_next/static" <= r
    || "_next/image" <= r
    || FaviconAt(r)
    || exists k :: 0 <= k < |ImageExtensions| && EndsWith(r, "." + ImageExtensions[k])
  }

  /**
   * The matcher `/((?!_next/static|_next/image|favicon.ico|.*\.(?:svg|png|jpg|jpeg|gif|webp)$).*)`
   * as a match of the whole path.
   */
  predicate MatcherRunsOn(path: string) {
    "/" <= path && NoLineTerminator(path[1..]) && !Excluded(path[1..])
  }

  /** Build output and image optimisation requests never reach the gate. */
  lemma NextAssetsSkipped(rest: string)
    ensures !MatcherRunsOn("/_next/static" + rest)
    ensures !MatcherRunsOn("/_next/image" + rest)
  {
    assert ("/_next/static" + rest)[1..] == "_next/static" + rest;
    assert ("/_next/image" + rest)[1..] == "_next/image" + rest;
  }

  /** Image files, anywhere in the tree, never reach the gate. */
  lemma ImagesSkipped(stem: string, k: nat)
    requires k < |ImageExtensions|
    ensures !MatcherRunsOn("/" + stem + "." + ImageExtensions[k])
  {
    var r := stem + "." + ImageExtensions[k];
    assert ("/" + stem + "." + ImageExtensions[k])[1..] == r;
    assert r == stem + ("." + ImageExtensions[k]);
    assert EndsWith(r, "." + ImageExtensions[k]);
  }

  /** The `.` in `favicon.ico` is a wildcard: `/faviconXico` is skipped as well. */
  lemma FaviconWildcard(c: char, rest: string)
    requires !IsLineTerminator(c)
    ensures !MatcherRunsOn("/favicon" + [c] + "ico" + rest)
  {
    var r := "favicon" + [c] + "ico" + rest;
    assert ("/favicon" + [c] + "ico" + rest)[1..] == r;
    assert r[..7] == "favicon" && r[7] == c && r[8..11] == "ico";
  }

  /**
   * Every other page runs the gate: a path without a dot, outside `/_next/`
   * and not starting with `/favicon`. The exclusions are anchored after the
   * leading `/`, so a nested `/docs/_next/static` is such a page.
   */
  lemma OrdinaryPagesRun(path: string)
    requires "/" <= path && NoLineTerminator(path[1..]) && '.' !in path
    requires !("/_next/" <= path) && !("/favicon" <= path)
    ensures MatcherRunsOn(path)
  {
    var r := path[1..];
    assert !("_next/" <= r) by {
      if |r| >= 6 {
        assert path[..7] == "/" + r[..6];
      }
    }
    assert !("favicon" <= r) by {
      if |r| >= 7 {
        assert path[..8] == "/" + r[..7];
      }
    }
    forall k | 0 <= k < |ImageExtensions|
      ensures !EndsWith(r, "." + ImageExtensions[k])
    {
      var e := "." + ImageExtensions[k];
      if |e| <= |r| {
        assert r[|r| - |e|] == path[|r| - |e| + 1] != '.';
        assert r[|r| - |e|..][0] != e[0];
      }
    }
  }
}
