/** The join of two event streams that finds the bearer token: the URL of a request and its
    Authorization header arrive separately, in any order, under one request id. */
module BearerCapture {
  import opened Wrappers
  import opened Text

  const API_URL_SUBSTRING := "/api/v2/processos"

  const AUTHORIZATION := "Authorization"

  /** A header value: text, or something else that is skipped. */
  datatype HeaderValue = Str(s: string) | Other

  /** What the two callbacks observe. `auth` is "" when the headers hold no usable
      Authorization value. */
  datatype Event =
    | RequestSeen(id: string, url: string)
    | HeadersSeen(id: string, auth: string)

  type Trace = seq<Event>

  // What a trace says, without any buffers.

  /** The URL last reported for a request. */
  function LatestUrl(t: Trace, id: string): Option<string> {
    if t == [] then None
    else
      var e := t[|t| - 1];
      if e.RequestSeen? && e.id == id then Some(e.url) else LatestUrl(t[..|t| - 1], id)
  }

  /** The usable Authorization value last reported for a request. */
  function LatestAuth(t: Trace, id: string): Option<string> {
    if t == [] then None
    else
      var e := t[|t| - 1];
      if e.HeadersSeen? && e.id == id && e.auth != "" then Some(e.auth) else LatestAuth(t[..|t| - 1], id)
  }

  /** The token a request gives at the end of a trace, or "". */
  function TokenOf(t: Trace, id: string): string {
    var url := LatestUrl(t, id);
    var auth := LatestAuth(t, id);
    if url.Some? && auth.Some? && Contains(url.value, API_URL_SUBSTRING) then TrimSpace(auth.value) else ""
  }

  /** The token captured by the end of a trace, or "". */
  function Captured(t: Trace): string {
    if t == [] then ""
    else
      var before := Captured(t[..|t| - 1]);
      if before != "" then before else TokenOf(t, t[|t| - 1].id)
  }

  /** What one more event changes. */
  lemma OneMoreEvent(t: Trace, e: Event)
    ensures (t + [e])[..|t + [e]| - 1] == t
    ensures forall id ::
              LatestUrl(t + [e], id) == if e.RequestSeen? && e.id == id then Some(e.url) else LatestUrl(t, id)
    ensures forall id ::
              LatestAuth(t + [e], id) == if IsAuth(e) && e.id == id then Some(e.auth) else LatestAuth(t, id)
  {
    assert (t + [e])[..|t + [e]| - 1] == t;
  }

  /** A header value is recorded only when it is not blank. */
  ghost predicate Recordable(t: Trace) {
    forall i | 0 <= i < |t| :: t[i].HeadersSeen? && t[i].auth != "" ==> TrimSpace(t[i].auth) != ""
  }

  // The capture itself.

  /** The text "Authorization", each letter in either case. */
  predicate SpellsAuthorization(k: string) {
    var name := "Authorization";
    |k| == 13 && forall i | 0 <= i < 13 :: k[i] == name[i] || OtherCase(k[i], name[i])
  }

  /** The usable values: text that is not all white space, under that name. */
  ghost predicate IsAuthValue(headers: map<string, HeaderValue>, v: string) {
    !AllSpace(v) && exists k | k in headers :: SpellsAuthorization(k) && headers[k] == Str(v)
  }

  lemma FoldingSpells(k: string)
    ensures EqualFoldAscii(k, AUTHORIZATION) <==> SpellsAuthorization(k)
  {
    assert AUTHORIZATION == "Authorization" && |AUTHORIZATION| == 13;
    if |k| == 13 {
      forall i | 0 <= i < 13
        ensures AsciiUpper(k[i]) == AsciiUpper(AUTHORIZATION[i])
           <==> k[i] == AUTHORIZATION[i] || OtherCase(k[i], AUTHORIZATION[i]) {
        SameUpper(k[i], AUTHORIZATION[i]);
      }
    }
    hide AsciiUpper, OtherCase;
  }

  lemma UsableText(v: string)
    ensures TrimSpace(v) != "" <==> !AllSpace(v)
    ensures !AllSpace(v) ==> v != ""
  {
    var i, j := TrimSpaceMargins(v);
  }

  /** authHeaderValue. Go visits the keys in no fixed order, so any usable value may come out. */
  method AuthHeaderValue(headers: map<string, HeaderValue>) returns (r: string)
    ensures r != "" ==> IsAuthValue(headers, r)
    ensures r == "" ==> forall v :: !IsAuthValue(headers, v)
  {
    hide SpellsAuthorization, EqualFoldAscii, AllSpace, TrimSpace;
    var keys := headers.Keys;
    while keys != {}
      invariant keys <= headers.Keys
      invariant forall k | k in headers && k !in keys ::
                  !(SpellsAuthorization(k) && headers[k].Str? && !AllSpace(headers[k].s))
      decreases |keys|
    {
      var k :| k in keys;
      keys := keys - {k};
      FoldingSpells(k);
      if headers[k].Str? {
        UsableText(headers[k].s);
      }
      if EqualFoldAscii(k, AUTHORIZATION) && headers[k].Str? && TrimSpace(headers[k].s) != "" {
        return headers[k].s;
      }
    }
    return "";
  }

  class Capture {
    var urls: map<string, string>
    var headers: map<string, string>
    var token: string
    ghost var seen: Trace

    /** The buffers hold the latest values, and the token is the one the trace defines. */
    ghost predicate Valid()
      reads this
    {
      Buffered() && Recordable(seen) && token == Captured(seen)
    }

    ghost predicate Buffered()
      reads this
    {
      && (forall id :: LatestUrl(seen, id) == if id in urls then Some(urls[id]) else None)
      && (forall id :: LatestAuth(seen, id) == if id in headers then Some(headers[id]) else None)
    }

    constructor ()
      ensures Valid() && seen == []
    {
      urls, headers, token, seen := map[], map[], "", [];
    }

    /** onRequest */
    method OnRequest(requestId: string, url: string)
      requires Valid()
      modifies this
      ensures Valid() && seen == old(seen) + [RequestSeen(requestId, url)]
    {
      hide LatestUrl, LatestAuth, Captured, TrimSpace;
      var e := RequestSeen(requestId, url);
      OneMoreEvent(seen, e);
      urls := urls[requestId := url];
      seen := seen + [e];
      TryMatchLocked(requestId);
    }

    /** onExtraInfo */
    method OnExtraInfo(requestId: string, extra: map<string, HeaderValue>)
      requires Valid()
      modifies this
      ensures Valid()
      ensures exists auth ::
                && seen == old(seen) + [HeadersSeen(requestId, auth)]
                && (if auth == "" then forall v :: !IsAuthValue(extra, v) else IsAuthValue(extra, auth))
    {
      hide LatestUrl, LatestAuth, Captured, TrimSpace, AllSpace;
      var auth := AuthHeaderValue(extra);
      UsableText(auth);
      OneMoreEvent(seen, HeadersSeen(requestId, auth));
      if auth != "" {
        headers := headers[requestId := auth];
      }
      seen := seen + [HeadersSeen(requestId, auth)];
      TryMatchLocked(requestId);
    }

    /** tryMatchLocked, run right after an event of the given request was buffered */
    method TryMatchLocked(requestId: string)
      requires Buffered() && Recordable(seen)
      requires seen != [] && seen[|seen| - 1].id == requestId && token == Captured(seen[..|seen| - 1])
      modifies this`token
      ensures Valid()
    {
      if token != "" {
        return;
      }
      if requestId !in urls || requestId !in headers {
        return;
      }
      if !Contains(urls[requestId], API_URL_SUBSTRING) {
        return;
      }
      if TrimSpace(headers[requestId]) == "" {
        return;
      }
      token := TrimSpace(headers[requestId]);
    }

    /** bearer */
    method Bearer() returns (r: Option<string>)
      requires Valid()
      ensures r == if Captured(seen) == "" then None else Some(Captured(seen))
    {
      if token == "" {
        return None;
      }
      return Some(token);
    }
  }

  // Theorems about the captured token.

  /** The token that the request of event `i` has at that event. */
  function TokenAt(t: Trace, i: nat): string
    requires i < |t|
  {
    TokenOf(t[..i + 1], t[i].id)
  }

  lemma TokenAtPrefix(t: Trace, n: nat)
    requires n <= |t|
    ensures forall i | 0 <= i < n :: TokenAt(t[..n], i) == TokenAt(t, i)
  {
    hide TokenOf;
    forall i | 0 <= i < n ensures TokenAt(t[..n], i) == TokenAt(t, i) {
      assert t[..n][..i + 1] == t[..i + 1];
    }
  }

  /** Captured is the token of the earliest event at which its request has one. */
  lemma {:induction false} CapturedIsEarliest(t: Trace)
    ensures Captured(t) == "" <==> forall i | 0 <= i < |t| :: TokenAt(t, i) == ""
    ensures Captured(t) != "" ==>
              exists i | 0 <= i < |t| :: TokenAt(t, i) == Captured(t) && forall j | 0 <= j < i :: TokenAt(t, j) == ""
  {
    if t != [] {
      var n := |t| - 1;
      assert TokenAt(t, n) == TokenOf(t, t[n].id) by { assert t[..n + 1] == t; }
      TokenAtPrefix(t, n);
      CapturedIsEarliest(t[..n]);
      hide TokenOf, TokenAt;
    }
  }

  /** Event `i` is the last one that reports a URL of the request. */
  ghost predicate LastUrlAt(t: Trace, id: string, i: int) {
    && 0 <= i < |t| && t[i].RequestSeen? && t[i].id == id
    && forall j | i < j < |t| :: !(t[j].RequestSeen? && t[j].id == id)
  }

  /** Event `i` is the last one that reports a usable header of the request. */
  ghost predicate LastAuthAt(t: Trace, id: string, i: int) {
    && 0 <= i < |t| && t[i].HeadersSeen? && t[i].id == id && t[i].auth != ""
    && forall j | i < j < |t| :: !(t[j].HeadersSeen? && t[j].id == id && t[j].auth != "")
  }

  lemma {:induction false} LatestUrlIsLast(t: Trace, id: string)
    ensures LatestUrl(t, id).Some? <==> exists i :: LastUrlAt(t, id, i)
    ensures forall i :: LastUrlAt(t, id, i) ==> LatestUrl(t, id) == Some(t[i].url)
  {
    if t != [] {
      var n := |t| - 1;
      LatestUrlIsLast(t[..n], id);
      if t[n].RequestSeen? && t[n].id == id {
        assert LastUrlAt(t, id, n);
      } else {
        assert forall i :: LastUrlAt(t[..n], id, i) <==> LastUrlAt(t, id, i);
      }
    }
  }

  lemma {:induction false} LatestAuthIsLast(t: Trace, id: string)
    ensures LatestAuth(t, id).Some? <==> exists i :: LastAuthAt(t, id, i)
    ensures forall i :: LastAuthAt(t, id, i) ==> LatestAuth(t, id) == Some(t[i].auth)
  {
    if t != [] {
      var n := |t| - 1;
      LatestAuthIsLast(t[..n], id);
      if t[n].HeadersSeen? && t[n].id == id && t[n].auth != "" {
        assert LastAuthAt(t, id, n);
      } else {
        assert forall i :: LastAuthAt(t[..n], id, i) <==> LastAuthAt(t, id, i);
      }
    }
  }

  /** The token of a request is its last usable header, trimmed, if its last URL contains the API
      path; without such a URL or such a header there is none. */
  lemma TokenMeans(t: Trace, id: string, token: string)
    requires token != ""
    ensures TokenOf(t, id) == token <==>
              exists i, j ::
                && LastUrlAt(t, id, i) && LastAuthAt(t, id, j) && token == TrimSpace(t[j].auth)
                && exists a, b :: t[i].url == a + "/api/v2/processos" + b
  {
    hide LastUrlAt, LastAuthAt, Contains, TrimSpace, LatestUrl, LatestAuth;
    LatestUrlIsLast(t, id);
    LatestAuthIsLast(t, id);
    if LatestUrl(t, id).Some? {
      ContainsMeans(LatestUrl(t, id).value, API_URL_SUBSTRING);
    }
  }

  /** Once set the token never changes. */
  lemma {:induction false} CapturedIsStable(a: Trace, b: Trace)
    requires Captured(a) != ""
    ensures Captured(a + b) == Captured(a)
  {
    if b == [] {
      assert a + b == a;
    } else {
      CapturedIsStable(a, b[..|b| - 1]);
      assert (a + b)[..|a + b| - 1] == a + b[..|b| - 1];
    }
  }

  /** The latest value after a concatenation. */
  lemma {:induction false} LatestOfConcat(a: Trace, b: Trace, id: string)
    ensures LatestUrl(a + b, id) == if LatestUrl(b, id).Some? then LatestUrl(b, id) else LatestUrl(a, id)
    ensures LatestAuth(a + b, id) == if LatestAuth(b, id).Some? then LatestAuth(b, id) else LatestAuth(a, id)
  {
    if b == [] {
      assert a + b == a;
    } else {
      LatestOfConcat(a, b[..|b| - 1], id);
      assert (a + b)[..|a + b| - 1] == a + b[..|b| - 1];
    }
  }

  lemma TokenOfDuplicate(a: Trace, e: Event, b: Trace, id: string)
    ensures TokenOf(a + [e, e] + b, id) == TokenOf(a + [e] + b, id)
  {
    LatestOfConcat(a + [e, e], b, id);
    LatestOfConcat(a + [e], b, id);
    LatestOfConcat(a, [e, e], id);
    LatestOfConcat(a, [e], id);
    assert [e, e][..1] == [e] && [e][..0] == [];
  }

  /** An event delivered twice in a row changes nothing. */
  lemma {:induction false} DuplicateChangesNothing(a: Trace, e: Event, b: Trace)
    ensures Captured(a + [e, e] + b) == Captured(a + [e] + b)
  {
    hide TokenOf, Contains, TrimSpace;
    var t, u := a + [e, e] + b, a + [e] + b;
    TokenOfDuplicate(a, e, b, if b == [] then e.id else b[|b| - 1].id);
    if b == [] {
      assert t[..|t| - 1] == u && t[|t| - 1] == u[|u| - 1] == e;
    } else {
      var c := b[..|b| - 1];
      DuplicateChangesNothing(a, e, c);
      assert t[..|t| - 1] == a + [e, e] + c && u[..|u| - 1] == a + [e] + c;
    }
  }

  // Order independence.

  predicate IsMarked(e: Event) {
    e.RequestSeen? && Contains(e.url, API_URL_SUBSTRING)
  }

  lemma MarkedMeans(e: Event)
    ensures IsMarked(e) <==> e.RequestSeen? && exists a, b :: e.url == a + "/api/v2/processos" + b
    ensures IsUnmarked(e) <==> e.RequestSeen? && !IsMarked(e)
  {
    if e.RequestSeen? {
      ContainsMeans(e.url, API_URL_SUBSTRING);
    }
  }

  predicate IsUnmarked(e: Event) {
    e.RequestSeen? && !Contains(e.url, API_URL_SUBSTRING)
  }

  predicate IsAuth(e: Event) {
    e.HeadersSeen? && e.auth != ""
  }

  ghost predicate Has(t: Trace, p: Event -> bool, id: string) {
    exists e :: e in t && p(e) && e.id == id
  }

  /** The request could give a token in some order of the events. */
  ghost predicate CanMatch(t: Trace, id: string) {
    Has(t, IsMarked, id) && Has(t, IsAuth, id)
  }

  /** It gives one in every order, as it never had another URL. */
  ghost predicate MustMatch(t: Trace, id: string) {
    CanMatch(t, id) && !Has(t, IsUnmarked, id)
  }

  ghost predicate Permuted(t: Trace, u: Trace) {
    multiset(t) == multiset(u)
  }

  ghost predicate OrderIndependent(t: Trace) {
    forall u :: Permuted(t, u) ==> (Captured(u) != "" <==> Captured(t) != "")
  }

  lemma PermutedHas(t: Trace, u: Trace, p: Event -> bool, id: string)
    requires Permuted(t, u)
    ensures Has(t, p, id) == Has(u, p, id)
    ensures Recordable(t) ==> Recordable(u)
  {
    assert forall e :: e in t <==> e in multiset(t);
    assert forall e :: e in u <==> e in multiset(u);
    if Recordable(t) {
      forall i | 0 <= i < |u| && u[i].HeadersSeen? && u[i].auth != "" ensures TrimSpace(u[i].auth) != "" {
        assert u[i] in t;
      }
    }
  }

  /** The latest values come from events of the trace. */
  lemma {:induction false} LatestComesFrom(t: Trace, id: string)
    ensures LatestUrl(t, id).Some? ==> RequestSeen(id, LatestUrl(t, id).value) in t
    ensures LatestAuth(t, id).Some? ==>
              LatestAuth(t, id).value != "" && HeadersSeen(id, LatestAuth(t, id).value) in t
    ensures LatestUrl(t, id).None? ==> !Has(t, IsMarked, id) && !Has(t, IsUnmarked, id)
    ensures LatestAuth(t, id).None? ==> !Has(t, IsAuth, id)
  {
    if t != [] {
      LatestComesFrom(t[..|t| - 1], id);
      assert t == t[..|t| - 1] + [t[|t| - 1]];
    }
  }

  /** A captured token is the trimmed header of a request that can match. */
  lemma CapturedComesFrom(t: Trace) returns (id: string, auth: string)
    requires Captured(t) != ""
    ensures CanMatch(t, id) && auth != "" && HeadersSeen(id, auth) in t && Captured(t) == TrimSpace(auth)
  {
    CapturedIsEarliest(t);
    var i :| 0 <= i < |t| && TokenAt(t, i) == Captured(t);
    var p := t[..i + 1];
    id, auth := t[i].id, LatestAuth(p, t[i].id).value;
    LatestComesFrom(p, id);
    assert IsMarked(RequestSeen(id, LatestUrl(p, id).value)) && IsAuth(HeadersSeen(id, auth));
    assert forall e :: e in p ==> e in t;
  }

  /** A captured token is a header of the trace without its blank margins: it has a character
      that is not blank at either end. */
  lemma CapturedIsTrimmed(t: Trace)
    requires Captured(t) != ""
    ensures !IsSpace(Captured(t)[0]) && !IsSpace(Captured(t)[|Captured(t)| - 1])
    ensures exists id, auth, i, j ::
              && HeadersSeen(id, auth) in t && 0 <= i < j <= |auth| && Captured(t) == auth[i..j]
              && AllSpace(auth[..i]) && AllSpace(auth[j..])
  {
    var id, auth := CapturedComesFrom(t);
    var i, j := TrimSpaceMargins(auth);
  }

  /** A request that must match is captured in whatever order its events come. */
  lemma {:induction false} MustMatchIsCaptured(t: Trace, id: string)
    requires Recordable(t) && MustMatch(t, id)
    ensures Captured(t) != ""
  {
    var p := t[..|t| - 1];
    var e := t[|t| - 1];
    assert t == p + [e];
    if CanMatch(p, id) {
      assert Has(p, IsUnmarked, id) ==> Has(t, IsUnmarked, id);
      MustMatchIsCaptured(p, id);
    } else {
      assert e.id == id;
      LatestComesFrom(t, id);
      var url, auth := LatestUrl(t, id).value, LatestAuth(t, id).value;
      assert !IsUnmarked(RequestSeen(id, url));
      assert IsMarked(RequestSeen(id, url));
      var i :| 0 <= i < |t| && t[i] == HeadersSeen(id, auth);
    }
  }

  function Select(t: Trace, p: Event -> bool): (s: Trace)
    ensures forall e :: e in s <==> e in t && p(e)
  {
    if t == [] then [] else (if p(t[0]) then [t[0]] else []) + Select(t[1..], p)
  }

  /** The order that hides most: first the URLs that match, then those that do not, then
      the headers. */
  function Hiding(t: Trace): Trace {
    Select(t, IsMarked) + (Select(t, IsUnmarked) + Select(t, IsHeaders))
  }

  predicate IsHeaders(e: Event) {
    e.HeadersSeen?
  }

  lemma {:induction false} SelectCounts(t: Trace, p: Event -> bool, e: Event)
    ensures multiset(Select(t, p))[e] == if p(e) then multiset(t)[e] else 0
  {
    if t != [] {
      SelectCounts(t[1..], p, e);
      assert t == [t[0]] + t[1..];
    }
  }

  lemma HidingPermutes(t: Trace)
    ensures Permuted(t, Hiding(t))
  {
    var m, u, h := Select(t, IsMarked), Select(t, IsUnmarked), Select(t, IsHeaders);
    forall e ensures multiset(t)[e] == multiset(m)[e] + multiset(u)[e] + multiset(h)[e] {
      SelectCounts(t, IsMarked, e);
      SelectCounts(t, IsUnmarked, e);
      SelectCounts(t, IsHeaders, e);
    }
    assert multiset(Hiding(t)) == multiset(m) + multiset(u + h) && multiset(u + h) == multiset(u) + multiset(h);
  }

  /** At no point of that order has a request a token. */
  lemma NothingToShow(m: Trace, u: Trace, g: Trace, id: string)
    requires forall e :: e in m ==> IsMarked(e)
    requires forall e :: e in u ==> IsUnmarked(e)
    requires forall e :: e in g ==> IsHeaders(e)
    requires Has(m, IsMarked, id) && Has(g, IsAuth, id) ==> Has(u, IsUnmarked, id)
    ensures TokenOf(m + (u + g), id) == ""
  {
    LatestOfConcat(m, u + g, id);
    LatestOfConcat(u, g, id);
    LatestComesFrom(m, id);
    LatestComesFrom(u, id);
    LatestComesFrom(g, id);
    if LatestUrl(u, id).Some? {
      assert IsUnmarked(RequestSeen(id, LatestUrl(u, id).value));
    } else if LatestUrl(m, id).Some? && LatestAuth(g, id).Some? {
      assert IsMarked(RequestSeen(id, LatestUrl(m, id).value));
      assert IsAuth(HeadersSeen(id, LatestAuth(g, id).value));
      assert false;
    }
  }

  /** When no request must match, that order captures nothing. */
  lemma HidingCapturesNothing(t: Trace)
    requires forall id :: !MustMatch(t, id)
    ensures Captured(Hiding(t)) == ""
  {
    var m, u, h := Select(t, IsMarked), Select(t, IsUnmarked), Select(t, IsHeaders);
    var s := m + (u + h);
    forall i | 0 <= i < |s| ensures TokenAt(s, i) == "" {
      HidingPrefix(t, m, u, h, s[i].id, i + 1);
    }
    CapturedIsEarliest(s);
  }

  /** A request that shows a marked URL and some of its headers also has another URL. */
  lemma AnotherUrl(t: Trace, headers: Trace, id: string)
    requires !MustMatch(t, id) && forall e :: e in headers ==> e in t
    ensures Has(Select(t, IsMarked), IsMarked, id) && Has(headers, IsAuth, id) ==>
              Has(Select(t, IsUnmarked), IsUnmarked, id)
  {}

  lemma HidingPrefix(t: Trace, m: Trace, u: Trace, h: Trace, id: string, n: nat)
    requires m == Select(t, IsMarked) && u == Select(t, IsUnmarked) && h == Select(t, IsHeaders)
    requires !MustMatch(t, id) && n <= |m + (u + h)|
    ensures TokenOf((m + (u + h))[..n], id) == ""
  {
    hide TokenOf, Select, MustMatch;
    var s := m + (u + h);
    if n <= |m| {
      assert s[..n] == m[..n] + ([] + []);
      NothingToShow(m[..n], [], [], id);
    } else if n <= |m| + |u| {
      var k := n - |m|;
      assert s[..n] == m + (u[..k] + []);
      NothingToShow(m, u[..k], [], id);
    } else {
      var k := n - |m| - |u|;
      assert s[..n] == m + (u + h[..k]);
      AnotherUrl(t, h[..k], id);
      hide Has;
      NothingToShow(m, u, h[..k], id);
    }
  }

  lemma BringToFront(t: Trace, x: Event) returns (rest: Trace)
    requires x in t
    ensures Permuted(t, [x] + rest)
  {
    var i :| 0 <= i < |t| && t[i] == x;
    rest := t[..i] + t[i + 1..];
    assert t == t[..i] + ([x] + t[i + 1..]);
  }

  /** Any usable header of a request that can match is the token in some order: that which puts
      it and a marked URL of the request first. */
  lemma ShowingOrder(t: Trace, id: string, auth: string) returns (u: Trace)
    requires Recordable(t) && Has(t, IsMarked, id) && auth != "" && HeadersSeen(id, auth) in t
    ensures Permuted(t, u) && Captured(u) == TrimSpace(auth) != ""
  {
    var x :| x in t && IsMarked(x) && x.id == id;
    var y := HeadersSeen(id, auth);
    var r := BringToFront(t, x);
    assert y in multiset(t);
    assert y in multiset([x] + r);
    assert y in r;
    var rest := BringToFront(r, y);
    u := [x, y] + rest;
    assert u == [x] + ([y] + rest);
    PairShows(x, y);
    var i :| 0 <= i < |t| && t[i] == y;
    CapturedIsStable([x, y], rest);
  }

  lemma PairShows(x: Event, y: Event)
    requires IsMarked(x) && IsAuth(y) && x.id == y.id
    ensures Captured([x, y]) == TrimSpace(y.auth)
  {
    assert [x, y][..1] == [x] && [x][..0] == [];
    assert LatestUrl([x], x.id) == Some(x.url) && LatestAuth([x], x.id) == None;
    assert Captured([x]) == "";
  }

  /** Whether a token is captured does not depend on the order of the events if and only if
      no request can match, or some request must. */
  lemma OrderIndependence(t: Trace)
    requires Recordable(t)
    ensures OrderIndependent(t) <==> (forall id :: !CanMatch(t, id)) || (exists id :: MustMatch(t, id))
  {
    if id :| MustMatch(t, id) {
      forall u | Permuted(t, u) ensures Captured(u) != "" {
        PermutedMatches(t, u, id);
        MustMatchIsCaptured(u, id);
      }
      assert Permuted(t, t);
    } else if id :| CanMatch(t, id) {
      HidingPermutes(t);
      HidingCapturesNothing(t);
      var y :| y in t && IsAuth(y) && y.id == id;
      var u := ShowingOrder(t, id, y.auth);
      assert Permuted(t, u) && Permuted(t, Hiding(t));
    } else {
      forall u | Permuted(t, u) ensures Captured(u) == "" {
        if Captured(u) != "" {
          var id, auth := CapturedComesFrom(u);
          PermutedMatches(t, u, id);
        }
      }
      assert Permuted(t, t);
    }
  }

  lemma PermutedMatches(t: Trace, u: Trace, id: string)
    requires Permuted(t, u)
    ensures CanMatch(t, id) == CanMatch(u, id) && MustMatch(t, id) == MustMatch(u, id)
    ensures Recordable(t) ==> Recordable(u)
  {
    PermutedHas(t, u, IsMarked, id);
    PermutedHas(t, u, IsUnmarked, id);
    PermutedHas(t, u, IsAuth, id);
  }

  /** The token itself does not depend on the order of the events. */
  ghost predicate TokenIndependent(t: Trace) {
    forall u :: Permuted(t, u) ==> Captured(u) == Captured(t)
  }

  /** The trimmed usable headers of the requests that can match. */
  ghost predicate CanBeToken(t: Trace, token: string) {
    exists id, auth :: Has(t, IsMarked, id) && auth != "" && HeadersSeen(id, auth) in t && token == TrimSpace(auth)
  }

  lemma TokenCanBe(t: Trace, u: Trace)
    requires Permuted(t, u) && Captured(u) != ""
    ensures CanBeToken(t, Captured(u))
  {
    var id, auth := CapturedComesFrom(u);
    PermutedMatches(t, u, id);
    assert HeadersSeen(id, auth) in multiset(u);
    assert HeadersSeen(id, auth) in t;
  }

  /** The token is the same in every order if and only if whether there is one is, and the
      requests that can match have no two headers that trim to different tokens. */
  lemma TokenIndependence(t: Trace)
    requires Recordable(t)
    ensures TokenIndependent(t) <==>
              && ((forall id :: !CanMatch(t, id)) || (exists id :: MustMatch(t, id)))
              && (forall a, b :: CanBeToken(t, a) && CanBeToken(t, b) ==> a == b)
  {
    OrderIndependence(t);
    hide Captured, CanMatch, MustMatch, Recordable;
    if TokenIndependent(t) {
      forall a | CanBeToken(t, a) ensures a == Captured(t) {
        var id, auth :| Has(t, IsMarked, id) && auth != "" && HeadersSeen(id, auth) in t && a == TrimSpace(auth);
        var u := ShowingOrder(t, id, auth);
      }
    }
    if OrderIndependent(t) && forall a, b :: CanBeToken(t, a) && CanBeToken(t, b) ==> a == b {
      forall u | Permuted(t, u) ensures Captured(u) == Captured(t) {
        if Captured(u) != "" {
          TokenCanBe(t, u);
          TokenCanBe(t, t);
        }
      }
    }
  }

  /** At most one URL and at most one usable header per request. */
  ghost predicate OnePerRequest(t: Trace) {
    && (forall i, j | 0 <= i < j < |t| :: t[i].RequestSeen? && t[j].RequestSeen? ==> t[i].id != t[j].id)
    && (forall i, j | 0 <= i < j < |t| :: IsAuth(t[i]) && IsAuth(t[j]) ==> t[i].id != t[j].id)
  }

  lemma OneUrl(t: Trace, id: string)
    requires OnePerRequest(t) && CanMatch(t, id)
    ensures MustMatch(t, id)
  {}

  lemma OneHeader(t: Trace, id: string, a: string, b: string)
    requires OnePerRequest(t) && a != "" && b != "" && HeadersSeen(id, a) in t && HeadersSeen(id, b) in t
    ensures a == b
  {
    assert IsAuth(HeadersSeen(id, a)) && IsAuth(HeadersSeen(id, b));
  }

  lemma TokenOwner(t: Trace, token: string) returns (id: string, auth: string)
    requires CanBeToken(t, token)
    ensures CanMatch(t, id) && auth != "" && HeadersSeen(id, auth) in t && token == TrimSpace(auth)
  {
    id, auth :| Has(t, IsMarked, id) && auth != "" && HeadersSeen(id, auth) in t && token == TrimSpace(auth);
    assert IsAuth(HeadersSeen(id, auth));
  }

  /** With one URL and one header per request the order decides nothing about whether a token
      is captured; and when only one request can match, nothing about which. */
  lemma OnePerRequestIsOrderIndependent(t: Trace, u: Trace)
    requires Recordable(t) && OnePerRequest(t) && Permuted(t, u)
    ensures Captured(t) != "" <==> Captured(u) != ""
    ensures (forall id, id' :: CanMatch(t, id) && CanMatch(t, id') ==> id == id') ==> Captured(t) == Captured(u)
  {
    hide OnePerRequest, CanMatch, MustMatch, CanBeToken, Recordable, Captured, TrimSpace;
    forall id | CanMatch(t, id) ensures MustMatch(t, id) {
      OneUrl(t, id);
    }
    OrderIndependence(t);
    if forall id, id' :: CanMatch(t, id) && CanMatch(t, id') ==> id == id' {
      forall a, b | CanBeToken(t, a) && CanBeToken(t, b) ensures a == b {
        var id, auth := TokenOwner(t, a);
        var id', auth' := TokenOwner(t, b);
        OneHeader(t, id, auth, auth');
      }
      TokenIndependence(t);
    }
  }

  /** With two URLs under one id the order does decide: the later one counts. */
  lemma TwoUrlsDependOnOrder(bearer: string)
    requires TrimSpace(bearer) != ""
    ensures var hit, miss, auth := RequestSeen("1", API_URL_SUBSTRING), RequestSeen("1", ""), HeadersSeen("1", bearer);
            && Captured([miss, hit, auth]) == TrimSpace(bearer)
            && Captured([hit, miss, auth]) == ""
  {
    var hit, miss, auth := RequestSeen("1", API_URL_SUBSTRING), RequestSeen("1", ""), HeadersSeen("1", bearer);
    assert bearer != "";
    assert Contains(hit.url, API_URL_SUBSTRING) && !Contains(miss.url, API_URL_SUBSTRING);
    TwoUrls(miss, hit, auth);
    TwoUrls(hit, miss, auth);
  }

  lemma TwoUrls(x: Event, y: Event, z: Event)
    requires x.RequestSeen? && y.RequestSeen? && IsAuth(z) && x.id == y.id == z.id
    ensures Captured([x, y, z]) == if IsMarked(y) then TrimSpace(z.auth) else ""
  {
    assert [x, y, z][..2] == [x, y] && [x, y][..1] == [x] && [x][..0] == [];
    assert LatestAuth([x], x.id) == None && LatestAuth([x, y], x.id) == None;
    assert Captured([x]) == "" && Captured([x, y]) == "";
    assert LatestUrl([x, y, z], x.id) == LatestUrl([x, y], x.id) == Some(y.url);
  }
}
