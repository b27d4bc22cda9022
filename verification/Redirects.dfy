/** followRedirects of httpprobe.go: a bounded walk that stops at the first request seen
    twice. The server, the URL parser and the resolver of references are functions. */
module Redirects {
  import opened Text
  import opened RequestKeys

  const MAX_HOPS := 10
  const MAX_LOCATION := 4096

  datatype Response = Response(status: int, location: string, error: string)

  /** What the follower asks of the outside. `hosts` maps the names it may connect to. */
  datatype Web = Web(
    parse: string -> Option<Url>,
    show: Url -> string,
    resolve: (Url, string) -> Option<Url>,
    bare: string -> string,
    hosts: map<string, int>,
    fetch: (Url, int) -> Response,
    validUTF8: string -> string)

  datatype Ended = Running | Final | External | Looped | HopLimit | Failed

  datatype Hop = Hop(url: string, status: int, location: string)

  predicate IsRedirect(status: int) {
    status == 301 || status == 302 || status == 303 || status == 307 || status == 308
  }

  /** What a URL is known by among those visited: its request, or itself when it has none. */
  function VisitKey(w: Web, current: string): string {
    match w.parse(current)
    case None => current
    case Some(u) => match Key(u, true, w.bare) case None => current case Some(k) => k
  }

  /** clipLocation: a Location as it is recorded. */
  function Clip(w: Web, location: string): string {
    if |location| <= MAX_LOCATION then location
    else w.validUTF8(location[..MAX_LOCATION]) + "... (clipped, " + Itoa(|location|) + " bytes)"
  }

  // -------------------------------------------------- where a URL leads, alone

  /** Where a visit to one URL leads, whatever was visited before. */
  datatype Lead = Onward(next: string) | Stop(ended: Ended)

  /** Whether the follower connects for a URL, and to what. */
  datatype Entry = Connect(u: Url, ip: int) | Refuse(ended: Ended)

  function Entrance(w: Web, current: string): Entry {
    match w.parse(current)
    case None => Refuse(Failed)
    case Some(u) =>
      if !IsHttp(u.scheme) then Refuse(Failed)
      else if w.bare(u.host) in w.hosts then Connect(u, w.hosts[w.bare(u.host)])
      else Refuse(External)
  }

  function After(w: Web, u: Url, res: Response): Lead {
    if !IsRedirect(res.status) || res.location == "" then Stop(Final)
    else if |res.location| > MAX_LOCATION then Stop(Failed)
    else
      match w.resolve(u, res.location)
      case None => Stop(Failed)
      case Some(v) => Onward(w.show(v))
  }

  function Visit(w: Web, current: string): Lead {
    match Entrance(w, current)
    case Refuse(ended) => Stop(ended)
    case Connect(u, ip) =>
      var res := w.fetch(u, ip);
      if res.error != "" then Stop(Failed) else After(w, u, res)
  }

  /** What a visit records: nothing when no response came. */
  function HopOf(w: Web, current: string): Option<Hop> {
    match Entrance(w, current)
    case Refuse(_) => None
    case Connect(u, ip) =>
      var res := w.fetch(u, ip);
      if res.error != "" then None else Some(Hop(current, res.status, Clip(w, res.location)))
  }

  function Recordable(w: Web, current: string): seq<Hop> {
    match HopOf(w, current) case None => [] case Some(h) => [h]
  }

  /** The `k`-th URL of the chain that would be followed without a limit or a memory. */
  function Orbit(w: Web, start: string, k: nat): Option<string> {
    if k == 0 then Some(start)
    else
      match Orbit(w, start, k - 1)
      case None => None
      case Some(c) => match Visit(w, c) case Stop(_) => None case Onward(next) => Some(next)
  }

  /** The `k`-th URL makes a request that an earlier one made. */
  ghost predicate RepeatsAt(w: Web, start: string, k: nat) {
    Orbit(w, start, k).Some? && exists j :: 0 <= j < k && SameVisit(w, start, j, k)
  }

  ghost predicate SameVisit(w: Web, start: string, j: nat, k: nat) {
    && Orbit(w, start, j).Some? && Orbit(w, start, k).Some?
    && VisitKey(w, Orbit(w, start, j).value) == VisitKey(w, Orbit(w, start, k).value)
  }

  lemma {:induction false} OrbitPrefix(w: Web, start: string, j: nat, k: nat)
    requires j <= k && Orbit(w, start, k).Some?
    ensures Orbit(w, start, j).Some?
  {
    if j < k {
      OrbitPrefix(w, start, j, k - 1);
    }
  }

  lemma OrbitNext(w: Web, start: string, k: nat, current: string, next: string)
    requires Orbit(w, start, k) == Some(current) && Visit(w, current) == Onward(next)
    ensures Orbit(w, start, k + 1) == Some(next)
  {
  }

  lemma OrbitEnds(w: Web, start: string, m: nat, k: nat)
    requires Orbit(w, start, m).Some? && Visit(w, Orbit(w, start, m).value).Stop? && m < k
    ensures Orbit(w, start, k).None?
  {
    if Orbit(w, start, k).Some? {
      OrbitPrefix(w, start, m + 1, k);
    }
  }

  // --------------------------------------------------------------- the follower

  class RedirectChain {
    var hops: seq<Hop>
    var ended: Ended
    var finalURL: string
    var external: string
    var loop: bool
    var error: string

    constructor ()
      ensures hops == [] && ended == Running && Blank()
    {
      hops, ended, finalURL, external, loop, error := [], Running, "", "", false, "";
    }

    /** No ending has been recorded. */
    predicate Blank()
      reads this
    {
      finalURL == "" && external == "" && !loop && error == ""
    }

    /** The fields agree with why the chain ended, at the URL `last`. */
    predicate Consistent(last: string)
      reads this
    {
      && ended != Running
      && (loop <==> ended == Looped)
      && (error != "" <==> ended == Failed || ended == HopLimit)
      && finalURL == (if ended == Final then last else "")
      && external == (if ended == External then last else "")
    }

    /** admit: whether the chain goes on to `current`, and where it connects if so. */
    method Admit(w: Web, current: string, seen: set<string>) returns (u: Option<Url>, ip: int, seen': set<string>)
      requires Blank()
      modifies this
      ensures hops == old(hops)
      ensures VisitKey(w, current) in seen ==> u.None? && ended == Looped && Consistent(current)
      ensures VisitKey(w, current) !in seen ==>
        seen' == seen + {VisitKey(w, current)} &&
        match Entrance(w, current)
        case Connect(v, a) => u == Some(v) && ip == a && Blank() && ended == old(ended)
        case Refuse(e) => u.None? && ended == e && Consistent(current)
    {
      u, ip, seen' := None, 0, seen;
      var parsed := w.parse(current);
      var key := current;
      if parsed.Some? {
        var k, ok := RequestKey(parsed.value, true, w.bare);
        if ok {
          key := k;
        }
      }
      if key in seen {
        loop, ended := true, Looped;
        return;
      }
      seen' := seen + {key};
      if parsed.None? {
        error, ended := "bad URL " + current, Failed;
        return;
      }
      if parsed.value.scheme != "http" && parsed.value.scheme != "https" {
        error, ended := "redirect to a non-HTTP URL " + current, Failed;
        return;
      }
      if w.bare(parsed.value.host) !in w.hosts {
        external, ended := current, External;
        return;
      }
      u, ip := parsed, w.hosts[w.bare(parsed.value.host)];
    }

    /** next: follows the response's Location, or ends the chain and records why. */
    method Advance(w: Web, u: Url, res: Response) returns (target: Option<string>)
      requires Blank() && hops != []
      modifies this
      ensures hops == old(hops)
      ensures match After(w, u, res)
        case Onward(n) => target == Some(n) && Blank() && ended == old(ended)
        case Stop(e) => target.None? && ended == e && Consistent(hops[|hops| - 1].url)
    {
      if !IsRedirect(res.status) || res.location == "" {
        finalURL, ended := hops[|hops| - 1].url, Final;
        return None;
      }
      if |res.location| > MAX_LOCATION {
        error, ended := "Location header is " + Itoa(|res.location|) + " bytes, over the "
          + Itoa(MAX_LOCATION) + "-byte limit", Failed;
        return None;
      }
      var n := w.resolve(u, res.location);
      if n.None? {
        error, ended := "bad Location " + res.location, Failed;
        return None;
      }
      return Some(w.show(n.value));
    }

    /** One turn of the follower's loop: admit the URL, fetch it, record the hop, go on. */
    method Turn(w: Web, current: string, seen: set<string>) returns (target: Option<string>, seen': set<string>)
      requires Blank() && ended == Running
      modifies this
      ensures VisitKey(w, current) in seen ==>
        target.None? && ended == Looped && Consistent(current) && hops == old(hops)
      ensures VisitKey(w, current) !in seen ==>
        seen' == seen + {VisitKey(w, current)} &&
        hops == old(hops) + Recordable(w, current) &&
        match Visit(w, current)
        case Onward(n) => target == Some(n) && Blank() && ended == Running && HopOf(w, current).Some?
        case Stop(e) => target.None? && ended == e && Consistent(current)
    {
      target := None;
      var u, ip;
      u, ip, seen' := Admit(w, current, seen);
      if u.None? {
        return;
      }
      var res := w.fetch(u.value, ip);
      if res.error != "" {
        error, ended := current + ": " + res.error, Failed;
        return;
      }
      hops := hops + [Hop(current, res.status, Clip(w, res.location))];
      target := Advance(w, u.value, res);
    }
  }

  /** `hops` are what was recorded at the first URLs of the orbit, one hop each. */
  predicate Recorded(w: Web, start: string, hops: seq<Hop>) {
    forall i :: 0 <= i < |hops| ==> Orbit(w, start, i) == Some(hops[i].url) && HopOf(w, hops[i].url) == Some(hops[i])
  }

  ghost predicate VisitedAs(w: Web, start: string, j: nat, key: string) {
    Orbit(w, start, j).Some? && VisitKey(w, Orbit(w, start, j).value) == key
  }

  /** The chain ended at the `m`-th URL, for the reason its fields give: a loop at the first
      URL that repeats a request, the hop limit behind eleven hops, or what that URL alone
      leads to. No URL before it repeats a request, and all are recorded. */
  ghost predicate EndedAt(w: Web, start: string, chain: RedirectChain, m: nat)
    reads chain
  {
    && Orbit(w, start, m).Some?
    && chain.Consistent(Orbit(w, start, m).value)
    && Recorded(w, start, chain.hops)
    && Distinct(w, start, m)
    && if chain.ended == Looped then |chain.hops| == m && RepeatsAt(w, start, m)
       else if chain.ended == HopLimit then |chain.hops| == m == 11
       else
         && !RepeatsAt(w, start, m)
         && Visit(w, Orbit(w, start, m).value) == Stop(chain.ended)
         && |chain.hops| == m + |Recordable(w, Orbit(w, start, m).value)|
  }

  /** No URL before the `n`-th repeats a request. */
  ghost predicate Distinct(w: Web, start: string, n: nat) {
    forall k :: 1 <= k < n ==> !RepeatsAt(w, start, k)
  }

  /** `seen` holds the keys of the URLs before the `n`-th. */
  ghost predicate SeenBefore(w: Web, start: string, n: nat, seen: set<string>) {
    forall key :: key in seen <==> exists j :: 0 <= j < n && VisitedAs(w, start, j, key)
  }

  /** The ending is the right one: a loop exactly when some URL up to the eleventh repeats a
      request, the hop limit exactly when eleven different requests all lead onward. */
  ghost predicate RightEnding(w: Web, start: string, ended: Ended) {
    && (ended == Looped <==> !Distinct(w, start, 11))
    && (ended == HopLimit <==> Orbit(w, start, 11).Some? && Distinct(w, start, 11))
  }

  /** A chain that stops by itself at the `m`-th URL repeats nothing and goes no further. */
  lemma StopsRight(w: Web, start: string, m: nat, ended: Ended)
    requires m <= MAX_HOPS && Orbit(w, start, m).Some? && Visit(w, Orbit(w, start, m).value).Stop?
    requires Distinct(w, start, m + 1) && ended != Looped && ended != HopLimit
    ensures RightEnding(w, start, ended)
  {
    forall k | k > m ensures Orbit(w, start, k).None? {
      OrbitEnds(w, start, m, k);
    }
  }

  lemma LoopsRight(w: Web, start: string, m: nat)
    requires 1 <= m <= MAX_HOPS && RepeatsAt(w, start, m)
    ensures RightEnding(w, start, Looped)
  {
  }

  lemma StopsItself(w: Web, current: string, ended: Ended)
    requires Visit(w, current) == Stop(ended)
    ensures ended != Looped && ended != HopLimit
  {
  }

  lemma DistinctSnoc(w: Web, start: string, n: nat)
    requires Distinct(w, start, n) && !RepeatsAt(w, start, n)
    ensures Distinct(w, start, n + 1)
  {
  }

  /** Whether the `k`-th URL repeats is what the set of earlier keys says. */
  lemma SeenMeansRepeat(w: Web, start: string, k: nat, seen: set<string>)
    requires Orbit(w, start, k).Some? && SeenBefore(w, start, k, seen)
    ensures VisitKey(w, Orbit(w, start, k).value) in seen <==> RepeatsAt(w, start, k)
  {
    var key := VisitKey(w, Orbit(w, start, k).value);
    if key in seen {
      var j :| 0 <= j < k && VisitedAs(w, start, j, key);
      assert SameVisit(w, start, j, k);
    }
    if RepeatsAt(w, start, k) {
      var j :| 0 <= j < k && SameVisit(w, start, j, k);
      assert VisitedAs(w, start, j, key);
    }
  }

  lemma SeenGrows(w: Web, start: string, k: nat, seen: set<string>, current: string)
    requires Orbit(w, start, k) == Some(current) && SeenBefore(w, start, k, seen)
    ensures SeenBefore(w, start, k + 1, seen + {VisitKey(w, current)})
  {
    var own := VisitKey(w, current);
    assert VisitedAs(w, start, k, own);
    forall key ensures key in seen + {own} <==> exists j :: 0 <= j < k + 1 && VisitedAs(w, start, j, key) {
      if j :| 0 <= j < k + 1 && VisitedAs(w, start, j, key) {
        assert j < k ==> key in seen;
      }
    }
  }

  // ------------------------------------------------ what a chain of hops says

  predicate IsWeb(u: Url) {
    u.scheme == "http" || u.scheme == "https"
  }

  /** The response to the request for a URL, when there is one: the URL parses, its scheme is
      http or https, its host is known, and the fetch from that host's address did not fail. */
  function ResponseTo(w: Web, url: string): Option<Response> {
    match w.parse(url)
    case None => None
    case Some(u) =>
      if !IsWeb(u) || w.bare(u.host) !in w.hosts then None
      else
        var res := w.fetch(u, w.hosts[w.bare(u.host)]);
        if res.error == "" then Some(res) else None
  }

  predicate Redirecting(res: Response) {
    res.status in {301, 302, 303, 307, 308} && res.location != ""
  }

  /** The URL behind a URL: its response's Location, of at most 4096 octets, resolved against it. */
  function Behind(w: Web, url: string): Option<string> {
    match ResponseTo(w, url)
    case None => None
    case Some(res) =>
      if !Redirecting(res) || |res.location| > 4096 then None
      else
        match w.resolve(w.parse(url).value, res.location)
        case None => None
        case Some(v) => Some(w.show(v))
  }

  /** A hop carries the URL, the status of its response, and its Location, clipped when long. */
  predicate HopCarries(w: Web, hop: Hop) {
    match ResponseTo(w, hop.url)
    case None => false
    case Some(res) =>
      && hop.status == res.status
      && hop.location == (if |res.location| <= 4096 then res.location
         else w.validUTF8(res.location[..4096]) + "... (clipped, " + Itoa(|res.location|) + " bytes)")
  }

  /** Each hop leads to the next, the first being the start. */
  predicate Linked(w: Web, start: string, hops: seq<Hop>) {
    && (hops != [] ==> hops[0].url == start)
    && (forall i :: 0 <= i < |hops| ==> HopCarries(w, hops[i]))
    && (forall i :: 0 < i < |hops| ==> Behind(w, hops[i - 1].url) == Some(hops[i].url))
  }

  /** The URL the hops lead to. */
  function Reached(w: Web, start: string, hops: seq<Hop>): Option<string> {
    if hops == [] then Some(start) else Behind(w, hops[|hops| - 1].url)
  }

  /** Why a URL cannot be requested: it does not parse, its scheme is another, or the fetch failed. */
  predicate Unrequestable(w: Web, url: string) {
    match w.parse(url)
    case None => true
    case Some(u) =>
      !IsWeb(u) || (w.bare(u.host) in w.hosts && w.fetch(u, w.hosts[w.bare(u.host)]).error != "")
  }

  predicate Foreign(w: Web, url: string) {
    match w.parse(url)
    case None => false
    case Some(u) => IsWeb(u) && w.bare(u.host) !in w.hosts
  }

  /** The response to the last hop redirects, but nowhere that can be followed. */
  predicate DeadEnd(w: Web, url: string) {
    match ResponseTo(w, url)
    case None => false
    case Some(res) =>
      Redirecting(res) && (|res.location| > 4096 || w.resolve(w.parse(url).value, res.location).None?)
  }

  predicate Terminal(w: Web, url: string) {
    ResponseTo(w, url).Some? && !Redirecting(ResponseTo(w, url).value)
  }

  /** What each ending says of the hops and of the URL they lead to. */
  predicate EndMeans(w: Web, start: string, hops: seq<Hop>, ended: Ended, finalURL: string, external: string) {
    var reached := Reached(w, start, hops);
    match ended
    case Running => false
    case Final => hops != [] && finalURL == hops[|hops| - 1].url && Terminal(w, finalURL)
    case External => reached == Some(external) && Foreign(w, external)
    case Looped => reached.Some? && VisitKey(w, reached.value) in set i | 0 <= i < |hops| :: VisitKey(w, hops[i].url)
    case HopLimit => |hops| == 11 && reached.Some?
    case Failed =>
      || (reached.Some? && Unrequestable(w, reached.value))
      || (hops != [] && DeadEnd(w, hops[|hops| - 1].url))
  }

  lemma VisitMeans(w: Web, url: string)
    ensures Behind(w, url) == (match Visit(w, url) case Onward(n) => Some(n) case Stop(_) => None)
    ensures HopOf(w, url).Some? <==> ResponseTo(w, url).Some?
    ensures HopOf(w, url).Some? ==> HopOf(w, url).value.url == url && HopCarries(w, HopOf(w, url).value)
    ensures Visit(w, url) == Stop(Final) ==> Terminal(w, url)
    ensures Visit(w, url) == Stop(External) ==> Foreign(w, url)
    ensures Visit(w, url) == Stop(Failed) ==> Unrequestable(w, url) || DeadEnd(w, url)
    ensures Unrequestable(w, url) || Foreign(w, url) <==> ResponseTo(w, url).None?
  {
  }

  lemma {:induction false} RecordedIsLinked(w: Web, start: string, hops: seq<Hop>)
    requires Recorded(w, start, hops)
    ensures Linked(w, start, hops)
  {
    forall i | 0 <= i < |hops| ensures HopCarries(w, hops[i]) {
      VisitMeans(w, hops[i].url);
    }
    forall i | 0 < i < |hops| ensures Behind(w, hops[i - 1].url) == Some(hops[i].url) {
      VisitMeans(w, hops[i - 1].url);
      assert Orbit(w, start, i - 1) == Some(hops[i - 1].url);
    }
    if hops != [] {
      assert Orbit(w, start, 0) == Some(hops[0].url);
    }
  }

  lemma ReachedIsOrbit(w: Web, start: string, hops: seq<Hop>)
    requires Recorded(w, start, hops)
    ensures Reached(w, start, hops) == Orbit(w, start, |hops|)
  {
    if hops != [] {
      var last := hops[|hops| - 1].url;
      assert Orbit(w, start, |hops| - 1) == Some(last);
      VisitMeans(w, last);
    }
  }

  lemma ChainMeans(w: Web, start: string, chain: RedirectChain, m: nat)
    requires EndedAt(w, start, chain, m)
    ensures Linked(w, start, chain.hops)
    ensures EndMeans(w, start, chain.hops, chain.ended, chain.finalURL, chain.external)
  {
    var url := Orbit(w, start, m).value;
    VisitMeans(w, url);
    RecordedIsLinked(w, start, chain.hops);
    ReachedIsOrbit(w, start, chain.hops);
    if chain.ended == Looped {
      var j :| 0 <= j < m && SameVisit(w, start, j, m);
      assert Orbit(w, start, j) == Some(chain.hops[j].url);
    } else if chain.ended != HopLimit && HopOf(w, url).Some? {
      assert Orbit(w, start, m) == Some(chain.hops[m].url);
    }
  }

  /** Two URLs are one visit when they make the same request; URLs without a request are one
      visit when they are the same text. */
  lemma OneVisit(w: Web, a: string, b: string, u: Url, v: Url)
    requires w.parse(a) == Some(u) && w.parse(b) == Some(v) && Parsed(u) && Parsed(v) && PlainNames(w.bare)
    ensures IsWeb(u) && IsWeb(v) && w.bare(u.host) != "" && w.bare(v.host) != "" ==>
      (VisitKey(w, a) == VisitKey(w, b) <==> SameRequest(u, v, true, w.bare))
    ensures (!IsWeb(u) || w.bare(u.host) == "") && (!IsWeb(v) || w.bare(v.host) == "") ==>
      (VisitKey(w, a) == VisitKey(w, b) <==> a == b)
  {
    if Key(u, true, w.bare).Some? && Key(v, true, w.bare).Some? {
      KeyUnambiguous(u, v, true, w.bare);
    }
  }

  /** followRedirects is a first-repeat search over the URLs the server leads to. */
  method FollowRedirects(w: Web, start: string) returns (chain: RedirectChain)
    ensures fresh(chain)
    ensures RightEnding(w, start, chain.ended)
    ensures exists m: nat :: m <= 11 && EndedAt(w, start, chain, m)
    ensures Linked(w, start, chain.hops) && EndMeans(w, start, chain.hops, chain.ended, chain.finalURL, chain.external)
  {
    chain := new RedirectChain();
    var current := start;
    var seen: set<string> := {};
    for hop := 0 to MAX_HOPS + 1
      invariant fresh(chain) && chain.Blank() && chain.ended == Running
      invariant Orbit(w, start, hop) == Some(current)
      invariant SeenBefore(w, start, hop, seen) && Distinct(w, start, hop)
      invariant Recorded(w, start, chain.hops) && |chain.hops| == hop
    {
      SeenMeansRepeat(w, start, hop, seen);
      SeenGrows(w, start, hop, seen, current);
      ghost var hops := chain.hops;
      var target;
      target, seen := chain.Turn(w, current, seen);
      RecordedSnoc(w, start, hops, current);
      if target.None? {
        assert EndedAt(w, start, chain, hop);
        ChainMeans(w, start, chain, hop);
        if chain.ended == Looped && RepeatsAt(w, start, hop) {
          LoopsRight(w, start, hop);
        } else {
          StopsItself(w, current, chain.ended);
          DistinctSnoc(w, start, hop);
          StopsRight(w, start, hop, chain.ended);
        }
        return;
      }
      DistinctSnoc(w, start, hop);
      OrbitNext(w, start, hop, current, target.value);
      current := target.value;
    }
    chain.error, chain.ended := "more than " + Itoa(MAX_HOPS) + " redirects", HopLimit;
    assert EndedAt(w, start, chain, MAX_HOPS + 1);
    ChainMeans(w, start, chain, MAX_HOPS + 1);
  }

  lemma RecordedSnoc(w: Web, start: string, hops: seq<Hop>, current: string)
    requires Recorded(w, start, hops) && Orbit(w, start, |hops|) == Some(current)
    ensures Recorded(w, start, hops + Recordable(w, current))
  {
  }
}
