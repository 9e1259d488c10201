/** The browsing engine as functions on a snapshot of the session: one request
    (doRequest), a depth-bounded descent (recursiveBrowse) and one turn of the
    driver loop (the body of run). The network and the random number generator
    are injected through an `Env`; sleeps are recorded, not performed. */
module Engine {
  import opened Links

  /** What the network does with one request. */
  datatype Outcome =
    | RequestError                      // the request could not be built from the URL
    | TransportError                    // timeout, DNS failure, refused connection
    | ReadError(partial: string)        // the body could not be read to the end
    | Response(status: int, body: string)

  /** What doRequest hands back: the body, or an error with whatever was read. */
  datatype Fetched = Content(body: string) | Failed(partial: string)

  /** The injected world: `net(url, k)` answers the k-th request of the process,
      `rand(k)` is the k-th raw random number; `rand.Intn(n)` is `rand(k) % n`. */
  datatype Env = Env(net: (string, nat) -> Outcome, rand: nat -> nat)

  /** The configuration keys the engine reads and writes, the traffic counters,
      and a trace of what was requested and how long the process slept. */
  datatype State = State(
    rootUrls: seq<string>,
    blacklist: seq<string>,
    minDepth: int,
    maxDepth: int,
    minWait: int,
    maxWait: int,
    dataMeter: int,
    goodRequests: int,
    badRequests: int,
    requested: seq<string>,   // every URL handed to doRequest, in order
    sleeps: seq<int>,         // every sleep, in seconds, in order
    draws: nat)               // random numbers consumed so far

  const StatusOK: int := 200
  const StatusTooManyRequests: int := 429
  /** Both wait bounds rise by this many seconds on every 429. */
  const RateLimitStep: int := 10
  /** Seconds slept after a transport error. */
  const ErrorPenalty: int := 30
  /** Seconds slept between two root URLs. */
  const RootPause: int := 10

  function Last<T>(s: seq<T>): T
    requires |s| > 0
  {
    s[|s| - 1]
  }

  /** The sleep trace went from `before` to `after` by appending only, and every sleep
      appended is the error penalty or a pause in [lo, hi]. */
  ghost predicate SleepsWithin(before: seq<int>, after: seq<int>, lo: int, hi: int) {
    && before <= after
    && forall k :: |before| <= k < |after| ==> after[k] == ErrorPenalty || lo <= after[k] <= hi
  }

  /** Two stretches of sleeps within bounds make one stretch within the wider bounds. */
  lemma SleepsWithinJoin(a: seq<int>, b: seq<int>, c: seq<int>, lo: int, lo2: int, hi1: int, hi: int)
    requires lo <= lo2 && hi1 <= hi
    requires SleepsWithin(a, b, lo, hi1) && SleepsWithin(b, c, lo2, hi)
    ensures SleepsWithin(a, c, lo, hi)
  {
    forall k | |a| <= k < |c| ensures c[k] == ErrorPenalty || lo <= c[k] <= hi {
      if k < |b| {
        assert c[k] == b[k];
      }
    }
  }

  /** The blacklist went from `before` to `after` by appending nothing, or only the
      last URL of the request trace. */
  ghost predicate AddedAtMostLast(before: seq<string>, after: seq<string>, requested: seq<string>) {
    |requested| > 0 && (after == before || after == before + [Last(requested)])
  }

  /** `rand.Intn(n)` for the draw numbered `k`. */
  function Intn(env: Env, k: nat, n: int): (r: int)
    requires n > 0
    ensures 0 <= r < n
  {
    env.rand(k) % n
  }

  /** doRequest on a snapshot: records the request; a transport error costs the
      30-second penalty; a completely read response is metered and counted as good
      (200) or bad (anything else), and a 429 raises both wait bounds. */
  function Fetch(st: State, url: string, o: Outcome): (r: (State, Fetched))
    ensures r.0.requested == st.requested + [url]
    ensures r.1.Content? <==> o.Response?
    ensures o.Response? ==> r.1 == Content(o.body)
    ensures o.ReadError? ==> r.1 == Failed(o.partial)
    ensures r.0.sleeps == st.sleeps + (if o.TransportError? then [ErrorPenalty] else [])
    ensures r.0.maxWait - r.0.minWait == st.maxWait - st.minWait
    ensures r.0.blacklist == st.blacklist && r.0.rootUrls == st.rootUrls
    ensures r.0.minDepth == st.minDepth && r.0.maxDepth == st.maxDepth && r.0.draws == st.draws
  {
    var st1 := st.(requested := st.requested + [url]);
    match o
    case RequestError => (st1, Failed([]))
    case TransportError => (st1.(sleeps := st1.sleeps + [ErrorPenalty]), Failed([]))
    case ReadError(partial) => (st1, Failed(partial))
    case Response(status, body) =>
      var st2 := st1.(dataMeter := st1.dataMeter + |body|);
      if status != StatusOK then
        var st3 := st2.(badRequests := st2.badRequests + 1);
        if status == StatusTooManyRequests then
          (st3.(minWait := st3.minWait + RateLimitStep, maxWait := st3.maxWait + RateLimitStep), Content(body))
        else (st3, Content(body))
      else (st2.(goodRequests := st2.goodRequests + 1), Content(body))
  }

  /** The inter-hop pause: drawn uniformly from [min_wait, max_wait]. */
  function HopPause(st: State, env: Env): (w: int)
    requires st.minWait <= st.maxWait
    ensures st.minWait <= w <= st.maxWait
  {
    st.minWait + Intn(env, st.draws, st.maxWait - st.minWait + 1)
  }

  /** The next hop: one of the valid links, drawn uniformly. */
  function NextLink(links: seq<string>, env: Env, k: nat): (u: string)
    requires |links| > 0
    ensures u in links
  {
    links[Intn(env, k, |links|)]
  }

  /** The root URL of a driver turn: one of the configured roots, drawn uniformly. */
  function PickRoot(st: State, env: Env): (u: string)
    requires |st.rootUrls| > 0
    ensures u in st.rootUrls
  {
    st.rootUrls[Intn(env, st.draws, |st.rootUrls|)]
  }

  /** The depth of a driver turn: drawn uniformly from [min_depth, max_depth]. */
  function PickDepth(st: State, env: Env, k: nat): (d: int)
    requires st.minDepth <= st.maxDepth
    ensures st.minDepth <= d <= st.maxDepth
  {
    st.minDepth + Intn(env, k, st.maxDepth - st.minDepth + 1)
  }

  /** What one level of recursiveBrowse decides: stop with this state, or descend
      to `next` from this state. */
  datatype Step = Stop(after: State) | Descend(after: State, next: string)

  /** One level of recursiveBrowse. Depth 0 is one terminal request whose failure is
      ignored. Otherwise a failed request, or a page without valid links, appends the
      URL to the blacklist and stops; else the engine pauses for a drawn time and
      picks the next link. */
  ghost function Hop(st: State, url: string, depth: nat, env: Env): (s: Step)
    requires st.minWait <= st.maxWait
    ensures s.after.minWait <= s.after.maxWait
  {
    var (st1, res) := Fetch(st, url, env.net(url, |st.requested|));
    Proceed(st1, res, url, depth, env)
  }

  /** The decision recursiveBrowse takes once the request for `url` has been made and
      the session is in state `st`. */
  ghost function Proceed(st: State, res: Fetched, url: string, depth: nat, env: Env): (s: Step)
    requires st.minWait <= st.maxWait
    ensures s.Descend? ==> depth > 0
    ensures s.after.minWait <= s.after.maxWait
  {
    if depth == 0 then Stop(st)
    else if res.Failed? then Stop(st.(blacklist := st.blacklist + [url]))
    else
      var links := ValidLinks(res.body, st.blacklist);
      if |links| == 0 then Stop(st.(blacklist := st.blacklist + [url]))
      else
        var pause := HopPause(st, env);
        Descend(st.(sleeps := st.sleeps + [pause], draws := st.draws + 2), NextLink(links, env, st.draws + 1))
  }

  /** A single level makes exactly one request, and at depth 0 it always stops. */
  lemma HopRequests(st: State, url: string, depth: nat, env: Env)
    requires st.minWait <= st.maxWait
    ensures var s := Hop(st, url, depth, env);
      && s.after.requested == st.requested + [url]
      && (depth == 0 ==> s.Stop?)
  {
  }

  /** A single level appends at most its own URL to the blacklist, only when it stops,
      and never at depth 0. */
  lemma HopBlacklist(st: State, url: string, depth: nat, env: Env)
    requires st.minWait <= st.maxWait
    ensures var s := Hop(st, url, depth, env);
      && s.after.requested == st.requested + [url]
      && (s.Stop? ==> s.after.blacklist == st.blacklist || s.after.blacklist == st.blacklist + [url])
      && (s.Descend? ==> s.after.blacklist == st.blacklist)
      && (depth == 0 ==> s.Stop? && s.after.blacklist == st.blacklist)
  {
  }

  /** A single level keeps the distance between the wait bounds and raises min_wait
      by 0 or 10. */
  lemma HopWaits(st: State, url: string, depth: nat, env: Env)
    requires st.minWait <= st.maxWait
    ensures var s := Hop(st, url, depth, env);
      && s.after.maxWait - s.after.minWait == st.maxWait - st.minWait
      && (s.after.minWait == st.minWait || s.after.minWait == st.minWait + RateLimitStep)
  {
  }

  /** A single level never decreases a counter, adds at most one to good plus bad, and
      leaves the roots and the depth bounds alone. */
  lemma HopCounters(st: State, url: string, depth: nat, env: Env)
    requires st.minWait <= st.maxWait
    ensures var s := Hop(st, url, depth, env);
      && s.after.requested == st.requested + [url]
      && st.dataMeter <= s.after.dataMeter
      && st.goodRequests <= s.after.goodRequests && st.badRequests <= s.after.badRequests
      && s.after.goodRequests + s.after.badRequests <= st.goodRequests + st.badRequests + 1
      && s.after.rootUrls == st.rootUrls
      && s.after.minDepth == st.minDepth && s.after.maxDepth == st.maxDepth
  {
  }

  /** A single level sleeps at most once: the 30-second penalty or a pause in range. */
  lemma HopSleeps(st: State, url: string, depth: nat, env: Env)
    requires st.minWait <= st.maxWait
    ensures var s := Hop(st, url, depth, env);
      && |s.after.sleeps| <= |st.sleeps| + 1
      && SleepsWithin(st.sleeps, s.after.sleeps, st.minWait, s.after.maxWait)
  {
  }

  /** recursiveBrowse on a snapshot: one level after another until a level stops. */
  ghost function Browse(st: State, url: string, depth: nat, env: Env): (r: State)
    requires st.minWait <= st.maxWait
    ensures r.minWait <= r.maxWait
    decreases depth
  {
    var h := Hop(st, url, depth, env);
    if h.Stop? then h.after else Browse(h.after, h.next, depth - 1, env)
  }

  /** The precondition of a driver turn: rand.Intn panics unless each range is non-empty;
      a negative depth is left out of the model. */
  ghost predicate CanRun(st: State) {
    |st.rootUrls| > 0 && 0 <= st.minDepth <= st.maxDepth && st.minWait <= st.maxWait
  }

  /** One turn of the driver loop: pick a root and a depth, browse, pause 10 seconds. */
  ghost function RunIteration(st: State, env: Env): (r: State)
    requires CanRun(st)
    ensures r.minWait <= r.maxWait
  {
    var root := PickRoot(st, env);
    var depth := PickDepth(st, env, st.draws + 1);
    var st1 := Browse(st.(draws := st.draws + 2), root, depth, env);
    st1.(sleeps := st1.sleeps + [RootPause])
  }

  // ---------------------------------------------------------------------------
  // doRequest

  /** The bookkeeping of one request. A completely read response adds its length to the
      data meter and exactly one to the good counter (status 200) or to the bad counter
      (any other status); any error leaves every counter and the data meter alone. */
  lemma FetchCounters(st: State, url: string, o: Outcome)
    ensures var (r, _) := Fetch(st, url, o);
      && (o.Response? ==>
            r.dataMeter == st.dataMeter + |o.body|
            && (o.status == StatusOK ==>
                  r.goodRequests == st.goodRequests + 1 && r.badRequests == st.badRequests)
            && (o.status != StatusOK ==>
                  r.badRequests == st.badRequests + 1 && r.goodRequests == st.goodRequests))
      && (!o.Response? ==>
            r.dataMeter == st.dataMeter && r.goodRequests == st.goodRequests
            && r.badRequests == st.badRequests)
  {
  }

  /** The backoff ratchet: both wait bounds rise by exactly 10 on a 429 and stay put
      on any other outcome. */
  lemma FetchRatchet(st: State, url: string, o: Outcome)
    ensures var (r, _) := Fetch(st, url, o);
      var limited := o.Response? && o.status == StatusTooManyRequests;
      && (limited ==> r.minWait == st.minWait + RateLimitStep && r.maxWait == st.maxWait + RateLimitStep)
      && (!limited ==> r.minWait == st.minWait && r.maxWait == st.maxWait)
  {
  }

  // ---------------------------------------------------------------------------
  // recursiveBrowse

  /** A branch starts by requesting its own URL and makes between 1 and depth+1 requests;
      at depth 0 it makes exactly one. Requests are only ever appended to the trace. */
  lemma {:induction false} BrowseRequests(st: State, url: string, depth: nat, env: Env)
    requires st.minWait <= st.maxWait
    ensures var r := Browse(st, url, depth, env);
      && |st.requested| < |r.requested| <= |st.requested| + depth + 1
      && st.requested <= r.requested
      && r.requested[|st.requested|] == url
      && (depth == 0 ==> |r.requested| == |st.requested| + 1)
    decreases depth
  {
    HopRequests(st, url, depth, env);
    var h := Hop(st, url, depth, env);
    if h.Descend? {
      var after, next := h.after, h.next;
      BrowseRequests(after, next, depth - 1, env);
    }
  }

  /** The blacklist is only appended to, and a branch appends at most one URL: the one
      its last request asked for. At depth 0 it is never touched, even on error. */
  lemma {:induction false} BrowseBlacklist(st: State, url: string, depth: nat, env: Env)
    requires st.minWait <= st.maxWait
    ensures var r := Browse(st, url, depth, env);
      && AddedAtMostLast(st.blacklist, r.blacklist, r.requested)
      && (depth == 0 ==> r.blacklist == st.blacklist)
    decreases depth
  {
    HopBlacklist(st, url, depth, env);
    var h := Hop(st, url, depth, env);
    if h.Descend? {
      var after, next := h.after, h.next;
      BrowseBlacklist(after, next, depth - 1, env);
    }
  }

  /** A failed request, or a page with no link left after filtering, at depth 1 or more
      blacklists the URL once and ends the branch with that single request. */
  lemma BrowseDeadEnd(st: State, url: string, depth: nat, env: Env)
    requires st.minWait <= st.maxWait && depth >= 1
    requires var (st1, res) := Fetch(st, url, env.net(url, |st.requested|));
      res.Failed? || ValidLinks(res.body, st1.blacklist) == []
    ensures var r := Browse(st, url, depth, env);
      r.blacklist == st.blacklist + [url] && r.requested == st.requested + [url]
  {
  }

  /** Otherwise the branch pauses once and its second request is one of the valid
      links of the page it just fetched. */
  lemma BrowseFollowsValidLink(st: State, url: string, depth: nat, env: Env)
    requires st.minWait <= st.maxWait && depth >= 1
    requires var (st1, res) := Fetch(st, url, env.net(url, |st.requested|));
      res.Content? && ValidLinks(res.body, st1.blacklist) != []
    ensures var r := Browse(st, url, depth, env);
      var (_, res) := Fetch(st, url, env.net(url, |st.requested|));
      |r.requested| > |st.requested| + 1
      && r.requested[|st.requested| + 1] in ValidLinks(res.body, st.blacklist)
  {
    var h := Hop(st, url, depth, env);
    HopDescends(st, url, depth, env);
    BrowseRequests(h.after, h.next, depth - 1, env);
  }

  /** A level whose page has valid links descends to one of them. */
  lemma HopDescends(st: State, url: string, depth: nat, env: Env)
    requires st.minWait <= st.maxWait && depth >= 1
    requires var (st1, res) := Fetch(st, url, env.net(url, |st.requested|));
      res.Content? && ValidLinks(res.body, st1.blacklist) != []
    ensures var h := Hop(st, url, depth, env);
      var (_, res) := Fetch(st, url, env.net(url, |st.requested|));
      && h.Descend? && h.after.requested == st.requested + [url]
      && h.next in ValidLinks(res.body, st.blacklist)
  {
  }

  /** The wait bounds only move together and only upwards, so min_wait <= max_wait
      keeps holding and their distance never changes. */
  lemma {:induction false} BrowseWaits(st: State, url: string, depth: nat, env: Env)
    requires st.minWait <= st.maxWait
    ensures var r := Browse(st, url, depth, env);
      && r.maxWait - r.minWait == st.maxWait - st.minWait
      && st.minWait <= r.minWait
    decreases depth
  {
    HopWaits(st, url, depth, env);
    var h := Hop(st, url, depth, env);
    if h.Descend? {
      var after, next := h.after, h.next;
      BrowseWaits(after, next, depth - 1, env);
    }
  }

  /** Across a branch the wait bounds rise by a whole number of 10-second steps, one
      per 429 answer. */
  lemma {:induction false} BrowseWaitSteps(st: State, url: string, depth: nat, env: Env)
    requires st.minWait <= st.maxWait
    ensures WholeSteps(st.minWait, Browse(st, url, depth, env).minWait)
    decreases depth
  {
    HopWaits(st, url, depth, env);
    var h := Hop(st, url, depth, env);
    if h.Descend? {
      var after, next := h.after, h.next;
      BrowseWaitSteps(after, next, depth - 1, env);
      StepsAdd(st.minWait, after.minWait, Browse(after, next, depth - 1, env).minWait);
    }
  }

  /** `to` lies a whole number of 10-second steps from `from`. */
  ghost predicate WholeSteps(from: int, to: int) {
    (to - from) % RateLimitStep == 0
  }

  /** Adding no step or one step to a whole number of steps gives a whole number of steps. */
  lemma StepsAdd(a: int, b: int, c: int)
    requires b == a || b == a + RateLimitStep
    requires WholeSteps(b, c)
    ensures WholeSteps(a, c)
  {
    if b == a + RateLimitStep {
      assert c - a == (c - b) + RateLimitStep;
    }
  }

  /** The traffic counters never decrease, a request adds at most one to good plus bad,
      and the configuration that is only read stays as it was. */
  lemma {:induction false} BrowseCounters(st: State, url: string, depth: nat, env: Env)
    requires st.minWait <= st.maxWait
    ensures var r := Browse(st, url, depth, env);
      && st.dataMeter <= r.dataMeter
      && st.goodRequests <= r.goodRequests && st.badRequests <= r.badRequests
      && (r.goodRequests + r.badRequests) - (st.goodRequests + st.badRequests)
         <= |r.requested| - |st.requested|
      && r.rootUrls == st.rootUrls && r.minDepth == st.minDepth && r.maxDepth == st.maxDepth
    decreases depth
  {
    HopCounters(st, url, depth, env);
    var h := Hop(st, url, depth, env);
    if h.Descend? {
      var after, next := h.after, h.next;
      BrowseCounters(after, next, depth - 1, env);
    }
  }

  /** Sleeps are only ever appended to the trace, and every sleep of a branch is either
      the 30-second error penalty or an inter-hop pause no shorter than min_wait was at
      the start and no longer than max_wait is at the end. */
  lemma {:induction false} BrowseSleeps(st: State, url: string, depth: nat, env: Env)
    requires st.minWait <= st.maxWait
    ensures var r := Browse(st, url, depth, env);
      SleepsWithin(st.sleeps, r.sleeps, st.minWait, r.maxWait) && st.maxWait <= r.maxWait
    decreases depth
  {
    HopSleeps(st, url, depth, env);
    HopWaits(st, url, depth, env);
    var h := Hop(st, url, depth, env);
    if h.Descend? {
      var after, next := h.after, h.next;
      var r := Browse(after, next, depth - 1, env);
      BrowseSleeps(after, next, depth - 1, env);
      SleepsWithinJoin(st.sleeps, after.sleeps, r.sleeps, st.minWait, after.minWait, after.maxWait, r.maxWait);
    }
  }

  // ---------------------------------------------------------------------------
  // one turn of the driver loop

  /** A driver turn is the branch from the drawn root, followed by the root pause. */
  lemma RunIterationUnfold(st: State, env: Env)
    requires CanRun(st)
    ensures var b := Browse(st.(draws := st.draws + 2), PickRoot(st, env), PickDepth(st, env, st.draws + 1), env);
      RunIteration(st, env) == b.(sleeps := b.sleeps + [RootPause])
  {
  }

  /** A driver turn requests one of the roots first and makes between 1 and
      max_depth+1 requests in all. */
  lemma RunIterationRequests(st: State, env: Env)
    requires CanRun(st)
    ensures var r := RunIteration(st, env);
      && |st.requested| < |r.requested| <= |st.requested| + st.maxDepth + 1
      && r.requested[|st.requested|] in st.rootUrls
  {
    RunIterationUnfold(st, env);
    var st0 := st.(draws := st.draws + 2);
    var root, depth := PickRoot(st, env), PickDepth(st, env, st.draws + 1);
    BrowseRequests(st0, root, depth, env);
  }

  /** A driver turn blacklists at most one URL: the last one it requested. */
  lemma RunIterationBlacklist(st: State, env: Env)
    requires CanRun(st)
    ensures var r := RunIteration(st, env);
      AddedAtMostLast(st.blacklist, r.blacklist, r.requested)
  {
    RunIterationUnfold(st, env);
    var st0 := st.(draws := st.draws + 2);
    var root, depth := PickRoot(st, env), PickDepth(st, env, st.draws + 1);
    BrowseBlacklist(st0, root, depth, env);
  }

  /** A driver turn keeps min_wait <= max_wait, so the next turn can run, and ends
      with the 10-second pause. */
  lemma RunIterationWaits(st: State, env: Env)
    requires CanRun(st)
    ensures var r := RunIteration(st, env);
      && CanRun(r)
      && |r.sleeps| > 0 && Last(r.sleeps) == RootPause
  {
    RunIterationUnfold(st, env);
    var st0 := st.(draws := st.draws + 2);
    var root, depth := PickRoot(st, env), PickDepth(st, env, st.draws + 1);
    BrowseWaits(st0, root, depth, env);
    BrowseCounters(st0, root, depth, env);
  }
}
