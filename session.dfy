/** The running process: the package-level counters and the live configuration
    keys become the fields of one `Session` object, and doRequest,
    recursiveBrowse and one turn of run become methods that update them in place.
    Each method is proved to do exactly what the corresponding function of
    `Engine` does to a snapshot of the fields. */
module Browser {
  import opened Links
  import opened Engine

  class Session {
    // configuration keys
    var rootUrls: seq<string>
    var blacklist: seq<string>
    var minDepth: int
    var maxDepth: int
    var minWait: int
    var maxWait: int
    // traffic counters
    var dataMeter: int
    var goodRequests: int
    var badRequests: int
    // what the process did, in order, and how much randomness it used
    var requested: seq<string>
    var sleeps: seq<int>
    var draws: nat

    /** The fields as one value. */
    function Snapshot(): State
      reads this
    {
      State(rootUrls, blacklist, minDepth, maxDepth, minWait, maxWait,
            dataMeter, goodRequests, badRequests, requested, sleeps, draws)
    }

    /** The wait bounds form a non-empty range, so a pause can be drawn from them. */
    predicate Valid()
      reads this
    {
      minWait <= maxWait
    }

    /** A session with the loaded configuration and fresh counters. */
    constructor (roots: seq<string>, blacklisted: seq<string>,
                 depthLow: int, depthHigh: int, waitLow: int, waitHigh: int)
      ensures Snapshot() == State(roots, blacklisted, depthLow, depthHigh, waitLow, waitHigh,
                                  0, 0, 0, [], [], 0)
      ensures Valid() <==> waitLow <= waitHigh
    {
      rootUrls, blacklist := roots, blacklisted;
      minDepth, maxDepth := depthLow, depthHigh;
      minWait, maxWait := waitLow, waitHigh;
      dataMeter, goodRequests, badRequests := 0, 0, 0;
      requested, sleeps, draws := [], [], 0;
    }

    /** doRequest, with the network's answer given as `outcome`. */
    method DoRequest(url: string, outcome: Outcome) returns (r: Fetched)
      modifies this
      ensures Snapshot() == Fetch(old(Snapshot()), url, outcome).0
      ensures r == Fetch(old(Snapshot()), url, outcome).1
    {
      requested := requested + [url];
      match outcome
      case RequestError =>
        r := Failed([]);
      case TransportError =>
        sleeps := sleeps + [ErrorPenalty];
        r := Failed([]);
      case ReadError(partial) =>
        r := Failed(partial);
      case Response(status, body) =>
        dataMeter := dataMeter + |body|;
        if status != StatusOK {
          badRequests := badRequests + 1;
          if status == StatusTooManyRequests {
            minWait := minWait + RateLimitStep;
            maxWait := maxWait + RateLimitStep;
          }
        } else {
          goodRequests := goodRequests + 1;
        }
        r := Content(body);
    }

    /** rand.Intn(n): the next random number of the environment, reduced to [0, n). */
    method Draw(env: Env, n: int) returns (k: int)
      requires n > 0
      modifies this`draws
      ensures k == Intn(env, old(draws), n) && draws == old(draws) + 1
    {
      k := env.rand(draws) % n;
      draws := draws + 1;
    }

    /** Appends `url` to the blacklist key of the live configuration. */
    method AddToBlacklist(url: string)
      modifies this`blacklist
      ensures blacklist == old(blacklist) + [url]
    {
      blacklist := blacklist + [url];
    }

    /** The inter-hop pause: a duration drawn from [min_wait, max_wait], recorded
        instead of slept. */
    method PauseBetweenHops(env: Env)
      requires Valid()
      modifies this`sleeps, this`draws
      ensures sleeps == old(sleeps) + [HopPause(old(Snapshot()), env)]
      ensures draws == old(draws) + 1
    {
      var sleepTime := Draw(env, maxWait - minWait + 1);
      sleepTime := sleepTime + minWait;
      sleeps := sleeps + [sleepTime];
    }

    /** recursiveBrowse, with the network and the random numbers taken from `env`. */
    method RecursiveBrowse(url: string, depth: nat, env: Env)
      requires Valid()
      modifies this
      ensures Valid()
      ensures Snapshot() == Browse(old(Snapshot()), url, depth, env)
      decreases depth, 2
    {
      ghost var st := Snapshot();
      var content := DoRequest(url, env.net(url, |requested|));
      assert Hop(st, url, depth, env) == Proceed(Snapshot(), content, url, depth, env);
      FollowUp(url, content, depth, env);
    }

    /** The rest of recursiveBrowse once `url` has been requested: stop at depth 0,
        blacklist and stop on an error, otherwise look at the links of the page. */
    method FollowUp(url: string, content: Fetched, depth: nat, env: Env)
      requires Valid()
      modifies this
      ensures Valid()
      ensures Snapshot() == match Proceed(old(Snapshot()), content, url, depth, env)
        case Stop(after) => after
        case Descend(after, next) => Browse(after, next, depth - 1, env)
      decreases depth, 1
    {
      if depth == 0 {
        return;
      }
      if content.Failed? {
        AddToBlacklist(url);
        return;
      }
      FollowLinks(url, content.body, depth, env);
    }

    /** The part of recursiveBrowse that reads a fetched page: blacklist and stop if no
        valid link is left, otherwise pause, pick a link and descend one level. */
    method FollowLinks(url: string, body: string, depth: nat, env: Env)
      requires Valid() && depth > 0
      modifies this
      ensures Valid()
      ensures Snapshot() == match Proceed(old(Snapshot()), Content(body), url, depth, env)
        case Stop(after) => after
        case Descend(after, next) => Browse(after, next, depth - 1, env)
      decreases depth, 0
    {
      ghost var st := Snapshot();
      var validLinks := GetLinks(body, blacklist);
      if |validLinks| == 0 {
        AddToBlacklist(url);
        return;
      }
      PauseBetweenHops(env);
      var k := Draw(env, |validLinks|);
      assert Proceed(st, Content(body), url, depth, env) == Descend(Snapshot(), validLinks[k]);
      RecursiveBrowse(validLinks[k], depth - 1, env);
    }

    /** One turn of the driver loop: a random root, a random depth in
        [min_depth, max_depth], the descent, then the 10-second pause. */
    method RunOnce(env: Env)
      requires CanRun(Snapshot())
      modifies this
      ensures Valid()
      ensures Snapshot() == RunIteration(old(Snapshot()), env)
    {
      ghost var st := Snapshot();
      var i := Draw(env, |rootUrls|);
      var randomUrl := rootUrls[i];
      var d := Draw(env, maxDepth - minDepth + 1);
      var depth := d + minDepth;
      assert Snapshot() == st.(draws := st.draws + 2);
      assert randomUrl == PickRoot(st, env);
      assert depth == PickDepth(st, env, st.draws + 1);
      RecursiveBrowse(randomUrl, depth, env);
      sleeps := sleeps + [RootPause];
    }
  }
}
