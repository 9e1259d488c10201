/** The blacklist filter of the traffic generator: a link is excluded as soon as
    any blacklist entry occurs in it as a substring (Go's `strings.Contains`),
    not only when it names the same host. */
module Blacklist {

  /** `sub` occurs in `s` starting at offset `i`. */
  ghost predicate OccursAt(s: string, sub: string, i: int) {
    0 <= i <= |s| - |sub| && s[i..i + |sub|] == sub
  }

  /** `strings.Contains(s, sub)`: `sub` occurs somewhere in `s`.
      The empty string occurs in every string. */
  function Contains(s: string, sub: string): (r: bool)
    ensures r <==> exists i :: OccursAt(s, sub, i)
    decreases |s|
  {
    if |sub| > |s| then false
    else if s[..|sub|] == sub then
      assert OccursAt(s, sub, 0);
      true
    else
      assert forall i :: OccursAt(s, sub, i) && i > 0 ==> OccursAt(s[1..], sub, i - 1);
      assert forall i :: OccursAt(s[1..], sub, i) ==> OccursAt(s, sub, i + 1);
      Contains(s[1..], sub)
  }

  /** The link is excluded: some entry of the blacklist is a substring of it. */
  ghost predicate Blacklisted(link: string, blacklist: seq<string>) {
    exists j :: 0 <= j < |blacklist| && Contains(link, blacklist[j])
  }

  /** isBlacklisted: an early-return loop over the entries of the blacklist. */
  method IsBlacklisted(link: string, blacklist: seq<string>) returns (b: bool)
    ensures b <==> Blacklisted(link, blacklist)
  {
    for i := 0 to |blacklist|
      invariant forall j :: 0 <= j < i ==> !Contains(link, blacklist[j])
    {
      if Contains(link, blacklist[i]) {
        return true;
      }
    }
    return false;
  }

  /** The links that survive the blacklist, in their original order, duplicates kept. */
  ghost function Filter(links: seq<string>, blacklist: seq<string>): (r: seq<string>)
    ensures |r| <= |links|
  {
    if links == [] then []
    else
      var keep := if Blacklisted(links[0], blacklist) then [] else [links[0]];
      keep + Filter(links[1..], blacklist)
  }

  /** A link survives the filter exactly when it was found and is not blacklisted. */
  lemma {:induction false} FilterMembers(links: seq<string>, blacklist: seq<string>)
    ensures forall l :: l in Filter(links, blacklist) <==> l in links && !Blacklisted(l, blacklist)
    decreases |links|
  {
    if links != [] {
      FilterMembers(links[1..], blacklist);
      assert forall l :: l in links <==> l == links[0] || l in links[1..];
    }
  }

  /** Filtering works link by link: it commutes with concatenation, so the
      surviving links keep the order in which they were found. */
  lemma {:induction false} FilterAppend(xs: seq<string>, ys: seq<string>, blacklist: seq<string>)
    ensures Filter(xs + ys, blacklist) == Filter(xs, blacklist) + Filter(ys, blacklist)
    decreases |xs|
  {
    if xs != [] {
      assert (xs + ys)[1..] == xs[1..] + ys;
      FilterAppend(xs[1..], ys, blacklist);
    } else {
      assert xs + ys == ys;
    }
  }

  /** Filtering drops only blacklisted links: with nothing blacklisted every link survives. */
  lemma {:induction false} FilterKeepsClean(links: seq<string>, blacklist: seq<string>)
    requires forall l :: l in links ==> !Blacklisted(l, blacklist)
    ensures Filter(links, blacklist) == links
    decreases |links|
  {
    if links != [] {
      assert links[0] in links;
      assert forall l :: l in links[1..] ==> l in links;
      FilterKeepsClean(links[1..], blacklist);
    }
  }

  /** An empty entry is a substring of every link, so it blacklists everything. */
  lemma EmptyEntryBlacklistsAll(link: string, blacklist: seq<string>)
    requires "" in blacklist
    ensures Blacklisted(link, blacklist)
  {
    var j :| 0 <= j < |blacklist| && blacklist[j] == "";
    assert OccursAt(link, blacklist[j], 0);
  }

  /** A URL that has been appended to the blacklist is itself blacklisted from then on,
      however the blacklist grows afterwards. */
  lemma ListedStaysBlacklisted(url: string, blacklist: seq<string>, later: seq<string>)
    requires url in blacklist
    ensures Blacklisted(url, blacklist + later)
  {
    var j :| 0 <= j < |blacklist| && blacklist[j] == url;
    assert (blacklist + later)[j] == url;
    assert OccursAt(url, url, 0);
  }

  /** Growing the blacklist never lets a link through that it excluded before. */
  lemma BlacklistMonotone(link: string, blacklist: seq<string>, later: seq<string>)
    requires Blacklisted(link, blacklist)
    ensures Blacklisted(link, blacklist + later)
  {
    var j :| 0 <= j < |blacklist| && Contains(link, blacklist[j]);
    assert (blacklist + later)[j] == blacklist[j];
  }
}
