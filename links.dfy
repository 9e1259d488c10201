/** Link extraction: the pattern `href="(https?://[^"]+)"`, searched leftmost
    and without overlap, as an explicit scanner over the page text. */
module Links {
  import opened Blacklist

  /** Whether a match of the pattern starts at some position: no, or yes and its
      closing quote is at index `quote`. */
  datatype Match = NoMatch | ClosesAt(quote: nat)

  const Href: string := "href=\""
  const Http: string := "http://"
  const Https: string := "https://"

  /** The text every match begins with: the attribute and the common part of both schemes. */
  const HrefHttp: string := "href=\"http"

  /** Length of the scheme (`http://` or `https://`) that `s` starts with, or 0 if none. */
  function SchemeLength(s: string): nat {
    if |s| >= |Http| && s[..|Http|] == Http then |Http|
    else if |s| >= |Https| && s[..|Https|] == Https then |Https|
    else 0
  }

  /** The first index at or after `k` that holds a double quote, or `|s|` if there is none. */
  function QuoteIndex(s: string, k: nat): (q: nat)
    requires k <= |s|
    ensures k <= q <= |s|
    ensures q < |s| ==> s[q] == '"'
    ensures forall j :: k <= j < q ==> s[j] != '"'
    decreases |s| - k
  {
    if k == |s| then k
    else if s[k] == '"' then k
    else QuoteIndex(s, k + 1)
  }

  /** If a match of the pattern starts at the beginning of `s`, the index of its closing
      quote: the first quote after the scheme, with at least one character before it. */
  function MatchEnd(s: string): (r: Match)
    ensures r.ClosesAt? ==> |Href| < r.quote < |s| && s[r.quote] == '"'
  {
    if |s| >= |Href| && s[..|Href|] == Href && SchemeLength(s[|Href|..]) > 0 then
      var start := |Href| + SchemeLength(s[|Href|..]);
      var q := QuoteIndex(s, start);
      if start < q < |s| then ClosesAt(q) else NoMatch
    else NoMatch
  }

  /** A match closes on the first quote after the scheme, and at least one character
      of URL follows the scheme. */
  lemma MatchEndFirstQuote(s: string)
    requires MatchEnd(s).ClosesAt?
    ensures var n := SchemeLength(s[|Href|..]);
      && |s[..|Href|]| == |Href| && s[..|Href|] == Href && n > 0
      && |Href| + n < MatchEnd(s).quote
      && MatchEnd(s).quote == QuoteIndex(s, |Href| + n)
  {
  }

  /** The URLs of all matches in `s`, leftmost first; after a match the search resumes
      just past its closing quote. This is what the regular expression's FindAll
      followed by cutting off `href="` and the closing quote yields. */
  function Scan(s: string): (r: seq<string>)
    // a match spans at least 15 characters: `href="http://`, one more and the closing quote
    ensures 15 * |r| <= |s|
    decreases |s|
  {
    if |s| == 0 then []
    else match MatchEnd(s)
      case ClosesAt(q) => [s[|Href|..q]] + Scan(s[q + 1..])
      case NoMatch => Scan(s[1..])
  }

  /** An absolute HTTP(S) URL as the pattern accepts it. */
  ghost predicate IsHttpUrl(u: string) {
    ((|u| > |Http| && u[..|Http|] == Http) || (|u| > |Https| && u[..|Https|] == Https))
    && forall j :: 0 <= j < |u| ==> u[j] != '"'
  }

  /** The markup that links to `u`. */
  function Anchor(u: string): string {
    Href + u + "\""
  }

  /** A page made of one anchor per URL, in order. */
  function Render(urls: seq<string>): string {
    if urls == [] then [] else Anchor(urls[0]) + Render(urls[1..])
  }

  /** The links of a page that are not blacklisted, as getLinks returns them. */
  ghost function ValidLinks(content: string, blacklist: seq<string>): (r: seq<string>)
    ensures 15 * |r| <= |content|
  {
    Filter(Scan(content), blacklist)
  }

  /** Every URL a match yields is well formed. */
  lemma MatchIsHttpUrl(s: string)
    requires MatchEnd(s).ClosesAt?
    ensures IsHttpUrl(s[|Href|..MatchEnd(s).quote])
  {
    var q := MatchEnd(s).quote;
    var u := s[|Href|..q];
    var n := SchemeLength(s[|Href|..]);
    MatchEndFirstQuote(s);
    assert u[..n] == s[|Href|..|Href| + n] == s[|Href|..][..n];
    forall j | 0 <= j < |u| ensures u[j] != '"' {
      assert u[j] == s[|Href| + j];
      if j < n {
        assert u[j] == s[|Href|..][..n][j];
      }
    }
  }

  /** Every extracted link starts with `http://` or `https://`, has at least one
      character after the scheme and contains no double quote. */
  lemma {:induction false} ScanYieldsHttpUrls(s: string)
    ensures forall u :: u in Scan(s) ==> IsHttpUrl(u)
    decreases |s|
  {
    if |s| > 0 {
      if MatchEnd(s).ClosesAt? {
        var q := MatchEnd(s).quote;
        ScanAfterMatch(s, q);
        MatchIsHttpUrl(s);
        ScanYieldsHttpUrls(s[q + 1..]);
      } else {
        ScanAfterMiss(s);
        ScanYieldsHttpUrls(s[1..]);
      }
    }
  }

  /** Contains is preserved when the text is extended on the left. */
  lemma ContainsInSuffix(s: string, k: nat, sub: string)
    requires k <= |s| && Contains(s[k..], sub)
    ensures Contains(s, sub)
  {
    var i :| OccursAt(s[k..], sub, i);
    assert s[k..][i..i + |sub|] == s[k + i..k + i + |sub|];
    assert OccursAt(s, sub, k + i);
  }

  /** Anchors found in a suffix of the text are found in the text. */
  lemma AnchorsInSuffix(s: string, k: nat, links: seq<string>)
    requires k <= |s| && forall v :: v in links ==> Contains(s[k..], Anchor(v))
    ensures forall v :: v in links ==> Contains(s, Anchor(v))
  {
    forall v | v in links ensures Contains(s, Anchor(v)) {
      ContainsInSuffix(s, k, Anchor(v));
    }
  }

  /** A match at the start of the text is an anchor there. */
  lemma MatchIsAnchor(s: string)
    requires MatchEnd(s).ClosesAt?
    ensures OccursAt(s, Anchor(s[|Href|..MatchEnd(s).quote]), 0)
  {
    var q := MatchEnd(s).quote;
    MatchEndFirstQuote(s);
    assert s[..q] == s[..|Href|] + s[|Href|..q];
    assert s[..q + 1] == s[..q] + [s[q]];
  }

  /** Every extracted link really is linked from the page: `href="` + link + `"` occurs in it. */
  lemma {:induction false} ScanIsSound(s: string)
    ensures forall u :: u in Scan(s) ==> Contains(s, Anchor(u))
    decreases |s|
  {
    if |s| > 0 {
      if MatchEnd(s).ClosesAt? {
        var q := MatchEnd(s).quote;
        ScanAfterMatch(s, q);
        ScanIsSound(s[q + 1..]);
        MatchIsAnchor(s);
        AnchorsInSuffix(s, q + 1, Scan(s[q + 1..]));
      } else {
        ScanAfterMiss(s);
        ScanIsSound(s[1..]);
        AnchorsInSuffix(s, 1, Scan(s[1..]));
      }
    }
  }

  /** Every match begins with `href="http`. */
  lemma MatchStartsWithHrefHttp(s: string)
    ensures MatchEnd(s).ClosesAt? ==> Contains(s, HrefHttp)
  {
    if MatchEnd(s).ClosesAt? {
      var n := SchemeLength(s[|Href|..]);
      assert s[|Href|..][..4] == s[|Href|..][..n][..4];
      assert s[..|HrefHttp|] == s[..|Href|] + s[|Href|..][..4];
      assert OccursAt(s, HrefHttp, 0);
    }
  }

  /** A page without any `href="http` yields no links at all. */
  lemma {:induction false} NoHrefNoLinks(s: string)
    requires !Contains(s, HrefHttp)
    ensures Scan(s) == []
    decreases |s|
  {
    if |s| > 0 {
      MatchStartsWithHrefHttp(s);
      NoHrefNoLinks(s[1..]);
    }
  }

  /** So getLinks returns nothing for such a page, whatever the blacklist. */
  lemma NoHrefNoValidLinks(s: string, blacklist: seq<string>)
    requires !Contains(s, HrefHttp)
    ensures ValidLinks(s, blacklist) == []
  {
    NoHrefNoLinks(s);
  }

  /** The scheme of a well-formed URL is recognised whatever text follows it. */
  lemma UrlScheme(u: string, rest: string)
    requires IsHttpUrl(u)
    ensures 0 < SchemeLength(u + rest) < |u|
  {
    var t := u + rest;
    if |u| > |Http| && u[..|Http|] == Http {
      assert t[..|Http|] == u[..|Http|];
    } else {
      assert t[..|Https|] == u[..|Https|];
      assert t[4] == u[4] == 's';
    }
  }

  /** A well-formed URL in an anchor is a match that closes right after the URL. */
  lemma AnchorMatches(u: string, rest: string)
    requires IsHttpUrl(u)
    ensures MatchEnd(Anchor(u) + rest).ClosesAt?
    ensures MatchEnd(Anchor(u) + rest).quote == |Href| + |u|
  {
    var s := Anchor(u) + rest;
    var t := u + ['"'] + rest;
    var q := |Href| + |u|;
    assert s == Href + t;
    assert s[..|Href|] == Href && s[|Href|..] == t;
    UrlScheme(u, ['"'] + rest);
    var n := SchemeLength(t);
    assert s[q] == '"';
    forall j | |Href| + n <= j < q ensures s[j] != '"' {
      assert s[j] == u[j - |Href|];
    }
    assert QuoteIndex(s, |Href| + n) == q;
  }

  /** So the URL is extracted exactly, and the scan resumes after the anchor. */
  lemma AnchorScan(u: string, rest: string)
    requires IsHttpUrl(u)
    ensures Scan(Anchor(u) + rest) == [u] + Scan(rest)
  {
    var s := Anchor(u) + rest;
    var q := |Href| + |u|;
    AnchorMatches(u, rest);
    assert s[|Href|..q] == u;
    assert s[q + 1..] == rest;
    ScanOverPrefix(s, q, u, rest);
  }

  /** The scan step over a match, for a text whose parts around the match are known. */
  lemma ScanOverPrefix(s: string, q: nat, u: string, rest: string)
    requires |s| > 0 && MatchEnd(s).ClosesAt? && MatchEnd(s).quote == q
    requires |Href| <= q < |s| && s[|Href|..q] == u && s[q + 1..] == rest
    ensures Scan(s) == [u] + Scan(rest)
  {
    ScanAfterMatch(s, q);
  }

  /** Rendering URLs as anchors and extracting them again gives back the same URLs,
      in the same order, duplicates included. */
  lemma {:induction false} RenderRoundTrip(urls: seq<string>)
    requires forall u :: u in urls ==> IsHttpUrl(u)
    ensures Scan(Render(urls)) == urls
    decreases |urls|
  {
    if urls != [] {
      assert urls[0] in urls;
      assert forall u :: u in urls[1..] ==> u in urls;
      RenderRoundTrip(urls[1..]);
      AnchorScan(urls[0], Render(urls[1..]));
    }
  }

  /** The scan after a match resumes past its closing quote. */
  lemma ScanOverMatch(s: string)
    requires |s| > 0 && MatchEnd(s).ClosesAt?
    ensures Scan(s) == [s[|Href|..MatchEnd(s).quote]] + Scan(s[MatchEnd(s).quote + 1..])
  {
  }

  /** The same step, for the closing quote `q` the search has found. */
  lemma ScanAfterMatch(s: string, q: nat)
    requires |s| > 0 && MatchEnd(s).ClosesAt? && MatchEnd(s).quote == q
    ensures |Href| < q < |s| && Scan(s) == [s[|Href|..q]] + Scan(s[q + 1..])
  {
    ScanOverMatch(s);
  }

  /** Without a match the scan moves on by one character. */
  lemma ScanAfterMiss(s: string)
    requires |s| > 0 && MatchEnd(s).NoMatch?
    ensures Scan(s) == Scan(s[1..])
  {
  }

  /** One step of the search: does a match start at the beginning of `rest`,
      and if so, where is its closing quote? */
  method MatchAt(rest: string) returns (m: Match)
    ensures m == MatchEnd(rest)
  {
    if |rest| < |Href| || rest[..|Href|] != Href {
      return NoMatch;
    }
    var n := SchemeLength(rest[|Href|..]);
    if n == 0 {
      return NoMatch;
    }
    var start := |Href| + n;
    var q := start;
    while q < |rest| && rest[q] != '"'
      invariant start <= q <= |rest|
      invariant QuoteIndex(rest, q) == QuoteIndex(rest, start)
    {
      q := q + 1;
    }
    m := if start < q < |rest| then ClosesAt(q) else NoMatch;
  }

  /** The link-extraction part of getLinks: finds every match, leftmost first,
      and cuts out the URL between `href="` and the closing quote. */
  method FindLinks(content: string) returns (links: seq<string>)
    ensures links == Scan(content)
  {
    links := [];
    var rest := content;
    while |rest| > 0
      invariant links + Scan(rest) == Scan(content)
      decreases |rest|
    {
      var m := MatchAt(rest);
      match m
      case ClosesAt(q) =>
        ScanAfterMatch(rest, q);
        links := links + [rest[|Href|..q]];
        rest := rest[q + 1..];
      case NoMatch =>
        ScanAfterMiss(rest);
        rest := rest[1..];
    }
  }

  /** getLinks: the extracted links that are not blacklisted, in page order. */
  method GetLinks(content: string, blacklist: seq<string>) returns (valid: seq<string>)
    ensures valid == ValidLinks(content, blacklist)
  {
    var links := FindLinks(content);
    valid := [];
    for i := 0 to |links|
      invariant valid == Filter(links[..i], blacklist)
    {
      var excluded := IsBlacklisted(links[i], blacklist);
      FilterAppend(links[..i], [links[i]], blacklist);
      assert links[..i + 1] == links[..i] + [links[i]];
      if !excluded {
        valid := valid + [links[i]];
      }
    }
    assert links[..|links|] == links;
  }

  /** Every link getLinks returns is a well-formed HTTP(S) URL that is not blacklisted,
      and every well-formed link of the page that is not blacklisted is returned. */
  lemma ValidLinksMembers(content: string, blacklist: seq<string>)
    ensures forall u :: u in ValidLinks(content, blacklist) ==> IsHttpUrl(u) && !Blacklisted(u, blacklist)
    ensures forall u :: u in Scan(content) && !Blacklisted(u, blacklist) ==> u in ValidLinks(content, blacklist)
  {
    ScanYieldsHttpUrls(content);
    FilterMembers(Scan(content), blacklist);
  }

  /** Once a URL is in the blacklist, no page ever offers it as a next hop again. */
  lemma BlacklistedNeverFollowed(url: string, content: string, blacklist: seq<string>, later: seq<string>)
    requires url in blacklist
    ensures url !in ValidLinks(content, blacklist + later)
  {
    ListedStaysBlacklisted(url, blacklist, later);
    FilterMembers(Scan(content), blacklist + later);
  }
}
