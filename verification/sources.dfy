/** The pure parts of the per-source lookups: the URL slugs tried on the
    company-profile sites, the choice of website and social profiles from
    the first search results, and the "first pattern that matches wins"
    rule of the field heuristics. Fetching, HTML parsing, URL parsing and
    the regular-expression engine are parameters. */
module Sources {
  import opened Options
  import opened Text
  import opened Seqs
  import opened Dicts
  import Cleaning

  // ---------------------------------------------------------------------
  // Slug candidates

  /** The three slugs tried for a company name, in order: the lower-cased
      name with each space replaced by "-", removed, and replaced by "_". */
  function Slugs(name: string): (r: seq<string>)
    ensures |r| == 3
    ensures forall i :: 0 <= i < |r| ==> ' ' !in r[i]
  {
    var low := Lower(name);
    [Replace(low, ' ', "-"), Replace(low, ' ', ""), Replace(low, ' ', "_")]
  }

  /** Replacing a character by lower-case text keeps a string lower-case. */
  lemma ReplaceKeepsLower(s: string, c: char, rep: string)
    requires IsLower(s) && IsLower(rep)
    ensures IsLower(Replace(s, c, rep))
  {
    var r := Replace(s, c, rep);
    forall i | 0 <= i < |r| ensures !('A' <= r[i] <= 'Z') {
      assert r[i] in r;
      if r[i] in s {
        var j :| 0 <= j < |s| && s[j] == r[i];
      } else {
        var j :| 0 <= j < |rep| && rep[j] == r[i];
      }
    }
  }

  /** Lower-casing keeps every character that is not an upper-case
      letter. */
  lemma LowerKeeps(s: string, c: char)
    requires !('A' <= c <= 'Z') && !('a' <= c <= 'z')
    ensures c in Lower(s) <==> c in s
  {
    if c in Lower(s) {
      var i :| 0 <= i < |Lower(s)| && Lower(s)[i] == c;
      assert s[i] == c;
    }
    if c in s {
      var i :| 0 <= i < |s| && s[i] == c;
      assert Lower(s)[i] == c;
    }
  }

  /** The slugs are lower-case; the first and third keep the name's length,
      with exactly the spaces changed, and the second is the lower-cased name
      with the spaces deleted. */
  lemma SlugsShape(name: string)
    ensures forall i :: 0 <= i < 3 ==> IsLower(Slugs(name)[i])
    ensures |Slugs(name)[0]| == |name| && |Slugs(name)[2]| == |name|
    ensures forall i :: 0 <= i < |name| ==>
      Slugs(name)[0][i] == (if name[i] == ' ' then '-' else LowerChar(name[i]))
    ensures forall i :: 0 <= i < |name| ==>
      Slugs(name)[2][i] == (if name[i] == ' ' then '_' else LowerChar(name[i]))
    ensures Slugs(name)[1] == RemoveAll(Lower(name), ' ')
  {
    var low := Lower(name);
    ReplaceKeepsLower(low, ' ', "-");
    ReplaceKeepsLower(low, ' ', "");
    ReplaceKeepsLower(low, ' ', "_");
    ReplaceByChar(low, ' ', '-');
    ReplaceByChar(low, ' ', '_');
    ReplaceByNothing(low, ' ');
  }

  /** A name without hyphens is recovered, lower-cased, from its first slug
      by turning hyphens back into spaces; likewise for underscores and the
      third slug. */
  lemma SlugsRoundTrip(name: string)
    ensures '-' !in name ==> Replace(Slugs(name)[0], '-', " ") == Lower(name)
    ensures '_' !in name ==> Replace(Slugs(name)[2], '_', " ") == Lower(name)
  {
    LowerKeeps(name, '-');
    LowerKeeps(name, '_');
    if '-' !in name {
      ReplaceRoundTrip(Lower(name), ' ', '-');
    }
    if '_' !in name {
      ReplaceRoundTrip(Lower(name), ' ', '_');
    }
  }

  // ---------------------------------------------------------------------
  // First accepted candidate

  /** The result for the first candidate that yields one: the shape of the
      loops that try candidates in order and `break` at the first success. */
  function FirstSome<T, U>(xs: seq<T>, f: T -> Option<U>): (r: Option<U>)
    ensures r.None? <==> forall i :: 0 <= i < |xs| ==> f(xs[i]).None?
    ensures r.Some? ==> exists i :: 0 <= i < |xs| && f(xs[i]) == r
    decreases |xs|
  {
    if |xs| == 0 then None
    else if f(xs[0]).Some? then f(xs[0])
    else FirstSome(xs[1..], f)
  }

  /** A result comes from a candidate all of whose predecessors yielded
      nothing. */
  lemma {:induction false} FirstSomeWitness<T, U>(xs: seq<T>, f: T -> Option<U>) returns (i: nat)
    requires FirstSome(xs, f).Some?
    ensures i < |xs| && f(xs[i]) == FirstSome(xs, f)
    ensures forall j :: 0 <= j < i ==> f(xs[j]).None?
    decreases |xs|
  {
    if f(xs[0]).Some? {
      i := 0;
    } else {
      var k := FirstSomeWitness(xs[1..], f);
      i := k + 1;
      forall j | 0 <= j < i ensures f(xs[j]).None? {
        if j > 0 {
          assert xs[j] == xs[1..][j - 1];
        }
      }
    }
  }

  /** The candidate tried first among those that yield a result decides. */
  lemma {:induction false} FirstSomeAt<T, U>(xs: seq<T>, f: T -> Option<U>, i: nat)
    requires i < |xs| && f(xs[i]).Some?
    requires forall j :: 0 <= j < i ==> f(xs[j]).None?
    ensures FirstSome(xs, f) == f(xs[i])
    decreases i
  {
    if i > 0 {
      forall j | 0 <= j < i - 1 ensures f(xs[1..][j]).None? {
        assert xs[1..][j] == xs[j + 1];
      }
      FirstSomeAt(xs[1..], f, i - 1);
    }
  }

  /** The first slug whose profile page was found, trying the slugs in
      order. */
  function FoundSlug(name: string, found: string -> bool): (r: Option<string>)
    ensures r.Some? ==> r.value in Slugs(name) && found(r.value)
    ensures r.None? <==> forall i :: 0 <= i < 3 ==> !found(Slugs(name)[i])
  {
    FirstSome(Slugs(name), s => if found(s) then Some(s) else None)
  }

  /** A regular-expression search: the first capture group of the first
      match of the pattern in the text, if any. */
  type Matcher = (string, string) -> Option<string>

  /** The company-size patterns, in the order they are tried. */
  const SizePatterns: seq<string> := [
    "(\\d{1,3}(?:,\\d{3})*(?:\\+)?\\s*employees)",
    "((?:about|approximately|over|more than)\\s+\\d{1,3}(?:,\\d{3})*\\s+employees)",
    "(team of \\d{1,3}(?:,\\d{3})*(?:\\+)?)"]

  /** The industry patterns, in the order they are tried. */
  const IndustryPatterns: seq<string> := [
    "industry:\\s*([^\\.]+)",
    "(?:is\\s+)?(?:a|an)\\s+([^,\\.]+(?:company|corporation|manufacturer|producer|provider|retailer|supplier))",
    "operates\\s+in\\s+the\\s+([^,\\.]+)\\s+(?:industry|sector|market)",
    "leading\\s+([^,\\.]+(?:company|manufacturer|producer|provider|retailer|supplier))"]

  /** The revenue patterns, in the order they are tried. */
  const RevenuePatterns: seq<string> := [
    "revenue[:\\s]+(?:US)?\\$?\\s*([\\d\\.]+\\s*(?:billion|million|trillion))",
    "(?:US)?\\$?\\s*([\\d\\.]+\\s*(?:billion|million|trillion))\\s+in\\s+revenue"]

  /** The company size: the group of the first size pattern that matches;
      `None` leaves the field as it was. */
  function SizeFrom(search: Matcher, text: string): (r: Option<string>)
    ensures r.Some? <==> exists i :: 0 <= i < |SizePatterns| && search(SizePatterns[i], text).Some?
  {
    FirstSome(SizePatterns, p => search(p, text))
  }

  /** The industry candidate of one pattern: its stripped group, when that is
      longer than five characters. */
  function IndustryCandidate(search: Matcher, text: string, p: string): (r: Option<string>)
    ensures r.Some? ==> |r.value| > 5 && !IsSpace(r.value[0]) && !IsSpace(r.value[|r.value| - 1])
  {
    match search(p, text)
    case None => None
    case Some(g) => if |Strip(g)| > 5 then Some(Strip(g)) else None
  }

  /** The candidate of each pattern, as one function. */
  function IndustryTry(search: Matcher, text: string): string -> Option<string> {
    p => IndustryCandidate(search, text, p)
  }

  /** The industry: the first stripped group longer than five characters,
      trying the patterns in order; a short group does not stop the search. */
  function IndustryFrom(search: Matcher, text: string): (r: Option<string>)
    ensures r.Some? ==> |r.value| > 5 && !IsSpace(r.value[0]) && !IsSpace(r.value[|r.value| - 1])
    ensures r.None? <==>
      forall i :: 0 <= i < |IndustryPatterns| ==> IndustryCandidate(search, text, IndustryPatterns[i]).None?
  {
    IndustryFound(search, text);
    FirstSome(IndustryPatterns, IndustryTry(search, text))
  }

  /** A found industry is some pattern's candidate. */
  lemma IndustryFound(search: Matcher, text: string)
    ensures var r := FirstSome(IndustryPatterns, IndustryTry(search, text));
      r.Some? ==> exists i :: 0 <= i < |IndustryPatterns| && IndustryCandidate(search, text, IndustryPatterns[i]) == r
  {
  }

  /** The revenue: "$" followed by the group of the first revenue pattern
      that matches. */
  function RevenueFrom(search: Matcher, text: string): (r: Option<string>)
    ensures r.Some? ==> |r.value| > 0 && r.value[0] == '$'
    ensures r.Some? <==> exists i :: 0 <= i < |RevenuePatterns| && search(RevenuePatterns[i], text).Some?
  {
    var g := FirstSome(RevenuePatterns, p => search(p, text));
    if g.Some? then Some("$" + g.value) else None
  }

  /** The first size pattern that matches decides the size. */
  lemma SizeFirstMatch(search: Matcher, text: string, i: nat)
    requires i < |SizePatterns| && search(SizePatterns[i], text).Some?
    requires forall j :: 0 <= j < i ==> search(SizePatterns[j], text).None?
    ensures SizeFrom(search, text) == search(SizePatterns[i], text)
  {
    FirstSomeAt(SizePatterns, p => search(p, text), i);
  }

  /** The first revenue pattern that matches decides the revenue. */
  lemma RevenueFirstMatch(search: Matcher, text: string, i: nat)
    requires i < |RevenuePatterns| && search(RevenuePatterns[i], text).Some?
    requires forall j :: 0 <= j < i ==> search(RevenuePatterns[j], text).None?
    ensures RevenueFrom(search, text) == Some("$" + search(RevenuePatterns[i], text).value)
  {
    FirstSomeAt(RevenuePatterns, p => search(p, text), i);
  }

  /** When an earlier industry pattern matches only a short group, a later
      pattern still decides. */
  lemma IndustrySkipsShort(search: Matcher, text: string, i: nat)
    requires i < |IndustryPatterns|
    requires forall j :: 0 <= j < i ==> IndustryCandidate(search, text, IndustryPatterns[j]).None?
    requires IndustryCandidate(search, text, IndustryPatterns[i]).Some?
    ensures IndustryFrom(search, text) == IndustryCandidate(search, text, IndustryPatterns[i])
  {
    FirstSomeAt(IndustryPatterns, IndustryTry(search, text), i);
  }

  // ---------------------------------------------------------------------
  // Website and social profiles from the first search results

  /** One search result: without a link, or with the link's `href` (empty
      when absent) and the network location the URL parser gives for it. */
  datatype SearchResult = NoLink | Link(href: string, netloc: string)

  /** What the loop updates: the website (`None` at first) and the social
      profiles, domain to URL. */
  datatype Found = Found(website: Option<string>, profiles: Dict<string, string>)

  /** How many results are looked at. */
  const ResultsLooked: nat := 3

  /** The social domains. */
  const SocialDomains: seq<string> := ["linkedin.com", "facebook.com", "twitter.com"]

  /** A domain is social when it contains one of the social domains. */
  predicate IsSocial(domain: string) {
    Contains(domain, "linkedin.com") || Contains(domain, "facebook.com") || Contains(domain, "twitter.com")
  }

  /** A result with a link starting with "http". */
  predicate IsWebLink(r: SearchResult) {
    r.Link? && IsPrefix("http", r.href)
  }

  /** A result that may become the website. */
  predicate IsSiteCandidate(r: SearchResult) {
    IsWebLink(r) && !IsSocial(Lower(r.netloc))
  }

  /** Python truthiness of the website field. */
  predicate HasWebsite(w: Option<string>) {
    w.Some? && w.value != ""
  }

  /** One iteration of the loop. */
  function Step(st: Found, r: SearchResult): Found {
    if !IsWebLink(r) then st
    else
      var domain := Lower(r.netloc);
      if IsSocial(domain) then Found(st.website, Put(st.profiles, domain, r.href))
      else if !HasWebsite(st.website) then Found(Some(r.href), st.profiles)
      else st
  }

  /** The loop over a sequence of results, left to right. */
  function Scan(st: Found, rs: seq<SearchResult>): Found
    decreases |rs|
  {
    if |rs| == 0 then st else Step(Scan(st, rs[..|rs| - 1]), rs[|rs| - 1])
  }

  /** The loop over the first three results: a website already set stays,
      otherwise the first non-social web link among them becomes it. */
  function SelectLinks(st: Found, rs: seq<SearchResult>): (r: Found)
    ensures r.website ==
      if HasWebsite(st.website) then st.website
      else if FirstSite(Take(rs, ResultsLooked)).Some? then FirstSite(Take(rs, ResultsLooked))
      else st.website
  {
    ScanWebsite(st, Take(rs, ResultsLooked));
    Scan(st, Take(rs, ResultsLooked))
  }

  /** Under each domain the profiles hold the URL of the last social result
      among the first three with that domain, or what was there before. */
  lemma SelectLinksProfiles(st: Found, rs: seq<SearchResult>, d: string)
    ensures Get(SelectLinks(st, rs).profiles, d) ==
      if LastSocial(Take(rs, ResultsLooked), d).Some? then LastSocial(Take(rs, ResultsLooked), d)
      else Get(st.profiles, d)
  {
    ScanProfiles(st, Take(rs, ResultsLooked), d);
  }

  /** Results after the third are never looked at. */
  lemma SelectLinksIgnoresRest(st: Found, rs: seq<SearchResult>, more: seq<SearchResult>)
    requires |rs| >= ResultsLooked
    ensures SelectLinks(st, rs + more) == SelectLinks(st, rs)
  {
    assert Take(rs + more, ResultsLooked) == Take(rs, ResultsLooked);
  }

  /** The first result that may become the website, as an independent
      reference. */
  function FirstSite(rs: seq<SearchResult>): Option<string>
    decreases |rs|
  {
    if |rs| == 0 then None
    else if IsSiteCandidate(rs[0]) then Some(rs[0].href)
    else FirstSite(rs[1..])
  }

  /** `FirstSite` is the link of the first website candidate. */
  lemma {:induction false} FirstSiteWitness(rs: seq<SearchResult>) returns (i: nat)
    requires FirstSite(rs).Some?
    ensures i < |rs| && IsSiteCandidate(rs[i]) && FirstSite(rs) == Some(rs[i].href)
    ensures forall j :: 0 <= j < i ==> !IsSiteCandidate(rs[j])
    decreases |rs|
  {
    if IsSiteCandidate(rs[0]) {
      i := 0;
    } else {
      var k := FirstSiteWitness(rs[1..]);
      i := k + 1;
      forall j | 0 <= j < i ensures !IsSiteCandidate(rs[j]) {
        if j > 0 {
          assert rs[j] == rs[1..][j - 1];
        }
      }
    }
  }

  /** `FirstSite` of a sequence extended at the end. */
  lemma {:induction false} FirstSiteSnoc(rs: seq<SearchResult>, x: SearchResult)
    ensures FirstSite(rs + [x]) ==
      if FirstSite(rs).Some? then FirstSite(rs)
      else if IsSiteCandidate(x) then Some(x.href) else None
    decreases |rs|
  {
    if |rs| > 0 {
      assert (rs + [x])[1..] == rs[1..] + [x];
      FirstSiteSnoc(rs[1..], x);
    } else {
      assert (rs + [x])[1..] == [];
    }
  }

  /** A website candidate's link is never empty. */
  lemma CandidateNonEmpty(r: SearchResult)
    requires IsSiteCandidate(r)
    ensures r.href != ""
  {
  }

  /** The website after the loop: one already set is never overwritten, and
      an unset one becomes the first non-social web link, if any. */
  lemma {:induction false} ScanWebsite(st: Found, rs: seq<SearchResult>)
    ensures Scan(st, rs).website ==
      if HasWebsite(st.website) then st.website
      else if FirstSite(rs).Some? then FirstSite(rs)
      else st.website
    decreases |rs|
  {
    if |rs| > 0 {
      var init := rs[..|rs| - 1];
      var x := rs[|rs| - 1];
      assert rs == init + [x];
      ScanWebsite(st, init);
      FirstSiteSnoc(init, x);
      if FirstSite(init).Some? {
        var i := FirstSiteWitness(init);
        CandidateNonEmpty(init[i]);
      }
    }
  }

  /** The URL of the last social result whose lower-cased domain is `d`. */
  function LastSocial(rs: seq<SearchResult>, d: string): Option<string>
    decreases |rs|
  {
    if |rs| == 0 then None
    else
      var x := rs[|rs| - 1];
      if IsWebLink(x) && IsSocial(Lower(x.netloc)) && Lower(x.netloc) == d then Some(x.href)
      else LastSocial(rs[..|rs| - 1], d)
  }

  /** The profiles after the loop: under each domain, the URL of the last
      social result with that domain, or what was there before. */
  lemma {:induction false} ScanProfiles(st: Found, rs: seq<SearchResult>, d: string)
    ensures Get(Scan(st, rs).profiles, d) ==
      if LastSocial(rs, d).Some? then LastSocial(rs, d) else Get(st.profiles, d)
    decreases |rs|
  {
    if |rs| > 0 {
      ScanProfiles(st, rs[..|rs| - 1], d);
      var x := rs[|rs| - 1];
      if IsWebLink(x) && IsSocial(Lower(x.netloc)) {
        PutGet(Scan(st, rs[..|rs| - 1]).profiles, Lower(x.netloc), x.href, d);
      }
    }
  }

  /** Every profile key the loop adds is a social domain. */
  lemma {:induction false} ScanProfileKeys(st: Found, rs: seq<SearchResult>, d: string)
    requires d in Keys(Scan(st, rs).profiles) && d !in Keys(st.profiles)
    ensures IsSocial(d)
    decreases |rs|
  {
    var prev := Scan(st, rs[..|rs| - 1]);
    var x := rs[|rs| - 1];
    if IsWebLink(x) && IsSocial(Lower(x.netloc)) {
      PutKeys(prev.profiles, Lower(x.netloc), x.href);
    }
    if d in Keys(prev.profiles) {
      ScanProfileKeys(st, rs[..|rs| - 1], d);
    }
  }

  /** The website the loop sets is never a social link. */
  lemma WebsiteNotSocial(st: Found, rs: seq<SearchResult>)
    requires !HasWebsite(st.website)
    requires HasWebsite(Scan(st, rs).website)
    ensures exists i :: 0 <= i < |rs| && IsSiteCandidate(rs[i]) && Scan(st, rs).website == Some(rs[i].href)
  {
    ScanWebsite(st, rs);
    var i := FirstSiteWitness(rs);
  }

  /** A social domain is cleaned to a platform name. */
  lemma SocialDomainPlatform(domain: string)
    requires IsSocial(domain)
    ensures Cleaning.Platform(domain) in Cleaning.PlatformNames
  {
    Cleaning.PlatformNamesAt();
    if Contains(domain, "linkedin.com") {
      ContainsPrefixOfSub(domain, "linkedin.com", "linkedin");
    } else if Contains(domain, "facebook.com") {
      ContainsPrefixOfSub(domain, "facebook.com", "facebook");
    } else {
      ContainsPrefixOfSub(domain, "twitter.com", "twitter");
    }
  }
}
