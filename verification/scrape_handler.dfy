/** The pure parts of the `/scrape` request handler: deciding between a
    direct lookup, a filter search and the 400 error; building the search
    terms from the filters; and turning result titles into company names. */
module ScrapeHandler {
  import opened Options
  import opened Text
  import opened Seqs
  import opened Dicts

  // ---------------------------------------------------------------------
  // Filters and search terms

  /** The filter values of a request; `None` when absent or null. */
  datatype Filters = Filters(
    industry: Option<string>,
    location: Option<string>,
    size: Option<string>,
    keywords: Option<string>)

  /** Python truthiness of an optional string. */
  predicate Given(v: Option<string>) {
    v.Some? && v.value != ""
  }

  /** The company-size choices and the phrase each stands for. */
  const SizeMap: Dict<string, string> := [
    ("1-10", "small"),
    ("11-50", "small to medium"),
    ("51-200", "medium"),
    ("201-500", "medium to large"),
    ("501-1000", "large"),
    ("1001+", "enterprise")]

  /** The six size choices, in order. */
  const SizeKeys: seq<string> := ["1-10", "11-50", "51-200", "201-500", "501-1000", "1001+"]

  /** The size map has six distinct keys, in order. */
  lemma SizeMapKeys()
    ensures Keys(SizeMap) == SizeKeys
    ensures Valid(SizeMap)
  {
    assert Keys(SizeMap)[0] == SizeKeys[0];
    assert Keys(SizeMap)[1] == SizeKeys[1];
    assert Keys(SizeMap)[2] == SizeKeys[2];
    assert Keys(SizeMap)[3] == SizeKeys[3];
    assert Keys(SizeMap)[4] == SizeKeys[4];
    assert Keys(SizeMap)[5] == SizeKeys[5];
  }

  /** The phrase of a size choice; `None` for any other text. */
  function SizePhrase(size: string): (r: Option<string>)
    ensures r.Some? <==> size in SizeKeys
  {
    SizeMapKeys();
    Get(SizeMap, size)
  }

  /** The phrase of each size choice. */
  lemma SizePhrases()
    ensures SizePhrase("1-10") == Some("small")
    ensures SizePhrase("11-50") == Some("small to medium")
    ensures SizePhrase("51-200") == Some("medium")
    ensures SizePhrase("201-500") == Some("medium to large")
    ensures SizePhrase("501-1000") == Some("large")
    ensures SizePhrase("1001+") == Some("enterprise")
  {
    SizeMapKeys();
    GetAt(SizeMap, 0);
    GetAt(SizeMap, 1);
    GetAt(SizeMap, 2);
    GetAt(SizeMap, 3);
    GetAt(SizeMap, 4);
    GetAt(SizeMap, 5);
  }

  /** The term of the industry filter, if given. */
  function IndustryTerms(f: Filters): seq<string> {
    if Given(f.industry) then [f.industry.value + " companies"] else []
  }

  /** The term of the location filter, if given. */
  function LocationTerms(f: Filters): seq<string> {
    if Given(f.location) then ["in " + f.location.value] else []
  }

  /** The term of the size filter, if it is one of the six choices. */
  function SizeTerms(f: Filters): seq<string> {
    if Given(f.size) && SizePhrase(f.size.value).Some? then [SizePhrase(f.size.value).value + " companies"] else []
  }

  /** The comma-separated keywords, if given. */
  function KeywordTerms(f: Filters): seq<string> {
    if Given(f.keywords) then Split(f.keywords.value, ',') else []
  }

  /** The search terms, in the order industry, location, size, keywords. */
  function SearchTerms(f: Filters): (r: seq<string>)
    ensures r == [] <==>
      !Given(f.industry) && !Given(f.location) && !Given(f.keywords)
      && !(Given(f.size) && f.size.value in SizeKeys)
  {
    IndustryTerms(f) + LocationTerms(f) + SizeTerms(f) + KeywordTerms(f)
  }

  /** The industry term comes first. */
  lemma IndustryTermFirst(f: Filters)
    requires Given(f.industry)
    ensures SearchTerms(f)[0] == f.industry.value + " companies"
  {
  }

  /** The location term follows the industry term, if any. */
  lemma LocationTermNext(f: Filters)
    requires Given(f.location)
    ensures var i := if Given(f.industry) then 1 else 0;
      i < |SearchTerms(f)| && SearchTerms(f)[i] == "in " + f.location.value
  {
  }

  /** The size term follows those two, for the six size choices only. */
  lemma SizeTermNext(f: Filters)
    requires Given(f.size) && f.size.value in SizeKeys
    ensures var i := |IndustryTerms(f)| + |LocationTerms(f)|;
      i < |SearchTerms(f)| && SearchTerms(f)[i] == SizePhrase(f.size.value).value + " companies"
  {
  }

  /** The keywords end the terms, split at commas, and joining them with
      commas gives back the keyword text. */
  lemma KeywordsRoundTrip(f: Filters)
    requires Given(f.keywords)
    ensures var terms := SearchTerms(f);
      var n := |Split(f.keywords.value, ',')|;
      && n <= |terms|
      && terms[|terms| - n..] == Split(f.keywords.value, ',')
      && Join(terms[|terms| - n..], ",") == f.keywords.value
  {
    var terms := SearchTerms(f);
    var n := |Split(f.keywords.value, ',')|;
    assert terms[|terms| - n..] == Split(f.keywords.value, ',');
    SplitJoin(f.keywords.value, ',');
  }

  /** One term per given industry and location, one for a known size, and
      one per comma-separated keyword piece: no other term is added. With
      the four lemmas above this fixes the whole list. */
  lemma SearchTermsCount(f: Filters)
    ensures |SearchTerms(f)| ==
      (if Given(f.industry) then 1 else 0)
      + (if Given(f.location) then 1 else 0)
      + (if Given(f.size) && f.size.value in SizeKeys then 1 else 0)
      + (if Given(f.keywords) then |Split(f.keywords.value, ',')| else 0)
  {
  }

  // ---------------------------------------------------------------------
  // What the handler does with a request

  /** What the handler goes on to do. */
  datatype Plan =
    | LookUp(name: string)                   // search the named company
    | Search(query: string)                  // search the web for the joined terms
    | BadRequest(status: nat, message: string)

  /** The error text when neither a name nor a usable filter is given. */
  const NoCriteria: string := "Please enter a company name or set search filters"

  /** A given company name is looked up; otherwise the search terms are
      joined with spaces, and without terms the answer is a 400 error. */
  function PlanFor(companyName: Option<string>, f: Filters): (r: Plan)
    ensures Given(companyName) ==> r == LookUp(companyName.value)
    ensures !Given(companyName) && SearchTerms(f) != [] ==> r == Search(Join(SearchTerms(f), " "))
    ensures !Given(companyName) ==> (r.Search? <==> SearchTerms(f) != [])
    ensures r.BadRequest? ==> r.status == 400 && r.message == NoCriteria
  {
    if Given(companyName) then LookUp(companyName.value)
    else
      var terms := SearchTerms(f);
      if terms == [] then BadRequest(400, NoCriteria) else Search(Join(terms, " "))
  }

  /** The 400 error happens exactly when no company name, no industry, no
      location, no keywords and no known size are given. */
  lemma BadRequestIff(companyName: Option<string>, f: Filters)
    ensures PlanFor(companyName, f).BadRequest? <==>
      && !Given(companyName)
      && !Given(f.industry) && !Given(f.location) && !Given(f.keywords)
      && !(Given(f.size) && f.size.value in SizeKeys)
  {
  }

  /** An unknown size alone is no search criterion. */
  lemma UnknownSizeAlone(size: string)
    requires size != "" && size !in SizeKeys
    ensures PlanFor(None, Filters(None, None, Some(size), None)) == BadRequest(400, NoCriteria)
  {
  }

  /** A search query starts with the first term. */
  lemma QueryStartsWithFirstTerm(companyName: Option<string>, f: Filters)
    requires PlanFor(companyName, f).Search?
    ensures IsPrefix(SearchTerms(f)[0], PlanFor(companyName, f).query)
  {
    var terms := SearchTerms(f);
    JoinStartsWithFirst(terms, " ");
  }

  /** A join starts with its first part. */
  lemma JoinStartsWithFirst(parts: seq<string>, sep: string)
    requires |parts| > 0
    ensures IsPrefix(parts[0], Join(parts, sep))
  {
  }

  // ---------------------------------------------------------------------
  // Company names from result titles

  /** Lower-case phrases that mark a title as a list rather than a
      company. */
  const ListMarkers: seq<string> := ["list of", "top 10", "best"]

  /** The title, lower-cased, contains a list marker. */
  predicate IsListTitle(title: string) {
    exists i :: 0 <= i < |ListMarkers| && Contains(Lower(title), ListMarkers[i])
  }

  /** Everything from the whitespace before the first `c` on, removed:
      `re.sub(r'\s*c.*$', '', s)` on a one-line string. */
  function CutAt(s: string, c: char): (r: string)
    ensures c !in r
    ensures IsPrefix(r, s)
    ensures c !in s ==> r == s
    ensures c in s ==>
      && |r| <= IndexOf(s, c)
      && (forall i :: |r| <= i < IndexOf(s, c) ==> IsSpace(s[i]))
      && (|r| == 0 || !IsSpace(r[|r| - 1]))
  {
    if c in s then TrimEnd(s[..IndexOf(s, c)]) else s
  }

  /** `s` ends with `suffix`, ignoring the case of ASCII letters. */
  predicate EndsWithNoCase(s: string, suffix: string) {
    |suffix| <= |s| && Lower(s[|s| - |suffix|..]) == suffix
  }

  /** A trailing `word` (lower-case, any case in `s`), optionally followed
      by a dot, removed together with the whitespace before it:
      `re.sub(r'(?i)\s*word\.?$', '', s)` on a one-line string. */
  function DropWord(s: string, word: string): (r: string)
    ensures IsPrefix(r, s)
    ensures !EndsWithNoCase(s, word + ".") && !EndsWithNoCase(s, word) ==> r == s
    ensures EndsWithNoCase(s, word + ".") ==>
      && |r| <= |s| - |word| - 1
      && (forall i :: |r| <= i < |s| - |word| - 1 ==> IsSpace(s[i]))
      && (|r| == 0 || !IsSpace(r[|r| - 1]))
    ensures !EndsWithNoCase(s, word + ".") && EndsWithNoCase(s, word) ==>
      && |r| <= |s| - |word|
      && (forall i :: |r| <= i < |s| - |word| ==> IsSpace(s[i]))
      && (|r| == 0 || !IsSpace(r[|r| - 1]))
  {
    if EndsWithNoCase(s, word + ".") then TrimEnd(s[..|s| - |word| - 1])
    else if EndsWithNoCase(s, word) then TrimEnd(s[..|s| - |word|])
    else s
  }

  /** The company name in a title that is not a list title: the title cut
      before "|" and before "-", without a trailing "inc" or "llc", and
      stripped. */
  function NameIn(title: string): string {
    Strip(Cuts(title))
  }

  /** The company name in a result title, or `None` for a list title. */
  function CleanTitle(raw: string): Option<string> {
    var title := Strip(raw);
    if IsListTitle(title) then None else Some(NameIn(title))
  }

  /** A title is skipped exactly when, stripped and lower-cased, it contains
      one of the list markers. */
  lemma CleanTitleSkips(raw: string)
    ensures CleanTitle(raw).None? <==> IsListTitle(Strip(raw))
  {
  }

  /** A prefix of a prefix is a prefix. */
  lemma PrefixTransitive(a: string, b: string, c: string)
    requires IsPrefix(a, b) && IsPrefix(b, c)
    ensures IsPrefix(a, c)
  {
  }

  /** A cleaned name holds neither "|" nor "-", has no surrounding
      whitespace, and is a prefix of the stripped title. */
  lemma CleanTitleShape(raw: string)
    requires CleanTitle(raw).Some?
    ensures var name := CleanTitle(raw).value;
      && '|' !in name && '-' !in name
      && (|name| == 0 || (!IsSpace(name[0]) && !IsSpace(name[|name| - 1])))
      && IsPrefix(name, Strip(raw))
  {
    NameInShape(Strip(raw));
  }

  /** The name in a title that starts with a non-space. */
  lemma NameInShape(title: string)
    requires |title| == 0 || !IsSpace(title[0])
    ensures var name := NameIn(title);
      && '|' !in name && '-' !in name
      && (|name| == 0 || (!IsSpace(name[0]) && !IsSpace(name[|name| - 1])))
      && IsPrefix(name, title)
  {
    var d := Cuts(title);
    CutsShape(title);
    StripOfPrefix(d, title);
    PrefixTransitive(Strip(d), d, title);
    PrefixFree(Strip(d), d, '|');
    PrefixFree(Strip(d), d, '-');
  }

  /** The title with the four cuts applied, before the final strip. */
  function Cuts(title: string): string {
    DropWord(DropWord(CutAt(CutAt(title, '|'), '-'), "inc"), "llc")
  }

  /** The cuts leave a prefix of the title without "|" or "-". */
  lemma CutsShape(title: string)
    ensures '|' !in Cuts(title) && '-' !in Cuts(title)
    ensures IsPrefix(Cuts(title), title)
  {
    var a := CutAt(title, '|');
    var b := CutAt(a, '-');
    var c := DropWord(b, "inc");
    var d := DropWord(c, "llc");
    PrefixTransitive(b, a, title);
    PrefixTransitive(c, b, title);
    PrefixTransitive(d, c, title);
    PrefixFree(b, a, '|');
    PrefixTransitive(d, c, b);
    PrefixFree(d, b, '|');
    PrefixFree(d, b, '-');
  }

  /** A prefix of a string without `x` has no `x` either. */
  lemma PrefixFree(a: string, b: string, x: char)
    requires IsPrefix(a, b) && x !in b
    ensures x !in a
  {
  }

  /** Stripping a prefix of a stripped string only trims its end, so the
      result is still a prefix. */
  lemma StripOfPrefix(d: string, t: string)
    requires IsPrefix(d, t)
    requires |t| == 0 || !IsSpace(t[0])
    ensures IsPrefix(Strip(d), d)
  {
    if |d| > 0 {
      assert d[0] == t[0];
    }
    StripOfUnpadded(d);
  }

  /** A title that is already a clean name is kept as it is: no list marker,
      no surrounding whitespace, no "|" or "-", and no trailing "inc" or
      "llc" (with or without a dot, in any case). */
  lemma CleanNameKept(name: string)
    requires !IsListTitle(name) && IsCleanName(name)
    ensures CleanTitle(name) == Some(name)
  {
    StripFixed(name);
    CleanNameFixed(name);
  }

  /** A name the cleaning leaves alone: no surrounding whitespace, no "|"
      or "-", and no trailing "inc" or "llc" (with or without a dot, in any
      case). */
  predicate IsCleanName(n: string) {
    && (|n| == 0 || (!IsSpace(n[0]) && !IsSpace(n[|n| - 1])))
    && '|' !in n && '-' !in n
    && !EndsWithNoCase(n, "inc.") && !EndsWithNoCase(n, "inc")
    && !EndsWithNoCase(n, "llc.") && !EndsWithNoCase(n, "llc")
  }

  /** The cuts after the first leave a clean name as it is. */
  lemma CleanNameFixed(n: string)
    requires IsCleanName(n)
    ensures CutAt(n, '-') == n
    ensures Strip(DropWord(DropWord(n, "inc"), "llc")) == n
  {
    var a := DropWord(n, "inc");
    assert a == n;
    assert DropWord(a, "llc") == n;
    StripFixed(n);
  }

  /** Cutting at `c` a string that starts with `n`, some whitespace `w`
      and `c` gives back `n`, when `n` has no `c` and no trailing
      whitespace. */
  lemma CutAtName(t: string, c: char, n: string, w: string)
    requires !IsSpace(c) && c !in n
    requires |n| == 0 || !IsSpace(n[|n| - 1])
    requires forall i :: 0 <= i < |w| ==> IsSpace(w[i])
    requires IsPrefix(n + w + [c], t)
    ensures CutAt(t, c) == n
  {
    var k := |n| + |w|;
    assert t[k] == c;
    assert forall i :: 0 <= i < k ==> t[i] == (n + w)[i];
    assert IndexOf(t, c) == k;
    assert t[..k] == n + w;
    TrimEndKeeps(n + w, n);
    var r := TrimEnd(n + w);
    assert r[..|n|] == n;
  }

  /** Stripping a title `n + " " + [c] + " " + rest`, where `n` does not
      start with whitespace, keeps `n`, the space and `c` in front (only `c`
      when `n` is empty). */
  lemma StripTitle(n: string, c: char, rest: string)
    requires !IsSpace(c)
    requires |n| == 0 || !IsSpace(n[0])
    ensures |n| > 0 ==> IsPrefix(n + " " + [c], Strip(n + [' ', c, ' '] + rest))
    ensures |n| == 0 ==> IsPrefix([c], Strip(n + [' ', c, ' '] + rest))
  {
    var raw := n + [' ', c, ' '] + rest;
    var q := n + [' ', c];
    assert raw[..|q|] == q;
    TrimEndKeeps(raw, q);
    var e := TrimEnd(raw);
    if |n| > 0 {
      assert e[0] == n[0];
      assert q == n + " " + [c];
    } else {
      assert e[0] == ' ' && e[1] == c;
      assert TrimStart(e) == TrimStart(e[1..]);
    }
  }

  /** A title made of a clean company name, " | " and anything else is
      cleaned to that name, unless it reads as a list title. */
  lemma TitleBeforeBar(n: string, rest: string)
    requires IsCleanName(n)
    ensures CleanTitle(n + " | " + rest) ==
      if IsListTitle(Strip(n + " | " + rest)) then None else Some(n)
  {
    var raw := n + " | " + rest;
    assert raw == n + [' ', '|', ' '] + rest;
    StripTitle(n, '|', rest);
    var t := Strip(raw);
    var w := if |n| > 0 then " " else "";
    assert n + w + ['|'] == if |n| > 0 then n + " " + ['|'] else ['|'];
    CutAtName(t, '|', n, w);
    CleanNameFixed(n);
  }

  /** Cutting at `c` keeps a prefix that has no `c` and ends in a
      non-space. */
  lemma CutKeepsPrefix(t: string, c: char, q: string)
    requires IsPrefix(q, t) && c !in q
    requires |q| == 0 || !IsSpace(q[|q| - 1])
    ensures IsPrefix(q, CutAt(t, c))
  {
    if c in t {
      var k := IndexOf(t, c);
      assert k >= |q|;
      assert t[..k][..|q|] == q;
      TrimEndKeeps(t[..k], q);
    }
  }

  /** A title made of a clean company name, " - " and anything else is
      cleaned to that name, unless it reads as a list title. */
  lemma TitleBeforeDash(n: string, rest: string)
    requires IsCleanName(n)
    ensures CleanTitle(n + " - " + rest) ==
      if IsListTitle(Strip(n + " - " + rest)) then None else Some(n)
  {
    var raw := n + " - " + rest;
    assert raw == n + [' ', '-', ' '] + rest;
    StripTitle(n, '-', rest);
    var t := Strip(raw);
    var w := if |n| > 0 then " " else "";
    var q := n + w + ['-'];
    assert q == if |n| > 0 then n + " " + ['-'] else ['-'];
    assert '|' !in q;
    CutKeepsPrefix(t, '|', q);
    var a := CutAt(t, '|');
    CutAtName(a, '-', n, w);
    CleanNameFixed(n);
  }

  /** How many results are looked at for company names. */
  const TitlesLooked: nat := 5

  /** The name one result contributes: none when it has no title or
      `clean` rejects the title, else the cleaned title. */
  function TitleName(t: Option<string>, clean: string -> Option<string>): seq<string> {
    if t.Some? && clean(t.value).Some? then [clean(t.value).value] else []
  }

  /** The names looked up for a sequence of result titles, in result
      order: results without a title and titles that `clean` rejects are
      skipped. */
  function NamesFrom(titles: seq<Option<string>>, clean: string -> Option<string>): seq<string>
    decreases |titles|
  {
    if |titles| == 0 then []
    else NamesFrom(titles[..|titles| - 1], clean) + TitleName(titles[|titles| - 1], clean)
  }

  /** The names of consecutive runs of results are concatenated in order. */
  lemma {:induction false} NamesFromAppend(a: seq<Option<string>>, b: seq<Option<string>>, clean: string -> Option<string>)
    ensures NamesFrom(a + b, clean) == NamesFrom(a, clean) + NamesFrom(b, clean)
    decreases |b|
  {
    if |b| == 0 {
      assert a + b == a;
    } else {
      var init := b[..|b| - 1];
      assert (a + b)[..|a + b| - 1] == a + init;
      NamesFromAppend(a, init, clean);
    }
  }

  /** A single result contributes its own name, if any. */
  lemma NamesFromOne(t: Option<string>, clean: string -> Option<string>)
    ensures NamesFrom([t], clean) == if t.Some? && clean(t.value).Some? then [clean(t.value).value] else []
  {
    assert [t][..0] == [];
  }

  /** The names the handler looks up: those of the first five results,
      cleaned by `CleanTitle`. */
  function CompanyNames(titles: seq<Option<string>>): seq<string> {
    NamesFrom(Take(titles, TitlesLooked), CleanTitle)
  }

  /** A name is produced exactly when some result has a title that cleans
      to it; never more names than results. */
  lemma {:induction false} NamesFromSpec(titles: seq<Option<string>>, clean: string -> Option<string>, n: string)
    ensures |NamesFrom(titles, clean)| <= |titles|
    ensures n in NamesFrom(titles, clean) <==>
      exists i :: 0 <= i < |titles| && titles[i].Some? && clean(titles[i].value) == Some(n)
    decreases |titles|
  {
    if |titles| > 0 {
      var init := titles[..|titles| - 1];
      NamesFromSpec(init, clean, n);
      if exists i :: 0 <= i < |init| && init[i].Some? && clean(init[i].value) == Some(n) {
        var i :| 0 <= i < |init| && init[i].Some? && clean(init[i].value) == Some(n);
        assert titles[i] == init[i];
      }
      if exists i :: 0 <= i < |titles| && titles[i].Some? && clean(titles[i].value) == Some(n) {
        var i :| 0 <= i < |titles| && titles[i].Some? && clean(titles[i].value) == Some(n);
        if i < |init| {
          assert init[i] == titles[i];
        }
      }
    }
  }

  /** Whether the `i`-th result has a title that cleans to `n`. */
  predicate CleansTo(titles: seq<Option<string>>, i: nat, n: string)
    requires i < |titles|
  {
    titles[i].Some? && CleanTitle(titles[i].value) == Some(n)
  }

  /** At most five names are looked up. */
  lemma CompanyNamesCount(titles: seq<Option<string>>)
    ensures |CompanyNames(titles)| <= TitlesLooked
  {
    NamesFromSpec(Take(titles, TitlesLooked), CleanTitle, "");
  }

  /** A name is looked up exactly when one of the first five results has a
      title that cleans to it. */
  lemma CompanyNamesSpec(titles: seq<Option<string>>, n: string)
    ensures n in CompanyNames(titles) <==>
      exists i :: 0 <= i < |titles| && i < TitlesLooked && CleansTo(titles, i, n)
  {
    if n in CompanyNames(titles) {
      var i := CompanyNameFound(titles, n);
    }
    if exists i :: 0 <= i < |titles| && i < TitlesLooked && CleansTo(titles, i, n) {
      var i :| 0 <= i < |titles| && i < TitlesLooked && CleansTo(titles, i, n);
      CompanyNameKept(titles, n, i);
    }
  }

  /** While fewer than five results are in, one more result appends its
      cleaned title, if any, at the end. */
  lemma CompanyNamesSnoc(titles: seq<Option<string>>, t: Option<string>)
    requires |titles| < TitlesLooked
    ensures CompanyNames(titles + [t]) ==
      CompanyNames(titles) + (if t.Some? && CleanTitle(t.value).Some? then [CleanTitle(t.value).value] else [])
  {
    var all := titles + [t];
    assert Take(all, TitlesLooked) == all;
    assert all[..|all| - 1] == titles;
  }

  /** Results after the fifth are never looked at. */
  lemma CompanyNamesIgnoresRest(titles: seq<Option<string>>, more: seq<Option<string>>)
    requires |titles| >= TitlesLooked
    ensures CompanyNames(titles + more) == CompanyNames(titles)
  {
    assert Take(titles + more, TitlesLooked) == Take(titles, TitlesLooked);
  }

  /** Every name looked up comes from one of the first five results. */
  lemma CompanyNameFound(titles: seq<Option<string>>, n: string) returns (i: nat)
    requires n in CompanyNames(titles)
    ensures i < |titles| && i < TitlesLooked && CleansTo(titles, i, n)
  {
    var first := Take(titles, TitlesLooked);
    NamesFromSpec(first, CleanTitle, n);
    i :| 0 <= i < |first| && first[i].Some? && CleanTitle(first[i].value) == Some(n);
    assert first[i] == titles[i];
  }

  /** The cleaned title of each of the first five results is looked up. */
  lemma CompanyNameKept(titles: seq<Option<string>>, n: string, i: nat)
    requires i < |titles| && i < TitlesLooked && CleansTo(titles, i, n)
    ensures n in CompanyNames(titles)
  {
    var first := Take(titles, TitlesLooked);
    assert first[i] == titles[i];
    NamesFromSpec(first, CleanTitle, n);
  }
}
