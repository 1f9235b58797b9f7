# Company lead scraper: a Dafny model of its pure core

The repository is a small company-research tool with two Flask servers.
`webscrapper/lead_scraper.py` is a demo server. It searches a fixed in-memory
table of companies, grouped by industry category, for a text query.
`webscrapper/scraper.py` is the real scraper. For each company name it queries
several web sources, fills one company record, and cleans that record before
returning it. The `/scrape` endpoint either looks up one named company or turns
a set of filters into a web search and looks up the companies named in the
first results.

This project models the parts of that code that are plain computation:

- the demo server's table and its search (module `LeadSearch`);
- record cleaning (module `Cleaning`):
  - contacts de-duplicated by their non-null fields;
  - social-profile domains folded to platform names, where the last URL wins;
  - the twelve required fields filled in with defaults;
- technology detection on a home page (module `Technologies`);
- the pure rules of the per-source lookups (module `Sources`):
  - the three URL slugs tried on Crunchbase and Bloomberg;
  - "the first pattern that matches wins" for size, industry and revenue;
  - how the first three search results become the website and the social
    profiles;
- the `/scrape` handler (module `ScrapeHandler`):
  - the filter-to-search-terms construction with its size map;
  - the choice between a direct lookup, a search and the 400 error;
  - the cleaning of result titles into company names.

Shared modules:

- `Options` holds `Option` and `Result`.
- `Text` models the string operations Python provides: lower-casing, `in`,
  `strip`, `replace`, `split` and `join`.
- `Seqs` holds subsequences and order-preserving de-duplication.
- `Dicts` models Python dictionaries as association lists in insertion order.

Choices made to stay close to the code:

- The contact de-duplication key is `json.dumps` of the contact's non-null
  fields with sorted keys. It is modelled as the map from field name to value
  (`Cleaning.Projection`): two such JSON strings are equal exactly when the
  maps are.
- `_clean_company_data` reads `data['contacts']` and `data['social_profiles']`
  before it fills in missing fields. A record without either key therefore
  raises `KeyError`, and the model returns that error (`Cleaning.CleanRecord`).
- Loops that build a list or dictionary left to right are defined by
  recursion on the last element, except the required-field loop
  (`Cleaning.FillFields`), which threads the record through the fields from
  the first. Each is paired with an independent characterisation proved for
  all inputs.
- HTTP requests, HTML parsing, URL parsing and the regular-expression engine
  are parameters of the model:
  - a search result is given as its link and the parsed network location;
  - a regex search is a function from (pattern, text) to the first group.

## Model

| member | source | states |
|---|---|---|
| LeadSearch.MatchingCompanies | webscrapper/lead_scraper.py:109-115 | the companies of a category that match, in table order; a company is kept exactly when the query occurs in its lower-cased name, description, industry or location, and then as often as the category lists it |
| LeadSearch.CandidatesIffQualifies | webscrapper/lead_scraper.py:104-115 | a company is collected exactly when its category name contains the query or the company itself matches |
| LeadSearch.Candidates | webscrapper/lead_scraper.py:104-115 | the collected companies keep table order: they form a subsequence of the whole table; LeadSearch.CandidatesAppend and LeadSearch.CandidatesOne fix the exact list, duplicates included |
| LeadSearch.CandidatesAppend | webscrapper/lead_scraper.py:104-115 | the companies collected from two runs of categories are those of the first run followed by those of the second |
| LeadSearch.CandidatesOne | webscrapper/lead_scraper.py:105-115 | one category contributes all its companies when its name matches, else its matching companies, repeats included |
| LeadSearch.SearchIn | webscrapper/lead_scraper.py:99-126 | the result is a subsequence of the collected companies and is exactly the first 10 with distinct names: no name twice, each the first collected company with its name, min(10, number of distinct names) of them, ordered by where their names first occur, and no name that first occurs earlier than a result's name is missing before that result |
| LeadSearch.SearchInDetermined | webscrapper/lead_scraper.py:117-126 | every list meeting that description is the search result, so the description fixes the result completely |
| LeadSearch.SearchCompanies | webscrapper/lead_scraper.py:99-126 | on the built-in table: the same description, the first 10 collected companies with distinct names in order |
| LeadSearch.ResultsQualify | webscrapper/lead_scraper.py:104-115 | every result matches the lower-cased query by category or by one of its four text fields |
| LeadSearch.ResultsInTableOrder | webscrapper/lead_scraper.py:104-124 | results appear in table order (a subsequence of all companies) |
| LeadSearch.MatchedCategoryIncluded | webscrapper/lead_scraper.py:105-107 | when the category name matches, every company of that category is collected, whatever its own fields say |
| LeadSearch.ShortResultIsComplete | webscrapper/lead_scraper.py:117-126 | when fewer than 10 results come back, every qualifying company is represented by a result with its name |
| LeadSearch.ResultSize | webscrapper/lead_scraper.py:117-126 | the result size is the number of distinct collected names, capped at 10 |
| LeadSearch.SearchIgnoresCase | webscrapper/lead_scraper.py:100 | the query is lower-cased first, so its letter case does not matter |
| LeadSearch.EmptyQueryCandidates | webscrapper/lead_scraper.py:104-115 | the empty query collects every company in table order |
| LeadSearch.EmptyQueryResult | webscrapper/lead_scraper.py:99-126 | the empty query gives the first 10 distinct-named companies of the table |
| LeadSearch.BuiltInCompanies | webscrapper/lead_scraper.py:9-97 | the built-in table holds 11 companies in five categories |
| LeadSearch.BuiltInNames | webscrapper/lead_scraper.py:9-97 | the 11 built-in companies' names, in table order |
| LeadSearch.BuiltInNamesUnique | webscrapper/lead_scraper.py:9-97 | no two built-in companies share a name |
| LeadSearch.BuiltInEmptyQuery | webscrapper/lead_scraper.py:99-126 | the empty query on the built-in table returns its first 10 companies |
| Seqs.Dedup | webscrapper/lead_scraper.py:117-124 | definition only, without a contract: keep an element when no earlier one has its key; Seqs.DedupSpec states what it computes |
| Seqs.DedupSpec | webscrapper/lead_scraper.py:117-124 | the de-duplication has no repeated key, keeps every key, is a subsequence of the input, and holds the first element with each key |
| Seqs.DedupOrdered | webscrapper/lead_scraper.py:117-124 | the kept elements appear in the order in which their keys first occur |
| Seqs.DedupOrderedAll | webscrapper/lead_scraper.py:117-124 | the same, for every pair of kept elements at once |
| Seqs.DedupScan | webscrapper/lead_scraper.py:117-124 | the loop with a set of seen keys computes exactly `Dedup`, and no key repeats in its result |
| Seqs.TakeDedupFirstDistinct | webscrapper/lead_scraper.py:117-126 | the first n de-duplicated elements are the first n with distinct keys, in first-occurrence order, with no earlier key skipped |
| Seqs.FirstDistinctUnique | webscrapper/lead_scraper.py:126 | two lists that are both the first n with distinct keys of the same input are equal |
| Cleaning.ProjectionInjective | webscrapper/scraper.py:379 | two contacts have the same key exactly when they are the same contact |
| Cleaning.UniqueContacts | webscrapper/scraper.py:374-384 | the kept contacts are pairwise distinct by key, each the first contact with its key, ordered by the first occurrence of their keys in the input |
| Cleaning.UniqueContactsDistinct | webscrapper/scraper.py:374-384 | no contact is kept twice |
| Cleaning.UniqueContactsKeepAll | webscrapper/scraper.py:374-384 | every input contact is still present after de-duplication |
| Cleaning.UniqueContactsIdempotent | webscrapper/scraper.py:374-384 | de-duplicating twice is the same as once |
| Cleaning.Platform | webscrapper/scraper.py:390 | definition only, without a contract: the first of linkedin, facebook, twitter the domain contains, else the domain; Cleaning.PlatformFirstMatch states it |
| Cleaning.PlatformFirstMatch | webscrapper/scraper.py:390 | a domain maps to the first of linkedin, facebook, twitter it contains, or to itself when it contains none |
| Cleaning.PlatformIdempotent | webscrapper/scraper.py:390 | mapping a platform name again changes nothing |
| Cleaning.NormaliseProfiles | webscrapper/scraper.py:387-392 | definition only, without a contract: each domain's URL stored under its platform, left to right; Cleaning.NormaliseProfilesSpec states what it computes |
| Cleaning.NormaliseProfilesSpec | webscrapper/scraper.py:387-392 | the cleaned profiles have no repeated key; the keys are the distinct platforms in order of first appearance; each holds the URL of the last domain with that platform |
| Cleaning.LastEntryWins | webscrapper/scraper.py:389-391 | the URL of a domain that no later domain shares a platform with is the one kept |
| Cleaning.NormalisedKeysComeFromInput | webscrapper/scraper.py:389-391 | every cleaned key is the platform of some input domain |
| Cleaning.NormalisedKeyIsFixed | webscrapper/scraper.py:390 | every cleaned key is its own platform |
| Cleaning.NormaliseFixed | webscrapper/scraper.py:387-392 | profiles already keyed by distinct platform names are left unchanged |
| Cleaning.NormaliseIdempotent | webscrapper/scraper.py:387-392 | cleaning the profiles twice is the same as once |
| Cleaning.FillFields | webscrapper/scraper.py:401-403 | definition only, without a contract: each listed field the record lacks gets its default, appended in list order; the FillFields lemmas below state it, and Cleaning.FillFieldsOrder states the order |
| Cleaning.FillRequired | webscrapper/scraper.py:394-403 | definition only, without a contract: FillFields with the twelve required fields; Cleaning.FillRequiredField states it |
| Cleaning.FillFieldsKeeps | webscrapper/scraper.py:401-403 | a field already present keeps its value |
| Cleaning.FillFieldsAdds | webscrapper/scraper.py:401-403 | a missing field of the list is added with its default |
| Cleaning.FillFieldsNoExtra | webscrapper/scraper.py:401-403 | no field outside the list is added |
| Cleaning.FillFieldsPrefix | webscrapper/scraper.py:401-403 | existing fields keep their order, and new ones come after them |
| Cleaning.FillFieldsValid | webscrapper/scraper.py:401-403 | filling adds no field twice |
| Cleaning.FillFieldsComplete | webscrapper/scraper.py:401-403 | a record that has every listed field is unchanged |
| Cleaning.FillFieldsOrder | webscrapper/scraper.py:401-403 | for a list without repeats, the keys afterwards are the old keys followed by exactly the listed fields that were missing, each once and in list order |
| Cleaning.FillRequiredField | webscrapper/scraper.py:394-403 | all twelve required fields are present afterwards; a missing one is `[]` for contacts and technologies and None otherwise; present fields and other fields are untouched |
| Cleaning.FillRequiredOrder | webscrapper/scraper.py:394-403 | the keys afterwards are the old keys followed by the missing required fields in the order the source lists them |
| Cleaning.CleanContactsField | webscrapper/scraper.py:374-384 | KeyError exactly when the record has no contacts; otherwise the same keys |
| Cleaning.ContactsStepGet | webscrapper/scraper.py:374-384 | after the contact step, a non-empty contact list is replaced by its de-duplication and every other field reads as before |
| Cleaning.ContactsStepOthers | webscrapper/scraper.py:374-384 | the contact step changes no other field |
| Cleaning.CleanProfilesField | webscrapper/scraper.py:387-392 | KeyError exactly when the record has no social_profiles; otherwise the same keys |
| Cleaning.ProfilesStepGet | webscrapper/scraper.py:387-392 | after the profile step, a non-empty profile dictionary is replaced by its normalisation and every other field reads as before |
| Cleaning.ProfilesStepOthers | webscrapper/scraper.py:387-392 | the profile step changes no other field |
| Cleaning.CleanRecord | webscrapper/scraper.py:372-403 | succeeds exactly when both contacts and social_profiles are present; otherwise the KeyError names the first one missing |
| Cleaning.CleanedFields | webscrapper/scraper.py:372-403 | after cleaning: every required field is present; other present fields are unchanged; no unknown field appears |
| Cleaning.CleanedContacts | webscrapper/scraper.py:374-384 | the cleaned contacts are the de-duplicated input contacts |
| Cleaning.CleanedProfiles | webscrapper/scraper.py:387-392 | the cleaned profiles are the platform-normalised input profiles |
| Cleaning.StepsValid | webscrapper/scraper.py:374-392 | the cleaning steps keep the record free of repeated keys |
| Cleaning.CleanIdempotent | webscrapper/scraper.py:372-403 | cleaning a cleaned record gives the same record |
| Technologies.Hits | webscrapper/scraper.py:365-368 | a technology of a category is reported exactly when its lower-cased name occurs in the lower-cased page, in table order, and as often as the category lists it |
| Technologies.Extract | webscrapper/scraper.py:362-370 | definition only, without a contract: each category with hits, with its hits, in table order; Technologies.ExtractGet states it |
| Technologies.ExtractGet | webscrapper/scraper.py:362-370 | a category is reported exactly when one of its technologies is found, and then with exactly its found technologies |
| Technologies.ExtractKeys | webscrapper/scraper.py:370 | every reported category is a table category |
| Technologies.ExtractNonEmpty | webscrapper/scraper.py:370 | no category is reported with an empty list |
| Technologies.ExtractedTech | webscrapper/scraper.py:362-370 | a technology is reported under a category exactly when it belongs to it and is found; reports keep table order |
| Technologies.TechTableValid | webscrapper/scraper.py:339-360 | the table has the five categories Frontend, Backend, Database, Cloud, Analytics, each once |
| Technologies.ExtractEmptyPage | webscrapper/scraper.py:362-370 | an empty page reports no category |
| Technologies.ExtractTechnologies | webscrapper/scraper.py:338-370 | definition only, without a contract: detection with the built-in table; Technologies.ExtractTechnologiesGet states it |
| Technologies.ExtractTechnologiesGet | webscrapper/scraper.py:338-370 | with the built-in table only its five categories can be reported, each exactly when one of its technologies is found and then with all its found technologies in table order |
| Sources.Slugs | webscrapper/scraper.py:195-199 | three slug candidates, none containing a space |
| Sources.SlugsShape | webscrapper/scraper.py:229-233 | the slugs are lower-case; in the first and third exactly the spaces become "-" and "_"; the second deletes them |
| Sources.SlugsRoundTrip | webscrapper/scraper.py:195-199 | a name without "-" (or "_") is recovered, lower-cased, from the first (or third) slug |
| Sources.FirstSome | webscrapper/scraper.py:201-219 | trying candidates in order gives nothing exactly when every candidate fails, and otherwise a candidate's own result |
| Sources.FirstSomeWitness | webscrapper/scraper.py:201-219 | the result comes from a candidate all of whose predecessors failed |
| Sources.FirstSomeAt | webscrapper/scraper.py:155-159 | the first candidate that succeeds decides the result |
| Sources.FoundSlug | webscrapper/scraper.py:235-253 | the chosen slug is one of the three and its page was found; no slug is chosen exactly when none was found |
| Sources.SizeFrom | webscrapper/scraper.py:149-159 | a size is found exactly when one of the three size patterns matches |
| Sources.SizeFirstMatch | webscrapper/scraper.py:155-159 | the first size pattern that matches gives the size |
| Sources.IndustryCandidate | webscrapper/scraper.py:171-173 | a pattern's candidate is a group with no whitespace at either end and longer than five characters |
| Sources.IndustryFrom | webscrapper/scraper.py:169-175 | a found industry has no whitespace at either end and is longer than five characters; none is found exactly when no pattern gives a stripped group longer than five characters |
| Sources.IndustrySkipsShort | webscrapper/scraper.py:169-175 | a match of five characters or fewer does not stop the search; the first long enough one decides |
| Sources.RevenueFrom | webscrapper/scraper.py:178-187 | a revenue is found exactly when a revenue pattern matches, and it starts with "$" |
| Sources.RevenueFirstMatch | webscrapper/scraper.py:183-187 | the first revenue pattern that matches gives the revenue, prefixed by "$" |
| Sources.Step | webscrapper/scraper.py:125-139 | definition only, without a contract: one pass of the loop body; Sources.ScanWebsite and Sources.ScanProfiles state the loop's effect |
| Sources.Scan | webscrapper/scraper.py:124-139 | definition only, without a contract: the loop body over the results, left to right; Sources.ScanWebsite and Sources.ScanProfiles state it |
| Sources.SelectLinks | webscrapper/scraper.py:124-139 | over the first three results: a website already set stays, otherwise the first non-social http link among them becomes it |
| Sources.SelectLinksProfiles | webscrapper/scraper.py:124-136 | each domain holds the URL of the last social result among the first three with that domain, or what it held before |
| Sources.SelectLinksIgnoresRest | webscrapper/scraper.py:124 | results after the third change nothing |
| Sources.ScanWebsite | webscrapper/scraper.py:124-139 | a website already set is kept; an unset one becomes the first http link whose domain is not social |
| Sources.ScanProfiles | webscrapper/scraper.py:133-136 | each social domain holds the URL of its last result; other domains keep what they had |
| Sources.ScanProfileKeys | webscrapper/scraper.py:133-136 | every profile the loop adds is under a social domain |
| Sources.WebsiteNotSocial | webscrapper/scraper.py:133-139 | the website the loop sets is the link of a non-social http result |
| Sources.SocialDomainPlatform | webscrapper/scraper.py:134 | every domain the loop files as social is folded by cleaning to linkedin, facebook or twitter |
| ScrapeHandler.SizePhrase | webscrapper/scraper.py:569-579 | a size has a phrase exactly when it is one of the six choices |
| ScrapeHandler.SizePhrases | webscrapper/scraper.py:570-577 | the phrase of each of the six size choices |
| ScrapeHandler.SearchTerms | webscrapper/scraper.py:561-582 | no terms exactly when industry, location and keywords are all empty and the size is not one of the six choices; ScrapeHandler.SearchTermsCount and the four position lemmas below fix the whole list |
| ScrapeHandler.IndustryTermFirst | webscrapper/scraper.py:563-564 | a given industry gives the first term, "<industry> companies" |
| ScrapeHandler.LocationTermNext | webscrapper/scraper.py:566-567 | a given location gives "in <location>", right after the industry term if any |
| ScrapeHandler.SizeTermNext | webscrapper/scraper.py:569-579 | a known size gives "<phrase> companies", after the industry and location terms |
| ScrapeHandler.KeywordsRoundTrip | webscrapper/scraper.py:581-582 | the last terms are exactly the comma-separated keyword pieces, and joining them with commas gives back the keywords |
| ScrapeHandler.SearchTermsCount | webscrapper/scraper.py:561-582 | one term each for a given industry, a given location and a known size, plus one per keyword piece, and no other term |
| ScrapeHandler.PlanFor | webscrapper/scraper.py:549-590 | a given company name is looked up directly; otherwise the plan is a search for the search terms joined with single spaces exactly when there are terms; the error is status 400 with its fixed message |
| ScrapeHandler.BadRequestIff | webscrapper/scraper.py:554-586 | the 400 error happens exactly when there is no company name, no industry, no location, no keywords and no known size |
| ScrapeHandler.UnknownSizeAlone | webscrapper/scraper.py:569-586 | a size that is not one of the six choices, alone, gives the 400 error |
| ScrapeHandler.QueryStartsWithFirstTerm | webscrapper/scraper.py:590 | the search query starts with the first term |
| ScrapeHandler.CutAt | webscrapper/scraper.py:607-608 | the cut keeps a prefix with no "\|" (or "-"); a title without it is unchanged; otherwise exactly the whitespace right before the first "\|" goes with everything after it: the kept part ends in a non-space and only whitespace lies between it and the first "\|" |
| ScrapeHandler.DropWord | webscrapper/scraper.py:609-610 | the result is a prefix, unchanged unless the title ends in "inc"/"llc" (with or without a dot, in any case); otherwise exactly that word, its dot and the whitespace before it go: the kept part ends in a non-space and only whitespace lies between it and the word |
| ScrapeHandler.CleanTitle | webscrapper/scraper.py:601-611 | definition only, without a contract: None for a list title, else the stripped title with the four cuts applied and stripped; the lemmas below state it |
| ScrapeHandler.CleanTitleSkips | webscrapper/scraper.py:601-604 | a title is skipped exactly when its lower-cased, stripped text contains "list of", "top 10" or "best" |
| ScrapeHandler.CleanTitleShape | webscrapper/scraper.py:601-611 | a cleaned name has no "\|" or "-" and no surrounding whitespace, and is a prefix of the stripped title |
| ScrapeHandler.CleanNameKept | webscrapper/scraper.py:601-611 | a title that is already a clean name comes back unchanged |
| ScrapeHandler.TitleBeforeBar | webscrapper/scraper.py:601-611 | a clean name followed by " \| " and anything cleans back to that name, unless the title reads as a list |
| ScrapeHandler.TitleBeforeDash | webscrapper/scraper.py:601-611 | a clean name followed by " - " and anything cleans back to that name, unless the title reads as a list |
| ScrapeHandler.CompanyNames | webscrapper/scraper.py:596-614 | definition only, without a contract: NamesFrom over the first five results with CleanTitle; ScrapeHandler.CompanyNamesSnoc and ScrapeHandler.CompanyNamesIgnoresRest state the sequence (order and multiplicity), ScrapeHandler.CompanyNamesSpec the membership |
| ScrapeHandler.NamesFromSpec | webscrapper/scraper.py:596-614 | a name is looked up exactly when some result's title cleans to it, and never more names than results |
| ScrapeHandler.NamesFromAppend | webscrapper/scraper.py:596-614 | the names of two consecutive runs of results are the names of the first run followed by those of the second |
| ScrapeHandler.NamesFromOne | webscrapper/scraper.py:597-614 | one result gives its cleaned title once, or nothing when it has no title or the title is rejected |
| ScrapeHandler.CompanyNamesCount | webscrapper/scraper.py:596 | at most five names are looked up |
| ScrapeHandler.CompanyNamesSpec | webscrapper/scraper.py:596-614 | a name is looked up exactly when one of the first five results has a title that cleans to it |
| ScrapeHandler.CompanyNamesSnoc | webscrapper/scraper.py:596-614 | while fewer than five results are in, one more result appends its cleaned title, if any, at the end of the names |
| ScrapeHandler.CompanyNamesIgnoresRest | webscrapper/scraper.py:596 | results after the fifth change nothing |

## Left out

- HTTP requests, headers and the `cloudscraper` session are not modelled. Neither is BeautifulSoup parsing or `urlparse`. Parsed values enter the model as parameters.
- The regular-expression engine is not modelled. `Sources.SizeFrom`, `Sources.IndustryFrom` and `Sources.RevenueFrom` take the search as a function argument. The pattern texts are kept as constants.
- The thread pool that runs the sources of `search_company` in parallel is not modelled, nor the order in which their results land in the record. Each source's pure rule is modelled separately.
- The parsing of the knowledge panel is not modelled. It splits texts on "founded:" and similar labels.
- Phone and e-mail extraction are not modelled, nor the social-media search and the other sources' page scraping. Each is HTML parsing plus a regex engine.
- CSV export, timestamps, logging, the Flask routes other than the `/scrape` decisions, and the React Native app are not modelled.
- The 404 "Company not found" and 500 error responses are not modelled. They depend on the network lookup and on exceptions.
- Text.Lower: lower-cases ASCII letters only, where Python's `str.lower` also maps other Unicode letters.
- Cleaning.CleanRecord: requires `WellShaped`, meaning the contacts field is a list of contacts and the profiles field a dictionary of URLs whenever they are truthy. The code builds them that way. Other truthy values are not modelled: some make the source fail (a string has no `.items()`), and a profiles dictionary with values other than URLs would be normalised like one of URLs.
- Cleaning.FillRequiredField: the defaults for contacts (`[]`) and social_profiles (None) are never used after a successful clean. The KeyError comes first.
- ScrapeHandler.CleanTitle: treats every title as a single line. With a line break inside a title, Python's `.` and `$` would stop the cuts earlier. Its `(?i)` matching is ASCII-only, like `Text.Lower`.
- ScrapeHandler.PlanFor: filter values are modelled as optional strings. Filter values of other JSON types are not modelled. Nor is the search URL built from the query: it is URL-quoted and followed by "+companies", which is plain encoding.
