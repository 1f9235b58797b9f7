/** The demo server's in-memory company search: a fixed table of industry
    categories, each holding company records, searched by a text query. */
module LeadSearch {
  import opened Text
  import opened Seqs

  /** One company record of the table. */
  datatype Company = Company(
    name: string,
    description: string,
    industry: string,
    website: string,
    location: string)

  /** A category name and its companies, in table order. */
  datatype Category = Category(name: string, companies: seq<Company>)

  /** The search returns at most this many companies. */
  const MaxResults: nat := 10

  /** The de-duplication key of a company. */
  function NameOf(c: Company): string {
    c.name
  }

  /** The built-in table, categories in insertion order. */
  function CompaniesDb(): seq<Category> {
    [ Category("technology", [
        Company("Google", "Search engine and technology company", "Technology",
                "google.com", "Mountain View, California"),
        Company("Microsoft", "Software and cloud computing company", "Technology",
                "microsoft.com", "Redmond, Washington"),
        Company("Apple", "Consumer electronics and software company", "Technology",
                "apple.com", "Cupertino, California")]),
      Category("automotive", [
        Company("Tesla", "Electric vehicle and clean energy company", "Automotive",
                "tesla.com", "Austin, Texas"),
        Company("Ford", "Automobile manufacturer", "Automotive",
                "ford.com", "Dearborn, Michigan")]),
      Category("retail", [
        Company("Amazon", "E-commerce and technology company", "Retail",
                "amazon.com", "Seattle, Washington"),
        Company("Walmart", "Retail corporation", "Retail",
                "walmart.com", "Bentonville, Arkansas")]),
      Category("finance", [
        Company("JPMorgan Chase", "Banking and financial services", "Finance",
                "jpmorganchase.com", "New York City, New York"),
        Company("Goldman Sachs", "Investment banking and securities", "Finance",
                "goldmansachs.com", "New York City, New York")]),
      Category("healthcare", [
        Company("Johnson & Johnson", "Healthcare and pharmaceutical company", "Healthcare",
                "jnj.com", "New Brunswick, New Jersey"),
        Company("UnitedHealth Group", "Healthcare and insurance company", "Healthcare",
                "unitedhealthgroup.com", "Minnetonka, Minnesota")])
    ]
  }

  /** The lower-cased query `q` occurs in the company's lower-cased name,
      description, industry or location (its website is not searched). */
  predicate CompanyMatches(c: Company, q: string) {
    || Contains(Lower(c.name), q)
    || Contains(Lower(c.description), q)
    || Contains(Lower(c.industry), q)
    || Contains(Lower(c.location), q)
  }

  /** The lower-cased query occurs in the category's lower-cased name. */
  predicate CategoryMatches(cat: Category, q: string) {
    Contains(Lower(cat.name), q)
  }

  /** Why a company may appear in a result: some category of the table holds
      it and either that category's name or the company itself matches. */
  ghost predicate Qualifies(db: seq<Category>, q: string, c: Company) {
    exists k :: 0 <= k < |db| && c in db[k].companies && (CategoryMatches(db[k], q) || CompanyMatches(c, q))
  }

  /** The companies of `cs` that match `q`, in order. */
  function MatchingCompanies(cs: seq<Company>, q: string): (r: seq<Company>)
    ensures IsSubseq(r, cs)
    ensures forall c :: c in r <==> c in cs && CompanyMatches(c, q)
    ensures forall c :: multiset(r)[c] == if CompanyMatches(c, q) then multiset(cs)[c] else 0
    decreases |cs|
  {
    if |cs| == 0 then []
    else
      var init := cs[..|cs| - 1];
      var last := cs[|cs| - 1];
      assert cs == init + [last];
      if CompanyMatches(last, q) then MatchingCompanies(init, q) + [last]
      else MatchingCompanies(init, q)
  }

  /** What one category contributes: all its companies when its name matches,
      otherwise those companies that match on their own. */
  function CategoryHits(cat: Category, q: string): seq<Company> {
    if CategoryMatches(cat, q) then cat.companies else MatchingCompanies(cat.companies, q)
  }

  /** Every company of the table, in table order. */
  function AllCompanies(db: seq<Category>): seq<Company>
    decreases |db|
  {
    if |db| == 0 then [] else AllCompanies(db[..|db| - 1]) + db[|db| - 1].companies
  }

  /** The result list before de-duplication: each category's hits in table
      order, duplicates included. */
  function Candidates(db: seq<Category>, q: string): (r: seq<Company>)
    ensures IsSubseq(r, AllCompanies(db))
    decreases |db|
  {
    if |db| == 0 then []
    else
      var prev := Candidates(db[..|db| - 1], q);
      var hits := CategoryHits(db[|db| - 1], q);
      HitsAreSubseq(db[|db| - 1], q);
      SubseqConcat(prev, AllCompanies(db[..|db| - 1]), hits, db[|db| - 1].companies);
      prev + hits
  }

  /** The candidates of two runs of categories are those of the first run
      followed by those of the second. */
  lemma {:induction false} CandidatesAppend(db1: seq<Category>, db2: seq<Category>, q: string)
    ensures Candidates(db1 + db2, q) == Candidates(db1, q) + Candidates(db2, q)
    decreases |db2|
  {
    if |db2| == 0 {
      assert db1 + db2 == db1;
    } else {
      var init := db2[..|db2| - 1];
      CandidatesAppend(db1, init, q);
      CandidatesAppendStep(db1, db2, q);
    }
  }

  /** Proof helper: the step of `CandidatesAppend` from all but the last
      category of `db2` to all of it. */
  lemma CandidatesAppendStep(db1: seq<Category>, db2: seq<Category>, q: string)
    requires |db2| > 0
    requires Candidates(db1 + db2[..|db2| - 1], q) == Candidates(db1, q) + Candidates(db2[..|db2| - 1], q)
    ensures Candidates(db1 + db2, q) == Candidates(db1, q) + Candidates(db2, q)
  {
    var init, cat := db2[..|db2| - 1], db2[|db2| - 1];
    SplitLast(db1, db2);
    CandidatesSnoc(db1 + init, cat, q);
    CandidatesSnoc(init, cat, q);
    ConcatAssoc(Candidates(db1, q), Candidates(init, q), CategoryHits(cat, q));
  }

  /** Proof helper: the last element of a non-empty `b` split off, alone
      and after `a`. */
  lemma SplitLast<T>(a: seq<T>, b: seq<T>)
    requires |b| > 0
    ensures b == b[..|b| - 1] + [b[|b| - 1]]
    ensures a + b == (a + b[..|b| - 1]) + [b[|b| - 1]]
  {
  }

  /** Proof helper: concatenation is associative. */
  lemma ConcatAssoc<T>(a: seq<T>, b: seq<T>, c: seq<T>)
    ensures (a + b) + c == a + (b + c)
  {
  }

  /** Proof helper: one more category appends its hits. */
  lemma CandidatesSnoc(db: seq<Category>, cat: Category, q: string)
    ensures Candidates(db + [cat], q) == Candidates(db, q) + CategoryHits(cat, q)
  {
    assert (db + [cat])[..|db|] == db;
  }

  /** A single category contributes exactly its hits, repeats included. */
  lemma CandidatesOne(cat: Category, q: string)
    ensures Candidates([cat], q) == CategoryHits(cat, q)
  {
    assert [cat][..0] == [];
  }

  /** A category's hits keep the category's order. */
  lemma HitsAreSubseq(cat: Category, q: string)
    ensures IsSubseq(CategoryHits(cat, q), cat.companies)
  {
    if CategoryMatches(cat, q) {
      SubseqReflexive(cat.companies);
    }
  }

  /** Subsequences of two parts give a subsequence of the whole. */
  lemma {:induction false} SubseqConcat<T>(a: seq<T>, b: seq<T>, c: seq<T>, d: seq<T>)
    requires IsSubseq(a, b) && IsSubseq(c, d)
    ensures IsSubseq(a + c, b + d)
    decreases |d|
  {
    if |c| == 0 {
      assert a + c == a;
      SubseqAppendRight(a, b, d);
    } else {
      var d' := d[..|d| - 1];
      assert (b + d)[..|b + d| - 1] == b + d';
      if c[|c| - 1] == d[|d| - 1] && IsSubseq(c[..|c| - 1], d') {
        SubseqConcat(a, b, c[..|c| - 1], d');
        assert (a + c)[..|a + c| - 1] == a + c[..|c| - 1];
      } else {
        SubseqConcat(a, b, c, d');
      }
    }
  }

  /** Appending elements on the right keeps a subsequence. */
  lemma {:induction false} SubseqAppendRight<T>(a: seq<T>, b: seq<T>, d: seq<T>)
    requires IsSubseq(a, b)
    ensures IsSubseq(a, b + d)
    decreases |d|
  {
    if |d| == 0 {
      assert b + d == b;
    } else {
      SubseqAppendRight(a, b, d[..|d| - 1]);
      assert (b + d)[..|b + d| - 1] == b + d[..|d| - 1];
    }
  }

  /** A company is a candidate exactly when it qualifies. */
  lemma {:induction false} CandidatesIffQualifies(db: seq<Category>, q: string, c: Company)
    ensures c in Candidates(db, q) <==> Qualifies(db, q, c)
    decreases |db|
  {
    if |db| > 0 {
      var init := db[..|db| - 1];
      var last := db[|db| - 1];
      CandidatesIffQualifies(init, q, c);
      if c in Candidates(init, q) {
        var k :| 0 <= k < |init| && c in init[k].companies
          && (CategoryMatches(init[k], q) || CompanyMatches(c, q));
        assert db[k] == init[k];
      } else if c in CategoryHits(last, q) {
        assert db[|db| - 1] == last;
      }
      if Qualifies(db, q, c) {
        var k :| 0 <= k < |db| && c in db[k].companies
          && (CategoryMatches(db[k], q) || CompanyMatches(c, q));
        if k < |db| - 1 {
          assert init[k] == db[k];
        }
      }
    }
  }

  /** `search_companies(query)` over a table `db`: the first ten candidates
      with distinct names, in candidate order. */
  function SearchIn(db: seq<Category>, query: string): (r: seq<Company>)
    ensures |r| <= MaxResults
    ensures UniqueBy(r, NameOf)
    ensures AreFirstOccurrences(r, Candidates(db, Lower(query)), NameOf)
    ensures IsSubseq(r, Candidates(db, Lower(query)))
    ensures FirstDistinct(r, Candidates(db, Lower(query)), NameOf, MaxResults)
  {
    var cands := Candidates(db, Lower(query));
    var unique := Dedup(cands, NameOf);
    DedupSpec(cands, NameOf);
    var r := Take(unique, MaxResults);
    TakeKeepsProperties(unique, cands, MaxResults);
    PrefixIsSubseq(unique, |r|);
    SubseqTransitive(r, unique, cands);
    TakeDedupFirstDistinct(cands, NameOf, MaxResults);
    r
  }

  /** The search result is the only list of companies that holds the first
      ten candidates with distinct names in candidate order. */
  lemma SearchInDetermined(db: seq<Category>, query: string, r: seq<Company>)
    requires FirstDistinct(r, Candidates(db, Lower(query)), NameOf, MaxResults)
    ensures r == SearchIn(db, query)
  {
    FirstDistinctUnique(r, SearchIn(db, query), Candidates(db, Lower(query)), NameOf, MaxResults);
  }

  /** A prefix keeps uniqueness and first occurrences. */
  lemma TakeKeepsProperties(unique: seq<Company>, xs: seq<Company>, n: nat)
    requires UniqueBy(unique, NameOf)
    requires AreFirstOccurrences(unique, xs, NameOf)
    ensures UniqueBy(Take(unique, n), NameOf)
    ensures AreFirstOccurrences(Take(unique, n), xs, NameOf)
  {
    var r := Take(unique, n);
    forall i | 0 <= i < |r| ensures r[i] == unique[i] {
    }
  }

  /** `search_companies(query)` over the built-in table. */
  function SearchCompanies(query: string): (r: seq<Company>)
    ensures |r| <= MaxResults
    ensures UniqueBy(r, NameOf)
    ensures IsSubseq(r, Candidates(CompaniesDb(), Lower(query)))
    ensures FirstDistinct(r, Candidates(CompaniesDb(), Lower(query)), NameOf, MaxResults)
  {
    SearchIn(CompaniesDb(), query)
  }

  /** Every returned company qualifies: its category's name or its own
      fields contain the lower-cased query. */
  lemma ResultsQualify(db: seq<Category>, query: string)
    ensures forall c :: c in SearchIn(db, query) ==> Qualifies(db, Lower(query), c)
  {
    var cands := Candidates(db, Lower(query));
    var unique := Dedup(cands, NameOf);
    DedupSpec(cands, NameOf);
    forall c | c in SearchIn(db, query) ensures Qualifies(db, Lower(query), c) {
      SubseqMembers(unique, cands);
      PrefixIsSubseq(unique, |SearchIn(db, query)|);
      SubseqMembers(SearchIn(db, query), unique);
      CandidatesIffQualifies(db, Lower(query), c);
    }
  }

  /** Returned companies keep table order: the result is a subsequence of
      the whole table. */
  lemma ResultsInTableOrder(db: seq<Category>, query: string)
    ensures IsSubseq(SearchIn(db, query), AllCompanies(db))
  {
    var cands := Candidates(db, Lower(query));
    var unique := Dedup(cands, NameOf);
    DedupSpec(cands, NameOf);
    PrefixIsSubseq(unique, |SearchIn(db, query)|);
    SubseqTransitive(SearchIn(db, query), unique, cands);
    SubseqTransitive(SearchIn(db, query), cands, AllCompanies(db));
  }

  /** When a category's name matches, all of its companies become
      candidates, before de-duplication and truncation. */
  lemma MatchedCategoryIncluded(db: seq<Category>, query: string, k: nat)
    requires k < |db| && CategoryMatches(db[k], Lower(query))
    ensures forall c :: c in db[k].companies ==> c in Candidates(db, Lower(query))
  {
    forall c | c in db[k].companies ensures c in Candidates(db, Lower(query)) {
      CandidatesIffQualifies(db, Lower(query), c);
    }
  }

  /** Nothing is lost except by the limit: when fewer than `MaxResults`
      companies come back, every qualifying company's name is among them. */
  lemma ShortResultIsComplete(db: seq<Category>, query: string, c: Company)
    requires |SearchIn(db, query)| < MaxResults
    requires Qualifies(db, Lower(query), c)
    ensures exists i :: 0 <= i < |SearchIn(db, query)| && SearchIn(db, query)[i].name == c.name
  {
    var cands := Candidates(db, Lower(query));
    var unique := Dedup(cands, NameOf);
    DedupSpec(cands, NameOf);
    CandidatesIffQualifies(db, Lower(query), c);
    var j :| 0 <= j < |cands| && cands[j] == c;
    KeySetMember(cands, NameOf, c.name);
    KeySetMember(unique, NameOf, c.name);
    var i :| 0 <= i < |unique| && NameOf(unique[i]) == c.name;
    assert SearchIn(db, query) == unique;
    assert SearchIn(db, query)[i].name == c.name;
  }

  /** The result holds one company per distinct candidate name, up to the
      limit. */
  lemma ResultSize(db: seq<Category>, query: string)
    ensures |SearchIn(db, query)| == Min(MaxResults, |KeySet(Candidates(db, Lower(query)), NameOf)|)
  {
    DedupLength(Candidates(db, Lower(query)), NameOf);
  }

  /** Matching ignores case: a query gives the same result as its
      lower-cased form. */
  lemma SearchIgnoresCase(db: seq<Category>, query: string)
    ensures SearchIn(db, query) == SearchIn(db, Lower(query))
  {
    LowerIdempotent(query);
  }

  /** The empty query matches every category name, so every company of the
      table is a candidate, in table order. */
  lemma {:induction false} EmptyQueryCandidates(db: seq<Category>)
    ensures Candidates(db, "") == AllCompanies(db)
    decreases |db|
  {
    if |db| > 0 {
      EmptyQueryCandidates(db[..|db| - 1]);
      ContainsEmpty(Lower(db[|db| - 1].name));
    }
  }

  /** The empty query returns the first `MaxResults` companies of the table
      with distinct names. */
  lemma EmptyQueryResult(db: seq<Category>)
    ensures SearchIn(db, "") == Take(Dedup(AllCompanies(db), NameOf), MaxResults)
  {
    assert Lower("") == "";
    EmptyQueryCandidates(db);
  }

  /** The built-in table, flattened: eleven companies in category order. */
  lemma BuiltInCompanies()
    ensures AllCompanies(CompaniesDb()) == CompaniesDb()[0].companies + CompaniesDb()[1].companies
      + CompaniesDb()[2].companies + CompaniesDb()[3].companies + CompaniesDb()[4].companies
    ensures |AllCompanies(CompaniesDb())| == 11
  {
    var db := CompaniesDb();
    assert db[..0] == [];
    assert db[..1][..0] == db[..0];
    assert db[..2][..1] == db[..1];
    assert db[..3][..2] == db[..2];
    assert db[..4][..3] == db[..3];
    assert db[..5][..4] == db[..4];
    assert db[..5] == db;
    assert AllCompanies(db[..1]) == db[0].companies;
    assert AllCompanies(db[..2]) == db[0].companies + db[1].companies;
    assert AllCompanies(db[..3]) == db[0].companies + db[1].companies + db[2].companies;
    assert AllCompanies(db[..4]) == db[0].companies + db[1].companies + db[2].companies + db[3].companies;
  }

  /** The names of the built-in table, in order. */
  lemma BuiltInNames()
    ensures |AllCompanies(CompaniesDb())| == 11
    ensures forall i :: 0 <= i < 11 ==> NameOf(AllCompanies(CompaniesDb())[i]) == BuiltInNameList()[i]
  {
    BuiltInCompanies();
  }

  /** The names of the built-in table as listed in it. */
  function BuiltInNameList(): seq<string> {
    ["Google", "Microsoft", "Apple", "Tesla", "Ford", "Amazon", "Walmart",
     "JPMorgan Chase", "Goldman Sachs", "Johnson & Johnson", "UnitedHealth Group"]
  }

  /** No two companies of the built-in table share a name. */
  lemma BuiltInNamesUnique()
    ensures UniqueBy(AllCompanies(CompaniesDb()), NameOf)
  {
    BuiltInNames();
    var names := BuiltInNameList();
    // The first letter and the length already tell the names apart.
    forall i, j | 0 <= i < j < 11 ensures names[i] != names[j] {
      assert |names[i]| != |names[j]| || names[i][0] != names[j][0];
    }
  }

  /** On the built-in table the empty query returns its first ten companies,
      Google through Johnson & Johnson; UnitedHealth Group is cut off. */
  lemma BuiltInEmptyQuery()
    ensures |AllCompanies(CompaniesDb())| == 11
    ensures SearchCompanies("") == AllCompanies(CompaniesDb())[..MaxResults]
  {
    BuiltInCompanies();
    BuiltInNamesUnique();
    EmptyQueryResult(CompaniesDb());
    DedupOfUnique(AllCompanies(CompaniesDb()), NameOf);
  }
}
