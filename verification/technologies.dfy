/** Technology detection on a company's home page: every technology of a
    fixed category table whose lower-case name occurs in the lower-cased page
    is reported under its category, and categories with no hit are dropped. */
module Technologies {
  import opened Options
  import opened Text
  import opened Seqs
  import opened Dicts

  /** Category name to technology names, in the order they are tried. */
  type Table = Dict<string, seq<string>>

  /** The built-in table. */
  const TechTable: Table := [
    ("Frontend", ["React", "Angular", "Vue.js", "Next.js", "Nuxt.js", "jQuery", "Bootstrap", "Tailwind"]),
    ("Backend", ["Node.js", "Python", "Java", "PHP", "Ruby", "Go", "Django", "Flask", "Spring", "Laravel"]),
    ("Database", ["MySQL", "PostgreSQL", "MongoDB", "Redis", "Elasticsearch", "Oracle", "SQL Server"]),
    ("Cloud", ["AWS", "Azure", "Google Cloud", "Heroku", "DigitalOcean", "Cloudflare"]),
    ("Analytics", ["Google Analytics", "Mixpanel", "Amplitude", "Segment", "Hotjar"])]

  /** A technology is detected when its lower-case name occurs in the
      lower-cased page. */
  predicate Detected(page: string, tech: string) {
    Contains(Lower(page), Lower(tech))
  }

  /** The detected technologies of one category, in table order. */
  function Hits(techs: seq<string>, page: string): (r: seq<string>)
    ensures IsSubseq(r, techs)
    ensures forall t :: t in r <==> t in techs && Detected(page, t)
    ensures forall t :: multiset(r)[t] == if Detected(page, t) then multiset(techs)[t] else 0
    decreases |techs|
  {
    if |techs| == 0 then []
    else
      var prev := Hits(techs[..|techs| - 1], page);
      var t := techs[|techs| - 1];
      assert techs == techs[..|techs| - 1] + [t];
      assert multiset(techs) == multiset(techs[..|techs| - 1]) + multiset{t};
      SubseqAppend(prev, techs[..|techs| - 1], t);
      if Detected(page, t) then prev + [t] else prev
  }

  /** Appending to the longer sequence keeps a subsequence, with or without
      appending to the shorter one as well. */
  lemma SubseqAppend<T>(a: seq<T>, b: seq<T>, x: T)
    requires IsSubseq(a, b)
    ensures IsSubseq(a, b + [x])
    ensures IsSubseq(a + [x], b + [x])
  {
    assert (b + [x])[..|b + [x]| - 1] == b;
    assert (a + [x])[..|a + [x]| - 1] == a;
  }

  /** `_extract_technologies`: each category with at least one detected
      technology, mapped to its hits, in table order. */
  function Extract(table: Table, page: string): Table
    decreases |table|
  {
    if |table| == 0 then []
    else
      var prev := Extract(table[..|table| - 1], page);
      var hits := Hits(table[|table| - 1].1, page);
      if hits != [] then prev + [(table[|table| - 1].0, hits)] else prev
  }

  /** A category is reported exactly when the table has it and one of its
      technologies is detected, and then it is reported with all its
      detected technologies in table order. */
  lemma {:induction false} ExtractGet(table: Table, page: string, k: string)
    requires Valid(table)
    ensures Get(Extract(table, page), k) ==
      if Get(table, k).Some? && Hits(Get(table, k).value, page) != [] then Some(Hits(Get(table, k).value, page))
      else None
    decreases |table|
  {
    if |table| > 0 {
      var init := table[..|table| - 1];
      var e := table[|table| - 1];
      assert table == init + [e];
      InitValid(table);
      ExtractGet(init, page, k);
      ExtractKeys(init, page, k);
      GetSnoc(init, e, k);
      var prev := Extract(init, page);
      var hits := Hits(e.1, page);
      if hits != [] {
        GetSnoc(prev, (e.0, hits), k);
      }
    }
  }

  /** Every reported category is a category of the table. */
  lemma {:induction false} ExtractKeys(table: Table, page: string, k: string)
    ensures k in Keys(Extract(table, page)) ==> k in Keys(table)
    decreases |table|
  {
    if |table| > 0 {
      var init := table[..|table| - 1];
      var e := table[|table| - 1];
      assert table == init + [e];
      KeysSnoc(init, e);
      ExtractKeys(init, page, k);
      var hits := Hits(e.1, page);
      if hits != [] {
        KeysSnoc(Extract(init, page), (e.0, hits));
      }
    }
  }

  /** Dropping the last entry keeps a dictionary valid. */
  lemma InitValid<K, V>(d: Dict<K, V>)
    requires |d| > 0 && Valid(d)
    ensures Valid(d[..|d| - 1])
  {
    var init := d[..|d| - 1];
    forall i, j | 0 <= i < j < |init| ensures init[i].0 != init[j].0 {
      assert init[i] == d[i] && init[j] == d[j];
    }
  }

  /** No category is reported with an empty list. */
  lemma {:induction false} ExtractNonEmpty(table: Table, page: string, i: nat)
    requires i < |Extract(table, page)|
    ensures Extract(table, page)[i].1 != []
    decreases |table|
  {
    var init := table[..|table| - 1];
    if i < |Extract(init, page)| {
      ExtractNonEmpty(init, page, i);
    }
  }

  /** A technology is reported under a category exactly when it is one of the
      category's technologies and is detected. */
  lemma ExtractedTech(table: Table, page: string, k: string, t: string)
    requires Valid(table)
    requires Get(Extract(table, page), k).Some?
    ensures Get(table, k).Some?
    ensures t in Get(Extract(table, page), k).value <==> t in Get(table, k).value && Detected(page, t)
    ensures IsSubseq(Get(Extract(table, page), k).value, Get(table, k).value)
  {
    ExtractGet(table, page, k);
  }

  /** The built-in table has five distinct categories. */
  lemma TechTableValid()
    ensures |TechTable| == 5
    ensures Keys(TechTable) == ["Frontend", "Backend", "Database", "Cloud", "Analytics"]
    ensures Valid(TechTable)
  {
    assert Keys(TechTable)[0] == "Frontend";
    assert Keys(TechTable)[1] == "Backend";
    assert Keys(TechTable)[2] == "Database";
    assert Keys(TechTable)[3] == "Cloud";
    assert Keys(TechTable)[4] == "Analytics";
  }

  /** `_extract_technologies`: detection with the built-in table. */
  function ExtractTechnologies(page: string): Table {
    Extract(TechTable, page)
  }

  /** With the built-in table, only its five categories can be reported,
      and each one is reported exactly when one of its technologies is
      found, with all its found technologies in table order. */
  lemma ExtractTechnologiesGet(page: string, k: string)
    ensures k !in ["Frontend", "Backend", "Database", "Cloud", "Analytics"] ==>
      Get(ExtractTechnologies(page), k) == None
    ensures Get(TechTable, k).Some? ==>
      Get(ExtractTechnologies(page), k) ==
        if Hits(Get(TechTable, k).value, page) != [] then Some(Hits(Get(TechTable, k).value, page)) else None
  {
    TechTableValid();
    ExtractGet(TechTable, page, k);
  }

  /** A blank page reports nothing. */
  lemma {:induction false} ExtractEmptyPage(table: Table)
    requires forall i :: 0 <= i < |table| ==> forall j :: 0 <= j < |table[i].1| ==> table[i].1[j] != []
    ensures Extract(table, "") == []
    decreases |table|
  {
    if |table| > 0 {
      var init := table[..|table| - 1];
      assert forall i :: 0 <= i < |init| ==> init[i] == table[i];
      ExtractEmptyPage(init);
      var techs := table[|table| - 1].1;
      forall t | t in techs ensures !Detected("", t) {
        NotContainsLonger(Lower(""), Lower(t));
      }
      HitsNone(techs, "");
    }
  }

  /** A category none of whose technologies is detected has no hits. */
  lemma {:induction false} HitsNone(techs: seq<string>, page: string)
    requires forall t :: t in techs ==> !Detected(page, t)
    ensures Hits(techs, page) == []
    decreases |techs|
  {
    if |techs| > 0 {
      var init := techs[..|techs| - 1];
      assert forall t :: t in init ==> t in techs;
      HitsNone(init, page);
    }
  }
}
