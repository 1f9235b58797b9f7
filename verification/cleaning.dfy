/** Post-processing of an assembled company record: duplicate contacts are
    dropped, social-profile keys are normalised to platform names, and every
    required field is given at least an empty value. */
module Cleaning {
  import opened Options
  import opened Text
  import opened Seqs
  import opened Dicts

  /** A contact as the contact extraction builds it: the four fields, each
      possibly `None`. */
  datatype Contact = Contact(
    name: Option<string>,
    title: Option<string>,
    email: Option<string>,
    phone: Option<string>)

  /** The field of a contact stored under a dictionary key. */
  function Field(c: Contact, f: string): Option<string> {
    if f == "name" then c.name
    else if f == "title" then c.title
    else if f == "email" then c.email
    else if f == "phone" then c.phone
    else None
  }

  /** The non-`None` fields of a contact. The source compares contacts by the
      JSON text of this map with sorted keys, which is equal for two contacts
      exactly when the maps are equal. */
  function Projection(c: Contact): map<string, string> {
    map f | f in {"name", "title", "email", "phone"} && Field(c, f).Some? :: Field(c, f).value
  }

  /** Two contacts have the same projection exactly when they are equal, so
      de-duplicating on the projection removes exact repeats only. */
  lemma ProjectionInjective(c: Contact, d: Contact)
    ensures Projection(c) == Projection(d) <==> c == d
  {
    if Projection(c) == Projection(d) {
      assert Field(c, "name") == Field(d, "name") by {
        assert "name" in Projection(c) <==> "name" in Projection(d);
      }
      assert Field(c, "title") == Field(d, "title") by {
        assert "title" in Projection(c) <==> "title" in Projection(d);
      }
      assert Field(c, "email") == Field(d, "email") by {
        assert "email" in Projection(c) <==> "email" in Projection(d);
      }
      assert Field(c, "phone") == Field(d, "phone") by {
        assert "phone" in Projection(c) <==> "phone" in Projection(d);
      }
    }
  }

  /** The values a company record holds. */
  datatype Value =
    | Null                                    // None
    | Str(s: string)                          // a text field
    | List(contacts: seq<Contact>)            // a list: `contacts`, or the initial `technologies`
    | Profiles(urls: Dict<string, string>)    // `social_profiles`: domain or platform to URL
    | TechMap(found: Dict<string, seq<string>>) // `technologies` after detection
    | Object(entries: seq<(string, Value)>)   // any other dictionary, such as `social_data`

  /** Python truthiness: `None`, empty strings and empty containers are false. */
  predicate Truthy(v: Value) {
    match v
    case Null => false
    case Str(s) => s != ""
    case List(cs) => cs != []
    case Profiles(d) => d != []
    case TechMap(d) => d != []
    case Object(e) => e != []
  }

  /** A company record: field name to value, in insertion order. */
  type Record = Dict<string, Value>

  /** Why cleaning stops: the source indexes `contacts` and
      `social_profiles` directly and raises `KeyError` when one is absent. */
  datatype CleanError = KeyError(key: string)

  /** What the callers put under `contacts` and `social_profiles`: a list of
      contacts and a dictionary of URLs, or a false value that is skipped.
      Other truthy values are not modelled. */
  predicate WellShaped(data: Record) {
    && (Get(data, "contacts").Some? ==> Get(data, "contacts").value.List? || !Truthy(Get(data, "contacts").value))
    && (Get(data, "social_profiles").Some? ==>
          Get(data, "social_profiles").value.Profiles? || !Truthy(Get(data, "social_profiles").value))
  }

  /** The contacts without repeats: the first contact with each projection,
      in the original order. */
  function UniqueContacts(cs: seq<Contact>): (r: seq<Contact>)
    ensures UniqueBy(r, Projection)
    ensures IsSubseq(r, cs)
    ensures AreFirstOccurrences(r, cs, Projection)
    ensures forall a, b :: 0 <= a < b < |r| ==>
      FirstIndex(cs, Projection, Projection(r[a])) < FirstIndex(cs, Projection, Projection(r[b]))
  {
    DedupSpec(cs, Projection);
    DedupOrderedAll(cs, Projection);
    Dedup(cs, Projection)
  }

  /** No contact is kept twice. */
  lemma UniqueContactsDistinct(cs: seq<Contact>, i: nat, j: nat)
    requires i < j < |UniqueContacts(cs)|
    ensures UniqueContacts(cs)[i] != UniqueContacts(cs)[j]
  {
  }

  /** Every input contact is kept. */
  lemma UniqueContactsKeepAll(cs: seq<Contact>, c: Contact)
    requires c in cs
    ensures c in UniqueContacts(cs)
  {
    var r := UniqueContacts(cs);
    var i :| 0 <= i < |cs| && cs[i] == c;
    KeySetHas(cs, Projection, i);
    DedupSpec(cs, Projection);
    var j := KeySetWitness(r, Projection, Projection(c));
    ProjectionInjective(r[j], c);
  }

  /** The platform names a social-profile key is normalised to, in order of
      priority. */
  const PlatformNames: seq<string> := ["linkedin", "facebook", "twitter"]

  /** The first platform name the domain contains, or the domain itself
      (Python's `next(..., domain)` over the platform names). */
  function Platform(domain: string): string {
    if Contains(domain, "linkedin") then "linkedin"
    else if Contains(domain, "facebook") then "facebook"
    else if Contains(domain, "twitter") then "twitter"
    else domain
  }

  /** `Platform` picks the first platform name the domain contains, and keeps
      the domain when it contains none. */
  lemma PlatformFirstMatch(domain: string)
    ensures (forall i :: 0 <= i < |PlatformNames| ==> !Contains(domain, PlatformNames[i])) ==>
      Platform(domain) == domain
    ensures forall i :: 0 <= i < |PlatformNames| ==>
      (Contains(domain, PlatformNames[i]) && (forall j :: 0 <= j < i ==> !Contains(domain, PlatformNames[j])))
      ==> Platform(domain) == PlatformNames[i]
  {
    PlatformNamesAt();
  }

  /** The platform names, by position. */
  lemma PlatformNamesAt()
    ensures PlatformNames[0] == "linkedin" && PlatformNames[1] == "facebook" && PlatformNames[2] == "twitter"
    ensures |PlatformNames| == 3
  {
  }

  /** "linkedin" normalises to itself. */
  lemma LinkedinFixed()
    ensures Platform("linkedin") == "linkedin"
  {
    PlatformNamesAt();
    ContainsSelf("linkedin");
  }

  /** "facebook" normalises to itself. */
  lemma FacebookFixed()
    ensures Platform("facebook") == "facebook"
  {
    PlatformNamesAt();
    ContainsSelf("facebook");
    ContainsSameLength("facebook", "linkedin");
  }

  /** "twitter" normalises to itself. */
  lemma TwitterFixed()
    ensures Platform("twitter") == "twitter"
  {
    PlatformNamesAt();
    ContainsSelf("twitter");
    NotContainsLonger("twitter", "linkedin");
    NotContainsLonger("twitter", "facebook");
  }

  /** Normalising twice is normalising once. */
  lemma PlatformIdempotent(domain: string)
    ensures Platform(Platform(domain)) == Platform(domain)
  {
    LinkedinFixed();
    FacebookFixed();
    TwitterFixed();
  }

  /** Proof helper: the platform of every key, in key order. */
  function PlatformsOf(d: Dict<string, string>): (r: seq<string>)
    ensures |r| == |d|
    ensures forall i :: 0 <= i < |d| ==> r[i] == Platform(d[i].0)
  {
    seq(|d|, i requires 0 <= i < |d| => Platform(d[i].0))
  }

  /** The identity, as the key of a sequence of plain strings. */
  function Id(s: string): string {
    s
  }

  /** The URL of the last entry whose key normalises to `p`. */
  function LastUrlFor(d: Dict<string, string>, p: string): Option<string>
    decreases |d|
  {
    if |d| == 0 then None
    else if Platform(d[|d| - 1].0) == p then Some(d[|d| - 1].1)
    else LastUrlFor(d[..|d| - 1], p)
  }

  /** The cleaned social profiles: every entry is re-stored under its
      platform, in order, so that a later entry overwrites an earlier one with
      the same platform. */
  function NormaliseProfiles(d: Dict<string, string>): Dict<string, string>
    decreases |d|
  {
    if |d| == 0 then []
    else Put(NormaliseProfiles(d[..|d| - 1]), Platform(d[|d| - 1].0), d[|d| - 1].1)
  }

  /** The cleaned profiles are a valid dictionary whose keys are the
      platforms of the input keys in order of first appearance, and whose
      value for a platform is the URL of the last input entry with it. */
  lemma {:induction false} NormaliseProfilesSpec(d: Dict<string, string>)
    ensures Valid(NormaliseProfiles(d))
    ensures Keys(NormaliseProfiles(d)) == Dedup(PlatformsOf(d), Id)
    ensures forall p :: Get(NormaliseProfiles(d), p) == LastUrlFor(d, p)
    decreases |d|
  {
    if |d| > 0 {
      NormaliseProfilesSpec(d[..|d| - 1]);
      NormaliseStep(d, NormaliseProfiles(d[..|d| - 1]));
    }
  }

  /** One step of `NormaliseProfiles`: re-storing the last entry under its
      platform extends the result for all but the last entry. */
  lemma NormaliseStep(d: Dict<string, string>, prev: Dict<string, string>)
    requires |d| > 0
    requires Valid(prev)
    requires Keys(prev) == Dedup(PlatformsOf(d[..|d| - 1]), Id)
    requires forall p :: Get(prev, p) == LastUrlFor(d[..|d| - 1], p)
    ensures var r := Put(prev, Platform(d[|d| - 1].0), d[|d| - 1].1);
      && Valid(r)
      && Keys(r) == Dedup(PlatformsOf(d), Id)
      && forall p :: Get(r, p) == LastUrlFor(d, p)
  {
    var p := Platform(d[|d| - 1].0);
    var u := d[|d| - 1].1;
    PutValid(prev, p, u);
    PutKeys(prev, p, u);
    NormaliseStepKeys(d, Keys(prev));
    NormaliseStepGet(d, prev);
  }

  /** The lookups after one step of `NormaliseProfiles`. */
  lemma NormaliseStepGet(d: Dict<string, string>, prev: Dict<string, string>)
    requires |d| > 0
    requires forall p :: Get(prev, p) == LastUrlFor(d[..|d| - 1], p)
    ensures forall p :: Get(Put(prev, Platform(d[|d| - 1].0), d[|d| - 1].1), p) == LastUrlFor(d, p)
  {
    PutGets(prev, Platform(d[|d| - 1].0), d[|d| - 1].1);
  }

  /** The keys after one step of `NormaliseProfiles`. */
  lemma NormaliseStepKeys(d: Dict<string, string>, keys: seq<string>)
    requires |d| > 0
    requires keys == Dedup(PlatformsOf(d[..|d| - 1]), Id)
    ensures var p := Platform(d[|d| - 1].0);
      (if p in keys then keys else keys + [p]) == Dedup(PlatformsOf(d), Id)
  {
    var p := Platform(d[|d| - 1].0);
    var ps := PlatformsOf(d);
    assert ps[..|ps| - 1] == PlatformsOf(d[..|d| - 1]);
    IdKeys(keys, p);
  }

  /** With the identity as key, the key set holds the elements. */
  lemma IdKeys(xs: seq<string>, p: string)
    ensures p in KeySet(xs, Id) <==> p in xs
  {
    KeySetMember(xs, Id, p);
  }

  /** The last entry for each platform wins. */
  lemma LastEntryWins(d: Dict<string, string>, i: nat)
    requires i < |d|
    requires forall j :: i < j < |d| ==> Platform(d[j].0) != Platform(d[i].0)
    ensures Get(NormaliseProfiles(d), Platform(d[i].0)) == Some(d[i].1)
  {
    NormaliseProfilesSpec(d);
    LastUrlAt(d, i);
  }

  /** `LastUrlFor` finds the last entry with the platform. */
  lemma {:induction false} LastUrlAt(d: Dict<string, string>, i: nat)
    requires i < |d|
    requires forall j :: i < j < |d| ==> Platform(d[j].0) != Platform(d[i].0)
    ensures LastUrlFor(d, Platform(d[i].0)) == Some(d[i].1)
    decreases |d|
  {
    if i < |d| - 1 {
      LastUrlAt(d[..|d| - 1], i);
    }
  }

  /** Every key of the cleaned profiles is the platform of some input key. */
  lemma NormalisedKeysComeFromInput(d: Dict<string, string>, p: string)
    requires p in Keys(NormaliseProfiles(d))
    ensures exists i :: 0 <= i < |d| && Platform(d[i].0) == p
  {
    NormalisedKeyIsPlatform(d, p);
  }

  /** Every key of the cleaned profiles is among the platforms of the input
      keys. */
  lemma NormalisedKeyIsPlatform(d: Dict<string, string>, p: string)
    requires p in Keys(NormaliseProfiles(d))
    ensures p in PlatformsOf(d)
  {
    NormaliseProfilesSpec(d);
    DedupSpec(PlatformsOf(d), Id);
    SubseqMembers(Dedup(PlatformsOf(d), Id), PlatformsOf(d));
  }

  /** Keys that are their own platform. */
  predicate PlatformKeyed(d: Dict<string, string>) {
    forall i :: 0 <= i < |d| ==> Platform(d[i].0) == d[i].0
  }

  /** Dropping the last entry keeps a dictionary valid and platform-keyed,
      and the last key is not among the others. */
  lemma InitPlatformKeyed(d: Dict<string, string>)
    requires |d| > 0 && Valid(d) && PlatformKeyed(d)
    ensures Valid(d[..|d| - 1]) && PlatformKeyed(d[..|d| - 1])
    ensures d[|d| - 1].0 !in Keys(d[..|d| - 1])
  {
    var init := d[..|d| - 1];
    forall i, j | 0 <= i < j < |init| ensures init[i].0 != init[j].0 {
      assert init[i] == d[i] && init[j] == d[j];
    }
    forall i | 0 <= i < |init| ensures Platform(init[i].0) == init[i].0 && Keys(init)[i] != d[|d| - 1].0 {
      assert init[i] == d[i];
    }
  }

  /** A valid dictionary whose keys are all platform-normal is left as it
      is. */
  lemma {:induction false} NormaliseFixed(d: Dict<string, string>)
    requires Valid(d) && PlatformKeyed(d)
    ensures NormaliseProfiles(d) == d
    decreases |d|
  {
    if |d| > 0 {
      var init := d[..|d| - 1];
      var last := d[|d| - 1];
      InitPlatformKeyed(d);
      NormaliseFixed(init);
      assert Platform(last.0) == last.0;
      PutNew(init, last.0, last.1);
      assert init + [last] == d;
    }
  }

  /** Normalising the social profiles twice is normalising them once. */
  lemma NormaliseIdempotent(d: Dict<string, string>)
    ensures NormaliseProfiles(NormaliseProfiles(d)) == NormaliseProfiles(d)
  {
    var r := NormaliseProfiles(d);
    NormaliseProfilesSpec(d);
    forall i | 0 <= i < |r| ensures Platform(r[i].0) == r[i].0 {
      assert Keys(r)[i] == r[i].0;
      NormalisedKeyIsFixed(d, r[i].0);
    }
    NormaliseFixed(r);
  }

  /** Every key of the cleaned profiles is its own platform. */
  lemma NormalisedKeyIsFixed(d: Dict<string, string>, p: string)
    requires p in Keys(NormaliseProfiles(d))
    ensures Platform(p) == p
  {
    NormalisedKeysComeFromInput(d, p);
    var j :| 0 <= j < |d| && Platform(d[j].0) == p;
    PlatformIdempotent(d[j].0);
  }

  /** The fields every cleaned record holds, in the order they are added. */
  const RequiredFields: seq<string> := [
    "name", "website", "description", "industry", "company_size",
    "revenue", "headquarters", "founded", "contacts", "social_profiles",
    "social_data", "technologies"]

  /** The value a missing required field gets: an empty list for `contacts`
      and `technologies`, `None` for the others. */
  function Default(f: string): Value {
    if f == "contacts" || f == "technologies" then List([]) else Null
  }

  /** Give every field of `fields` that `data` lacks its default, in order. */
  function FillFields(data: Record, fields: seq<string>): Record
    decreases |fields|
  {
    if |fields| == 0 then data
    else
      var f := fields[0];
      var next := if f in Keys(data) then data else Put(data, f, Default(f));
      FillFields(next, fields[1..])
  }

  /** Lookup of `k` and the keys after giving a missing field `f` its
      default. */
  lemma PutFacts(data: Record, f: string, k: string)
    ensures f !in Keys(data) ==>
      && Get(Put(data, f, Default(f)), k) == (if k == f then Some(Default(f)) else Get(data, k))
      && Keys(Put(data, f, Default(f))) == Keys(data) + [f]
  {
    PutGet(data, f, Default(f), k);
    PutKeys(data, f, Default(f));
  }

  /** A field the record already has keeps its value. */
  lemma {:induction false} FillFieldsKeeps(data: Record, fields: seq<string>, k: string)
    requires k in Keys(data)
    ensures Get(FillFields(data, fields), k) == Get(data, k)
    decreases |fields|
  {
    if |fields| > 0 {
      var f := fields[0];
      var next := if f in Keys(data) then data else Put(data, f, Default(f));
      PutFacts(data, f, k);
      FillFieldsKeeps(next, fields[1..], k);
    }
  }

  /** A listed field the record lacks gets its default. */
  lemma {:induction false} FillFieldsAdds(data: Record, fields: seq<string>, k: string)
    requires k !in Keys(data) && k in fields
    ensures Get(FillFields(data, fields), k) == Some(Default(k))
    decreases |fields|
  {
    var f := fields[0];
    var next := if f in Keys(data) then data else Put(data, f, Default(f));
    PutFacts(data, f, k);
    if f == k {
      FillFieldsKeeps(next, fields[1..], k);
    } else {
      assert k in fields[1..];
      FillFieldsAdds(next, fields[1..], k);
    }
  }

  /** No field outside the record and the list appears. */
  lemma {:induction false} FillFieldsNoExtra(data: Record, fields: seq<string>, k: string)
    requires k !in Keys(data) && k !in fields
    ensures k !in Keys(FillFields(data, fields))
    decreases |fields|
  {
    if |fields| > 0 {
      var f := fields[0];
      var next := if f in Keys(data) then data else Put(data, f, Default(f));
      PutFacts(data, f, k);
      FillFieldsNoExtra(next, fields[1..], k);
    }
  }

  /** The fields the record had stay first, in their order. */
  lemma {:induction false} FillFieldsPrefix(data: Record, fields: seq<string>)
    ensures |Keys(data)| <= |Keys(FillFields(data, fields))|
    ensures Keys(FillFields(data, fields))[..|Keys(data)|] == Keys(data)
    decreases |fields|
  {
    if |fields| > 0 {
      var f := fields[0];
      var next := if f in Keys(data) then data else Put(data, f, Default(f));
      PutFacts(data, f, f);
      FillFieldsPrefix(next, fields[1..]);
      assert Keys(next)[..|Keys(data)|] == Keys(data);
    }
  }

  /** Filling keeps a record valid. */
  lemma {:induction false} FillFieldsValid(data: Record, fields: seq<string>)
    requires Valid(data)
    ensures Valid(FillFields(data, fields))
    decreases |fields|
  {
    if |fields| > 0 {
      var f := fields[0];
      if f !in Keys(data) {
        PutValid(data, f, Default(f));
      }
      FillFieldsValid(if f in Keys(data) then data else Put(data, f, Default(f)), fields[1..]);
    }
  }

  /** A record that already has every field is left as it is. */
  lemma {:induction false} FillFieldsComplete(data: Record, fields: seq<string>)
    requires forall f :: f in fields ==> f in Keys(data)
    ensures FillFields(data, fields) == data
    decreases |fields|
  {
    if |fields| > 0 {
      FillFieldsComplete(data, fields[1..]);
    }
  }

  /** The fields of `fields` that are not in `present`, in list order. */
  function Absent(fields: seq<string>, present: seq<string>): seq<string>
    decreases |fields|
  {
    if |fields| == 0 then []
    else (if fields[0] in present then [] else [fields[0]]) + Absent(fields[1..], present)
  }

  /** No field is listed twice. */
  predicate Distinct(fields: seq<string>) {
    forall i, j :: 0 <= i < j < |fields| ==> fields[i] != fields[j]
  }

  /** Adding to `present` a field that is not listed changes nothing. */
  lemma {:induction false} AbsentExtra(fields: seq<string>, present: seq<string>, x: string)
    requires x !in fields
    ensures Absent(fields, present + [x]) == Absent(fields, present)
    decreases |fields|
  {
    if |fields| > 0 {
      assert fields[0] in present + [x] <==> fields[0] in present;
      AbsentExtra(fields[1..], present, x);
    }
  }

  /** Proof helper: the tail of a distinct list is distinct and lacks the head. */
  lemma DistinctTail(fields: seq<string>)
    requires Distinct(fields) && |fields| > 0
    ensures Distinct(fields[1..]) && fields[0] !in fields[1..]
  {
    var rest := fields[1..];
    forall i, j | 0 <= i < j < |rest| ensures rest[i] != rest[j] {
      assert rest[i] == fields[i + 1] && rest[j] == fields[j + 1];
    }
  }

  /** With distinct fields, the keys after filling are the record's keys
      followed by the missing fields, in list order. */
  lemma {:induction false} FillFieldsOrder(data: Record, fields: seq<string>)
    requires Distinct(fields)
    ensures Keys(FillFields(data, fields)) == Keys(data) + Absent(fields, Keys(data))
    decreases |fields|, 1
  {
    if |fields| > 0 {
      var f, rest := fields[0], fields[1..];
      var k := Keys(data);
      if f in k {
        DistinctTail(fields);
        FillFieldsOrder(data, rest);
        FillFieldsKeepStep(data, fields);
      } else {
        FillFieldsOrderAdd(data, fields);
      }
    }
  }

  /** Proof helper: the case of `FillFieldsOrder` where the first field is
      missing and is appended. */
  lemma {:induction false} FillFieldsOrderAdd(data: Record, fields: seq<string>)
    requires Distinct(fields) && |fields| > 0 && fields[0] !in Keys(data)
    ensures Keys(FillFields(data, fields)) == Keys(data) + Absent(fields, Keys(data))
    decreases |fields|, 0
  {
    var f, rest := fields[0], fields[1..];
    var k := Keys(data);
    var next := Put(data, f, Default(f));
    DistinctTail(fields);
    PutKeys(data, f, Default(f));
    FillFieldsOrder(next, rest);
    AbsentExtra(rest, k, f);
    FillFieldsAddStep(data, fields);
    AppendAssoc(k, [f], Absent(rest, k));
  }

  /** Proof helper: one step of `FillFields` and `Absent` when the first
      field is present. */
  lemma FillFieldsKeepStep(data: Record, fields: seq<string>)
    requires |fields| > 0 && fields[0] in Keys(data)
    ensures FillFields(data, fields) == FillFields(data, fields[1..])
    ensures Absent(fields, Keys(data)) == Absent(fields[1..], Keys(data))
  {
  }

  /** Proof helper: one step of `FillFields` and `Absent` when the first
      field is missing. */
  lemma FillFieldsAddStep(data: Record, fields: seq<string>)
    requires |fields| > 0 && fields[0] !in Keys(data)
    ensures FillFields(data, fields) == FillFields(Put(data, fields[0], Default(fields[0])), fields[1..])
    ensures Absent(fields, Keys(data)) == [fields[0]] + Absent(fields[1..], Keys(data))
  {
  }

  /** Proof helper: concatenation is associative. */
  lemma AppendAssoc<T>(a: seq<T>, b: seq<T>, c: seq<T>)
    ensures (a + b) + c == a + (b + c)
  {
  }

  /** The required fields are distinct. */
  lemma RequiredFieldsDistinct()
    ensures Distinct(RequiredFields)
  {
  }

  /** After the required-field step the record's keys come first, followed
      by the missing required fields in the order they are listed. */
  lemma FillRequiredOrder(data: Record)
    ensures Keys(FillRequired(data)) == Keys(data) + Absent(RequiredFields, Keys(data))
  {
    RequiredFieldsDistinct();
    FillFieldsOrder(data, RequiredFields);
  }

  /** The required-field step. */
  function FillRequired(data: Record): Record {
    FillFields(data, RequiredFields)
  }

  /** After the required-field step every required field is present, a
      present field keeps its value, a missing `contacts` or `technologies`
      becomes an empty list and another missing required field `None`, and
      no other field is added. */
  lemma FillRequiredField(data: Record, k: string)
    ensures k in RequiredFields ==> k in Keys(FillRequired(data))
    ensures k in Keys(data) ==> Get(FillRequired(data), k) == Get(data, k)
    ensures k !in Keys(data) && k in RequiredFields ==>
      Get(FillRequired(data), k) == Some(if k == "contacts" || k == "technologies" then List([]) else Null)
    ensures k !in Keys(data) && k !in RequiredFields ==> k !in Keys(FillRequired(data))
  {
    if k in Keys(data) {
      FillFieldsKeeps(data, RequiredFields, k);
    } else if k in RequiredFields {
      FillFieldsAdds(data, RequiredFields, k);
    } else {
      FillFieldsNoExtra(data, RequiredFields, k);
    }
  }

  /** The contacts step: repeats are dropped when the list is non-empty. */
  function CleanContactsField(data: Record): (r: Result<Record, CleanError>)
    requires WellShaped(data)
    ensures r.Err? <==> "contacts" !in Keys(data)
    ensures r.Err? ==> r.error == KeyError("contacts")
    ensures r.Ok? ==> Keys(r.value) == Keys(data)
  {
    match Get(data, "contacts")
    case None => Err(KeyError("contacts"))
    case Some(v) =>
      if Truthy(v) then
        PutKeys(data, "contacts", List(UniqueContacts(v.contacts)));
        Ok(Put(data, "contacts", List(UniqueContacts(v.contacts))))
      else Ok(data)
  }

  /** Lookup after the contacts step: a non-empty contact list is replaced
      by its de-duplication, and nothing else changes. */
  lemma ContactsStepGet(data: Record, k: string)
    requires WellShaped(data) && "contacts" in Keys(data)
    ensures var v := Get(data, "contacts").value;
      Get(CleanContactsField(data).value, k) ==
        if k == "contacts" && Truthy(v) then Some(List(UniqueContacts(v.contacts))) else Get(data, k)
  {
    var v := Get(data, "contacts").value;
    if Truthy(v) {
      PutGet(data, "contacts", List(UniqueContacts(v.contacts)), k);
    }
  }

  /** The contacts step changes no other field. */
  lemma ContactsStepOthers(data: Record, k: string)
    requires WellShaped(data) && CleanContactsField(data).Ok? && k != "contacts"
    ensures Get(CleanContactsField(data).value, k) == Get(data, k)
  {
    ContactsStepGet(data, k);
  }

  /** The social-profiles step: keys are normalised when the dictionary is
      non-empty. */
  function CleanProfilesField(data: Record): (r: Result<Record, CleanError>)
    requires WellShaped(data)
    ensures r.Err? <==> "social_profiles" !in Keys(data)
    ensures r.Err? ==> r.error == KeyError("social_profiles")
    ensures r.Ok? ==> Keys(r.value) == Keys(data)
  {
    match Get(data, "social_profiles")
    case None => Err(KeyError("social_profiles"))
    case Some(v) =>
      if Truthy(v) then
        PutKeys(data, "social_profiles", Profiles(NormaliseProfiles(v.urls)));
        Ok(Put(data, "social_profiles", Profiles(NormaliseProfiles(v.urls))))
      else Ok(data)
  }

  /** Lookup after the social-profiles step: a non-empty dictionary is
      replaced by its normalisation, and nothing else changes. */
  lemma ProfilesStepGet(data: Record, k: string)
    requires WellShaped(data) && "social_profiles" in Keys(data)
    ensures var v := Get(data, "social_profiles").value;
      Get(CleanProfilesField(data).value, k) ==
        if k == "social_profiles" && Truthy(v) then Some(Profiles(NormaliseProfiles(v.urls))) else Get(data, k)
  {
    var v := Get(data, "social_profiles").value;
    if Truthy(v) {
      PutGet(data, "social_profiles", Profiles(NormaliseProfiles(v.urls)), k);
    }
  }

  /** The social-profiles step changes no other field. */
  lemma ProfilesStepOthers(data: Record, k: string)
    requires WellShaped(data) && CleanProfilesField(data).Ok? && k != "social_profiles"
    ensures Get(CleanProfilesField(data).value, k) == Get(data, k)
  {
    ProfilesStepGet(data, k);
  }

  /** The contacts step leaves the contacts a list or a false value, and the
      social profiles as they were. */
  lemma ContactsStayShaped(data: Record)
    requires WellShaped(data)
    requires CleanContactsField(data).Ok?
    ensures WellShaped(CleanContactsField(data).value)
  {
    ContactsStepOthers(data, "social_profiles");
    ContactsStepGet(data, "contacts");
  }

  /** `_clean_company_data`: contacts, then social profiles, then the
      required fields. A missing `contacts` or `social_profiles` raises, in
      that order. */
  function CleanRecord(data: Record): (r: Result<Record, CleanError>)
    requires WellShaped(data)
    ensures r.Ok? <==> "contacts" in Keys(data) && "social_profiles" in Keys(data)
    ensures r.Err? ==> r.error == if "contacts" !in Keys(data) then KeyError("contacts") else KeyError("social_profiles")
  {
    var afterContacts :- CleanContactsField(data);
    assert WellShaped(afterContacts) by {
      ContactsStayShaped(data);
    }
    var afterProfiles :- CleanProfilesField(afterContacts);
    Ok(FillRequired(afterProfiles))
  }

  /** The two cleaning steps, for a record that has both keys. */
  function Steps(data: Record): Record
    requires WellShaped(data)
    requires "contacts" in Keys(data) && "social_profiles" in Keys(data)
  {
    var afterContacts := CleanContactsField(data).value;
    ContactsStayShaped(data);
    CleanProfilesField(afterContacts).value
  }

  /** Proof helper: a successful cleaning is the required-field step after
      the two steps. */
  lemma CleanRecordSteps(data: Record)
    requires WellShaped(data)
    requires "contacts" in Keys(data) && "social_profiles" in Keys(data)
    ensures CleanRecord(data) == Ok(FillRequired(Steps(data)))
  {
  }

  /** After cleaning, every required field is present, a field other than
      `contacts` and `social_profiles` keeps its value, and no field outside
      the record and the required ones appears. */
  lemma CleanedFields(data: Record, k: string)
    requires WellShaped(data)
    requires CleanRecord(data).Ok?
    ensures k in RequiredFields ==> k in Keys(CleanRecord(data).value)
    ensures k in Keys(data) && k != "contacts" && k != "social_profiles" ==>
      Get(CleanRecord(data).value, k) == Get(data, k)
    ensures k !in Keys(data) && k !in RequiredFields ==> k !in Keys(CleanRecord(data).value)
  {
    CleanRecordSteps(data);
    var afterContacts := CleanContactsField(data).value;
    ContactsStayShaped(data);
    var afterProfiles := CleanProfilesField(afterContacts).value;
    FillRequiredField(afterProfiles, k);
    if k != "contacts" && k != "social_profiles" {
      ContactsStepOthers(data, k);
      ProfilesStepOthers(afterContacts, k);
    }
  }

  /** After cleaning, the contacts are the input contacts without
      repeats. */
  lemma CleanedContacts(data: Record, cs: seq<Contact>)
    requires WellShaped(data)
    requires Get(data, "contacts") == Some(List(cs))
    requires "social_profiles" in Keys(data)
    ensures CleanRecord(data).Ok?
    ensures Get(CleanRecord(data).value, "contacts") == Some(List(UniqueContacts(cs)))
  {
    CleanRecordSteps(data);
    StepsContactsValue(data, cs);
    FillRequiredField(Steps(data), "contacts");
  }

  /** The contacts after the two steps. */
  lemma StepsContactsValue(data: Record, cs: seq<Contact>)
    requires WellShaped(data)
    requires Get(data, "contacts") == Some(List(cs))
    requires "social_profiles" in Keys(data)
    ensures Get(Steps(data), "contacts") == Some(List(UniqueContacts(cs)))
  {
    var afterContacts := CleanContactsField(data).value;
    ContactsStayShaped(data);
    ContactsStepGet(data, "contacts");
    if cs == [] {
      assert UniqueContacts(cs) == [];
    }
    ProfilesStepOthers(afterContacts, "contacts");
  }

  /** After cleaning, the social profiles are the input profiles keyed by
      platform. */
  lemma CleanedProfiles(data: Record, d: Dict<string, string>)
    requires WellShaped(data)
    requires "contacts" in Keys(data)
    requires Get(data, "social_profiles") == Some(Profiles(d))
    ensures CleanRecord(data).Ok?
    ensures Get(CleanRecord(data).value, "social_profiles") == Some(Profiles(NormaliseProfiles(d)))
  {
    CleanRecordSteps(data);
    StepsProfilesValue(data, d);
    FillRequiredField(Steps(data), "social_profiles");
  }

  /** The social profiles after the two steps. */
  lemma StepsProfilesValue(data: Record, d: Dict<string, string>)
    requires WellShaped(data)
    requires "contacts" in Keys(data)
    requires Get(data, "social_profiles") == Some(Profiles(d))
    ensures Get(Steps(data), "social_profiles") == Some(Profiles(NormaliseProfiles(d)))
  {
    ContactsStayShaped(data);
    ContactsStepOthers(data, "social_profiles");
    ProfilesStepGet(CleanContactsField(data).value, "social_profiles");
    if d == [] {
      assert NormaliseProfiles(d) == d;
    }
  }

  /** The two steps keep a record valid. */
  lemma StepsValid(data: Record)
    requires Valid(data) && WellShaped(data)
    requires "contacts" in Keys(data) && "social_profiles" in Keys(data)
    ensures Valid(Steps(data))
  {
    var afterContacts := CleanContactsField(data).value;
    ContactsStayShaped(data);
    var v := Get(data, "contacts").value;
    if Truthy(v) {
      PutValid(data, "contacts", List(UniqueContacts(v.contacts)));
    }
    var w := Get(afterContacts, "social_profiles").value;
    if Truthy(w) {
      PutValid(afterContacts, "social_profiles", Profiles(NormaliseProfiles(w.urls)));
    }
  }

  /** After the two steps the contacts are a list without repeats, or a
      false value. */
  lemma StepsContacts(data: Record)
    requires WellShaped(data)
    requires "contacts" in Keys(data) && "social_profiles" in Keys(data)
    ensures Get(Steps(data), "contacts").Some?
    ensures var c := Get(Steps(data), "contacts").value;
      (c.List? || !Truthy(c)) && (Truthy(c) ==> UniqueContacts(c.contacts) == c.contacts)
  {
    var afterContacts := CleanContactsField(data).value;
    ContactsStayShaped(data);
    ProfilesStepOthers(afterContacts, "contacts");
    ContactsStepGet(data, "contacts");
    var v := Get(data, "contacts").value;
    if Truthy(v) {
      UniqueContactsIdempotent(v.contacts);
    }
  }

  /** After the two steps the social profiles are platform-keyed, or a false
      value. */
  lemma StepsProfiles(data: Record)
    requires WellShaped(data)
    requires "contacts" in Keys(data) && "social_profiles" in Keys(data)
    ensures Get(Steps(data), "social_profiles").Some?
    ensures var p := Get(Steps(data), "social_profiles").value;
      (p.Profiles? || !Truthy(p)) && (Truthy(p) ==> NormaliseProfiles(p.urls) == p.urls)
  {
    var afterContacts := CleanContactsField(data).value;
    ContactsStayShaped(data);
    ContactsStepOthers(data, "social_profiles");
    ProfilesStepGet(afterContacts, "social_profiles");
    var v := Get(afterContacts, "social_profiles").value;
    if Truthy(v) {
      NormaliseIdempotent(v.urls);
    }
  }

  /** Cleaning a cleaned record changes nothing. */
  lemma CleanIdempotent(data: Record)
    requires Valid(data) && WellShaped(data)
    requires CleanRecord(data).Ok?
    ensures WellShaped(CleanRecord(data).value)
    ensures CleanRecord(CleanRecord(data).value) == CleanRecord(data)
  {
    CleanRecordSteps(data);
    var mid := Steps(data);
    var r := FillRequired(mid);
    StepsValid(data);
    FillFieldsValid(mid, RequiredFields);
    StepsContacts(data);
    StepsProfiles(data);
    FillRequiredField(mid, "contacts");
    FillRequiredField(mid, "social_profiles");
    assert WellShaped(r);
    var c := Get(r, "contacts").value;
    if Truthy(c) {
      PutSame(r, "contacts", c);
    }
    assert CleanContactsField(r) == Ok(r);
    var p := Get(r, "social_profiles").value;
    if Truthy(p) {
      PutSame(r, "social_profiles", p);
    }
    assert CleanProfilesField(r) == Ok(r);
    forall f | f in RequiredFields ensures f in Keys(r) {
      FillRequiredField(mid, f);
    }
    FillFieldsComplete(r, RequiredFields);
    CleanRecordSteps(r);
  }

  /** De-duplicating the contacts twice is de-duplicating them once. */
  lemma UniqueContactsIdempotent(cs: seq<Contact>)
    ensures UniqueContacts(UniqueContacts(cs)) == UniqueContacts(cs)
  {
    DedupIdempotent(cs, Projection);
  }
}
