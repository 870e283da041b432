/** The normalised job records and their rendering into a header list and
    an aligned row (extractors/job_data.py, job_data_wwr.py,
    job_data_remoteok.py). Each record kind is its own datatype; the
    generic record's keyword arguments are an ordered list of distinct
    (name, value) pairs, as Python's `**kwargs` dictionary is. */
module JobRecords {
  import opened Options
  import opened Text
  import opened Sorting

  /** The sentinel for an optional field that was not given. */
  const NotSpecified: string := "Not specified"

  predicate IsReserved(key: string) {
    key == "location" || key == "salary" || key == "reward"
  }

  /* ---------------------------------------------------------------- */
  /* JobData: the generic record                                       */
  /* ---------------------------------------------------------------- */

  datatype JobData = JobData(
    position: string,
    company: string,
    link: string,
    location: string,
    salary: string,
    reward: string,
    additionalInfo: seq<Entry>)

  /** What every constructed record satisfies: the extra fields have
      distinct names, none of them location, salary or reward. */
  predicate Valid(j: JobData) {
    && DistinctKeys(j.additionalInfo)
    && forall i :: 0 <= i < |j.additionalInfo| ==> !IsReserved(j.additionalInfo[i].0)
  }

  /** `kwargs.get(key, 'Not specified')`. */
  function KwargOrDefault(kwargs: seq<Entry>, key: string): string {
    if kwargs == [] then NotSpecified
    else if kwargs[0].0 == key then kwargs[0].1
    else KwargOrDefault(kwargs[1..], key)
  }

  lemma {:induction false} KwargOrDefaultSpec(kwargs: seq<Entry>, key: string)
    requires DistinctKeys(kwargs)
    ensures forall i :: 0 <= i < |kwargs| && kwargs[i].0 == key ==> KwargOrDefault(kwargs, key) == kwargs[i].1
    ensures (forall i :: 0 <= i < |kwargs| ==> kwargs[i].0 != key) ==> KwargOrDefault(kwargs, key) == NotSpecified
  {
    if kwargs != [] {
      KwargOrDefaultSpec(kwargs[1..], key);
      forall i | 0 < i < |kwargs|
        ensures kwargs[i] == kwargs[1..][i - 1]
      {
      }
    }
  }

  /** Extra keyword arguments: everything but location, salary and reward,
      in argument order. */
  function ExtraKwargs(kwargs: seq<Entry>): (r: seq<Entry>)
    requires DistinctKeys(kwargs)
    ensures forall e :: e in r <==> e in kwargs && !IsReserved(e.0)
    ensures DistinctKeys(r)
    ensures (forall i :: 0 <= i < |kwargs| ==> IsReserved(kwargs[i].0)) ==> r == []
  {
    if kwargs == [] then []
    else
      var rest := ExtraKwargs(kwargs[1..]);
      assert forall e :: e in kwargs <==> e == kwargs[0] || e in kwargs[1..];
      HeadKeyNotInSubset(kwargs, rest);
      if IsReserved(kwargs[0].0) then rest else [kwargs[0]] + rest
  }

  /** `JobData.__init__`: location, salary and reward default to
      'Not specified' when not passed; every other keyword argument is kept
      in `additional_info`. */
  function NewJobData(position: string, company: string, link: string, kwargs: seq<Entry>): (j: JobData)
    requires DistinctKeys(kwargs)
    ensures Valid(j)
    ensures j.position == position && j.company == company && j.link == link
    ensures forall i :: 0 <= i < |kwargs| && kwargs[i].0 == "location" ==> j.location == kwargs[i].1
    ensures forall i :: 0 <= i < |kwargs| && kwargs[i].0 == "salary" ==> j.salary == kwargs[i].1
    ensures forall i :: 0 <= i < |kwargs| && kwargs[i].0 == "reward" ==> j.reward == kwargs[i].1
    ensures (forall i :: 0 <= i < |kwargs| ==> kwargs[i].0 != "location") ==> j.location == NotSpecified
    ensures (forall i :: 0 <= i < |kwargs| ==> kwargs[i].0 != "salary") ==> j.salary == NotSpecified
    ensures (forall i :: 0 <= i < |kwargs| ==> kwargs[i].0 != "reward") ==> j.reward == NotSpecified
    ensures forall e :: e in j.additionalInfo <==> e in kwargs && !IsReserved(e.0)
    ensures (forall i :: 0 <= i < |kwargs| ==> IsReserved(kwargs[i].0)) ==> j.additionalInfo == []
  {
    KwargOrDefaultSpec(kwargs, "location");
    KwargOrDefaultSpec(kwargs, "salary");
    KwargOrDefaultSpec(kwargs, "reward");
    var extra := ExtraKwargs(kwargs);
    forall i | 0 <= i < |extra|
      ensures !IsReserved(extra[i].0)
    {
      assert extra[i] in extra;
    }
    JobData(position, company, link,
      KwargOrDefault(kwargs, "location"),
      KwargOrDefault(kwargs, "salary"),
      KwargOrDefault(kwargs, "reward"),
      extra)
  }

  /** The optional fields with their header names, in their fixed order. */
  function Optionals(j: JobData): seq<Entry> {
    [("Location", j.location), ("Salary", j.salary), ("Reward", j.reward)]
  }

  /** The optional fields that are rendered: those not 'Not specified',
      keeping the fixed order Location, Salary, Reward. */
  function PresentOptionals(j: JobData): (p: seq<Entry>)
    ensures |p| <= 3
    ensures forall e :: e in p <==> e in Optionals(j) && e.1 != NotSpecified
    ensures forall a, b :: 0 <= a < b < |p| ==> OptionalRank(p[a].0) < OptionalRank(p[b].0)
  {
    (if j.location != NotSpecified then [("Location", j.location)] else [])
    + (if j.salary != NotSpecified then [("Salary", j.salary)] else [])
    + (if j.reward != NotSpecified then [("Reward", j.reward)] else [])
  }

  function OptionalRank(name: string): nat {
    if name == "Location" then 0 else if name == "Salary" then 1 else 2
  }

  function SortedExtras(j: JobData): (s: seq<Entry>)
    requires Valid(j)
    ensures SortedByKey(s)
    ensures multiset(s) == multiset(j.additionalInfo)
    ensures |s| == |j.additionalInfo|
  {
    SortByKey(j.additionalInfo)
  }

  function Names(kv: seq<Entry>): (r: seq<string>)
    ensures |r| == |kv|
    ensures forall i :: 0 <= i < |kv| ==> r[i] == kv[i].0
  {
    seq(|kv|, i requires 0 <= i < |kv| => kv[i].0)
  }

  function TitledNames(kv: seq<Entry>): (r: seq<string>)
    ensures |r| == |kv|
    ensures forall i :: 0 <= i < |kv| ==> r[i] == Title(kv[i].0)
  {
    seq(|kv|, i requires 0 <= i < |kv| => Title(kv[i].0))
  }

  function Values(kv: seq<Entry>): (r: seq<string>)
    ensures |r| == |kv|
    ensures forall i :: 0 <= i < |kv| ==> r[i] == kv[i].1
  {
    seq(|kv|, i requires 0 <= i < |kv| => kv[i].1)
  }

  /** The layout both renderings share: two leading columns, the optional
      columns, the extra columns, and one closing column. */
  function Layout<T>(first: T, second: T, optional: seq<T>, extra: seq<T>, last: T): (r: seq<T>)
    ensures |r| == 3 + |optional| + |extra|
    ensures r[0] == first && r[1] == second && r[|r| - 1] == last
    ensures r[2..2 + |optional|] == optional
    ensures r[2 + |optional|..|r| - 1] == extra
  {
    [first, second] + optional + extra + [last]
  }

  /** `JobData.get_headers`: "Position", "Company", the names of the
      specified optional fields, the title-cased extra names in ascending
      key order, then "Link". */
  function Headers(j: JobData): (h: seq<string>)
    requires Valid(j)
    ensures |h| == 3 + |PresentOptionals(j)| + |j.additionalInfo|
    ensures h[0] == "Position" && h[1] == "Company" && h[|h| - 1] == "Link"
    ensures h[2..2 + |PresentOptionals(j)|] == Names(PresentOptionals(j))
    ensures h[2 + |PresentOptionals(j)|..|h| - 1] == TitledNames(SortedExtras(j))
  {
    Layout("Position", "Company", Names(PresentOptionals(j)), TitledNames(SortedExtras(j)), "Link")
  }

  /** `JobData.to_list`: position, company, the specified optional values,
      the extra values in ascending key order, then the link. */
  function ToRow(j: JobData): (r: seq<string>)
    requires Valid(j)
    ensures |r| == 3 + |PresentOptionals(j)| + |j.additionalInfo|
    ensures r[0] == j.position && r[1] == j.company && r[|r| - 1] == j.link
    ensures r[2..2 + |PresentOptionals(j)|] == Values(PresentOptionals(j))
    ensures r[2 + |PresentOptionals(j)|..|r| - 1] == Values(SortedExtras(j))
  {
    Layout(j.position, j.company, Values(PresentOptionals(j)), Values(SortedExtras(j)), j.link)
  }

  /** A (header, value) column that faithfully renders one field of `j`. */
  predicate IsColumnOf(j: JobData, header: string, value: string) {
    || (header == "Position" && value == j.position)
    || (header == "Company" && value == j.company)
    || (header == "Link" && value == j.link)
    || ((header, value) in Optionals(j) && value != NotSpecified)
    || exists e :: e in j.additionalInfo && header == Title(e.0) && value == e.1
  }

  /** Headers and row have equal length, and at every index the header
      names the field whose value the row holds. */
  lemma HeadersRowAligned(j: JobData)
    requires Valid(j)
    ensures |Headers(j)| == |ToRow(j)|
    ensures forall i :: 0 <= i < |ToRow(j)| ==> IsColumnOf(j, Headers(j)[i], ToRow(j)[i])
  {
    forall i | 0 <= i < |ToRow(j)|
      ensures IsColumnOf(j, Headers(j)[i], ToRow(j)[i])
    {
      ColumnAt(j, i);
    }
  }

  lemma ColumnAt(j: JobData, i: nat)
    requires Valid(j)
    requires i < 3 + |PresentOptionals(j)| + |j.additionalInfo|
    ensures IsColumnOf(j, Headers(j)[i], ToRow(j)[i])
  {
    var p := PresentOptionals(j);
    var s := SortedExtras(j);
    LayoutAt("Position", "Company", Names(p), TitledNames(s), "Link", i);
    LayoutAt(j.position, j.company, Values(p), Values(s), j.link, i);
    if 2 <= i < 2 + |p| {
      OptionalColumn(j, i - 2);
    } else if 2 + |p| <= i < 2 + |p| + |s| {
      var e := s[i - 2 - |p|];
      assert Headers(j)[i] == Title(e.0);
      assert ToRow(j)[i] == e.1;
      assert e in multiset(j.additionalInfo);
      assert e in j.additionalInfo;
    }
  }

  /** Which part of a layout index `i` falls in. */
  lemma LayoutAt<T>(first: T, second: T, optional: seq<T>, extra: seq<T>, last: T, i: nat)
    requires i < 3 + |optional| + |extra|
    ensures i == 0 ==> Layout(first, second, optional, extra, last)[i] == first
    ensures i == 1 ==> Layout(first, second, optional, extra, last)[i] == second
    ensures 2 <= i < 2 + |optional| ==> Layout(first, second, optional, extra, last)[i] == optional[i - 2]
    ensures 2 + |optional| <= i < 2 + |optional| + |extra| ==>
      Layout(first, second, optional, extra, last)[i] == extra[i - 2 - |optional|]
    ensures i == 2 + |optional| + |extra| ==> Layout(first, second, optional, extra, last)[i] == last
  {
  }

  lemma OptionalColumn(j: JobData, k: nat)
    requires k < |PresentOptionals(j)|
    ensures IsColumnOf(j, Names(PresentOptionals(j))[k], Values(PresentOptionals(j))[k])
  {
    var p := PresentOptionals(j);
    assert p[k] in p;
  }

  /** Location, salary and reward are rendered exactly when they are not
      'Not specified', and in that order. */
  lemma OptionalsRenderedIffSpecified(j: JobData)
    requires Valid(j)
    ensures j.location != NotSpecified <==> "Location" in Headers(j)[2..2 + |PresentOptionals(j)|]
    ensures j.salary != NotSpecified <==> "Salary" in Headers(j)[2..2 + |PresentOptionals(j)|]
    ensures j.reward != NotSpecified <==> "Reward" in Headers(j)[2..2 + |PresentOptionals(j)|]
  {
    assert Headers(j)[2..2 + |PresentOptionals(j)|] == Names(PresentOptionals(j));
    PresentName(j, "Location", j.location);
    PresentName(j, "Salary", j.salary);
    PresentName(j, "Reward", j.reward);
  }

  lemma PresentName(j: JobData, name: string, value: string)
    requires (name, value) in Optionals(j)
    ensures name in Names(PresentOptionals(j)) <==> value != NotSpecified
  {
    var p := PresentOptionals(j);
    var ns := Names(p);
    if name in ns {
      var i :| 0 <= i < |p| && ns[i] == name;
      assert p[i] in p;
    }
    if value != NotSpecified {
      assert (name, value) in p;
      var i :| 0 <= i < |p| && p[i] == (name, value);
      assert ns[i] == name;
    }
  }

  /** A record whose only field beyond the mandatory ones is the reward
      renders as position, company, reward, link, the reward column left
      out when it reads 'Not specified'. */
  lemma RewardOnlyRow(j: JobData)
    requires Valid(j) && j.additionalInfo == []
    requires j.location == NotSpecified && j.salary == NotSpecified
    ensures ToRow(j) == if j.reward != NotSpecified then [j.position, j.company, j.reward, j.link]
                        else [j.position, j.company, j.link]
  {
    var r := ToRow(j);
    if j.reward != NotSpecified {
      assert PresentOptionals(j) == [("Reward", j.reward)];
      assert r[2] == r[2..3][0] == Values(PresentOptionals(j))[0] == j.reward;
      SeqOfFour(r);
    } else {
      assert PresentOptionals(j) == [];
      SeqOfThree(r);
    }
  }

  /** The header list of such a record names the same columns. */
  lemma RewardOnlyHeaders(j: JobData)
    requires Valid(j) && j.additionalInfo == []
    requires j.location == NotSpecified && j.salary == NotSpecified
    ensures Headers(j) == if j.reward != NotSpecified then ["Position", "Company", "Reward", "Link"]
                          else ["Position", "Company", "Link"]
  {
    var h := Headers(j);
    if j.reward != NotSpecified {
      assert PresentOptionals(j) == [("Reward", j.reward)];
      assert h[2] == h[2..3][0] == Names(PresentOptionals(j))[0] == "Reward";
      SeqOfFour(h);
    } else {
      assert PresentOptionals(j) == [];
      SeqOfThree(h);
    }
  }

  lemma SeqOfThree<T>(r: seq<T>)
    requires |r| == 3
    ensures r == [r[0], r[1], r[2]]
  {
  }

  lemma SeqOfFour<T>(r: seq<T>)
    requires |r| == 4
    ensures r == [r[0], r[1], r[2], r[3]]
  {
  }

  /* ---------------------------------------------------------------- */
  /* JobDataWWR                                                        */
  /* ---------------------------------------------------------------- */

  datatype WWRJob = WWRJob(
    position: string,
    company: string,
    location: string,
    salary: string,
    link: string,
    categories: seq<string>,
    section: string)

  /** `JobDataWWR.__init__`: a missing or empty category list becomes [],
      and the section starts empty. */
  function NewWWRJob(position: string, company: string, location: string, salary: string,
                     link: string, categories: Option<seq<string>>): (j: WWRJob)
    ensures j.position == position && j.company == company && j.location == location
    ensures j.salary == salary && j.link == link
    ensures j.section == ""
    ensures categories.None? ==> j.categories == []
    ensures categories.Some? ==> j.categories == categories.value
  {
    WWRJob(position, company, location, salary, link, categories.GetOr([]), "")
  }

  /** `set_section`: only the section changes. */
  function SetSection(j: WWRJob, name: string): (j': WWRJob)
    ensures j'.section == name
    ensures j'.position == j.position && j'.company == j.company && j'.location == j.location
    ensures j'.salary == j.salary && j'.link == j.link && j'.categories == j.categories
  {
    j.(section := name)
  }

  const WWRHeaders: seq<string> := ["Position", "Company", "Location", "Salary", "Link"]

  /** `JobDataWWR.to_list`: always the five columns named by `WWRHeaders`. */
  function WWRToRow(j: WWRJob): (r: seq<string>)
    ensures |r| == |WWRHeaders| == 5
    ensures r[0] == j.position && r[1] == j.company && r[2] == j.location
    ensures r[3] == j.salary && r[4] == j.link
  {
    [j.position, j.company, j.location, j.salary, j.link]
  }

  /** The rendered row depends on neither the section nor the categories. */
  lemma WWRRowIgnoresSectionAndCategories(j: WWRJob, name: string, cats: seq<string>)
    ensures WWRToRow(j.(section := name, categories := cats)) == WWRToRow(j)
    ensures WWRToRow(SetSection(j, name)) == WWRToRow(j)
  {
  }

  /** The record the base class would hold for a WWR job. */
  function WWRAsJobData(j: WWRJob): (b: JobData)
    ensures Valid(b)
    ensures b == JobData(j.position, j.company, j.link, j.location, j.salary, NotSpecified, [])
  {
    var kwargs := [("location", j.location), ("salary", j.salary)];
    assert kwargs[0].0 == "location" && kwargs[1].0 == "salary";
    assert kwargs[1..] == [("salary", j.salary)] && kwargs[1..][1..] == [];
    assert ExtraKwargs(kwargs[1..][1..]) == [];
    assert ExtraKwargs(kwargs[1..]) == [];
    NewJobData(j.position, j.company, j.link, kwargs)
  }

  /** The override agrees with the inherited rendering exactly when both
      location and salary are specified; otherwise the inherited one would
      drop columns and misalign with the five fixed headers. */
  lemma WWRRowVersusInherited(j: WWRJob)
    ensures WWRToRow(j) == ToRow(WWRAsJobData(j)) <==>
      j.location != NotSpecified && j.salary != NotSpecified
  {
    var b := WWRAsJobData(j);

    if j.location == NotSpecified || j.salary == NotSpecified {
      assert |ToRow(b)| < 5;
    }
  }

  /* ---------------------------------------------------------------- */
  /* JobDataRemoteOK (corrected)                                        */
  /* ---------------------------------------------------------------- */

  /** The RemoteOK record with the fields its rendering reads. The Python
      constructor accepts only (position, company, location, link, salary),
      while its rendering reads title, company_name, tags, posted_date and
      is_ad, which it never assigns, and the scraper's call site passes
      exactly those names: as written, construction raises a TypeError.
      This record follows the eight-column rendering contract instead; the
      as-written behaviour is modelled by `RemoteOKConstructorAccepts`. */
  datatype RemoteOKJob = RemoteOKJob(
    title: string,
    companyName: string,
    location: string,
    link: string,
    salary: string,
    postedDate: string,
    tags: seq<string>,
    isAd: bool)

  /** The parameter names `JobDataRemoteOK.__init__` declares, and those it requires. */
  const RemoteOKParameters: seq<string> := ["position", "company", "location", "link", "salary"]
  const RemoteOKRequired: seq<string> := ["position", "company", "location", "link"]

  /** Python's binding of keyword arguments to the declared constructor:
      every name must be a parameter and every required parameter given. */
  predicate RemoteOKConstructorAccepts(names: seq<string>) {
    && (forall n :: n in names ==> n in RemoteOKParameters)
    && (forall p :: p in RemoteOKRequired ==> p in names)
  }

  /** The keyword names the scraper passes at its call site. */
  const RemoteOKCallSite: seq<string> :=
    ["title", "company_name", "location", "link", "salary", "tags", "posted_date", "is_ad"]

  /** `salary if salary else "Not specified"`. */
  function SalaryOrDefault(salary: string): (s: string)
    ensures salary == "" ==> s == NotSpecified
    ensures salary != "" ==> s == salary
  {
    if salary == "" then NotSpecified else salary
  }

  /** The corrected constructor: it takes the fields the rendering reads
      and keeps the salary default of the original. */
  function NewRemoteOKJob(title: string, companyName: string, location: string, link: string,
                          salary: string, tags: seq<string>, postedDate: string, isAd: bool): (j: RemoteOKJob)
    ensures j.salary != ""
    ensures salary != "" ==> j.salary == salary
    ensures j.title == title && j.companyName == companyName && j.location == location
    ensures j.link == link && j.postedDate == postedDate && j.tags == tags && j.isAd == isAd
  {
    RemoteOKJob(title, companyName, location, link, SalaryOrDefault(salary), postedDate, tags, isAd)
  }

  const AdMarker: string := "광고"

  const RemoteOKHeaders: seq<string> :=
    ["Title", "Company", "Location", "Link", "Salary", "Posted Date", "Tags", "Ad"]

  /** `", ".join(tags) if tags else ""`. */
  function TagsColumn(tags: seq<string>): (s: string)
    ensures tags == [] ==> s == ""
  {
    if tags == [] then "" else Join(tags, ", ")
  }

  /** `JobDataRemoteOK.to_list`: eight columns, aligned with `RemoteOKHeaders`. */
  function RemoteOKToRow(j: RemoteOKJob): (r: seq<string>)
    ensures |r| == |RemoteOKHeaders| == 8
    ensures r[0] == j.title && r[1] == j.companyName && r[2] == j.location
    ensures r[3] == j.link && r[4] == j.salary && r[5] == j.postedDate
    ensures r[6] == TagsColumn(j.tags)
    ensures r[7] == AdMarker || r[7] == ""
    ensures r[7] == AdMarker <==> j.isAd
  {
    [j.title, j.companyName, j.location, j.link, j.salary, j.postedDate,
     TagsColumn(j.tags), if j.isAd then AdMarker else ""]
  }

  /** The tags column can be read back: for stripped, comma-free tags,
      splitting it on commas and stripping recovers the tag list. */
  lemma TagsColumnRoundTrip(tags: seq<string>)
    requires |tags| >= 1
    requires forall i :: 0 <= i < |tags| ==> IsStripped(tags[i]) && ',' !in tags[i]
    ensures ParseKeywords(TagsColumn(tags)) == tags
  {
    ParseJoinedRoundTrip(tags);
  }
}
