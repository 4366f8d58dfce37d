/**
 The model registry: filtered, name-ordered, paged queries, and the per-capability merge that
 finds the models for a workload. Row ids and model names are unique, as the table enforces,
 and the database orders text as the program does.
 */
module ModelRegistry {
  import opened Wrappers
  import opened Ordering

  datatype Capability = TextModel | Vision | MultimodalModel | Embedding | Speech | Coding | Reasoning

  datatype Modality = TextInput | ImageInput | MultimodalInput | StructuredInput

  /** None in a column means nobody has told us. */
  datatype Entry = Entry(
    id: string,
    modelName: string,
    capability: Capability,
    modality: Option<Modality>,
    inputCost: Option<real>,
    outputCost: Option<real>,
    costUnit: Option<string>,
    maxContextTokens: Option<int>,
    supportsVision: Option<bool>,
    supportsTools: Option<bool>,
    supportsStructuredOutput: Option<bool>,
    supportsEmbeddings: Option<bool>,
    qualityScore: Option<real>,
    latencyScore: Option<real>,
    enabled: bool
  )

  /** An absent criterion accepts every row. */
  datatype ModelQuery = ModelQuery(
    capability: Option<Capability>,
    modality: Option<Modality>,
    enabled: Option<bool>,
    requiresVision: bool,
    requiresTools: bool,
    requiresStructuredOutput: bool,
    requiresEmbeddings: bool,
    minContextTokens: Option<int>,
    minQualityScore: Option<real>,
    requireKnownPricing: bool,
    limit: nat,
    offset: nat
  )

  ghost predicate Registry(rows: seq<Entry>) {
    forall i, j :: 0 <= i < j < |rows| ==> rows[i].id != rows[j].id && rows[i].modelName != rows[j].modelName
  }

  /** The WHERE clause; a NULL column satisfies no requirement. */
  predicate Matches(q: ModelQuery, e: Entry) {
    && (q.capability.Some? ==> e.capability == q.capability.value)
    && (q.modality.Some? ==> e.modality == q.modality)
    && (q.enabled.Some? ==> e.enabled == q.enabled.value)
    && (q.requiresVision ==> e.supportsVision == Some(true))
    && (q.requiresTools ==> e.supportsTools == Some(true))
    && (q.requiresStructuredOutput ==> e.supportsStructuredOutput == Some(true))
    && (q.requiresEmbeddings ==> e.supportsEmbeddings == Some(true))
    && (q.minContextTokens.Some? ==> e.maxContextTokens.Some? && e.maxContextTokens.value >= q.minContextTokens.value)
    && (q.minQualityScore.Some? ==> e.qualityScore.Some? && e.qualityScore.value >= q.minQualityScore.value)
    && (q.requireKnownPricing ==> e.inputCost.Some? && e.outputCost.Some? && e.costUnit.Some?)
  }

  predicate ByName(a: Entry, b: Entry) {
    TextLe(a.modelName, b.modelName)
  }

  lemma ByNameIsOrder()
    ensures TotalPreorder(ByName)
  {
    TextOrder();
  }

  function Matching(rows: seq<Entry>, q: ModelQuery): seq<Entry> {
    Sort(ByName, Filter((e: Entry) => Matches(q, e), rows))
  }

  function Skip<T>(s: seq<T>, n: nat): seq<T> {
    if |s| <= n then [] else s[n..]
  }

  function Page<T>(s: seq<T>, offset: nat, limit: nat): seq<T> {
    Take(Skip(s, offset), limit)
  }

  /** The page of matching rows, and how many match in all. */
  function ListModels(rows: seq<Entry>, q: ModelQuery): (seq<Entry>, nat) {
    (Page(Matching(rows, q), q.offset, q.limit), |Matching(rows, q)|)
  }

  /** Which rows match does not depend on the page asked for. */
  lemma PagingDoesNotFilter(rows: seq<Entry>, q: ModelQuery, p: ModelQuery)
    requires p == q.(offset := p.offset, limit := p.limit)
    ensures ListModels(rows, p).0 == Page(Matching(rows, q), p.offset, p.limit)
  {
    FilterAgrees((e: Entry) => Matches(q, e), (e: Entry) => Matches(p, e), rows);
  }

  /** Two consecutive pages are the one long page: nothing repeated, nothing skipped. */
  lemma PagesTile(rows: seq<Entry>, q: ModelQuery, more: nat)
    ensures ListModels(rows, q).0 + ListModels(rows, q.(offset := q.offset + q.limit, limit := more)).0
         == ListModels(rows, q.(limit := q.limit + more)).0
  {
    var rest, both := q.(offset := q.offset + q.limit, limit := more), q.(limit := q.limit + more);
    PagingDoesNotFilter(rows, q, q);
    PagingDoesNotFilter(rows, q, rest);
    PagingDoesNotFilter(rows, q, both);
    PagesOfOneList(Matching(rows, q), q.offset, q.limit, more, ListModels(rows, q).0, ListModels(rows, rest).0, ListModels(rows, both).0);
  }

  lemma PagesOfOneList<T>(s: seq<T>, offset: nat, limit: nat, more: nat, first: seq<T>, second: seq<T>, both: seq<T>)
    requires first == Page(s, offset, limit) && second == Page(s, offset + limit, more) && both == Page(s, offset, limit + more)
    ensures first + second == both
  {
  }

  // ---- rows in name order

  /** Rows drawn from a registry: no repetition, and a name or an id identifies the row. */
  ghost predicate Drawn(s: seq<Entry>) {
    && NoDuplicates(s)
    && forall x, y :: x in s && y in s && (x.modelName == y.modelName || x.id == y.id) ==> x == y
  }

  lemma {:induction false} FilterKeepsDistinct<T>(rows: seq<T>, keep: T -> bool)
    requires NoDuplicates(rows)
    ensures NoDuplicates(Filter(keep, rows))
  {
    if rows != [] {
      FilterMembers(keep, rows[1..]);
      assert rows[0] !in rows[1..];
      FilterKeepsDistinct(rows[1..], keep);
    }
  }

  lemma FilterDraws(rows: seq<Entry>, keep: Entry -> bool)
    requires Drawn(rows)
    ensures Drawn(Filter(keep, rows))
  {
    FilterMembers(keep, rows);
    FilterKeepsDistinct(rows, keep);
  }

  lemma SortDraws(s: seq<Entry>)
    requires Drawn(s)
    ensures Drawn(Sort(ByName, s)) && Sorted(ByName, Sort(ByName, s))
    ensures forall x :: x in Sort(ByName, s) <==> x in s
    ensures NoTies(ByName, s)
  {
    ByNameIsOrder();
    SortSorts(ByName, s);
    SortMembers(ByName, s);
    SortPermutes(ByName, s);
    ContentsDuplicateFree(s, Sort(ByName, s));
    TextOrder();
  }

  // ---- the first k rows by name

  function FirstK(s: seq<Entry>, k: nat): seq<Entry> {
    Take(Sort(ByName, s), k)
  }

  /** The rows that come before `e` by name. */
  ghost function Ahead(s: seq<Entry>, e: Entry): set<Entry> {
    set x | x in s && x != e && ByName(x, e)
  }

  ghost function Members<T>(s: seq<T>): set<T> {
    set x | x in s
  }

  lemma MembersGrow<T>(s: seq<T>, x: T)
    requires x !in s
    ensures |Members(s + [x])| == |Members(s)| + 1
  {
    assert Members(s + [x]) == Members(s) + {x};
  }

  lemma {:induction false} PrefixSize<T>(s: seq<T>, n: nat)
    requires NoDuplicates(s) && n <= |s|
    ensures |Members(s[..n])| == n
  {
    if n > 0 {
      PrefixSize(s, n - 1);
      MembersGrow(s[..n - 1], s[n - 1]);
      assert s[..n] == s[..n - 1] + [s[n - 1]];
    }
  }

  /** In a sorted list without ties, exactly the earlier rows are ahead. */
  lemma AheadIsPrefix(s: seq<Entry>, m: nat)
    requires Drawn(s) && Sorted(ByName, s) && m < |s|
    ensures Ahead(s, s[m]) == Members(s[..m])
    ensures |Ahead(s, s[m])| == m
  {
    TextOrder();
    forall x ensures x in Ahead(s, s[m]) <==> x in s[..m] {
      if x in s {
        var i :| 0 <= i < |s| && s[i] == x;
        if i < m {
          assert s[..m][i] == x;
        } else if i > m {
          assert ByName(s[m], s[i]);
        }
        if x in s[..m] {
          var h :| 0 <= h < m && s[..m][h] == x;
          assert ByName(s[h], s[m]);
        }
      }
    }
    PrefixSize(s, m);
  }

  /** A row is among the first k exactly when fewer than k rows are ahead of it. */
  lemma InFirstK(s: seq<Entry>, k: nat, e: Entry)
    requires Drawn(s)
    ensures e in FirstK(s, k) <==> e in s && |Ahead(s, e)| < k
  {
    SortDraws(s);
    var t := Sort(ByName, s);
    if e in s {
      var m :| 0 <= m < |t| && t[m] == e;
      AheadIsPrefix(t, m);
      assert Ahead(s, e) == Ahead(t, e);
      if m < k {
        assert Take(t, k)[m] == e;
      }
      if e in Take(t, k) {
        var n :| 0 <= n < |Take(t, k)| && Take(t, k)[n] == e;
        assert n == m;
      }
    }
  }

  lemma FirstKShape(s: seq<Entry>, k: nat)
    requires Drawn(s)
    ensures NoDuplicates(FirstK(s, k)) && Sorted(ByName, FirstK(s, k)) && NoTies(ByName, FirstK(s, k))
    ensures |FirstK(s, k)| == if |s| <= k then |s| else k
    ensures forall x :: x in FirstK(s, k) ==> x in s
  {
    SortDraws(s);
    SortPermutes(ByName, s);
    forall x | x in FirstK(s, k) ensures x in s {
      InFirstK(s, k, x);
    }
  }

  /** A row with k rows ahead of it in the larger list has k rows ahead of it in any part that keeps the first k. */
  lemma StillBehindK(part: seq<Entry>, whole: seq<Entry>, k: nat, e: Entry)
    requires Drawn(part) && Drawn(whole)
    requires forall x :: x in FirstK(whole, k) ==> x in part
    requires e in whole && |Ahead(whole, e)| >= k
    ensures |Ahead(part, e)| >= k
  {
    var first := FirstK(whole, k);
    SortDraws(whole);
    var t := Sort(ByName, whole);
    var m :| 0 <= m < |t| && t[m] == e;
    AheadIsPrefix(t, m);
    assert Ahead(whole, e) == Ahead(t, e);
    assert first == t[..k];
    forall x | x in first ensures x in Ahead(part, e) {
      var i :| 0 <= i < k && t[i] == x;
      assert i != m ==> ByName(t[i], t[m]);
      assert x == t[i] && (i < m ==> x != e);
    }
    PrefixSize(t, k);
    assert Members(t[..k]) <= Ahead(part, e);
    SubsetSize(Members(t[..k]), Ahead(part, e));
  }

  lemma SubsetSize<T>(a: set<T>, b: set<T>)
    requires a <= b
    ensures |a| <= |b|
  {
    assert b == a + (b - a);
  }

  /** Keeping only part of a list loses none of its first k rows, provided the part has those k. */
  lemma PartHasSameFirstK(part: seq<Entry>, whole: seq<Entry>, k: nat)
    requires Drawn(part) && Drawn(whole)
    requires forall x :: x in part ==> x in whole
    requires forall x :: x in FirstK(whole, k) ==> x in part
    ensures FirstK(part, k) == FirstK(whole, k)
  {
    forall e ensures e in FirstK(part, k) <==> e in FirstK(whole, k) {
      InFirstK(part, k, e);
      InFirstK(whole, k, e);
      if e in FirstK(whole, k) {
        assert Ahead(part, e) <= Ahead(whole, e);
        SubsetSize(Ahead(part, e), Ahead(whole, e));
      }
      if e in whole && |Ahead(whole, e)| >= k {
        StillBehindK(part, whole, k, e);
      }
    }
    FirstKShape(part, k);
    FirstKShape(whole, k);
    SameMembersSameContents(FirstK(part, k), FirstK(whole, k));
    SortedUnique(ByName, FirstK(part, k), FirstK(whole, k));
  }

  // ---- models for a workload

  datatype Profile = Profile(capabilities: seq<Capability>, requiresVision: bool)

  function WorkloadProfile(workloadType: string): Option<Profile> {
    if workloadType == "quality_check" then Some(Profile([Vision, MultimodalModel], true))
    else if workloadType == "predictive_maintenance" || workloadType == "supply_chain" then Some(Profile([Reasoning, TextModel], false))
    else None
  }

  datatype Thresholds = Thresholds(minContextTokens: Option<int>, minQualityScore: Option<real>, requireKnownPricing: bool)

  predicate MeetsThresholds(e: Entry, t: Thresholds) {
    && (t.minContextTokens.Some? ==> e.maxContextTokens.Some? && e.maxContextTokens.value >= t.minContextTokens.value)
    && (t.minQualityScore.Some? ==> e.qualityScore.Some? && e.qualityScore.value >= t.minQualityScore.value)
    && (t.requireKnownPricing ==> e.inputCost.Some? && e.outputCost.Some? && e.costUnit.Some?)
  }

  /** The in-memory check: one pass over the profile. */
  predicate IsCompatible(e: Entry, workloadType: string, modality: Option<Modality>) {
    match WorkloadProfile(workloadType)
    case None => false
    case Some(profile) =>
      && e.enabled
      && e.capability in profile.capabilities
      && (profile.requiresVision ==> e.supportsVision == Some(true))
      && (modality.Some? ==> e.modality == modality)
  }

  function CandidateQuery(c: Capability, profile: Profile, modality: Option<Modality>, t: Thresholds, limit: nat): ModelQuery {
    ModelQuery(Some(c), modality, Some(true), profile.requiresVision, false, false, false,
               t.minContextTokens, t.minQualityScore, t.requireKnownPricing, limit, 0)
  }

  /** What one pass over the whole registry would call suitable. */
  function Suitable(rows: seq<Entry>, workloadType: string, modality: Option<Modality>, t: Thresholds): seq<Entry> {
    Filter((e: Entry) => IsCompatible(e, workloadType, modality) && MeetsThresholds(e, t), rows)
  }

  function FindForWorkload(rows: seq<Entry>, workloadType: string, modality: Option<Modality>, t: Thresholds, limit: nat): seq<Entry> {
    FirstK(Suitable(rows, workloadType, modality, t), limit)
  }

  /** A dictionary keyed by id, as its values in insertion order. */
  method Put(seen: seq<Entry>, e: Entry) returns (updated: seq<Entry>)
    requires Drawn(seen)
    requires forall x :: x in seen && (x.id == e.id || x.modelName == e.modelName) ==> x == e
    ensures Drawn(updated)
    ensures forall x :: x in updated <==> x in seen || x == e
  {
    for i := 0 to |seen|
      invariant forall j :: 0 <= j < i ==> seen[j].id != e.id
    {
      if seen[i].id == e.id {
        assert seen[i] in seen && seen[i := e] == seen;
        return seen[i := e];
      }
    }
    assert e !in seen;
    updated := seen + [e];
  }

  lemma RegistryIsDrawn(rows: seq<Entry>)
    requires Registry(rows)
    ensures Drawn(rows)
  {
  }

  lemma PageOfCapability(rows: seq<Entry>, c: Capability, profile: Profile, modality: Option<Modality>, t: Thresholds, limit: nat)
    requires Drawn(rows)
    ensures var q := CandidateQuery(c, profile, modality, t, limit);
            var matching := Filter((e: Entry) => Matches(q, e), rows);
            && Drawn(matching)
            && ListModels(rows, q).0 == FirstK(matching, limit)
            && (forall e :: e in matching <==> e in rows && Matches(q, e))
  {
    var q := CandidateQuery(c, profile, modality, t, limit);
    FilterDraws(rows, (e: Entry) => Matches(q, e));
    FilterMembers((e: Entry) => Matches(q, e), rows);
    assert Skip(Matching(rows, q), 0) == Matching(rows, q);
  }

  /** Dropping a row from the merge costs nothing: the capability's own page already holds every row of the overall first k. */
  lemma PageKeepsOverallFirst(
    rows: seq<Entry>, workloadType: string, modality: Option<Modality>, t: Thresholds, limit: nat, e: Entry
  )
    requires Drawn(rows) && WorkloadProfile(workloadType).Some?
    requires e in FirstK(Suitable(rows, workloadType, modality, t), limit)
    ensures var profile := WorkloadProfile(workloadType).value;
            && e.capability in profile.capabilities
            && e in ListModels(rows, CandidateQuery(e.capability, profile, modality, t, limit)).0
  {
    var profile := WorkloadProfile(workloadType).value;
    var q := CandidateQuery(e.capability, profile, modality, t, limit);
    var suitable := Suitable(rows, workloadType, modality, t);
    SuitableRows(rows, workloadType, modality, t);
    PageOfCapability(rows, e.capability, profile, modality, t, limit);
    var matching := Filter((x: Entry) => Matches(q, x), rows);
    InFirstK(suitable, limit, e);
    InFirstK(matching, limit, e);
    assert Ahead(matching, e) <= Ahead(suitable, e);
    SubsetSize(Ahead(matching, e), Ahead(suitable, e));
  }

  lemma SuitableRows(rows: seq<Entry>, workloadType: string, modality: Option<Modality>, t: Thresholds)
    requires Drawn(rows)
    ensures Drawn(Suitable(rows, workloadType, modality, t))
    ensures forall e :: e in Suitable(rows, workloadType, modality, t)
                   <==> e in rows && IsCompatible(e, workloadType, modality) && MeetsThresholds(e, t)
  {
    FilterDraws(rows, (e: Entry) => IsCompatible(e, workloadType, modality) && MeetsThresholds(e, t));
    FilterMembers((e: Entry) => IsCompatible(e, workloadType, modality) && MeetsThresholds(e, t), rows);
  }

  /** The row is on the page of one of the first `n` capabilities. */
  ghost predicate OnPage(rows: seq<Entry>, profile: Profile, modality: Option<Modality>, t: Thresholds, limit: nat, n: nat, e: Entry)
    requires n <= |profile.capabilities|
  {
    exists i :: 0 <= i < n && e in ListModels(rows, CandidateQuery(profile.capabilities[i], profile, modality, t, limit)).0
  }

  /** Everything on a capability's page is suitable. */
  lemma PagesAreSuitable(
    rows: seq<Entry>, workloadType: string, modality: Option<Modality>, t: Thresholds, limit: nat, c: Capability, e: Entry
  )
    requires Drawn(rows) && WorkloadProfile(workloadType).Some?
    requires c in WorkloadProfile(workloadType).value.capabilities
    requires e in ListModels(rows, CandidateQuery(c, WorkloadProfile(workloadType).value, modality, t, limit)).0
    ensures e in Suitable(rows, workloadType, modality, t)
  {
    var profile := WorkloadProfile(workloadType).value;
    PageOfCapability(rows, c, profile, modality, t, limit);
    FirstKShape(Filter((x: Entry) => Matches(CandidateQuery(c, profile, modality, t, limit), x), rows), limit);
    SuitableRows(rows, workloadType, modality, t);
  }

  /**
   One name-ordered query of at most `limit` rows per capability, merged by id, re-sorted and
   truncated, returns exactly the first `limit` rows by name of everything suitable in the
   registry, whatever the registry and the limit. An unknown workload type gets nothing.
   */
  method FindModelsForWorkload(
    rows: seq<Entry>, workloadType: string, modality: Option<Modality>, t: Thresholds, limit: nat
  ) returns (found: seq<Entry>)
    requires Registry(rows)
    ensures found == FindForWorkload(rows, workloadType, modality, t, limit)
  {
    RegistryIsDrawn(rows);
    var suitable := Suitable(rows, workloadType, modality, t);
    SuitableRows(rows, workloadType, modality, t);
    if WorkloadProfile(workloadType).None? {
      assert forall e :: e !in suitable;
      return [];
    }
    var profile := WorkloadProfile(workloadType).value;
    var seen: seq<Entry> := [];
    for i := 0 to |profile.capabilities|
      invariant Drawn(seen)
      invariant forall e :: e in seen <==> OnPage(rows, profile, modality, t, limit, i, e)
      invariant forall e :: e in seen ==> e in suitable
    {
      var page := ListModels(rows, CandidateQuery(profile.capabilities[i], profile, modality, t, limit)).0;
      forall e | e in page ensures e in suitable {
        PagesAreSuitable(rows, workloadType, modality, t, limit, profile.capabilities[i], e);
      }
      seen := MergePage(seen, page, suitable);
      forall e ensures e in seen <==> OnPage(rows, profile, modality, t, limit, i + 1, e) {
      }
    }
    forall e | e in FirstK(suitable, limit) ensures e in seen {
      PageKeepsOverallFirst(rows, workloadType, modality, t, limit, e);
      var i :| 0 <= i < |profile.capabilities| && profile.capabilities[i] == e.capability;
      assert OnPage(rows, profile, modality, t, limit, |profile.capabilities|, e);
    }
    PartHasSameFirstK(seen, suitable, limit);
    found := Take(Sort(ByName, seen), limit);
  }

  method MergePage(seen: seq<Entry>, page: seq<Entry>, ghost suitable: seq<Entry>) returns (merged: seq<Entry>)
    requires Drawn(seen) && Drawn(suitable)
    requires forall e :: e in seen || e in page ==> e in suitable
    ensures Drawn(merged)
    ensures forall e :: e in merged <==> e in seen || e in page
  {
    merged := seen;
    for n := 0 to |page|
      invariant Drawn(merged)
      invariant forall e :: e in merged <==> e in seen || e in page[..n]
    {
      assert page[n] in page;
      assert page[..n + 1] == page[..n] + [page[n]];
      merged := Put(merged, page[n]);
    }
    assert page[..|page|] == page;
  }

  // ---- which rows are found, column by column

  /** What a workload needs of a model, workload by workload. */
  predicate ServesWorkload(e: Entry, workloadType: string) {
    || (workloadType == "quality_check" && (e.capability == Vision || e.capability == MultimodalModel) && e.supportsVision == Some(true))
    || ((workloadType == "predictive_maintenance" || workloadType == "supply_chain") && (e.capability == Reasoning || e.capability == TextModel))
  }

  lemma CompatibleExactlyWhen(e: Entry, workloadType: string, modality: Option<Modality>)
    ensures IsCompatible(e, workloadType, modality) <==>
      e.enabled && ServesWorkload(e, workloadType) && (modality == None || e.modality == modality)
  {
  }

  /** Serves the workload in the modality, and meets every threshold that is set with a known value. */
  predicate Qualifies(e: Entry, workloadType: string, modality: Option<Modality>, t: Thresholds) {
    && e.enabled && ServesWorkload(e, workloadType) && (modality == None || e.modality == modality)
    && (t.minContextTokens == None || (e.maxContextTokens.Some? && e.maxContextTokens.value >= t.minContextTokens.value))
    && (t.minQualityScore == None || (e.qualityScore.Some? && e.qualityScore.value >= t.minQualityScore.value))
    && (!t.requireKnownPricing || (e.inputCost.Some? && e.outputCost.Some? && e.costUnit.Some?))
  }

  /** The qualifying models whose names come no later. */
  ghost function QualifyingBefore(
    rows: seq<Entry>, workloadType: string, modality: Option<Modality>, t: Thresholds, e: Entry
  ): set<Entry> {
    set x | x in rows && Qualifies(x, workloadType, modality, t) && x != e && TextLe(x.modelName, e.modelName)
  }

  lemma SuitableQualify(rows: seq<Entry>, workloadType: string, modality: Option<Modality>, t: Thresholds, e: Entry)
    requires Drawn(rows)
    ensures e in Suitable(rows, workloadType, modality, t) <==> e in rows && Qualifies(e, workloadType, modality, t)
  {
    SuitableRows(rows, workloadType, modality, t);
    CompatibleExactlyWhen(e, workloadType, modality);
  }

  /** A model is found exactly when it qualifies and fewer qualifying models than the limit come before it by name. */
  lemma FoundExactlyWhen(rows: seq<Entry>, workloadType: string, modality: Option<Modality>, t: Thresholds, limit: nat, e: Entry)
    requires Registry(rows)
    ensures e in FindForWorkload(rows, workloadType, modality, t, limit) <==>
      e in rows && Qualifies(e, workloadType, modality, t) && |QualifyingBefore(rows, workloadType, modality, t, e)| < limit
  {
    var suitable := Suitable(rows, workloadType, modality, t);
    RegistryIsDrawn(rows);
    SuitableRows(rows, workloadType, modality, t);
    InFirstK(suitable, limit, e);
    SuitableQualify(rows, workloadType, modality, t, e);
    forall x ensures x in Ahead(suitable, e) <==> x in QualifyingBefore(rows, workloadType, modality, t, e) {
      SuitableQualify(rows, workloadType, modality, t, x);
    }
    assert Ahead(suitable, e) == QualifyingBefore(rows, workloadType, modality, t, e);
  }

  /** Each criterion that is set must be met by a known value, on its own column. */
  predicate Meets(e: Entry, q: ModelQuery) {
    && (q.capability == None || Some(e.capability) == q.capability)
    && (q.modality == None || e.modality == q.modality)
    && (q.enabled == None || Some(e.enabled) == q.enabled)
    && (!q.requiresVision || e.supportsVision == Some(true))
    && (!q.requiresTools || e.supportsTools == Some(true))
    && (!q.requiresStructuredOutput || e.supportsStructuredOutput == Some(true))
    && (!q.requiresEmbeddings || e.supportsEmbeddings == Some(true))
    && (q.minContextTokens == None || (e.maxContextTokens.Some? && e.maxContextTokens.value >= q.minContextTokens.value))
    && (q.minQualityScore == None || (e.qualityScore.Some? && e.qualityScore.value >= q.minQualityScore.value))
    && (!q.requireKnownPricing || (e.inputCost.Some? && e.outputCost.Some? && e.costUnit.Some?))
  }

  /** A listing is the rows that meet the query, in order of names, from the offset on and at most as many as the limit; its count is of all of them. */
  lemma ListedExactly(rows: seq<Entry>, q: ModelQuery)
    ensures var all, page := Matching(rows, q), ListModels(rows, q);
            && (forall e :: e in all <==> e in rows && Meets(e, q))
            && (forall i, j :: 0 <= i < j < |all| ==> TextLe(all[i].modelName, all[j].modelName))
            && page.1 == |all|
            && |page.0| == (if q.offset >= |all| then 0 else if |all| - q.offset < q.limit then |all| - q.offset else q.limit)
            && (forall i :: 0 <= i < |page.0| ==> page.0[i] == all[q.offset + i])
  {
    var keep := (e: Entry) => Matches(q, e);
    FilterMembers(keep, rows);
    SortMembers(ByName, Filter(keep, rows));
    ByNameIsOrder();
    SortSorts(ByName, Filter(keep, rows));
    var all := Matching(rows, q);
    forall e ensures e in all <==> e in rows && Meets(e, q) {
      assert Matches(q, e) <==> Meets(e, q);
    }
    forall i, j | 0 <= i < j < |all| ensures TextLe(all[i].modelName, all[j].modelName) {
      assert ByName(all[i], all[j]);
    }
  }
}
