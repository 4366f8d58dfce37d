/**
 Picking one model from the compatible candidates. The pick is the least candidate under a
 lexicographic key in which unknown metadata sorts last, with the name as the final tie-break.
 */
module ModelSelection {
  import opened Wrappers
  import opened Ordering
  import opened ModelRegistry

  /** A float that may be infinity. */
  datatype Extended = Finite(value: real) | Infinite

  predicate ExtLe(a: Extended, b: Extended) {
    b.Infinite? || (a.Finite? && a.value <= b.value)
  }

  datatype Key = Key(first: Extended, second: Extended, third: Extended, fourth: Extended, name: string)

  predicate KeyLe(a: Key, b: Key) {
    if a.first != b.first then ExtLe(a.first, b.first)
    else if a.second != b.second then ExtLe(a.second, b.second)
    else if a.third != b.third then ExtLe(a.third, b.third)
    else if a.fourth != b.fourth then ExtLe(a.fourth, b.fourth)
    else TextLe(a.name, b.name)
  }

  function KnownOrInfinite(x: Option<real>): Extended {
    if x.Some? then Finite(x.value) else Infinite
  }

  /** The key descends with quality, and an unknown score enters it as zero. */
  function QualityKey(e: Entry): Extended {
    Finite(if e.qualityScore.Some? then -e.qualityScore.value else 0.0)
  }

  function SortKey(e: Entry, preferCheapest: bool): Key {
    var unpriced := Finite(if e.inputCost.Some? then 0.0 else 1.0);
    var cost, latency := KnownOrInfinite(e.inputCost), KnownOrInfinite(e.latencyScore);
    if preferCheapest then Key(unpriced, cost, QualityKey(e), latency, e.modelName)
    else Key(QualityKey(e), unpriced, cost, latency, e.modelName)
  }

  predicate CheapestLe(a: Entry, b: Entry) {
    KeyLe(SortKey(a, true), SortKey(b, true))
  }

  predicate BestLe(a: Entry, b: Entry) {
    KeyLe(SortKey(a, false), SortKey(b, false))
  }

  function Preference(preferCheapest: bool): (Entry, Entry) -> bool {
    if preferCheapest then CheapestLe else BestLe
  }

  function SelectModel(candidates: seq<Entry>, preferCheapest: bool): Option<Entry> {
    if candidates == [] then None else
      SortPermutes(Preference(preferCheapest), candidates);
      Some(Sort(Preference(preferCheapest), candidates)[0])
  }

  lemma KeyOrder(a: Key, b: Key, c: Key)
    ensures KeyLe(a, b) || KeyLe(b, a)
    ensures KeyLe(a, b) && KeyLe(b, c) ==> KeyLe(a, c)
    ensures KeyLe(a, b) && KeyLe(b, a) ==> a == b
  {
    TextTotal(a.name, b.name);
    if KeyLe(a, b) && KeyLe(b, c) && TextLe(a.name, b.name) && TextLe(b.name, c.name) {
      TextTransitive(a.name, b.name, c.name);
    }
  }

  lemma PreferenceIsOrder(preferCheapest: bool)
    ensures TotalPreorder(Preference(preferCheapest))
    ensures forall a, b :: Preference(preferCheapest)(a, b) && Preference(preferCheapest)(b, a) ==> a.modelName == b.modelName
  {
    var le := Preference(preferCheapest);
    forall a, b ensures le(a, b) || le(b, a)
                ensures le(a, b) && le(b, a) ==> a.modelName == b.modelName {
      KeyOrder(SortKey(a, preferCheapest), SortKey(b, preferCheapest), SortKey(a, preferCheapest));
    }
    forall a, b, c | le(a, b) && le(b, c) ensures le(a, c) {
      KeyOrder(SortKey(a, preferCheapest), SortKey(b, preferCheapest), SortKey(c, preferCheapest));
    }
  }

  /** The pick is a candidate, and least under the key. */
  lemma SelectionIsLeast(candidates: seq<Entry>, preferCheapest: bool)
    requires candidates != []
    ensures var pick := SelectModel(candidates, preferCheapest).value;
            && pick in candidates
            && forall c :: c in candidates ==> KeyLe(SortKey(pick, preferCheapest), SortKey(c, preferCheapest))
  {
    var le := Preference(preferCheapest);
    PreferenceIsOrder(preferCheapest);
    SortSorts(le, candidates);
    SortMembers(le, candidates);
    SortPermutes(le, candidates);
    var sorted := Sort(le, candidates);
    assert sorted[0] in sorted;
    forall c | c in candidates ensures le(sorted[0], c) {
      var i :| 0 <= i < |sorted| && sorted[i] == c;
      assert i > 0 ==> le(sorted[0], sorted[i]);
    }
  }

  /** With distinct names the pick does not depend on the order the candidates came in. */
  lemma SelectionOrderIndependent(a: seq<Entry>, b: seq<Entry>, preferCheapest: bool)
    requires Drawn(a)
    requires multiset(a) == multiset(b)
    ensures SelectModel(a, preferCheapest) == SelectModel(b, preferCheapest)
  {
    PreferenceIsOrder(preferCheapest);
    SameContents(a, b);
    SortOrderIndependent(Preference(preferCheapest), a, b);
  }

  // ---- what the key means

  predicate Less(x: Option<real>, y: Option<real>) {
    x.Some? && (y.None? || x.value < y.value)
  }

  /** Under budget pressure the pick is priced whenever anything is, and nothing is cheaper. */
  lemma DowngradePicksCheapest(candidates: seq<Entry>)
    requires candidates != []
    ensures var pick := SelectModel(candidates, true).value;
            && (pick.inputCost.None? <==> forall c :: c in candidates ==> c.inputCost.None?)
            && (forall c :: c in candidates ==> !Less(c.inputCost, pick.inputCost))
  {
    SelectionIsLeast(candidates, true);
    var pick := SelectModel(candidates, true).value;
    forall c | c in candidates ensures !Less(c.inputCost, pick.inputCost) {
      assert KeyLe(SortKey(pick, true), SortKey(c, true));
    }
  }

  function Score(e: Entry): real {
    if e.qualityScore.Some? then e.qualityScore.value else 0.0
  }

  /** Better quality, or equal quality and a better known price, or both equal and a better known latency. */
  predicate Beats(a: Entry, b: Entry) {
    || Score(a) > Score(b)
    || (Score(a) == Score(b)
        && (|| Less(a.inputCost, b.inputCost)
            || (a.inputCost == b.inputCost && Less(a.latencyScore, b.latencyScore))))
  }

  /** Otherwise quality leads: no candidate beats the pick. */
  lemma NothingBeatsThePick(candidates: seq<Entry>)
    requires candidates != []
    ensures forall c :: c in candidates ==> !Beats(c, SelectModel(candidates, false).value)
  {
    SelectionIsLeast(candidates, false);
    var pick := SelectModel(candidates, false).value;
    forall c | c in candidates ensures !Beats(c, pick) {
      assert KeyLe(SortKey(pick, false), SortKey(c, false));
    }
  }

  // ---- is an unmeasured model ever preferred over a measured one?

  /** Cheaper, or as cheap and faster, or alike in both and first by name; the unknown comes last. */
  predicate PrecedesOnPrice(a: Entry, b: Entry) {
    || Less(a.inputCost, b.inputCost)
    || (a.inputCost == b.inputCost
        && (|| Less(a.latencyScore, b.latencyScore)
            || (a.latencyScore == b.latencyScore && TextLe(a.modelName, b.modelName))))
  }

  /** Cheaper, or as cheap and better, or alike in both and faster or first by name. */
  predicate PrecedesUnderBudget(a: Entry, b: Entry) {
    || Less(a.inputCost, b.inputCost)
    || (a.inputCost == b.inputCost
        && (|| Score(a) > Score(b)
            || (Score(a) == Score(b)
                && (|| Less(a.latencyScore, b.latencyScore)
                    || (a.latencyScore == b.latencyScore && TextLe(a.modelName, b.modelName))))))
  }

  /** Both orderings in terms of the metadata: the downgrade one leads with price, the normal one with quality. */
  lemma PreferenceReads(a: Entry, b: Entry)
    ensures Preference(true)(a, b) <==> PrecedesUnderBudget(a, b)
    ensures Preference(false)(a, b) <==> Score(a) > Score(b) || (Score(a) == Score(b) && PrecedesOnPrice(a, b))
  {
  }

  /** Under budget pressure by price, then score, then latency, then name; otherwise by score, then price, then latency, then name. */
  predicate Precedes(a: Entry, b: Entry, preferCheapest: bool) {
    if preferCheapest then PrecedesUnderBudget(a, b)
    else Score(a) > Score(b) || (Score(a) == Score(b) && PrecedesOnPrice(a, b))
  }

  /** A candidate is picked exactly when it precedes every other: on price under budget pressure, and otherwise on its score before its price. */
  lemma PickedExactlyWhen(candidates: seq<Entry>, preferCheapest: bool, e: Entry)
    requires Drawn(candidates) && e in candidates
    ensures SelectModel(candidates, preferCheapest) == Some(e) <==>
      forall c :: c in candidates ==> Precedes(e, c, preferCheapest)
  {
    var le, pick := Preference(preferCheapest), SelectModel(candidates, preferCheapest).value;
    PreferenceIsOrder(preferCheapest);
    SelectionIsLeast(candidates, preferCheapest);
    forall c | c in candidates ensures le(pick, c) {
      assert KeyLe(SortKey(pick, preferCheapest), SortKey(c, preferCheapest));
    }
    forall c {
      PreferenceReads(e, c);
    }
  }

  /** The pick has a property exactly when some candidate with it precedes every candidate without it. */
  lemma PickHasExactlyWhen(candidates: seq<Entry>, preferCheapest: bool, has: Entry -> bool)
    requires Drawn(candidates) && candidates != []
    ensures has(SelectModel(candidates, preferCheapest).value)
       <==> exists m :: m in candidates && has(m) && forall u :: u in candidates && !has(u) ==> Preference(preferCheapest)(m, u)
  {
    var le, pick := Preference(preferCheapest), SelectModel(candidates, preferCheapest).value;
    PreferenceIsOrder(preferCheapest);
    SelectionIsLeast(candidates, preferCheapest);
    forall c | c in candidates ensures le(pick, c) {
      assert KeyLe(SortKey(pick, preferCheapest), SortKey(c, preferCheapest));
    }
    if m :| m in candidates && has(m) && forall u :: u in candidates && !has(u) ==> le(m, u) {
      assert le(pick, m) && (le(m, pick) ==> m == pick);
      assert has(pick) || le(m, pick);
    }
  }

  predicate Measured(e: Entry) {
    e.qualityScore.Some?
  }

  /** A measured candidate the list puts ahead of every unmeasured one. */
  ghost predicate MeasuredLeads(candidates: seq<Entry>, m: Entry, preferCheapest: bool) {
    && m in candidates && Measured(m)
    && if preferCheapest then forall u :: u in candidates && !Measured(u) ==> PrecedesUnderBudget(m, u)
       else Score(m) > 0.0 || forall u :: u in candidates && !Measured(u) ==> Score(m) == 0.0 && PrecedesOnPrice(m, u)
  }

  /**
   When the pick is measured. Normally: some measured score is positive, or a zero-scored measured
   model precedes every unmeasured one by price, latency and name. Under downgrade: a measured
   model precedes every unmeasured one by price, ties broken by score, latency and name.
   */
  lemma MeasuredPickExactlyWhen(candidates: seq<Entry>, preferCheapest: bool)
    requires Drawn(candidates) && candidates != []
    ensures Measured(SelectModel(candidates, preferCheapest).value)
       <==> exists m :: MeasuredLeads(candidates, m, preferCheapest)
  {
    var le := Preference(preferCheapest);
    PickHasExactlyWhen(candidates, preferCheapest, Measured);
    forall m | m in candidates && Measured(m)
      ensures MeasuredLeads(candidates, m, preferCheapest) <==> forall u :: u in candidates && !Measured(u) ==> le(m, u) {
      forall u | u in candidates && !Measured(u)
        ensures le(m, u) <==> if preferCheapest then PrecedesUnderBudget(m, u)
                              else Score(m) > 0.0 || (Score(m) == 0.0 && PrecedesOnPrice(m, u)) {
        PreferenceReads(m, u);
      }
    }
  }

  /** With measured scores of at least `floor`, an unmeasured model is never picked over a measured one. */
  ghost predicate UnmeasuredNeverPreferred(floor: real, preferCheapest: bool) {
    forall candidates: seq<Entry> ::
      && candidates != []
      && (forall c :: c in candidates && Measured(c) ==> c.qualityScore.value >= floor)
      ==> UnmeasuredOnlyAsLastResort(candidates, preferCheapest)
  }

  ghost predicate UnmeasuredOnlyAsLastResort(candidates: seq<Entry>, preferCheapest: bool)
    requires candidates != []
  {
    Measured(SelectModel(candidates, preferCheapest).value) || forall c :: c in candidates ==> !Measured(c)
  }

  function SampleEntry(name: string, cost: Option<real>, quality: Option<real>): Entry {
    Entry(name, name, Reasoning, None, cost, cost, None, None, None, None, None, None, quality, None, true)
  }

  /** A cheaper unmeasured model is taken over a measured one, however good, as soon as price leads. */
  lemma DowngradePrefersUnmeasured(quality: real)
    ensures var measured, unmeasured := SampleEntry("a", Some(2.0), Some(quality)), SampleEntry("b", Some(1.0), None);
            SelectModel([measured, unmeasured], true) == Some(unmeasured)
  {
    var measured, unmeasured := SampleEntry("a", Some(2.0), Some(quality)), SampleEntry("b", Some(1.0), None);
    SelectionIsLeast([measured, unmeasured], true);
    assert !KeyLe(SortKey(measured, true), SortKey(unmeasured, true)) && unmeasured in [measured, unmeasured];
  }

  lemma ZeroScoreTiesWithUnknown(score: real)
    requires score <= 0.0
    ensures var measured, unmeasured := SampleEntry("a", None, Some(score)), SampleEntry("b", Some(1.0), None);
            SelectModel([measured, unmeasured], false) == Some(unmeasured)
  {
    var measured, unmeasured := SampleEntry("a", None, Some(score)), SampleEntry("b", Some(1.0), None);
    SelectionIsLeast([measured, unmeasured], false);
    assert !KeyLe(SortKey(measured, false), SortKey(unmeasured, false)) && unmeasured in [measured, unmeasured];
  }

  /**
   As a promise over all lists, "an unmeasured model is never preferred over a measured one" holds
   exactly in the normal ordering with measured scores bounded above zero. Under downgrade no
   bound on the scores helps.
   */
  lemma UnmeasuredNeverPreferredExactlyWhen(floor: real, preferCheapest: bool)
    ensures UnmeasuredNeverPreferred(floor, preferCheapest) <==> !preferCheapest && floor > 0.0
  {
    if preferCheapest {
      DowngradePrefersUnmeasured(floor);
      var candidates := [SampleEntry("a", Some(2.0), Some(floor)), SampleEntry("b", Some(1.0), None)];
      assert candidates[0] in candidates && !UnmeasuredOnlyAsLastResort(candidates, true);
    } else if floor > 0.0 {
      forall candidates: seq<Entry> |
        && candidates != []
        && (forall c :: c in candidates && Measured(c) ==> c.qualityScore.value >= floor)
        ensures UnmeasuredOnlyAsLastResort(candidates, false) {
        NothingBeatsThePick(candidates);
        var pick := SelectModel(candidates, false).value;
        forall c | c in candidates && !Measured(pick) ensures !Measured(c) {
          assert !Beats(c, pick);
        }
      }
    } else {
      ZeroScoreTiesWithUnknown(floor);
      var candidates := [SampleEntry("a", None, Some(floor)), SampleEntry("b", Some(1.0), None)];
      assert candidates[0] in candidates && !UnmeasuredOnlyAsLastResort(candidates, false);
    }
  }

  // ---- the runner-up of a ranking

  function Without(candidates: seq<Entry>, id: string): seq<Entry> {
    Filter((c: Entry) => c.id != id, candidates)
  }

  function Ranking(candidates: seq<Entry>, preferCheapest: bool): seq<Entry> {
    Sort(Preference(preferCheapest), candidates)
  }

  function RunnerUp(candidates: seq<Entry>, preferCheapest: bool): Option<Entry> {
    var ranking := Ranking(candidates, preferCheapest);
    if |ranking| <= 1 then None else Some(ranking[1])
  }

  /** The best of a list without one of its members: the first of the ranking that is not that member. */
  lemma BestWithout(candidates: seq<Entry>, id: string, preferCheapest: bool)
    requires Drawn(candidates)
    ensures var ranking := Ranking(candidates, preferCheapest);
            SelectModel(Without(candidates, id), preferCheapest)
            == (if ranking == [] then None
                else if ranking[0].id != id then Some(ranking[0])
                else RunnerUp(candidates, preferCheapest))
  {
    var le, ranking, rest := Preference(preferCheapest), Ranking(candidates, preferCheapest), Without(candidates, id);
    SortPermutes(le, candidates);
    SortMembers(le, candidates);
    FilterMembers((c: Entry) => c.id != id, candidates);
    if ranking == [] {
      assert candidates == [] && rest == [];
    } else {
      assert ranking[0] in ranking;
      if ranking[0].id != id {
        HeadStays(candidates, rest, preferCheapest);
      } else {
        SecondIsBest(candidates, preferCheapest);
      }
    }
  }

  /** The pick is also the pick of any part of the list it belongs to. */
  lemma HeadStays(candidates: seq<Entry>, part: seq<Entry>, preferCheapest: bool)
    requires Drawn(candidates) && candidates != []
    requires forall c :: c in part ==> c in candidates
    requires SelectModel(candidates, preferCheapest).value in part
    ensures SelectModel(part, preferCheapest) == SelectModel(candidates, preferCheapest)
  {
    var pick, other := SelectModel(candidates, preferCheapest).value, SelectModel(part, preferCheapest).value;
    SelectionIsLeast(candidates, preferCheapest);
    SelectionIsLeast(part, preferCheapest);
    SamePick(candidates, pick, other, preferCheapest);
  }

  lemma SamePick(candidates: seq<Entry>, a: Entry, b: Entry, preferCheapest: bool)
    requires Drawn(candidates) && a in candidates && b in candidates
    requires KeyLe(SortKey(a, preferCheapest), SortKey(b, preferCheapest)) && KeyLe(SortKey(b, preferCheapest), SortKey(a, preferCheapest))
    ensures a == b
  {
    KeyOrder(SortKey(a, preferCheapest), SortKey(b, preferCheapest), SortKey(a, preferCheapest));
  }

  lemma SecondIsBest(candidates: seq<Entry>, preferCheapest: bool)
    requires Drawn(candidates) && candidates != []
    ensures SelectModel(Without(candidates, SelectModel(candidates, preferCheapest).value.id), preferCheapest)
         == RunnerUp(candidates, preferCheapest)
  {
    var le := Preference(preferCheapest);
    var ranking := Sort(le, candidates);
    SortPermutes(le, candidates);
    var failed := ranking[0];
    var remaining := Without(candidates, failed.id);
    PreferenceIsOrder(preferCheapest);
    SortSorts(le, candidates);
    SortMembers(le, candidates);
    ContentsDuplicateFree(candidates, ranking);
    FilterMembers((c: Entry) => c.id != failed.id, candidates);
    FilterDraws(candidates, (c: Entry) => c.id != failed.id);
    RestOfRanking(candidates, ranking, remaining);
    SortOfSorted(le, ranking[1..], remaining);
  }

  lemma SortOfSorted(le: (Entry, Entry) -> bool, sorted: seq<Entry>, s: seq<Entry>)
    requires TotalPreorder(le)
    requires Sorted(le, sorted) && multiset(sorted) == multiset(s) && NoTies(le, sorted)
    ensures Sort(le, s) == sorted && |s| == |sorted|
  {
    SortPermutes(le, s);
    SortSorts(le, s);
    SameContents(sorted, s);
    SortedUnique(le, sorted, Sort(le, s));
  }

  lemma RestOfRanking(candidates: seq<Entry>, ranking: seq<Entry>, remaining: seq<Entry>)
    requires Drawn(candidates) && NoDuplicates(ranking) && NoDuplicates(remaining) && ranking != []
    requires forall x :: x in ranking <==> x in candidates
    requires forall x :: x in remaining <==> x in candidates && x.id != ranking[0].id
    ensures multiset(ranking[1..]) == multiset(remaining)
  {
    assert ranking[0] in ranking;
    forall x ensures x in ranking[1..] <==> x in remaining {
      if x in ranking[1..] {
        assert x in ranking;
        assert x != ranking[0];
      }
      if x in remaining {
        assert x in ranking && x != ranking[0];
      }
    }
    SameMembersSameContents(ranking[1..], remaining);
  }

  // ---- a policy that pins a model

  const DEFAULT_LIMIT: nat := 50

  /** The candidates under a policy's quality floor, narrowed to the model the policy names, if it names one. */
  function Candidates(rows: seq<Entry>, workloadType: string, minimumQuality: Option<real>, pinned: Option<string>): seq<Entry> {
    var found := FindForWorkload(rows, workloadType, None, Thresholds(None, minimumQuality, false), DEFAULT_LIMIT);
    if pinned.Some? && pinned.value != "" then Filter((c: Entry) => c.id == pinned.value, found) else found
  }

  /** No pin, or an empty one, leaves the candidates as they are found. */
  lemma EmptyPinIsNoPin(rows: seq<Entry>, workloadType: string, minimumQuality: Option<real>)
    ensures var found := FindForWorkload(rows, workloadType, None, Thresholds(None, minimumQuality, false), 50);
            && Candidates(rows, workloadType, minimumQuality, None) == found
            && Candidates(rows, workloadType, minimumQuality, Some("")) == found
  {
  }

  /**
   A pinned model is the only candidate exactly when it is suitable and fewer than fifty
   suitable models come before it by name; beyond the first page the pin finds nothing.
   */
  lemma PinIsHonouredExactlyWhen(rows: seq<Entry>, workloadType: string, minimumQuality: Option<real>, e: Entry)
    requires Registry(rows) && e in rows && e.id != ""
    ensures var suitable := Suitable(rows, workloadType, None, Thresholds(None, minimumQuality, false));
            var candidates := Candidates(rows, workloadType, minimumQuality, Some(e.id));
            candidates == if e in suitable && |Ahead(suitable, e)| < DEFAULT_LIMIT then [e] else []
  {
    var t := Thresholds(None, minimumQuality, false);
    var suitable := Suitable(rows, workloadType, None, t);
    RegistryIsDrawn(rows);
    SuitableRows(rows, workloadType, None, t);
    var found := FirstK(suitable, DEFAULT_LIMIT);
    FirstKShape(suitable, DEFAULT_LIMIT);
    InFirstK(suitable, DEFAULT_LIMIT, e);
    forall c | c in found && c.id == e.id ensures c == e {
      assert c in rows;
    }
    OnlyOneKept(found, e);
  }

  lemma {:induction false} OnlyOneKept(found: seq<Entry>, e: Entry)
    requires NoDuplicates(found)
    requires forall c :: c in found && c.id == e.id ==> c == e
    ensures Filter((c: Entry) => c.id == e.id, found) == if e in found then [e] else []
  {
    if found != [] {
      assert forall c :: c in found <==> c == found[0] || c in found[1..];
      OnlyOneKept(found[1..], e);
      assert found[0] !in found[1..];
    }
  }

  // ---- a pin behind fifty names

  /** The letter a, i + 1 times. */
  function LongName(i: nat): string {
    seq(i + 1, k => 'a')
  }

  lemma {:induction false} LongNamesOrdered(i: nat, j: nat)
    requires i <= j
    ensures TextLe(LongName(i), LongName(j))
  {
    if i > 0 {
      LongNamesOrdered(i - 1, j - 1);
      assert LongName(i)[1..] == LongName(i - 1) && LongName(j)[1..] == LongName(j - 1);
    } else {
      assert LongName(0)[1..] == [];
    }
  }

  /** Fifty-one reasoning models, in name order. */
  function ManyModels(): seq<Entry> {
    seq(51, i requires 0 <= i < 51 => SampleEntry(LongName(i), None, None))
  }

  lemma ManyModelsAreSorted()
    ensures Registry(ManyModels()) && Drawn(ManyModels()) && Sorted(ByName, ManyModels())
  {
    var rows := ManyModels();
    forall i, j | 0 <= i < j < 51 ensures rows[i] != rows[j] && rows[i].modelName != rows[j].modelName && ByName(rows[i], rows[j]) {
      assert |rows[i].modelName| == i + 1 && |rows[j].modelName| == j + 1;
      LongNamesOrdered(i, j);
    }
  }

  lemma {:induction false} AllKept<T>(keep: T -> bool, s: seq<T>)
    requires forall x :: x in s ==> keep(x)
    ensures Filter(keep, s) == s
  {
    if s != [] {
      AllKept(keep, s[1..]);
    }
  }

  /** The last of fifty-one suitable models by name cannot be pinned: the plan is left without a candidate. */
  lemma PinBehindFiftyIsLost()
    ensures var rows := ManyModels();
            && Registry(rows) && rows[50] in Suitable(rows, "supply_chain", None, Thresholds(None, None, false))
            && Candidates(rows, "supply_chain", None, Some(rows[50].id)) == []
  {
    var rows, t := ManyModels(), Thresholds(None, None, false);
    ManyModelsAreSorted();
    AllKept((e: Entry) => IsCompatible(e, "supply_chain", None) && MeetsThresholds(e, t), rows);
    assert Suitable(rows, "supply_chain", None, t) == rows;
    AheadIsPrefix(rows, 50);
    assert rows[50] in rows;
    PinIsHonouredExactlyWhen(rows, "supply_chain", None, rows[50]);
  }
}
