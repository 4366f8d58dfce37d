/**
 What is tried after the planned model fails. The fallback queries the registry again, without the
 routing policy's quality floor and without its pinned model, and takes the best of what is left.
 */
module ModelFallback {
  import opened Wrappers
  import opened Ordering
  import opened ModelRegistry
  import opened ModelSelection

  function AtFloor(floor: Option<real>): Thresholds {
    Thresholds(None, floor, false)
  }

  predicate MeetsFloor(e: Entry, floor: Option<real>) {
    MeetsThresholds(e, AtFloor(floor))
  }

  /** Everything the workload could use, whatever its quality. */
  function Compatible(rows: seq<Entry>, workloadType: string): seq<Entry> {
    Suitable(rows, workloadType, None, AtFloor(None))
  }

  /** The fallback's own candidates: no floor and no pin. */
  function Unrestricted(rows: seq<Entry>, workloadType: string): seq<Entry> {
    FindForWorkload(rows, workloadType, None, AtFloor(None), DEFAULT_LIMIT)
  }

  function Remaining(rows: seq<Entry>, workloadType: string, failedId: string): seq<Entry> {
    Without(Unrestricted(rows, workloadType), failedId)
  }

  function FallbackModel(rows: seq<Entry>, workloadType: string, failedId: string, preferCheapest: bool): Option<Entry> {
    SelectModel(Remaining(rows, workloadType, failedId), preferCheapest)
  }

  lemma FoundRows(rows: seq<Entry>, workloadType: string, floor: Option<real>)
    requires Registry(rows)
    ensures var found := FindForWorkload(rows, workloadType, None, AtFloor(floor), DEFAULT_LIMIT);
            var suitable := Suitable(rows, workloadType, None, AtFloor(floor));
            && Drawn(suitable) && Drawn(found)
            && |found| == (if |suitable| <= DEFAULT_LIMIT then |suitable| else DEFAULT_LIMIT)
            && (forall e :: e in found <==> e in suitable && |Ahead(suitable, e)| < DEFAULT_LIMIT)
            && (forall e :: e in suitable <==> e in Compatible(rows, workloadType) && MeetsFloor(e, floor))
  {
    RegistryIsDrawn(rows);
    SuitableRows(rows, workloadType, None, AtFloor(floor));
    SuitableRows(rows, workloadType, None, AtFloor(None));
    var suitable := Suitable(rows, workloadType, None, AtFloor(floor));
    FirstKShape(suitable, DEFAULT_LIMIT);
    forall e ensures e in FirstK(suitable, DEFAULT_LIMIT) <==> e in suitable && |Ahead(suitable, e)| < DEFAULT_LIMIT {
      InFirstK(suitable, DEFAULT_LIMIT, e);
    }
  }

  lemma RemainingRows(rows: seq<Entry>, workloadType: string, failedId: string)
    requires Registry(rows)
    ensures Drawn(Remaining(rows, workloadType, failedId))
    ensures forall e :: e in Remaining(rows, workloadType, failedId)
                   <==> e in Unrestricted(rows, workloadType) && e.id != failedId
  {
    FoundRows(rows, workloadType, None);
    FilterDraws(Unrestricted(rows, workloadType), (c: Entry) => c.id != failedId);
    FilterMembers((c: Entry) => c.id != failedId, Unrestricted(rows, workloadType));
  }

  /** The fallback is the first of the unrestricted ranking that is not the model that failed. */
  lemma FallbackIsBestOfRest(rows: seq<Entry>, workloadType: string, failedId: string, preferCheapest: bool)
    requires Registry(rows)
    ensures var ranking := Ranking(Unrestricted(rows, workloadType), preferCheapest);
            FallbackModel(rows, workloadType, failedId, preferCheapest)
            == (if ranking == [] then None
                else if ranking[0].id != failedId then Some(ranking[0])
                else if |ranking| == 1 then None
                else Some(ranking[1]))
  {
    FoundRows(rows, workloadType, None);
    BestWithout(Unrestricted(rows, workloadType), failedId, preferCheapest);
  }

  /** Another model than the failed one that serves the workload, at whatever quality, with fewer than fifty such models before it by name. */
  ghost predicate IsAlternative(rows: seq<Entry>, workloadType: string, failedId: string, e: Entry) {
    && e in rows && e.id != failedId && e.enabled && ServesWorkload(e, workloadType)
    && |QualifyingBefore(rows, workloadType, None, Thresholds(None, None, false), e)| < 50
  }

  /** The fallback is the alternative that precedes every other, and there is none exactly when there is no alternative. */
  lemma FallbackExactlyWhen(rows: seq<Entry>, workloadType: string, failedId: string, preferCheapest: bool, e: Entry)
    requires Registry(rows)
    ensures var fallback := FallbackModel(rows, workloadType, failedId, preferCheapest);
            && (fallback.None? <==> forall c :: !IsAlternative(rows, workloadType, failedId, c))
            && (fallback == Some(e) <==>
                  && IsAlternative(rows, workloadType, failedId, e)
                  && forall c :: IsAlternative(rows, workloadType, failedId, c) ==> Precedes(e, c, preferCheapest))
  {
    var rest := Remaining(rows, workloadType, failedId);
    RemainingRows(rows, workloadType, failedId);
    forall c ensures c in rest <==> IsAlternative(rows, workloadType, failedId, c) {
      FoundExactlyWhen(rows, workloadType, None, AtFloor(None), DEFAULT_LIMIT, c);
    }
    if rest != [] {
      assert rest[0] in rest;
      SelectionIsLeast(rest, preferCheapest);
      if e in rest {
        PickedExactlyWhen(rest, preferCheapest, e);
      }
    }
  }

  // ---- does the fallback meet the policy's floor?

  /** A model at or above the floor that the fallback's ordering puts ahead of every one that is not. */
  ghost predicate FloorLeads(rest: seq<Entry>, m: Entry, floor: Option<real>, preferCheapest: bool) {
    && m in rest && MeetsFloor(m, floor)
    && if preferCheapest then forall u :: u in rest && !MeetsFloor(u, floor) ==> PrecedesUnderBudget(m, u)
       else floor.None? || Score(m) > 0.0
            || forall u :: u in rest && !Measured(u) ==> Score(m) == 0.0 && PrecedesOnPrice(m, u)
  }

  /**
   The fallback meets the policy's quality floor exactly when some remaining model does and leads:
   under downgrade it must precede every model below the floor by price, ties broken by score,
   latency and name; in the normal ordering only an unmeasured model can come before it, and only
   when its own score is not positive.
   */
  lemma FallbackMeetsFloorExactlyWhen(
    rows: seq<Entry>, workloadType: string, failedId: string, floor: Option<real>, preferCheapest: bool
  )
    requires Registry(rows)
    ensures var fallback := FallbackModel(rows, workloadType, failedId, preferCheapest);
            (fallback.Some? && MeetsFloor(fallback.value, floor))
            <==> exists m :: FloorLeads(Remaining(rows, workloadType, failedId), m, floor, preferCheapest)
  {
    var rest := Remaining(rows, workloadType, failedId);
    RemainingRows(rows, workloadType, failedId);
    if rest != [] {
      PickHasExactlyWhen(rest, preferCheapest, e => MeetsFloor(e, floor));
      forall m | m in rest && MeetsFloor(m, floor)
        ensures FloorLeads(rest, m, floor, preferCheapest)
           <==> forall u :: u in rest && !MeetsFloor(u, floor) ==> Preference(preferCheapest)(m, u) {
        LeadsInOrder(rest, m, floor, preferCheapest);
      }
    }
  }

  lemma LeadsInOrder(rest: seq<Entry>, m: Entry, floor: Option<real>, preferCheapest: bool)
    requires m in rest && MeetsFloor(m, floor)
    ensures FloorLeads(rest, m, floor, preferCheapest)
       <==> forall u :: u in rest && !MeetsFloor(u, floor) ==> Preference(preferCheapest)(m, u)
  {
    if preferCheapest {
      LeadsOnPrice(rest, m, floor);
    } else {
      LeadsOverUnmeasured(rest, m, floor);
    }
  }

  lemma LeadsOnPrice(rest: seq<Entry>, m: Entry, floor: Option<real>)
    requires m in rest && MeetsFloor(m, floor)
    ensures FloorLeads(rest, m, floor, true)
       <==> forall u :: u in rest && !MeetsFloor(u, floor) ==> Preference(true)(m, u)
  {
    forall u ensures Preference(true)(m, u) <==> PrecedesUnderBudget(m, u) {
      PreferenceReads(m, u);
    }
  }

  /** In the normal ordering a model at the floor already precedes every measured one below it. */
  lemma LeadsOverUnmeasured(rest: seq<Entry>, m: Entry, floor: Option<real>)
    requires m in rest && MeetsFloor(m, floor)
    ensures FloorLeads(rest, m, floor, false)
       <==> forall u :: u in rest && !MeetsFloor(u, floor) ==> Preference(false)(m, u)
  {
    forall u ensures Preference(false)(m, u) <==> Score(m) > Score(u) || (Score(m) == Score(u) && PrecedesOnPrice(m, u)) {
      PreferenceReads(m, u);
    }
  }

  /** In the normal ordering with a positive floor, or none, the fallback meets the floor whenever any remaining model does. */
  lemma FallbackKeepsPositiveFloor(rows: seq<Entry>, workloadType: string, failedId: string, floor: Option<real>)
    requires Registry(rows) && (floor.Some? ==> floor.value > 0.0)
    ensures var fallback := FallbackModel(rows, workloadType, failedId, false);
            (fallback.Some? && MeetsFloor(fallback.value, floor))
            <==> exists m :: m in Remaining(rows, workloadType, failedId) && MeetsFloor(m, floor)
  {
    var rest := Remaining(rows, workloadType, failedId);
    FallbackMeetsFloorExactlyWhen(rows, workloadType, failedId, floor, false);
    forall m | m in rest && MeetsFloor(m, floor) ensures FloorLeads(rest, m, floor, false) {
    }
  }

  // ---- is it the next of the plan's own ranking?

  /** What the plan chose among: the policy's floor and pin applied. */
  ghost predicate Planned(
    rows: seq<Entry>, workloadType: string, floor: Option<real>, pinned: Option<string>, preferCheapest: bool, failed: Entry
  ) {
    SelectModel(Candidates(rows, workloadType, floor, pinned), preferCheapest) == Some(failed)
  }

  lemma PlanRows(rows: seq<Entry>, workloadType: string, floor: Option<real>, preferCheapest: bool, failed: Entry)
    requires Registry(rows) && Planned(rows, workloadType, floor, None, preferCheapest, failed)
    ensures var plan := Candidates(rows, workloadType, floor, None);
            && Drawn(plan) && failed in plan
            && Drawn(Without(plan, failed.id))
            && (forall e :: e in Without(plan, failed.id) <==> e in plan && e.id != failed.id)
            && SelectModel(Without(plan, failed.id), preferCheapest) == RunnerUp(plan, preferCheapest)
  {
    var plan := Candidates(rows, workloadType, floor, None);
    FoundRows(rows, workloadType, floor);
    SelectionIsLeast(plan, preferCheapest);
    FilterDraws(plan, (c: Entry) => c.id != failed.id);
    FilterMembers((c: Entry) => c.id != failed.id, plan);
    SecondIsBest(plan, preferCheapest);
  }

  /** A model found without the floor is found under any floor it meets: fewer models come before it. */
  lemma FoundUnderFloor(rows: seq<Entry>, workloadType: string, floor: Option<real>, e: Entry)
    requires Registry(rows)
    requires e in Unrestricted(rows, workloadType) && MeetsFloor(e, floor)
    ensures e in Candidates(rows, workloadType, floor, None)
  {
    FoundRows(rows, workloadType, None);
    FoundRows(rows, workloadType, floor);
    var all, some := Compatible(rows, workloadType), Suitable(rows, workloadType, None, AtFloor(floor));
    assert Ahead(some, e) <= Ahead(all, e);
    SubsetSize(Ahead(some, e), Ahead(all, e));
  }

  /** When nothing else is found without a floor, nothing else was found with one. */
  lemma NothingLeft(rows: seq<Entry>, workloadType: string, floor: Option<real>, failed: Entry, e: Entry)
    requires Registry(rows)
    requires Remaining(rows, workloadType, failed.id) == []
    requires e in Candidates(rows, workloadType, floor, None) && failed in Candidates(rows, workloadType, floor, None)
    ensures e == failed
  {
    var found := Unrestricted(rows, workloadType);
    FoundRows(rows, workloadType, None);
    FoundRows(rows, workloadType, floor);
    RemainingRows(rows, workloadType, failed.id);
    if |found| >= 2 {
      TwoModels(found);
      assert false;
    }
    AllFound(Compatible(rows, workloadType), found);
    assert e in found && failed in found;
    assert e in Remaining(rows, workloadType, failed.id) || e.id == failed.id;
  }

  lemma TwoModels(found: seq<Entry>)
    requires Drawn(found) && |found| >= 2
    ensures found[0] in found && found[1] in found && found[0].id != found[1].id
  {
  }

  lemma AllFound(suitable: seq<Entry>, found: seq<Entry>)
    requires Drawn(suitable) && found == FirstK(suitable, DEFAULT_LIMIT) && |found| < DEFAULT_LIMIT
    ensures forall e :: e in suitable ==> e in found
  {
    FirstKShape(suitable, DEFAULT_LIMIT);
    assert |suitable| < DEFAULT_LIMIT;
    SortPermutes(ByName, suitable);
    SortMembers(ByName, suitable);
  }

  /** The same comparison told through the fallback itself. */
  lemma FallbackAgrees(
    rows: seq<Entry>, workloadType: string, floor: Option<real>, preferCheapest: bool, failed: Entry
  )
    requires Registry(rows) && Planned(rows, workloadType, floor, None, preferCheapest, failed)
    ensures var fallback := FallbackModel(rows, workloadType, failed.id, preferCheapest);
            var next := RunnerUp(Candidates(rows, workloadType, floor, None), preferCheapest);
            && (fallback.Some? && MeetsFloor(fallback.value, floor) ==> next.Some?)
            && (fallback == next <==>
                  || fallback.None?
                  || (MeetsFloor(fallback.value, floor) && |Ahead(Compatible(rows, workloadType), next.value)| < DEFAULT_LIMIT))
  {
    var plan := Candidates(rows, workloadType, floor, None);
    var fallback, next := FallbackModel(rows, workloadType, failed.id, preferCheapest), RunnerUp(plan, preferCheapest);
    PlanRows(rows, workloadType, floor, preferCheapest, failed);
    RemainingRows(rows, workloadType, failed.id);
    FoundRows(rows, workloadType, None);
    FoundRows(rows, workloadType, floor);
    var rest, planRest := Remaining(rows, workloadType, failed.id), Without(plan, failed.id);
    if fallback.None? {
      if next.Some? {
        SelectionIsLeast(planRest, preferCheapest);
        NothingLeft(rows, workloadType, floor, failed, next.value);
        assert false;
      }
    } else {
      SelectionIsLeast(rest, preferCheapest);
      if MeetsFloor(fallback.value, floor) {
        FoundUnderFloor(rows, workloadType, floor, fallback.value);
        assert fallback.value in planRest;
        SelectionIsLeast(planRest, preferCheapest);
        if next.value in rest {
          SamePick(rest, fallback.value, next.value, preferCheapest);
        }
      } else if next.Some? {
        SelectionIsLeast(planRest, preferCheapest);
      }
    }
  }

  /**
   Without a pin, the fallback is the runner-up of the plan's own ranking exactly when no other
   model is left at all, or a remaining model at the policy's floor leads those below it and fewer
   than fifty compatible models precede the runner-up by name. All of it can be read off the
   registry and the plan before the fallback is asked for.
   */
  lemma FallbackIsRunnerUpExactlyWhen(
    rows: seq<Entry>, workloadType: string, floor: Option<real>, preferCheapest: bool, failed: Entry
  )
    requires Registry(rows) && Planned(rows, workloadType, floor, None, preferCheapest, failed)
    ensures var next := RunnerUp(Candidates(rows, workloadType, floor, None), preferCheapest);
            var rest := Remaining(rows, workloadType, failed.id);
            FallbackModel(rows, workloadType, failed.id, preferCheapest) == next <==>
              || rest == []
              || (&& (exists m :: FloorLeads(rest, m, floor, preferCheapest))
                  && next.Some? && |Ahead(Compatible(rows, workloadType), next.value)| < DEFAULT_LIMIT)
  {
    FallbackAgrees(rows, workloadType, floor, preferCheapest, failed);
    FallbackMeetsFloorExactlyWhen(rows, workloadType, failed.id, floor, preferCheapest);
  }

  /**
   With a pin the plan had no second choice, so the fallback agrees with it exactly when no other
   compatible model is found; otherwise a model the policy never named is used.
   */
  lemma PinnedFallbackExactlyWhen(
    rows: seq<Entry>, workloadType: string, floor: Option<real>, preferCheapest: bool, failed: Entry
  )
    requires Registry(rows) && failed in rows && failed.id != ""
    requires Planned(rows, workloadType, floor, Some(failed.id), preferCheapest, failed)
    ensures RunnerUp(Candidates(rows, workloadType, floor, Some(failed.id)), preferCheapest) == None
    ensures FallbackModel(rows, workloadType, failed.id, preferCheapest).None?
       <==> forall e :: e in Unrestricted(rows, workloadType) ==> e.id == failed.id
  {
    PinIsHonouredExactlyWhen(rows, workloadType, floor, failed);
    assert Candidates(rows, workloadType, floor, Some(failed.id)) == [failed];
    SortPermutes(Preference(preferCheapest), [failed]);
    RemainingRows(rows, workloadType, failed.id);
    var rest := Remaining(rows, workloadType, failed.id);
    if rest != [] {
      assert rest[0] in rest;
    }
  }

  // ---- a plan whose requirements the fallback relaxes

  const GOOD := SampleEntry("a", Some(1.5), Some(0.95))
  const POOR := SampleEntry("b", Some(1.0), Some(0.1))
  const FAIR := SampleEntry("c", Some(2.0), Some(0.9))
  const SAMPLE := [GOOD, POOR, FAIR]
  const WORKLOAD := "supply_chain"

  lemma SampleSuitable(e: Entry)
    ensures e in Compatible(SAMPLE, WORKLOAD) <==> e in SAMPLE
  {
    SuitableRows(SAMPLE, WORKLOAD, None, AtFloor(None));
  }

  lemma FewSuitable(suitable: seq<Entry>, e: Entry)
    requires forall x :: x in suitable ==> x in SAMPLE
    ensures |Ahead(suitable, e)| < DEFAULT_LIMIT
  {
    assert forall x :: x in SAMPLE ==> x in {GOOD, POOR, FAIR};
    SubsetSize(Ahead(suitable, e), {GOOD, POOR, FAIR});
  }

  lemma SampleFound(floor: Option<real>)
    ensures Registry(SAMPLE)
    ensures forall e :: e in FindForWorkload(SAMPLE, WORKLOAD, None, AtFloor(floor), DEFAULT_LIMIT)
                   <==> e in SAMPLE && MeetsFloor(e, floor)
  {
    FoundRows(SAMPLE, WORKLOAD, floor);
    forall e ensures e in Compatible(SAMPLE, WORKLOAD) <==> e in SAMPLE {
      SampleSuitable(e);
    }
    var suitable := Suitable(SAMPLE, WORKLOAD, None, AtFloor(floor));
    forall e ensures |Ahead(suitable, e)| < DEFAULT_LIMIT {
      FewSuitable(suitable, e);
    }
  }

  /** A candidate that no other precedes is the pick. */
  lemma PickIs(candidates: seq<Entry>, e: Entry, preferCheapest: bool)
    requires e in candidates
    requires forall c :: c in candidates && c != e ==> !KeyLe(SortKey(c, preferCheapest), SortKey(e, preferCheapest))
    ensures SelectModel(candidates, preferCheapest) == Some(e)
  {
    SelectionIsLeast(candidates, preferCheapest);
  }

  lemma SampleOrder()
    ensures forall e :: e in SAMPLE && e != POOR ==> !KeyLe(SortKey(e, true), SortKey(POOR, true))
    ensures !KeyLe(SortKey(FAIR, true), SortKey(GOOD, true))
    ensures !KeyLe(SortKey(POOR, false), SortKey(FAIR, false))
  {
  }

  lemma SamplePlan()
    ensures Planned(SAMPLE, WORKLOAD, Some(0.9), None, true, GOOD)
    ensures RunnerUp(Candidates(SAMPLE, WORKLOAD, Some(0.9), None), true) == Some(FAIR)
  {
    var plan := Candidates(SAMPLE, WORKLOAD, Some(0.9), None);
    SampleOrder();
    SampleFound(Some(0.9));
    assert GOOD in SAMPLE && FAIR in SAMPLE;
    assert forall e :: e in plan ==> e == GOOD || e == FAIR;
    PickIs(plan, GOOD, true);
    PlanRows(SAMPLE, WORKLOAD, Some(0.9), true, GOOD);
    PickIs(Without(plan, GOOD.id), FAIR, true);
  }

  lemma SampleRemaining(e: Entry)
    ensures e in Remaining(SAMPLE, WORKLOAD, GOOD.id) <==> e == POOR || e == FAIR
  {
    SampleFound(None);
    RemainingRows(SAMPLE, WORKLOAD, GOOD.id);
    assert POOR in SAMPLE && FAIR in SAMPLE;
  }

  lemma SampleFallback(preferCheapest: bool)
    ensures FallbackModel(SAMPLE, WORKLOAD, GOOD.id, preferCheapest) == Some(if preferCheapest then POOR else FAIR)
  {
    SampleOrder();
    forall e ensures e in Remaining(SAMPLE, WORKLOAD, GOOD.id) <==> e == POOR || e == FAIR {
      SampleRemaining(e);
    }
    assert FAIR in SAMPLE;
    PickIs(Remaining(SAMPLE, WORKLOAD, GOOD.id), if preferCheapest then POOR else FAIR, preferCheapest);
  }

  /**
   Under a floor of 0.9 and downgrade the plan picks the cheapest good model; when that fails, the
   fallback takes a cheaper one scored 0.1 although another model meets the floor.
   */
  lemma FallbackRelaxesFloor()
    ensures Registry(SAMPLE)
    ensures Planned(SAMPLE, WORKLOAD, Some(0.9), None, true, GOOD)
    ensures RunnerUp(Candidates(SAMPLE, WORKLOAD, Some(0.9), None), true) == Some(FAIR)
    ensures FallbackModel(SAMPLE, WORKLOAD, GOOD.id, true) == Some(POOR) && !MeetsFloor(POOR, Some(0.9))
  {
    SamplePlan();
    SampleFallback(true);
  }

  /** A policy that pins a model gets another one when the pinned model fails. */
  lemma FallbackIgnoresPin()
    ensures Planned(SAMPLE, WORKLOAD, None, Some(GOOD.id), false, GOOD)
    ensures FallbackModel(SAMPLE, WORKLOAD, GOOD.id, false) == Some(FAIR)
  {
    FoundRows(SAMPLE, WORKLOAD, None);
    SampleFound(None);
    assert GOOD in SAMPLE;
    OnlyOneKept(Unrestricted(SAMPLE, WORKLOAD), GOOD);
    PickIs([GOOD], GOOD, false);
    SampleFallback(false);
  }
}
