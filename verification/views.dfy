/** The small pieces of view logic of the dashboard: the list of models the
    charts colour and stack, the plan limit shown per model, the legend that
    toggles the compliant/exceeding bars, and the power-user breakdown
    narrowed to a selected user. */
module Views {
  import opened Outcomes
  import opened Grouping
  import opened Usage

  /** The models of the parsed records as an insertion-ordered set yields
      them: each model once, in order of first appearance. */
  function UniqueModels(rs: seq<UsageRecord>): (ms: seq<string>)
    ensures NoDuplicates(ms)
    ensures forall i :: 0 <= i < |ms| ==> exists k :: 0 <= k < |rs| && rs[k].model == ms[i]
    ensures forall k :: 0 <= k < |rs| ==> rs[k].model in ms
    ensures forall i, j :: 0 <= i < j < |ms| ==>
      FirstIndex(Project(rs, ModelOf), ms[i]) < FirstIndex(Project(rs, ModelOf), ms[j])
  {
    var names := Project(rs, ModelOf);
    var ms := Distinct(names);
    forall i | 0 <= i < |ms| ensures exists k :: 0 <= k < |rs| && rs[k].model == ms[i] {
      var k :| 0 <= k < |names| && names[k] == ms[i];
      assert rs[k].model == ms[i];
    }
    forall k | 0 <= k < |rs| ensures rs[k].model in ms {
      assert names[k] == rs[k].model;
    }
    ms
  }

  /** The list has exactly as many entries as there are different models. */
  lemma UniqueModelsCount(rs: seq<UsageRecord>)
    ensures |UniqueModels(rs)| == |set k | 0 <= k < |rs| :: rs[k].model|
  {
    var ms := UniqueModels(rs);
    NoDuplicatesCardinality(ms);
    assert (set m | m in ms) == (set k | 0 <= k < |rs| :: rs[k].model) by {
      forall m | m in ms ensures m in (set k | 0 <= k < |rs| :: rs[k].model) {
        var i :| 0 <= i < |ms| && ms[i] == m;
        var k :| 0 <= k < |rs| && rs[k].model == ms[i];
      }
    }
  }

  /** Reading one more record adds its model at the end, unless already listed. */
  lemma UniqueModelsSnoc(rs: seq<UsageRecord>, r: UsageRecord)
    ensures UniqueModels(rs + [r])
         == if r.model in UniqueModels(rs) then UniqueModels(rs) else UniqueModels(rs) + [r.model]
  {
    ProjectSnoc(rs, r, ModelOf);
    DistinctSnoc(Project(rs, ModelOf), r.model);
  }

  /** The plan selector's tiers; any other selection value is `OtherPlan`. */
  datatype Plan = Individual | Business | Enterprise | OtherPlan(name: string)

  /** The selection the dashboard starts with. */
  const DefaultPlan: Plan := Business

  /** What a model's summary row carries for the limit column. */
  datatype PlanLimits = PlanLimits(multiplier: real, individualPlanLimit: int, businessPlanLimit: int, enterprisePlanLimit: int)

  /** The limit column: "Unlimited", or a number to be shown localised. */
  datatype LimitDisplay = Unlimited | Limit(n: int)

  /** The limit shown for a model under the selected plan: "Unlimited" for a
      model whose multiplier is 0, whatever the plan; otherwise the limit of
      the selected tier, the business limit for an unrecognised selection. */
  function PlanLimit(plan: Plan, item: PlanLimits): (d: LimitDisplay)
    ensures item.multiplier == 0.0 <==> d == Unlimited
    ensures item.multiplier != 0.0 && plan == Individual ==> d == Limit(item.individualPlanLimit)
    ensures item.multiplier != 0.0 && plan == Enterprise ==> d == Limit(item.enterprisePlanLimit)
    ensures item.multiplier != 0.0 && (plan == Business || plan.OtherPlan?) ==> d == Limit(item.businessPlanLimit)
  {
    var limit := match plan
      case Individual => item.individualPlanLimit
      case Business => item.businessPlanLimit
      case Enterprise => item.enterprisePlanLimit
      case OtherPlan(_) => item.businessPlanLimit;
    if item.multiplier == 0.0 then Unlimited else Limit(limit)
  }

  /** An unrecognised selection, and the initial one, show what Business shows. */
  lemma UnknownPlanFallsBackToBusiness(name: string, item: PlanLimits)
    ensures PlanLimit(OtherPlan(name), item) == PlanLimit(Business, item)
    ensures PlanLimit(DefaultPlan, item) == PlanLimit(Business, item)
  {
  }

  /** A 0x-multiplier model shows the same under every plan. */
  lemma ZeroMultiplierIgnoresPlan(p: Plan, q: Plan, item: PlanLimits)
    requires item.multiplier == 0.0
    ensures PlanLimit(p, item) == PlanLimit(q, item) == Unlimited
  {
  }

  /** The two bars of the compliant/exceeding chart, by data key. */
  const CompliantKey := "compliantRequests"
  const ExceedingKey := "exceedingRequests"
  const AllBars: seq<string> := [CompliantKey, ExceedingKey]

  /** The bars visible when the dashboard starts. */
  const InitialVisibleBars: seq<string> := AllBars

  /** A legend entry's key as a data key: the two display names map to
      their data keys, anything else is taken as a data key already. */
  function DataKey(barKey: string): (k: string)
    ensures barKey == "Compliant Requests" ==> k == CompliantKey
    ensures barKey == "Exceeding Requests" ==> k == ExceedingKey
    ensures barKey != "Compliant Requests" && barKey != "Exceeding Requests" ==> k == barKey
  {
    if barKey == "Compliant Requests" then CompliantKey
    else if barKey == "Exceeding Requests" then ExceedingKey
    else barKey
  }

  /** The visible bars after a legend click: both for "all", otherwise just
      the clicked one. The result does not depend on what was visible before. */
  function HandleLegendClick(barKey: string): (visible: seq<string>)
    ensures barKey == "all" ==> visible == AllBars
    ensures barKey != "all" ==> |visible| == 1 && visible[0] == DataKey(barKey)
  {
    if barKey == "all" then AllBars else [DataKey(barKey)]
  }

  /** Whether the legend offers "All Requests": there is more than one bar to
      choose from and exactly one is visible. */
  function ShowAllOption(visible: seq<string>): (b: bool)
    ensures b <==> |visible| == 1
  {
    |AllBars| > 1 && |visible| == 1
  }

  /** After a click the "All Requests" option is offered exactly when the
      click was not on it. */
  lemma LegendOffersAllAfterSingling(barKey: string)
    ensures ShowAllOption(HandleLegendClick(barKey)) <==> barKey != "all"
  {
  }

  /** Clicking "All Requests" restores the starting view (the result does
      not depend on the bars shown before); at the start the option is not
      offered. */
  lemma AllRestoresInitialView()
    ensures HandleLegendClick("all") == InitialVisibleBars
    ensures !ShowAllOption(InitialVisibleBars)
  {
  }

  /** Clicking a bar's display name and clicking its data key select the same bar. */
  lemma DisplayNameAndDataKeyAgree()
    ensures HandleLegendClick("Compliant Requests") == HandleLegendClick(CompliantKey) == [CompliantKey]
    ensures HandleLegendClick("Exceeding Requests") == HandleLegendClick(ExceedingKey) == [ExceedingKey]
  {
  }

  /** The power-user breakdown on display: the stored breakdown of all power
      users unless a user is selected (a non-empty name) and data is loaded,
      in which case the breakdown recomputed from the data for that user
      alone. `breakdownOf` is the engine's per-user-set breakdown. */
  function FilteredPowerUserBreakdown<B>(selected: Option<string>, data: Option<seq<UsageRecord>>, stored: seq<B>,
                                         breakdownOf: (seq<UsageRecord>, seq<string>) -> seq<B>): (r: seq<B>)
    ensures (selected.None? || selected.value == "" || data.None?) ==> r == stored
    ensures selected.Some? && selected.value != "" && data.Some? ==> r == breakdownOf(data.value, [selected.value])
  {
    if selected.None? || selected.value == "" || data.None? then stored
    else breakdownOf(data.value, [selected.value])
  }

  /** Selecting the empty name is the same as selecting nobody. */
  lemma EmptySelectionIsNoSelection<B>(data: Option<seq<UsageRecord>>, stored: seq<B>,
                                       breakdownOf: (seq<UsageRecord>, seq<string>) -> seq<B>)
    ensures FilteredPowerUserBreakdown(Some(""), data, stored, breakdownOf)
         == FilteredPowerUserBreakdown(None, data, stored, breakdownOf)
  {
  }
}
