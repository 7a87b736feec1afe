/** Global compliant/exceeding totals across all records, with each part as a
    percentage of the whole (the engine's getRequestStatusSummary). */
module StatusSummary {
  import opened Grouping
  import opened Usage
  import opened Percentage

  datatype RequestStatusSummary = RequestStatusSummary(
    totalRequests: real,
    compliantRequests: real,
    exceedingRequests: real,
    compliantPercentage: real,
    exceedingPercentage: real
  )

  /** One pass over the records accumulating (total, compliant, exceeding). */
  function Tally(rs: seq<UsageRecord>): (t: (real, real, real))
    ensures t.0 == TotalRequests(rs)
    ensures t.1 == CompliantRequests(rs)
    ensures t.2 == ExceedingRequests(rs)
  {
    if |rs| == 0 then (0.0, 0.0, 0.0)
    else
      var t := Tally(rs[1..]);
      var x := rs[0].requestsUsed;
      if rs[0].exceedsQuota then (t.0 + x, t.1, t.2 + x)
      else (t.0 + x, t.1 + x, t.2)
  }

  /** The status summary: the total is the sum of `requestsUsed`, split into
      the volume within quota and the volume beyond it, each also reported
      as a share of the total (0 when the total is 0). */
  function GetRequestStatusSummary(rs: seq<UsageRecord>): (s: RequestStatusSummary)
    ensures s.totalRequests == TotalRequests(rs)
    ensures s.compliantRequests == CompliantRequests(rs)
    ensures s.exceedingRequests == ExceedingRequests(rs)
    ensures s.compliantRequests + s.exceedingRequests == s.totalRequests
    ensures s.compliantPercentage == CalculatePercentage(s.compliantRequests, s.totalRequests)
    ensures s.exceedingPercentage == CalculatePercentage(s.exceedingRequests, s.totalRequests)
  {
    var t := Tally(rs);
    SplitConservesTotal(rs);
    RequestStatusSummary(t.0, t.1, t.2, CalculatePercentage(t.1, t.0), CalculatePercentage(t.2, t.0))
  }

  /** Whenever there is any volume, the two shares add up to 100%. */
  lemma StatusSharesSumToHundred(rs: seq<UsageRecord>)
    requires TotalRequests(rs) != 0.0
    ensures var s := GetRequestStatusSummary(rs);
            s.compliantPercentage + s.exceedingPercentage == 100.0
  {
    var s := GetRequestStatusSummary(rs);
    PercentageAdditive(s.compliantRequests, s.exceedingRequests, s.totalRequests);
    assert s.compliantRequests + s.exceedingRequests == s.totalRequests;
    WholeIsHundredPercent(s.totalRequests);
  }

  /** On valid records both shares lie between 0% and 100%. */
  lemma StatusSharesBounded(rs: seq<UsageRecord>)
    requires AllValid(rs)
    ensures var s := GetRequestStatusSummary(rs);
            0.0 <= s.compliantPercentage <= 100.0 && 0.0 <= s.exceedingPercentage <= 100.0
  {
    var s := GetRequestStatusSummary(rs);
    SplitBounded(rs);
    PercentageBounded(s.compliantRequests, s.totalRequests);
    PercentageBounded(s.exceedingRequests, s.totalRequests);
  }

  /** With no record beyond quota, all volume is compliant: 100% / 0% when
      there is any volume. */
  lemma AllCompliantStatus(rs: seq<UsageRecord>)
    requires forall i :: 0 <= i < |rs| ==> !rs[i].exceedsQuota
    ensures var s := GetRequestStatusSummary(rs);
            s.exceedingRequests == 0.0 && s.compliantRequests == s.totalRequests
            && (s.totalRequests != 0.0 ==> s.compliantPercentage == 100.0 && s.exceedingPercentage == 0.0)
  {
    WhereNone(rs, ExceedsOf, true);
    SplitConservesTotal(rs);
  }
}
