/** One parsed row of the usage export, and the sums every summary is built from. */
module Usage {
  import opened Grouping

  /** A validated usage event. `date` is the calendar day of the event's
      timestamp (its `YYYY-MM-DD` prefix); `totalMonthlyQuota` is kept as the
      raw text of the export ("Unlimited" or a number). */
  datatype UsageRecord = UsageRecord(
    date: string,
    user: string,
    model: string,
    requestsUsed: real,
    exceedsQuota: bool,
    totalMonthlyQuota: string
  )

  /** What every record produced by the parser satisfies. */
  predicate Valid(r: UsageRecord)
  {
    r.requestsUsed >= 0.0 && |r.user| > 0 && |r.model| > 0
  }

  predicate AllValid(rs: seq<UsageRecord>)
  {
    forall i :: 0 <= i < |rs| ==> Valid(rs[i])
  }

  // Field accessors, passed as keys and values to the grouping functions.
  function DateOf(r: UsageRecord): string { r.date }
  function UserOf(r: UsageRecord): string { r.user }
  function ModelOf(r: UsageRecord): string { r.model }
  function RequestsOf(r: UsageRecord): real { r.requestsUsed }
  function ExceedsOf(r: UsageRecord): bool { r.exceedsQuota }

  /** Sum of `requestsUsed` over all records. */
  function TotalRequests(rs: seq<UsageRecord>): real
  {
    Total(rs, RequestsOf)
  }

  /** Sum of `requestsUsed` over the records within quota. */
  function CompliantRequests(rs: seq<UsageRecord>): real
  {
    Total(Where(rs, ExceedsOf, false), RequestsOf)
  }

  /** Sum of `requestsUsed` over the records beyond quota. */
  function ExceedingRequests(rs: seq<UsageRecord>): real
  {
    Total(Where(rs, ExceedsOf, true), RequestsOf)
  }

  /** Every request is either compliant or exceeding: the split conserves the total. */
  lemma SplitConservesTotal(rs: seq<UsageRecord>)
    ensures CompliantRequests(rs) + ExceedingRequests(rs) == TotalRequests(rs)
  {
    var ks := [false, true];
    PartitionTotal(rs, ExceedsOf, ks, RequestsOf);
    assert ks[0] == false && ks[1..] == [true] && ks[1..][1..] == [];
    assert GroupTotals(rs, ExceedsOf, ks[1..][1..], RequestsOf) == 0.0;
  }

  /** On valid records each part of the split lies between 0 and the total. */
  lemma SplitBounded(rs: seq<UsageRecord>)
    requires AllValid(rs)
    ensures 0.0 <= CompliantRequests(rs) <= TotalRequests(rs)
    ensures 0.0 <= ExceedingRequests(rs) <= TotalRequests(rs)
  {
    WhereTotalBounded(rs, ExceedsOf, false, RequestsOf);
    WhereTotalBounded(rs, ExceedsOf, true, RequestsOf);
  }
}
