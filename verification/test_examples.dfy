/** The summaries of the unit tests' hand-built record lists: the status
    split and the per-model summary over three records, and the count of
    users beyond quota over the four lists of that test. */
module TestExamples {
  import opened Grouping
  import opened Usage
  import opened Percentage
  import opened StatusSummary
  import opened ModelSummary
  import opened QuotaUsers
  import opened FixtureSummaries

  /** Three records of two models, one of them beyond quota on one model and
      on the other. */
  const ThreeRecords: seq<UsageRecord> := [
    UsageRecord("2024-01-01", "user1", "gpt-4", 10.0, false, "100"),
    UsageRecord("2024-01-01", "user2", "gpt-3.5", 5.0, true, "100"),
    UsageRecord("2024-01-01", "user1", "gpt-4", 15.0, false, "100")
  ]

  lemma ThreeRecordsStatus()
    ensures var s := GetRequestStatusSummary(ThreeRecords);
      && s.totalRequests == 30.0 && s.compliantRequests == 25.0 && s.exceedingRequests == 5.0
      && -0.005 < s.compliantPercentage - 83.33 < 0.005
      && -0.005 < s.exceedingPercentage - 16.67 < 0.005
  {
    var rs := ThreeRecords;
    assert Tally(rs[3..]) == (0.0, 0.0, 0.0);
    assert Tally(rs[2..]) == (15.0, 15.0, 0.0);
    assert Tally(rs[1..]) == (20.0, 15.0, 5.0);
    assert Tally(rs) == (30.0, 25.0, 5.0);
  }

  /** A single record within quota: everything is compliant. */
  lemma OneCompliantRecordStatus()
    ensures GetRequestStatusSummary([UsageRecord("2024-01-01", "user1", "gpt-4", 10.0, false, "100")])
         == RequestStatusSummary(10.0, 10.0, 0.0, 100.0, 0.0)
  {
    var rs := [UsageRecord("2024-01-01", "user1", "gpt-4", 10.0, false, "100")];
    AllCompliantStatus(rs);
    assert Tally(rs[1..]) == (0.0, 0.0, 0.0);
  }

  /** Two models, one used 30 times (20 within quota, 10 beyond), the other
      10 times, all beyond quota. */
  const TwoModelRecords: seq<UsageRecord> := [
    UsageRecord("2024-01-01", "user1", "gpt-4", 20.0, false, "100"),
    UsageRecord("2024-01-01", "user2", "gpt-3.5", 10.0, true, "100"),
    UsageRecord("2024-01-01", "user1", "gpt-4", 10.0, true, "100")
  ]

  /** The volumes of `TwoModelRecords`, with the model names left symbolic. */
  predicate PairShaped(rs: seq<UsageRecord>, g: string, h: string)
  {
    && g != h
    && |rs| == 3
    && rs[0].model == g && rs[0].requestsUsed == 20.0 && !rs[0].exceedsQuota
    && rs[1].model == h && rs[1].requestsUsed == 10.0 && rs[1].exceedsQuota
    && rs[2].model == g && rs[2].requestsUsed == 10.0 && rs[2].exceedsQuota
  }

  lemma PairTally(rs: seq<UsageRecord>, g: string, h: string)
    requires PairShaped(rs, g, h)
    ensures Tally(rs) == (40.0, 20.0, 20.0)
  {
    assert Tally(rs[3..]) == (0.0, 0.0, 0.0);
    assert Tally(rs[2..]) == (10.0, 0.0, 10.0);
    assert Tally(rs[1..]) == (20.0, 0.0, 20.0);
  }

  lemma PairGroupG(rs: seq<UsageRecord>, g: string, h: string)
    requires PairShaped(rs, g, h)
    ensures Tally(Where(rs, ModelOf, g)) == (30.0, 20.0, 10.0)
  {
    assert Where(rs[3..], ModelOf, g) == [];
    GroupStep(rs, 2, g);
    GroupStep(rs, 1, g);
    GroupStep(rs, 0, g);
    assert rs[0..] == rs;
  }

  lemma PairGroupH(rs: seq<UsageRecord>, g: string, h: string)
    requires PairShaped(rs, g, h)
    ensures Tally(Where(rs, ModelOf, h)) == (10.0, 0.0, 10.0)
  {
    assert Where(rs[3..], ModelOf, h) == [];
    GroupStep(rs, 2, h);
    GroupStep(rs, 1, h);
    GroupStep(rs, 0, h);
    assert rs[0..] == rs;
  }

  lemma PairEntry(rs: seq<UsageRecord>, g: string, h: string, i: nat)
    requires PairShaped(rs, g, h)
    requires i < |GetModelUsageSummaryWithPercentages(rs)|
    ensures var e := GetModelUsageSummaryWithPercentages(rs)[i];
      || e == ModelShare(g, 30.0, 20.0, 10.0, 75.0, 200.0 / 3.0, 100.0 / 3.0)
      || e == ModelShare(h, 10.0, 0.0, 10.0, 25.0, 0.0, 100.0)
  {
    var r := GetModelUsageSummaryWithPercentages(rs);
    var e := r[i];
    assert e.model == g || e.model == h by {
      var names := Project(rs, ModelOf);
      var k :| 0 <= k < |names| && names[k] == e.model;
    }
    PairTally(rs, g, h);
    if e.model == g {
      PairGroupG(rs, g, h);
    } else {
      PairGroupH(rs, g, h);
    }
  }

  /** A list of distinct names drawn from two distinct names, naming both, has two entries. */
  lemma TwoNames(ms: seq<string>, g: string, h: string)
    requires g != h
    requires NoDuplicates(ms)
    requires forall i :: 0 <= i < |ms| ==> ms[i] == g || ms[i] == h
    requires g in ms && h in ms
    ensures |ms| == 2
  {
    NoDuplicatesCardinality(ms);
    assert (set x | x in ms) == {g, h};
  }

  /** Two entries with different names and different totals, listed once
      each in descending order of total, are listed as `[a, b]`. */
  lemma DescendingTwo(r: seq<ModelShare>, a: ModelShare, b: ModelShare)
    requires |r| == 2 && SortedByTotalDesc(r) && NoDuplicates(Project(r, ShareModel))
    requires a.totalRequests > b.totalRequests
    requires forall i :: 0 <= i < |r| ==> r[i] == a || r[i] == b
    ensures r == [a, b]
  {
    assert r[0].model != r[1].model by {
      assert Project(r, ShareModel)[0] == r[0].model;
      assert Project(r, ShareModel)[1] == r[1].model;
    }
  }

  lemma PairSummary(rs: seq<UsageRecord>, g: string, h: string)
    requires PairShaped(rs, g, h)
    ensures GetModelUsageSummaryWithPercentages(rs) == [
      ModelShare(g, 30.0, 20.0, 10.0, 75.0, 200.0 / 3.0, 100.0 / 3.0),
      ModelShare(h, 10.0, 0.0, 10.0, 25.0, 0.0, 100.0)]
  {
    var r := GetModelUsageSummaryWithPercentages(rs);
    var p := Project(r, ShareModel);
    forall i | 0 <= i < |p| ensures p[i] == g || p[i] == h {
      PairEntry(rs, g, h, i);
    }
    assert rs[0].model in p && rs[1].model in p;
    TwoNames(p, g, h);
    forall i | 0 <= i < |r|
      ensures || r[i] == ModelShare(g, 30.0, 20.0, 10.0, 75.0, 200.0 / 3.0, 100.0 / 3.0)
              || r[i] == ModelShare(h, 10.0, 0.0, 10.0, 25.0, 0.0, 100.0)
    {
      PairEntry(rs, g, h, i);
    }
    DescendingTwo(r, ModelShare(g, 30.0, 20.0, 10.0, 75.0, 200.0 / 3.0, 100.0 / 3.0),
                  ModelShare(h, 10.0, 0.0, 10.0, 25.0, 0.0, 100.0));
  }

  /** The summary the test expects: the larger model first, with its split
      as 66.67% / 33.33% to two places, then the smaller one. */
  lemma TwoModelSummary()
    ensures var r := GetModelUsageSummaryWithPercentages(TwoModelRecords);
      && r == [ModelShare("gpt-4", 30.0, 20.0, 10.0, 75.0, 200.0 / 3.0, 100.0 / 3.0),
               ModelShare("gpt-3.5", 10.0, 0.0, 10.0, 25.0, 0.0, 100.0)]
      && -0.005 < r[0].compliantPercentage - 66.67 < 0.005
      && -0.005 < r[0].exceedingPercentage - 33.33 < 0.005
  {
    assert PairShaped(TwoModelRecords, "gpt-4", "gpt-3.5");
    PairSummary(TwoModelRecords, "gpt-4", "gpt-3.5");
  }

  /** Four users; the first exceeds on two days, the second on one, the
      other two never. */
  const QuotaRecords: seq<UsageRecord> := [
    UsageRecord("2025-01-01", "user1", "gpt-4o-2024-11-20", 10.0, false, "50"),
    UsageRecord("2025-01-01", "user1", "gpt-4o-2024-11-20", 5.0, true, "50"),
    UsageRecord("2025-01-01", "user2", "gpt-4.1-2025-04-14", 20.0, true, "50"),
    UsageRecord("2025-01-02", "user1", "gpt-4o-2024-11-20", 3.0, true, "50"),
    UsageRecord("2025-01-01", "user3", "claude-3", 8.0, false, "50"),
    UsageRecord("2025-01-02", "user4", "gpt-4o-2024-11-20", 15.0, false, "50")
  ]

  /** Records beyond quota from exactly two different users count two. */
  lemma TwoUsersExceeding(rs: seq<UsageRecord>, a: string, b: string, i: nat, j: nat)
    requires a != b
    requires forall k :: 0 <= k < |rs| && rs[k].exceedsQuota ==> rs[k].user == a || rs[k].user == b
    requires i < |rs| && rs[i].exceedsQuota && rs[i].user == a
    requires j < |rs| && rs[j].exceedsQuota && rs[j].user == b
    ensures UniqueUsersExceedingQuota(rs) == 2
  {
    assert ExceedingUsers(rs) == {a, b} by {
      assert rs[i] in rs && rs[j] in rs;
    }
  }

  lemma QuotaRecordsCount()
    ensures UniqueUsersExceedingQuota(QuotaRecords) == 2
  {
    var rs := QuotaRecords;
    forall k | 0 <= k < |rs| && rs[k].exceedsQuota ensures rs[k].user == "user1" || rs[k].user == "user2" {
    }
    TwoUsersExceeding(rs, "user1", "user2", 1, 2);
  }

  /** No record beyond quota, and no records at all, both count zero. */
  lemma NobodyExceedingCountsZero()
    ensures UniqueUsersExceedingQuota([
      UsageRecord("2025-01-01", "user1", "gpt-4o-2024-11-20", 10.0, false, "50"),
      UsageRecord("2025-01-01", "user2", "gpt-4.1-2025-04-14", 5.0, false, "50")]) == 0
    ensures UniqueUsersExceedingQuota([]) == 0
  {
    NoneExceedingCountsZero([
      UsageRecord("2025-01-01", "user1", "gpt-4o-2024-11-20", 10.0, false, "50"),
      UsageRecord("2025-01-01", "user2", "gpt-4.1-2025-04-14", 5.0, false, "50")]);
    NoneExceedingCountsZero([]);
  }

  /** One user beyond quota on three days counts once. */
  lemma PowerUserCountsOnce()
    ensures UniqueUsersExceedingQuota([
      UsageRecord("2025-01-01", "power-user", "gpt-4o-2024-11-20", 10.0, true, "50"),
      UsageRecord("2025-01-02", "power-user", "gpt-4o-2024-11-20", 5.0, true, "50"),
      UsageRecord("2025-01-03", "power-user", "gpt-4.1-2025-04-14", 8.0, true, "50")]) == 1
  {
    OneUserCountsOnce([
      UsageRecord("2025-01-01", "power-user", "gpt-4o-2024-11-20", 10.0, true, "50"),
      UsageRecord("2025-01-02", "power-user", "gpt-4o-2024-11-20", 5.0, true, "50"),
      UsageRecord("2025-01-03", "power-user", "gpt-4.1-2025-04-14", 8.0, true, "50")], "power-user");
  }
}
