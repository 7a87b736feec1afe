/** The summaries the integration test expects of its six-row fixture file,
    computed from what the parser reads out of it. */
module FixtureSummaries {
  import opened Ingest
  import opened Grouping
  import opened Usage
  import opened Percentage
  import opened StatusSummary
  import opened ModelSummary
  import opened IntegrationFixture

  /** Selecting by model from a suffix: its first record, if of that model, then the rest. */
  lemma WhereSliceStep(rs: seq<UsageRecord>, k: nat, m: string)
    requires k < |rs|
    ensures Where(rs[k..], ModelOf, m)
         == if rs[k].model == m then [rs[k]] + Where(rs[k + 1..], ModelOf, m) else Where(rs[k + 1..], ModelOf, m)
  {
    assert rs[k..][0] == rs[k] && rs[k..][1..] == rs[k + 1..];
  }

  /** The status tally of a record followed by others. */
  lemma TallyCons(x: UsageRecord, rest: seq<UsageRecord>)
    ensures Tally([x] + rest).0 == x.requestsUsed + Tally(rest).0
    ensures Tally([x] + rest).1 == (if x.exceedsQuota then 0.0 else x.requestsUsed) + Tally(rest).1
    ensures Tally([x] + rest).2 == (if x.exceedsQuota then x.requestsUsed else 0.0) + Tally(rest).2
  {
    var s := [x] + rest;
    assert s[0] == x;
    assert s[1..] == rest;
  }

  /** The totals of one model over a suffix, one record at a time. */
  lemma GroupStep(rs: seq<UsageRecord>, k: nat, m: string)
    requires k < |rs|
    ensures var a := if rs[k].model == m then rs[k].requestsUsed else 0.0;
            var t := Tally(Where(rs[k + 1..], ModelOf, m));
            var u := Tally(Where(rs[k..], ModelOf, m));
      && u.0 == a + t.0
      && u.1 == (if rs[k].exceedsQuota then 0.0 else a) + t.1
      && u.2 == (if rs[k].exceedsQuota then a else 0.0) + t.2
  {
    WhereSliceStep(rs, k, m);
    if rs[k].model == m {
      TallyCons(rs[k], Where(rs[k + 1..], ModelOf, m));
    }
  }

  /** The volumes of the integration fixture: six records over three
      models `g`, `t`, `c`, as the parsed export gives them. */
  predicate Shaped(rs: seq<UsageRecord>, g: string, t: string, c: string)
  {
    && g != t && g != c && t != c
    && |rs| == 6
    && rs[0].model == g && rs[0].requestsUsed == 20.0 && !rs[0].exceedsQuota
    && rs[1].model == t && rs[1].requestsUsed == 10.0 && rs[1].exceedsQuota
    && rs[2].model == g && rs[2].requestsUsed == 15.0 && !rs[2].exceedsQuota
    && rs[3].model == t && rs[3].requestsUsed == 5.0 && rs[3].exceedsQuota
    && rs[4].model == c && rs[4].requestsUsed == 25.0 && !rs[4].exceedsQuota
    && rs[5].model == g && rs[5].requestsUsed == 5.0 && rs[5].exceedsQuota
  }

  /** Records shaped as the fixture total 80 requests: 60 compliant and 20 exceeding. */
  lemma ShapedTally(rs: seq<UsageRecord>, g: string, t: string, c: string)
    requires Shaped(rs, g, t, c)
    ensures Tally(rs) == (80.0, 60.0, 20.0)
  {
    assert Tally(rs[6..]) == (0.0, 0.0, 0.0);
    assert Tally(rs[5..]) == (5.0, 0.0, 5.0);
    assert Tally(rs[4..]) == (30.0, 25.0, 5.0);
    assert Tally(rs[3..]) == (35.0, 25.0, 10.0);
    assert Tally(rs[2..]) == (50.0, 40.0, 10.0);
    assert Tally(rs[1..]) == (60.0, 40.0, 20.0);
  }

  /** The first model of the fixture shape: 40 requests, 35 compliant, 5 exceeding. */
  lemma ShapedGroupG(rs: seq<UsageRecord>, g: string, t: string, c: string)
    requires Shaped(rs, g, t, c)
    ensures Tally(Where(rs, ModelOf, g)) == (40.0, 35.0, 5.0)
  {
    ShapedGroupGTail(rs, g, t, c);
    assert Tally(Where(rs[2..], ModelOf, g)) == (20.0, 15.0, 5.0) by {
      GroupStep(rs, 2, g);
    }
    assert Tally(Where(rs[1..], ModelOf, g)) == (20.0, 15.0, 5.0) by {
      GroupStep(rs, 1, g);
    }
    GroupStep(rs, 0, g);
    assert rs[0..] == rs;
  }

  /** The last three records of the fixture shape hold one request batch
      of the first model: 5 requests, all exceeding. */
  lemma ShapedGroupGTail(rs: seq<UsageRecord>, g: string, t: string, c: string)
    requires Shaped(rs, g, t, c)
    ensures Tally(Where(rs[3..], ModelOf, g)) == (5.0, 0.0, 5.0)
  {
    assert Tally(Where(rs[5..], ModelOf, g)) == (5.0, 0.0, 5.0) by {
      assert Where(rs[6..], ModelOf, g) == [];
      GroupStep(rs, 5, g);
    }
    assert Tally(Where(rs[4..], ModelOf, g)) == (5.0, 0.0, 5.0) by {
      GroupStep(rs, 4, g);
    }
    GroupStep(rs, 3, g);
  }

  /** The coding agent of the fixture shape: 25 requests, all compliant. */
  lemma ShapedGroupC(rs: seq<UsageRecord>, g: string, t: string, c: string)
    requires Shaped(rs, g, t, c)
    ensures Tally(Where(rs, ModelOf, c)) == (25.0, 25.0, 0.0)
  {
    assert Tally(Where(rs[5..], ModelOf, c)) == (0.0, 0.0, 0.0) by {
      assert Where(rs[6..], ModelOf, c) == [];
      GroupStep(rs, 5, c);
    }
    assert Tally(Where(rs[4..], ModelOf, c)) == (25.0, 25.0, 0.0) by {
      GroupStep(rs, 4, c);
    }
    assert Tally(Where(rs[3..], ModelOf, c)) == (25.0, 25.0, 0.0) by {
      GroupStep(rs, 3, c);
    }
    assert Tally(Where(rs[2..], ModelOf, c)) == (25.0, 25.0, 0.0) by {
      GroupStep(rs, 2, c);
    }
    assert Tally(Where(rs[1..], ModelOf, c)) == (25.0, 25.0, 0.0) by {
      GroupStep(rs, 1, c);
    }
    GroupStep(rs, 0, c);
    assert rs[0..] == rs;
  }

  /** The second model of the fixture shape: 15 requests, all exceeding. */
  lemma ShapedGroupT(rs: seq<UsageRecord>, g: string, t: string, c: string)
    requires Shaped(rs, g, t, c)
    ensures Tally(Where(rs, ModelOf, t)) == (15.0, 0.0, 15.0)
  {
    assert Tally(Where(rs[5..], ModelOf, t)) == (0.0, 0.0, 0.0) by {
      assert Where(rs[6..], ModelOf, t) == [];
      GroupStep(rs, 5, t);
    }
    assert Tally(Where(rs[4..], ModelOf, t)) == (0.0, 0.0, 0.0) by {
      GroupStep(rs, 4, t);
    }
    assert Tally(Where(rs[3..], ModelOf, t)) == (5.0, 0.0, 5.0) by {
      GroupStep(rs, 3, t);
    }
    assert Tally(Where(rs[2..], ModelOf, t)) == (5.0, 0.0, 5.0) by {
      GroupStep(rs, 2, t);
    }
    assert Tally(Where(rs[1..], ModelOf, t)) == (15.0, 0.0, 15.0) by {
      GroupStep(rs, 1, t);
    }
    GroupStep(rs, 0, t);
    assert rs[0..] == rs;
  }

  /** Every record of the fixture shape is of one of the three models. */
  lemma ShapedModel(rs: seq<UsageRecord>, g: string, t: string, c: string, k: nat)
    requires Shaped(rs, g, t, c) && k < |rs|
    ensures rs[k].model == g || rs[k].model == c || rs[k].model == t
  {
  }

  /** Every summary entry of the fixture shape is one of the three expected rows. */
  lemma ShapedEntry(rs: seq<UsageRecord>, g: string, t: string, c: string, i: nat)
    requires Shaped(rs, g, t, c)
    requires i < |GetModelUsageSummaryWithPercentages(rs)|
    ensures var e := GetModelUsageSummaryWithPercentages(rs)[i];
      || e == ModelShare(g, 40.0, 35.0, 5.0, 50.0, 87.5, 12.5)
      || e == ModelShare(c, 25.0, 25.0, 0.0, 31.25, 100.0, 0.0)
      || e == ModelShare(t, 15.0, 0.0, 15.0, 18.75, 0.0, 100.0)
  {
    var r := GetModelUsageSummaryWithPercentages(rs);
    var e := r[i];
    assert e.model == g || e.model == c || e.model == t by {
      var names := Project(rs, ModelOf);
      var k :| 0 <= k < |names| && names[k] == e.model;
      ShapedModel(rs, g, t, c, k);
    }
    ShapedTally(rs, g, t, c);
    if e.model == g {
      ShapedGroupG(rs, g, t, c);
    } else if e.model == c {
      ShapedGroupC(rs, g, t, c);
    } else {
      ShapedGroupT(rs, g, t, c);
    }
  }

  /** A list of distinct names drawn from three distinct names, naming all three, has three entries. */
  lemma ThreeNames(ms: seq<string>, g: string, c: string, t: string)
    requires g != c && g != t && c != t
    requires NoDuplicates(ms)
    requires forall i :: 0 <= i < |ms| ==> ms[i] == g || ms[i] == c || ms[i] == t
    requires g in ms && c in ms && t in ms
    ensures |ms| == 3
  {
    NoDuplicatesCardinality(ms);
    assert (set x | x in ms) == {g, c, t};
  }

  /** The summary of the fixture shape has one entry per model: three. */
  lemma ShapedLength(rs: seq<UsageRecord>, g: string, t: string, c: string)
    requires Shaped(rs, g, t, c)
    ensures |GetModelUsageSummaryWithPercentages(rs)| == 3
  {
    var r := GetModelUsageSummaryWithPercentages(rs);
    var p := Project(r, ShareModel);
    forall i | 0 <= i < |p| ensures p[i] == g || p[i] == c || p[i] == t {
      ShapedEntry(rs, g, t, c, i);
    }
    assert rs[0].model in p && rs[4].model in p && rs[1].model in p;
    ThreeNames(p, g, c, t);
  }

  /** Three entries with different names and strictly decreasing totals,
      listed once each in descending order of total, are listed as `[a, b, c]`. */
  lemma DescendingThree(r: seq<ModelShare>, a: ModelShare, b: ModelShare, c: ModelShare)
    requires |r| == 3 && SortedByTotalDesc(r) && NoDuplicates(Project(r, ShareModel))
    requires a.totalRequests > b.totalRequests > c.totalRequests
    requires forall i :: 0 <= i < |r| ==> r[i] == a || r[i] == b || r[i] == c
    ensures r == [a, b, c]
  {
    assert r[0].model != r[1].model && r[0].model != r[2].model && r[1].model != r[2].model by {
      assert Project(r, ShareModel)[0] == r[0].model;
      assert Project(r, ShareModel)[1] == r[1].model;
      assert Project(r, ShareModel)[2] == r[2].model;
    }
  }

  /** The summary of the fixture shape lists the three rows by descending total. */
  lemma ShapedSummary(rs: seq<UsageRecord>, g: string, t: string, c: string)
    requires Shaped(rs, g, t, c)
    ensures GetModelUsageSummaryWithPercentages(rs) == [
      ModelShare(g, 40.0, 35.0, 5.0, 50.0, 87.5, 12.5),
      ModelShare(c, 25.0, 25.0, 0.0, 31.25, 100.0, 0.0),
      ModelShare(t, 15.0, 0.0, 15.0, 18.75, 0.0, 100.0)]
  {
    var r := GetModelUsageSummaryWithPercentages(rs);
    ShapedLength(rs, g, t, c);
    forall i | 0 <= i < |r|
      ensures || r[i] == ModelShare(g, 40.0, 35.0, 5.0, 50.0, 87.5, 12.5)
              || r[i] == ModelShare(c, 25.0, 25.0, 0.0, 31.25, 100.0, 0.0)
              || r[i] == ModelShare(t, 15.0, 0.0, 15.0, 18.75, 0.0, 100.0)
    {
      ShapedEntry(rs, g, t, c, i);
    }
    DescendingThree(r, ModelShare(g, 40.0, 35.0, 5.0, 50.0, 87.5, 12.5),
                    ModelShare(c, 25.0, 25.0, 0.0, 31.25, 100.0, 0.0),
                    ModelShare(t, 15.0, 0.0, 15.0, 18.75, 0.0, 100.0));
  }

  /** The fixture records have the fixture shape. */
  lemma FixtureShaped()
    ensures Shaped(FixtureRecords, "gpt-4", "gpt-3.5-turbo", "coding-agent")
  {
  }

  /** The fixture file parses, and its request status summary is 80
      requests, 60 compliant and 20 exceeding, 75% / 25%. */
  lemma StatusFixture()
    ensures Parse(FixtureText()).Ok?
    ensures GetRequestStatusSummary(Parse(FixtureText()).value) == RequestStatusSummary(80.0, 60.0, 20.0, 75.0, 25.0)
  {
    FixtureParses();
    StatusOfRecords();
  }

  /** The status summary of the fixture's six records. */
  lemma StatusOfRecords()
    ensures GetRequestStatusSummary(FixtureRecords) == RequestStatusSummary(80.0, 60.0, 20.0, 75.0, 25.0)
  {
    FixtureShaped();
    ShapedTally(FixtureRecords, "gpt-4", "gpt-3.5-turbo", "coding-agent");
  }

  /** The fixture file parses, and its model summary is gpt-4 (50%),
      coding-agent (31.25%), gpt-3.5-turbo (18.75%), with their splits. */
  lemma ModelSummaryFixture()
    ensures Parse(FixtureText()).Ok?
    ensures GetModelUsageSummaryWithPercentages(Parse(FixtureText()).value) == [
      ModelShare("gpt-4", 40.0, 35.0, 5.0, 50.0, 87.5, 12.5),
      ModelShare("coding-agent", 25.0, 25.0, 0.0, 31.25, 100.0, 0.0),
      ModelShare("gpt-3.5-turbo", 15.0, 0.0, 15.0, 18.75, 0.0, 100.0)]
  {
    FixtureParses();
    SummaryOfRecords();
  }

  /** The model summary of the fixture's six records. */
  lemma SummaryOfRecords()
    ensures GetModelUsageSummaryWithPercentages(FixtureRecords) == [
      ModelShare("gpt-4", 40.0, 35.0, 5.0, 50.0, 87.5, 12.5),
      ModelShare("coding-agent", 25.0, 25.0, 0.0, 31.25, 100.0, 0.0),
      ModelShare("gpt-3.5-turbo", 15.0, 0.0, 15.0, 18.75, 0.0, 100.0)]
  {
    FixtureShaped();
    ShapedSummary(FixtureRecords, "gpt-4", "gpt-3.5-turbo", "coding-agent");
  }
}
