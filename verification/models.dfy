/** Per-model usage with shares (the engine's
    getModelUsageSummaryWithPercentages): one entry per distinct model with
    its total, its compliant/exceeding split, its share of the grand total
    and the split as shares of its own total, ordered by total descending
    with ties kept in order of the model's first appearance. */
module ModelSummary {
  import opened Grouping
  import opened Usage
  import opened Percentage
  import opened StatusSummary

  datatype ModelShare = ModelShare(
    model: string,
    totalRequests: real,
    compliantRequests: real,
    exceedingRequests: real,
    percentage: real,
    compliantPercentage: real,
    exceedingPercentage: real
  )

  function ShareModel(e: ModelShare): string { e.model }
  function ShareTotal(e: ModelShare): real { e.totalRequests }
  function SharePercentage(e: ModelShare): real { e.percentage }

  /** The entry of model `m`: its own records summarised, plus its share of `grand`. */
  function ShareOf(rs: seq<UsageRecord>, m: string, grand: real): (e: ModelShare)
  {
    var own := GetRequestStatusSummary(Where(rs, ModelOf, m));
    ModelShare(m, own.totalRequests, own.compliantRequests, own.exceedingRequests,
               CalculatePercentage(own.totalRequests, grand),
               own.compliantPercentage, own.exceedingPercentage)
  }

  function Shares(rs: seq<UsageRecord>, models: seq<string>, grand: real): (es: seq<ModelShare>)
    ensures |es| == |models|
    ensures forall i :: 0 <= i < |models| ==> es[i] == ShareOf(rs, models[i], grand)
  {
    seq(|models|, i requires 0 <= i < |models| => ShareOf(rs, models[i], grand))
  }

  predicate SortedByTotalDesc(es: seq<ModelShare>)
  {
    forall i, j :: 0 <= i < j < |es| ==> es[i].totalRequests >= es[j].totalRequests
  }

  /** Where `x` goes in a descending list: after every entry with a strictly
      larger total, before the first entry with a total not above it. */
  function InsertPos(x: ModelShare, es: seq<ModelShare>): (p: nat)
    ensures p <= |es|
    ensures forall q :: 0 <= q < p ==> es[q].totalRequests > x.totalRequests
    ensures p < |es| ==> es[p].totalRequests <= x.totalRequests
  {
    if |es| == 0 || es[0].totalRequests <= x.totalRequests then 0
    else 1 + InsertPos(x, es[1..])
  }

  function Insert(x: ModelShare, es: seq<ModelShare>): (r: seq<ModelShare>)
    requires SortedByTotalDesc(es)
    ensures SortedByTotalDesc(r)
    ensures multiset(r) == multiset(es) + multiset{x}
    ensures |r| == |es| + 1
  {
    var p := InsertPos(x, es);
    assert es == es[..p] + es[p..];
    es[..p] + [x] + es[p..]
  }

  /** Insertion sort, descending by total; an entry is inserted ahead of the
      equal-total entries that follow it in the input, so ties keep input order. */
  function SortByTotal(es: seq<ModelShare>): (r: seq<ModelShare>)
    ensures SortedByTotalDesc(r)
    ensures multiset(r) == multiset(es)
    ensures |r| == |es|
  {
    if |es| == 0 then []
    else
      assert es == [es[0]] + es[1..];
      Insert(es[0], SortByTotal(es[1..]))
  }

  /** The summary over the distinct models in order of first appearance,
      sorted by total descending. */
  function GetModelUsageSummaryWithPercentages(rs: seq<UsageRecord>): (r: seq<ModelShare>)
    ensures NoDuplicates(Project(r, ShareModel))
    ensures forall i :: 0 <= i < |rs| ==> rs[i].model in Project(r, ShareModel)
    ensures forall i :: 0 <= i < |r| ==> r[i].model in Project(rs, ModelOf)
    ensures forall i :: 0 <= i < |r| ==>
      var own := Where(rs, ModelOf, r[i].model);
      && r[i].totalRequests == TotalRequests(own)
      && r[i].compliantRequests == CompliantRequests(own)
      && r[i].exceedingRequests == ExceedingRequests(own)
      && r[i].percentage == CalculatePercentage(r[i].totalRequests, TotalRequests(rs))
      && r[i].compliantPercentage == CalculatePercentage(r[i].compliantRequests, r[i].totalRequests)
      && r[i].exceedingPercentage == CalculatePercentage(r[i].exceedingRequests, r[i].totalRequests)
    ensures SortedByTotalDesc(r)
    ensures forall i, j :: 0 <= i < j < |r| && r[i].totalRequests == r[j].totalRequests ==>
      FirstIndex(Project(rs, ModelOf), r[i].model) < FirstIndex(Project(rs, ModelOf), r[j].model)
  {
    var names := Project(rs, ModelOf);
    var models := Distinct(names);
    var es := Shares(rs, models, TotalRequests(rs));
    var r := SortByTotal(es);
    SummaryEntries(rs, models, es, r);
    SummaryCoversModels(rs, models, es, r);
    SummaryTiesInFirstSeenOrder(rs, models, es, r);
    r
  }

  lemma SummaryEntries(rs: seq<UsageRecord>, models: seq<string>, es: seq<ModelShare>, r: seq<ModelShare>)
    requires models == Distinct(Project(rs, ModelOf))
    requires es == Shares(rs, models, TotalRequests(rs))
    requires multiset(r) == multiset(es)
    ensures forall i :: 0 <= i < |r| ==> r[i] in es && r[i].model in Project(rs, ModelOf)
    ensures forall i :: 0 <= i < |r| ==> r[i] == ShareOf(rs, r[i].model, TotalRequests(rs))
  {
    PermutedEntries(rs, Project(rs, ModelOf), models, es, r);
  }

  /** Every entry of a permutation of the shares of listed models is one of
      those shares, for a model that occurs in the records. */
  lemma PermutedEntries(rs: seq<UsageRecord>, names: seq<string>, models: seq<string>, es: seq<ModelShare>, r: seq<ModelShare>)
    requires forall k :: 0 <= k < |models| ==> models[k] in names
    requires es == Shares(rs, models, TotalRequests(rs))
    requires multiset(r) == multiset(es)
    ensures forall i :: 0 <= i < |r| ==> r[i] in es && r[i].model in names
    ensures forall i :: 0 <= i < |r| ==> r[i] == ShareOf(rs, r[i].model, TotalRequests(rs))
  {
    forall i | 0 <= i < |r|
      ensures r[i] in es && r[i].model in names
      ensures r[i] == ShareOf(rs, r[i].model, TotalRequests(rs))
    {
      assert r[i] in multiset(es);
      var q :| 0 <= q < |es| && es[q] == r[i];
      assert es[q] == ShareOf(rs, models[q], TotalRequests(rs));
    }
  }

  lemma SummaryCoversModels(rs: seq<UsageRecord>, models: seq<string>, es: seq<ModelShare>, r: seq<ModelShare>)
    requires models == Distinct(Project(rs, ModelOf))
    requires es == Shares(rs, models, TotalRequests(rs))
    requires multiset(r) == multiset(es)
    ensures NoDuplicates(Project(r, ShareModel))
    ensures forall i :: 0 <= i < |rs| ==> rs[i].model in Project(r, ShareModel)
  {
    SharesModels(rs, models, TotalRequests(rs));
    PermutedModels(Project(rs, ModelOf), models, es, r);
  }

  /** A permutation of entries labelled by a duplicate-free list of models
      carries each of those models exactly once. */
  lemma PermutedModels(names: seq<string>, models: seq<string>, es: seq<ModelShare>, r: seq<ModelShare>)
    requires NoDuplicates(models)
    requires forall i :: 0 <= i < |names| ==> names[i] in models
    requires |es| == |models|
    requires forall k :: 0 <= k < |es| ==> es[k].model == models[k]
    requires multiset(r) == multiset(es)
    ensures NoDuplicates(Project(r, ShareModel))
    ensures forall i :: 0 <= i < |names| ==> names[i] in Project(r, ShareModel)
  {
    assert NoDuplicates(Project(es, ShareModel)) by {
      assert forall i :: 0 <= i < |es| ==> Project(es, ShareModel)[i] == models[i];
    }
    SortedModelsDistinct(es, r);
    forall i | 0 <= i < |names| ensures names[i] in Project(r, ShareModel) {
      var k :| 0 <= k < |models| && models[k] == names[i];
      assert es[k] in multiset(r);
      var j :| 0 <= j < |r| && r[j] == es[k];
      assert Project(r, ShareModel)[j] == names[i];
    }
  }

  lemma SummaryTiesInFirstSeenOrder(rs: seq<UsageRecord>, models: seq<string>, es: seq<ModelShare>, r: seq<ModelShare>)
    requires models == Distinct(Project(rs, ModelOf))
    requires es == Shares(rs, models, TotalRequests(rs))
    requires r == SortByTotal(es)
    requires forall i :: 0 <= i < |r| ==> r[i].model in Project(rs, ModelOf)
    ensures forall i, j :: 0 <= i < j < |r| && r[i].totalRequests == r[j].totalRequests ==>
      FirstIndex(Project(rs, ModelOf), r[i].model) < FirstIndex(Project(rs, ModelOf), r[j].model)
  {
    var names := Project(rs, ModelOf);
    var rank := (e: ModelShare) => FirstSeen(names, e.model);
    assert forall i, j :: 0 <= i < j < |es| ==> rank(es[i]) < rank(es[j]) by {
      SharesModels(rs, models, TotalRequests(rs));
      forall i, j | 0 <= i < j < |es| ensures rank(es[i]) < rank(es[j]) {
        assert es[i].model == models[i] && es[j].model == models[j];
      }
    }
    SortTies(es, rank);
    forall i, j | 0 <= i < j < |r| && r[i].totalRequests == r[j].totalRequests
      ensures FirstIndex(names, r[i].model) < FirstIndex(names, r[j].model)
    {
      assert rank(r[i]) < rank(r[j]);
    }
  }

  /** Where model `m` first appears in `names`; models that never appear rank last. */
  function FirstSeen(names: seq<string>, m: string): (n: nat)
    ensures n <= |names|
    ensures m in names <==> n < |names|
  {
    if m in names then FirstIndex(names, m) else |names|
  }

  /** The entries built from a duplicate-free model list are themselves
      distinct, and entry `i` belongs to model `i`. */
  lemma SharesModels(rs: seq<UsageRecord>, models: seq<string>, grand: real)
    requires NoDuplicates(models)
    ensures NoDuplicates(Shares(rs, models, grand))
    ensures forall i :: 0 <= i < |models| ==> Shares(rs, models, grand)[i].model == models[i]
  {
  }

  /** Sorting a list of entries with distinct models keeps the models distinct. */
  lemma SortedModelsDistinct(es: seq<ModelShare>, r: seq<ModelShare>)
    requires NoDuplicates(Project(es, ShareModel))
    requires multiset(r) == multiset(es)
    ensures NoDuplicates(Project(r, ShareModel))
  {
    forall i, j | 0 <= i < j < |r| ensures r[i].model != r[j].model {
      assert r[i] in multiset(es) && r[j] in multiset(es);
      var a :| 0 <= a < |es| && es[a] == r[i];
      var b :| 0 <= b < |es| && es[b] == r[j];
      assert Project(es, ShareModel)[a] == r[i].model;
      assert Project(es, ShareModel)[b] == r[j].model;
      if r[i] == r[j] {
        MultisetPairCount(r, i, j);
        DistinctMultiplicity(es, a);
      }
    }
  }

  /** Two positions holding the same value give it multiplicity two. */
  lemma MultisetPairCount<T>(s: seq<T>, i: nat, j: nat)
    requires i < j < |s| && s[i] == s[j]
    ensures multiset(s)[s[i]] >= 2
  {
    var x := s[i];
    assert s == s[..i] + [x] + s[i + 1..j] + [x] + s[j + 1..];
  }

  /** In a sequence whose models are distinct, every entry occurs once. */
  lemma DistinctMultiplicity(es: seq<ModelShare>, a: nat)
    requires NoDuplicates(Project(es, ShareModel))
    requires a < |es|
    ensures multiset(es)[es[a]] == 1
  {
    var x := es[a];
    var names := Project(es, ShareModel);
    assert es == es[..a] + [x] + es[a + 1..];
    forall q | 0 <= q < |es| && q != a ensures es[q] != x {
      assert names[q] == es[q].model && names[a] == x.model;
    }
    assert x !in es[..a];
    assert x !in es[a + 1..];
  }

  /** Entries of equal total appear in increasing `rank`. */
  predicate TiesByRank(r: seq<ModelShare>, rank: ModelShare -> int)
  {
    forall i, j :: 0 <= i < j < |r| && r[i].totalRequests == r[j].totalRequests ==> rank(r[i]) < rank(r[j])
  }

  /** Inserting an entry that ranks before every entry already placed keeps
      the ties in rank order. */
  lemma InsertTies(x: ModelShare, r1: seq<ModelShare>, rank: ModelShare -> int)
    requires SortedByTotalDesc(r1)
    requires TiesByRank(r1, rank)
    requires forall k :: 0 <= k < |r1| ==> rank(x) < rank(r1[k])
    ensures TiesByRank(Insert(x, r1), rank)
  {
    var p := InsertPos(x, r1);
    var r := Insert(x, r1);
    assert forall k :: 0 <= k < |r| ==> r[k] == (if k < p then r1[k] else if k == p then x else r1[k - 1]);
    forall i, j | 0 <= i < j < |r| && r[i].totalRequests == r[j].totalRequests
      ensures rank(r[i]) < rank(r[j])
    {
      if j < p {
        assert r[i] == r1[i] && r[j] == r1[j];
      } else if j == p {
        assert false;
      } else if i < p {
        assert r[i] == r1[i] && r[j] == r1[j - 1];
      } else if i == p {
        assert r[j] == r1[j - 1];
      } else {
        assert r[i] == r1[i - 1] && r[j] == r1[j - 1];
      }
    }
  }

  /** Stability: when the input is in increasing rank, equal totals come out
      in increasing rank, that is, in input order. */
  lemma {:induction false} SortTies(es: seq<ModelShare>, rank: ModelShare -> int)
    requires forall i, j :: 0 <= i < j < |es| ==> rank(es[i]) < rank(es[j])
    ensures TiesByRank(SortByTotal(es), rank)
  {
    if |es| > 0 {
      var tail := es[1..];
      SortTies(tail, rank);
      var r1 := SortByTotal(tail);
      forall k | 0 <= k < |r1| ensures rank(es[0]) < rank(r1[k]) {
        assert r1[k] in multiset(tail);
        var q :| 0 <= q < |tail| && tail[q] == r1[k];
        assert tail[q] == es[q + 1];
      }
      InsertTies(es[0], r1, rank);
    }
  }

  lemma {:induction false} InsertTotal(x: ModelShare, es: seq<ModelShare>, val: ModelShare -> real)
    requires SortedByTotalDesc(es)
    ensures Total(Insert(x, es), val) == val(x) + Total(es, val)
  {
    var p := InsertPos(x, es);
    assert Insert(x, es) == es[..p] + ([x] + es[p..]);
    TotalAppend(es[..p], [x] + es[p..], val);
    TotalAppend([x], es[p..], val);
    assert es == es[..p] + es[p..];
    TotalAppend(es[..p], es[p..], val);
    assert Total([x], val) == val(x) + Total([x][1..], val);
  }

  /** Sorting neither adds nor loses volume. */
  lemma {:induction false} SortTotal(es: seq<ModelShare>, val: ModelShare -> real)
    ensures Total(SortByTotal(es), val) == Total(es, val)
  {
    if |es| > 0 {
      SortTotal(es[1..], val);
      InsertTotal(es[0], SortByTotal(es[1..]), val);
    }
  }

  lemma {:induction false} SharesTotal(rs: seq<UsageRecord>, models: seq<string>, grand: real)
    ensures Total(Shares(rs, models, grand), ShareTotal) == GroupTotals(rs, ModelOf, models, RequestsOf)
  {
    if |models| > 0 {
      assert Shares(rs, models, grand)[1..] == Shares(rs, models[1..], grand);
      SharesTotal(rs, models[1..], grand);
    }
  }

  /** Shares of one grand total add up to the share of their summed totals. */
  lemma {:induction false} SharesPercentage(es: seq<ModelShare>, grand: real)
    requires forall i :: 0 <= i < |es| ==> es[i].percentage == CalculatePercentage(es[i].totalRequests, grand)
    ensures Total(es, SharePercentage) == CalculatePercentage(Total(es, ShareTotal), grand)
  {
    if |es| > 0 {
      SharesPercentage(es[1..], grand);
      PercentageAdditive(es[0].totalRequests, Total(es[1..], ShareTotal), grand);
    }
  }

  /** Conservation: the per-model totals add up to the grand total. */
  lemma ModelTotalsSumToGrandTotal(rs: seq<UsageRecord>)
    ensures Total(GetModelUsageSummaryWithPercentages(rs), ShareTotal) == TotalRequests(rs)
  {
    var models := Distinct(Project(rs, ModelOf));
    var es := Shares(rs, models, TotalRequests(rs));
    SortTotal(es, ShareTotal);
    SharesTotal(rs, models, TotalRequests(rs));
    PartitionTotal(rs, ModelOf, models, RequestsOf);
  }

  /** Whenever there is any volume, the per-model shares add up to 100%. */
  lemma ModelSharesSumToHundred(rs: seq<UsageRecord>)
    requires TotalRequests(rs) != 0.0
    ensures Total(GetModelUsageSummaryWithPercentages(rs), SharePercentage) == 100.0
  {
    var grand := TotalRequests(rs);
    var r := GetModelUsageSummaryWithPercentages(rs);
    SharesPercentage(r, grand);
    ModelTotalsSumToGrandTotal(rs);
    WholeIsHundredPercent(grand);
  }

  /** Within each model, compliant and exceeding volume make up its total,
      and (when it has volume) their shares make up 100%. */
  lemma ModelSplitConserves(rs: seq<UsageRecord>)
    ensures var r := GetModelUsageSummaryWithPercentages(rs);
      forall i :: 0 <= i < |r| ==>
        && r[i].compliantRequests + r[i].exceedingRequests == r[i].totalRequests
        && (r[i].totalRequests != 0.0 ==> r[i].compliantPercentage + r[i].exceedingPercentage == 100.0)
  {
    var r := GetModelUsageSummaryWithPercentages(rs);
    forall i | 0 <= i < |r|
      ensures r[i].compliantRequests + r[i].exceedingRequests == r[i].totalRequests
      ensures r[i].totalRequests != 0.0 ==> r[i].compliantPercentage + r[i].exceedingPercentage == 100.0
    {
      EntrySplit(Where(rs, ModelOf, r[i].model), r[i]);
    }
  }

  /** An entry summarising `own` splits its total, and its 100%, in two. */
  lemma EntrySplit(own: seq<UsageRecord>, e: ModelShare)
    requires e.totalRequests == TotalRequests(own)
    requires e.compliantRequests == CompliantRequests(own) && e.exceedingRequests == ExceedingRequests(own)
    requires e.compliantPercentage == CalculatePercentage(e.compliantRequests, e.totalRequests)
    requires e.exceedingPercentage == CalculatePercentage(e.exceedingRequests, e.totalRequests)
    ensures e.compliantRequests + e.exceedingRequests == e.totalRequests
    ensures e.totalRequests != 0.0 ==> e.compliantPercentage + e.exceedingPercentage == 100.0
  {
    SplitConservesTotal(own);
    PercentageAdditive(e.compliantRequests, e.exceedingRequests, e.totalRequests);
    if e.totalRequests != 0.0 {
      WholeIsHundredPercent(e.totalRequests);
    }
  }

  /** A model whose every record exceeds quota has no compliant volume: its
      compliant side is 0 / 0% and its exceeding side is all of it / 100%. */
  lemma ModelWithoutCompliantVolume(rs: seq<UsageRecord>, i: nat)
    requires i < |GetModelUsageSummaryWithPercentages(rs)|
    requires forall k :: 0 <= k < |rs| && rs[k].model == GetModelUsageSummaryWithPercentages(rs)[i].model ==> rs[k].exceedsQuota
    ensures var e := GetModelUsageSummaryWithPercentages(rs)[i];
      && e.compliantRequests == 0.0 && e.exceedingRequests == e.totalRequests
      && (e.totalRequests != 0.0 ==> e.compliantPercentage == 0.0 && e.exceedingPercentage == 100.0)
  {
    var r := GetModelUsageSummaryWithPercentages(rs);
    var e := r[i];
    OwnRecordsAllExceeding(rs, e.model);
    assert e.compliantRequests == 0.0;
    assert e.exceedingRequests == e.totalRequests;
    if e.totalRequests != 0.0 {
      NoPartIsZeroPercent(e.totalRequests);
      WholeIsHundredPercent(e.totalRequests);
    }
  }

  lemma OwnRecordsAllExceeding(rs: seq<UsageRecord>, m: string)
    requires forall k :: 0 <= k < |rs| && rs[k].model == m ==> rs[k].exceedsQuota
    ensures var own := Where(rs, ModelOf, m);
      CompliantRequests(own) == 0.0 && ExceedingRequests(own) == TotalRequests(own)
  {
    var own := Where(rs, ModelOf, m);
    forall k | 0 <= k < |own| ensures own[k].exceedsQuota {
      assert own[k] in own;
    }
    WhereNone(own, ExceedsOf, false);
    SplitConservesTotal(own);
  }
}
