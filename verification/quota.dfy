/** The headline count of users who went beyond their monthly quota (the
    engine's getUniqueUsersExceedingQuota): the number of distinct user
    names among the records flagged as exceeding. */
module QuotaUsers {
  import opened Grouping
  import opened Usage

  /** The users with at least one exceeding record. */
  ghost function ExceedingUsers(rs: seq<UsageRecord>): set<string>
  {
    set r | r in rs && r.exceedsQuota :: r.user
  }

  /** Distinct names of the exceeding records, in first-seen order. */
  function ExceedingUserList(rs: seq<UsageRecord>): (us: seq<string>)
    ensures NoDuplicates(us)
    ensures forall i :: 0 <= i < |us| ==> exists r :: r in rs && r.exceedsQuota && r.user == us[i]
    ensures forall r :: r in rs && r.exceedsQuota ==> r.user in us
  {
    var ex := Where(rs, ExceedsOf, true);
    var us := Distinct(Project(ex, UserOf));
    forall i | 0 <= i < |us| ensures exists r :: r in rs && r.exceedsQuota && r.user == us[i] {
      var j :| 0 <= j < |ex| && Project(ex, UserOf)[j] == us[i];
      assert ex[j] in ex;
    }
    forall r | r in rs && r.exceedsQuota ensures r.user in us {
      var j :| 0 <= j < |rs| && rs[j] == r;
      assert r in ex;
      var k :| 0 <= k < |ex| && ex[k] == r;
      assert Project(ex, UserOf)[k] == r.user;
    }
    us
  }

  /** The count is exactly the number of distinct users who have at least
      one record beyond quota; users who never exceed do not contribute. */
  function UniqueUsersExceedingQuota(rs: seq<UsageRecord>): (n: nat)
    ensures n == |ExceedingUsers(rs)|
  {
    var us := ExceedingUserList(rs);
    NoDuplicatesCardinality(us);
    assert (set k | k in us) == ExceedingUsers(rs);
    |us|
  }

  /** With no record beyond quota the count is 0 (including for no records at all). */
  lemma NoneExceedingCountsZero(rs: seq<UsageRecord>)
    requires forall i :: 0 <= i < |rs| ==> !rs[i].exceedsQuota
    ensures UniqueUsersExceedingQuota(rs) == 0
  {
    assert ExceedingUsers(rs) == {};
  }

  /** A record within quota never changes the count. */
  lemma CompliantRecordAddsNothing(rs: seq<UsageRecord>, r: UsageRecord)
    requires !r.exceedsQuota
    ensures UniqueUsersExceedingQuota(rs + [r]) == UniqueUsersExceedingQuota(rs)
  {
    ExceedingUsersSnoc(rs, r);
  }

  /** A record beyond quota raises the count by one exactly when its user had
      not exceeded before: a user exceeding on several days or models counts once. */
  lemma ExceedingRecordCountsUserOnce(rs: seq<UsageRecord>, r: UsageRecord)
    requires r.exceedsQuota
    ensures UniqueUsersExceedingQuota(rs + [r])
         == UniqueUsersExceedingQuota(rs) + (if r.user in ExceedingUsers(rs) then 0 else 1)
  {
    var before := ExceedingUsers(rs);
    ExceedingUsersSnoc(rs, r);
    assert ExceedingUsers(rs + [r]) == before + {r.user};
    if r.user !in before {
      assert |before + {r.user}| == |before| + 1;
    } else {
      assert before + {r.user} == before;
    }
  }

  lemma ExceedingUsersSnoc(rs: seq<UsageRecord>, r: UsageRecord)
    ensures ExceedingUsers(rs + [r]) == ExceedingUsers(rs) + (if r.exceedsQuota then {r.user} else {})
  {
    var t := rs + [r];
    forall x | x in t ensures x in rs || x == r {
      var k :| 0 <= k < |t| && t[k] == x;
      if k < |rs| { assert t[k] == rs[k]; }
    }
    forall x | x in rs ensures x in t {
      var k :| 0 <= k < |rs| && rs[k] == x;
      assert t[k] == x;
    }
    assert r == t[|rs|];
  }

  /** The count never exceeds the number of exceeding records. */
  lemma {:induction false} CountBoundedByExceedingRecords(rs: seq<UsageRecord>)
    ensures UniqueUsersExceedingQuota(rs) <= |Where(rs, ExceedsOf, true)|
  {
    if |rs| > 0 {
      var init := rs[..|rs| - 1];
      var last := rs[|rs| - 1];
      assert rs == init + [last];
      CountBoundedByExceedingRecords(init);
      WhereAppend(init, [last], ExceedsOf, true);
      if last.exceedsQuota {
        ExceedingRecordCountsUserOnce(init, last);
        assert Where([last], ExceedsOf, true) == [last];
      } else {
        CompliantRecordAddsNothing(init, last);
      }
    }
  }

  /** Records all beyond quota and all of one user count once, however many
      days or models they span. */
  lemma OneUserCountsOnce(rs: seq<UsageRecord>, u: string)
    requires |rs| > 0
    requires forall i :: 0 <= i < |rs| ==> rs[i].user == u && rs[i].exceedsQuota
    ensures UniqueUsersExceedingQuota(rs) == 1
  {
    assert ExceedingUsers(rs) == {u} by {
      assert rs[0] in rs;
    }
  }
}
