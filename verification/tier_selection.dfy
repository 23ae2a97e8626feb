/**
 * Choosing the multi-subject tier (services/billingService.ts:50-54): the
 * configured tiers are copied, sorted by threshold from highest to lowest,
 * and the first whose threshold the subject count reaches is taken.
 *
 * The sort and the search are library calls in the source
 * (`Array.prototype.sort`, `Array.prototype.find`); they are modelled by
 * their meaning: a stable sort (as the language standard requires) and a
 * first-match search. Sequences are values, so the configured list is never
 * changed by sorting its copy.
 */
module TierSelection {
  import opened BillingTypes

  ghost predicate DescendingByThreshold(ts: seq<MultiSubjectRule>) {
    forall i, j :: 0 <= i < j < |ts| ==> ts[i].threshold >= ts[j].threshold
  }

  /** No two configured tiers share a threshold. */
  ghost predicate DistinctThresholds(ts: seq<MultiSubjectRule>) {
    forall i, j :: 0 <= i < j < |ts| ==> ts[i].threshold != ts[j].threshold
  }

  /** Puts `t` into a descending list, ahead of the tiers with its own threshold. */
  function InsertByThreshold(t: MultiSubjectRule, sorted: seq<MultiSubjectRule>): (r: seq<MultiSubjectRule>)
    requires DescendingByThreshold(sorted)
    ensures DescendingByThreshold(r)
    ensures multiset(r) == multiset(sorted) + multiset{t}
  {
    if sorted == [] || sorted[0].threshold <= t.threshold then
      [t] + sorted
    else
      assert sorted == [sorted[0]] + sorted[1..];
      var rest := InsertByThreshold(t, sorted[1..]);
      BoundedByHead(t, sorted, rest);
      [sorted[0]] + rest
  }

  /** Every tier of `rest`, made of `t` and the tail of `sorted`, sits no higher than the head. */
  lemma BoundedByHead(t: MultiSubjectRule, sorted: seq<MultiSubjectRule>, rest: seq<MultiSubjectRule>)
    requires DescendingByThreshold(sorted) && DescendingByThreshold(rest)
    requires sorted != [] && t.threshold < sorted[0].threshold
    requires multiset(rest) == multiset(sorted[1..]) + multiset{t}
    ensures DescendingByThreshold([sorted[0]] + rest)
  {
    forall j | 0 <= j < |rest| ensures rest[j].threshold <= sorted[0].threshold {
      assert rest[j] in multiset(rest);
      if rest[j] != t {
        assert rest[j] in sorted[1..];
        var k :| 0 <= k < |sorted| - 1 && sorted[1..][k] == rest[j];
        assert sorted[k + 1] == rest[j];
      }
    }
    var r := [sorted[0]] + rest;
    forall i, j | 0 <= i < j < |r| ensures r[i].threshold >= r[j].threshold {
      assert r[j] == rest[j - 1];
      if i > 0 {
        assert r[i] == rest[i - 1];
      }
    }
  }

  /**
   * The comparator `(a, b) => b.threshold - a.threshold`: highest threshold
   * first, tiers with equal thresholds in their configured order.
   */
  function SortByThresholdDesc(ts: seq<MultiSubjectRule>): (r: seq<MultiSubjectRule>)
    ensures DescendingByThreshold(r)
    ensures multiset(r) == multiset(ts)
  {
    if ts == [] then []
    else
      assert ts == [ts[0]] + ts[1..];
      InsertByThreshold(ts[0], SortByThresholdDesc(ts[1..]))
  }

  /** `find(r => count >= r.threshold)`: the first tier the count reaches. */
  function FindFirstEligible(ts: seq<MultiSubjectRule>, count: int): (r: Option<MultiSubjectRule>)
    ensures r.Some? ==> r.value in ts && r.value.threshold <= count
    ensures r.None? <==> forall i :: 0 <= i < |ts| ==> ts[i].threshold > count
  {
    if ts == [] then None
    else if count >= ts[0].threshold then Some(ts[0])
    else
      var r := FindFirstEligible(ts[1..], count);
      assert forall i :: 1 <= i < |ts| ==> ts[i] == ts[1..][i - 1];
      r
  }

  /** The search returns the first reachable tier: every tier before it is out of reach. */
  lemma {:induction false} FindFirstEligibleIsFirstMatch(ts: seq<MultiSubjectRule>, count: int)
    ensures var r := FindFirstEligible(ts, count);
      r.Some? ==> exists i :: 0 <= i < |ts| && ts[i] == r.value && forall j :: 0 <= j < i ==> ts[j].threshold > count
  {
    if ts != [] && count < ts[0].threshold {
      var rest := ts[1..];
      FindFirstEligibleIsFirstMatch(rest, count);
      var r := FindFirstEligible(rest, count);
      if r.Some? {
        var i :| 0 <= i < |rest| && rest[i] == r.value && forall j :: 0 <= j < i ==> rest[j].threshold > count;
        assert forall j :: 1 <= j < i + 1 ==> ts[j] == rest[j - 1];
        assert ts[i + 1] == r.value;
      }
    }
  }

  /** The tier the calculator applies for a student billed in `count` subjects. */
  function MatchTier(ts: seq<MultiSubjectRule>, count: int): Option<MultiSubjectRule> {
    FindFirstEligible(SortByThresholdDesc(ts), count)
  }

  /** In a descending list the first reachable tier has the highest reachable threshold. */
  lemma {:induction false} FirstEligibleIsHighest(ts: seq<MultiSubjectRule>, count: int)
    requires DescendingByThreshold(ts)
    requires FindFirstEligible(ts, count).Some?
    ensures forall i :: 0 <= i < |ts| && ts[i].threshold <= count ==>
      ts[i].threshold <= FindFirstEligible(ts, count).value.threshold
  {
    if count < ts[0].threshold {
      var rest := ts[1..];
      FirstEligibleIsHighest(rest, count);
      forall i | 0 <= i < |ts| && ts[i].threshold <= count
        ensures ts[i].threshold <= FindFirstEligible(ts, count).value.threshold
      {
        assert i != 0;
        assert ts[i] == rest[i - 1];
      }
    }
  }

  /**
   * The matched tier is a configured tier, the count reaches it, and no
   * reachable tier has a higher threshold; there is no match exactly when
   * every threshold exceeds the count.
   */
  lemma MatchTierIsHighestEligible(ts: seq<MultiSubjectRule>, count: int)
    ensures MatchTier(ts, count).None? <==> forall i :: 0 <= i < |ts| ==> ts[i].threshold > count
    ensures MatchTier(ts, count).Some? ==>
      var t := MatchTier(ts, count).value;
      && t in ts
      && t.threshold <= count
      && forall i :: 0 <= i < |ts| && ts[i].threshold <= count ==> ts[i].threshold <= t.threshold
  {
    var sorted := SortByThresholdDesc(ts);
    assert forall t :: t in sorted <==> t in ts by {
      assert forall t :: t in sorted <==> t in multiset(sorted);
      assert forall t :: t in ts <==> t in multiset(ts);
    }
    if MatchTier(ts, count).Some? {
      FirstEligibleIsHighest(sorted, count);
      forall i | 0 <= i < |ts| && ts[i].threshold <= count
        ensures ts[i].threshold <= MatchTier(ts, count).value.threshold
      {
        assert ts[i] in sorted;
        var j :| 0 <= j < |sorted| && sorted[j] == ts[i];
      }
    } else {
      forall i | 0 <= i < |ts|
        ensures ts[i].threshold > count
      {
        assert ts[i] in sorted;
        var j :| 0 <= j < |sorted| && sorted[j] == ts[i];
      }
    }
  }

  /**
   * With distinct thresholds the configured order does not matter: any
   * reordering of the tiers matches the same tier.
   */
  lemma MatchTierIgnoresConfiguredOrder(a: seq<MultiSubjectRule>, b: seq<MultiSubjectRule>, count: int)
    requires multiset(a) == multiset(b)
    requires DistinctThresholds(a)
    ensures MatchTier(a, count) == MatchTier(b, count)
  {
    assert forall t :: t in a <==> t in b by {
      assert forall t :: t in a <==> t in multiset(a);
      assert forall t :: t in b <==> t in multiset(b);
    }
    MatchTierIsHighestEligible(a, count);
    MatchTierIsHighestEligible(b, count);
    var ma, mb := MatchTier(a, count), MatchTier(b, count);
    if ma.None? {
      forall j | 0 <= j < |b| ensures b[j].threshold > count {
        assert b[j] in a;
      }
    } else {
      assert mb.Some? by {
        assert ma.value in b;
        var j :| 0 <= j < |b| && b[j] == ma.value;
      }
      var i :| 0 <= i < |a| && a[i] == ma.value;
      var k :| 0 <= k < |a| && a[k] == mb.value;
      var ib :| 0 <= ib < |b| && b[ib] == ma.value;
      assert ma.value.threshold <= mb.value.threshold;
      assert mb.value.threshold <= ma.value.threshold;
      if i != k {
        assert a[i].threshold != a[k].threshold;
      }
    }
  }

  /**
   * A reference definition by one scan of the configured list: the tier with
   * the highest threshold the count reaches, the earlier one on a tie.
   */
  function HighestEligible(ts: seq<MultiSubjectRule>, count: int): Option<MultiSubjectRule> {
    if ts == [] then None
    else
      var rest := HighestEligible(ts[1..], count);
      if ts[0].threshold <= count && (rest.None? || rest.value.threshold <= ts[0].threshold) then Some(ts[0])
      else rest
  }

  /** Searching after an insertion: the inserted tier wins against the old result when it reaches at least as high. */
  lemma {:induction false} FindAfterInsert(t: MultiSubjectRule, sorted: seq<MultiSubjectRule>, count: int)
    requires DescendingByThreshold(sorted)
    ensures var before := FindFirstEligible(sorted, count);
      FindFirstEligible(InsertByThreshold(t, sorted), count)
        == if t.threshold <= count && (before.None? || before.value.threshold <= t.threshold) then Some(t) else before
  {
    if sorted == [] || sorted[0].threshold <= t.threshold {
      var found := FindFirstEligible(sorted, count);
      if found.Some? {
        var j :| 0 <= j < |sorted| && sorted[j] == found.value;
        assert sorted[0].threshold >= sorted[j].threshold;
      }
    } else {
      FindAfterInsert(t, sorted[1..], count);
      assert InsertByThreshold(t, sorted)[1..] == InsertByThreshold(t, sorted[1..]);
    }
  }

  /**
   * Sorting then searching is the one-scan reference definition, ties
   * included: of two tiers with the same threshold, the one configured
   * first is matched.
   */
  lemma {:induction false} MatchTierIsFirstHighestEligible(ts: seq<MultiSubjectRule>, count: int)
    ensures MatchTier(ts, count) == HighestEligible(ts, count)
  {
    if ts != [] {
      MatchTierIsFirstHighestEligible(ts[1..], count);
      FindAfterInsert(ts[0], SortByThresholdDesc(ts[1..]), count);
    }
  }
}
