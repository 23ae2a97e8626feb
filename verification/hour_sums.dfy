/**
 * Sums of lesson hours over a list of course records, in total and grouped
 * by a key (the subject, the teacher's name). Both the billing calculator
 * and the dashboard aggregation are specified with these.
 */
module HourSums {
  import opened BillingTypes

  /** The hours of all records. */
  function SumHours(rs: seq<CourseRecord>): real {
    if rs == [] then 0.0 else SumHours(rs[..|rs| - 1]) + rs[|rs| - 1].hours
  }

  /** The hours of the records whose key is `k`. */
  function GroupSum<K(==)>(rs: seq<CourseRecord>, key: CourseRecord -> K, k: K): real {
    if rs == [] then 0.0
    else GroupSum(rs[..|rs| - 1], key, k) + (if key(rs[|rs| - 1]) == k then rs[|rs| - 1].hours else 0.0)
  }

  /** The sum of the group sums of the keys `ks`. */
  function SumGroups<K(==)>(ks: seq<K>, rs: seq<CourseRecord>, key: CourseRecord -> K): real {
    if ks == [] then 0.0 else GroupSum(rs, key, ks[0]) + SumGroups(ks[1..], rs, key)
  }

  lemma {:induction false} SumGroupsOfNoRecords<K>(ks: seq<K>, key: CourseRecord -> K)
    ensures SumGroups(ks, [], key) == 0.0
  {
    if ks != [] {
      SumGroupsOfNoRecords(ks[1..], key);
    }
  }

  /** Appending a record adds its hours to exactly one of distinct groups, if its key is listed. */
  lemma {:induction false} SumGroupsAppend<K>(ks: seq<K>, rs: seq<CourseRecord>, r: CourseRecord, key: CourseRecord -> K)
    requires Distinct(ks)
    ensures SumGroups(ks, rs + [r], key) == SumGroups(ks, rs, key) + (if key(r) in ks then r.hours else 0.0)
  {
    if ks != [] {
      assert (rs + [r])[..|rs + [r]| - 1] == rs;
      SumGroupsAppend(ks[1..], rs, r, key);
      assert key(r) in ks <==> key(r) == ks[0] || key(r) in ks[1..];
      assert key(r) == ks[0] ==> key(r) !in ks[1..];
    }
  }

  /**
   * Grouping loses and duplicates no hours: when the keys are distinct and
   * every record's key is among them, the group sums add up to the total.
   */
  lemma {:induction false} GroupsPartitionTotal<K>(ks: seq<K>, rs: seq<CourseRecord>, key: CourseRecord -> K)
    requires Distinct(ks)
    requires forall i :: 0 <= i < |rs| ==> key(rs[i]) in ks
    ensures SumGroups(ks, rs, key) == SumHours(rs)
  {
    if rs == [] {
      SumGroupsOfNoRecords(ks, key);
    } else {
      var p, r := rs[..|rs| - 1], rs[|rs| - 1];
      assert rs == p + [r];
      GroupsPartitionTotal(ks, p, key);
      SumGroupsAppend(ks, p, r, key);
    }
  }

  /**
   * With positive hours, a group has positive hours exactly when some record
   * has its key.
   */
  lemma {:induction false} GroupPositiveIffPresent<K>(rs: seq<CourseRecord>, key: CourseRecord -> K, k: K)
    requires forall i :: 0 <= i < |rs| ==> rs[i].hours > 0.0
    ensures GroupSum(rs, key, k) >= 0.0
    ensures GroupSum(rs, key, k) > 0.0 <==> exists i :: 0 <= i < |rs| && key(rs[i]) == k
  {
    if rs != [] {
      var p := rs[..|rs| - 1];
      GroupPositiveIffPresent(p, key, k);
      if exists i :: 0 <= i < |p| && key(p[i]) == k {
        var i :| 0 <= i < |p| && key(p[i]) == k;
        assert rs[i] == p[i];
      }
      if exists i :: 0 <= i < |rs| && key(rs[i]) == k {
        var i :| 0 <= i < |rs| && key(rs[i]) == k;
        if i < |p| {
          assert p[i] == rs[i];
        }
      }
    }
  }

  /** A key no record has collects no hours. */
  lemma {:induction false} GroupSumOfAbsentKey<K>(rs: seq<CourseRecord>, key: CourseRecord -> K, k: K)
    requires forall i :: 0 <= i < |rs| ==> key(rs[i]) != k
    ensures GroupSum(rs, key, k) == 0.0
  {
    if rs != [] {
      var p := rs[..|rs| - 1];
      assert forall i :: 0 <= i < |p| ==> p[i] == rs[i];
      GroupSumOfAbsentKey(p, key, k);
    }
  }
}
