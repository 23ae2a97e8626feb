/**
 * The dashboard aggregation `getAggregatedStats`
 * (services/billingService.ts:93-107): one pass over the records that
 * sums hours per subject and per teacher name, returned as lists of
 * name/value pairs.
 *
 * A JavaScript object lists its keys that do not look like array indices
 * in the order they were first set, so each list follows the order in which
 * its names first occur in the records; the method keeps that order in a
 * sequence beside each map.
 */
module AggregatedStats {
  import opened BillingTypes
  import opened HourSums
  import BillingService

  datatype NameValue = NameValue(name: string, value: real)

  /** The key under which a subject is stored: its identifier as text. */
  function SubjectName(s: Subject): string {
    match s
    case Chinese => "Chinese"
    case Math => "Math"
    case English => "English"
    case Physics => "Physics"
    case Chemistry => "Chemistry"
  }

  function SubjectKey(r: CourseRecord): string {
    SubjectName(r.subject)
  }

  function TeacherKey(r: CourseRecord): string {
    r.teacherName
  }

  /** The distinct keys of the records, in the order they first occur. */
  function KeysInOrder(rs: seq<CourseRecord>, key: CourseRecord -> string): seq<string> {
    if rs == [] then []
    else
      var ks := KeysInOrder(rs[..|rs| - 1], key);
      var k := key(rs[|rs| - 1]);
      if k in ks then ks else ks + [k]
  }

  /** The keys in order are distinct and are exactly the keys the records have. */
  lemma {:induction false} KeysInOrderAreTheKeys(rs: seq<CourseRecord>, key: CourseRecord -> string)
    ensures Distinct(KeysInOrder(rs, key))
    ensures forall k :: k in KeysInOrder(rs, key) <==> exists i :: 0 <= i < |rs| && key(rs[i]) == k
  {
    if rs != [] {
      var p := rs[..|rs| - 1];
      KeysInOrderAreTheKeys(p, key);
      assert forall i :: 0 <= i < |p| ==> rs[i] == p[i];
    }
  }

  /** One name/value pair per key of `ks`: the key and its records' hours. */
  function Entries(ks: seq<string>, rs: seq<CourseRecord>, key: CourseRecord -> string): seq<NameValue> {
    seq(|ks|, i requires 0 <= i < |ks| => NameValue(ks[i], GroupSum(rs, key, ks[i])))
  }

  /** What the aggregation returns for one grouping. */
  function Grouped(rs: seq<CourseRecord>, key: CourseRecord -> string): seq<NameValue> {
    Entries(KeysInOrder(rs, key), rs, key)
  }

  function SumValues(es: seq<NameValue>): real {
    if es == [] then 0.0 else es[0].value + SumValues(es[1..])
  }

  lemma {:induction false} EntriesSum(ks: seq<string>, rs: seq<CourseRecord>, key: CourseRecord -> string)
    ensures SumValues(Entries(ks, rs, key)) == SumGroups(ks, rs, key)
  {
    if ks != [] {
      EntriesSum(ks[1..], rs, key);
      assert Entries(ks, rs, key)[1..] == Entries(ks[1..], rs, key);
    }
  }

  /** The names a grouping lists. */
  ghost function NamesOf(g: seq<NameValue>): set<string> {
    set i | 0 <= i < |g| :: g[i].name
  }

  /**
   * Each grouping lists every name once, exactly the names that occur in the
   * records, each with the hours of its records.
   */
  lemma GroupedListsEachNameOnce(rs: seq<CourseRecord>, key: CourseRecord -> string)
    ensures var g := Grouped(rs, key);
      && (forall i, j :: 0 <= i < j < |g| ==> g[i].name != g[j].name)
      && (forall i :: 0 <= i < |g| ==> g[i].value == GroupSum(rs, key, g[i].name))
      && (forall n :: n in NamesOf(g) <==> exists i :: 0 <= i < |rs| && key(rs[i]) == n)
  {
    var ks := KeysInOrder(rs, key);
    var g := Grouped(rs, key);
    KeysInOrderAreTheKeys(rs, key);
    assert forall i :: 0 <= i < |g| ==> g[i].name == ks[i];
    forall n ensures n in NamesOf(g) <==> n in ks {
      if n in ks {
        var i :| 0 <= i < |ks| && ks[i] == n;
        assert g[i].name == n;
      }
    }
  }

  /** The values of each grouping add up to the total hours of the records. */
  lemma GroupedValuesAddUpToTotal(rs: seq<CourseRecord>, key: CourseRecord -> string)
    ensures SumValues(Grouped(rs, key)) == SumHours(rs)
  {
    var ks := KeysInOrder(rs, key);
    KeysInOrderAreTheKeys(rs, key);
    EntriesSum(ks, rs, key);
    GroupsPartitionTotal(ks, rs, key);
  }

  /** The chart's hours for a subject agree with the bill's hours for that subject. */
  lemma {:induction false} SubjectDistributionAgreesWithBill(rs: seq<CourseRecord>, s: Subject)
    ensures GroupSum(rs, SubjectKey, SubjectName(s)) == BillingService.SubjectHours(rs, s)
  {
    if rs != [] {
      SubjectDistributionAgreesWithBill(rs[..|rs| - 1], s);
      var t := rs[|rs| - 1].subject;
      assert SubjectName(t) == SubjectName(s) <==> t == s;
    }
  }

  /**
   * `order` and `totals` hold the running grouping of `rs`: the keys seen so
   * far in first-occurrence order, each mapped to the hours of its records.
   */
  ghost predicate Tallies(order: seq<string>, totals: map<string, real>, rs: seq<CourseRecord>, key: CourseRecord -> string) {
    && order == KeysInOrder(rs, key)
    && (forall k :: k in totals <==> k in order)
    && (forall k :: k in totals ==> totals[k] == GroupSum(rs, key, k))
  }

  /** `totals[k] = (totals[k] || 0) + r.hours`, with a new key listed last. */
  lemma TallyStep(order: seq<string>, totals: map<string, real>, rs: seq<CourseRecord>, r: CourseRecord, key: CourseRecord -> string)
    requires Tallies(order, totals, rs, key)
    ensures var k := key(r);
      Tallies(if k in totals then order else order + [k],
              totals[k := (if k in totals then totals[k] else 0.0) + r.hours],
              rs + [r], key)
  {
    var k := key(r);
    assert (rs + [r])[..|rs + [r]| - 1] == rs;
    if k !in totals {
      KeysInOrderAreTheKeys(rs, key);
      GroupSumOfAbsentKey(rs, key, k);
    }
  }

  /** `Object.entries(totals).map(...)`: one pair per key, in key order. */
  function EntriesOf(order: seq<string>, totals: map<string, real>): seq<NameValue>
    requires forall k :: k in order ==> k in totals
  {
    seq(|order|, j requires 0 <= j < |order| => NameValue(order[j], totals[order[j]]))
  }

  /** Hours per subject and per teacher name, one pass over the records. */
  method GetAggregatedStats(records: seq<CourseRecord>) returns (subjectDistribution: seq<NameValue>, teacherLoad: seq<NameValue>)
    ensures subjectDistribution == Grouped(records, SubjectKey)
    ensures teacherLoad == Grouped(records, TeacherKey)
  {
    var subjectTotals: map<string, real> := map[];
    var subjectOrder: seq<string> := [];
    var teacherTotals: map<string, real> := map[];
    var teacherOrder: seq<string> := [];

    for i := 0 to |records|
      invariant Tallies(subjectOrder, subjectTotals, records[..i], SubjectKey)
      invariant Tallies(teacherOrder, teacherTotals, records[..i], TeacherKey)
    {
      var r := records[i];
      assert records[..i + 1] == records[..i] + [r];

      var s := SubjectName(r.subject);
      assert s == SubjectKey(r);
      TallyStep(subjectOrder, subjectTotals, records[..i], r, SubjectKey);
      if s !in subjectTotals {
        subjectOrder := subjectOrder + [s];
      }
      subjectTotals := subjectTotals[s := (if s in subjectTotals then subjectTotals[s] else 0.0) + r.hours];

      var t := r.teacherName;
      assert t == TeacherKey(r);
      TallyStep(teacherOrder, teacherTotals, records[..i], r, TeacherKey);
      if t !in teacherTotals {
        teacherOrder := teacherOrder + [t];
      }
      teacherTotals := teacherTotals[t := (if t in teacherTotals then teacherTotals[t] else 0.0) + r.hours];
    }
    assert records[..|records|] == records;

    subjectDistribution := EntriesOf(subjectOrder, subjectTotals);
    teacherLoad := EntriesOf(teacherOrder, teacherTotals);
  }
}
