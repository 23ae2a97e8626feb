/**
 * The billing calculator, `calculateStudentBill`
 * (services/billingService.ts:6-91): one pass over a student's course
 * records, then the multi-subject tier, the volume discount and rounding.
 *
 * The specification functions below say what each part of the bill is;
 * the method computes the bill step by step as the source does and is
 * proved to agree with them.
 */
module BillingService {
  import opened BillingTypes
  import opened HourSums
  import opened TierSelection
  import opened Rounding

  function SubjectOf(r: CourseRecord): Subject {
    r.subject
  }

  /** The hours billed in subject `s`. */
  function SubjectHours(rs: seq<CourseRecord>, s: Subject): real {
    GroupSum(rs, SubjectOf, s)
  }

  /** The per-subject hour table of the records. */
  function SubjectCountsOf(rs: seq<CourseRecord>): map<Subject, real> {
    map s | s in AllSubjects :: SubjectHours(rs, s)
  }

  // ---------------------------------------------------------------------
  // Step 1: hours and the cost before discounts
  // ---------------------------------------------------------------------

  /** The hourly rate of subject `s` for this student: the override if any, else the base price. */
  function Rate(student: Student, rules: PricingRule, s: Subject): real {
    PriceTableIsTotal(rules.basePrice, s);
    if s in student.priceOverrides then student.priceOverrides[s] else rules.basePrice[s]
  }

  /** The cost before discounts: each record's hours at its subject's rate for this student. */
  function OriginalCost(student: Student, rules: PricingRule, rs: seq<CourseRecord>): real {
    if rs == [] then 0.0
    else
      var r := rs[|rs| - 1];
      OriginalCost(student, rules, rs[..|rs| - 1]) + Rate(student, rules, r.subject) * r.hours
  }

  /** The cost of the records at base prices alone. */
  function BaseCost(rules: PricingRule, rs: seq<CourseRecord>): real {
    if rs == [] then 0.0
    else
      var r := rs[|rs| - 1];
      PriceTableIsTotal(rules.basePrice, r.subject);
      BaseCost(rules, rs[..|rs| - 1]) + r.hours * rules.basePrice[r.subject]
  }

  /** The cost subject by subject: each subject's hours at its rate, summed over `ks`. */
  function CostBySubject(ks: seq<Subject>, student: Student, rules: PricingRule, rs: seq<CourseRecord>): real {
    if ks == [] then 0.0
    else Rate(student, rules, ks[0]) * SubjectHours(rs, ks[0]) + CostBySubject(ks[1..], student, rules, rs)
  }

  /** A student without overrides pays base prices. */
  lemma {:induction false} NoOverridesMeansBasePrices(student: Student, rules: PricingRule, rs: seq<CourseRecord>)
    requires student.priceOverrides == map[]
    ensures OriginalCost(student, rules, rs) == BaseCost(rules, rs)
  {
    if rs != [] {
      NoOverridesMeansBasePrices(student, rules, rs[..|rs| - 1]);
    }
  }

  lemma {:induction false} CostBySubjectAppend(ks: seq<Subject>, student: Student, rules: PricingRule, rs: seq<CourseRecord>, r: CourseRecord)
    requires Distinct(ks)
    ensures CostBySubject(ks, student, rules, rs + [r])
         == CostBySubject(ks, student, rules, rs)
            + (if r.subject in ks then Rate(student, rules, r.subject) * r.hours else 0.0)
  {
    if ks != [] {
      var k := ks[0];
      assert (rs + [r])[..|rs + [r]| - 1] == rs;
      assert SubjectHours(rs + [r], k) == SubjectHours(rs, k) + (if r.subject == k then r.hours else 0.0);
      CostBySubjectAppend(ks[1..], student, rules, rs, r);
      assert r.subject in ks <==> r.subject == k || r.subject in ks[1..];
      assert r.subject == k ==> r.subject !in ks[1..];
      var rate := Rate(student, rules, k);
      assert rate * (SubjectHours(rs, k) + r.hours) == rate * SubjectHours(rs, k) + rate * r.hours;
    }
  }

  lemma {:induction false} CostBySubjectOfNoRecords(ks: seq<Subject>, student: Student, rules: PricingRule)
    ensures CostBySubject(ks, student, rules, []) == 0.0
  {
    if ks != [] {
      CostBySubjectOfNoRecords(ks[1..], student, rules);
    }
  }

  /**
   * Record by record and subject by subject agree: the cost before
   * discounts is the sum over the five subjects of hours times rate.
   */
  lemma {:induction false} OriginalCostBySubject(student: Student, rules: PricingRule, rs: seq<CourseRecord>)
    ensures OriginalCost(student, rules, rs) == CostBySubject(AllSubjects, student, rules, rs)
  {
    AllSubjectsListsEverySubjectOnce();
    if rs == [] {
      CostBySubjectOfNoRecords(AllSubjects, student, rules);
    } else {
      var p, r := rs[..|rs| - 1], rs[|rs| - 1];
      assert rs == p + [r];
      OriginalCostBySubject(student, rules, p);
      CostBySubjectAppend(AllSubjects, student, rules, p, r);
    }
  }

  /** Total hours are the sum of the per-subject hours over the five subjects. */
  lemma TotalHoursIsSumOfSubjectCounts(rs: seq<CourseRecord>)
    ensures SumHours(rs) == SumGroups(AllSubjects, rs, SubjectOf)
  {
    AllSubjectsListsEverySubjectOnce();
    GroupsPartitionTotal(AllSubjects, rs, SubjectOf);
  }

  // ---------------------------------------------------------------------
  // Step 1: the per-subject invoice details
  // ---------------------------------------------------------------------

  /** The detail lines of subject `s`, one per record of that subject, in record order. */
  function DetailsOf(rs: seq<CourseRecord>, s: Subject): seq<DetailEntry> {
    if rs == [] then []
    else
      var r := rs[|rs| - 1];
      DetailsOf(rs[..|rs| - 1], s) + (if r.subject == s then [DetailEntry(r.date, r.hours)] else [])
  }

  /** The positions of the records of subject `s`, in increasing order. */
  function IndicesOf(rs: seq<CourseRecord>, s: Subject): (ix: seq<nat>)
    ensures forall k :: 0 <= k < |ix| ==> ix[k] < |rs| && rs[ix[k]].subject == s
    ensures forall k, l :: 0 <= k < l < |ix| ==> ix[k] < ix[l]
    ensures forall i :: 0 <= i < |rs| && rs[i].subject == s ==> i in ix
  {
    if rs == [] then []
    else
      var p := rs[..|rs| - 1];
      var ixp := IndicesOf(p, s);
      assert forall k :: 0 <= k < |ixp| ==> rs[ixp[k]] == p[ixp[k]];
      assert forall i :: 0 <= i < |p| ==> rs[i] == p[i];
      ixp + (if rs[|rs| - 1].subject == s then [|rs| - 1] else [])
  }

  /**
   * The details of subject `s` hold exactly one entry per record of that
   * subject, in input order: entry k shows the date and hours of the k-th
   * such record.
   */
  lemma {:induction false} DetailsFollowRecords(rs: seq<CourseRecord>, s: Subject)
    ensures |DetailsOf(rs, s)| == |IndicesOf(rs, s)|
    ensures forall k :: 0 <= k < |DetailsOf(rs, s)| ==>
      DetailsOf(rs, s)[k] == DetailEntry(rs[IndicesOf(rs, s)[k]].date, rs[IndicesOf(rs, s)[k]].hours)
  {
    if rs != [] {
      var p := rs[..|rs| - 1];
      DetailsFollowRecords(p, s);
      var ixp := IndicesOf(p, s);
      assert forall k :: 0 <= k < |ixp| ==> rs[ixp[k]] == p[ixp[k]];
    }
  }

  function SumEntryHours(es: seq<DetailEntry>): real {
    if es == [] then 0.0 else SumEntryHours(es[..|es| - 1]) + es[|es| - 1].hours
  }

  /** The hours shown in a subject's detail lines add up to that subject's hour count. */
  lemma {:induction false} DetailHoursAddUp(rs: seq<CourseRecord>, s: Subject)
    ensures SumEntryHours(DetailsOf(rs, s)) == SubjectHours(rs, s)
  {
    if rs != [] {
      var p, r := rs[..|rs| - 1], rs[|rs| - 1];
      DetailHoursAddUp(p, s);
      var dp := DetailsOf(p, s);
      if r.subject == s {
        var d := dp + [DetailEntry(r.date, r.hours)];
        assert d[..|d| - 1] == dp;
      } else {
        assert DetailsOf(rs, s) == dp;
      }
    }
  }

  // ---------------------------------------------------------------------
  // Step 2: how many subjects are billed
  // ---------------------------------------------------------------------

  /** How many of the subjects `ks` have a positive entry in `counts`. */
  function CountPositive(ks: seq<Subject>, counts: map<Subject, real>): nat
    requires forall k :: k in ks ==> k in counts
  {
    if ks == [] then 0
    else (if counts[ks[0]] > 0.0 then 1 else 0) + CountPositive(ks[1..], counts)
  }

  /** The number of subjects with positive hours. */
  function UniqueSubjects(rs: seq<CourseRecord>): nat {
    CountPositive(AllSubjects, SubjectCountsOf(rs))
  }

  /** The subjects some record is in. */
  ghost function SubjectsIn(rs: seq<CourseRecord>): set<Subject> {
    set i | 0 <= i < |rs| :: rs[i].subject
  }

  lemma {:induction false} CountPositiveIsCardinality(ks: seq<Subject>, counts: map<Subject, real>)
    requires Distinct(ks)
    requires forall k :: k in ks ==> k in counts
    ensures CountPositive(ks, counts) == |set k | k in ks && counts[k] > 0.0|
  {
    if ks != [] {
      var rest := ks[1..];
      CountPositiveIsCardinality(rest, counts);
      var all := set k | k in ks && counts[k] > 0.0;
      var tail := set k | k in rest && counts[k] > 0.0;
      assert ks[0] !in rest;
      if counts[ks[0]] > 0.0 {
        assert all == tail + {ks[0]};
      } else {
        assert all == tail;
      }
    }
  }

  /**
   * With positive hours on every record (the import checks this), the
   * subject count is the number of distinct subjects among the records.
   */
  lemma UniqueSubjectsAreDistinctSubjects(rs: seq<CourseRecord>)
    requires forall i :: 0 <= i < |rs| ==> rs[i].hours > 0.0
    ensures UniqueSubjects(rs) == |SubjectsIn(rs)|
  {
    AllSubjectsListsEverySubjectOnce();
    var counts := SubjectCountsOf(rs);
    CountPositiveIsCardinality(AllSubjects, counts);
    forall s: Subject ensures s in AllSubjects && counts[s] > 0.0 <==> s in SubjectsIn(rs) {
      GroupPositiveIffPresent(rs, SubjectOf, s);
    }
    assert (set k | k in AllSubjects && counts[k] > 0.0) == SubjectsIn(rs);
  }

  // ---------------------------------------------------------------------
  // Steps 3 and 4: the discounts
  // ---------------------------------------------------------------------

  /** A running cost together with the descriptions of the discounts applied so far. */
  datatype Priced = Priced(cost: real, notes: seq<AppliedDiscount>)

  /** Step 3: the matched multi-subject tier, if any, applied to the cost before discounts. */
  function ApplyMultiSubject(cost: real, totalHours: real, matched: Option<MultiSubjectRule>): Priced {
    match matched
    case None => Priced(cost, [])
    case Some(Reduction(threshold, amount)) =>
      var discountAmount := totalHours * amount;
      Priced(cost - discountAmount, [MultiSubjectReduction(threshold, amount, discountAmount)])
    case Some(Fixed(threshold, amount)) =>
      var fixedTotal := totalHours * amount;
      if fixedTotal < cost then Priced(fixedTotal, [MultiSubjectFixed(threshold, amount)])
      else Priced(cost, [])
  }

  /** Step 4: the volume discount, applied on top of step 3 when the hours exceed the threshold. */
  function ApplyVolume(p: Priced, totalHours: real, d: DiscountRules): Priced {
    if totalHours > d.hoursThreshold then
      Priced(p.cost * d.hoursDiscount, p.notes + [VolumeDiscount(d.hoursThreshold, 100.0 * (1.0 - d.hoursDiscount))])
    else p
  }

  /** The cost after both discounts, before rounding, with the applied discounts in order. */
  function Discounted(originalCost: real, totalHours: real, uniqueSubjects: nat, rules: PricingRule): Priced {
    var matched := MatchTier(rules.discounts.multiSubject, uniqueSubjects);
    ApplyVolume(ApplyMultiSubject(originalCost, totalHours, matched), totalHours, rules.discounts)
  }

  /** A reduction tier lowers the cost by exactly hours times the per-hour amount and adds one description. */
  lemma ReductionTierRebate(cost: real, totalHours: real, threshold: int, amount: real)
    ensures ApplyMultiSubject(cost, totalHours, Some(Reduction(threshold, amount)))
         == Priced(cost - totalHours * amount, [MultiSubjectReduction(threshold, amount, totalHours * amount)])
  {
  }

  /**
   * A fixed tier is a cap: it replaces the cost by hours times the fixed
   * price only when that is strictly cheaper, and adds a description only
   * then; it never raises the cost.
   */
  lemma FixedTierIsACap(cost: real, totalHours: real, threshold: int, amount: real)
    ensures var p := ApplyMultiSubject(cost, totalHours, Some(Fixed(threshold, amount)));
      && p.cost <= cost
      && (p.notes != [] <==> totalHours * amount < cost)
      && (p.notes != [] ==> p.cost == totalHours * amount && p.notes == [MultiSubjectFixed(threshold, amount)])
      && (p.notes == [] ==> p.cost == cost)
  {
  }

  /**
   * The volume discount applies exactly when the hours strictly exceed the
   * threshold; it then multiplies the running cost and appends its description.
   */
  lemma VolumeDiscountIsStrict(p: Priced, totalHours: real, d: DiscountRules)
    ensures totalHours <= d.hoursThreshold ==> ApplyVolume(p, totalHours, d) == p
    ensures totalHours > d.hoursThreshold ==>
      && ApplyVolume(p, totalHours, d).cost == p.cost * d.hoursDiscount
      && ApplyVolume(p, totalHours, d).notes == p.notes + [VolumeDiscount(d.hoursThreshold, 100.0 * (1.0 - d.hoursDiscount))]
  {
  }

  /**
   * At most two discounts are listed: the multi-subject one, present exactly
   * when a tier matched and took effect, comes before the volume one,
   * present exactly when the hours exceed the threshold.
   */
  lemma DiscountsAreListedInOrder(originalCost: real, totalHours: real, uniqueSubjects: nat, rules: PricingRule)
    ensures var notes := Discounted(originalCost, totalHours, uniqueSubjects, rules).notes;
      && |notes| <= 2
      && (totalHours > rules.discounts.hoursThreshold <==> notes != [] && notes[|notes| - 1].VolumeDiscount?)
      && (forall k :: 0 <= k < |notes| - 1 ==> !notes[k].VolumeDiscount?)
      && (MatchTier(rules.discounts.multiSubject, uniqueSubjects).None? ==> forall k :: 0 <= k < |notes| ==> notes[k].VolumeDiscount?)
  {
  }

  /**
   * The discounts compound: with a reduction tier matched and the volume
   * threshold passed, the result is (cost - rebate) * multiplier, the
   * volume discount taken after the rebate.
   */
  lemma ReductionThenVolumeCompound(originalCost: real, totalHours: real, uniqueSubjects: nat, rules: PricingRule, threshold: int, amount: real)
    requires MatchTier(rules.discounts.multiSubject, uniqueSubjects) == Some(Reduction(threshold, amount))
    requires totalHours > rules.discounts.hoursThreshold
    ensures Discounted(originalCost, totalHours, uniqueSubjects, rules).cost
         == (originalCost - totalHours * amount) * rules.discounts.hoursDiscount
  {
  }

  /**
   * The baseline: a student without overrides, at or below the hour
   * threshold and billed in fewer subjects than any tier asks for, pays the
   * base prices with no discount listed; when that cost is in whole cents
   * the final cost equals it.
   */
  lemma NoDiscountBaseline(student: Student, records: seq<CourseRecord>, rules: PricingRule)
    requires student.priceOverrides == map[]
    requires SumHours(records) <= rules.discounts.hoursThreshold
    requires forall i :: 0 <= i < |rules.discounts.multiSubject| ==> rules.discounts.multiSubject[i].threshold > UniqueSubjects(records)
    ensures var d := Discounted(OriginalCost(student, rules, records), SumHours(records), UniqueSubjects(records), rules);
      && d == Priced(BaseCost(rules, records), [])
      && (IsCents(d.cost) ==> RoundToCents(d.cost) == d.cost)
  {
    NoOverridesMeansBasePrices(student, rules, records);
    MatchTierIsHighestEligible(rules.discounts.multiSubject, UniqueSubjects(records));
    var cost := BaseCost(rules, records);
    if IsCents(cost) {
      RoundToCentsKeepsCents(cost);
    }
  }

  // ---------------------------------------------------------------------
  // The calculator
  // ---------------------------------------------------------------------

  /**
   * Steps 2 to 4 of the calculator: the multi-subject tier chosen for the
   * subject count, then the volume discount, each recorded as it is applied.
   */
  method ApplyDiscounts(originalCost: real, totalHours: real, uniqueSubjects: nat, rules: PricingRule)
    returns (finalCost: real, appliedDiscounts: seq<AppliedDiscount>)
    ensures Priced(finalCost, appliedDiscounts) == Discounted(originalCost, totalHours, uniqueSubjects, rules)
  {
    finalCost := originalCost;
    appliedDiscounts := [];

    var sortedRules := SortByThresholdDesc(rules.discounts.multiSubject);
    var matchedRule := FindFirstEligible(sortedRules, uniqueSubjects);

    match matchedRule {
      case None =>
      case Some(Reduction(threshold, amount)) =>
        var discountAmount := totalHours * amount;
        finalCost := finalCost - discountAmount;
        appliedDiscounts := appliedDiscounts + [MultiSubjectReduction(threshold, amount, discountAmount)];
      case Some(Fixed(threshold, amount)) =>
        var fixedTotal := totalHours * amount;
        if fixedTotal < finalCost {
          finalCost := fixedTotal;
          appliedDiscounts := appliedDiscounts + [MultiSubjectFixed(threshold, amount)];
        }
    }
    assert Priced(finalCost, appliedDiscounts) == ApplyMultiSubject(originalCost, totalHours, matchedRule);

    if totalHours > rules.discounts.hoursThreshold {
      finalCost := finalCost * rules.discounts.hoursDiscount;
      appliedDiscounts := appliedDiscounts + [VolumeDiscount(rules.discounts.hoursThreshold, 100.0 * (1.0 - rules.discounts.hoursDiscount))];
    }
  }

  /**
   * The accumulators of the calculator's pass hold the bill of the records
   * `rs` seen so far.
   */
  ghost predicate BillSoFar(student: Student, rules: PricingRule, rs: seq<CourseRecord>,
                            totalHours: real, subjectCounts: map<Subject, real>,
                            subjectDetails: map<Subject, seq<DetailEntry>>, originalCost: real) {
    && totalHours == SumHours(rs)
    && (forall s :: s in subjectCounts && subjectCounts[s] == SubjectHours(rs, s))
    && (forall s :: s in subjectDetails && subjectDetails[s] == DetailsOf(rs, s))
    && originalCost == OriginalCost(student, rules, rs)
  }

  /** One record's updates of the accumulators keep them the bill of the records seen. */
  lemma BillStep(student: Student, rules: PricingRule, rs: seq<CourseRecord>, r: CourseRecord,
                 totalHours: real, subjectCounts: map<Subject, real>,
                 subjectDetails: map<Subject, seq<DetailEntry>>, originalCost: real)
    requires BillSoFar(student, rules, rs, totalHours, subjectCounts, subjectDetails, originalCost)
    ensures BillSoFar(student, rules, rs + [r], totalHours + r.hours,
                      subjectCounts[r.subject := subjectCounts[r.subject] + r.hours],
                      subjectDetails[r.subject := subjectDetails[r.subject] + [DetailEntry(r.date, r.hours)]],
                      originalCost + Rate(student, rules, r.subject) * r.hours)
  {
    assert (rs + [r])[..|rs + [r]| - 1] == rs;
  }

  /**
   * The bill of one student for the given records under the given rules.
   * The records are not filtered: they are billed as passed in.
   */
  method CalculateStudentBill(student: Student, records: seq<CourseRecord>, rules: PricingRule) returns (bill: BillingResult)
    ensures bill.student == student && bill.records == records
    ensures bill.totalHours == SumHours(records)
    ensures forall s :: s in bill.subjectCounts && bill.subjectCounts[s] == SubjectHours(records, s)
    ensures forall s :: s in bill.subjectDetails && bill.subjectDetails[s] == DetailsOf(records, s)
    ensures bill.originalCost == OriginalCost(student, rules, records)
    ensures var d := Discounted(OriginalCost(student, rules, records), SumHours(records), UniqueSubjects(records), rules);
      bill.appliedDiscounts == d.notes && bill.finalCost == RoundToCents(d.cost)
  {
    var originalCost := 0.0;
    var totalHours := 0.0;
    var subjectCounts := map[Chinese := 0.0, Math := 0.0, English := 0.0, Physics := 0.0, Chemistry := 0.0];
    var subjectDetails: map<Subject, seq<DetailEntry>> := map[Chinese := [], Math := [], English := [], Physics := [], Chemistry := []];
    AllSubjectsListsEverySubjectOnce();
    forall s ensures s in subjectCounts && s in subjectDetails {
      assert s in AllSubjects;
    }
    assert records[..0] == [];

    var i := 0;
    while i < |records|
      invariant 0 <= i <= |records|
      invariant BillSoFar(student, rules, records[..i], totalHours, subjectCounts, subjectDetails, originalCost)
    {
      var record := records[i];
      assert records[..i + 1] == records[..i] + [record];
      BillStep(student, rules, records[..i], record, totalHours, subjectCounts, subjectDetails, originalCost);
      totalHours := totalHours + record.hours;
      var subject := record.subject;
      subjectCounts := subjectCounts[subject := subjectCounts[subject] + record.hours];
      subjectDetails := subjectDetails[subject := subjectDetails[subject] + [DetailEntry(record.date, record.hours)]];
      PriceTableIsTotal(rules.basePrice, subject);
      var finalRate := if subject in student.priceOverrides then student.priceOverrides[subject] else rules.basePrice[subject];
      assert finalRate == Rate(student, rules, subject);
      originalCost := originalCost + finalRate * record.hours;
      i := i + 1;
    }
    assert records[..|records|] == records;

    assert subjectCounts == SubjectCountsOf(records);
    var uniqueSubjects := CountPositive(AllSubjects, subjectCounts);
    var finalCost, appliedDiscounts := ApplyDiscounts(originalCost, totalHours, uniqueSubjects, rules);
    bill := BillingResult(student, totalHours, subjectCounts, originalCost, appliedDiscounts,
                          RoundToCents(finalCost), records, subjectDetails);
  }
}
