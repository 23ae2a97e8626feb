/**
 * The calculator on the school's initial configuration (constants.ts:17-33)
 * and on small hand-made cases, worked out from the specification functions
 * that `CalculateStudentBill` is proved to compute.
 */
module BillingScenarios {
  import opened BillingTypes
  import opened HourSums
  import opened TierSelection
  import opened Rounding
  import opened BillingService

  /** The pricing the application starts with: 60 an hour, tiers at 2 and 3 subjects. */
  const InitialPricing := PricingRule(
    map[Chinese := 60.0, Math := 60.0, English := 60.0, Physics := 60.0, Chemistry := 60.0],
    DiscountRules(20.0, 0.9, [Reduction(2, 10.0), Fixed(3, 50.0)]))

  function Lesson(subject: Subject, date: string, hours: real): CourseRecord {
    CourseRecord("r", "s1", "student", subject, "t1", "teacher", date, hours, RecordApproved)
  }

  function PlainStudent(overrides: map<Subject, real>): Student {
    Student("s1", "student", "000", None, overrides, None, None, None)
  }

  /**
   * The highest reachable tier is matched whatever the configured order:
   * three subjects get the fixed tier, two the reduction tier, one none.
   */
  lemma InitialTiersMatchHighest()
    ensures MatchTier(InitialPricing.discounts.multiSubject, 3) == Some(Fixed(3, 50.0))
    ensures MatchTier([Fixed(3, 50.0), Reduction(2, 10.0)], 3) == Some(Fixed(3, 50.0))
    ensures MatchTier(InitialPricing.discounts.multiSubject, 2) == Some(Reduction(2, 10.0))
    ensures MatchTier(InitialPricing.discounts.multiSubject, 1) == None
  {
    MatchTierIsFirstHighestEligible(InitialPricing.discounts.multiSubject, 3);
    MatchTierIsFirstHighestEligible([Fixed(3, 50.0), Reduction(2, 10.0)], 3);
    MatchTierIsFirstHighestEligible(InitialPricing.discounts.multiSubject, 2);
    MatchTierIsFirstHighestEligible(InitialPricing.discounts.multiSubject, 1);
  }

  /** A Math override of 50 beats the base price of 60: two Math hours cost 100. */
  lemma OverrideBeatsBasePrice()
    ensures OriginalCost(PlainStudent(map[Math := 50.0]), InitialPricing, [Lesson(Math, "2023-10-20", 2.0)]) == 100.0
  {
    var rs := [Lesson(Math, "2023-10-20", 2.0)];
    assert rs[..0] == [];
  }

  /**
   * Math 10 hours and English 12 hours at 60: 22 hours in two subjects,
   * 1320 before discounts.
   */
  lemma TwoSubjectRecordsAdd()
    ensures var rs := [Lesson(Math, "2023-10-01", 10.0), Lesson(English, "2023-10-02", 12.0)];
      && SumHours(rs) == 22.0
      && OriginalCost(PlainStudent(map[]), InitialPricing, rs) == 1320.0
      && UniqueSubjects(rs) == 2
  {
    var rs := [Lesson(Math, "2023-10-01", 10.0), Lesson(English, "2023-10-02", 12.0)];
    assert rs[..1] == [rs[0]] && [rs[0]][..0] == [];
    forall s ensures SubjectHours(rs, s) == (if s == Math then 10.0 else if s == English then 12.0 else 0.0) {
      assert GroupSum([rs[0]][..0], SubjectOf, s) == 0.0;
      assert SubjectOf(rs[0]) == Math && SubjectOf(rs[1]) == English;
      assert SubjectHours([rs[0]], s) == (if s == Math then 10.0 else 0.0);
    }
    AllSubjectsListsEverySubjectOnce();
    assert SubjectCountsOf(rs) == map[Chinese := 0.0, Math := 10.0, English := 12.0, Physics := 0.0, Chemistry := 0.0];
  }

  /**
   * Two subjects earn the reduction of 10 an hour (220 off 1320); 22 hours
   * pass the threshold of 20, so 10% comes off the rest: 990.
   */
  lemma TwoSubjectDiscounts()
    ensures var d := Discounted(1320.0, 22.0, 2, InitialPricing);
      && d.notes == [MultiSubjectReduction(2, 10.0, 220.0), VolumeDiscount(20.0, 10.0)]
      && RoundToCents(d.cost) == 990.0
  {
    InitialTiersMatchHighest();
    var p := ApplyMultiSubject(1320.0, 22.0, Some(Reduction(2, 10.0)));
    assert p == Priced(1100.0, [MultiSubjectReduction(2, 10.0, 220.0)]);
    var q := ApplyVolume(p, 22.0, InitialPricing.discounts);
    assert 100.0 * (1.0 - 0.9) == 10.0;
    assert q == Priced(990.0, [MultiSubjectReduction(2, 10.0, 220.0), VolumeDiscount(20.0, 10.0)]);
    RoundToCentsKeepsCents(990.0);
  }

  /**
   * Three subjects at an override of 40, one hour each: 3 hours in three
   * subjects, 120 before discounts.
   */
  lemma ThreeSubjectRecordsAdd()
    ensures var rs := [Lesson(Math, "2023-10-01", 1.0), Lesson(English, "2023-10-02", 1.0), Lesson(Physics, "2023-10-03", 1.0)];
      var student := PlainStudent(map[Math := 40.0, English := 40.0, Physics := 40.0]);
      && OriginalCost(student, InitialPricing, rs) == 120.0
      && UniqueSubjects(rs) == 3
  {
    var rs := [Lesson(Math, "2023-10-01", 1.0), Lesson(English, "2023-10-02", 1.0), Lesson(Physics, "2023-10-03", 1.0)];
    assert rs[..2] == [rs[0], rs[1]] && [rs[0], rs[1]][..1] == [rs[0]] && [rs[0]][..0] == [];
    forall s ensures SubjectHours(rs, s) == (if s == Math || s == English || s == Physics then 1.0 else 0.0) {
      assert GroupSum([rs[0]][..0], SubjectOf, s) == 0.0;
      assert SubjectOf(rs[0]) == Math && SubjectOf(rs[1]) == English && SubjectOf(rs[2]) == Physics;
      assert SubjectHours([rs[0]], s) == (if s == Math then 1.0 else 0.0);
      assert SubjectHours([rs[0], rs[1]], s) == (if s == Math || s == English then 1.0 else 0.0);
    }
    AllSubjectsListsEverySubjectOnce();
    assert SubjectCountsOf(rs) == map[Chinese := 0.0, Math := 1.0, English := 1.0, Physics := 1.0, Chemistry := 0.0];
    var student := PlainStudent(map[Math := 40.0, English := 40.0, Physics := 40.0]);
    assert OriginalCost(student, InitialPricing, [rs[0]]) == 40.0;
    assert OriginalCost(student, InitialPricing, [rs[0], rs[1]]) == 80.0;
  }

  /**
   * A fixed tier dearer than the running cost is not applied: the fixed 50
   * an hour would make 3 hours cost 150, more than 120, so the cost stays
   * 120 and no discount is listed.
   */
  lemma DearerFixedTierIsSkipped()
    ensures Discounted(120.0, 3.0, 3, InitialPricing) == Priced(120.0, [])
  {
    InitialTiersMatchHighest();
    assert ApplyMultiSubject(120.0, 3.0, Some(Fixed(3, 50.0))) == Priced(120.0, []);
  }
}
