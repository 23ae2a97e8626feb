/**
 * The plain data the billing calculator reads and returns (types.ts).
 * Money and hours are exact reals; the source's JavaScript numbers are
 * binary floating point, which this model does not reproduce.
 */
module BillingTypes {

  datatype Option<+T> = None | Some(value: T)

  /** The closed set of subjects the school teaches and bills. */
  datatype Subject = Chinese | Math | English | Physics | Chemistry

  /** The subjects in the order the calculator's per-subject tables list them. */
  const AllSubjects: seq<Subject> := [Chinese, Math, English, Physics, Chemistry]

  ghost predicate Distinct<T>(s: seq<T>) {
    forall i, j :: 0 <= i < j < |s| ==> s[i] != s[j]
  }

  /** Every subject appears in AllSubjects, exactly once. */
  lemma AllSubjectsListsEverySubjectOnce()
    ensures forall s: Subject :: s in AllSubjects
    ensures Distinct(AllSubjects)
  {
    forall s: Subject ensures s in AllSubjects {
      match s
      case Chinese =>
      case Math =>
      case English =>
      case Physics =>
      case Chemistry =>
    }
  }

  datatype PaymentStatus = PaymentPending | PaymentPaid | PaymentPartial

  /**
   * A student. An absent `priceOverrides` in the source reads like an empty
   * one (`student.priceOverrides?.[subject]` is then undefined), so it is a
   * plain map here: a subject without an entry is billed at the base price.
   */
  datatype Student = Student(
    id: string,
    name: string,
    phone: string,
    grade: Option<string>,
    priceOverrides: map<Subject, real>,
    paymentStatus: Option<PaymentStatus>,
    paidAmount: Option<real>,
    lastPaymentDate: Option<string>)

  datatype RecordStatus = RecordPending | RecordApproved | RecordInvoiced

  /** One lesson taught: who, what, when and how many hours. */
  datatype CourseRecord = CourseRecord(
    id: string,
    studentId: string,
    studentName: string,
    subject: Subject,
    teacherId: string,
    teacherName: string,
    date: string,
    hours: real,
    status: RecordStatus)

  /**
   * A multi-subject tier: it matches when the student is billed in at least
   * `threshold` subjects. A reduction tier takes `amount` off every hour; a
   * fixed tier charges `amount` for every hour when that is cheaper.
   */
  datatype MultiSubjectRule =
    | Reduction(threshold: int, amount: real)
    | Fixed(threshold: int, amount: real)

  /** A base-price table: it has a rate for every subject. */
  type PriceTable = m: map<Subject, real> | Chinese in m && Math in m && English in m && Physics in m && Chemistry in m
    witness map[Chinese := 0.0, Math := 0.0, English := 0.0, Physics := 0.0, Chemistry := 0.0]

  /** A price table has a rate for any subject one asks about. */
  lemma PriceTableIsTotal(m: PriceTable, s: Subject)
    ensures s in m
  {
    AllSubjectsListsEverySubjectOnce();
  }

  datatype DiscountRules = DiscountRules(
    hoursThreshold: real,
    hoursDiscount: real,
    multiSubject: seq<MultiSubjectRule>)

  datatype PricingRule = PricingRule(basePrice: PriceTable, discounts: DiscountRules)

  /**
   * One applied discount, with the numbers its description shows.
   * `percentOff` is 100 * (1 - hoursDiscount) before it is formatted.
   */
  datatype AppliedDiscount =
    | MultiSubjectReduction(threshold: int, perHour: real, total: real)
    | MultiSubjectFixed(threshold: int, perHour: real)
    | VolumeDiscount(hoursThreshold: real, percentOff: real)

  /** One line of a subject's invoice detail: the lesson date and its hours. */
  datatype DetailEntry = DetailEntry(date: string, hours: real)

  datatype BillingResult = BillingResult(
    student: Student,
    totalHours: real,
    subjectCounts: map<Subject, real>,
    originalCost: real,
    appliedDiscounts: seq<AppliedDiscount>,
    finalCost: real,
    records: seq<CourseRecord>,
    subjectDetails: map<Subject, seq<DetailEntry>>)
}
