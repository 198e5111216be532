/** The CBN limits over runs of requests, told from a plain ledger of the amounts that were accepted. */
module CbnLedger {
  import opened Text
  import opened CbnLimits

  /** The caps of the CBN guidelines in dollars: per quarter and per year. */
  datatype Caps = Caps(quarter: real, year: real)

  function CapsOf(kind: Kind): Option<Caps> {
    match kind
    case PTA => Some(Caps(4000.0, 16000.0))
    case BTA => Some(Caps(5000.0, 20000.0))
    case SCHOOL_FEES => Some(Caps(10000.0, 10000.0))
    case MEDICAL => Some(Caps(5000.0, 20000.0))
    case PROFESSIONAL_BODY => Some(Caps(2000.0, 2000.0))
    case TOURIST_FX => Some(Caps(5000.0, 20000.0))
    case RESIDENT_FX => Some(Caps(10000.0, 40000.0))
    case EXPATRIATE_FX => Some(Caps(100000.0, 400000.0))
    case Unlimited(_) => None
  }

  /** January is month 0; quarter n of a year has the months from 3 (n - 1) up to but not including 3 n. */
  predicate InQuarter(month: nat, n: nat) {
    1 <= n <= 4 && 3 * (n - 1) <= month < 3 * n
  }

  predicate SameAccount(q: Request, userId: string, kind: Kind, year: nat) {
    q.userId == userId && q.kind == kind && q.year == year
  }

  function QuarterSum(ledger: seq<Request>, userId: string, kind: Kind, year: nat, n: nat): real {
    if ledger == [] then 0.0
    else
      var q := ledger[|ledger| - 1];
      QuarterSum(ledger[..|ledger| - 1], userId, kind, year, n)
      + if SameAccount(q, userId, kind, year) && InQuarter(q.month, n) then q.amount else 0.0
  }

  function YearSum(ledger: seq<Request>, userId: string, kind: Kind, year: nat): real {
    if ledger == [] then 0.0
    else
      var q := ledger[|ledger| - 1];
      YearSum(ledger[..|ledger| - 1], userId, kind, year) + if SameAccount(q, userId, kind, year) then q.amount else 0.0
  }

  predicate IsLimited(q: Request) {
    q.userId != "" && q.amount != 0.0 && CapsOf(q.kind).Some?
  }

  predicate FitsQuarter(ledger: seq<Request>, q: Request, n: nat)
    requires CapsOf(q.kind).Some?
  {
    QuarterSum(ledger, q.userId, q.kind, q.year, n) + q.amount <= CapsOf(q.kind).value.quarter
  }

  predicate FitsYear(ledger: seq<Request>, q: Request)
    requires CapsOf(q.kind).Some?
  {
    YearSum(ledger, q.userId, q.kind, q.year) + q.amount <= CapsOf(q.kind).value.year
  }

  /** What has been recorded: the positive amounts that fitted their quarter and their year when they were asked for. */
  ghost function Ledger(requests: seq<Request>): seq<Request> {
    if requests == [] then []
    else
      var before, q := Ledger(requests[..|requests| - 1]), requests[|requests| - 1];
      if IsLimited(q) && q.amount > 0.0 && FitsYear(before, q) && (exists n :: InQuarter(q.month, n) && FitsQuarter(before, q, n))
      then before + [q] else before
  }

  // ----- the table holds the sums of the ledger

  ghost predicate Agrees(rows: seq<Row>, ledger: seq<Request>) {
    && UniqueKeys(rows)
    && (forall userId, kind, year: nat, n: nat :: 1 <= n <= 4 ==>
          KeyUsage(rows, Key(userId, kind, n, year)) == QuarterSum(ledger, userId, kind, year, n))
    && (forall userId, kind, year: nat :: YearUsage(rows, userId, kind, year) == YearSum(ledger, userId, kind, year))
  }

  lemma {:induction false} KeyUsageOfUpdate(rows: seq<Row>, i: nat, usage: real, k: Key)
    requires i < |rows|
    ensures KeyUsage(rows[i := rows[i].(usage := usage)], k)
         == KeyUsage(rows, k) + if KeyOf(rows[i]) == k then usage - rows[i].usage else 0.0
  {
    var updated := rows[i := rows[i].(usage := usage)];
    if i < |rows| - 1 {
      assert updated[..|rows| - 1] == rows[..|rows| - 1][i := rows[i].(usage := usage)];
      KeyUsageOfUpdate(rows[..|rows| - 1], i, usage, k);
    } else {
      assert updated[..|rows| - 1] == rows[..|rows| - 1];
    }
  }

  lemma CreatingAgrees(rows: seq<Row>, ledger: seq<Request>, k: Key)
    requires Agrees(rows, ledger)
    ensures Agrees(GetOrCreate(rows, k), ledger)
  {
    hide Find, QuarterSum, YearSum;
    var created := GetOrCreate(rows, k);
    forall userId, kind, year: nat, n: nat | 1 <= n <= 4
      ensures KeyUsage(created, Key(userId, kind, n, year)) == QuarterSum(ledger, userId, kind, year, n)
    {
    }
    forall userId, kind, year: nat
      ensures YearUsage(created, userId, kind, year) == YearSum(ledger, userId, kind, year)
    {
      GetOrCreateUsage(rows, k, userId, kind, year);
    }
  }

  lemma RecordingAgrees(rows: seq<Row>, ledger: seq<Request>, q: Request, n: nat)
    requires Agrees(rows, ledger) && InQuarter(q.month, n) && Find(rows, Key(q.userId, q.kind, n, q.year)).Some?
    ensures Agrees(Record(rows, Key(q.userId, q.kind, n, q.year), q.amount), ledger + [q])
  {
    hide Find, KeyUsage, YearUsage, QuarterSum, YearSum;
    var k := Key(q.userId, q.kind, n, q.year);
    var i := Find(rows, k).value;
    var recorded := Record(rows, k, q.amount);
    assert forall j :: 0 <= j < |rows| ==> KeyOf(recorded[j]) == KeyOf(rows[j]);
    forall userId, kind, year: nat, m: nat | 1 <= m <= 4
      ensures KeyUsage(recorded, Key(userId, kind, m, year)) == QuarterSum(ledger + [q], userId, kind, year, m)
    {
      KeyUsageOfUpdate(rows, i, rows[i].usage + q.amount, Key(userId, kind, m, year));
      QuarterSumSnoc(ledger, q, userId, kind, year, m);
    }
    forall userId, kind, year: nat
      ensures YearUsage(recorded, userId, kind, year) == YearSum(ledger + [q], userId, kind, year)
    {
      YearUsageOfUpdate(rows, i, rows[i].usage + q.amount, userId, kind, year);
      YearSumSnoc(ledger, q, userId, kind, year);
    }
  }

  lemma QuarterSumSnoc(ledger: seq<Request>, q: Request, userId: string, kind: Kind, year: nat, n: nat)
    ensures QuarterSum(ledger + [q], userId, kind, year, n)
         == QuarterSum(ledger, userId, kind, year, n)
            + if SameAccount(q, userId, kind, year) && InQuarter(q.month, n) then q.amount else 0.0
  {
  }

  lemma YearSumSnoc(ledger: seq<Request>, q: Request, userId: string, kind: Kind, year: nat)
    ensures YearSum(ledger + [q], userId, kind, year)
         == YearSum(ledger, userId, kind, year) + if SameAccount(q, userId, kind, year) then q.amount else 0.0
  {
  }

  lemma SameCaps(kind: Kind)
    ensures CapsOf(kind).Some? == LimitsOf(kind).Some?
    ensures CapsOf(kind).Some? ==> LimitsOf(kind) == Some(Limits(CapsOf(kind).value.quarter, CapsOf(kind).value.year))
  {
  }

  /** What a check answers, told from the ledger that the table agrees with. */
  ghost predicate Answers(verdict: Verdict, ledger: seq<Request>, q: Request, n: nat) {
    if !IsLimited(q) then verdict == Skipped
    else if !FitsQuarter(ledger, q, n) then verdict == QuarterlyExceeded
    else if !FitsYear(ledger, q) then verdict == YearlyExceeded
    else
      var caps := CapsOf(q.kind).value;
      var quarter, year := QuarterSum(ledger, q.userId, q.kind, q.year, n), YearSum(ledger, q.userId, q.kind, q.year);
      verdict == Accepted(LimitInfo(caps.quarter - quarter, caps.year - year, quarter, year))
  }

  lemma CheckAnswers(rows: seq<Row>, ledger: seq<Request>, q: Request, n: nat)
    requires Agrees(rows, ledger) && InQuarter(q.month, n)
    ensures Answers(Check(rows, q.userId, q.kind, q.amount, q.month, q.year).verdict, ledger, q, n)
  {
    hide LimitsOf, CapsOf, Find, KeyUsage, YearUsage, QuarterSum, YearSum, GetOrCreate;
    SameCaps(q.kind);
    if q.kind == Unlimited("") {
      NoCaps("");
    }
    var k := Key(q.userId, q.kind, n, q.year);
    assert QuarterOf(q.month) == n;
    CreatingAgrees(rows, ledger, k);
    KeyUsageOfUnique(GetOrCreate(rows, k), k);
  }

  lemma NoCaps(name: string)
    ensures CapsOf(Unlimited(name)).None?
  {
  }

  lemma SubmitAgrees(rows: seq<Row>, ledger: seq<Request>, q: Request, n: nat)
    requires Agrees(rows, ledger) && InQuarter(q.month, n)
    ensures Agrees(Submit(rows, q),
                   if IsLimited(q) && q.amount > 0.0 && FitsYear(ledger, q) && FitsQuarter(ledger, q, n) then ledger + [q] else ledger)
  {
    hide LimitsOf, CapsOf, Find, KeyUsage, YearUsage, QuarterSum, YearSum, GetOrCreate, Agrees, Record;
    CheckAnswers(rows, ledger, q, n);
    SameCaps(q.kind);
    assert QuarterOf(q.month) == n;
    var k := Key(q.userId, q.kind, n, q.year);
    CreatingAgrees(rows, ledger, k);
    if IsLimited(q) && q.amount > 0.0 && FitsYear(ledger, q) && FitsQuarter(ledger, q, n) {
      RecordingAgrees(GetOrCreate(rows, k), ledger, q, n);
    }
  }

  lemma QuarterExists(month: nat) returns (n: nat)
    requires month < 12
    ensures InQuarter(month, n) && forall m :: InQuarter(month, m) ==> m == n
  {
    n := if month < 3 then 1 else if month < 6 then 2 else if month < 9 then 3 else 4;
  }

  lemma {:induction false} TableAgrees(requests: seq<Request>)
    requires RealMonths(requests)
    ensures Agrees(RowsAfter(requests), Ledger(requests))
  {
    if requests != [] {
      hide Submit, Agrees, FitsYear, FitsQuarter, IsLimited;
      var front, q := requests[..|requests| - 1], requests[|requests| - 1];
      TableAgrees(front);
      var n := QuarterExists(q.month);
      SubmitAgrees(RowsAfter(front), Ledger(front), q, n);
    }
  }

  /**
   After any run of requests a check refuses exactly what does not fit the calendar quarter or the
   year of what was recorded, and reports what is left of the two caps.
   */
  lemma ChecksFollowTheLedger(requests: seq<Request>, q: Request, n: nat)
    requires RealMonths(requests) && InQuarter(q.month, n)
    ensures Answers(Check(RowsAfter(requests), q.userId, q.kind, q.amount, q.month, q.year).verdict, Ledger(requests), q, n)
  {
    hide Agrees, Answers, Check;
    TableAgrees(requests);
    CheckAnswers(RowsAfter(requests), Ledger(requests), q, n);
  }

  lemma NothingBelowZero(kind: Kind)
    ensures CapsOf(kind).Some? ==> CapsOf(kind).value.quarter >= 0.0 && CapsOf(kind).value.year >= 0.0
  {
  }

  /** Over every run the recorded amounts of a calendar quarter, and those of a year, stay within their caps. */
  lemma {:induction false} LedgerWithinCaps(requests: seq<Request>, userId: string, kind: Kind, year: nat, n: nat)
    requires RealMonths(requests) && CapsOf(kind).Some?
    ensures QuarterSum(Ledger(requests), userId, kind, year, n) <= CapsOf(kind).value.quarter
    ensures YearSum(Ledger(requests), userId, kind, year) <= CapsOf(kind).value.year
  {
    hide CapsOf;
    NothingBelowZero(kind);
    if requests != [] {
      hide QuarterSum, YearSum;
      var front, q := requests[..|requests| - 1], requests[|requests| - 1];
      LedgerWithinCaps(front, userId, kind, year, n);
      var m := QuarterExists(q.month);
      QuarterSumSnoc(Ledger(front), q, userId, kind, year, n);
      YearSumSnoc(Ledger(front), q, userId, kind, year);
    }
  }
}
