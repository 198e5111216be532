/**
 The CBN limits: a get-or-create table of quarterly usage, the two caps checked against it, and
 the split of a disbursement. Amounts are exact. What records usage is not part of the checked
 code; it appears as a step of the environment that adds an accepted amount to the checked quarter.
 */
module CbnLimits {
  import opened Text

  datatype Limits = Limits(quarterly: real, yearly: real)

  /** The types that have limits; any other text is Unlimited, and a missing type is Unlimited(""). */
  datatype Kind =
    | PTA | BTA | SCHOOL_FEES | MEDICAL | PROFESSIONAL_BODY | TOURIST_FX | RESIDENT_FX | EXPATRIATE_FX
    | Unlimited(name: string)

  function LimitsOf(kind: Kind): Option<Limits> {
    match kind
    case PTA => Some(Limits(4000.0, 16000.0))
    case BTA => Some(Limits(5000.0, 20000.0))
    case SCHOOL_FEES => Some(Limits(10000.0, 10000.0))
    case MEDICAL => Some(Limits(5000.0, 20000.0))
    case PROFESSIONAL_BODY => Some(Limits(2000.0, 2000.0))
    case TOURIST_FX => Some(Limits(5000.0, 20000.0))
    case RESIDENT_FX => Some(Limits(10000.0, 40000.0))
    case EXPATRIATE_FX => Some(Limits(100000.0, 400000.0))
    case Unlimited(_) => None
  }

  /** A row of the limit table; its own copies of the limits are never read back. */
  datatype Row = Row(userId: string, kind: Kind, quarter: nat, year: nat, usage: real)

  datatype Key = Key(userId: string, kind: Kind, quarter: nat, year: nat)

  datatype LimitInfo = LimitInfo(quarterlyRemaining: real, yearlyRemaining: real, quarterlyUsage: real, yearlyUsage: real)

  datatype Verdict = Skipped | QuarterlyExceeded | YearlyExceeded | Accepted(info: LimitInfo)

  function KeyOf(r: Row): Key {
    Key(r.userId, r.kind, r.quarter, r.year)
  }

  function QuarterOf(month: nat): nat {
    month / 3 + 1
  }

  function Find(rows: seq<Row>, k: Key): (r: Option<nat>)
    ensures r.Some? ==> r.value < |rows| && KeyOf(rows[r.value]) == k
    ensures r.None? ==> forall i :: 0 <= i < |rows| ==> KeyOf(rows[i]) != k
  {
    if rows == [] then None
    else
      var earlier := Find(rows[..|rows| - 1], k);
      if earlier.Some? then earlier else if KeyOf(rows[|rows| - 1]) == k then Some(|rows| - 1) else None
  }

  /** The sum over all quarters of a year. */
  function YearUsage(rows: seq<Row>, userId: string, kind: Kind, year: nat): real {
    if rows == [] then 0.0
    else
      var last := rows[|rows| - 1];
      YearUsage(rows[..|rows| - 1], userId, kind, year)
      + if last.userId == userId && last.kind == kind && last.year == year then last.usage else 0.0
  }

  datatype Checked = Checked(rows: seq<Row>, verdict: Verdict)

  function GetOrCreate(rows: seq<Row>, k: Key): (r: seq<Row>)
    ensures Find(r, k).Some?
  {
    if Find(rows, k).Some? then rows
    else
      var created := rows + [Row(k.userId, k.kind, k.quarter, k.year, 0.0)];
      assert KeyOf(created[|rows|]) == k;
      created
  }

  function Check(rows: seq<Row>, userId: string, kind: Kind, amount: real, month: nat, year: nat): Checked {
    if userId == "" || kind == Unlimited("") || amount == 0.0 || LimitsOf(kind).None? then Checked(rows, Skipped)
    else
      var limits := LimitsOf(kind).value;
      var k := Key(userId, kind, QuarterOf(month), year);
      var rows' := GetOrCreate(rows, k);
      var used := rows'[Find(rows', k).value].usage;
      var total := YearUsage(rows', userId, kind, year);
      if used + amount > limits.quarterly then Checked(rows', QuarterlyExceeded)
      else if total + amount > limits.yearly then Checked(rows', YearlyExceeded)
      else Checked(rows', Accepted(LimitInfo(limits.quarterly - used, limits.yearly - total, used, total)))
  }

  /** The environment records an accepted positive amount in the checked quarter. */
  function Record(rows: seq<Row>, k: Key, amount: real): seq<Row> {
    var i := Find(rows, k);
    if i.None? then rows else rows[i.value := rows[i.value].(usage := rows[i.value].usage + amount)]
  }

  class TransactionLimitTable {
    var rows: seq<Row>

    constructor ()
      ensures rows == []
    {
      rows := [];
    }

    method CheckTransactionLimits(userId: string, kind: Kind, amount: real, month: nat, year: nat) returns (verdict: Verdict)
      requires month < 12
      modifies this
      ensures Checked(rows, verdict) == old(Check(rows, userId, kind, amount, month, year))
    {
      hide LimitsOf, Find, YearUsage, QuarterOf;
      if userId == "" || kind == Unlimited("") || amount == 0.0 { return Skipped; }
      var limits := LimitsOf(kind);
      if limits.None? { return Skipped; }
      var k := Key(userId, kind, QuarterOf(month), year);
      var record := Find(rows, k);
      ghost var created := GetOrCreate(rows, k);
      if record.None? {
        rows := rows + [Row(userId, kind, QuarterOf(month), year, 0.0)];
        record := Find(rows, k);
      }
      assert rows == created;
      var total := YearUsage(rows, userId, kind, year);
      var used := rows[record.value].usage;
      if used + amount > limits.value.quarterly { return QuarterlyExceeded; }
      if total + amount > limits.value.yearly { return YearlyExceeded; }
      return Accepted(LimitInfo(limits.value.quarterly - used, limits.value.yearly - total, used, total));
    }
  }

  // ----- runs of requests

  datatype Request = Request(userId: string, kind: Kind, amount: real, month: nat, year: nat)

  /** A request is checked and, if it is accepted with a positive amount, recorded. */
  function Submit(rows: seq<Row>, q: Request): seq<Row> {
    var c := Check(rows, q.userId, q.kind, q.amount, q.month, q.year);
    if c.verdict.Accepted? && q.amount > 0.0 then Record(c.rows, Key(q.userId, q.kind, QuarterOf(q.month), q.year), q.amount)
    else c.rows
  }

  function RowsAfter(requests: seq<Request>): seq<Row> {
    if requests == [] then [] else Submit(RowsAfter(requests[..|requests| - 1]), requests[|requests| - 1])
  }

  predicate RealMonths(requests: seq<Request>) {
    forall i :: 0 <= i < |requests| ==> requests[i].month < 12
  }

  /** There is one record per user, type, quarter and year. */
  ghost predicate UniqueKeys(rows: seq<Row>) {
    forall i, j :: 0 <= i < j < |rows| ==> KeyOf(rows[i]) != KeyOf(rows[j])
  }

  predicate QuarterWithin(r: Row) {
    && 1 <= r.quarter <= 4 && LimitsOf(r.kind).Some?
    && 0.0 <= r.usage <= LimitsOf(r.kind).value.quarterly
  }

  ghost predicate QuartersWithin(rows: seq<Row>) {
    forall i :: 0 <= i < |rows| ==> QuarterWithin(rows[i])
  }

  predicate YearWithin(rows: seq<Row>, userId: string, kind: Kind, year: nat) {
    LimitsOf(kind).Some? ==> YearUsage(rows, userId, kind, year) <= LimitsOf(kind).value.yearly
  }

  ghost predicate YearsWithin(rows: seq<Row>) {
    forall userId, kind, year: nat :: YearWithin(rows, userId, kind, year)
  }

  ghost predicate WithinLimits(rows: seq<Row>) {
    UniqueKeys(rows) && QuartersWithin(rows) && YearsWithin(rows)
  }

  lemma {:induction false} YearUsageOfUpdate(rows: seq<Row>, i: nat, usage: real, userId: string, kind: Kind, year: nat)
    requires i < |rows|
    ensures YearUsage(rows[i := rows[i].(usage := usage)], userId, kind, year)
         == YearUsage(rows, userId, kind, year)
            + if rows[i].userId == userId && rows[i].kind == kind && rows[i].year == year then usage - rows[i].usage else 0.0
  {
    var updated := rows[i := rows[i].(usage := usage)];
    if i < |rows| - 1 {
      assert updated[..|rows| - 1] == rows[..|rows| - 1][i := rows[i].(usage := usage)];
      YearUsageOfUpdate(rows[..|rows| - 1], i, usage, userId, kind, year);
    } else {
      assert updated[..|rows| - 1] == rows[..|rows| - 1];
    }
  }

  lemma GetOrCreateUsage(rows: seq<Row>, k: Key, userId: string, kind: Kind, year: nat)
    ensures YearUsage(GetOrCreate(rows, k), userId, kind, year) == YearUsage(rows, userId, kind, year)
  {
    hide Find;
  }

  predicate Positive(limits: Option<Limits>) {
    limits.Some? ==> limits.value.quarterly > 0.0 && limits.value.yearly > 0.0
  }

  lemma LimitsArePositive(kind: Kind)
    ensures Positive(LimitsOf(kind))
  {
  }

  lemma GetOrCreateKeeps(rows: seq<Row>, k: Key)
    requires WithinLimits(rows) && LimitsOf(k.kind).Some? && 1 <= k.quarter <= 4
    ensures WithinLimits(GetOrCreate(rows, k))
  {
    hide LimitsOf, YearUsage;
    var created := GetOrCreate(rows, k);
    LimitsArePositive(k.kind);
    forall userId, kind, year: nat
      ensures YearWithin(created, userId, kind, year)
    {
      assert YearWithin(rows, userId, kind, year);
      GetOrCreateUsage(rows, k, userId, kind, year);
    }
  }

  lemma RecordKeeps(rows: seq<Row>, k: Key, amount: real)
    requires WithinLimits(rows) && LimitsOf(k.kind).Some? && amount > 0.0 && Find(rows, k).Some?
    requires rows[Find(rows, k).value].usage + amount <= LimitsOf(k.kind).value.quarterly
    requires YearUsage(rows, k.userId, k.kind, k.year) + amount <= LimitsOf(k.kind).value.yearly
    ensures WithinLimits(Record(rows, k, amount))
  {
    hide LimitsOf, YearUsage, Find;
    var i := Find(rows, k).value;
    var recorded := Record(rows, k, amount);
    assert forall j :: 0 <= j < |rows| ==> KeyOf(recorded[j]) == KeyOf(rows[j]);
    forall userId, kind, year: nat
      ensures YearWithin(recorded, userId, kind, year)
    {
      assert YearWithin(rows, userId, kind, year);
      YearUsageOfUpdate(rows, i, rows[i].usage + amount, userId, kind, year);
    }
    forall j | 0 <= j < |recorded|
      ensures QuarterWithin(recorded[j])
    {
      assert QuarterWithin(rows[j]);
    }
  }

  lemma SubmitKeeps(rows: seq<Row>, q: Request)
    requires WithinLimits(rows) && q.month < 12
    ensures WithinLimits(Submit(rows, q))
  {
    hide LimitsOf, YearUsage, Find, WithinLimits, GetOrCreate;
    if !(q.userId == "" || q.kind == Unlimited("") || q.amount == 0.0 || LimitsOf(q.kind).None?) {
      var k := Key(q.userId, q.kind, QuarterOf(q.month), q.year);
      GetOrCreateKeeps(rows, k);
      if Check(rows, q.userId, q.kind, q.amount, q.month, q.year).verdict.Accepted? && q.amount > 0.0 {
        RecordKeeps(GetOrCreate(rows, k), k, q.amount);
      }
    }
  }

  /** Over every run of requests both caps hold and records stay unique. */
  lemma {:induction false} LimitsHold(requests: seq<Request>)
    requires RealMonths(requests)
    ensures WithinLimits(RowsAfter(requests))
  {
    if requests != [] {
      LimitsHold(requests[..|requests| - 1]);
      SubmitKeeps(RowsAfter(requests[..|requests| - 1]), requests[|requests| - 1]);
    }
  }

  // ----- when the yearly cap matters

  /** The usage recorded under one key. */
  function KeyUsage(rows: seq<Row>, k: Key): real {
    if rows == [] then 0.0
    else KeyUsage(rows[..|rows| - 1], k) + if KeyOf(rows[|rows| - 1]) == k then rows[|rows| - 1].usage else 0.0
  }

  lemma {:induction false} YearIsFourQuarters(rows: seq<Row>, userId: string, kind: Kind, year: nat)
    requires forall i :: 0 <= i < |rows| ==> 1 <= rows[i].quarter <= 4
    ensures YearUsage(rows, userId, kind, year)
         == KeyUsage(rows, Key(userId, kind, 1, year)) + KeyUsage(rows, Key(userId, kind, 2, year))
          + KeyUsage(rows, Key(userId, kind, 3, year)) + KeyUsage(rows, Key(userId, kind, 4, year))
  {
    if rows != [] { YearIsFourQuarters(rows[..|rows| - 1], userId, kind, year); }
  }

  lemma {:induction false} KeyUsageOfUnique(rows: seq<Row>, k: Key)
    requires UniqueKeys(rows)
    ensures KeyUsage(rows, k) == if Find(rows, k).Some? then rows[Find(rows, k).value].usage else 0.0
  {
    if rows != [] { KeyUsageOfUnique(rows[..|rows| - 1], k); }
  }

  lemma KeyUsageBound(rows: seq<Row>, k: Key)
    requires WithinLimits(rows) && LimitsOf(k.kind).Some?
    ensures KeyUsage(rows, k) <= LimitsOf(k.kind).value.quarterly
  {
    hide LimitsOf, KeyUsage;
    LimitsArePositive(k.kind);
    KeyUsageOfUnique(rows, k);
    var i := Find(rows, k);
    if i.Some? {
      assert QuarterWithin(rows[i.value]);
    }
  }

  /** A year has room for a request if its own quarter has: the other three hold at most the quarterly cap each. */
  lemma FourQuartersBound(rows: seq<Row>, k: Key)
    requires WithinLimits(rows) && LimitsOf(k.kind).Some? && 1 <= k.quarter <= 4 && Find(rows, k).Some?
    ensures YearUsage(rows, k.userId, k.kind, k.year)
         <= rows[Find(rows, k).value].usage + 3.0 * LimitsOf(k.kind).value.quarterly
  {
    hide LimitsOf, KeyUsage, YearUsage, Find;
    assert forall i :: 0 <= i < |rows| ==> QuarterWithin(rows[i]);
    YearIsFourQuarters(rows, k.userId, k.kind, k.year);
    KeyUsageOfUnique(rows, k);
    KeyUsageBound(rows, k.(quarter := 1));
    KeyUsageBound(rows, k.(quarter := 2));
    KeyUsageBound(rows, k.(quarter := 3));
    KeyUsageBound(rows, k.(quarter := 4));
    assert k == k.(quarter := 1) || k == k.(quarter := 2) || k == k.(quarter := 3) || k == k.(quarter := 4);
  }

  lemma EqualCapsOnlyForTwo(kind: Kind)
    requires LimitsOf(kind).Some? && LimitsOf(kind).value.yearly != 4.0 * LimitsOf(kind).value.quarterly
    ensures kind == SCHOOL_FEES || kind == PROFESSIONAL_BODY
  {
  }

  /** A request is refused by the yearly cap alone only for the two types whose caps are equal. */
  lemma YearlyRefusalNeedsEqualCaps(rows: seq<Row>, q: Request)
    requires WithinLimits(rows) && q.month < 12
    requires Check(rows, q.userId, q.kind, q.amount, q.month, q.year).verdict == YearlyExceeded
    ensures q.kind == SCHOOL_FEES || q.kind == PROFESSIONAL_BODY
  {
    hide LimitsOf, YearUsage, Find, WithinLimits, GetOrCreate;
    var k := Key(q.userId, q.kind, QuarterOf(q.month), q.year);
    GetOrCreateKeeps(rows, k);
    FourQuartersBound(GetOrCreate(rows, k), k);
    if LimitsOf(q.kind).value.yearly != 4.0 * LimitsOf(q.kind).value.quarterly {
      EqualCapsOnlyForTwo(q.kind);
    }
  }

  lemma FirstOfKey(k: Key)
    ensures var row := Row(k.userId, k.kind, k.quarter, k.year, 0.0);
            && GetOrCreate([], k) == [row] && Find([row], k) == Some(0)
            && YearUsage([row], k.userId, k.kind, k.year) == 0.0
  {
  }

  lemma OneRequest(q: Request)
    ensures RowsAfter([q]) == Submit([], q)
  {
    hide Submit;
    assert [q][..0] == [];
  }

  lemma FirstRequest(q: Request)
    requires q.userId != "" && q.amount > 0.0 && LimitsOf(q.kind).Some?
    requires q.amount <= LimitsOf(q.kind).value.quarterly && q.amount <= LimitsOf(q.kind).value.yearly
    ensures RowsAfter([q]) == [Row(q.userId, q.kind, QuarterOf(q.month), q.year, q.amount)]
  {
    var k := Key(q.userId, q.kind, QuarterOf(q.month), q.year);
    FirstOfKey(k);
    assert q.kind != Unlimited("");
    OneRequest(q);
    hide LimitsOf, Find, YearUsage, GetOrCreate, QuarterOf, RowsAfter;
  }

  lemma TotalAfterNewQuarter(row: Row, k: Key)
    requires KeyOf(row) != k && row.userId == k.userId && row.kind == k.kind && row.year == k.year
    ensures Find([row], k) == None
    ensures var created := GetOrCreate([row], k);
            && Find(created, k) == Some(1) && created[1].usage == 0.0
            && YearUsage(created, k.userId, k.kind, k.year) == row.usage
  {
    var created := [row] + [Row(k.userId, k.kind, k.quarter, k.year, 0.0)];
    assert [row][..0] == [] && created[..1] == [row];
    assert Find([row], k).None?;
    GetOrCreateUsage([row], k, k.userId, k.kind, k.year);
  }

  /** For these two types the yearly cap does refuse requests that the quarterly one admits. */
  lemma YearlyRefusalHappens(userId: string, kind: Kind, year: nat)
    requires userId != "" && (kind == SCHOOL_FEES || kind == PROFESSIONAL_BODY)
    ensures var cap := LimitsOf(kind).value.quarterly;
            Check(RowsAfter([Request(userId, kind, cap, 0, year)]), userId, kind, 1.0, 3, year).verdict == YearlyExceeded
  {
    hide RowsAfter, Find, YearUsage, GetOrCreate;
    var first := Request(userId, kind, LimitsOf(kind).value.quarterly, 0, year);
    FirstRequest(first);
    TotalAfterNewQuarter(RowsAfter([first])[0], Key(userId, kind, 2, year));
  }

  // ----- the split of a disbursement

  datatype Split = Next | NeedsSplit | TooMuchCash | TotalMismatch

  function Abs(x: real): real {
    if x < 0.0 then -x else x
  }

  /** Zero amounts and the empty method count as missing; a total of zero makes the percentage infinite. */
  function ValidateDisbursement(amount: real, disbursementMethod: string, cash: real, card: real): Split {
    if amount == 0.0 || disbursementMethod == "" then Next
    else if amount <= 500.0 then Next
    else if disbursementMethod == "CASH_PICKUP" && card == 0.0 then NeedsSplit
    else if cash == 0.0 || card == 0.0 then Next
    else
      var total := cash + card;
      if (if total == 0.0 then cash > 0.0 else cash / total > 0.25 + 0.01) then TooMuchCash
      else if Abs(total - amount) > 0.01 then TotalMismatch
      else Next
  }

  lemma ShareBound(cash: real, total: real)
    requires total > 0.0
    ensures cash / total <= 0.26 <==> cash <= 0.26 * total
  {
  }

  /** A disbursement above 500 with a method and both parts, which alone is looked at in full. */
  predicate IsSplit(amount: real, disbursementMethod: string, cash: real, card: real) {
    amount > 500.0 && disbursementMethod != "" && cash != 0.0 && card != 0.0
  }

  /**
   Exactly what passes, for all inputs: a split, if its parts add up to within a cent and cash is at
   most 26 percent of them; anything else but a cash pickup above 500 without card part. An accepted
   split bounds both parts by the amount.
   */
  lemma AcceptedSplit(amount: real, disbursementMethod: string, cash: real, card: real)
    ensures ValidateDisbursement(amount, disbursementMethod, cash, card) == Next
       <==> if IsSplit(amount, disbursementMethod, cash, card)
            then Abs(cash + card - amount) <= 0.01 && cash <= 0.26 * (cash + card)
            else !(amount > 500.0 && disbursementMethod == "CASH_PICKUP" && card == 0.0)
    ensures IsSplit(amount, disbursementMethod, cash, card) && ValidateDisbursement(amount, disbursementMethod, cash, card) == Next ==>
              cash <= 0.26 * (amount + 0.01) && card >= 0.74 * (amount - 0.01)
    ensures ValidateDisbursement(amount, disbursementMethod, cash, card) == NeedsSplit
       <==> amount > 500.0 && disbursementMethod == "CASH_PICKUP" && card == 0.0
    ensures IsSplit(amount, disbursementMethod, cash, card) && cash + card > 0.0 ==>
              (ValidateDisbursement(amount, disbursementMethod, cash, card) == TooMuchCash <==> cash > 0.26 * (cash + card))
  {
    if cash + card > 0.0 {
      ShareBound(cash, cash + card);
    }
  }
}
