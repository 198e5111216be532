/** The dashboard: a histogram of the year by month and status, and totals by type. */
module Dashboard {
  import opened MapSums

  datatype Status = Completed | Rejected | Other
  datatype YearTx = YearTx(month: nat, status: Status)

  function Bucket(txs: seq<YearTx>, month: nat, status: Status): nat {
    if txs == [] then 0
    else Bucket(txs[..|txs| - 1], month, status)
         + if txs[|txs| - 1].month == month && txs[|txs| - 1].status == status then 1 else 0
  }

  /** The transactions of one month, whatever their status. */
  function InMonth(txs: seq<YearTx>, month: nat): nat {
    if txs == [] then 0 else InMonth(txs[..|txs| - 1], month) + if txs[|txs| - 1].month == month then 1 else 0
  }

  function Sum(s: seq<nat>): nat {
    if s == [] then 0 else Sum(s[..|s| - 1]) + s[|s| - 1]
  }

  lemma {:induction false} SumUpdate(s: seq<nat>, i: nat, v: nat)
    requires i < |s|
    ensures Sum(s[i := v]) == Sum(s) - s[i] + v
  {
    if i == |s| - 1 {
      assert s[i := v][..|s| - 1] == s[..|s| - 1];
    } else {
      assert s[i := v][..|s| - 1] == s[..|s| - 1][i := v];
      SumUpdate(s[..|s| - 1], i, v);
    }
  }

  lemma {:induction false} SumZeros(s: seq<nat>)
    requires forall i :: 0 <= i < |s| ==> s[i] == 0
    ensures Sum(s) == 0
  {
    if s != [] { SumZeros(s[..|s| - 1]); }
  }

  /** A series that counts the transactions of a status, month by month. */
  ghost predicate Counts(series: seq<nat>, txs: seq<YearTx>, status: Status) {
    |series| == 12 && forall m :: 0 <= m < 12 ==> series[m] == Bucket(txs, m, status)
  }

  lemma CountsSnoc(series: seq<nat>, txs: seq<YearTx>, t: YearTx, status: Status)
    requires Counts(series, txs, status) && t.month < 12
    ensures Counts(if t.status == status then series[t.month := series[t.month] + 1] else series, txs + [t], status)
  {
  }

  /** series[m] += 1 */
  method Increment(a: array<nat>, m: nat)
    requires m < a.Length
    modifies a
    ensures a[..] == old(a[..])[m := old(a[m]) + 1]
    ensures Sum(a[..]) == old(Sum(a[..])) + 1
  {
    SumUpdate(a[..], m, a[m] + 1);
    a[m] := a[m] + 1;
    assert a[..] == old(a[..])[m := old(a[m]) + 1];
  }

  /** Every transaction lands in exactly one of the 36 buckets, so nothing is lost or counted twice. */
  method YearSeries(txs: seq<YearTx>) returns (completed: seq<nat>, pending: seq<nat>, rejected: seq<nat>)
    requires forall i :: 0 <= i < |txs| ==> txs[i].month < 12
    ensures Counts(completed, txs, Completed) && Counts(pending, txs, Other) && Counts(rejected, txs, Rejected)
    ensures forall m :: 0 <= m < 12 ==> completed[m] + pending[m] + rejected[m] == InMonth(txs, m)
    ensures Sum(completed) + Sum(pending) + Sum(rejected) == |txs|
  {
    hide Counts, Sum;
    var c, p, r := new nat[12](_ => 0), new nat[12](_ => 0), new nat[12](_ => 0);
    SumZeros(c[..]);
    SumZeros(p[..]);
    SumZeros(r[..]);
    NothingCounted(c[..], Completed);
    NothingCounted(p[..], Other);
    NothingCounted(r[..], Rejected);
    for i := 0 to |txs|
      invariant Counts(c[..], txs[..i], Completed)
      invariant Counts(p[..], txs[..i], Other)
      invariant Counts(r[..], txs[..i], Rejected)
      invariant Sum(c[..]) + Sum(p[..]) + Sum(r[..]) == i
    {
      var t := txs[i];
      assert txs[..i + 1] == txs[..i] + [t];
      CountsSnoc(c[..], txs[..i], t, Completed);
      CountsSnoc(p[..], txs[..i], t, Other);
      CountsSnoc(r[..], txs[..i], t, Rejected);
      if t.status == Completed {
        Increment(c, t.month);
      } else if t.status == Rejected {
        Increment(r, t.month);
      } else {
        Increment(p, t.month);
      }
    }
    assert txs[..|txs|] == txs;
    completed, pending, rejected := c[..], p[..], r[..];
    SeriesByMonth(completed, pending, rejected, txs);
  }

  lemma NothingCounted(series: seq<nat>, status: Status)
    requires |series| == 12 && forall m :: 0 <= m < 12 ==> series[m] == 0
    ensures Counts(series, [], status)
  {
  }

  lemma SeriesByMonth(completed: seq<nat>, pending: seq<nat>, rejected: seq<nat>, txs: seq<YearTx>)
    requires Counts(completed, txs, Completed) && Counts(pending, txs, Other) && Counts(rejected, txs, Rejected)
    ensures forall m :: 0 <= m < 12 ==> completed[m] + pending[m] + rejected[m] == InMonth(txs, m)
  {
    forall m | 0 <= m < 12
      ensures completed[m] + pending[m] + rejected[m] == InMonth(txs, m)
    {
      MonthIsThreeBuckets(txs, m);
    }
  }

  lemma {:induction false} MonthIsThreeBuckets(txs: seq<YearTx>, month: nat)
    ensures Bucket(txs, month, Completed) + Bucket(txs, month, Other) + Bucket(txs, month, Rejected) == InMonth(txs, month)
  {
    if txs != [] { MonthIsThreeBuckets(txs[..|txs| - 1], month); }
  }

  // ----- totals by type

  datatype TypedTx = TypedTx(kind: string, amount: real)

  function TypeOf(t: TypedTx): string {
    if t.kind == "" then "UNKNOWN" else t.kind
  }

  function OfType(txs: seq<TypedTx>, kind: string): real {
    if txs == [] then 0.0
    else OfType(txs[..|txs| - 1], kind) + if TypeOf(txs[|txs| - 1]) == kind then txs[|txs| - 1].amount else 0.0
  }

  function Same(x: real): real {
    x
  }

  function Lookup(totals: map<string, real>, kind: string): real {
    if kind in totals then totals[kind] else 0.0
  }

  lemma OfTypeSnoc(txs: seq<TypedTx>, t: TypedTx, kind: string)
    ensures OfType(txs + [t], kind) == OfType(txs, kind) + if TypeOf(t) == kind then t.amount else 0.0
  {
  }

  /** Each type has its own sum, and the sums add up to the total amount. */
  method TypeTotals(txs: seq<TypedTx>) returns (typeTotals: map<string, real>, totalAmount: real)
    ensures forall kind :: kind in typeTotals <==> exists i :: 0 <= i < |txs| && TypeOf(txs[i]) == kind
    ensures forall i :: 0 <= i < |txs| ==> (if txs[i].kind == "" then "UNKNOWN" else txs[i].kind) in typeTotals
    ensures forall kind :: Lookup(typeTotals, kind) == OfType(txs, kind)
    ensures SumBy(typeTotals, Same) == totalAmount
  {
    hide OfType, SumBy, TypeOf;
    EmptyTotals();
    typeTotals, totalAmount := map[], 0.0;
    for i := 0 to |txs|
      invariant forall kind :: kind in typeTotals <==> exists j :: 0 <= j < i && TypeOf(txs[j]) == kind
      invariant forall kind :: Lookup(typeTotals, kind) == OfType(txs[..i], kind)
      invariant SumBy(typeTotals, Same) == totalAmount
    {
      var kind := TypeOf(txs[i]);
      var next := Lookup(typeTotals, kind) + txs[i].amount;
      SumByUpdate(typeTotals, Same, kind, next);
      ghost var before := typeTotals;
      typeTotals := typeTotals[kind := next];
      forall k
        ensures Lookup(typeTotals, k) == OfType(txs[..i + 1], k)
      {
        assert txs[..i + 1] == txs[..i] + [txs[i]];
        OfTypeSnoc(txs[..i], txs[i], k);
        assert Lookup(before, k) == OfType(txs[..i], k);
      }
      totalAmount := totalAmount + txs[i].amount;
    }
    assert txs[..|txs|] == txs;
    forall i | 0 <= i < |txs|
      ensures (if txs[i].kind == "" then "UNKNOWN" else txs[i].kind) in typeTotals
    {
      MissingIsUnknown(txs[i]);
      assert TypeOf(txs[i]) in typeTotals;
    }
  }

  lemma MissingIsUnknown(t: TypedTx)
    ensures TypeOf(t) == if t.kind == "" then "UNKNOWN" else t.kind
  {
  }

  lemma EmptyTotals()
    ensures forall kind :: OfType([], kind) == 0.0
    ensures SumBy(map[], Same) == 0.0
  {
  }
}
