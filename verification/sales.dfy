/** The sales screen: the sale record, the status and trainer filter, and the
    figures shown above the table (revenue, commission, counts per status,
    refund rate) together with the trainer drop-down's options. Every figure
    is computed from the whole list of sales; none of them takes the filters. */
module Sales {
  import opened Shared
  import Seqs

  datatype SaleStatus = Completed | Pending | Refunded {
    /** The string literal the source stores for this status. */
    function Name(): string {
      match this
      case Completed => "completed"
      case Pending => "pending"
      case Refunded => "refunded"
    }
  }

  /** A sale. `amount` and `commission` are in cents. */
  datatype Sale = Sale(
    id: int,
    customerName: string,
    customerEmail: string,
    packageName: string,
    trainer: string,
    amount: int,
    date: string,
    status: SaleStatus,
    paymentMethod: string,
    commission: int)

  /** The three drop-downs above the sales table. */
  datatype SalesFilters = SalesFilters(status: string, trainer: string, dateRange: string)

  /** One sale passes the status and trainer drop-downs; the date range is
      not consulted. */
  predicate Matches(s: Sale, f: SalesFilters) {
    FilterAccepts(f.status, s.status.Name()) && FilterAccepts(f.trainer, s.trainer)
  }

  function Matcher(f: SalesFilters): Sale -> bool {
    (s: Sale) => Matches(s, f)
  }

  /** `filteredSales`: the sales that pass both filters, in list order and
      with their multiplicities. */
  function FilteredSales(sales: seq<Sale>, f: SalesFilters): (r: seq<Sale>)
    ensures forall s :: s in r <==> s in sales && Matches(s, f)
    ensures forall s :: multiset(r)[s] == if Matches(s, f) then multiset(sales)[s] else 0
    ensures Seqs.IsSubsequence(r, sales)
  {
    Seqs.FilterMultiplicity(sales, Matcher(f));
    Seqs.FilterIsSubsequence(sales, Matcher(f));
    Seqs.Filter(sales, Matcher(f))
  }

  /** The date-range drop-down has no effect on the filtered sales. */
  lemma DateRangeIgnored(sales: seq<Sale>, f: SalesFilters, range: string)
    ensures FilteredSales(sales, f.(dateRange := range)) == FilteredSales(sales, f)
  {
    Seqs.FilterCongruent(sales, Matcher(f.(dateRange := range)), Matcher(f));
  }

  /** The status drop-down alone selects exactly the sales with that status. */
  lemma FilterByStatus(sales: seq<Sale>, st: SaleStatus, range: string, s: Sale)
    ensures s in FilteredSales(sales, SalesFilters(st.Name(), All, range)) <==> s in sales && s.status == st
  {
  }

  function HasStatus(st: SaleStatus): Sale -> bool {
    (s: Sale) => s.status == st
  }

  function AmountOf(s: Sale): int {
    s.amount
  }

  function CommissionOf(s: Sale): int {
    s.commission
  }

  /** The sales with status `completed`, in list order. */
  function CompletedSales(sales: seq<Sale>): seq<Sale> {
    Seqs.Filter(sales, HasStatus(Completed))
  }

  /** The inductive step shared by the revenue and commission loops: one more
      sale adds its value to the sum over completed sales exactly when it is
      completed. */
  lemma CompletedSumStep(sales: seq<Sale>, i: nat, f: Sale -> int)
    requires i < |sales|
    ensures Seqs.SumOf(CompletedSales(sales[..i + 1]), f)
         == Seqs.SumOf(CompletedSales(sales[..i]), f) + (if sales[i].status == Completed then f(sales[i]) else 0)
  {
    assert sales[..i + 1] == sales[..i] + [sales[i]];
    CompletedSumAppend(sales[..i], sales[i], f);
  }

  /** `totalRevenue`: the `reduce` over all sales that adds the amount of each
      completed sale. It equals the sum of the amounts of the completed sales. */
  method TotalRevenue(sales: seq<Sale>) returns (total: int)
    ensures total == Seqs.SumOf(CompletedSales(sales), AmountOf)
  {
    total := 0;
    var i := 0;
    while i < |sales|
      invariant 0 <= i <= |sales|
      invariant total == Seqs.SumOf(CompletedSales(sales[..i]), AmountOf)
    {
      CompletedSumStep(sales, i, AmountOf);
      if sales[i].status == Completed {
        total := total + sales[i].amount;
      }
      i := i + 1;
    }
    assert sales[..i] == sales;
  }

  /** `totalCommission`: the `reduce` over all sales that adds the commission
      of each completed sale. */
  method TotalCommission(sales: seq<Sale>) returns (total: int)
    ensures total == Seqs.SumOf(CompletedSales(sales), CommissionOf)
  {
    total := 0;
    var i := 0;
    while i < |sales|
      invariant 0 <= i <= |sales|
      invariant total == Seqs.SumOf(CompletedSales(sales[..i]), CommissionOf)
    {
      CompletedSumStep(sales, i, CommissionOf);
      if sales[i].status == Completed {
        total := total + sales[i].commission;
      }
      i := i + 1;
    }
    assert sales[..i] == sales;
  }

  /** A pending or refunded sale adds nothing to any sum over completed sales;
      a completed one adds its own value. */
  lemma CompletedSumAppend(sales: seq<Sale>, s: Sale, f: Sale -> int)
    ensures Seqs.SumOf(CompletedSales(sales + [s]), f)
         == Seqs.SumOf(CompletedSales(sales), f) + (if s.status == Completed then f(s) else 0)
  {
    var c := CompletedSales(sales);
    Seqs.FilterSnoc(sales, s, HasStatus(Completed));
    if s.status == Completed {
      assert CompletedSales(sales + [s]) == c + [s];
      Seqs.SumOfSnoc(c, s, f);
    } else {
      assert CompletedSales(sales + [s]) == c;
    }
  }

  /** The positions of the sales with status `st`. */
  function PositionsWithStatus(sales: seq<Sale>, st: SaleStatus): set<int> {
    set i | 0 <= i < |sales| && sales[i].status == st
  }

  /** `sales.filter(sale => sale.status === st).length`: the number of
      positions holding a sale with status `st`. */
  function CountWithStatus(sales: seq<Sale>, st: SaleStatus): (n: nat)
    ensures n <= |sales|
    ensures n == |PositionsWithStatus(sales, st)|
  {
    FilterCountsPositions(sales, st);
    |Seqs.Filter(sales, HasStatus(st))|
  }

  /** Appending a sale adds its own position when it has status `st`. */
  lemma PositionsSnoc(front: seq<Sale>, x: Sale, st: SaleStatus)
    ensures PositionsWithStatus(front + [x], st)
         == PositionsWithStatus(front, st) + (if x.status == st then {|front|} else {})
  {
    var s := front + [x];
    forall i | 0 <= i < |front|
      ensures s[i] == front[i]
    {
    }
  }

  /** Filtering by status keeps one sale per matching position. */
  lemma {:induction false} FilterCountsPositions(sales: seq<Sale>, st: SaleStatus)
    ensures |Seqs.Filter(sales, HasStatus(st))| == |PositionsWithStatus(sales, st)|
  {
    if |sales| == 0 {
      assert PositionsWithStatus(sales, st) == {};
    } else {
      var n := |sales| - 1;
      var front, x := sales[..n], sales[n];
      assert sales == front + [x];
      FilterCountsPositions(front, st);
      Seqs.FilterSnoc(front, x, HasStatus(st));
      PositionsSnoc(front, x, st);
      assert n !in PositionsWithStatus(front, st);
    }
  }

  /** Every sale is completed, pending or refunded, so the three counts add up
      to the number of sales. */
  lemma {:induction false} StatusCountsPartition(sales: seq<Sale>)
    ensures CountWithStatus(sales, Completed) + CountWithStatus(sales, Pending)
          + CountWithStatus(sales, Refunded) == |sales|
  {
    if |sales| > 0 {
      StatusCountsPartition(sales[1..]);
    }
  }

  /** `rate` percent of `whole` is `part`. */
  predicate IsPercentOf(rate: real, part: nat, whole: nat) {
    rate * (whole as real) == (part as real) * 100.0
  }

  /** `(part / whole) * 100` as a percentage; with no whole it is `0 / 0`,
      which is `NaN` and not a number: `None`. */
  function Percent(part: nat, whole: nat): (r: Option<real>)
    requires part <= whole
    ensures r.None? <==> whole == 0
    ensures r.Some? ==> IsPercentOf(r.value, part, whole)
    ensures r.Some? ==> 0.0 <= r.value <= 100.0
  {
    if whole == 0 then None
    else
      PercentOfWhole(part as real, whole as real);
      Some((part as real / whole as real) * 100.0)
  }

  /** The refund rate `(refundedSales / sales.length) * 100`: undefined with no
      sales, otherwise the percentage of sales that are refunded. */
  function RefundRate(sales: seq<Sale>): (r: Option<real>)
    ensures r.None? <==> |sales| == 0
    ensures r.Some? ==> IsPercentOf(r.value, CountWithStatus(sales, Refunded), |sales|)
    ensures r.Some? ==> 0.0 <= r.value <= 100.0
  {
    Percent(CountWithStatus(sales, Refunded), |sales|)
  }

  /** A share of a positive whole lies between 0 and 1, and times the whole
      gives the part back. */
  lemma RatioBounds(part: real, whole: real)
    requires 0.0 <= part <= whole && whole > 0.0
    ensures 0.0 <= part / whole <= 1.0
    ensures (part / whole) * whole == part
  {
  }

  /** Scaling a share to a percentage scales the part likewise. */
  lemma PercentOfWhole(part: real, whole: real)
    requires 0.0 <= part <= whole && whole > 0.0
    ensures 0.0 <= (part / whole) * 100.0 <= 100.0
    ensures ((part / whole) * 100.0) * whole == part * 100.0
  {
    RatioBounds(part, whole);
    var q := part / whole;
    calc {
      (q * 100.0) * whole;
      (q * whole) * 100.0;
      part * 100.0;
    }
  }

  function TrainerOf(s: Sale): string {
    s.trainer
  }

  /** `[...new Set(sales.map(sale => sale.trainer))]`: the trainer drop-down's
      options, each trainer named in a sale once, in order of first
      appearance. */
  function Trainers(sales: seq<Sale>): (r: seq<string>)
    ensures Seqs.NoDuplicates(r)
    ensures forall t :: t in r <==> exists i :: 0 <= i < |sales| && sales[i].trainer == t
    ensures Seqs.InFirstOccurrenceOrder(r, Seqs.Map(sales, TrainerOf))
  {
    var names := Seqs.Map(sales, TrainerOf);
    assert forall t :: t in names <==> exists i :: 0 <= i < |sales| && sales[i].trainer == t by {
      forall t
        ensures t in names <==> exists i :: 0 <= i < |sales| && sales[i].trainer == t
      {
        if t in names {
          var i :| 0 <= i < |names| && names[i] == t;
          assert sales[i].trainer == t;
        }
      }
    }
    Seqs.DistinctOrder(names);
    Seqs.Distinct(names)
  }

  /** The sales the screen starts with. */
  const Sale1: Sale := Sale(1, "John Doe", "john.doe@email.com", "Strength Building Bootcamp",
    "Sarah Wilson", 29900, "2024-12-20", Completed, "Credit Card", 5980)
  const Sale2: Sale := Sale(2, "Jane Smith", "jane.smith@email.com", "HIIT Fat Burn Challenge",
    "Mike Johnson", 19900, "2024-12-19", Completed, "PayPal", 3980)
  const Sale3: Sale := Sale(3, "Robert Brown", "robert.brown@email.com", "Mindful Yoga Journey",
    "Emily Rodriguez", 14900, "2024-12-18", Pending, "Credit Card", 2980)
  const Sale4: Sale := Sale(4, "Lisa Wilson", "lisa.wilson@email.com", "CrossFit Fundamentals",
    "David Kim", 34900, "2024-12-17", Completed, "Bank Transfer", 6980)
  const Sale5: Sale := Sale(5, "Michael Chen", "michael.chen@email.com", "Strength Building Bootcamp",
    "Sarah Wilson", 29900, "2024-12-16", Refunded, "Credit Card", 0)
  const Seed: seq<Sale> := [Sale1, Sale2, Sale3, Sale4, Sale5]

  /** On the starting data the revenue is 299 + 199 + 349 = 847 (in cents
      84700) and the commission 59.80 + 39.80 + 69.80 = 169.40: the pending and
      the refunded sale are left out. */
  lemma SeedRevenue()
    ensures Seqs.SumOf(CompletedSales(Seed), AmountOf) == 84700
    ensures Seqs.SumOf(CompletedSales(Seed), CommissionOf) == 16940
  {
    var s1, s2, s3, s4 := [Sale1], [Sale1, Sale2], [Sale1, Sale2, Sale3], [Sale1, Sale2, Sale3, Sale4];
    assert [] + [Sale1] == s1;
    assert s1 + [Sale2] == s2;
    assert s2 + [Sale3] == s3;
    assert s3 + [Sale4] == s4;
    assert s4 + [Sale5] == Seed;
    CompletedSumAppend([], Sale1, AmountOf);
    CompletedSumAppend(s1, Sale2, AmountOf);
    CompletedSumAppend(s2, Sale3, AmountOf);
    CompletedSumAppend(s3, Sale4, AmountOf);
    CompletedSumAppend(s4, Sale5, AmountOf);
    CompletedSumAppend([], Sale1, CommissionOf);
    CompletedSumAppend(s1, Sale2, CommissionOf);
    CompletedSumAppend(s2, Sale3, CommissionOf);
    CompletedSumAppend(s3, Sale4, CommissionOf);
    CompletedSumAppend(s4, Sale5, CommissionOf);
  }

  /** One more sale adds one to the count of its own status only. */
  lemma CountAppend(sales: seq<Sale>, s: Sale, st: SaleStatus)
    ensures CountWithStatus(sales + [s], st) == CountWithStatus(sales, st) + (if s.status == st then 1 else 0)
  {
    Seqs.FilterSnoc(sales, s, HasStatus(st));
  }

  /** On the starting data three sales are completed, one pending and one
      refunded, so the refund rate is 20%. */
  lemma SeedFigures()
    ensures CountWithStatus(Seed, Completed) == 3
    ensures CountWithStatus(Seed, Pending) == 1
    ensures CountWithStatus(Seed, Refunded) == 1
    ensures RefundRate(Seed) == Some(20.0)
  {
    SeedCount(Completed);
    SeedCount(Pending);
    SeedCount(Refunded);
    assert (1.0 / 5.0) * 100.0 == 20.0;
  }

  /** The number of starting sales with each status. */
  lemma SeedCount(st: SaleStatus)
    ensures CountWithStatus(Seed, st) == if st == Completed then 3 else 1
  {
    var s1, s2, s3, s4 := [Sale1], [Sale1, Sale2], [Sale1, Sale2, Sale3], [Sale1, Sale2, Sale3, Sale4];
    assert [] + [Sale1] == s1;
    assert s1 + [Sale2] == s2;
    assert s2 + [Sale3] == s3;
    assert s3 + [Sale4] == s4;
    assert s4 + [Sale5] == Seed;
    CountAppend([], Sale1, st);
    CountAppend(s1, Sale2, st);
    CountAppend(s2, Sale3, st);
    CountAppend(s3, Sale4, st);
    CountAppend(s4, Sale5, st);
  }

  /** On the starting data the trainer drop-down offers the four trainers in
      order of their first sale; Sarah Wilson, who has two sales, once. */
  lemma SeedTrainers()
    ensures Trainers(Seed) == ["Sarah Wilson", "Mike Johnson", "Emily Rodriguez", "David Kim"]
  {
    var names := Seqs.Map(Seed, TrainerOf);
    var a, b, c, d := "Sarah Wilson", "Mike Johnson", "Emily Rodriguez", "David Kim";
    assert names == [a, b, c, d, a];
    assert Seqs.NoDuplicates([a, b, c, d]) by {
      assert a[0] != b[0] && a[0] != c[0] && a[0] != d[0];
      assert b[0] != c[0] && b[0] != d[0] && c[0] != d[0];
    }
    Seqs.DistinctOfNoDuplicates([a, b, c, d]);
    assert [a, b, c, d] + [a] == names;
    Seqs.DistinctSnoc([a, b, c, d], a);
  }
}
