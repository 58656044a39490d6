/** Percentiles by sort and index, and the cost accounting per category. */
module Benchmark {
  import opened Strings
  import opened Wrappers
  import opened Dict
  import opened Rounding

  // ----- order statistics

  function Insert(x: real, s: seq<real>): seq<real> {
    if s == [] || x <= s[0] then [x] + s else [s[0]] + Insert(x, s[1..])
  }

  /** The values in ascending order. */
  function Sorted(values: seq<real>): seq<real> {
    if values == [] then [] else Insert(values[0], Sorted(values[1..]))
  }

  ghost predicate AllGe(s: seq<real>, bound: real) {
    forall i :: 0 <= i < |s| ==> s[i] >= bound
  }

  ghost predicate Ascending(s: seq<real>) {
    s == [] || (AllGe(s[1..], s[0]) && Ascending(s[1..]))
  }

  /** Where the percentile falls between the first of n values, 0, and the last, n - 1. */
  function Position(n: nat, p: real): real {
    p / 100.0 * (n as real - 1.0)
  }

  /** Conversion to an integer drops the fraction, towards zero. */
  function Truncated(x: real): int {
    if x >= 0.0 then x.Floor else -((-x).Floor)
  }

  /** The subscript used, at most the last; below zero it counts from the end. */
  function Subscript(n: nat, p: real): int
    requires n > 0
  {
    var i := Truncated(Position(n, p));
    if i < n - 1 then i else n - 1
  }

  /** The place meant by the subscript; there is none below zero. */
  function Index(n: nat, p: real): (i: int)
    requires n > 0
    ensures i < n
  {
    var i := Subscript(n, p);
    if i < 0 then n + i else i
  }

  lemma PositionMonotone(n: nat, p: real, q: real)
    requires n > 0 && p <= q
    ensures Position(n, p) <= Position(n, q) && Position(n, 0.0) == 0.0
  {
    ScaleMonotone(n as real - 1.0, p / 100.0, q / 100.0);
  }

  lemma ScaleMonotone(c: real, x: real, y: real)
    requires c >= 0.0 && x <= y
    ensures x * c <= y * c
  {
  }

  /**
   The index is the whole part of p percent of n - 1, at most n - 1; below zero the whole part is taken
   towards zero and counted from the end.
   */
  lemma IndexIs(n: nat, p: real)
    requires n > 0
    ensures
      var x, i := p / 100.0 * (n as real - 1.0), Index(n, p) as real;
      && (0.0 <= p <= 100.0 ==> i <= x < i + 1.0)
      && (p > 100.0 ==> Index(n, p) == n - 1)
      && (p < 0.0 && x > -1.0 ==> Index(n, p) == 0)
      && (p < 0.0 && x <= -1.0 ==> i - n as real - 1.0 < x <= i - n as real)
  {
    hide Position;
    PositionRange(n, p);
  }

  lemma PositionRange(n: nat, p: real)
    requires n > 0
    ensures Position(n, p) == p / 100.0 * (n as real - 1.0)
    ensures p >= 0.0 ==> Position(n, p) >= 0.0
    ensures p <= 0.0 ==> Position(n, p) <= 0.0
    ensures p <= 100.0 ==> Position(n, p) <= n as real - 1.0
    ensures p >= 100.0 ==> Position(n, p) >= n as real - 1.0
  {
    if p >= 0.0 { PositionMonotone(n, 0.0, p); }
    if p <= 0.0 { PositionMonotone(n, p, 0.0); }
    PositionEnds(n);
    if p <= 100.0 { PositionMonotone(n, p, 100.0); }
    if p >= 100.0 { PositionMonotone(n, 100.0, p); }
  }

  lemma PositionEnds(n: nat)
    ensures Position(n, 0.0) == 0.0 && Position(n, 100.0) == n as real - 1.0
  {
  }

  datatype Percentile = NoValue | Value(value: real) | IndexError

  function Pct(values: seq<real>, p: real): Percentile {
    SortedLength(values);
    if values == [] then NoValue
    else
      var i := Index(|values|, p);
      if i < 0 then IndexError else Value(Sorted(values)[i])
  }

  /** The subscript leaves the values exactly when the position falls n + 1 or more below the first. */
  lemma PctRaisesIff(values: seq<real>, p: real)
    ensures Pct(values, p) == IndexError <==>
            values != [] && Position(|values|, p) <= -(|values| as real) - 1.0
    ensures Pct(values, p) == IndexError ==> p < -100.0
  {
    hide Sorted;
    if values != [] && p >= -100.0 { AboveMinusN(|values|, p); }
  }

  lemma AboveMinusN(n: nat, p: real)
    requires n > 0 && p >= -100.0
    ensures Position(n, p) >= 1.0 - n as real
  {
    ScaleMonotone(n as real - 1.0, -1.0, p / 100.0);
  }

  lemma {:induction false} InsertLength(x: real, s: seq<real>)
    ensures |Insert(x, s)| == |s| + 1
  {
    if s != [] && x > s[0] { InsertLength(x, s[1..]); }
  }

  lemma {:induction false} SortedLength(values: seq<real>)
    ensures |Sorted(values)| == |values|
  {
    if values != [] {
      SortedLength(values[1..]);
      InsertLength(values[0], Sorted(values[1..]));
    }
  }

  lemma {:induction false} InsertGe(x: real, s: seq<real>, bound: real)
    requires x >= bound && AllGe(s, bound)
    ensures AllGe(Insert(x, s), bound)
  {
    if s != [] && x > s[0] { InsertGe(x, s[1..], bound); }
  }

  lemma {:induction false} InsertAscends(x: real, s: seq<real>)
    requires Ascending(s)
    ensures Ascending(Insert(x, s))
  {
    if s == [] || x <= s[0] {
      assert ([x] + s)[1..] == s;
    } else {
      InsertAscends(x, s[1..]);
      InsertGe(x, s[1..], s[0]);
      assert Insert(x, s)[1..] == Insert(x, s[1..]);
    }
  }

  lemma {:induction false} InsertMultiset(x: real, s: seq<real>)
    ensures multiset(Insert(x, s)) == multiset(s) + multiset{x}
  {
    if s != [] && x > s[0] {
      InsertMultiset(x, s[1..]);
      assert s == [s[0]] + s[1..];
    }
  }

  lemma {:induction false} SortedIsSorted(values: seq<real>)
    ensures Ascending(Sorted(values)) && multiset(Sorted(values)) == multiset(values)
  {
    if values != [] {
      SortedIsSorted(values[1..]);
      InsertAscends(values[0], Sorted(values[1..]));
      InsertMultiset(values[0], Sorted(values[1..]));
      assert values == [values[0]] + values[1..];
    }
  }

  lemma {:induction false} AscendingAt(s: seq<real>, i: nat, j: nat)
    requires Ascending(s) && i <= j < |s|
    ensures s[i] <= s[j]
  {
    if i > 0 { AscendingAt(s[1..], i - 1, j - 1); }
  }

  lemma HeadIsLeast(s: seq<real>, v: real)
    requires Ascending(s) && v in multiset(s)
    ensures s != [] && s[0] <= v
  {
    var i :| 0 <= i < |s| && s[i] == v;
    AscendingAt(s, 0, i);
  }

  lemma TailMultiset(s: seq<real>)
    requires s != []
    ensures multiset(s[1..]) == multiset(s) - multiset{s[0]} && s[0] in multiset(s)
  {
    assert s == [s[0]] + s[1..];
  }

  lemma HeadsAndTailsAgree(a: seq<real>, b: seq<real>)
    requires Ascending(a) && Ascending(b) && multiset(a) == multiset(b) && a != []
    ensures b != [] && a[0] == b[0] && multiset(a[1..]) == multiset(b[1..])
  {
    hide Ascending;
    TailMultiset(a);
    HeadIsLeast(b, a[0]);
    TailMultiset(b);
    HeadIsLeast(a, b[0]);
  }

  /** There is one way to sort: equal multisets give equal ascending sequences. */
  lemma {:induction false} AscendingIsUnique(a: seq<real>, b: seq<real>)
    requires Ascending(a) && Ascending(b) && multiset(a) == multiset(b)
    ensures a == b
  {
    hide Ascending;
    if a != [] {
      HeadsAndTailsAgree(a, b);
      TailAscends(a);
      TailAscends(b);
      AscendingIsUnique(a[1..], b[1..]);
      assert a == [a[0]] + a[1..] && b == [b[0]] + b[1..];
    } else if b != [] {
      TailMultiset(b);
    }
  }

  lemma TailAscends(s: seq<real>)
    requires s != [] && Ascending(s)
    ensures Ascending(s[1..])
  {
  }

  /** How many values are at most, or at least, a bound. */
  function AtMost(values: seq<real>, bound: real): nat {
    if values == [] then 0 else (if values[0] <= bound then 1 else 0) + AtMost(values[1..], bound)
  }

  function AtLeast(values: seq<real>, bound: real): nat {
    if values == [] then 0 else (if values[0] >= bound then 1 else 0) + AtLeast(values[1..], bound)
  }

  lemma {:induction false} InsertCounts(x: real, s: seq<real>, bound: real)
    ensures AtMost(Insert(x, s), bound) == AtMost(s, bound) + if x <= bound then 1 else 0
    ensures AtLeast(Insert(x, s), bound) == AtLeast(s, bound) + if x >= bound then 1 else 0
  {
    if s == [] || x <= s[0] {
      assert ([x] + s)[1..] == s;
    } else {
      InsertCounts(x, s[1..], bound);
      assert Insert(x, s)[1..] == Insert(x, s[1..]);
    }
  }

  lemma {:induction false} SortingKeepsCounts(values: seq<real>, bound: real)
    ensures AtMost(Sorted(values), bound) == AtMost(values, bound)
    ensures AtLeast(Sorted(values), bound) == AtLeast(values, bound)
  {
    if values != [] {
      SortingKeepsCounts(values[1..], bound);
      InsertCounts(values[0], Sorted(values[1..]), bound);
    }
  }

  lemma {:induction false} CountsAround(s: seq<real>, k: nat, bound: real)
    requires k <= |s|
    requires forall i :: 0 <= i < k ==> s[i] <= bound
    requires forall i :: k <= i < |s| ==> s[i] >= bound
    ensures AtMost(s, bound) >= k && AtLeast(s, bound) >= |s| - k
  {
    if s != [] { CountsAround(s[1..], if k > 0 then k - 1 else 0, bound); }
  }

  /** The percentile is one of the values, with index + 1 values at or below it and n - index at or above. */
  lemma PctIsOrderStatistic(values: seq<real>, p: real)
    requires Pct(values, p).Value?
    ensures
      var v, k := Pct(values, p).value, Index(|values|, p);
      && v in values
      && AtMost(values, v) >= k + 1
      && AtLeast(values, v) >= |values| - k
  {
    hide Sorted, Ascending, AtMost, AtLeast;
    SortedLength(values);
    SortedIsSorted(values);
    var s, k := Sorted(values), Index(|values|, p);
    assert s[k] in multiset(values);
    forall i | 0 <= i <= k ensures s[i] <= s[k] { AscendingAt(s, i, k); }
    forall i | k <= i < |s| ensures s[i] >= s[k] { AscendingAt(s, k, i); }
    SortingKeepsCounts(values, s[k]);
    CountsAround(s, k, s[k]);
    CountsAround(s, k + 1, s[k]);
  }

  /** The order of the measurements does not matter. */
  lemma PctIgnoresOrder(values: seq<real>, shuffled: seq<real>, p: real)
    requires multiset(values) == multiset(shuffled)
    ensures Pct(values, p) == Pct(shuffled, p)
  {
    SortedIsSorted(values);
    SortedIsSorted(shuffled);
    AscendingIsUnique(Sorted(values), Sorted(shuffled));
    SortedLength(values);
    SortedLength(shuffled);
  }

  /** A higher percentile is never a lower value, unless only the lower one counts from the end. */
  lemma PctMonotone(values: seq<real>, p: real, q: real)
    requires values != [] && p <= q
    requires Subscript(|values|, p) < 0 ==> Subscript(|values|, q) < 0
    requires Pct(values, p).Value?
    ensures Pct(values, q).Value? && Pct(values, p).value <= Pct(values, q).value
  {
    hide Subscript;
    SortedLength(values);
    SortedIsSorted(values);
    SubscriptMonotone(|values|, p, q);
    AscendingAt(Sorted(values), Index(|values|, p), Index(|values|, q));
  }

  lemma SubscriptMonotone(n: nat, p: real, q: real)
    requires n > 0 && p <= q
    ensures Subscript(n, p) <= Subscript(n, q) && (p >= 0.0 ==> Subscript(n, p) >= 0)
  {
    hide Position;
    PositionMonotone(n, p, q);
    if p >= 0.0 { PositionMonotone(n, 0.0, p); }
  }

  /** Two values, percentile -100: the subscript is -1, and the last value comes before the first. */
  lemma NegativePercentileWraps(a: real, b: real)
    requires a < b
    ensures Pct([a, b], -100.0) == Value(b) && Pct([a, b], 0.0) == Value(a)
  {
    assert [a, b][1..] == [b] && [b][1..] == [] && Sorted([]) == [] && Sorted([b]) == [b];
    assert Sorted([a, b]) == [a, b];
    assert Position(2, -100.0) == -1.0 && Position(2, 0.0) == 0.0;
  }

  // ----- the reported percentiles

  /** The measurements that were taken. */
  function Taken(measured: seq<Option<real>>): seq<real> {
    if measured == [] then []
    else (if measured[0].Some? then [measured[0].value] else []) + Taken(measured[1..])
  }

  /** The percentile of what was taken, with six digits; both percentiles in use are above zero. */
  function Reported(measured: seq<Option<real>>, p: real): Option<real>
    requires p >= 0.0
  {
    var r := Pct(Taken(measured), p);
    if r.Value? then Some(Round6(r.value)) else None
  }

  lemma TakenOne(m: Option<real>)
    ensures Taken([m]) == if m.Some? then [m.value] else []
  {
    assert [m][1..] == [] && Taken([]) == [];
  }

  lemma {:induction false} TakenJoins(a: seq<Option<real>>, b: seq<Option<real>>)
    ensures Taken(a + b) == Taken(a) + Taken(b)
  {
    if a == [] {
      assert a + b == b && Taken([]) == [];
    } else {
      TakenStep(a[0], a[1..]);
      TakenStep(a[0], a[1..] + b);
      hide Taken;
      TakenJoins(a[1..], b);
      assert a == [a[0]] + a[1..] && a + b == [a[0]] + (a[1..] + b);
      Assoc(if a[0].Some? then [a[0].value] else [], Taken(a[1..]), Taken(b));
    }
  }

  lemma TakenStep(m: Option<real>, rest: seq<Option<real>>)
    ensures Taken([m] + rest) == (if m.Some? then [m.value] else []) + Taken(rest)
  {
    assert ([m] + rest)[1..] == rest;
  }

  lemma {:induction false} TakenIff(measured: seq<Option<real>>)
    ensures Taken(measured) == [] <==> forall i :: 0 <= i < |measured| ==> measured[i].None?
  {
    if measured != [] {
      var rest := measured[1..];
      TakenIff(rest);
      assert forall i :: 0 < i < |measured| ==> measured[i] == rest[i - 1];
      assert forall i :: 0 <= i < |rest| ==> rest[i] == measured[i + 1];
    }
  }

  /** A figure is reported exactly when something was measured, and a higher percentile is never a lower figure. */
  lemma ReportedInOrder(measured: seq<Option<real>>, p: real, q: real)
    requires 0.0 <= p <= q
    ensures Reported(measured, p).Some? <==> exists m :: m in measured && m.Some?
    ensures Reported(measured, p).Some? ==>
              Reported(measured, q).Some? && Reported(measured, p).value <= Reported(measured, q).value
  {
    hide Round6, Pct, Taken, Subscript;
    TakenIff(measured);
    var values := Taken(measured);
    PctKind(values, p);
    if values != [] {
      SubscriptMonotone(|values|, p, q);
      PctMonotone(values, p, q);
      Round6Monotone(Pct(values, p).value, Pct(values, q).value);
    }
  }

  lemma PctKind(values: seq<real>, p: real)
    requires p >= 0.0
    ensures if values == [] then Pct(values, p).NoValue? else Pct(values, p).Value?
  {
    PctRaisesIff(values, p);
  }

  // ----- cost accounting

  datatype Timing = Timing(category: string, input: int, cached: int, output: int)

  /** Price per thousand tokens. */
  datatype Pricing = Pricing(input: real, cached: real, output: real)

  datatype Account = Account(tasks: nat, input: int, cached: int, output: int, cost: real)

  datatype Category = Category(account: Account, costPerTask: Option<real>)

  datatype CostReport =
    CostReport(totalTasks: nat, costPerTask: real, totalCost: real, byCategory: Dict<Category>)

  const ZERO := Account(0, 0, 0, 0, 0.0)

  function Cost(t: Timing, pricing: Pricing): real {
    (t.input as real * pricing.input + t.cached as real * pricing.cached + t.output as real * pricing.output) / 1000.0
  }

  function Plus(a: Account, b: Account): Account {
    Account(a.tasks + b.tasks, a.input + b.input, a.cached + b.cached, a.output + b.output, a.cost + b.cost)
  }

  function Entry(t: Timing, pricing: Pricing): Account {
    Account(1, t.input, t.cached, t.output, Cost(t, pricing))
  }

  function Weight(weights: map<string, real>, category: string): real {
    if category in weights then weights[category] else 1.0
  }

  function WeightedCost(weights: map<string, real>, category: string, cost: real): real {
    Weight(weights, category) * cost
  }

  /** The flat totals over all rows. */
  function Totals(rows: seq<Timing>, pricing: Pricing): Account {
    if rows == [] then ZERO else Plus(Totals(rows[..|rows| - 1], pricing), Entry(rows[|rows| - 1], pricing))
  }

  function Weighted(rows: seq<Timing>, pricing: Pricing, weights: map<string, real>): real {
    if rows == [] then 0.0
    else
      Weighted(rows[..|rows| - 1], pricing, weights)
      + WeightedCost(weights, rows[|rows| - 1].category, Cost(rows[|rows| - 1], pricing))
  }

  function OfCategory(rows: seq<Timing>, category: string): seq<Timing> {
    if rows == [] then []
    else
      OfCategory(rows[..|rows| - 1], category)
      + if rows[|rows| - 1].category == category then [rows[|rows| - 1]] else []
  }

  /** Opens an account on first sight, then adds the row to it. */
  function Post(d: Dict<Account>, t: Timing, pricing: Pricing): Dict<Account> {
    if t.category in d.values then Dict(d.order, d.values[t.category := Plus(d.values[t.category], Entry(t, pricing))])
    else Dict(d.order + [t.category], d.values[t.category := Plus(ZERO, Entry(t, pricing))])
  }

  function ByCategory(rows: seq<Timing>, pricing: Pricing): Dict<Account> {
    if rows == [] then Dict([], map[]) else Post(ByCategory(rows[..|rows| - 1], pricing), rows[|rows| - 1], pricing)
  }

  /** An account with its own cost per task. */
  function Closed(account: Account): Category {
    Category(account, if account.tasks == 0 then None else Some(Round6(account.cost / account.tasks as real)))
  }

  function AllClosed(d: Dict<Account>): Dict<Category> {
    Dict(d.order, map k | k in d.values :: Closed(d.values[k]))
  }

  function ReportOf(rows: seq<Timing>, pricing: Pricing, weights: map<string, real>): CostReport
    requires rows != []
  {
    var total := Weighted(rows, pricing, weights);
    CostReport(|rows|, Round6(total / |rows| as real), Round6(total), AllClosed(ByCategory(rows, pricing)))
  }

  /** The report field by field. */
  lemma ReportIs(rows: seq<Timing>, pricing: Pricing, weights: map<string, real>)
    requires rows != []
    ensures
      var r, total := ReportOf(rows, pricing, weights), Weighted(rows, pricing, weights);
      var accounts := ByCategory(rows, pricing);
      && r.totalTasks == |rows|
      && r.totalCost == Round6(total) && r.costPerTask == Round6(total / |rows| as real)
      && r.byCategory.order == accounts.order && r.byCategory.values.Keys == accounts.values.Keys
      && forall k :: k in accounts.values ==> r.byCategory.values[k].account == accounts.values[k]
  {
    hide Weighted, ByCategory, Round6;
  }

  /** The second loop: closes the accounts in order. */
  method CloseAccounts(d: Dict<Account>) returns (r: Dict<Category>)
    requires d.Valid()
    ensures r == AllClosed(d)
  {
    hide Closed;
    var values: map<string, Category> := map[];
    for i := 0 to |d.order|
      invariant forall k :: k in values <==> k in d.order[..i]
      invariant forall k :: k in values ==> k in d.values && values[k] == Closed(d.values[k])
    {
      var category := CloseAccount(d.values[d.order[i]]);
      values := values[d.order[i] := category];
      assert d.order[..i + 1] == d.order[..i] + [d.order[i]];
    }
    assert d.order[..|d.order|] == d.order;
    assert values == map k | k in d.values :: Closed(d.values[k]);
    r := Dict(d.order, values);
  }

  method CloseAccount(account: Account) returns (category: Category)
    ensures category == Closed(account)
  {
    hide Round6;
    var perTask := if account.tasks != 0 then Some(Round6(account.cost / account.tasks as real)) else None;
    category := Category(account, perTask);
  }

  method CostPerTask(rows: seq<Timing>, pricing: Pricing, weights: map<string, real>) returns (r: Option<CostReport>)
    ensures r == if rows == [] then None else Some(ReportOf(rows, pricing, weights))
  {
    hide Cost, Round6, AllClosed;
    if rows == [] { return None; }
    var total := 0.0;
    var byCategory: Dict<Account> := Dict([], map[]);
    for i := 0 to |rows|
      invariant total == Weighted(rows[..i], pricing, weights) && byCategory == ByCategory(rows[..i], pricing)
    {
      assert rows[..i + 1][..i] == rows[..i];
      var row := rows[i];
      var cost := Cost(row, pricing);
      total := total + Weight(weights, row.category) * cost;
      if row.category !in byCategory.values {
        byCategory := Dict(byCategory.order + [row.category], byCategory.values[row.category := ZERO]);
      }
      var cat := byCategory.values[row.category];
      cat := cat.(tasks := cat.tasks + 1);
      cat := cat.(input := cat.input + row.input);
      cat := cat.(cached := cat.cached + row.cached);
      cat := cat.(output := cat.output + row.output);
      cat := cat.(cost := cat.cost + cost);
      byCategory := Dict(byCategory.order, byCategory.values[row.category := cat]);
    }
    assert rows[..|rows|] == rows;
    AccountsConserve(rows, pricing, weights);
    var closed := CloseAccounts(byCategory);
    r := Some(CostReport(|rows|, Round6(total / |rows| as real), Round6(total), closed));
  }

  // ----- what the figures are

  /** A thousand tokens of one kind cost the price of that kind, and costs add up token by token. */
  lemma CostIs(category: string, pricing: Pricing)
    ensures Cost(Timing(category, 1000, 0, 0), pricing) == pricing.input
    ensures Cost(Timing(category, 0, 1000, 0), pricing) == pricing.cached
    ensures Cost(Timing(category, 0, 0, 1000), pricing) == pricing.output
  {
  }

  lemma CostAdds(s: Timing, t: Timing, pricing: Pricing)
    ensures Cost(Timing(s.category, s.input + t.input, s.cached + t.cached, s.output + t.output), pricing) ==
            Cost(s, pricing) + Cost(t, pricing)
  {
    Distributes(s.input, t.input, pricing.input);
    Distributes(s.cached, t.cached, pricing.cached);
    Distributes(s.output, t.output, pricing.output);
  }

  lemma Distributes(a: int, b: int, price: real)
    ensures (a + b) as real * price == a as real * price + b as real * price
  {
  }

  /** The totals of one row are its own figures, and totals add up figure by figure. */
  lemma TotalsOfOne(t: Timing, pricing: Pricing)
    ensures
      var r := Totals([t], pricing);
      && r.tasks == 1 && r.input == t.input && r.cached == t.cached && r.output == t.output
      && r.cost == Cost(t, pricing)
  {
    hide Cost;
    assert [t][..0] == [] && Totals([], pricing) == ZERO;
  }

  lemma {:induction false} TotalsJoin(a: seq<Timing>, b: seq<Timing>, pricing: Pricing)
    ensures
      var r, s, t := Totals(a + b, pricing), Totals(a, pricing), Totals(b, pricing);
      && r.tasks == s.tasks + t.tasks && r.input == s.input + t.input && r.cached == s.cached + t.cached
      && r.output == s.output + t.output && r.cost == s.cost + t.cost
  {
    hide Cost;
    if b == [] {
      assert a + b == a;
    } else {
      assert (a + b)[..|a + b| - 1] == a + b[..|b| - 1];
      TotalsJoin(a, b[..|b| - 1], pricing);
    }
  }

  /** One row counts its cost times the weight of its category, one when there is none; rows add up. */
  lemma WeightedOfOne(t: Timing, pricing: Pricing, weights: map<string, real>)
    ensures Weighted([t], pricing, weights) ==
            if t.category in weights then weights[t.category] * Cost(t, pricing) else Cost(t, pricing)
  {
    hide Cost;
    assert [t][..0] == [] && Weighted([], pricing, weights) == 0.0;
  }

  lemma {:induction false} WeightedJoins(a: seq<Timing>, b: seq<Timing>, pricing: Pricing, weights: map<string, real>)
    ensures Weighted(a + b, pricing, weights) == Weighted(a, pricing, weights) + Weighted(b, pricing, weights)
  {
    hide Cost, WeightedCost;
    if b == [] {
      assert a + b == a;
    } else {
      assert (a + b)[..|a + b| - 1] == a + b[..|b| - 1];
      WeightedJoins(a, b[..|b| - 1], pricing, weights);
    }
  }

  /** The rows of a category, in order. */
  lemma {:induction false} OfCategoryJoins(a: seq<Timing>, b: seq<Timing>, category: string)
    ensures OfCategory(a + b, category) == OfCategory(a, category) + OfCategory(b, category)
  {
    if b == [] {
      assert a + b == a;
    } else {
      assert (a + b)[..|a + b| - 1] == a + b[..|b| - 1];
      OfCategoryJoins(a, b[..|b| - 1], category);
    }
  }

  lemma OfCategoryOne(t: Timing, category: string)
    ensures OfCategory([t], category) == if t.category == category then [t] else []
  {
    assert [t][..0] == [];
  }

  /** The first row of one category comes before every row of the other. */
  ghost predicate SeenBefore(rows: seq<Timing>, first: string, second: string) {
    exists p :: 0 <= p < |rows| && rows[p].category == first
      && forall q :: 0 <= q <= p ==> rows[q].category != second
  }

  ghost predicate FirstSeen(order: seq<string>, rows: seq<Timing>) {
    forall i, j :: 0 <= i < j < |order| ==> SeenBefore(rows, order[i], order[j])
  }

  lemma SeenBeforeLonger(rows: seq<Timing>, t: Timing, first: string, second: string)
    requires SeenBefore(rows, first, second)
    ensures SeenBefore(rows + [t], first, second)
  {
    var p :| 0 <= p < |rows| && rows[p].category == first && forall q :: 0 <= q <= p ==> rows[q].category != second;
    var longer := rows + [t];
    assert longer[p] == rows[p] && forall q :: 0 <= q <= p ==> longer[q] == rows[q];
  }

  /** Categories are listed exactly as they are first seen. */
  lemma {:induction false} CategoriesInFirstSeenOrder(rows: seq<Timing>, pricing: Pricing)
    ensures FirstSeen(ByCategory(rows, pricing).order, rows)
    ensures forall k :: k in ByCategory(rows, pricing).order <==> exists i :: 0 <= i < |rows| && rows[i].category == k
    ensures forall k :: k in ByCategory(rows, pricing).order <==> k in ByCategory(rows, pricing).values
  {
    hide Cost, Plus, Entry, ZERO, SeenBefore;
    if rows != [] {
      var init, last := rows[..|rows| - 1], rows[|rows| - 1];
      var before, order := ByCategory(init, pricing).order, ByCategory(rows, pricing).order;
      CategoriesInFirstSeenOrder(init, pricing);
      assert rows == init + [last];
      assert forall i :: 0 <= i < |init| ==> init[i] == rows[i];
      forall i, j | 0 <= i < j < |order| ensures SeenBefore(rows, order[i], order[j]) {
        if j < |before| {
          assert order[i] == before[i] && order[j] == before[j];
          SeenBeforeLonger(init, last, order[i], order[j]);
        } else {
          assert order[i] == before[i] && before[i] in before;
          NewCategoryComesLast(init, last, order[i]);
        }
      }
    }
  }

  lemma NewCategoryComesLast(rows: seq<Timing>, t: Timing, category: string)
    requires exists i :: 0 <= i < |rows| && rows[i].category == category
    requires forall i :: 0 <= i < |rows| ==> rows[i].category != t.category
    ensures SeenBefore(rows + [t], category, t.category)
  {
    var p :| 0 <= p < |rows| && rows[p].category == category;
    var longer := rows + [t];
    assert longer[p].category == category && forall q :: 0 <= q <= p ==> longer[q] == rows[q];
  }

  lemma PostAt(d: Dict<Account>, t: Timing, pricing: Pricing, category: string)
    ensures category in Post(d, t, pricing).values <==> category in d.values || category == t.category
    ensures category in Post(d, t, pricing).values ==>
              var before := if category in d.values then d.values[category] else ZERO;
              Post(d, t, pricing).values[category] ==
              if category == t.category then Plus(before, Entry(t, pricing)) else before
  {
    hide Cost, Plus, Entry, ZERO;
  }

  lemma OfCategorySnoc(rows: seq<Timing>, pricing: Pricing, category: string)
    requires rows != []
    ensures
      var init, last := rows[..|rows| - 1], rows[|rows| - 1];
      Totals(OfCategory(rows, category), pricing) ==
      if last.category == category then Plus(Totals(OfCategory(init, category), pricing), Entry(last, pricing))
      else Totals(OfCategory(init, category), pricing)
  {
    hide Cost, Plus, Entry, ZERO;
    var init, last := rows[..|rows| - 1], rows[|rows| - 1];
    var mine := OfCategory(init, category);
    assert (mine + [last])[..|mine|] == mine;
    assert mine + [] == mine;
  }

  /** Each category's account is the flat total of its own rows; a category is there when it has a row. */
  lemma {:induction false} CategoryIsItsRows(rows: seq<Timing>, pricing: Pricing, category: string)
    ensures category in ByCategory(rows, pricing).values <==> OfCategory(rows, category) != []
    ensures category in ByCategory(rows, pricing).values ==>
              ByCategory(rows, pricing).values[category] == Totals(OfCategory(rows, category), pricing)
  {
    hide Plus, Entry, ZERO, Post;
    if rows != [] {
      var init, last := rows[..|rows| - 1], rows[|rows| - 1];
      CategoryIsItsRows(init, pricing, category);
      PostAt(ByCategory(init, pricing), last, pricing, category);
      OfCategorySnoc(rows, pricing, category);
    }
  }

  lemma {:induction false} TasksAreRows(rows: seq<Timing>, pricing: Pricing)
    ensures Totals(rows, pricing).tasks == |rows|
  {
    hide Cost;
    if rows != [] { TasksAreRows(rows[..|rows| - 1], pricing); }
  }

  /** Every reported category has a cost per task: the cost of its own rows over their number. */
  lemma CategoryIsPriced(rows: seq<Timing>, pricing: Pricing, category: string)
    requires category in ByCategory(rows, pricing).values
    ensures
      var own := OfCategory(rows, category);
      && own != []
      && Closed(ByCategory(rows, pricing).values[category]).costPerTask ==
         Some(Round6(Totals(own, pricing).cost / |own| as real))
  {
    hide Round6, ByCategory, OfCategory, Totals;
    CategoryIsItsRows(rows, pricing, category);
    TasksAreRows(OfCategory(rows, category), pricing);
  }

  lemma PostValid(d: Dict<Account>, t: Timing, pricing: Pricing)
    requires d.Valid()
    ensures Post(d, t, pricing).Valid()
  {
    hide Cost;
  }

  /** Sum of the accounts named in an order. */
  function SumAccounts(order: seq<string>, values: map<string, Account>): Account
    requires forall k :: k in order ==> k in values
  {
    if order == [] then ZERO
    else Plus(SumAccounts(order[..|order| - 1], values), values[order[|order| - 1]])
  }

  function SumWeighted(order: seq<string>, values: map<string, Account>, weights: map<string, real>): real
    requires forall k :: k in order ==> k in values
  {
    if order == [] then 0.0
    else
      SumWeighted(order[..|order| - 1], values, weights)
      + WeightedCost(weights, order[|order| - 1], values[order[|order| - 1]].cost)
  }

  lemma {:induction false} SumsIgnoreOthers(
    order: seq<string>, values: map<string, Account>, weights: map<string, real>, k: string, account: Account)
    requires k !in order && forall c :: c in order ==> c in values
    ensures SumAccounts(order, values[k := account]) == SumAccounts(order, values)
    ensures SumWeighted(order, values[k := account], weights) == SumWeighted(order, values, weights)
  {
    hide Plus, WeightedCost;
    if order != [] { SumsIgnoreOthers(order[..|order| - 1], values, weights, k, account); }
  }

  lemma PlusArranges(a: Account, b: Account, c: Account)
    ensures Plus(a, Plus(b, c)) == Plus(Plus(a, b), c) == Plus(Plus(a, c), b)
    ensures Plus(ZERO, a) == a
  {
  }

  lemma WeightDistributes(weights: map<string, real>, k: string, a: real, b: real)
    ensures WeightedCost(weights, k, a + b) == WeightedCost(weights, k, a) + WeightedCost(weights, k, b)
  {
  }

  /** Adding to one account adds exactly that to the sums. */
  lemma {:induction false} SumsAfterUpdate(
    order: seq<string>, values: map<string, Account>, weights: map<string, real>, k: string, added: Account)
    requires Distinct(order) && k in order && forall c :: c in order ==> c in values
    ensures
      var updated := values[k := Plus(values[k], added)];
      && SumAccounts(order, updated) == Plus(SumAccounts(order, values), added)
      && SumWeighted(order, updated, weights) ==
         SumWeighted(order, values, weights) + WeightedCost(weights, k, added.cost)
  {
    var init, last := order[..|order| - 1], order[|order| - 1];
    var total := Plus(values[k], added);
    assert total.cost == values[k].cost + added.cost;
    hide Plus, WeightedCost;
    PlusArranges(SumAccounts(init, values), values[last], added);
    if last == k {
      SumsIgnoreOthers(init, values, weights, k, total);
      WeightDistributes(weights, k, values[k].cost, added.cost);
    } else {
      SumsAfterUpdate(init, values, weights, k, added);
    }
  }

  lemma PostSums(d: Dict<Account>, t: Timing, pricing: Pricing, weights: map<string, real>)
    requires d.Valid()
    ensures
      var p := Post(d, t, pricing);
      && p.Valid()
      && SumAccounts(p.order, p.values) == Plus(SumAccounts(d.order, d.values), Entry(t, pricing))
      && SumWeighted(p.order, p.values, weights) ==
         SumWeighted(d.order, d.values, weights) + WeightedCost(weights, t.category, Cost(t, pricing))
  {
    PostValid(d, t, pricing);
    var k, e := t.category, Entry(t, pricing);
    assert e.cost == Cost(t, pricing);
    hide Cost, WeightedCost, Plus, Entry;
    if k in d.values {
      hide SumAccounts, SumWeighted;
      SumsAfterUpdate(d.order, d.values, weights, k, e);
    } else {
      PlusArranges(e, e, e);
      OpenedSums(d, k, e, weights);
    }
  }

  lemma OpenedSums(d: Dict<Account>, k: string, e: Account, weights: map<string, real>)
    requires d.Valid() && k !in d.values
    ensures
      var order, values := d.order + [k], d.values[k := e];
      && SumAccounts(order, values) == Plus(SumAccounts(d.order, d.values), e)
      && SumWeighted(order, values, weights) ==
         SumWeighted(d.order, d.values, weights) + WeightedCost(weights, k, e.cost)
  {
    hide WeightedCost, Plus;
    var order := d.order + [k];
    assert order[..|order| - 1] == d.order && order[|order| - 1] == k;
    SumsIgnoreOthers(d.order, d.values, weights, k, e);
  }

  /**
   Nothing is lost or counted twice: over all categories the accounts add up to the flat totals,
   and the weighted total is the sum of weight times category cost.
   */
  lemma {:induction false} AccountsConserve(rows: seq<Timing>, pricing: Pricing, weights: map<string, real>)
    ensures
      var d := ByCategory(rows, pricing);
      && d.Valid()
      && SumAccounts(d.order, d.values) == Totals(rows, pricing)
      && Totals(rows, pricing).tasks == |rows|
      && SumWeighted(d.order, d.values, weights) == Weighted(rows, pricing, weights)
  {
    hide Cost, Post, WeightedCost;
    if rows != [] {
      AccountsConserve(rows[..|rows| - 1], pricing, weights);
      PostSums(ByCategory(rows[..|rows| - 1], pricing), rows[|rows| - 1], pricing, weights);
    }
  }
}
