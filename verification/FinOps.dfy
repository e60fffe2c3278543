/** The cost summary: calls and tokens per provider, and costs that are rounded to eight
    decimals after every addition, against totals that are rounded once. */
module FinOps {
  import opened Wrappers

  datatype Usage = Usage(provider: string, inputTokens: int, outputTokens: int, totalTokens: int, cost: real)

  datatype Row = Row(provider: string, calls: nat, tokens: int, cost: real)

  datatype Totals = Totals(inputTokens: int, outputTokens: int, totalTokens: int, cost: real, calls: nat, failedCalls: nat)

  // ---------- rounding ----------

  const UNITS := 100_000_000.0   // units of the eighth decimal in one
  const HALF_UNIT := 0.000_000_005

  /** Nearest whole number, ties to the even one. */
  function Nearest(x: real): int {
    var low := x.Floor;
    var part := x - low as real;
    if part < 0.5 then low
    else if part > 0.5 then low + 1
    else if low % 2 == 0 then low else low + 1
  }

  /** `round(x, 8)` */
  function Round8(x: real): real {
    Nearest(x * UNITS) as real / UNITS
  }

  /** `x` is within `bound` of `y`. */
  predicate Near(x: real, y: real, bound: real) {
    -bound <= x - y <= bound
  }

  /** A whole number of units of the eighth decimal. */
  predicate IsExact(x: real) {
    (x * UNITS).Floor as real == x * UNITS
  }

  /** Halfway between two whole numbers of units, the even one is taken. */
  lemma TiesGoToEven(n: int)
    ensures Nearest(n as real + 0.5) == if n % 2 == 0 then n else n + 1
    ensures Nearest(n as real + 0.5) % 2 == 0
  {
    assert (n as real + 0.5).Floor == n;
  }

  /** Rounding moves a number by half a unit at most, to a whole number of units, and such
      a number not at all. */
  lemma RoundIsNear(x: real)
    ensures Near(Round8(x), x, HALF_UNIT)
    ensures IsExact(Round8(x))
    ensures IsExact(x) ==> Round8(x) == x
  {
    var n := Nearest(x * UNITS);
    assert Near(n as real, x * UNITS, 0.5);
    assert Round8(x) * UNITS == n as real;
  }

  // ---------- the summary ----------

  function Costs(usage: seq<Usage>): real {
    if usage == [] then 0.0 else Costs(usage[..|usage| - 1]) + usage[|usage| - 1].cost
  }

  function Inputs(usage: seq<Usage>): int {
    if usage == [] then 0 else Inputs(usage[..|usage| - 1]) + usage[|usage| - 1].inputTokens
  }

  function Outputs(usage: seq<Usage>): int {
    if usage == [] then 0 else Outputs(usage[..|usage| - 1]) + usage[|usage| - 1].outputTokens
  }

  function Tokens(usage: seq<Usage>): int {
    if usage == [] then 0 else Tokens(usage[..|usage| - 1]) + usage[|usage| - 1].totalTokens
  }

  /** The sums are over the calls, each call once, wherever it stands: what two lists of
      calls add is added, and one call adds its own numbers. */
  lemma {:induction false} SumsAdd(a: seq<Usage>, b: seq<Usage>)
    ensures Inputs(a + b) == Inputs(a) + Inputs(b) && Outputs(a + b) == Outputs(a) + Outputs(b)
    ensures Tokens(a + b) == Tokens(a) + Tokens(b) && Costs(a + b) == Costs(a) + Costs(b)
    ensures forall u: Usage ::
      Inputs([u]) == u.inputTokens && Outputs([u]) == u.outputTokens && Tokens([u]) == u.totalTokens && Costs([u]) == u.cost
  {
    if b == [] {
      assert a + b == a;
    } else {
      var n, all := |b| - 1, a + b;
      SumsAdd(a, b[..n]);
      assert all[..|all| - 1] == a + b[..n] && all[|all| - 1] == b[n];
    }
    forall u: Usage
      ensures Inputs([u]) == u.inputTokens && Outputs([u]) == u.outputTokens && Tokens([u]) == u.totalTokens && Costs([u]) == u.cost
    {
      assert [u][..0] == [];
    }
  }

  /** The provider's row, made if it is not there, with one more call. */
  function Added(rows: seq<Row>, u: Usage): seq<Row> {
    if rows == [] then [Row(u.provider, 1, u.totalTokens, Round8(0.0 + u.cost))]
    else if rows[0].provider == u.provider
    then [Row(u.provider, rows[0].calls + 1, rows[0].tokens + u.totalTokens, Round8(rows[0].cost + u.cost))] + rows[1..]
    else [rows[0]] + Added(rows[1..], u)
  }

  function ByProvider(usage: seq<Usage>): seq<Row> {
    if usage == [] then [] else Added(ByProvider(usage[..|usage| - 1]), usage[|usage| - 1])
  }

  function SumCalls(rows: seq<Row>): nat {
    if rows == [] then 0 else rows[0].calls + SumCalls(rows[1..])
  }

  function SumTokens(rows: seq<Row>): int {
    if rows == [] then 0 else rows[0].tokens + SumTokens(rows[1..])
  }

  function SumCosts(rows: seq<Row>): real {
    if rows == [] then 0.0 else rows[0].cost + SumCosts(rows[1..])
  }

  ghost predicate AllExact(rows: seq<Row>) {
    forall r :: r in rows ==> IsExact(r.cost)
  }

  lemma ExactSum(a: real, b: real)
    requires IsExact(a) && IsExact(b)
    ensures IsExact(a + b)
  {
    assert (a + b) * UNITS == ((a * UNITS).Floor + (b * UNITS).Floor) as real;
  }

  lemma {:induction false} AddedCounts(rows: seq<Row>, u: Usage)
    ensures SumCalls(Added(rows, u)) == SumCalls(rows) + 1
    ensures SumTokens(Added(rows, u)) == SumTokens(rows) + u.totalTokens
  {
    hide Round8;
    var rows' := Added(rows, u);
    if rows == [] {
    } else if rows[0].provider == u.provider {
      assert rows'[1..] == rows[1..];
    } else {
      AddedCounts(rows[1..], u);
      assert rows'[1..] == Added(rows[1..], u);
    }
  }

  lemma RoundedSum(a: real, c: real)
    requires IsExact(a)
    ensures Near(Round8(a + c), a + c, HALF_UNIT) && IsExact(Round8(a + c))
    ensures IsExact(c) ==> Round8(a + c) == a + c
  {
    RoundIsNear(a + c);
    if IsExact(c) {
      ExactSum(a, c);
    }
  }

  /** One more call changes the sum of costs by its cost within half a unit; exactly, if
      its cost is a whole number of units. */
  lemma {:induction false} AddedCosts(rows: seq<Row>, u: Usage)
    requires AllExact(rows)
    ensures AllExact(Added(rows, u))
    ensures Near(SumCosts(Added(rows, u)), SumCosts(rows) + u.cost, HALF_UNIT)
    ensures IsExact(u.cost) ==> SumCosts(Added(rows, u)) == SumCosts(rows) + u.cost
  {
    hide Round8, IsExact, AllExact;
    var rows' := Added(rows, u);
    NoRowsAreExact();
    ExactZero();
    if rows == [] {
      RoundedSum(0.0, u.cost);
      ConsCosts(rows'[0], []);
      assert rows' == [rows'[0]] + [];
    } else {
      TailIsExact(rows);
      if rows[0].provider == u.provider {
        RoundedSum(rows[0].cost, u.cost);
        ConsCosts(rows'[0], rows[1..]);
      } else {
        AddedCosts(rows[1..], u);
        ConsCosts(rows[0], Added(rows[1..], u));
      }
    }
  }

  lemma TailIsExact(rows: seq<Row>)
    requires rows != [] && AllExact(rows)
    ensures IsExact(rows[0].cost) && AllExact(rows[1..])
  {
    hide IsExact;
    assert rows[0] in rows && forall r :: r in rows[1..] ==> r in rows;
  }

  lemma NoRowsAreExact()
    ensures AllExact([])
  {
  }

  lemma ConsCosts(row: Row, rows: seq<Row>)
    requires IsExact(row.cost) && AllExact(rows)
    ensures AllExact([row] + rows) && SumCosts([row] + rows) == row.cost + SumCosts(rows)
  {
    assert ([row] + rows)[1..] == rows;
  }

  lemma ExactZero()
    ensures IsExact(0.0)
  {
  }

  /** Calls and tokens per provider add up to the totals. */
  lemma {:induction false} CountsAddUp(usage: seq<Usage>)
    ensures SumCalls(ByProvider(usage)) == |usage|
    ensures SumTokens(ByProvider(usage)) == Tokens(usage)
  {
    hide Added;
    if usage != [] {
      var init := usage[..|usage| - 1];
      CountsAddUp(init);
      AddedCounts(ByProvider(init), usage[|usage| - 1]);
    }
  }

  lemma OneMore(n: nat)
    ensures n as real * HALF_UNIT + HALF_UNIT == (n + 1) as real * HALF_UNIT
  {
  }

  /** Costs per provider add up to the unrounded total within half a unit per call. */
  lemma {:induction false} CostsAddUp(usage: seq<Usage>)
    ensures AllExact(ByProvider(usage))
    ensures Near(SumCosts(ByProvider(usage)), Costs(usage), |usage| as real * HALF_UNIT)
  {
    hide Added, IsExact;
    if usage != [] {
      var init := usage[..|usage| - 1];
      CostsAddUp(init);
      AddedCosts(ByProvider(init), usage[|usage| - 1]);
      OneMore(|init|);
    }
  }

  ghost predicate ExactCosts(usage: seq<Usage>) {
    forall u :: u in usage ==> IsExact(u.cost)
  }

  lemma {:induction false} ExactCostsAddUp(usage: seq<Usage>)
    requires ExactCosts(usage)
    ensures SumCosts(ByProvider(usage)) == Costs(usage) && IsExact(Costs(usage))
  {
    hide Added, IsExact;
    if usage == [] {
      ExactZero();
    } else {
      var init, last := usage[..|usage| - 1], usage[|usage| - 1];
      assert last in usage && forall u :: u in init ==> u in usage;
      ExactCostsAddUp(init);
      CostsAddUp(init);
      AddedCosts(ByProvider(init), last);
      ExactSum(Costs(init), last.cost);
    }
  }

  /** The rounded per-provider costs sum to within (n + 1) half units of the once-rounded
      total over n calls; with exact costs there is no difference. */
  lemma CostsAgree(usage: seq<Usage>)
    ensures Near(SumCosts(ByProvider(usage)), Round8(Costs(usage)), (|usage| + 1) as real * HALF_UNIT)
    ensures ExactCosts(usage) ==> SumCosts(ByProvider(usage)) == Round8(Costs(usage))
  {
    hide IsExact, Round8, ByProvider;
    CostsAddUp(usage);
    RoundIsNear(Costs(usage));
    OneMore(|usage|);
    if ExactCosts(usage) {
      ExactCostsAddUp(usage);
    }
  }

  // ---------- one row per provider ----------

  function WithCall(row: Row, u: Usage): Row {
    Row(row.provider, row.calls + 1, row.tokens + u.totalTokens, Round8(row.cost + u.cost))
  }

  function RowFor(rows: seq<Row>, provider: string): Option<Row> {
    if rows == [] then None else if rows[0].provider == provider then Some(rows[0]) else RowFor(rows[1..], provider)
  }

  ghost predicate OneEach(rows: seq<Row>) {
    rows == [] || (RowFor(rows[1..], rows[0].provider).None? && OneEach(rows[1..]))
  }

  /** A call goes into its provider's row and no other. */
  lemma {:induction false} AddedRow(rows: seq<Row>, u: Usage, provider: string)
    ensures RowFor(Added(rows, u), provider) ==
      if u.provider == provider then Some(WithCall(RowFor(rows, provider).GetOr(Row(provider, 0, 0, 0.0)), u))
      else RowFor(rows, provider)
  {
    hide Round8;
    if rows != [] {
      if rows[0].provider == u.provider {
        assert Added(rows, u)[1..] == rows[1..];
      } else {
        AddedRow(rows[1..], u, provider);
        assert Added(rows, u)[1..] == Added(rows[1..], u);
      }
    }
  }

  lemma {:induction false} AddedOneEach(rows: seq<Row>, u: Usage)
    requires OneEach(rows)
    ensures OneEach(Added(rows, u))
  {
    hide Round8;
    if rows != [] {
      if rows[0].provider == u.provider {
        assert Added(rows, u)[1..] == rows[1..];
      } else {
        AddedOneEach(rows[1..], u);
        AddedRow(rows[1..], u, rows[0].provider);
        assert Added(rows, u)[1..] == Added(rows[1..], u);
      }
    }
  }

  /** The calls to one provider, in order. */
  function CallsTo(usage: seq<Usage>, provider: string): seq<Usage> {
    if usage == [] then [] else
      var last := usage[|usage| - 1];
      CallsTo(usage[..|usage| - 1], provider) + if last.provider == provider then [last] else []
  }

  ghost predicate RowRight(row: Option<Row>, provider: string, calls: seq<Usage>) {
    if calls == [] then row.None? else
      && row.Some? && row.value.provider == provider
      && row.value.calls == |calls| && row.value.tokens == Tokens(calls)
      && IsExact(row.value.cost) && Near(row.value.cost, Costs(calls), |calls| as real * HALF_UNIT)
  }

  lemma RowRightPush(row: Option<Row>, provider: string, calls: seq<Usage>, u: Usage)
    requires RowRight(row, provider, calls)
    ensures RowRight(Some(WithCall(row.GetOr(Row(provider, 0, 0, 0.0)), u)), provider, calls + [u])
  {
    hide Round8, IsExact;
    var before := row.GetOr(Row(provider, 0, 0, 0.0));
    ExactZero();
    assert Costs([]) == 0.0 && Tokens([]) == 0;
    assert Near(before.cost, Costs(calls), |calls| as real * HALF_UNIT);
    RoundedSum(before.cost, u.cost);
    OneMore(|calls|);
    assert (calls + [u])[..|calls|] == calls;
  }

  /** Each provider that was called has one row: the number and tokens of its calls, and
      their cost within half a unit per call. */
  lemma {:induction false} RowsAreRight(usage: seq<Usage>, provider: string)
    ensures OneEach(ByProvider(usage))
    ensures RowRight(RowFor(ByProvider(usage), provider), provider, CallsTo(usage, provider))
  {
    hide Added, OneEach, RowFor, RowRight, WithCall;
    if usage == [] {
      NoRows(provider);
    } else {
      var init, last := usage[..|usage| - 1], usage[|usage| - 1];
      RowsAreRight(init, provider);
      AddedOneEach(ByProvider(init), last);
      AddedRow(ByProvider(init), last, provider);
      if last.provider == provider {
        RowRightPush(RowFor(ByProvider(init), provider), provider, CallsTo(init, provider), last);
      } else {
        assert CallsTo(usage, provider) == CallsTo(init, provider) + [] == CallsTo(init, provider);
      }
    }
  }

  lemma NoRows(provider: string)
    ensures OneEach([]) && RowRight(RowFor([], provider), provider, [])
  {
  }

  // ---------- the loop ----------

  method BuildFinopsSummary(usage: seq<Usage>, errors: seq<string>) returns (totals: Totals, byProvider: seq<Row>)
    ensures totals == Totals(Inputs(usage), Outputs(usage), Tokens(usage), Round8(Costs(usage)), |usage|, |errors|)
    ensures byProvider == ByProvider(usage)
    ensures SumCalls(byProvider) == totals.calls && SumTokens(byProvider) == totals.totalTokens
    ensures Near(SumCosts(byProvider), totals.cost, (totals.calls + 1) as real * HALF_UNIT)
  {
    hide Round8, Added, Near;
    var inputTokens, outputTokens, totalTokens, cost := 0, 0, 0, 0.0;
    for k := 0 to |usage|
      invariant inputTokens == Inputs(usage[..k]) && outputTokens == Outputs(usage[..k])
      invariant totalTokens == Tokens(usage[..k]) && cost == Costs(usage[..k])
    {
      assert usage[..k + 1][..k] == usage[..k];
      inputTokens := inputTokens + usage[k].inputTokens;
      outputTokens := outputTokens + usage[k].outputTokens;
      totalTokens := totalTokens + usage[k].totalTokens;
      cost := cost + usage[k].cost;
    }
    assert usage[..|usage|] == usage;
    totals := Totals(inputTokens, outputTokens, totalTokens, Round8(cost), |usage|, |errors|);
    byProvider := [];
    for k := 0 to |usage|
      invariant byProvider == ByProvider(usage[..k])
    {
      assert usage[..k + 1][..k] == usage[..k];
      byProvider := AddCall(byProvider, usage[k]);
    }
    assert usage[..|usage|] == usage;
    CountsAddUp(usage);
    CostsAgree(usage);
  }

  lemma AddedSkips(rows: seq<Row>, u: Usage, k: nat)
    requires k < |rows| && rows[k].provider != u.provider
    ensures rows[..k] + Added(rows[k..], u) == rows[..k + 1] + Added(rows[k + 1..], u)
  {
    assert rows[k..][1..] == rows[k + 1..] && rows[..k] + [rows[k]] == rows[..k + 1];
  }

  lemma AddedHere(rows: seq<Row>, u: Usage, k: nat)
    requires k < |rows| && rows[k].provider == u.provider
    ensures rows[..k] + Added(rows[k..], u) == rows[k := WithCall(rows[k], u)]
  {
    assert rows[k..][1..] == rows[k + 1..];
  }

  lemma AddedLast(rows: seq<Row>, u: Usage)
    ensures rows[..|rows|] + Added(rows[|rows|..], u) == rows + [WithCall(Row(u.provider, 0, 0, 0.0), u)]
  {
  }

  /** Finds the provider's row, or appends one, and adds the call to it. */
  method AddCall(rows: seq<Row>, u: Usage) returns (rows': seq<Row>)
    ensures rows' == Added(rows, u)
  {
    hide Round8, Added;
    var k := 0;
    assert Added(rows, u) == rows[..0] + Added(rows[0..], u);
    while k < |rows| && rows[k].provider != u.provider
      invariant k <= |rows|
      invariant Added(rows, u) == rows[..k] + Added(rows[k..], u)
    {
      AddedSkips(rows, u, k);
      k := k + 1;
    }
    if k < |rows| {
      AddedHere(rows, u, k);
      rows' := rows[k := WithCall(rows[k], u)];
    } else {
      AddedLast(rows, u);
      rows' := rows + [WithCall(Row(u.provider, 0, 0, 0.0), u)];
    }
  }
}
