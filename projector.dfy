/** The scenario projector of the temperature dashboard: from the observed
    table, the 2022 baseline of each G7 country is projected over 2023..2030
    by compound growth of its gas, coal and oil emissions, at the three
    percentages the user chose. */
module Projector {
  import opened Sequences
  import opened Growth

  datatype Option<T> = None | Some(value: T)

  /** One row of the observed table: a country's emissions per source in one
      year and, when it is known, its temperature increase. */
  datatype Observation = Observation(
    country: string, year: int, gas: real, coal: real, oil: real, temp: Option<real>)

  /** One synthetic input row for the predictor, in the column order the
      projection builds it. */
  datatype Row = Row(year: int, country: string, gas: real, coal: real, oil: real)

  /** The three slider values: yearly percentage change of gas, coal and oil
      emissions. */
  datatype Scenario = Scenario(gasPct: int, coalPct: int, oilPct: int)

  const BaselineYear: int := 2022
  const G7: seq<string> :=
    ["Canada", "France", "Germany", "Italy", "Japan", "United Kingdom", "United States"]
  /** The projected years 2023, 2024, ..., 2030. Each country with a
      baseline contributes one block of |Years| == 8 rows; the closed forms
      below (block `k / 8`, offset `k % 8`) write that width as 8. */
  const Years: seq<int> := [2023, 2024, 2025, 2026, 2027, 2028, 2029, 2030]

  /** The scenario is one the sliders can produce. */
  predicate InSliders(s: Scenario)
  {
    InSliderRange(s.gasPct) && InSliderRange(s.coalPct) && InSliderRange(s.oilPct)
  }

  /** Position of `c` in the G7 list (|G7| when it is not there). */
  function Rank(c: string): (r: nat)
    ensures r <= |G7|
    ensures r < |G7| <==> c in G7
    ensures r < |G7| ==> G7[r] == c
  {
    IndexOf(G7, c)
  }

  function IndexOf(s: seq<string>, c: string): (r: nat)
    ensures r <= |s|
    ensures r < |s| <==> c in s
    ensures r < |s| ==> s[r] == c && c !in s[..r]
  {
    if s == [] then 0
    else if s[0] == c then 0
    else 1 + IndexOf(s[1..], c)
  }

  // ---------------------------------------------------------------------
  // Baseline selection, as the dashboard selects it from the table

  predicate IsBaselineRow(o: Observation)
  {
    o.year == BaselineYear && o.country in G7
  }

  /** The rows of year 2022 whose country is in the G7 list, in table order. */
  function Baseline(df: seq<Observation>): seq<Observation>
  {
    Filter(df, IsBaselineRow)
  }

  function CountryIs(c: string): Observation -> bool
  {
    (o: Observation) => o.country == c
  }

  /** The rows of `table` for country `c`, in table order. */
  function RowsOf(table: seq<Observation>, c: string): seq<Observation>
  {
    Filter(table, CountryIs(c))
  }

  // ---------------------------------------------------------------------
  // The same lookup, stated row by row

  /** `o` is a row of country `c` for the baseline year. */
  predicate RowFor(o: Observation, c: string)
  {
    o.year == BaselineYear && o.country == c
  }

  /** The first row of `df` that is `c`'s row for the baseline year. */
  function FirstRow(df: seq<Observation>, c: string): (r: Option<Observation>)
    ensures r.Some? ==> RowFor(r.value, c)
  {
    if df == [] then None
    else if RowFor(df[0], c) then Some(df[0])
    else FirstRow(df[1..], c)
  }

  /** The baseline row the projection uses for `c`: the first 2022 row of
      `c` when `c` is a G7 country, none otherwise. */
  function BaselineRow(df: seq<Observation>, c: string): (r: Option<Observation>)
    ensures r.Some? ==> c in G7 && RowFor(r.value, c)
  {
    if c in G7 then FirstRow(df, c) else None
  }

  predicate HasBaseline(df: seq<Observation>, c: string)
  {
    BaselineRow(df, c).Some?
  }

  function BaselineOf(df: seq<Observation>, c: string): Observation
    requires HasBaseline(df, c)
  {
    BaselineRow(df, c).value
  }

  function IsBaselineRowOf(c: string): Observation -> bool
  {
    (o: Observation) => IsBaselineRow(o) && o.country == c
  }

  /** For a G7 country, the baseline-year rows of that country, selected
      directly from the table, start with its first such row. */
  lemma {:induction false} FirstRowSelected(df: seq<Observation>, c: string)
    requires c in G7
    ensures |Filter(df, IsBaselineRowOf(c))| > 0 <==> FirstRow(df, c).Some?
    ensures FirstRow(df, c).Some? ==> Filter(df, IsBaselineRowOf(c))[0] == FirstRow(df, c).value
  {
    var p := IsBaselineRowOf(c);
    FirstRowIsFirst(df, c);
    if FirstRow(df, c).Some? {
      var i :| 0 <= i < |df| && df[i] == FirstRow(df, c).value
        && forall j :: 0 <= j < i ==> !RowFor(df[j], c);
      FilterHead(df, p, i);
    } else {
      FilterDropsAll(df, p);
    }
  }

  /** The dashboard's lookup (the G7 rows of 2022, then the rows of one
      country among them, then the first of those) finds a row exactly when
      the country has a baseline, and the row it finds is `BaselineOf`. */
  lemma BaselineLookup(df: seq<Observation>, c: string)
    ensures |RowsOf(Baseline(df), c)| > 0 <==> HasBaseline(df, c)
    ensures HasBaseline(df, c) ==> RowsOf(Baseline(df), c)[0] == BaselineOf(df, c)
  {
    if c in G7 {
      FilterFilter(df, IsBaselineRow, CountryIs(c), IsBaselineRowOf(c));
      FirstRowSelected(df, c);
    } else {
      var b := Baseline(df);
      forall i | 0 <= i < |b| ensures !CountryIs(c)(b[i]) {
        assert IsBaselineRow(b[i]);
      }
      FilterDropsAll(b, CountryIs(c));
    }
  }

  /** The countries of `cs` that have a baseline, in the order of `cs`. */
  function PresentAmong(df: seq<Observation>, cs: seq<string>): (r: seq<string>)
    ensures |r| <= |cs|
    ensures forall i :: 0 <= i < |r| ==> HasBaseline(df, r[i])
  {
    if cs == [] then []
    else PresentAmong(df, cs[..|cs| - 1]) + (if HasBaseline(df, cs[|cs| - 1]) then [cs[|cs| - 1]] else [])
  }

  /** The G7 countries that have a baseline, in G7 order. */
  function Present(df: seq<Observation>): seq<string>
  {
    PresentAmong(df, G7)
  }

  // ---------------------------------------------------------------------
  // Row building

  /** The projected input row of `country` for `year`, grown from baseline
      row `b` at the scenario's three percentages. */
  function ProjectedRow(country: string, b: Observation, s: Scenario, year: int): Row
    requires year >= BaselineYear
  {
    var k := year - BaselineYear;
    Row(year, country, Compound(b.gas, s.gasPct, k), Compound(b.coal, s.coalPct, k),
        Compound(b.oil, s.oilPct, k))
  }

  /** The rows of `country` for the first `n` projected years. */
  function CountryRows(country: string, b: Observation, s: Scenario, n: nat): (r: seq<Row>)
    requires n <= |Years|
    ensures |r| == n
  {
    if n == 0 then []
    else CountryRows(country, b, s, n - 1) + [ProjectedRow(country, b, s, Years[n - 1])]
  }

  /** The `j`-th of a country's rows is its row for the `j`-th projected
      year. */
  lemma {:induction false} CountryRowsAt(country: string, b: Observation, s: Scenario, n: nat, j: nat)
    requires j < n <= |Years|
    ensures CountryRows(country, b, s, n)[j] == ProjectedRow(country, b, s, Years[j])
  {
    if j < n - 1 {
      CountryRowsAt(country, b, s, n - 1, j);
    }
  }

  /** The rows a country contributes: all eight years, grown from its
      baseline row, when it has one; none otherwise. */
  function CountryBlock(df: seq<Observation>, c: string, s: Scenario): seq<Row>
  {
    match BaselineRow(df, c)
    case None => []
    case Some(b) => CountryRows(c, b, s, |Years|)
  }

  /** The rows built for the countries `cs`, in the order of `cs`. */
  function ProjectOver(df: seq<Observation>, s: Scenario, cs: seq<string>): seq<Row>
  {
    if cs == [] then []
    else ProjectOver(df, s, cs[..|cs| - 1]) + CountryBlock(df, cs[|cs| - 1], s)
  }

  /** The whole projection: every G7 country in list order. */
  function Projection(df: seq<Observation>, s: Scenario): seq<Row>
  {
    ProjectOver(df, s, G7)
  }

  /** Builds the predictor's input rows step by step: for each G7 country in
      order, select its rows among the baseline rows and, when there is one,
      append a row per projected year grown from the first of them. */
  method Project(df: seq<Observation>, s: Scenario) returns (inputRows: seq<Row>)
    ensures inputRows == Projection(df, s)
  {
    var baseline := Baseline(df);
    inputRows := [];
    for i := 0 to |G7|
      invariant inputRows == ProjectOver(df, s, G7[..i])
    {
      var country := G7[i];
      var countryBaseline := RowsOf(baseline, country);
      BaselineLookup(df, country);
      ProjectOverStep(df, s, G7, i);
      ghost var done := inputRows;
      if |countryBaseline| > 0 {
        var b := countryBaseline[0];
        for j := 0 to |Years|
          invariant inputRows == done + CountryRows(country, b, s, j)
        {
          YearsAt(j);
          inputRows := inputRows + [ProjectedRow(country, b, s, Years[j])];
        }
      }
    }
    assert G7[..|G7|] == G7;
  }

  /** Building for one more country of `cs` appends that country's block. */
  lemma ProjectOverStep(df: seq<Observation>, s: Scenario, cs: seq<string>, i: nat)
    requires i < |cs|
    ensures ProjectOver(df, s, cs[..i + 1]) == ProjectOver(df, s, cs[..i]) + CountryBlock(df, cs[i], s)
  {
    assert cs[..i + 1][..i] == cs[..i];
  }

  // ---------------------------------------------------------------------
  // Properties of the projection

  /** The `j`-th projected year is `j + 1` years after the baseline. */
  lemma YearsAt(j: nat)
    requires j < |Years|
    ensures |Years| == 8
    ensures Years[j] == BaselineYear + 1 + j
  {
  }

  lemma DivModBlock(q: nat, j: nat, k: nat)
    requires j < 8 && k == 8 * q + j
    ensures k / 8 == q && k % 8 == j
  {
  }

  /** The position after `k`, when `k` is not the last of its block of
      eight, is the next offset in the same block. */
  lemma NextInBlock(k: nat)
    requires k % 8 < 7
    ensures (k + 1) / 8 == k / 8 && (k + 1) % 8 == k % 8 + 1
  {
  }

  /** The rows built for `cs` number eight per country of `cs` that has a
      baseline. */
  lemma {:induction false} ProjectOverLength(df: seq<Observation>, s: Scenario, cs: seq<string>)
    ensures |ProjectOver(df, s, cs)| == |Years| * |PresentAmong(df, cs)|
  {
    if cs != [] {
      var init, c := cs[..|cs| - 1], cs[|cs| - 1];
      ProjectOverLength(df, s, init);
      CountryBlockLength(df, c, s);
      assert ProjectOver(df, s, cs) == ProjectOver(df, s, init) + CountryBlock(df, c, s);
      assert PresentAmong(df, cs) == PresentAmong(df, init) + (if HasBaseline(df, c) then [c] else []);
    }
  }

  /** A country contributes eight rows when it has a baseline, none
      otherwise. */
  lemma CountryBlockLength(df: seq<Observation>, c: string, s: Scenario)
    ensures |CountryBlock(df, c, s)| == if HasBaseline(df, c) then |Years| else 0
  {
  }


  /** Closed form of the `k`-th row built for `cs`: it belongs to the
      (k/8)-th country of `cs` that has a baseline, and is that country's row
      for the (k%8)-th projected year, grown from its baseline row. */
  lemma {:induction false} ProjectOverAt(df: seq<Observation>, s: Scenario, cs: seq<string>, k: nat)
    requires k < |ProjectOver(df, s, cs)|
    ensures var q := PresentAmong(df, cs);
      && k / 8 < |q|
      && HasBaseline(df, q[k / 8])
      && ProjectOver(df, s, cs)[k] == ProjectedRow(q[k / 8], BaselineOf(df, q[k / 8]), s, Years[k % 8])
  {
    var q := PresentAmong(df, cs);
    var init := cs[..|cs| - 1];
    var c := cs[|cs| - 1];
    var p' := ProjectOver(df, s, init);
    var q' := PresentAmong(df, init);
    ProjectOverLength(df, s, init);
    if k < |p'| {
      ProjectOverAt(df, s, init, k);
      assert ProjectOver(df, s, cs)[k] == p'[k];
      assert q[k / 8] == q'[k / 8];
    } else {
      assert HasBaseline(df, c) && q == q' + [c];
      DivModBlock(|q'|, k - |p'|, k);
      assert ProjectOver(df, s, cs)[k] == CountryRows(c, BaselineOf(df, c), s, |Years|)[k - |p'|];
      CountryRowsAt(c, BaselineOf(df, c), s, |Years|, k - |p'|);
    }
  }

  /** Where every row of the projection comes from: its country is the
      (k/8)-th present country and its year the (k%8)-th projected year, so
      strictly after the baseline year, with an exponent between 1 and 8. */
  lemma ProjectionRow(df: seq<Observation>, s: Scenario, k: nat)
    requires k < |Projection(df, s)|
    ensures var r := Projection(df, s)[k];
      && k / 8 < |Present(df)|
      && r.country == Present(df)[k / 8]
      && HasBaseline(df, r.country)
      && r.year == 2023 + k % 8
      && BaselineYear < r.year <= 2030
      && 1 <= r.year - BaselineYear <= 8
  {
    ProjectOverAt(df, s, G7, k);
    YearsAt(k % 8);
  }

  /** Every projected feature is the country's first baseline value grown
      at its own percentage for as many years as the row lies after the
      baseline year. */
  lemma ProjectionValues(df: seq<Observation>, s: Scenario, k: nat)
    requires k < |Projection(df, s)|
    ensures var r := Projection(df, s)[k];
      && HasBaseline(df, r.country)
      && r.year > BaselineYear
      && r.gas == Compound(BaselineOf(df, r.country).gas, s.gasPct, r.year - BaselineYear)
      && r.coal == Compound(BaselineOf(df, r.country).coal, s.coalPct, r.year - BaselineYear)
      && r.oil == Compound(BaselineOf(df, r.country).oil, s.oilPct, r.year - BaselineYear)
  {
    ProjectOverAt(df, s, G7, k);
    var c := Present(df)[k / 8];
    var r := ProjectedRow(c, BaselineOf(df, c), s, Years[k % 8]);
    assert r.country == c && r.year == Years[k % 8];
  }

  /** The projection has exactly one block of eight rows per G7 country with
      a baseline. */
  lemma ProjectionLength(df: seq<Observation>, s: Scenario)
    ensures |Projection(df, s)| == 8 * |Present(df)|
  {
    ProjectOverLength(df, s, G7);
  }

  /** Every present country gets a row for every projected year, at a known
      position: block `i`, offset `j`. */
  lemma ProjectionCovers(df: seq<Observation>, s: Scenario, i: nat, j: nat)
    requires i < |Present(df)| && j < |Years|
    ensures 8 * i + j < |Projection(df, s)|
    ensures Projection(df, s)[8 * i + j].country == Present(df)[i]
    ensures Projection(df, s)[8 * i + j].year == Years[j]
  {
    ProjectionLength(df, s);
    DivModBlock(i, j, 8 * i + j);
    ProjectionRow(df, s, 8 * i + j);
    YearsAt(j);
  }

  /** Selecting the present countries of a concatenation selects from each
      part. */
  lemma {:induction false} PresentAmongAppend(df: seq<Observation>, a: seq<string>, b: seq<string>)
    ensures PresentAmong(df, a + b) == PresentAmong(df, a) + PresentAmong(df, b)
  {
    if b == [] {
      assert a + b == a;
    } else {
      var b' := b[..|b| - 1];
      assert (a + b)[..|a + b| - 1] == a + b';
      PresentAmongAppend(df, a, b');
    }
  }

  /** No country of `cs` is present when none has a baseline. */
  lemma {:induction false} PresentAmongNone(df: seq<Observation>, cs: seq<string>)
    requires forall i :: 0 <= i < |cs| ==> !HasBaseline(df, cs[i])
    ensures PresentAmong(df, cs) == []
  {
    if cs != [] {
      PresentAmongNone(df, cs[..|cs| - 1]);
    }
  }

  /** Every G7 country of `cs` with a baseline is among the present ones. */
  lemma {:induction false} PresentAmongComplete(df: seq<Observation>, cs: seq<string>, c: string)
    requires c in cs && HasBaseline(df, c)
    ensures c in PresentAmong(df, cs)
  {
    var init := cs[..|cs| - 1];
    if c != cs[|cs| - 1] {
      assert cs == init + [cs[|cs| - 1]];
      PresentAmongComplete(df, init, c);
    }
  }

  /** Exactly the G7 countries with a baseline row get rows: each of them
      gets one for every projected year, and no other country appears. */
  lemma ProjectionCountries(df: seq<Observation>, s: Scenario)
    ensures forall r :: r in Projection(df, s) ==> r.country in G7 && HasBaseline(df, r.country)
    ensures forall c, j :: c in G7 && HasBaseline(df, c) && 0 <= j < |Years| ==>
      (exists k :: 0 <= k < |Projection(df, s)| && Projection(df, s)[k].country == c
         && Projection(df, s)[k].year == Years[j])
  {
    forall r | r in Projection(df, s) ensures r.country in G7 && HasBaseline(df, r.country) {
      var k :| 0 <= k < |Projection(df, s)| && Projection(df, s)[k] == r;
      ProjectionRow(df, s, k);
    }
    forall c, j | c in G7 && HasBaseline(df, c) && 0 <= j < |Years|
      ensures exists k :: (0 <= k < |Projection(df, s)| && Projection(df, s)[k].country == c
        && Projection(df, s)[k].year == Years[j])
    {
      PresentAmongComplete(df, G7, c);
      var i :| 0 <= i < |Present(df)| && Present(df)[i] == c;
      ProjectionCovers(df, s, i, j);
      var k := 8 * i + j;
      assert 0 <= k < |Projection(df, s)| && Projection(df, s)[k].country == c
        && Projection(df, s)[k].year == Years[j];
    }
  }

  /** A country without a baseline row produces no rows at all, and no
      error: the projection is defined for every table. */
  lemma MissingCountryAbsent(df: seq<Observation>, s: Scenario, c: string)
    requires !HasBaseline(df, c)
    ensures forall r :: r in Projection(df, s) ==> r.country != c
  {
    ProjectionCountries(df, s);
  }

  /** Every present country is a country of `cs`. */
  lemma {:induction false} PresentAmongIn(df: seq<Observation>, cs: seq<string>, i: nat)
    requires i < |PresentAmong(df, cs)|
    ensures PresentAmong(df, cs)[i] in cs
  {
    var init := cs[..|cs| - 1];
    if i < |PresentAmong(df, init)| {
      PresentAmongIn(df, init, i);
    }
  }

  /** Selecting the present countries keeps the order of `cs`. */
  lemma {:induction false} PresentAmongOrdered(df: seq<Observation>, cs: seq<string>)
    requires forall i, j :: 0 <= i < j < |cs| ==> Rank(cs[i]) < Rank(cs[j])
    ensures forall i, j :: 0 <= i < j < |PresentAmong(df, cs)| ==>
      Rank(PresentAmong(df, cs)[i]) < Rank(PresentAmong(df, cs)[j])
  {
    if cs != [] {
      var init := cs[..|cs| - 1];
      var q, q' := PresentAmong(df, cs), PresentAmong(df, init);
      PresentAmongOrdered(df, init);
      forall i, j | 0 <= i < j < |q| ensures Rank(q[i]) < Rank(q[j]) {
        if j >= |q'| {
          PresentAmongIn(df, init, i);
          var m :| 0 <= m < |init| && init[m] == q[i];
        }
      }
    }
  }

  /** No country is listed twice among the G7. */
  lemma G7Distinct()
    ensures forall a, b :: 0 <= a < b < |G7| ==> G7[a] != G7[b]
  {
  }

  /** The rank of the `i`-th G7 country is `i`. */
  lemma RankOfG7(i: nat)
    requires i < |G7|
    ensures Rank(G7[i]) == i
  {
    G7Distinct();
    var r := Rank(G7[i]);
    assert G7[r] == G7[i];
  }

  /** The present countries keep the G7 list order. */
  lemma PresentOrdered(df: seq<Observation>)
    ensures forall i, j :: 0 <= i < j < |Present(df)| ==> Rank(Present(df)[i]) < Rank(Present(df)[j])
  {
    forall i, j | 0 <= i < j < |G7| ensures Rank(G7[i]) < Rank(G7[j]) {
      RankOfG7(i);
      RankOfG7(j);
    }
    PresentAmongOrdered(df, G7);
  }

  /** Rows are grouped by country in G7 order and, within a country, by
      ascending year; in particular no (country, year) pair occurs twice. */
  lemma ProjectionOrdered(df: seq<Observation>, s: Scenario)
    ensures forall k, l :: 0 <= k < l < |Projection(df, s)| ==>
      var a, b := Projection(df, s)[k], Projection(df, s)[l];
      Rank(a.country) < Rank(b.country) || (a.country == b.country && a.year < b.year)
  {
    var p, q := Projection(df, s), Present(df);
    PresentOrdered(df);
    forall k, l | 0 <= k < l < |p|
      ensures Rank(p[k].country) < Rank(p[l].country) || (p[k].country == p[l].country && p[k].year < p[l].year)
    {
      ProjectionRow(df, s, k);
      ProjectionRow(df, s, l);
      assert k / 8 <= l / 8;
      if k / 8 == l / 8 {
        assert k % 8 < l % 8;
      }
    }
  }

  /** With every percentage at 0, each projected feature equals the
      country's baseline value, whatever the year. */
  lemma ZeroScenarioKeepsBaseline(df: seq<Observation>, k: nat)
    requires k < |Projection(df, Scenario(0, 0, 0))|
    ensures var r := Projection(df, Scenario(0, 0, 0))[k];
      && HasBaseline(df, r.country)
      && r.gas == BaselineOf(df, r.country).gas
      && r.coal == BaselineOf(df, r.country).coal
      && r.oil == BaselineOf(df, r.country).oil
  {
    var s := Scenario(0, 0, 0);
    ProjectionValues(df, s, k);
    var r := Projection(df, s)[k];
    var b := BaselineOf(df, r.country);
    ZeroChangeKeepsBase(b.gas, r.year - BaselineYear);
    ZeroChangeKeepsBase(b.coal, r.year - BaselineYear);
    ZeroChangeKeepsBase(b.oil, r.year - BaselineYear);
  }

  /** From one year to the next within a country, every feature is
      multiplied by its own yearly factor. */
  lemma ProjectionYearOverYear(df: seq<Observation>, s: Scenario, k: nat)
    requires k + 1 < |Projection(df, s)| && k % 8 < 7
    ensures var a, b := Projection(df, s)[k], Projection(df, s)[k + 1];
      && a.country == b.country && b.year == a.year + 1
      && b.gas == a.gas * Factor(s.gasPct)
      && b.coal == a.coal * Factor(s.coalPct)
      && b.oil == a.oil * Factor(s.oilPct)
  {
    var c, base, y := NeighbourRows(df, s, k);
    ProjectedRowNext(c, base, s, y);
  }

  /** Rows `k` and `k + 1` of the same block are one country's rows for two
      consecutive years, grown from the same baseline row. */
  lemma NeighbourRows(df: seq<Observation>, s: Scenario, k: nat)
      returns (c: string, base: Observation, y: int)
    requires k + 1 < |Projection(df, s)| && k % 8 < 7
    ensures y >= BaselineYear
    ensures HasBaseline(df, c) && base == BaselineOf(df, c)
    ensures Projection(df, s)[k] == ProjectedRow(c, base, s, y)
    ensures Projection(df, s)[k + 1] == ProjectedRow(c, base, s, y + 1)
  {
    NextInBlock(k);
    ProjectOverAt(df, s, G7, k);
    ProjectOverAt(df, s, G7, k + 1);
    c := Present(df)[k / 8];
    base := BaselineOf(df, c);
    y := Years[k % 8];
    YearsAt(k % 8);
    YearsAt(k % 8 + 1);
  }

  /** A country's row for the next year carries each feature multiplied by
      its yearly factor. */
  lemma ProjectedRowNext(country: string, b: Observation, s: Scenario, year: int)
    requires year >= BaselineYear
    ensures var r, r' := ProjectedRow(country, b, s, year), ProjectedRow(country, b, s, year + 1);
      && r'.country == r.country && r'.year == r.year + 1
      && r'.gas == r.gas * Factor(s.gasPct)
      && r'.coal == r.coal * Factor(s.coalPct)
      && r'.oil == r.oil * Factor(s.oilPct)
  {
    var k := year - BaselineYear;
    assert year + 1 - BaselineYear == k + 1;
    NextYear(b.gas, s.gasPct, k);
    NextYear(b.coal, s.coalPct, k);
    NextYear(b.oil, s.oilPct, k);
  }

  /** Over one year, a feature grown from a positive baseline value stays
      positive and moves in the direction of its percentage: up for a
      positive one, down for a negative one, not at all for zero. */
  predicate MovesWith(base: real, pct: int, now: real, next: real)
  {
    base > 0.0 ==>
      && now > 0.0
      && (pct > 0 ==> next > now)
      && (pct < 0 ==> next < now)
      && (pct == 0 ==> next == now)
  }

  /** For slider values, each feature of a country's row and of its row for
      the next year moves with its own percentage. */
  lemma ProjectedRowDirection(country: string, b: Observation, s: Scenario, year: int)
    requires InSliders(s) && year >= BaselineYear
    ensures var r, r' := ProjectedRow(country, b, s, year), ProjectedRow(country, b, s, year + 1);
      && MovesWith(b.gas, s.gasPct, r.gas, r'.gas)
      && MovesWith(b.coal, s.coalPct, r.coal, r'.coal)
      && MovesWith(b.oil, s.oilPct, r.oil, r'.oil)
  {
    var k := year - BaselineYear;
    assert year + 1 - BaselineYear == k + 1;
    if b.gas > 0.0 { Direction(b.gas, s.gasPct, k); }
    if b.coal > 0.0 { Direction(b.coal, s.coalPct, k); }
    if b.oil > 0.0 { Direction(b.oil, s.oilPct, k); }
  }

  /** For any scenario the sliders can produce, from one year to the next
      within a country, each feature whose baseline value is positive stays
      positive and rises, falls or stays constant with the sign of its own
      percentage. */
  lemma ScenarioDirection(df: seq<Observation>, s: Scenario, k: nat)
    requires InSliders(s) && k + 1 < |Projection(df, s)| && k % 8 < 7
    ensures HasBaseline(df, Projection(df, s)[k].country)
    ensures var a, b := Projection(df, s)[k], Projection(df, s)[k + 1];
      var base := BaselineOf(df, a.country);
      && MovesWith(base.gas, s.gasPct, a.gas, b.gas)
      && MovesWith(base.coal, s.coalPct, a.coal, b.coal)
      && MovesWith(base.oil, s.oilPct, a.oil, b.oil)
  {
    var c, base, y := NeighbourRows(df, s, k);
    ProjectedRowDirection(c, base, s, y);
  }

  // ---------------------------------------------------------------------
  // Which baseline row is used

  /** `FirstRow` finds a row exactly when the table has a baseline-year row
      of `c`, and the row it finds is the first of them. */
  lemma {:induction false} FirstRowIsFirst(df: seq<Observation>, c: string)
    ensures FirstRow(df, c).None? <==> forall i :: 0 <= i < |df| ==> !RowFor(df[i], c)
    ensures FirstRow(df, c).Some? ==>
      exists i :: 0 <= i < |df| && df[i] == FirstRow(df, c).value
        && forall j :: 0 <= j < i ==> !RowFor(df[j], c)
  {
    if df != [] && !RowFor(df[0], c) {
      FirstRowIsFirst(df[1..], c);
      if FirstRow(df, c).Some? {
        var i :| 0 <= i < |df[1..]| && df[1..][i] == FirstRow(df, c).value
          && forall j :: 0 <= j < i ==> !RowFor(df[1..][j], c);
        assert forall j :: 0 <= j < i + 1 ==> !RowFor(df[j], c) by {
          forall j | 0 <= j < i + 1 ensures !RowFor(df[j], c) {
            if j > 0 { assert df[j] == df[1..][j - 1]; }
          }
        }
      } else {
        forall i | 0 <= i < |df| ensures !RowFor(df[i], c) {
          if i > 0 { assert df[i] == df[1..][i - 1]; }
        }
      }
    }
  }

  /** A country has a baseline exactly when it is a G7 country with a row
      for the baseline year, and then the row used is the first such row of
      the table, whatever rows follow it. */
  lemma BaselineIsFirstRow(df: seq<Observation>, c: string)
    ensures HasBaseline(df, c) <==> c in G7 && exists i :: 0 <= i < |df| && RowFor(df[i], c)
    ensures HasBaseline(df, c) ==>
      exists i :: 0 <= i < |df| && df[i] == BaselineOf(df, c) && RowFor(df[i], c)
        && forall j :: 0 <= j < i ==> !RowFor(df[j], c)
  {
    FirstRowIsFirst(df, c);
  }

  // ---------------------------------------------------------------------
  // A worked scenario

  /** A table holding only Canada's 2022 row: 100 for gas, 50 for coal and
      20 for oil. */
  function CanadaTable(): seq<Observation>
  {
    [Observation("Canada", 2022, 100.0, 50.0, 20.0, Some(1.5))]
  }

  /** In that table Canada is the only country with a baseline. */
  lemma CanadaOnlyPresent()
    ensures Present(CanadaTable()) == ["Canada"]
    ensures BaselineOf(CanadaTable(), "Canada") == CanadaTable()[0]
  {
    var df := CanadaTable();
    assert G7 == ["Canada"] + G7[1..];
    PresentAmongAppend(df, ["Canada"], G7[1..]);
    assert PresentAmong(df, ["Canada"]) == ["Canada"] by {
      assert ["Canada"][..0] == [];
    }
    forall i | 0 <= i < |G7[1..]| ensures !HasBaseline(df, G7[1..][i]) {
      var c := G7[1..][i];
      G7Distinct();
      assert c == G7[i + 1] && c != G7[0];
      assert !RowFor(df[0], c);
      FirstRowIsFirst(df, c);
    }
    PresentAmongNone(df, G7[1..]);
  }

  /** At +10% a year for gas, Canada's 2024 row carries 100 * 1.1^2 = 121
      for gas and its unchanged coal and oil; Japan, with no baseline, gets
      no rows. */
  lemma CanadaExample()
    ensures var p := Projection(CanadaTable(), Scenario(10, 0, 0));
      && |p| == 8
      && p[1] == Row(2024, "Canada", 121.0, 50.0, 20.0)
      && forall r :: r in p ==> r.country != "Japan"
  {
    var df := CanadaTable();
    var s := Scenario(10, 0, 0);
    var p := Projection(df, s);
    CanadaOnlyPresent();
    assert |p| == 8 by {
      ProjectionLength(df, s);
    }
    assert p[1] == Row(2024, "Canada", 121.0, 50.0, 20.0) by {
      ProjectOverAt(df, s, G7, 1);
      YearsAt(1);
      assert p[1] == ProjectedRow("Canada", df[0], s, 2024);
      TenPercentTwice();
      ZeroChangeKeepsBase(50.0, 2);
      ZeroChangeKeepsBase(20.0, 2);
    }
    assert forall r :: r in p ==> r.country != "Japan" by {
      assert !HasBaseline(df, "Japan") by {
        FirstRowIsFirst(df, "Japan");
      }
      MissingCountryAbsent(df, s, "Japan");
    }
  }
}
