/** What the dashboard shows once the projection exists: the predicted
    temperatures attached to the projected rows, the extended table, the
    country selection, and the three views cut from it by year. */
module Dashboard {
  import opened Sequences
  import opened Projector

  /** The projected rows with the predictor's temperatures attached, one
      temperature per row, in row order. */
  function WithPredictions(rows: seq<Row>, temps: seq<real>): (r: seq<Observation>)
    requires |temps| == |rows|
    ensures |r| == |rows|
    ensures forall i :: 0 <= i < |r| ==>
      && r[i].country == rows[i].country && r[i].year == rows[i].year
      && r[i].gas == rows[i].gas && r[i].coal == rows[i].coal && r[i].oil == rows[i].oil
      && r[i].temp == Some(temps[i])
  {
    if rows == [] then []
    else
      var o := Observation(rows[0].country, rows[0].year, rows[0].gas, rows[0].coal, rows[0].oil,
                           Some(temps[0]));
      [o] + WithPredictions(rows[1..], temps[1..])
  }

  /** The input-row columns of a table row. */
  function AsRow(o: Observation): Row
  {
    Row(o.year, o.country, o.gas, o.coal, o.oil)
  }

  /** The input-row columns of every table row, in order. */
  function InputColumns(table: seq<Observation>): (r: seq<Row>)
    ensures |r| == |table|
  {
    if table == [] then [] else [AsRow(table[0])] + InputColumns(table[1..])
  }

  /** Attaching the predictions keeps the input columns of every row as
      they were: dropping the temperature again gives back the rows. */
  lemma {:induction false} PredictionsKeepRows(rows: seq<Row>, temps: seq<real>)
    requires |temps| == |rows|
    ensures InputColumns(WithPredictions(rows, temps)) == rows
  {
    if rows != [] {
      PredictionsKeepRows(rows[1..], temps[1..]);
    }
  }

  /** The observed table followed by the predicted rows. */
  function Extended(df: seq<Observation>, s: Scenario, temps: seq<real>): seq<Observation>
    requires |temps| == |Projection(df, s)|
  {
    df + WithPredictions(Projection(df, s), temps)
  }

  function InSelection(selected: seq<string>): Observation -> bool
  {
    (o: Observation) => o.country in selected
  }

  function YearAtMost(y: int): Observation -> bool
  {
    (o: Observation) => o.year <= y
  }

  function YearAtLeast(y: int): Observation -> bool
  {
    (o: Observation) => o.year >= y
  }

  function YearIs(y: int): Observation -> bool
  {
    (o: Observation) => o.year == y
  }

  /** The rows of the chosen countries, in table order. */
  function Selected(table: seq<Observation>, selected: seq<string>): seq<Observation>
  {
    Filter(table, InSelection(selected))
  }

  /** The rows drawn as historical lines and points: up to the baseline
      year. */
  function Historical(filtered: seq<Observation>): seq<Observation>
  {
    Filter(filtered, YearAtMost(BaselineYear))
  }

  /** The rows drawn as prediction points when predictions are shown: from
      the baseline year on, so the baseline year's observed points are
      drawn again here. */
  function PredictionPoints(filtered: seq<Observation>, show: bool): Option<seq<Observation>>
  {
    if show then Some(Filter(filtered, YearAtLeast(BaselineYear))) else None
  }

  /** The rows of the predictions table when predictions are shown: from
      2023 on. */
  function PredictionsTable(filtered: seq<Observation>, show: bool): Option<seq<Observation>>
  {
    if show then Some(Filter(filtered, YearAtLeast(BaselineYear + 1))) else None
  }

  /** Every predicted row of the chosen countries lies strictly after the
      baseline year. */
  lemma SelectedPredictedAfterBaseline(df: seq<Observation>, s: Scenario, temps: seq<real>,
                                       selected: seq<string>)
    requires |temps| == |Projection(df, s)|
    ensures var sp := Selected(WithPredictions(Projection(df, s), temps), selected);
      forall i :: 0 <= i < |sp| ==> sp[i].year > BaselineYear
  {
    var pr := WithPredictions(Projection(df, s), temps);
    forall i | 0 <= i < |pr| ensures YearAtLeast(BaselineYear + 1)(pr[i]) {
      ProjectionRow(df, s, i);
    }
    FilterAll(pr, InSelection(selected), YearAtLeast(BaselineYear + 1));
  }

  /** Selecting from the extended table selects from the observed rows and
      from the predicted rows separately. */
  lemma SelectedExtended(df: seq<Observation>, s: Scenario, temps: seq<real>, selected: seq<string>)
    requires |temps| == |Projection(df, s)|
    ensures Selected(Extended(df, s, temps), selected)
      == Selected(df, selected) + Selected(WithPredictions(Projection(df, s), temps), selected)
  {
    FilterAppend(df, WithPredictions(Projection(df, s), temps), InSelection(selected));
  }

  /** The scenario and the predictions never change the historical view: it
      holds exactly the selected observed rows up to the baseline year. */
  lemma HistoryUnaffected(df: seq<Observation>, s: Scenario, temps: seq<real>, selected: seq<string>)
    requires |temps| == |Projection(df, s)|
    ensures Historical(Selected(Extended(df, s, temps), selected)) == Historical(Selected(df, selected))
  {
    var sd := Selected(df, selected);
    var sp := Selected(WithPredictions(Projection(df, s), temps), selected);
    SelectedExtended(df, s, temps, selected);
    SelectedPredictedAfterBaseline(df, s, temps, selected);
    FilterDropsAll(sp, YearAtMost(BaselineYear));
    FilterAppend(sd, sp, YearAtMost(BaselineYear));
    assert Historical(sd) + [] == Historical(sd);
  }

  /** Shown predictions are the selected observed rows from the baseline year
      on, followed by every selected predicted row. */
  lemma PointsAfterBaseline(df: seq<Observation>, s: Scenario, temps: seq<real>, selected: seq<string>)
    requires |temps| == |Projection(df, s)|
    ensures PredictionPoints(Selected(Extended(df, s, temps), selected), true)
      == Some(Filter(Selected(df, selected), YearAtLeast(BaselineYear))
              + Selected(WithPredictions(Projection(df, s), temps), selected))
  {
    var sd := Selected(df, selected);
    var sp := Selected(WithPredictions(Projection(df, s), temps), selected);
    SelectedExtended(df, s, temps, selected);
    SelectedPredictedAfterBaseline(df, s, temps, selected);
    FilterKeepsAll(sp, YearAtLeast(BaselineYear));
    FilterAppend(sd, sp, YearAtLeast(BaselineYear));
  }

  /** The predictions table holds the selected observed rows after the
      baseline year, followed by every selected predicted row. */
  lemma TableOfPredictions(df: seq<Observation>, s: Scenario, temps: seq<real>, selected: seq<string>)
    requires |temps| == |Projection(df, s)|
    ensures PredictionsTable(Selected(Extended(df, s, temps), selected), true)
      == Some(Filter(Selected(df, selected), YearAtLeast(BaselineYear + 1))
              + Selected(WithPredictions(Projection(df, s), temps), selected))
  {
    var sd := Selected(df, selected);
    var sp := Selected(WithPredictions(Projection(df, s), temps), selected);
    SelectedExtended(df, s, temps, selected);
    SelectedPredictedAfterBaseline(df, s, temps, selected);
    FilterKeepsAll(sp, YearAtLeast(BaselineYear + 1));
    FilterAppend(sd, sp, YearAtLeast(BaselineYear + 1));
  }

  /** When the observed table ends at the baseline year, the predictions
      table holds exactly the selected predicted rows. */
  lemma TableOnlyPredictions(df: seq<Observation>, s: Scenario, temps: seq<real>, selected: seq<string>)
    requires |temps| == |Projection(df, s)|
    requires forall i :: 0 <= i < |df| ==> df[i].year <= BaselineYear
    ensures PredictionsTable(Selected(Extended(df, s, temps), selected), true)
      == Some(Selected(WithPredictions(Projection(df, s), temps), selected))
  {
    var sd := Selected(df, selected);
    var sp := Selected(WithPredictions(Projection(df, s), temps), selected);
    TableOfPredictions(df, s, temps, selected);
    FilterAll(df, InSelection(selected), YearAtMost(BaselineYear));
    FilterDropsAll(sd, YearAtLeast(BaselineYear + 1));
    assert [] + sp == sp;
  }

  /** The historical view and the prediction points together hold every
      selected row once, and the selected rows of the baseline year a second
      time; so their sizes add up to the selection's plus its baseline-year
      rows. */
  lemma ViewsCoverSelection(filtered: seq<Observation>)
    ensures multiset(Historical(filtered)) + multiset(PredictionPoints(filtered, true).value)
      == multiset(filtered) + multiset(Filter(filtered, YearIs(BaselineYear)))
    ensures |Historical(filtered)| + |PredictionPoints(filtered, true).value|
      == |filtered| + |Filter(filtered, YearIs(BaselineYear))|
  {
    FilterOverlap(filtered, YearAtMost(BaselineYear), YearAtLeast(BaselineYear), YearIs(BaselineYear));
  }

  /** With the default selection (every country of the observed table)
      nothing is filtered out: every predicted row's country has a baseline
      row in the observed table, so it is selected too. */
  lemma DefaultSelectionKeepsAll(df: seq<Observation>, s: Scenario, temps: seq<real>, selected: seq<string>)
    requires |temps| == |Projection(df, s)|
    requires forall i :: 0 <= i < |df| ==> df[i].country in selected
    ensures Selected(Extended(df, s, temps), selected) == Extended(df, s, temps)
  {
    var e := Extended(df, s, temps);
    var pr := WithPredictions(Projection(df, s), temps);
    forall i | 0 <= i < |e| ensures InSelection(selected)(e[i]) {
      if i >= |df| {
        var c := pr[i - |df|].country;
        ProjectionRow(df, s, i - |df|);
        BaselineIsFirstRow(df, c);
      }
    }
    FilterKeepsAll(e, InSelection(selected));
  }
}
