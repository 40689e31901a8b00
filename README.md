# Scenario projector of the G7 temperature dashboard

This project models the one piece of logic in the dashboard script
`src/app.py`: the scenario projector, and how its output reaches the chart
and the table. From the observed table, the dashboard does the following:

1. It takes the 2022 rows of the seven G7 countries as the baseline.
2. For each G7 country that has a 2022 row, in list order, it builds one
   synthetic input row per year from 2023 to 2030. A G7 country without a
   2022 row gets no rows, and no error is raised. Each of gas, coal and oil is
   the country's first baseline value, grown by compound growth at the
   slider's yearly percentage: `base * (1 + pct/100) ** (year - 2022)`.
3. It attaches the predictor's temperatures to those rows and appends them to
   the observed table.
4. It keeps the rows of the chosen countries.
5. It cuts three views from them by year:
   - the historical lines and points (up to 2022),
   - the prediction points (from 2022 on), when predictions are shown,
   - the predictions table (from 2023 on), when predictions are shown.

The model has four modules:

- `Sequences`: `Filter`, an order-preserving selection by a predicate. It
  stands for a pandas boolean-mask selection `df[mask]`, and its lemmas cover
  soundness, completeness, concatenation, nested selection, order, the first
  element and counting.
- `Growth`: compound growth in exact real arithmetic (`Pow`, `Factor`,
  `Compound`), and the slider range.
- `Projector`: the data, the baseline selection and the projection.
  - `Projection` is the functional specification.
  - `Project` is the script's nested loop over countries and years, written as
    an imperative method and proved equal to `Projection`.
- `Dashboard`: attaching the predictions, the extended table, the country
  selection and the three year views.

In the part modelled here, the only value updated step by step is the list
`input_rows`, which becomes the local sequence that `Project` appends to. The
in-place rounding of `predictions_df` (lines 128-131) is left out together
with the rounding.

## Model

| member | source | states |
|---|---|---|
| Sequences.Filter | src/app.py:23 | a mask selection returns no more rows than it was given, and every row it returns satisfies the mask |
| Sequences.FilterSound | src/app.py:23 | every selected row is a row of the input table |
| Sequences.FilterComplete | src/app.py:23 | every input row that satisfies the mask is selected |
| Sequences.FilterAppend | src/app.py:55-58 | selecting from a concatenation of two tables gives the selection from the first followed by the selection from the second |
| Sequences.FilterKeepsAll | src/app.py:58 | a mask that every row satisfies keeps the table unchanged |
| Sequences.FilterDropsAll | src/app.py:38 | a mask that no row satisfies gives an empty selection |
| Sequences.FilterHead | src/app.py:43 | `.iloc[0]` of a selection is the first input row that satisfies the mask |
| Sequences.FilterFilter | src/app.py:23-37 | selecting by one mask and then by a second equals selecting once by both |
| Sequences.FilterKeepsOrder | src/app.py:23 | a selection from a sequence that is increasing under a key is still increasing under that key, so selection never reorders |
| Sequences.FilterAll | src/app.py:58 | a property every input row has, every selected row has |
| Sequences.FilterOverlap | src/app.py:67-86 | two masks that together cover every row hold, between them, every input row once and the rows both select a second time (as multisets) |
| Growth.PowOne | src/app.py:43-45 | a yearly factor of 1 raised to any number of years is 1 |
| Growth.PowAdd | src/app.py:43-45 | k + m years of growth equal k years followed by m years |
| Growth.PowPositive | src/app.py:43-45 | a positive yearly factor stays positive for any number of years |
| Growth.FactorInSliderRange | src/app.py:28-30 | a slider value in [-15, 15] gives a yearly factor between 0.85 and 1.15 |
| Growth.ZeroChangeKeepsBase | src/app.py:43-45 | at 0% the projected value equals the base value for every year |
| Growth.NextYear | src/app.py:43-45 | one more year multiplies the projected value by 1 + pct/100 |
| Growth.Direction | src/app.py:28-45 | within the slider range, a positive base stays positive, and from year to year it rises, falls or stays constant as the percentage is positive, negative or zero |
| Growth.TenPercentTwice | src/app.py:43 | at +10% a year, a base of 100 reaches 121 after two years |
| Projector.Rank | src/app.py:22 | the position of a country in the G7 list, which is below 7 exactly when the country is in the list, and the list holds that country at that position |
| Projector.FirstRow | src/app.py:37-43 | the row it finds is a 2022 row of the requested country |
| Projector.BaselineRow | src/app.py:22-43 | a baseline row exists only for a G7 country, and it is a 2022 row of that country |
| Projector.FirstRowSelected | src/app.py:23-43 | for a G7 country, selecting its 2022 rows from the table is non-empty exactly when a first such row exists, and starts with that row |
| Projector.BaselineLookup | src/app.py:23-43 | the script's lookup (G7 rows of 2022, then the rows of one country, then `.iloc[0]`) finds a row exactly when the country has a baseline, and finds `BaselineOf` |
| Projector.PresentAmong | src/app.py:36-38 | the countries that get rows are no more numerous than those considered, and each has a baseline row |
| Projector.CountryRows | src/app.py:39-46 | a country's block holds one row per projected year considered |
| Projector.CountryRowsAt | src/app.py:39-46 | the j-th row of a country's block is its row for the j-th projected year |
| Projector.Project | src/app.py:33-47 | the nested loop builds exactly the projection: for each G7 country in order that has a baseline, its rows for 2023..2030 |
| Projector.ProjectOverStep | src/app.py:36-46 | one more pass of the country loop appends exactly that country's block |
| Projector.YearsAt | src/app.py:34 | there are 8 projected years, and the j-th is 2023 + j |
| Projector.ProjectOverLength | src/app.py:36-46 | the rows number 8 per country that has a baseline |
| Projector.ProjectOverAt | src/app.py:36-46 | row k is the (k/8)-th present country's row for the (k%8)-th projected year, grown from that country's baseline row |
| Projector.ProjectionRow | src/app.py:33-46 | row k belongs to the (k/8)-th present country, which has a baseline; its year is 2023 + k%8, strictly after 2022 and at most 2030, so the exponent is between 1 and 8 |
| Projector.ProjectionValues | src/app.py:43-45 | every projected gas, coal and oil value is that country's first baseline value compounded at its own percentage for year - 2022 years |
| Projector.ProjectionLength | src/app.py:36-46 | the projection has exactly 8 × (number of G7 countries with a baseline) rows |
| Projector.ProjectionCovers | src/app.py:36-46 | each present country has a row for each projected year, at position 8i + j |
| Projector.PresentAmongAppend | src/app.py:36-38 | finding the present countries of a concatenated list finds them in each part, in order |
| Projector.PresentAmongNone | src/app.py:38 | no country is present when none has a baseline |
| Projector.PresentAmongComplete | src/app.py:36-38 | every considered country with a baseline is among the present ones |
| Projector.ProjectionCountries | src/app.py:36-46 | every row's country is a G7 country with a baseline, and every G7 country with a baseline has a row for every projected year |
| Projector.MissingCountryAbsent | src/app.py:37-38 | a country without a baseline row contributes no rows, and the projection is still defined (no error) |
| Projector.PresentAmongIn | src/app.py:36 | every present country is one of the countries considered |
| Projector.PresentAmongOrdered | src/app.py:36-38 | skipping the countries without a baseline keeps the order of the rest |
| Projector.G7Distinct | src/app.py:22 | no country appears twice in the G7 list |
| Projector.RankOfG7 | src/app.py:22 | the i-th G7 country has position i |
| Projector.PresentOrdered | src/app.py:36-38 | the present countries follow G7 list order |
| Projector.ProjectionOrdered | src/app.py:36-39 | rows are grouped by country in G7 order and by ascending year within a country, so no (country, year) pair repeats |
| Projector.ZeroScenarioKeepsBaseline | src/app.py:28-45 | with all three sliders at 0, every projected feature equals the country's baseline value |
| Projector.ProjectionYearOverYear | src/app.py:39-45 | consecutive rows of a country are consecutive years, and each feature is multiplied by its own 1 + pct/100 |
| Projector.NeighbourRows | src/app.py:39-45 | rows k and k+1 of one block are one country's rows for two consecutive years, grown from one baseline row |
| Projector.ProjectedRowDirection | src/app.py:28-45 | for slider values, each feature of a country's row and its next-year row stays positive when its baseline is positive and moves with the sign of its own percentage |
| Projector.ScenarioDirection | src/app.py:28-45 | for any scenario the sliders allow, consecutive rows of a country keep every positively based feature positive, rising, falling or constant with the sign of its own percentage |
| Projector.ProjectedRowNext | src/app.py:43-45 | a country's row for the next year has each feature multiplied by its yearly factor |
| Projector.FirstRowIsFirst | src/app.py:43 | the lookup finds a row exactly when a 2022 row of the country exists, and the row it finds comes before every other such row |
| Projector.BaselineIsFirstRow | src/app.py:22-43 | a country has a baseline exactly when it is a G7 country with a 2022 row, and the row used is the first such row of the table |
| Projector.CanadaOnlyPresent | src/app.py:36-38 | in a table with only Canada's 2022 row, Canada is the only present country and its baseline is that row |
| Projector.CanadaExample | src/app.py:33-46 | in that table at +10% gas, there are 8 rows, the 2024 row is (2024, Canada, 121, 50, 20), and no Japan row exists |
| Dashboard.WithPredictions | src/app.py:51-54 | attaching the predictions keeps the number of rows and every row's country, year and features, and gives row i the predictor's i-th temperature |
| Dashboard.InputColumns | src/app.py:54 | dropping the temperature column keeps one row per table row |
| Dashboard.PredictionsKeepRows | src/app.py:51-54 | attaching the predictions and dropping them again gives back the projected rows (the round trip) |
| Dashboard.SelectedPredictedAfterBaseline | src/app.py:55-58 | every selected predicted row is after 2022 |
| Dashboard.SelectedExtended | src/app.py:55-58 | selecting countries from the extended table gives the selected observed rows followed by the selected predicted rows |
| Dashboard.HistoryUnaffected | src/app.py:55-73 | the historical view is the selected observed rows up to 2022, whatever the scenario and the predictions |
| Dashboard.PointsAfterBaseline | src/app.py:55-86 | the prediction points are the selected observed rows from 2022 on, followed by every selected predicted row |
| Dashboard.TableOfPredictions | src/app.py:55-126 | the predictions table is the selected observed rows from 2023 on, followed by every selected predicted row |
| Dashboard.TableOnlyPredictions | src/app.py:55-126 | when the observed table ends by 2022, the predictions table is exactly the selected predicted rows |
| Dashboard.ViewsCoverSelection | src/app.py:67-86 | the historical view and the prediction points together hold every selected row once and the selected 2022 rows a second time (multiset equality), so their sizes add up to the number of selected rows plus the number of selected 2022 rows |
| Dashboard.DefaultSelectionKeepsAll | src/app.py:15-58 | when every observed country is selected (the default), selection removes no row, predicted rows included, because every projected country has an observed row |

## Left out

- Reading the CSV file and unpickling the model are left out. The observed table is a parameter.
- The predictor (`model.predict`, a ridge-regression pipeline) is left out. Its output is a parameter `temps` with one temperature per projected row. The model does not cover the predictor being called on an empty input, which happens when no G7 country has a 2022 row.
- Widgets are left out. The sliders, the country multiselect and the show-predictions checkbox are parameters. The slider range [-15, 15] is stated as `Growth.InSliderRange` for one slider and `Projector.InSliders` for all three, and is used by `Growth.Direction` and `Projector.ScenarioDirection`.
- Altair chart construction and styling are left out: marks, encodings, tooltips, zoom and sizes. Only the rows each chart layer receives are modelled.
- Rounding the table to 3 decimals, which overwrites four columns of `predictions_df` in place, and reordering its columns are left out, because they only affect display.
- Floating point is left out. Values are exact reals, so IEEE rounding of `**` and `/` is not modelled.
- The pandas index (`ignore_index`) and column dtypes are left out. Tables are sequences of records in row order.
- A linear-growth variant of the projection is not part of this model, because `src/app.py` only computes compound growth.
- `Dashboard.WithPredictions` requires one temperature per projected row, which is the contract of `model.predict`. The model does not cover a mismatched length that pandas would fill with missing values.
