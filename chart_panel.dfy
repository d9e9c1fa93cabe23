/** The selection filter, key classes and KPI option table of src/components/chart/ChartPanel.tsx. */
module ChartPanel {

  import opened Wrappers
  import opened DataTypes
  import Seqs
  import KpiDropdown

  /** `ChartValueKey` from src/types/data.ts: the columns a chart axis can show. */
  datatype ChartValueKey =
    | RentGrowth
    | Appreciation
    | CapRate
    | MedianRent
    | PopulationGrowth
    | OccupancyRateKpi
    | PercentOfMfhUnder5Years
    | TotalPopulation

  /** `ChartMetric`: the five keys the left chart's Y axis can be switched to. */
  predicate IsChartMetric(k: ChartValueKey)
  {
    k.RentGrowth? || k.Appreciation? || k.CapRate? || k.PopulationGrowth? || k.TotalPopulation?
  }

  type ChartMetric = k: ChartValueKey | IsChartMetric(k) witness RentGrowth

  const AllKeys: seq<ChartValueKey> :=
    [RentGrowth, Appreciation, CapRate, MedianRent, PopulationGrowth, OccupancyRateKpi,
     PercentOfMfhUnder5Years, TotalPopulation]

  /** The column name of a key, as the string-literal union spells it. */
  function KeyName(k: ChartValueKey): string
  {
    match k
    case RentGrowth => "rent_growth"
    case Appreciation => "appreciation"
    case CapRate => "cap_rate"
    case MedianRent => "median_rent"
    case PopulationGrowth => "population_growth"
    case OccupancyRateKpi => "occupancy_rate_kpi"
    case PercentOfMfhUnder5Years => "percent_of_mfh_under_5_years"
    case TotalPopulation => "total_population"
  }

  /** `labelMap`: the axis caption of every key. */
  function AxisLabel(k: ChartValueKey): string
  {
    match k
    case RentGrowth => "Rent Growth (%)"
    case Appreciation => "Appreciation (%)"
    case CapRate => "Cap Rate (%)"
    case MedianRent => "Median Rent ($)"
    case PopulationGrowth => "Population Growth (%)"
    case OccupancyRateKpi => "Occupancy Rate (%)"
    case PercentOfMfhUnder5Years => "Share of MFH under 5 years (%)"
    case TotalPopulation => "Total Population (#)"
  }

  /** `KPI_OPTIONS`: the choices offered by the KPI dropdown. */
  const KpiOptions: seq<KpiDropdown.KpiOption> := [
    KpiDropdown.KpiOption("rent_growth", "Rent Growth (%)"),
    KpiDropdown.KpiOption("appreciation", "Appreciation (%)"),
    KpiDropdown.KpiOption("cap_rate", "Cap Rate (%)"),
    KpiDropdown.KpiOption("population_growth", "Population Growth (%)"),
    KpiDropdown.KpiOption("total_population", "Total Population (#)")
  ]

  predicate IsPercent(k: ChartValueKey)
  {
    k == RentGrowth || k == Appreciation || k == CapRate || k == PopulationGrowth ||
    k == OccupancyRateKpi || k == PercentOfMfhUnder5Years
  }

  predicate IsCurrency(k: ChartValueKey)
  {
    k == MedianRent
  }

  predicate IsCount(k: ChartValueKey)
  {
    k == TotalPopulation
  }

  /** Every key is listed once, so counting over `AllKeys` counts over the whole key type. */
  lemma AllKeysComplete(k: ChartValueKey)
    ensures k in AllKeys && Seqs.Distinct(AllKeys)
  {
  }

  /** Six keys are percentages, one is a currency, one is a count, and no key is two of these. */
  lemma KeyClasses()
    ensures |set k | k in AllKeys && IsPercent(k)| == 6
    ensures (set k | k in AllKeys && IsCurrency(k)) == {MedianRent}
    ensures (set k | k in AllKeys && IsCount(k)) == {TotalPopulation}
    ensures forall k :: !(IsPercent(k) && IsCurrency(k)) && !(IsPercent(k) && IsCount(k)) &&
                        !(IsCurrency(k) && IsCount(k))
  {
    var percent := [RentGrowth, Appreciation, CapRate, PopulationGrowth, OccupancyRateKpi,
                    PercentOfMfhUnder5Years];
    assert (set k | k in AllKeys && IsPercent(k)) == Seqs.Elements(percent);
    assert Seqs.Distinct(percent);
    Seqs.DistinctCardinality(percent);
  }

  /** The key whose column name is `name`, if any: the inverse of `KeyName`. */
  function ParseKey(name: string): (r: Option<ChartValueKey>)
    ensures r.Some? ==> KeyName(r.value) == name
    ensures r.None? ==> forall k :: KeyName(k) != name
  {
    if name == "rent_growth" then Some(RentGrowth)
    else if name == "appreciation" then Some(Appreciation)
    else if name == "cap_rate" then Some(CapRate)
    else if name == "median_rent" then Some(MedianRent)
    else if name == "population_growth" then Some(PopulationGrowth)
    else if name == "occupancy_rate_kpi" then Some(OccupancyRateKpi)
    else if name == "percent_of_mfh_under_5_years" then Some(PercentOfMfhUnder5Years)
    else if name == "total_population" then Some(TotalPopulation)
    else None
  }

  /** Key names are distinct, so a name read back gives the key it came from. */
  lemma KeyNameRoundTrip(k: ChartValueKey)
    ensures ParseKey(KeyName(k)) == Some(k)
  {
  }

  /** No two entries of `KPI_OPTIONS` share a value. */
  lemma KpiOptionValuesDistinct()
    ensures forall i, j :: 0 <= i < j < |KpiOptions| ==> KpiOptions[i].value != KpiOptions[j].value
  {
  }

  /**
   * `KPI_OPTIONS` lists exactly the chart metrics, each under its `labelMap` caption; so the
   * `val as ChartMetric` cast on a chosen option always holds.
   */
  lemma KpiOptionsAreTheMetrics()
    ensures forall k :: IsChartMetric(k) <==> exists i :: 0 <= i < |KpiOptions| && KpiOptions[i].value == KeyName(k)
    ensures forall o :: o in KpiOptions ==>
              ParseKey(o.value).Some? && IsChartMetric(ParseKey(o.value).value) &&
              o.labelText == AxisLabel(ParseKey(o.value).value)
  {
    forall k | IsChartMetric(k)
      ensures exists i :: 0 <= i < |KpiOptions| && KpiOptions[i].value == KeyName(k)
    {
      var i := match k
        case RentGrowth => 0
        case Appreciation => 1
        case CapRate => 2
        case PopulationGrowth => 3
        case _ => 4;
      assert KpiOptions[i].value == KeyName(k);
    }
    forall k, i | 0 <= i < |KpiOptions| && KpiOptions[i].value == KeyName(k) ensures IsChartMetric(k) {
      assert ParseKey(KeyName(k)) == Some(k);
    }
  }

  /**
   * The Y axis caption: the label of the `KPI_OPTIONS` entry for the key, or "" when the key has
   * none. For the five metrics it is their `labelMap` caption.
   */
  function YAxisName(selectedKpi: ChartValueKey): (name: string)
    ensures IsChartMetric(selectedKpi) ==> name == AxisLabel(selectedKpi)
    ensures !IsChartMetric(selectedKpi) ==> name == ""
  {
    match KpiDropdown.FindByValue(KpiOptions, KeyName(selectedKpi))
    case Some(i) => KpiOptions[i].labelText
    case None => ""
  }

  /** `toPoints`: the rows whose zip is selected, in row order. */
  function ToPoints(rows: seq<TableRow>, selectedZips: seq<string>): (r: seq<TableRow>)
    ensures Seqs.IsSubsequence(r, rows)
    ensures forall row :: multiset(r)[row] ==
              if row.record.zipCode in selectedZips then multiset(rows)[row] else 0
  {
    var isSelected := (row: TableRow) => row.record.zipCode in selectedZips;
    Seqs.FilterIsSubsequence(rows, isSelected);
    Seqs.Filter(rows, isSelected)
  }

  /** `hasSelection`: the scatter plots are drawn exactly when some row is selected. */
  function HasSelection(rows: seq<TableRow>, selectedZips: seq<string>): (b: bool)
    ensures b <==> exists i :: 0 <= i < |rows| && rows[i].record.zipCode in selectedZips
  {
    var points := ToPoints(rows, selectedZips);
    assert points != [] ==> points[0] in multiset(points);
    |points| > 0
  }
}
