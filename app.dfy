/** The dashboard's view state and the values derived from it (src/App.tsx). */
module App {

  import opened Wrappers
  import opened DataTypes
  import Seqs
  import Text
  import DataTransforms
  import Sorting
  import ChartPanel

  // ---------------------------------------------------------------- derived values

  /** `tableRows`: nothing before the fit scores have arrived, the merged rows afterwards. */
  function TableRows(rawRows: seq<ZipRecord>, fitScores: Option<FitScoreData>): (r: seq<TableRow>)
    ensures fitScores.None? ==> r == []
    ensures fitScores.Some? ==> |r| == |rawRows| && forall i :: 0 <= i < |r| ==> r[i].record == rawRows[i]
    ensures fitScores.Some? ==> r == DataTransforms.MergeFitScores(rawRows, fitScores.value)
  {
    match fitScores
    case None => []
    case Some(scores) => DataTransforms.MergeFitScores(rawRows, scores)
  }

  /** `kpis`: no summary before the fit scores have arrived, the summary of the merged rows after. */
  function Kpis(tableRows: seq<TableRow>, fitScores: Option<FitScoreData>): (k: Option<KpiSummary>)
    ensures k.None? <==> fitScores.None?
    ensures k.Some? ==> k.value.overall == fitScores.value.fitScoreOverall
    ensures k.Some? && tableRows == [] ==> k.value.rentGrowthAvg == 0.0
    ensures k.Some? ==> k.value.fitScoreOverall == fitScores.value.fitScoreOverall
    ensures k.Some? && tableRows != [] ==>
              k.value.rentGrowthAvg * (|tableRows| as real) == DataTransforms.SumRentGrowth(tableRows)
    ensures k.Some? ==> k.value == DataTransforms.CalcKpis(tableRows, fitScores.value)
  {
    match fitScores
    case None => None
    case Some(scores) => Some(DataTransforms.CalcKpis(tableRows, scores))
  }

  /** The text the search box is matched against: `${zip_code} ${city} ${state}`, lower-cased. */
  function Haystack(row: TableRow): string
  {
    Text.ToLower(row.record.zipCode + " " + row.record.city + " " + row.record.state)
  }

  /** The search text as matched: trimmed, then lower-cased. */
  function Query(searchText: string): string
  {
    Text.ToLower(Text.Trim(searchText))
  }

  /** A row survives the "Selected only" switch. */
  predicate PassesSelection(row: TableRow, selectedOnly: bool, selectedZips: seq<string>)
  {
    !selectedOnly || row.record.zipCode in selectedZips
  }

  /** A row survives the search box (a blank search keeps every row). */
  predicate PassesSearch(row: TableRow, searchText: string)
  {
    Text.IsBlank(searchText) || Text.Contains(Haystack(row), Query(searchText))
  }

  /**
   * `filteredRows`: the "Selected only" restriction first, then the search. Each row is kept
   * exactly when it passes both, and the survivors keep their order.
   */
  function FilteredRows(tableRows: seq<TableRow>, searchText: string, selectedOnly: bool,
                        selectedZips: seq<string>): (r: seq<TableRow>)
    ensures Seqs.IsSubsequence(r, tableRows)
    ensures forall row :: multiset(r)[row] ==
              if PassesSelection(row, selectedOnly, selectedZips) && PassesSearch(row, searchText)
              then multiset(tableRows)[row] else 0
  {
    var query := Query(searchText);
    var inSelection := (row: TableRow) => row.record.zipCode in selectedZips;
    var base := if selectedOnly then Seqs.Filter(tableRows, inSelection) else tableRows;
    Seqs.SubsequenceReflexive(tableRows);
    Seqs.FilterIsSubsequence(tableRows, inSelection);
    Text.TrimEmptyIffBlank(searchText);
    if query == [] then
      base
    else
      var matches := (row: TableRow) => Text.Contains(Haystack(row), query);
      Seqs.FilterIsSubsequence(base, matches);
      Seqs.SubsequenceTransitive(Seqs.Filter(base, matches), base, tableRows);
      Seqs.Filter(base, matches)
  }

  /** With "Selected only" on and nothing selected, no row is shown, whatever the search. */
  lemma SelectedOnlyWithoutSelectionShowsNothing(tableRows: seq<TableRow>, searchText: string)
    ensures FilteredRows(tableRows, searchText, true, []) == []
  {
  }

  /** With "Selected only" off and a blank search, every row is shown, in order. */
  lemma NoFilterShowsAll(tableRows: seq<TableRow>, searchText: string, selectedZips: seq<string>)
    requires Text.IsBlank(searchText)
    ensures FilteredRows(tableRows, searchText, false, selectedZips) == tableRows
  {
  }

  /**
   * A search text found in the row's zip, city or state alone is found in the haystack too.
   * (The converse fails: the haystack also matches texts that span the separating spaces.)
   */
  lemma FieldMatchIsFound(row: TableRow, needle: string)
    requires || Text.Contains(Text.ToLower(row.record.zipCode), needle)
             || Text.Contains(Text.ToLower(row.record.city), needle)
             || Text.Contains(Text.ToLower(row.record.state), needle)
    ensures Text.Contains(Haystack(row), needle)
  {
    var zip, city, state := Text.ToLower(row.record.zipCode), Text.ToLower(row.record.city), Text.ToLower(row.record.state);
    HaystackParts(row);
    var hay := Haystack(row);
    if Text.Contains(zip, needle) {
      Text.ContainsWithin([], zip, " " + city + " " + state, needle);
      assert [] + zip + (" " + city + " " + state) == hay;
    } else if Text.Contains(city, needle) {
      Text.ContainsWithin(zip + " ", city, " " + state, needle);
      assert (zip + " ") + city + (" " + state) == hay;
    } else {
      Text.ContainsWithin(zip + " " + city + " ", state, [], needle);
      assert (zip + " " + city + " ") + state + [] == hay;
    }
  }

  /** The haystack is the lower-cased zip, city and state, joined by single spaces. */
  lemma HaystackParts(row: TableRow)
    ensures Haystack(row) == Text.ToLower(row.record.zipCode) + " " + Text.ToLower(row.record.city) + " " +
                             Text.ToLower(row.record.state)
  {
    Text.ToLowerAppend(row.record.zipCode + " " + row.record.city + " ", row.record.state);
    Text.ToLowerAppend(row.record.zipCode + " " + row.record.city, " ");
    Text.ToLowerAppend(row.record.zipCode + " ", row.record.city);
    Text.ToLowerAppend(row.record.zipCode, " ");
    assert Text.ToLower(" ") == " ";
  }

  datatype Tag = Tag(caption: string, value: string)

  /** `tags`: one removable tag per selected zip, in selection order, captioned "ZIP: <zip>". */
  function Tags(selectedZips: seq<string>): (t: seq<Tag>)
    ensures |t| == |selectedZips|
    ensures forall i :: 0 <= i < |t| ==> t[i].value == selectedZips[i] && t[i].caption == "ZIP: " + selectedZips[i]
    decreases |selectedZips|
  {
    if selectedZips == [] then [] else [TagFor(selectedZips[0])] + Tags(selectedZips[1..])
  }

  function TagFor(zip: string): Tag
  {
    Tag("ZIP: " + zip, zip)
  }

  /** The test that keeps the tags of every zip but `zip`. */
  function OtherTag(zip: string): Tag -> bool
  {
    (t: Tag) => t.value != zip
  }

  /** The tags after removing a zip are the old tags without those for that zip, in order. */
  lemma {:induction false} TagsAfterRemove(selectedZips: seq<string>, zip: string)
    ensures Tags(Seqs.Remove(selectedZips, zip)) == Seqs.Filter(Tags(selectedZips), OtherTag(zip))
    decreases |selectedZips|
  {
    if selectedZips != [] {
      var rest := selectedZips[1..];
      TagsAfterRemove(rest, zip);
      var removed := Seqs.Remove(rest, zip);
      assert removed == Seqs.Filter(rest, Seqs.Other(zip));
      assert Seqs.Remove(selectedZips, zip) == Seqs.Filter(selectedZips, Seqs.Other(zip));
      if selectedZips[0] != zip {
        assert Seqs.Remove(selectedZips, zip) == [selectedZips[0]] + removed;
        assert ([selectedZips[0]] + removed)[1..] == removed;
      }
    }
  }

  datatype LevelStats = LevelStats(states: nat, msas: nat, zips: nat)

  /** `levelStats`: how many distinct states and rows were loaded; MSAs are not counted yet. */
  function StatsOf(rawRows: seq<ZipRecord>): (ls: LevelStats)
    ensures ls.zips == |rawRows| && ls.msas == 0
    ensures ls.states == |set i | 0 <= i < |rawRows| :: rawRows[i].state|
    ensures ls.states == |DataTransforms.UniqueStates(rawRows)| && ls.states <= ls.zips
  {
    var names := set i | 0 <= i < |rawRows| :: rawRows[i].state;
    var listing := DataTransforms.UniqueStates(rawRows);
    Sorting.SortedIsDistinct(listing);
    Seqs.DistinctCardinality(listing);
    assert Seqs.Elements(listing) == names;
    LevelStats(|names|, 0, |rawRows|)
  }

  // ---------------------------------------------------------------- view state

  /** The state the dashboard keeps between renders, changed only through its setters. */
  class Dashboard {
    var rawRows: seq<ZipRecord>
    var fitScores: Option<FitScoreData>
    var selectedZips: seq<string>
    var selectedKpi: ChartPanel.ChartMetric
    var searchText: string
    var selectedOnly: bool

    /** The `useState` initial values. */
    constructor ()
      ensures rawRows == [] && fitScores == None && selectedZips == []
      ensures selectedKpi == ChartPanel.Appreciation && searchText == "" && !selectedOnly
    {
      rawRows := [];
      fitScores := None;
      selectedZips := [];
      selectedKpi := ChartPanel.Appreciation;
      searchText := "";
      selectedOnly := false;
    }

    /** The rows shown in the grid for the current state. */
    function VisibleRows(): seq<TableRow>
      reads this
    {
      FilteredRows(TableRows(rawRows, fitScores), searchText, selectedOnly, selectedZips)
    }

    /** Both loads resolved: the rows and the fit scores are stored. */
    method DataLoaded(rows: seq<ZipRecord>, scores: FitScoreData)
      modifies this
      ensures rawRows == rows && fitScores == Some(scores)
      ensures selectedZips == old(selectedZips) && selectedKpi == old(selectedKpi)
      ensures searchText == old(searchText) && selectedOnly == old(selectedOnly)
      ensures |TableRows(rawRows, fitScores)| == |rows|
    {
      rawRows := rows;
      fitScores := Some(scores);
    }

    /** The tag bar's remove button: every occurrence of the zip leaves the selection. */
    method RemoveTag(zip: string)
      modifies this
      ensures selectedZips == Seqs.Remove(old(selectedZips), zip)
      ensures zip !in selectedZips && Seqs.IsSubsequence(selectedZips, old(selectedZips))
      ensures Tags(selectedZips) == Seqs.Filter(Tags(old(selectedZips)), OtherTag(zip))
      ensures rawRows == old(rawRows) && fitScores == old(fitScores) && selectedKpi == old(selectedKpi)
      ensures searchText == old(searchText) && selectedOnly == old(selectedOnly)
    {
      Seqs.RemoveIsSubsequence(selectedZips, zip);
      TagsAfterRemove(selectedZips, zip);
      selectedZips := Seqs.Remove(selectedZips, zip);
    }

    /** The tag bar's "Clear all": nothing is selected and no tag is left. */
    method ClearTags()
      modifies this
      ensures selectedZips == [] && Tags(selectedZips) == []
      ensures rawRows == old(rawRows) && fitScores == old(fitScores) && selectedKpi == old(selectedKpi)
      ensures searchText == old(searchText) && selectedOnly == old(selectedOnly)
    {
      selectedZips := [];
    }

    /** The grid reports its selected rows' zips; they become the selection as they are. */
    method SetSelection(zips: seq<string>)
      modifies this
      ensures selectedZips == zips
      ensures rawRows == old(rawRows) && fitScores == old(fitScores) && selectedKpi == old(selectedKpi)
      ensures searchText == old(searchText) && selectedOnly == old(selectedOnly)
    {
      selectedZips := zips;
    }

    method SetSearchText(text: string)
      modifies this
      ensures searchText == text
      ensures rawRows == old(rawRows) && fitScores == old(fitScores) && selectedKpi == old(selectedKpi)
      ensures selectedZips == old(selectedZips) && selectedOnly == old(selectedOnly)
    {
      searchText := text;
    }

    /** The "Selected only" switch flips. */
    method ToggleSelectedOnly()
      modifies this
      ensures selectedOnly == !old(selectedOnly)
      ensures rawRows == old(rawRows) && fitScores == old(fitScores) && selectedKpi == old(selectedKpi)
      ensures selectedZips == old(selectedZips) && searchText == old(searchText)
    {
      selectedOnly := !selectedOnly;
    }

    /** The KPI dropdown's choice becomes the left chart's Y axis. */
    method ChangeKpi(metric: ChartPanel.ChartMetric)
      modifies this
      ensures selectedKpi == metric
      ensures rawRows == old(rawRows) && fitScores == old(fitScores) && selectedZips == old(selectedZips)
      ensures searchText == old(searchText) && selectedOnly == old(selectedOnly)
    {
      selectedKpi := metric;
    }
  }

  /** Flipping "Selected only" twice gives back the same state and the same visible rows. */
  method ToggleTwice(d: Dashboard)
    modifies d
    ensures d.selectedOnly == old(d.selectedOnly) && d.VisibleRows() == old(d.VisibleRows())
  {
    d.ToggleSelectedOnly();
    d.ToggleSelectedOnly();
  }
}
