/** The merge-and-aggregate functions of src/utils/dataTransforms.ts. */
module DataTransforms {

  import opened Wrappers
  import opened DataTypes
  import Seqs
  import Sorting

  // ---------------------------------------------------------------- fit score lookup

  /** Some entry of `entries` is for `zip`. */
  ghost predicate HasEntry(entries: seq<FitScoreEntry>, zip: string)
  {
    exists j :: 0 <= j < |entries| && entries[j].zipCode == zip
  }

  /** `score` is the score of the last entry of `entries` for `zip`. */
  ghost predicate IsLastScore(entries: seq<FitScoreEntry>, zip: string, score: real)
  {
    exists j :: 0 <= j < |entries| && entries[j].zipCode == zip && entries[j].fitScore == score &&
      forall k :: j < k < |entries| ==> entries[k].zipCode != zip
  }

  /**
   * The dictionary the reduce in `fitScoreMap` ends with: the entries written into it one after
   * the other, each assignment overwriting whatever an earlier entry for that zip had put there.
   */
  function ScoreIndex(entries: seq<FitScoreEntry>): map<string, real>
  {
    if entries == [] then map[]
    else
      var last := entries[|entries| - 1];
      ScoreIndex(entries[..|entries| - 1])[last.zipCode := last.fitScore]
  }

  /** The dictionary has a key for exactly the zips that have entries, and the last entry wins. */
  lemma {:induction false} ScoreIndexLastWins(entries: seq<FitScoreEntry>, zip: string)
    ensures zip in ScoreIndex(entries) <==> HasEntry(entries, zip)
    ensures zip in ScoreIndex(entries) ==> IsLastScore(entries, zip, ScoreIndex(entries)[zip])
    decreases |entries|
  {
    if entries != [] {
      var n := |entries| - 1;
      var init := entries[..n];
      ScoreIndexLastWins(init, zip);
      if entries[n].zipCode == zip {
        assert IsLastScore(entries, zip, entries[n].fitScore);
      } else {
        if HasEntry(entries, zip) {
          var j :| 0 <= j < |entries| && entries[j].zipCode == zip;
          assert init[j].zipCode == zip;
        }
        if zip in ScoreIndex(init) {
          var j :| 0 <= j < |init| && init[j].zipCode == zip && init[j].fitScore == ScoreIndex(init)[zip] &&
            forall k :: j < k < |init| ==> init[k].zipCode != zip;
          assert entries[j] == init[j];
          assert forall k :: j < k < |entries| ==> entries[k].zipCode != zip by {
            forall k | j < k < |entries| ensures entries[k].zipCode != zip {
              if k < n { assert entries[k] == init[k]; }
            }
          }
        }
      }
    }
  }

  lemma ScoreIndexCorrect(entries: seq<FitScoreEntry>)
    ensures forall zip :: zip in ScoreIndex(entries) <==> HasEntry(entries, zip)
    ensures forall zip :: zip in ScoreIndex(entries) ==> IsLastScore(entries, zip, ScoreIndex(entries)[zip])
  {
  }

  /** The last-entry score is well defined: two readings of it agree. */
  lemma LastScoreUnique(entries: seq<FitScoreEntry>, zip: string, a: real, b: real)
    requires IsLastScore(entries, zip, a) && IsLastScore(entries, zip, b)
    ensures a == b
  {
  }

  /** `fitScoreMap`: builds the zip-to-score dictionary by assigning entry after entry. */
  method FitScoreMap(fitScores: FitScoreData) returns (m: map<string, real>)
    ensures m == ScoreIndex(fitScores.fScores)
    ensures forall zip :: zip in m <==> HasEntry(fitScores.fScores, zip)
    ensures forall zip :: zip in m ==> IsLastScore(fitScores.fScores, zip, m[zip])
  {
    var entries := fitScores.fScores;
    m := map[];
    var i := 0;
    while i < |entries|
      invariant 0 <= i <= |entries|
      invariant m == ScoreIndex(entries[..i])
    {
      assert entries[..i + 1][..i] == entries[..i];
      m := m[entries[i].zipCode := entries[i].fitScore];
      i := i + 1;
    }
    assert entries[..|entries|] == entries;
    ScoreIndexCorrect(entries);
  }

  // ---------------------------------------------------------------- merge

  /**
   * `mergeFitScores`: a left outer join of the rows with the fit scores. Every row is kept, in
   * place, unchanged, and gets the score of the last entry for its zip, or none.
   */
  function MergeFitScores(rows: seq<ZipRecord>, fitScores: FitScoreData): (r: seq<TableRow>)
    ensures |r| == |rows|
    ensures forall i :: 0 <= i < |rows| ==> r[i].record == rows[i]
    ensures forall i :: 0 <= i < |rows| ==>
              (r[i].fitScore == None <==> !HasEntry(fitScores.fScores, rows[i].zipCode))
    ensures forall i :: 0 <= i < |rows| && r[i].fitScore.Some? ==>
              IsLastScore(fitScores.fScores, rows[i].zipCode, r[i].fitScore.value)
  {
    var index := ScoreIndex(fitScores.fScores);
    ScoreIndexCorrect(fitScores.fScores);
    seq(|rows|, i requires 0 <= i < |rows| =>
      TableRow(rows[i], if rows[i].zipCode in index then Some(index[rows[i].zipCode]) else None))
  }

  // ---------------------------------------------------------------- KPIs

  /** `rows.reduce((acc, row) => acc + row.rent_growth, 0)`, added up from the left. */
  function SumRentGrowth(rows: seq<TableRow>): real
  {
    if rows == [] then 0.0 else SumRentGrowth(rows[..|rows| - 1]) + rows[|rows| - 1].record.rentGrowth
  }

  /** `calcKpis`: the mean rent growth (0 for no rows) and the overall fit score twice over. */
  function CalcKpis(rows: seq<TableRow>, fitScores: FitScoreData): (k: KpiSummary)
    ensures rows == [] ==> k.rentGrowthAvg == 0.0
    ensures rows != [] ==> k.rentGrowthAvg * (|rows| as real) == SumRentGrowth(rows)
    ensures k.fitScoreOverall == fitScores.fitScoreOverall && k.overall == fitScores.fitScoreOverall
  {
    var avg := if |rows| == 0 then 0.0 else SumRentGrowth(rows) / (|rows| as real);
    KpiSummary(avg, fitScores.fitScoreOverall, fitScores.fitScoreOverall)
  }

  lemma {:induction false} SumBounds(rows: seq<TableRow>, lo: real, hi: real)
    requires forall i :: 0 <= i < |rows| ==> lo <= rows[i].record.rentGrowth <= hi
    ensures (|rows| as real) * lo <= SumRentGrowth(rows) <= (|rows| as real) * hi
    decreases |rows|
  {
    if rows != [] {
      SumBounds(rows[..|rows| - 1], lo, hi);
    }
  }

  /** The average lies between the smallest and the largest rent growth of the rows. */
  lemma AverageWithinBounds(rows: seq<TableRow>, fitScores: FitScoreData, lo: real, hi: real)
    requires rows != []
    requires forall i :: 0 <= i < |rows| ==> lo <= rows[i].record.rentGrowth <= hi
    ensures lo <= CalcKpis(rows, fitScores).rentGrowthAvg <= hi
  {
    SumBounds(rows, lo, hi);
    var n := |rows| as real;
    var avg := CalcKpis(rows, fitScores).rentGrowthAvg;
    assert avg * n == SumRentGrowth(rows);
  }

  // ---------------------------------------------------------------- chart points and states

  /** `filterChartPoints`: the points whose zip is selected, in their original order. */
  function FilterChartPoints(points: seq<TableChartPoint>, selectedZips: seq<string>): (r: seq<TableChartPoint>)
    ensures Seqs.IsSubsequence(r, points)
    ensures forall p :: multiset(r)[p] == if p.zipCode in selectedZips then multiset(points)[p] else 0
    ensures selectedZips == [] ==> r == []
  {
    var isSelected := (p: TableChartPoint) => p.zipCode in selectedZips;
    Seqs.FilterIsSubsequence(points, isSelected);
    Seqs.Filter(points, isSelected)
  }

  /** `rows.map((row) => row.state)`. */
  function States(rows: seq<ZipRecord>): (r: seq<string>)
    ensures |r| == |rows|
    ensures forall i :: 0 <= i < |rows| ==> r[i] == rows[i].state
    ensures forall s :: s in r <==> exists i :: 0 <= i < |rows| && rows[i].state == s
  {
    seq(|rows|, i requires 0 <= i < |rows| => rows[i].state)
  }

  /** `new Set(values)` read back in iteration order: first occurrences, in list order. */
  function Dedupe(values: seq<string>): (r: seq<string>)
    ensures Seqs.Distinct(r)
    ensures forall x :: x in r <==> x in values
    ensures |r| <= |values|
    decreases |values|
  {
    if values == [] then []
    else
      var seen := Dedupe(values[..|values| - 1]);
      var last := values[|values| - 1];
      assert values == values[..|values| - 1] + [last];
      if last in seen then seen else seen + [last]
  }

  /** `uniqueStates`: every state of the rows once, in ascending order. */
  function UniqueStates(rows: seq<ZipRecord>): (r: seq<string>)
    ensures Sorting.StrictlySorted(r)
    ensures forall s :: s in r <==> exists i :: 0 <= i < |rows| && rows[i].state == s
    ensures |r| <= |rows|
  {
    var states := States(rows);
    var distinct := Dedupe(states);
    var r := Sorting.Sort(distinct);
    assert |r| == |multiset(r)| == |multiset(distinct)| == |distinct|;
    forall s ensures s in r <==> s in states {
      assert s in r <==> s in multiset(r);
      assert s in distinct <==> s in multiset(distinct);
    }
    r
  }

  /** The list is the only strictly sorted listing of the states, so it is fully determined. */
  lemma UniqueStatesIsTheSortedListing(rows: seq<ZipRecord>, listing: seq<string>)
    requires Sorting.StrictlySorted(listing)
    requires forall s :: s in listing <==> exists i :: 0 <= i < |rows| && rows[i].state == s
    ensures listing == UniqueStates(rows)
  {
    Sorting.StrictlySortedUnique(listing, UniqueStates(rows));
  }

  /** One New York row, one matching score: the row gets score 90 and the KPIs are 5, 80, 80. */
  lemma SingleRowExample()
    ensures var rows := [ZipRecord("10001", "NYC", "NY", 5.0, map[])];
            var scores := FitScoreData(80.0, [FitScoreEntry("10001", 90.0)]);
            var merged := MergeFitScores(rows, scores);
            merged[0].fitScore == Some(90.0) &&
            CalcKpis(merged, scores) == KpiSummary(5.0, 80.0, 80.0)
  {
  }
}
