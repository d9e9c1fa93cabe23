/** The state picker rules of src/components/filters/FiltersBar.tsx. */
module FiltersBar {

  import Seqs
  import Text

  /** `toggleState`: drop every occurrence of a selected state, append an unselected one. */
  function ToggleState(selected: seq<string>, state: string): (r: seq<string>)
    ensures state !in selected ==> r == selected + [state]
    ensures state in selected ==> state !in r && Seqs.IsSubsequence(r, selected)
    ensures forall s :: s != state ==> multiset(r)[s] == multiset(selected)[s]
    ensures state in r <==> state !in selected
  {
    if state in selected then
      Seqs.RemoveIsSubsequence(selected, state);
      Seqs.Remove(selected, state)
    else
      selected + [state]
  }

  /** Ticking a state and unticking it again leaves the selection as it was. */
  lemma ToggleTwiceRestores(selected: seq<string>, state: string)
    requires state !in selected
    ensures ToggleState(ToggleState(selected, state), state) == selected
  {
    Seqs.RemoveAppended(selected, state);
  }

  /** The Clear button: the owner is handed the empty selection, and the button label resets. */
  function ClearStates(): (r: seq<string>)
    ensures r == [] && ButtonLabel(r) == "Select states"
  {
    []
  }

  /** `Math.ceil(n / d)` for a non-negative `n` and a positive `d`. */
  function CeilDiv(n: nat, d: nat): (q: nat)
    requires d > 0
    ensures q * d >= n
    ensures q > 0 ==> (q - 1) * d < n
  {
    (n + d - 1) / d
  }

  /** `s.slice(start, end)` for non-negative bounds: both clamped to the length, empty if crossed. */
  function Slice(s: seq<string>, start: nat, end: nat): (r: seq<string>)
    ensures start >= |s| || end <= start ==> r == []
    ensures start < end <= |s| ==> r == s[start..end]
    ensures start < |s| <= end ==> r == s[start..]
  {
    var lo := if start < |s| then start else |s|;
    var hi := if end < |s| then end else |s|;
    if hi <= lo then [] else s[lo..hi]
  }

  const ColumnCount: nat := 3

  /** `stateColumns`: the states cut into three consecutive runs of `ceil(n / 3)` (the last shorter). */
  function StateColumns(states: seq<string>): (cols: seq<seq<string>>)
    ensures |cols| == ColumnCount
    ensures cols[0] + cols[1] + cols[2] == states
    ensures forall c :: 0 <= c < |cols| ==> |cols[c]| <= CeilDiv(|states|, ColumnCount)
    ensures states == [] ==> cols == [[], [], []]
    ensures forall c :: 0 <= c < |cols| - 1 && |cols[c]| < CeilDiv(|states|, ColumnCount) ==> cols[c + 1] == []
  {
    var perCol := CeilDiv(|states|, ColumnCount);
    var cols := seq(ColumnCount, c requires 0 <= c < ColumnCount => Slice(states, c * perCol, (c + 1) * perCol));
    var n := |states|;
    assert cols[0] == Slice(states, 0, perCol) && cols[1] == Slice(states, perCol, 2 * perCol) &&
           cols[2] == Slice(states, 2 * perCol, 3 * perCol);
    assert 3 * perCol >= n;
    var a := if perCol < n then perCol else n;
    var b := if 2 * perCol < n then 2 * perCol else n;
    assert cols[0] == states[..a] && cols[1] == states[a..b] && cols[2] == states[b..];
    assert |cols[0]| < perCol ==> a == n && b == n;
    assert |cols[1]| < perCol ==> b == n;
    assert states[..a] + states[a..b] + states[b..] == states;
    cols
  }

  /** The text of the dropdown button. */
  function ButtonLabel(selected: seq<string>): (caption: string)
    ensures selected == [] <==> caption == "Select states"
    ensures selected != [] ==>
              |caption| > |" selected"| && caption[|caption| - |" selected"|..] == " selected" &&
              Text.IsDigits(caption[..|caption| - |" selected"|]) && caption[0] != '0' &&
              Text.DecimalValue(caption[..|caption| - |" selected"|]) == |selected|
  {
    if |selected| > 0 then
      var count := Text.NatToDecimal(|selected|);
      var caption := count + " selected";
      assert caption[..|caption| - |" selected"|] == count;
      assert caption[0] != 'S';
      Text.DecimalRoundTrip(|selected|);
      caption
    else
      "Select states"
  }
}
