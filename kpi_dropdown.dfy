/** The option lookup and label search of src/components/chart/KpiDropdown.tsx. */
module KpiDropdown {

  import opened Wrappers
  import Seqs
  import Text

  datatype KpiOption = KpiOption(value: string, labelText: string)

  /** The dropdown's own UI state: whether its panel is open and the search text typed in it. */
  datatype Panel = Panel(open: bool, query: string)

  /** What choosing an option does: the value reported to the owner and the panel afterwards. */
  datatype Choice = Choice(reported: string, panel: Panel)

  /** `options.findIndex((o) => o.value === value)`, `None` for -1. */
  function FindByValue(options: seq<KpiOption>, value: string): (r: Option<nat>)
    ensures r.Some? ==> r.value < |options| && options[r.value].value == value
    ensures r.Some? ==> forall j :: 0 <= j < r.value ==> options[j].value != value
    ensures r.None? <==> forall j :: 0 <= j < |options| ==> options[j].value != value
    decreases |options|
  {
    if options == [] then None
    else if options[0].value == value then Some(0)
    else
      match FindByValue(options[1..], value)
      case Some(i) => Some(i + 1)
      case None => None
  }

  /**
   * `selected`: the first option carrying `value`; failing that the first option; failing that
   * nothing (`options[0]` of an empty list is `undefined`).
   */
  function SelectedOption(options: seq<KpiOption>, value: string): (r: Option<KpiOption>)
    ensures (exists i :: 0 <= i < |options| && options[i].value == value) ==>
              exists i :: 0 <= i < |options| && r == Some(options[i]) && options[i].value == value &&
                forall j :: 0 <= j < i ==> options[j].value != value
    ensures (forall i :: 0 <= i < |options| ==> options[i].value != value) ==>
              r == if options == [] then None else Some(options[0])
  {
    match FindByValue(options, value)
    case Some(i) => Some(options[i])
    case None => if options == [] then None else Some(options[0])
  }

  /** The option's label, lower-cased, contains the lower-cased query. */
  predicate LabelMatches(option: KpiOption, query: string)
  {
    Text.Contains(Text.ToLower(option.labelText), Text.ToLower(query))
  }

  /** `filtered`: the options whose label matches the query, in their original order. */
  function FilteredOptions(options: seq<KpiOption>, query: string): (r: seq<KpiOption>)
    ensures Seqs.IsSubsequence(r, options)
    ensures forall o :: multiset(r)[o] == if LabelMatches(o, query) then multiset(options)[o] else 0
    ensures query == [] ==> r == options
  {
    var matches := (o: KpiOption) => LabelMatches(o, query);
    Seqs.FilterIsSubsequence(options, matches);
    if query == [] then
      Seqs.FilterKeepsAll(options, matches);
      Seqs.Filter(options, matches)
    else
      Seqs.Filter(options, matches)
  }

  /** The "No results" line is shown exactly when no label matches the query. */
  function ShowsNoResults(options: seq<KpiOption>, query: string): (b: bool)
    ensures b <==> forall o :: o in options ==> !LabelMatches(o, query)
  {
    var filtered := FilteredOptions(options, query);
    assert filtered != [] ==> filtered[0] in multiset(filtered);
    |filtered| == 0
  }

  /** Clicking an option: its value goes to `onChange` and the panel closes; the query stays. */
  function Choose(panel: Panel, option: KpiOption): (c: Choice)
    ensures c.reported == option.value
    ensures !c.panel.open && c.panel.query == panel.query
  {
    Choice(option.value, Panel(false, panel.query))
  }
}
