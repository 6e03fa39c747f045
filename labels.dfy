/// The dropdown labels (main.js line 49):
/// `["All", ...Array.from(new Set(data.map(d => d.Make))).sort()]`.
module Labels {
  import opened Records
  import opened Ordering

  /** "All" first, then every make of the data once, in ascending string order. */
  function DropdownLabels(data: seq<Record>): (r: seq<string>)
    ensures |r| == |Makes(data)| + 1 && r[0] == "All"
    ensures forall s :: s in r[1..] <==> s in Makes(data)
    ensures forall i, j :: 1 <= i < j < |r| ==> LexLess(r[i], r[j]) && r[i] != r[j]
  {
    var sorted := SortedLabels(Makes(data));
    LexIrreflexive();
    assert (["All"] + sorted)[1..] == sorted;
    ["All"] + sorted
  }
}
