/**
 * `loadProcesses`: sorts the fetched records by the integer value of their
 * P.C., renders one row per record and applies the current filter.
 */
module LoadProcesses {
  import opened JsText
  import opened Records
  import opened Filter

  /** The record's P.C. is present and a string of decimal digits. */
  predicate HasNumericPc(p: Process) {
    p.pc.Some? && IsDecimal(p.pc.value)
  }

  /** `parseInt(p.pc)`. */
  function PcValue(p: Process): nat
    requires HasNumericPc(p)
  {
    ParseDecimal(p.pc.value)
  }

  /**
   * The sort key: `parseInt(p.pc)` for a numeric P.C. (the other case, where
   * JavaScript compares NaN, is excluded by `AllNumericPc` wherever the
   * order matters).
   */
  function PcKey(p: Process): nat {
    if HasNumericPc(p) then PcValue(p) else 0
  }

  /** Every record has a numeric P.C. */
  predicate AllNumericPc(s: seq<Process>) {
    forall k :: 0 <= k < |s| ==> HasNumericPc(s[k])
  }

  /** The records are in non-decreasing order of sort key. */
  ghost predicate SortedByPc(s: seq<Process>) {
    forall k, l :: 0 <= k < l < |s| ==> PcKey(s[k]) <= PcKey(s[l])
  }

  /** Exchanges two neighbouring records. */
  method SwapAdjacent(a: array<Process>, j: nat)
    requires 0 < j < a.Length
    modifies a
    ensures a[..] == old(a[..])[j - 1 := old(a[j])][j := old(a[j - 1])]
    ensures multiset(a[..]) == multiset(old(a[..]))
  {
    a[j - 1], a[j] := a[j], a[j - 1];
  }

  /**
   * `processes.sort((a, b) => parseInt(a.pc) - parseInt(b.pc))`, as an
   * insertion sort: rearranges the fetched records in place into
   * non-decreasing order of P.C. value.
   */
  method SortByPc(a: array<Process>)
    modifies a
    ensures SortedByPc(a[..])
    ensures multiset(a[..]) == multiset(old(a[..]))
  {
    var i := 0;
    while i < a.Length
      invariant 0 <= i <= a.Length
      invariant forall k, l :: 0 <= k < l < i ==> PcKey(a[k]) <= PcKey(a[l])
      invariant multiset(a[..]) == multiset(old(a[..]))
    {
      var j := i;
      while j > 0 && PcKey(a[j - 1]) > PcKey(a[j])
        invariant 0 <= j <= i
        invariant forall k, l :: 0 <= k < l <= i && k != j && l != j ==> PcKey(a[k]) <= PcKey(a[l])
        invariant forall l :: j < l <= i ==> PcKey(a[j]) <= PcKey(a[l])
        invariant multiset(a[..]) == multiset(old(a[..]))
      {
        SwapAdjacent(a, j);
        j := j - 1;
      }
      i := i + 1;
    }
  }

  /**
   * Records order by the number their P.C. denotes, not by its text: a P.C.
   * written with fewer digits (and no leading zero) sorts first, so "2"
   * comes before "10" although "10" is smaller as a string.
   */
  lemma ShorterPcSortsFirst(p: Process, q: Process)
    requires HasNumericPc(p) && HasNumericPc(q)
    requires p.pc.value[0] != '0' && q.pc.value[0] != '0'
    requires |p.pc.value| < |q.pc.value|
    ensures PcKey(p) < PcKey(q)
    ensures !SortedByPc([q, p])
  {
    ParseDecimalBounds(p.pc.value);
    ParseDecimalBounds(q.pc.value);
    Pow10Monotonic(|p.pc.value|, |q.pc.value| - 1);
    assert [q, p][0] == q && [q, p][1] == p;
  }

  /** Reordering keeps every P.C. numeric. */
  lemma PermutationKeepsNumericPc(s: seq<Process>, t: seq<Process>)
    requires multiset(s) == multiset(t) && AllNumericPc(t)
    ensures AllNumericPc(s)
  {
    forall k | 0 <= k < |s|
      ensures HasNumericPc(s[k])
    {
      assert s[k] in multiset(t);
      var m :| 0 <= m < |t| && t[m] == s[k];
    }
  }

  /**
   * The whole load once the records have arrived: the fetched array is
   * sorted in place (a permutation, ordered by P.C. value), each record
   * becomes one row in that order, the P.C. column reads in non-decreasing
   * numeric order, and the filter is applied to the new rows with the
   * current query.
   */
  method LoadProcesses(fetched: array<Process>, query: string)
    returns (rows: seq<TableRow>, visible: seq<bool>, visibleRowCount: nat, noResults: bool)
    requires AllNumericPc(fetched[..])
    modifies fetched
    ensures multiset(fetched[..]) == multiset(old(fetched[..]))
    ensures AllNumericPc(fetched[..]) && SortedByPc(fetched[..])
    ensures |rows| == fetched.Length
    ensures forall k :: 0 <= k < |rows| ==> rows[k] == RenderRow(fetched[k])
    ensures forall k :: 0 <= k < |rows| ==> |rows[k].cells| == |FieldNames|
    ensures forall k, l :: 0 <= k < l < |rows| ==>
      IsDecimal(rows[k].cells[0]) && IsDecimal(rows[l].cells[0])
      && ParseDecimal(rows[k].cells[0]) <= ParseDecimal(rows[l].cells[0])
    ensures |visible| == |rows|
    ensures forall k :: 0 <= k < |rows| ==> (visible[k] <==> RowMatches(RowText(rows[k]), query))
    ensures visibleRowCount == CountVisible(visible) <= |rows|
    ensures noResults <==> visibleRowCount == 0 && |rows| > 0
  {
    SortByPc(fetched);
    PermutationKeepsNumericPc(fetched[..], old(fetched[..]));
    rows := [];
    for k := 0 to fetched.Length
      invariant |rows| == k
      invariant forall m :: 0 <= m < k ==> rows[m] == RenderRow(fetched[m])
    {
      rows := rows + [RenderRow(fetched[k])];
    }
    var texts := seq(|rows|, k requires 0 <= k < |rows| => RowText(rows[k]));
    visible, visibleRowCount, noResults := FilterTable(texts, query);
  }
}
