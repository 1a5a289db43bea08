/**
 * `filterTable`: shows the rows whose text contains the search query, ignoring
 * case, counts them, and raises the "no results" flag when rows exist but
 * none is shown.
 */
module Filter {
  import opened JsText
  import opened Records

  /** A row with this text stays visible under this query. */
  ghost predicate RowMatches(text: string, query: string) {
    Contains(Lower(text), Lower(query))
  }

  /** The number of rows marked visible. */
  function CountVisible(visible: seq<bool>): nat {
    if visible == [] then 0
    else CountVisible(visible[..|visible| - 1]) + (if visible[|visible| - 1] then 1 else 0)
  }

  /**
   * The count never exceeds the number of rows; it is zero exactly when no
   * row is visible, and equal to the number of rows exactly when all are.
   */
  lemma {:induction false} CountVisibleBounds(visible: seq<bool>)
    ensures CountVisible(visible) <= |visible|
    ensures CountVisible(visible) == 0 <==> forall i :: 0 <= i < |visible| ==> !visible[i]
    ensures CountVisible(visible) == |visible| <==> forall i :: 0 <= i < |visible| ==> visible[i]
  {
    if visible != [] {
      var init := visible[..|visible| - 1];
      CountVisibleBounds(init);
      assert forall i :: 0 <= i < |init| ==> init[i] == visible[i];
    }
  }

  /**
   * The filter loop: marks each row visible when its lower-cased text
   * includes the lower-cased query, counts the visible rows, and sets the
   * "no results" flag when there is at least one row and none is visible.
   */
  method FilterTable(rows: seq<string>, query: string)
    returns (visible: seq<bool>, visibleRowCount: nat, noResults: bool)
    ensures |visible| == |rows|
    ensures forall i :: 0 <= i < |rows| ==> (visible[i] <==> RowMatches(rows[i], query))
    ensures visibleRowCount == CountVisible(visible) <= |rows|
    ensures noResults <==> visibleRowCount == 0 && |rows| > 0
    ensures noResults <==> |rows| > 0 && forall i :: 0 <= i < |rows| ==> !RowMatches(rows[i], query)
  {
    var filterText := Lower(query);
    visible, visibleRowCount := [], 0;
    for i := 0 to |rows|
      invariant |visible| == i
      invariant forall k :: 0 <= k < i ==> (visible[k] <==> RowMatches(rows[k], query))
      invariant visibleRowCount == CountVisible(visible)
    {
      var shown := Includes(Lower(rows[i]), filterText);
      IncludesIffContains(Lower(rows[i]), filterText);
      visible := visible + [shown];
      assert visible[..i] == visible[..|visible| - 1];
      if shown {
        visibleRowCount := visibleRowCount + 1;
      }
    }
    CountVisibleBounds(visible);
    noResults := visibleRowCount == 0 && |rows| > 0;
  }

  /** The empty query matches every row. */
  lemma EmptyQueryMatchesEveryRow(text: string)
    ensures RowMatches(text, "")
  {
    assert Lower("") == "";
    EmptyIsContained(Lower(text));
  }

  /**
   * The reset button: clears the query and filters again, so every row is
   * visible, all of them are counted, and the "no results" flag is down.
   */
  method ResetFilter(rows: seq<string>)
    returns (query: string, visible: seq<bool>, visibleRowCount: nat, noResults: bool)
    ensures query == ""
    ensures |visible| == |rows| && forall i :: 0 <= i < |rows| ==> visible[i]
    ensures visibleRowCount == |rows|
    ensures !noResults
  {
    query := "";
    visible, visibleRowCount, noResults := FilterTable(rows, query);
    forall i | 0 <= i < |rows|
      ensures visible[i]
    {
      EmptyQueryMatchesEveryRow(rows[i]);
    }
    CountVisibleBounds(visible);
  }

  /** A query found in any one cell, ignoring case, keeps that cell's row visible. */
  lemma CellMatchShowsRow(row: TableRow, k: nat, query: string)
    requires k < |row.cells|
    requires RowMatches(row.cells[k], query)
    ensures RowMatches(RowText(row), query)
  {
    var pre, post := CellInCellsText(row.cells, k);
    var tail := CellIndent + DeleteLabel + RowEnd;
    assert RowText(row) == pre + row.cells[k] + (post + tail);
    LowerConcat(pre + row.cells[k], post + tail);
    LowerConcat(pre, row.cells[k]);
    ContainsInMiddle(Lower(pre), Lower(row.cells[k]), Lower(post + tail), Lower(query));
  }

  /**
   * The delete button's label is part of every row's text, so searching for
   * "excluir" (in any case) keeps every row visible whatever its cells hold.
   */
  lemma DeleteLabelMatchesEveryRow(row: TableRow)
    ensures RowMatches(RowText(row), "excluir")
    ensures RowMatches(RowText(row), DeleteLabel)
  {
    var pre := CellsText(row.cells) + CellIndent;
    assert RowText(row) == pre + DeleteLabel + RowEnd;
    LowerConcat(pre + DeleteLabel, RowEnd);
    LowerConcat(pre, DeleteLabel);
    assert Lower(DeleteLabel) == "excluir";
    assert Lower("excluir") == "excluir";
    assert OccursAt("excluir", "excluir", 0);
    ContainsInMiddle(Lower(pre), Lower(DeleteLabel), Lower(RowEnd), "excluir");
  }
}
