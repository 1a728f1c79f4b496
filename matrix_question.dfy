/** The answer-update rules of the matrix widget: one column per row. */
module MatrixQuestion {

  datatype MatrixRow = MatrixRow(id: string, rowLabel: string)

  /** Row id to column id. */
  type MatrixValue = map<string, string>

  /** `isSelected`: the row's stored column is this one. */
  predicate IsSelected(value: MatrixValue, rowId: string, columnId: string) {
    rowId in value && value[rowId] == columnId
  }

  /** `handleCellClick`: the row gets the column, every other row keeps its answer. Row ids are not checked. */
  function HandleCellClick(value: MatrixValue, rowId: string, columnId: string): (r: MatrixValue)
    ensures r.Keys == value.Keys + {rowId}
    ensures IsSelected(r, rowId, columnId)
    ensures forall c :: c != columnId ==> !IsSelected(r, rowId, c)
    ensures forall row :: row != rowId ==> (row in r <==> row in value) && (row in r ==> r[row] == value[row])
  {
    value[rowId := columnId]
  }

  /** Clicking the same cell twice gives what clicking it once gives. */
  lemma ClickIdempotent(value: MatrixValue, rowId: string, columnId: string)
    ensures HandleCellClick(HandleCellClick(value, rowId, columnId), rowId, columnId)
      == HandleCellClick(value, rowId, columnId)
  {
  }

  /** The "answer all rows" hint: required, and fewer keys than rows. */
  predicate ShowAllRowsHint(required: bool, value: MatrixValue, rows: seq<MatrixRow>) {
    required && |value.Keys| < |rows|
  }

  /**
   * The hint counts keys, not answered rows: an answer for an id that is not
   * a row hides the hint while a real row is still unanswered.
   */
  lemma HintCountsForeignKeys()
    ensures var rows := [MatrixRow("a", "A"), MatrixRow("b", "B")];
      var value := HandleCellClick(HandleCellClick(map[], "a", "yes"), "stale", "no");
      !ShowAllRowsHint(true, value, rows) && "b" !in value
  {
    var value := HandleCellClick(HandleCellClick(map[], "a", "yes"), "stale", "no");
    assert value.Keys == {"a", "stale"};
    assert |value.Keys| == 2;
  }
}
