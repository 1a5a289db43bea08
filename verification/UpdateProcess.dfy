/**
 * `updateProcess`: when an edited cell loses focus, the whole row is sent to
 * the server as `PUT /processes/{id}`.
 */
module UpdateProcess {
  import opened Wrappers
  import opened Records

  /** The request: the id goes in the path, the five cell texts in the body. */
  datatype PutRequest = PutRequest(id: string, body: JsonObject)

  /** The request sent and what follows the reply: on failure an alert and a full reload. */
  datatype UpdateOutcome = UpdateOutcome(request: PutRequest, alerted: bool, reload: bool)

  /**
   * The update action for a rendered row. The path carries the row's
   * `data-id`; the body holds the texts of the five editable cells under the
   * field names in column order, and no `id`. A failed request alerts the
   * user and reloads the whole table; a successful one changes nothing on
   * the page.
   */
  function UpdateProcess(row: TableRow, putSucceeds: bool): (r: UpdateOutcome)
    requires |row.cells| == |FieldNames|
    ensures r.request.id == row.id
    ensures Keys(r.request.body) == FieldNames
    ensures Get(r.request.body, "id") == None
    ensures forall k :: 0 <= k < |FieldNames| ==> Get(r.request.body, FieldNames[k]) == Some(row.cells[k])
    ensures r.alerted == !putSucceeds && r.reload == !putSucceeds
  {
    ObjectOfLayout(row.cells);
    UpdateOutcome(PutRequest(row.id, ObjectOf(row.cells)), !putSucceeds, !putSucceeds)
  }

  /**
   * A rendered row sent back before any edit carries what the record held:
   * every present field unchanged, every missing field as the empty string,
   * and the record's id in the path ("undefined" when it had none).
   */
  lemma UnchangedRowSendsRecord(p: Process, putSucceeds: bool)
    ensures var req := UpdateProcess(RenderRow(p), putSucceeds).request;
      && (p.id.Some? ==> req.id == p.id.value)
      && (p.id.None? ==> req.id == "undefined")
      && Get(req.body, "pc") == Some(p.pc.GetOr(""))
      && Get(req.body, "fornecedor") == Some(p.fornecedor.GetOr(""))
      && Get(req.body, "modalidade") == Some(p.modalidade.GetOr(""))
      && Get(req.body, "numMod") == Some(p.numMod.GetOr(""))
      && Get(req.body, "info") == Some(p.info.GetOr(""))
  {
    var row := RenderRow(p);
    var req := UpdateProcess(row, putSucceeds).request;
    assert Get(req.body, FieldNames[0]) == Some(row.cells[0]);
    assert Get(req.body, FieldNames[1]) == Some(row.cells[1]);
    assert Get(req.body, FieldNames[2]) == Some(row.cells[2]);
    assert Get(req.body, FieldNames[3]) == Some(row.cells[3]);
    assert Get(req.body, FieldNames[4]) == Some(row.cells[4]);
  }
}
