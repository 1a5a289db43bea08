/**
 * `addProcess`: reads the five inputs of the add form, trims them, refuses an
 * empty P.C., posts the new record and clears the form once the server
 * accepts it.
 */
module AddProcess {
  import opened Wrappers
  import opened JsText
  import opened Records

  /** The raw values of the add form's five inputs. */
  datatype AddForm = AddForm(pc: string, fornecedor: string, modalidade: string, numMod: string, info: string)

  /** The form after a successful add: every input emptied. */
  const EmptyForm: AddForm := AddForm("", "", "", "", "")

  /**
   * What one click on the add button leads to: the body posted (if any), the
   * form afterwards, whether the user is alerted and whether the table
   * reloads.
   */
  datatype AddOutcome = AddOutcome(posted: Option<JsonObject>, form: AddForm, alerted: bool, reload: bool)

  /** The five trimmed inputs, in column order. */
  function TrimmedValues(form: AddForm): (vs: seq<string>)
    ensures |vs| == |FieldNames|
  {
    [Trim(form.pc), Trim(form.fornecedor), Trim(form.modalidade), Trim(form.numMod), Trim(form.info)]
  }

  /**
   * The add action. An empty trimmed P.C. alerts and sends nothing. Otherwise
   * the body `{ pc, fornecedor, modalidade, numMod, info }` of the trimmed
   * inputs is posted; if the server accepts it the form is cleared and the
   * table reloads, if not the user is alerted and the form keeps its values.
   */
  function AddProcess(form: AddForm, postSucceeds: bool): (r: AddOutcome)
    ensures r.posted.None? <==> Trim(form.pc) == ""
    ensures r.posted.Some? ==>
      && Keys(r.posted.value) == FieldNames
      && Get(r.posted.value, "id") == None
      && Get(r.posted.value, "pc") == Some(Trim(form.pc))
      && Get(r.posted.value, "fornecedor") == Some(Trim(form.fornecedor))
      && Get(r.posted.value, "modalidade") == Some(Trim(form.modalidade))
      && Get(r.posted.value, "numMod") == Some(Trim(form.numMod))
      && Get(r.posted.value, "info") == Some(Trim(form.info))
    ensures r.reload <==> r.posted.Some? && postSucceeds
    ensures r.form == if r.reload then EmptyForm else form
    ensures r.alerted <==> !r.reload
  {
    var values := TrimmedValues(form);
    if values[0] == "" then
      AddOutcome(None, form, true, false)
    else
      ObjectOfLayout(values);
      var body := ObjectOf(values);
      if postSucceeds then AddOutcome(Some(body), EmptyForm, false, true)
      else AddOutcome(Some(body), form, true, false)
  }

  /**
   * Whenever a body is posted its P.C. is non-empty, neither starts nor ends
   * with whitespace, and stays the same if trimmed again; a P.C. made only of
   * whitespace is never posted.
   */
  lemma PostedPcIsTrimmedAndNonEmpty(form: AddForm, postSucceeds: bool)
    ensures var r := AddProcess(form, postSucceeds);
      r.posted.Some? ==>
        exists pc :: Get(r.posted.value, "pc") == Some(pc)
          && pc != "" && !IsJsWhitespace(pc[0]) && !IsJsWhitespace(pc[|pc| - 1])
          && Trim(pc) == pc
    ensures (forall i :: 0 <= i < |form.pc| ==> IsJsWhitespace(form.pc[i])) ==>
      AddProcess(form, postSucceeds).posted.None?
  {
    TrimEdges(form.pc);
    TrimIdempotent(form.pc);
    TrimEmptyIff(form.pc);
    var r := AddProcess(form, postSucceeds);
    if r.posted.Some? {
      assert Get(r.posted.value, "pc") == Some(Trim(form.pc));
    }
  }
}
