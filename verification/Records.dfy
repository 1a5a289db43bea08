/**
 * The process records the page fetches and sends, the JSON bodies it builds,
 * and the table rows it renders from them.
 */
module Records {
  import opened Wrappers

  /**
   * A process record as returned by `GET /processes`. Every field may be
   * absent from the JSON, hence `Option` (`None` stands for a missing or null
   * member).
   */
  datatype Process = Process(
    id: Option<string>,
    pc: Option<string>,
    fornecedor: Option<string>,
    modalidade: Option<string>,
    numMod: Option<string>,
    info: Option<string>)

  /** The editable fields, in the order of the table's columns and of every body the page sends. */
  const FieldNames: seq<string> := ["pc", "fornecedor", "modalidade", "numMod", "info"]

  /** A JSON object with string values; its members in the order `JSON.stringify` writes them. */
  type JsonObject = seq<(string, string)>

  /** The object literal `{ pc, fornecedor, modalidade, numMod, info }` over the given values. */
  function ObjectOf(values: seq<string>): JsonObject
    requires |values| == |FieldNames|
  {
    [(FieldNames[0], values[0]), (FieldNames[1], values[1]), (FieldNames[2], values[2]),
     (FieldNames[3], values[3]), (FieldNames[4], values[4])]
  }

  /** The member names of an object, in order. */
  function Keys(o: JsonObject): seq<string> {
    seq(|o|, i requires 0 <= i < |o| => o[i].0)
  }

  /** Property access `o[key]`: the first member with that name, if any. */
  function Get(o: JsonObject, key: string): Option<string> {
    if o == [] then None
    else if o[0].0 == key then Some(o[0].1)
    else Get(o[1..], key)
  }

  /** No member name occurs twice. */
  predicate DistinctKeys(o: JsonObject) {
    forall i, j :: 0 <= i < j < |o| ==> o[i].0 != o[j].0
  }

  /** In an object without repeated names, reading a member's name gives back its value. */
  lemma {:induction false} GetMember(o: JsonObject, k: nat)
    requires DistinctKeys(o) && k < |o|
    ensures Get(o, o[k].0) == Some(o[k].1)
  {
    if k > 0 {
      assert o[0].0 != o[k].0;
      assert o[1..][k - 1] == o[k];
      GetMember(o[1..], k - 1);
    }
  }

  /** Reading a name that is not a member gives nothing. */
  lemma {:induction false} GetAbsent(o: JsonObject, key: string)
    requires key !in Keys(o)
    ensures Get(o, key) == None
  {
    if o != [] {
      assert o[0].0 == Keys(o)[0];
      assert Keys(o[1..]) == Keys(o)[1..];
      GetAbsent(o[1..], key);
    }
  }

  /**
   * The object built from five values has exactly the five field names, in
   * column order, each bound to the value at its position, and no `id`.
   */
  lemma ObjectOfLayout(values: seq<string>)
    requires |values| == |FieldNames|
    ensures Keys(ObjectOf(values)) == FieldNames
    ensures forall k :: 0 <= k < |FieldNames| ==> Get(ObjectOf(values), FieldNames[k]) == Some(values[k])
    ensures Get(ObjectOf(values), "id") == None
  {
    var o := ObjectOf(values);
    assert Keys(o) == FieldNames;
    forall k | 0 <= k < |FieldNames|
      ensures Get(o, FieldNames[k]) == Some(values[k])
    {
      GetMember(o, k);
    }
    GetAbsent(o, "id");
  }

  /** `value || ''`: the text a cell shows for a field; a missing field shows as empty. */
  function Display(f: Option<string>): (s: string)
    ensures f.Some? ==> s == f.value
    ensures f.None? ==> s == ""
  {
    f.GetOr("")
  }

  /**
   * `row.dataset.id = process.id`: a dataset entry always holds a string, so
   * a record without an id gets the text "undefined".
   */
  function DatasetId(id: Option<string>): string {
    if id.Some? then id.value else "undefined"
  }

  /** A rendered table row: its `data-id` and the texts of its editable cells. */
  datatype TableRow = TableRow(id: string, cells: seq<string>)

  /** The row `loadProcesses` renders for one record. */
  function RenderRow(p: Process): (r: TableRow)
    ensures |r.cells| == |FieldNames|
    ensures p.id.Some? ==> r.id == p.id.value
    ensures r.cells[0] == Display(p.pc) && r.cells[1] == Display(p.fornecedor)
      && r.cells[2] == Display(p.modalidade) && r.cells[3] == Display(p.numMod)
      && r.cells[4] == Display(p.info)
  {
    TableRow(DatasetId(p.id),
      [Display(p.pc), Display(p.fornecedor), Display(p.modalidade), Display(p.numMod), Display(p.info)])
  }

  /** The template's line break and indentation before each cell of a row. */
  const CellIndent: string := "\n                    "

  /** The template's line break and indentation after the last cell. */
  const RowEnd: string := "\n                "

  /** The label of the delete button in the row's last cell. */
  const DeleteLabel: string := "Excluir"

  /** The text of a run of cells, each preceded by the template's indentation. */
  function CellsText(cells: seq<string>): string {
    if cells == [] then "" else CellIndent + cells[0] + CellsText(cells[1..])
  }

  /** `row.textContent`: the cells' texts, the delete button's label and the template's whitespace. */
  function RowText(row: TableRow): string {
    CellsText(row.cells) + CellIndent + DeleteLabel + RowEnd
  }

  /** Each cell's text appears whole inside the text of its row of cells. */
  lemma {:induction false} CellInCellsText(cells: seq<string>, k: nat) returns (pre: string, post: string)
    requires k < |cells|
    ensures CellsText(cells) == pre + cells[k] + post
  {
    if k == 0 {
      pre, post := CellIndent, CellsText(cells[1..]);
    } else {
      var p, q := CellInCellsText(cells[1..], k - 1);
      pre, post := CellIndent + cells[0] + p, q;
    }
  }
}
