/** `salvar_grupo_informacao_adicional.py`: read the rows of the
    additional-information-group tab, post each one as a registration form,
    and write the portal's message into the row's `resultado` cell. */
module SaveGroups {
  import opened Results
  import opened Json
  import opened Portal
  import opened Sheets
  import opened Saving
  import Text
  import FetchGroups

  const EndpointPath := "/Gente/Produtos/FolhaDePagamento/GrupoDeInformacaoAdicional/Salvar"
  const Tab := "e3eaa866-3fab-4931-bc56-802923127f09"

  /** `row.get(k)`: the cell under column `k`, or `None`. */
  function Cell(row: map<string, string>, k: string): Value
  {
    if k in row then Str(row[k]) else Null
  }

  const FormKeys: set<string> := {
    "chaveParaExcluirItem", "chaveParaConsultarItem", "Cadastro_InserindoNovoRegistro", "_TxtCodigo",
    "Codigo", "cboModulo", "cboConceito", "Descricao", "X-Requested-With", "identificadorDaAba"
  }

  /** The `form_data` dict `run` posts for one row. */
  function FormData(row: map<string, string>): map<string, Value>
  {
    map[
      "chaveParaExcluirItem" := Str("Codigo"),
      "chaveParaConsultarItem" := Str("Codigo"),
      "Cadastro_InserindoNovoRegistro" := Str("true"),
      "_TxtCodigo" := Cell(row, "codigo"),
      "Codigo" := Cell(row, "codigo"),
      "cboModulo" := Cell(row, "modulo"),
      "cboConceito" := Cell(row, "codigo_conceito"),
      "Descricao" := Cell(row, "descricao"),
      "X-Requested-With" := Str("XMLHttpRequest"),
      "identificadorDaAba" := Str(Tab)
    ]
  }

  /** Every form has the same ten fields: the fixed ones, the code under both
      of its names, and module, concept and description from the row. */
  lemma FormDataFields(row: map<string, string>)
    ensures var form := FormData(row);
      form.Keys == FormKeys &&
      form["Cadastro_InserindoNovoRegistro"] == Str("true") &&
      form["identificadorDaAba"] == Str(Tab) &&
      form["Codigo"] == form["_TxtCodigo"] == Cell(row, "codigo") &&
      form["cboModulo"] == Cell(row, "modulo") &&
      form["cboConceito"] == Cell(row, "codigo_conceito") &&
      form["Descricao"] == Cell(row, "descricao")
  {
  }

  /** A row the group fetch wrote, read back under its header (with or
      without the `resultado` column after it), gives the form the code,
      module, concept and description the fetch put in its columns. */
  lemma FormOfFetchedRow(cells: seq<string>, extra: seq<string>)
    requires |cells| == |FetchGroups.SheetHeader|
    ensures var form := FormData(RowMap(WithResultColumn(FetchGroups.SheetHeader), cells + extra));
      form["Codigo"] == form["_TxtCodigo"] == Str(cells[4]) &&
      form["cboModulo"] == Str(cells[3]) &&
      form["cboConceito"] == Str(cells[1]) &&
      form["Descricao"] == Str(cells[5])
  {
    var row := RowMap(WithResultColumn(FetchGroups.SheetHeader), cells + extra);
    ReadBackColumns(cells, extra);
    FormDataFields(row);
  }

  /** The columns the form uses, read back from a fetched row. */
  lemma ReadBackColumns(cells: seq<string>, extra: seq<string>)
    requires |cells| == |FetchGroups.SheetHeader|
    ensures var row := RowMap(WithResultColumn(FetchGroups.SheetHeader), cells + extra);
      "codigo_conceito" in row && row["codigo_conceito"] == cells[1] &&
      "modulo" in row && row["modulo"] == cells[3] &&
      "codigo" in row && row["codigo"] == cells[4] &&
      "descricao" in row && row["descricao"] == cells[5]
  {
    var h := FetchGroups.SheetHeader;
    assert h[1] !in h[2..];
    assert h[3] !in h[4..];
    assert h[4] !in h[5..];
    assert h[5] !in h[6..];
    ReadBackColumn(cells, extra, 1);
    ReadBackColumn(cells, extra, 3);
    ReadBackColumn(cells, extra, 4);
    ReadBackColumn(cells, extra, 5);
  }

  /** A column whose name does not come again further right reads back as
      the fetched cell. */
  lemma ReadBackColumn(cells: seq<string>, extra: seq<string>, i: nat)
    requires |cells| == |FetchGroups.SheetHeader| && i < |cells|
    requires FetchGroups.SheetHeader[i] !in FetchGroups.SheetHeader[i + 1..]
    ensures var row := RowMap(WithResultColumn(FetchGroups.SheetHeader), cells + extra);
      FetchGroups.SheetHeader[i] in row && row[FetchGroups.SheetHeader[i]] == cells[i]
  {
    var h := FetchGroups.SheetHeader;
    assert ResultColumnName !in h;
    var header := h + [ResultColumnName];
    var row := cells + extra;
    RowMapLastWins(header, row);
    var n := Min(|header|, |row|);
    assert header[i + 1..n] <= h[i + 1..] + [ResultColumnName];
    assert header[i] == h[i] && row[i] == cells[i];
  }

  /** The payload `run` posts for a row; building it never raises. */
  function GroupPayload(row: map<string, string>): Result<map<string, Value>>
  {
    Ok(FormData(row))
  }

  /** `enviar_registro`: the message for one post. Every failure, including
      a body that parses but is not a dict, is reported with an `Erro`
      prefix. */
  function SendRecord(o: Outcome): Value
  {
    match o
    case Raised(e) => Str("Erro: " + e)
    case Reply(status, body) =>
      if status != 200 then Str("Erro HTTP " + Text.IntToDecimal(status))
      else match body
        case NotJson => Str("Resposta inválida (não-JSON)")
        case Parsed(v) =>
          match DictGet(v, "mensagem", Str("(sem mensagem)"))
          case Ok(m) => m
          case Err(e) => Str("Erro: " + e)
  }

  /** An HTTP error names its status, which reads back from the text; an
      exception and a body that is not a dict give `Erro: ` and the
      exception's text; a dict body gives its `mensagem` or
      `(sem mensagem)`. */
  lemma SendRecordMessages(o: Outcome)
    ensures o.Reply? && o.status != 200 ==>
      var m := SendRecord(o);
      m.Str? && |m.s| > 10 && m.s[..10] == "Erro HTTP " && Text.ParseInt(m.s[10..]) == Some(o.status)
    ensures o.Raised? ==> SendRecord(o) == Str("Erro: " + o.error)
    ensures o.Reply? && o.status == 200 && o.body.NotJson? ==> SendRecord(o) == Str("Resposta inválida (não-JSON)")
    ensures o.Reply? && o.status == 200 && o.body.Parsed? && !o.body.json.Object? ==>
      SendRecord(o) == Str("Erro: " + AttributeError(o.body.json, "get"))
    ensures o.Reply? && o.status == 200 && o.body.Parsed? && o.body.json.Object? ==>
      var fs := o.body.json.fields;
      SendRecord(o) == (if "mensagem" in Keys(fs) then Get(fs, "mensagem").value else Str("(sem mensagem)"))
  {
    if o.Reply? && o.status != 200 {
      var d := Text.IntToDecimal(o.status);
      Text.IntDecimalRoundTrip(o.status);
      var m := "Erro HTTP " + d;
      assert m[10..] == d;
    }
  }

  /** `run(url_base, cookies, cliente)`: make sure the `resultado` column
      exists, read the records, then post every one and write its message
      to row `i + 2` of that column; `send` answers the posts and
      `writeFails` says which cell writes raise. */
  method Run(urlBase: string, send: Replies, writeFails: nat -> bool, ws: Worksheet)
    requires ws.Valid()
    modifies ws
    ensures ws.Valid() && ws.header == WithResultColumn(old(ws.header)) && ws.body == old(ws.body)
    ensures var col := ResultColumn(old(ws.header));
      var records := RowsAsText(Padded([WithResultColumn(old(ws.header))] + old(ws.body))).value;
      var start := old(ws.updates) + (if ResultColumnName in old(ws.header) then [] else [CellUpdate(1, col, Str(ResultColumnName))]);
      FormsUpTo(records, GroupPayload, |records|) &&
      ws.updates == start + Writes(records, GroupPayload, SendRecord, send, Endpoint(urlBase, EndpointPath), col, writeFails, |records|)
  {
    var endpoint := Endpoint(urlBase, EndpointPath);
    var col := ws.EnsureResultColumn();
    ghost var start := ws.updates;
    assert start == old(ws.updates) + (if ResultColumnName in old(ws.header) then [] else [CellUpdate(1, col, Str(ResultColumnName))]);
    var data := ws.AllValues();
    assert data == Padded([WithResultColumn(old(ws.header))] + old(ws.body));
    var records := RowsAsText(data).value;
    var result := SendAll(records, GroupPayload, SendRecord, send, endpoint, col, writeFails, ws);
  }
}
