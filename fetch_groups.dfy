/** `buscar_grupo_de_informacao_adicional.py`: for every concept, fetch the
    list of additional-information groups from the portal and write one
    seven-column row per group under a fixed header, in a single append. */
module FetchGroups {
  import opened Results
  import opened Json
  import opened Portal
  import opened Sheets
  import opened Records

  const EndpointPath := "/Gente/Produtos/FolhaDePagamento/GrupoDeInformacaoAdicional/ObtenhaListaDeGrupoDeInformacoesAdicionais"
  const Tab := "5039b8f1-6081-456d-8ef7-371b4fa3cdde"

  /** Row 1 of the tab, one name per column of a row. */
  const SheetHeader: seq<string> := ["cliente", "codigo_conceito", "descricao_conceito", "modulo", "codigo", "descricao", "ordem"]

  const EntityKey := "DtoEntidadeInformacaoAdicional"

  /** `item.get(k)`, for a record already known to be a dict. */
  function Field(fs: seq<(string, Value)>, k: string): Value
  {
    match Get(fs, k) case Some(v) => v case None => Null
  }

  /** The row `parse_rows` builds for one group, or the text of the
      exception it raises. */
  function GroupRow(item: Value, cliente: string, codigo: int, descricao: string): Result<Row>
  {
    match DictGet(item, EntityKey, Object([]))
    case Err(e) => Err(e)
    case Ok(d) =>
      var dto := Or(d, Object([]));
      match DictGet(dto, "Modulo", Null)
      case Err(e) => Err(e)
      case Ok(modulo) =>
        Ok([Str(cliente), Int(codigo), Str(descricao), modulo,
            Field(item.fields, "Codigo"), Field(item.fields, "Descricao"), Field(item.fields, "Ordem")])
  }

  /** `parse_rows`' row function for the run of `cliente`. */
  function GroupRowOf(cliente: string): RowOf
  {
    (item, codigo, descricao) => GroupRow(item, cliente, codigo, descricao)
  }

  /** A group gets a row exactly when it is a dict whose entity is missing,
      empty or a dict; the row has one cell per header column, in the
      header's order, and a missing entity leaves the module `None`. */
  lemma GroupRowShape(item: Value, cliente: string, codigo: int, descricao: string)
    ensures !item.Object? ==> GroupRow(item, cliente, codigo, descricao) == Err(AttributeError(item, "get"))
    ensures item.Object? ==>
      var entity := Field(item.fields, EntityKey);
      (GroupRow(item, cliente, codigo, descricao).Ok? <==> !Truthy(entity) || entity.Object?) &&
      (!Truthy(entity) ==> GroupRow(item, cliente, codigo, descricao).value[3] == Null) &&
      (Truthy(entity) && !entity.Object? ==>
        GroupRow(item, cliente, codigo, descricao) == Err(AttributeError(entity, "get")))
    ensures GroupRow(item, cliente, codigo, descricao).Ok? ==>
      var row := GroupRow(item, cliente, codigo, descricao).value;
      |row| == |SheetHeader| &&
      row[0] == Str(cliente) && row[1] == Int(codigo) && row[2] == Str(descricao) &&
      row[4] == Field(item.fields, "Codigo") && row[5] == Field(item.fields, "Descricao") &&
      row[6] == Field(item.fields, "Ordem")
  {
  }

  /** The rows of every concept for `cliente`, or the first exception. */
  function AllGroupRows(net: Network, urlBase: string, cliente: string): Result<seq<Row>>
  {
    RowsUpTo(net, Endpoint(urlBase, EndpointPath), Tab, GroupRowOf(cliente), |Conceitos|)
  }

  /** `run(url_base, cookies, cliente)`: the tab is cleared and gets the
      header, then the rows of every concept are gathered and appended in a
      single call, only when there is at least one; the result is `total`,
      or the exception that stopped the script. */
  method Run(urlBase: string, cliente: string, net: Network, sheet: OutputSheet) returns (result: Result<nat>)
    modifies sheet
    ensures result.Ok? <==> AllGroupRows(net, urlBase, cliente).Ok?
    ensures result.Ok? ==>
      var all := AllGroupRows(net, urlBase, cliente).value;
      && result.value == |all|
      && sheet.rows == [Cells(SheetHeader)] + all
      && sheet.batches == old(sheet.batches) + (if all == [] then [] else [all])
    ensures result.Err? ==>
      && result.error == AllGroupRows(net, urlBase, cliente).error
      && sheet.rows == [Cells(SheetHeader)]
      && sheet.batches == old(sheet.batches)
  {
    sheet.Clear();
    sheet.WriteHeader(Cells(SheetHeader));
    var all := GatherRows(net, Endpoint(urlBase, EndpointPath), GroupRowOf(cliente));
    if all.Err? {
      return Err(all.error);
    }
    if all.value != [] {
      sheet.AppendRows(all.value);
    }
    result := Ok(|all.value|);
  }

  /** The loop of `run` over the concepts: the rows of each are added to the
      buffer in order, and the first exception ends the script. */
  method GatherRows(net: Network, endpoint: string, rowOf: RowOf) returns (result: Result<seq<Row>>)
    ensures result == RowsUpTo(net, endpoint, Tab, rowOf, |Conceitos|)
  {
    var buffer: seq<Row> := [];
    var i := 0;
    while i < |Conceitos|
      invariant i <= |Conceitos|
      invariant RowsUpTo(net, endpoint, Tab, rowOf, i) == Ok(buffer)
    {
      var rows := FetchConcept(net, endpoint, Tab, rowOf, i);
      if rows.Err? {
        RowsStopAt(net, endpoint, Tab, rowOf, i);
        return Err(rows.error);
      }
      RowsStep(net, endpoint, Tab, rowOf, i);
      buffer := buffer + rows.value;
      i := i + 1;
    }
    result := Ok(buffer);
  }
}
