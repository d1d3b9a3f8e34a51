/** `salvar_informacao_adicional.py`: read the rows of the
    additional-information tab, post each one as a registration form, and
    write the portal's message into the row's `resultado` cell. */
module SaveInfo {
  import opened Results
  import opened Json
  import opened Portal
  import opened Sheets
  import opened Saving
  import Text

  const EndpointPath := "/Gente/Produtos/FolhaDePagamento/InformacaoAdicional/Salvar"
  const Tab := "1357cb4d-919b-4f17-ac76-800cd42ecc71"

  // ---------------------------------------------------------------------------
  // safe_str
  // ---------------------------------------------------------------------------

  /** `safe_str`: `None` becomes the empty text; otherwise every `.` becomes
      `,`, a value with exactly two comma-separated pieces whose second has
      one character gets a trailing `0`, and the result is stripped. */
  function SafeStr(value: Option<string>): (r: string)
    ensures value.None? ==> r == ""
    ensures '.' !in r
  {
    match value
    case None => ""
    case Some(s) => Text.Strip(PadDecimal(Text.ReplaceChar(s, '.', ',')))
  }

  /** The padding step of `safe_str`. */
  function PadDecimal(t: string): (r: string)
    ensures '.' !in t ==> '.' !in r
  {
    if ',' in t then
      var partes := Text.Split(t, ',');
      if |partes| == 2 && |partes[1]| == 1 then
        Text.JoinSplit(t, ',');
        assert Text.Join(partes[1..], ',') == partes[1];
        assert partes[0] + "," + partes[1] + "0" == t + "0";
        partes[0] + "," + partes[1] + "0"
      else t
    else t
  }

  /** The padding rule in terms of the text after the replacement: a `0` is
      added exactly when that text has one comma and it is the next-to-last
      character. */
  lemma SafeStrPadding(s: string)
    ensures var t := Text.ReplaceChar(s, '.', ',');
      var pads := Text.Count(t, ',') == 1 && |t| >= 2 && t[|t| - 2] == ',';
      SafeStr(Some(s)) == Text.Strip(if pads then t + "0" else t)
  {
    var t := Text.ReplaceChar(s, '.', ',');
    var partes := Text.Split(t, ',');
    Text.JoinSplit(t, ',');
    Text.CountAbsent(t, ',');
    if |partes| == 2 {
      assert partes[1..] == [partes[1]];
      assert t == partes[0] + [','] + partes[1];
      var n := |partes[0]|;
      assert t[n] == ',';
      if |partes[1]| == 1 {
        assert partes[0] + "," + partes[1] + "0" == t + "0";
      } else if |partes[1]| == 0 {
        if n > 0 {
          assert t[|t| - 2] == partes[0][n - 1];
        }
      } else {
        assert t[|t| - 2] == partes[1][|partes[1]| - 2];
      }
    }
  }

  // ---------------------------------------------------------------------------
  // montar_payload
  // ---------------------------------------------------------------------------

  /** `row.get(k, default)` on a row read as text. */
  function TextOr(row: map<string, string>, k: string, default: string): string
  {
    if k in row then row[k] else default
  }

  /** `row.get(k, default)` where the default need not be text. */
  function CellOr(row: map<string, string>, k: string, default: Value): Value
  {
    if k in row then Str(row[k]) else default
  }

  /** `int(row.get("Tipo", 0) or 0)`: a missing or empty cell is 0, other
      text must be an integer literal, or `ValueError` is raised. */
  function ParseTipo(row: map<string, string>): Result<int>
  {
    var raw := TextOr(row, "Tipo", "");
    if raw == "" then Ok(0)
    else match Text.ParseInt(raw)
      case Some(i) => Ok(i)
      case None => Err("invalid literal for int() with base 10: '" + raw + "'")
  }

  /** A cell holding `str(i)` reads back as `i`; a missing or empty cell
      reads as 0; any other text that is not an integer literal fails. */
  lemma ParseTipoReads(row: map<string, string>, i: int)
    ensures "Tipo" in row && row["Tipo"] == Text.IntToDecimal(i) ==> ParseTipo(row) == Ok(i)
    ensures ("Tipo" !in row || row["Tipo"] == "") ==> ParseTipo(row) == Ok(0)
    ensures ParseTipo(row).Err? <==> "Tipo" in row && row["Tipo"] != "" && Text.ParseInt(row["Tipo"]).None?
  {
    Text.IntDecimalRoundTrip(i);
  }

  /** The keys every payload has. */
  const BaseKeys: set<string> := {
    "chaveParaExcluirItem", "chaveParaConsultarItem", "Status", "Cadastro_InserindoNovoRegistro",
    "cboModulo", "cboConceito", "Ordem", "DtoGrupoDeInformacoesAdicionais.Codigo", "Codigo",
    "_TxtCodigo", "Descricao", "Observacao", "Tipo", "Obrigatorio",
    "InserirValorPadraoEmRegistrosAtivos", "APartirDe", "identificadorDaAba", "X-Requested-With"
  }

  /** The keys a payload has besides the base ones, by `tipo`. */
  function ExtraKeys(tipo: int): set<string>
  {
    if tipo == 0 then {"Comprimento", "NumeroDeLinhasVisiveis", "Mascara", "ValorPadrao"}
    else if tipo == 1 then {"ValorPadrao"}
    else if tipo == 2 then {"Mascara", "PreenchimentoExclusivo", "ValorPadrao"}
    else if tipo == 3 then {"Comprimento", "QuantidadeCasasDecimais"}
    else if tipo == 4 then {"MascaraDeData.Codigo"}
    else if tipo == 5 then {"OpcoesSelecaoUnica", "OpcoesSelecaoUnicaRemovidos", "FormaDeApresentacaoSelUnica", "NumeroDeLinhasVisiveis"}
    else {}
  }

  /** The `base` dict of `montar_payload`. */
  function Base(row: map<string, string>, tab: string, tipo: int): map<string, Value>
  {
    map[
      "chaveParaExcluirItem" := Str("Codigo"),
      "chaveParaConsultarItem" := Str("Codigo"),
      "Status" := Str("ATIVO"),
      "Cadastro_InserindoNovoRegistro" := Str("True"),
      "cboModulo" := Str(TextOr(row, "modulo", "")),
      "cboConceito" := Str(TextOr(row, "codigo_conceito", "")),
      "Ordem" := Str(TextOr(row, "Ordem", "")),
      "DtoGrupoDeInformacoesAdicionais.Codigo" := Str(TextOr(row, "codigo_informacao_adicional", "")),
      "Codigo" := Str(TextOr(row, "Codigo", "")),
      "_TxtCodigo" := Str(TextOr(row, "Codigo", "")),
      "Descricao" := Str(TextOr(row, "Descricao", "")),
      "Observacao" := Str(TextOr(row, "Observacao", "")),
      "Tipo" := Int(tipo),
      "Obrigatorio" := Str(Text.Capitalize(TextOr(row, "Obrigatorio", "False"))),
      "InserirValorPadraoEmRegistrosAtivos" := Str(Text.Lower(TextOr(row, "InserirValorPadraoEmRegistrosAtivos", "false"))),
      "APartirDe" := Str(TextOr(row, "APartirDe", "")),
      "identificadorDaAba" := Str(tab),
      "X-Requested-With" := Str("XMLHttpRequest")
    ]
  }

  /** The mask as the form sends it. */
  function Mascara(row: map<string, string>): Value
  {
    Str(SafeStr(Some(TextOr(row, "Mascara", ""))))
  }

  /** The fields `base.update` adds for `tipo`. */
  function Extra(row: map<string, string>, tipo: int): map<string, Value>
  {
    if tipo == 0 then
      map["Comprimento" := Str(TextOr(row, "Comprimento", "")),
          "NumeroDeLinhasVisiveis" := Str(TextOr(row, "NumeroDeLinhasVisiveis", "")),
          "Mascara" := Mascara(row),
          "ValorPadrao" := Str(TextOr(row, "ValorPadrao", ""))]
    else if tipo == 1 then
      map["ValorPadrao" := Str(TextOr(row, "ValorPadrao", ""))]
    else if tipo == 2 then
      map["Mascara" := Mascara(row),
          "PreenchimentoExclusivo" := Str(Text.Capitalize(TextOr(row, "PreenchimentoExclusivo", "False"))),
          "ValorPadrao" := Str(TextOr(row, "ValorPadrao", ""))]
    else if tipo == 3 then
      map["Comprimento" := Str(TextOr(row, "Comprimento", "")),
          "QuantidadeCasasDecimais" := Str(TextOr(row, "QuantidadeCasasDecimais", ""))]
    else if tipo == 4 then
      map["MascaraDeData.Codigo" := Str(TextOr(row, "MascaraDeData", ""))]
    else if tipo == 5 then
      map["OpcoesSelecaoUnica" := Str(TextOr(row, "Opcoes", "[]")),
          "OpcoesSelecaoUnicaRemovidos" := Str("[]"),
          "FormaDeApresentacaoSelUnica" := CellOr(row, "FormaDeApresentacaoSelUnica", Int(0)),
          "NumeroDeLinhasVisiveis" := CellOr(row, "NumeroDeLinhasVisiveis", Int(1))]
    else map[]
  }

  /** `montar_payload(row, identificador_da_aba)`. */
  function BuildPayload(row: map<string, string>, tab: string): Result<map<string, Value>>
  {
    match ParseTipo(row)
    case Err(e) => Err(e)
    case Ok(tipo) => Ok(Base(row, tab, tipo) + Extra(row, tipo))
  }

  /** The fields `montar_payload` adds for a `tipo` are exactly the ones
      listed for it. */
  lemma ExtraHasItsKeys(row: map<string, string>, tipo: int)
    ensures Extra(row, tipo).Keys == ExtraKeys(tipo)
  {
  }

  /** A payload exists exactly when `Tipo` reads as an integer; it then has
      the base keys plus the keys of its `tipo`, the fixed values, the same
      code twice, the normalized flags, and the mask through `safe_str`. */
  lemma PayloadContents(row: map<string, string>, tab: string)
    ensures BuildPayload(row, tab).Ok? <==> ParseTipo(row).Ok?
    ensures BuildPayload(row, tab).Err? ==> BuildPayload(row, tab).error == ParseTipo(row).error
    ensures BuildPayload(row, tab).Ok? ==>
      var p := BuildPayload(row, tab).value;
      var tipo := ParseTipo(row).value;
      p.Keys == BaseKeys + ExtraKeys(tipo) &&
      p["Status"] == Str("ATIVO") &&
      p["Cadastro_InserindoNovoRegistro"] == Str("True") &&
      p["identificadorDaAba"] == Str(tab) &&
      p["Tipo"] == Int(tipo) &&
      p["Codigo"] == p["_TxtCodigo"] == Str(TextOr(row, "Codigo", "")) &&
      p["Obrigatorio"] == Str(Text.Capitalize(TextOr(row, "Obrigatorio", "False"))) &&
      p["InserirValorPadraoEmRegistrosAtivos"] == Str(Text.Lower(TextOr(row, "InserirValorPadraoEmRegistrosAtivos", "false"))) &&
      ("Mascara" in p ==> p["Mascara"] == Mascara(row))
  {
    if ParseTipo(row).Ok? {
      var tipo := ParseTipo(row).value;
      ExtraHasItsKeys(row, tipo);
      BaseHasItsKeys(row, tab, tipo);
      BaseFixedValues(row, tab, tipo);
      BaseRowValues(row, tab, tipo);
      var p := Base(row, tab, tipo) + Extra(row, tipo);
      BaseExtraDisjoint(tipo);
      forall k | k in BaseKeys
        ensures p[k] == Base(row, tab, tipo)[k]
      {
        assert k !in ExtraKeys(tipo);
      }
      MascaraField(Base(row, tab, tipo), row, tipo);
    }
  }

  /** The mask, where the payload has one, is the text through `safe_str`:
      no base field is called `Mascara`. */
  lemma MascaraField(base: map<string, Value>, row: map<string, string>, tipo: int)
    requires base.Keys == BaseKeys
    ensures var p := base + Extra(row, tipo);
      "Mascara" in p ==> p["Mascara"] == Mascara(row)
  {
    ExtraHasItsKeys(row, tipo);
    ExtraMascara(row, tipo);
    assert "Mascara" !in BaseKeys;
  }

  /** Only the free-text and the numeric-text kinds carry a mask, and it is
      the row's mask through `safe_str`. */
  lemma ExtraMascara(row: map<string, string>, tipo: int)
    ensures "Mascara" in ExtraKeys(tipo) <==> tipo == 0 || tipo == 2
    ensures tipo == 0 || tipo == 2 ==> Extra(row, tipo)["Mascara"] == Mascara(row)
  {
    MascaraKinds(tipo);
    if tipo == 0 {
      MascaraOfKind(row, 0);
    } else if tipo == 2 {
      MascaraOfKind(row, 2);
    }
  }

  /** The mask of the two kinds that carry one. */
  lemma MascaraOfKind(row: map<string, string>, tipo: int)
    requires tipo == 0 || tipo == 2
    ensures "Mascara" in Extra(row, tipo) && Extra(row, tipo)["Mascara"] == Mascara(row)
  {
    var m := "Mascara";
    assert |m| != |"ValorPadrao"| && |m| != |"PreenchimentoExclusivo"|;
  }

  /** The kinds whose extra keys include `Mascara`. */
  lemma MascaraKinds(tipo: int)
    ensures "Mascara" in ExtraKeys(tipo) <==> tipo == 0 || tipo == 2
  {
    var m := "Mascara";
    assert |m| == 7;
    if tipo == 1 {
      assert ExtraKeys(tipo) == {"ValorPadrao"};
    } else if tipo == 3 {
      assert ExtraKeys(tipo) == {"Comprimento", "QuantidadeCasasDecimais"};
    } else if tipo == 4 {
      assert ExtraKeys(tipo) == {"MascaraDeData.Codigo"};
    } else if tipo == 5 {
      assert forall k :: k in ExtraKeys(tipo) ==> |k| > 7;
    }
  }

  /** No field `montar_payload` adds for a `tipo` overwrites a base field. */
  lemma BaseExtraDisjoint(tipo: int)
    ensures BaseKeys !! ExtraKeys(tipo)
  {
  }

  lemma BaseHasItsKeys(row: map<string, string>, tab: string, tipo: int)
    ensures Base(row, tab, tipo).Keys == BaseKeys
  {
  }

  /** The base fields the design fixes. */
  lemma BaseFixedValues(row: map<string, string>, tab: string, tipo: int)
    ensures var b := Base(row, tab, tipo);
      b["Status"] == Str("ATIVO") &&
      b["Cadastro_InserindoNovoRegistro"] == Str("True") &&
      b["identificadorDaAba"] == Str(tab) &&
      b["Tipo"] == Int(tipo)
  {
  }

  /** The base fields taken from the row: the code twice, and the two flags
      normalized. */
  lemma BaseRowValues(row: map<string, string>, tab: string, tipo: int)
    ensures var b := Base(row, tab, tipo);
      b["Codigo"] == b["_TxtCodigo"] == Str(TextOr(row, "Codigo", "")) &&
      b["Obrigatorio"] == Str(Text.Capitalize(TextOr(row, "Obrigatorio", "False"))) &&
      b["InserirValorPadraoEmRegistrosAtivos"] == Str(Text.Lower(TextOr(row, "InserirValorPadraoEmRegistrosAtivos", "false")))
  {
  }

  /** The payload `run` builds for each row. */
  function TabPayload(row: map<string, string>): Result<map<string, Value>>
  {
    BuildPayload(row, Tab)
  }

  // ---------------------------------------------------------------------------
  // enviar_registro
  // ---------------------------------------------------------------------------

  /** `enviar_registro`: the message for one post. A body that parses but
      is not a dict makes `.get` raise, and that exception's text is the
      message, like any other. */
  function SendRecord(o: Outcome): Value
  {
    match o
    case Raised(e) => Str(e)
    case Reply(status, body) =>
      if status != 200 then Str("Erro HTTP " + Text.IntToDecimal(status))
      else match body
        case NotJson => Str("Resposta inválida")
        case Parsed(v) =>
          match DictGet(v, "mensagem", Str("(sem mensagem)"))
          case Ok(m) => m
          case Err(e) => Str(e)
  }

  /** The message tells the outcome apart: an HTTP error names its status,
      which reads back from the text; a dict body gives its `mensagem` or
      `(sem mensagem)`; any other body gives the `AttributeError` text. */
  lemma SendRecordMessages(o: Outcome)
    ensures o.Reply? && o.status != 200 ==>
      var m := SendRecord(o);
      m.Str? && |m.s| > 10 && m.s[..10] == "Erro HTTP " && Text.ParseInt(m.s[10..]) == Some(o.status)
    ensures o.Reply? && o.status == 200 && o.body.Parsed? && o.body.json.Object? ==>
      var fs := o.body.json.fields;
      SendRecord(o) == (if "mensagem" in Keys(fs) then Get(fs, "mensagem").value else Str("(sem mensagem)"))
    ensures o.Reply? && o.status == 200 && o.body.NotJson? ==> SendRecord(o) == Str("Resposta inválida")
    ensures o.Reply? && o.status == 200 && o.body.Parsed? && !o.body.json.Object? ==>
      SendRecord(o) == Str(AttributeError(o.body.json, "get"))
    ensures o.Raised? ==> SendRecord(o) == Str(o.error)
  {
    if o.Reply? && o.status != 200 {
      var d := Text.IntToDecimal(o.status);
      Text.IntDecimalRoundTrip(o.status);
      var m := "Erro HTTP " + d;
      assert m[10..] == d;
      assert |d| >= 1;
    }
    if o.Reply? && o.status == 200 && o.body.Parsed? && o.body.json.Object? {
      var fs := o.body.json.fields;
      if "mensagem" in Keys(fs) {
        var r := Get(fs, "mensagem");
      }
    }
  }

  // ---------------------------------------------------------------------------
  // run
  // ---------------------------------------------------------------------------

  /** `run(url_base, cookies, cliente)`: make sure the `resultado` column
      exists, read the rows, then post every row and write its message to
      row `i + 2` of that column; `send` answers the posts and `writeFails`
      says which cell writes raise. */
  method Run(urlBase: string, send: Replies, writeFails: nat -> bool, ws: Worksheet) returns (result: Result<()>)
    requires ws.Valid()
    modifies ws
    ensures ws.Valid() && ws.header == WithResultColumn(old(ws.header)) && ws.body == old(ws.body)
    ensures var col := ResultColumn(old(ws.header));
      var records := RowsAsText(Padded([WithResultColumn(old(ws.header))] + old(ws.body))).value;
      var endpoint := Endpoint(urlBase, EndpointPath);
      var start := old(ws.updates) + (if ResultColumnName in old(ws.header) then [] else [CellUpdate(1, col, Str(ResultColumnName))]);
      (result.Ok? <==> FormsUpTo(records, TabPayload, |records|)) &&
      (result.Ok? ==> ws.updates == start + Writes(records, TabPayload, SendRecord, send, endpoint, col, writeFails, |records|)) &&
      (result.Err? ==>
        exists k :: 0 <= k < |records| && FormsUpTo(records, TabPayload, k) && TabPayload(records[k]).Err? &&
          result.error == TabPayload(records[k]).error &&
          ws.updates == start + Writes(records, TabPayload, SendRecord, send, endpoint, col, writeFails, k))
  {
    var endpoint := Endpoint(urlBase, EndpointPath);
    var col := ws.EnsureResultColumn();
    ghost var start := ws.updates;
    assert start == old(ws.updates) + (if ResultColumnName in old(ws.header) then [] else [CellUpdate(1, col, Str(ResultColumnName))]);
    var data := ws.AllValues();
    assert data == Padded([WithResultColumn(old(ws.header))] + old(ws.body));
    var records := RowsAsText(data).value;
    result := SendAll(records, TabPayload, SendRecord, send, endpoint, col, writeFails, ws);
  }
}
