/** `buscar_informacoes_adicionais.py`: for every concept, fetch the list of
    additional-information records from the portal and write one spreadsheet
    row per record, under a header built from the first non-empty answer. */
module FetchInfo {
  import opened Results
  import opened Json
  import opened Portal
  import opened Sheets
  import opened Records
  import Text

  const EndpointPath := "/Gente/Produtos/FolhaDePagamento/InformacaoAdicional/ObtenhaListaDeInformacoesAdicionais"
  const Tab := "5039b8f1-6081-456d-8ef7-371b4fa3cdde"

  /** The rows are written in batches of at least this many. */
  const BatchSize := 1000

  const GroupKey := "DtoGrupoDeInformacoesAdicionais"
  const EntityKey := "DtoEntidadeInformacaoAdicional"

  /** The first six header names, one per fixed column of a row. */
  const HeaderPrefix: seq<string> := [
    "cliente", "descricao_conceito", "modulo", "codigo_conceito",
    "codigo_informacao_adicional", "descricao_informacao_adicional"
  ]

  /** The record keys used for the header when no concept answers with a
      non-empty list. */
  const FallbackKeys: seq<string> := [
    "Id", "TipoEntidade", "Codigo", "Descricao", "Status",
    "Observacao", "Obrigatorio", "DescricaoDoTipo", "Mascara",
    "FormaDeApresentacaoSelUnica", "FormaDeApresentacaoSelMultipla",
    "ValorPadrao", "Ordem"
  ]

  /** `normalize_value`: a dict or a list becomes its JSON text (`dumps`
      stands for `json.dumps(v, ensure_ascii=False)`); any other value is
      kept as it is. */
  function Normalize(v: Value, dumps: Value -> string): (r: Value)
    ensures !r.List? && !r.Object?
    ensures (v.List? || v.Object?) ==> r == Str(dumps(v))
    ensures !(v.List? || v.Object?) ==> r == v
  {
    if v.List? || v.Object? then Str(dumps(v)) else v
  }

  /** Normalizing twice is normalizing once. */
  lemma NormalizeIdempotent(v: Value, dumps: Value -> string)
    ensures Normalize(Normalize(v, dumps), dumps) == Normalize(v, dumps)
  {
  }

  /** The record's values, normalized, in ascending order of their keys; a
      key repeated in the body counts once, with its last value. */
  function SortedValues(fs: seq<(string, Value)>, dumps: Value -> string): (r: seq<Value>)
    ensures |r| == |Text.SortedDistinct(Keys(fs))|
    ensures forall i :: 0 <= i < |r| ==>
      var k := Text.SortedDistinct(Keys(fs))[i];
      k in Keys(fs) && r[i] == Normalize(Get(fs, k).value, dumps)
  {
    var ks := Text.SortedDistinct(Keys(fs));
    seq(|ks|, i requires 0 <= i < |ks| => Normalize(Get(fs, ks[i]).value, dumps))
  }

  /** The six fixed columns of a record's row — client, concept
      description, module, concept code, group code, group description — or
      the text of the exception reading them raises. */
  function FixedColumns(item: Value, cliente: string, codigo: int, descricao: string): (r: Result<seq<Value>>)
    ensures r.Ok? ==> |r.value| == 6 && r.value[0] == Str(cliente) && r.value[1] == Str(descricao) && r.value[3] == Int(codigo)
  {
    match DictGet(item, GroupKey, Object([]))
    case Err(e) => Err(e)
    case Ok(g) =>
      var grupo := Or(g, Object([]));
      match DictGet(grupo, EntityKey, Object([]))
      case Err(e) => Err(e)
      case Ok(en) =>
        var entidade := Or(en, Object([]));
        var codigoInf := DictGet(grupo, "Codigo", Null).value;
        var descInf := DictGet(grupo, "Descricao", Null).value;
        match DictGet(entidade, "Modulo", Null)
        case Err(e) => Err(e)
        case Ok(modulo) => Ok([Str(cliente), Str(descricao), modulo, Int(codigo), codigoInf, descInf])
  }

  /** The row `parse_rows` builds for one record, or the text of the
      exception it raises. */
  function ItemRow(item: Value, cliente: string, codigo: int, descricao: string, dumps: Value -> string): Result<Row>
  {
    match FixedColumns(item, cliente, codigo, descricao)
    case Err(e) => Err(e)
    case Ok(fixed) => Ok(fixed + SortedValues(item.fields, dumps))
  }

  /** `parse_rows`' row function for the run of `cliente`. */
  function InfoRow(cliente: string, dumps: Value -> string): RowOf
  {
    (item, codigo, descricao) => ItemRow(item, cliente, codigo, descricao, dumps)
  }

  /** A record that is not a dict raises on its first `get`. */
  lemma ItemRowNotDict(item: Value, cliente: string, codigo: int, descricao: string, dumps: Value -> string)
    ensures !item.Object? ==> ItemRow(item, cliente, codigo, descricao, dumps) == Err(AttributeError(item, "get"))
  {
  }

  /** A row is the six fixed columns followed by one column per distinct key
      of the record, in sorted order. */
  lemma ItemRowColumns(item: Value, cliente: string, codigo: int, descricao: string, dumps: Value -> string)
    ensures ItemRow(item, cliente, codigo, descricao, dumps).Ok? ==>
      var row := ItemRow(item, cliente, codigo, descricao, dumps).value;
      |row| == 6 + |Text.Elements(Keys(item.fields))| &&
      row[0] == Str(cliente) && row[1] == Str(descricao) && row[3] == Int(codigo) &&
      row[6..] == SortedValues(item.fields, dumps)
  {
    if ItemRow(item, cliente, codigo, descricao, dumps).Ok? {
      Text.SortedDistinctCount(Keys(item.fields));
      var fixed := FixedColumns(item, cliente, codigo, descricao).value;
      assert ItemRow(item, cliente, codigo, descricao, dumps).value == fixed + SortedValues(item.fields, dumps);
    }
  }

  /** A record without a group (or with an empty one) gets `None` in the
      three group columns, with no error. */
  lemma ItemRowNoGroup(item: Value, cliente: string, codigo: int, descricao: string, dumps: Value -> string)
    ensures item.Object? && (GroupKey !in Keys(item.fields) || !Truthy(Get(item.fields, GroupKey).value)) ==>
      var r := ItemRow(item, cliente, codigo, descricao, dumps);
      r.Ok? && r.value[2] == Null && r.value[4] == Null && r.value[5] == Null
  {
  }

  /** A record whose group has no entity (or an empty one) gets `None` as its
      module, with no error. */
  lemma ItemRowNoEntity(item: Value, cliente: string, codigo: int, descricao: string, dumps: Value -> string)
    ensures item.Object? && GroupKey in Keys(item.fields) && Get(item.fields, GroupKey).value.Object? ==>
      var gs := Get(item.fields, GroupKey).value.fields;
      (EntityKey !in Keys(gs) || !Truthy(Get(gs, EntityKey).value)) ==>
      var r := ItemRow(item, cliente, codigo, descricao, dumps);
      r.Ok? && r.value[2] == Null
  {
  }

  // ---------------------------------------------------------------------------
  // The header
  // ---------------------------------------------------------------------------

  /** `exemplo[0]` on a truthy answer, or the text of the exception it
      raises: a dict has no key `0`, a number cannot be indexed. */
  function FirstItem(v: Value): Result<Value>
    requires Truthy(v)
  {
    match v
    case List(xs) => Ok(xs[0])
    case Str(s) => Ok(Str([s[0]]))
    case Object(_) => Err("0")
    case _ => Err("'" + TypeName(v) + "' object is not subscriptable")
  }

  /** The record keys of the header: the sorted keys of the first record of
      `exemplo` when it is truthy, the fallback list otherwise. */
  function HeaderKeys(exemplo: Value): (r: Result<seq<string>>)
    ensures !Truthy(exemplo) ==> r == Ok(FallbackKeys)
    ensures exemplo.List? && exemplo.items != [] && exemplo.items[0].Object? ==>
      r == Ok(Text.SortedDistinct(Keys(exemplo.items[0].fields)))
    ensures exemplo.List? && exemplo.items != [] && !exemplo.items[0].Object? ==>
      r == Err(AttributeError(exemplo.items[0], "keys"))
  {
    if !Truthy(exemplo) then Ok(FallbackKeys)
    else match FirstItem(exemplo)
      case Err(e) => Err(e)
      case Ok(item) =>
        if item.Object? then Ok(Text.SortedDistinct(Keys(item.fields)))
        else Err(AttributeError(item, "keys"))
  }

  /** The value of `exemplo` after the probing loop has looked at concepts
      `k` and on, `last` being its value before. */
  function ProbeFrom(net: Network, endpoint: string, k: nat, last: Value): Value
    requires k <= |Conceitos|
    decreases |Conceitos| - k
  {
    if k == |Conceitos| then last
    else
      var d := Fetched(net, endpoint, Tab, k);
      if Truthy(d) then d else ProbeFrom(net, endpoint, k + 1, d)
  }

  /** The probe yields a truthy value exactly when some concept from `k` on
      answers with one. */
  lemma {:induction false} ProbeTruthyIff(net: Network, endpoint: string, k: nat, last: Value)
    requires k <= |Conceitos|
    requires k == |Conceitos| ==> !Truthy(last)
    ensures Truthy(ProbeFrom(net, endpoint, k, last)) <==>
      exists j :: k <= j < |Conceitos| && Truthy(Fetched(net, endpoint, Tab, j))
    decreases |Conceitos| - k
  {
    if k < |Conceitos| {
      var d := Fetched(net, endpoint, Tab, k);
      if Truthy(d) {
        assert ProbeFrom(net, endpoint, k, last) == d;
      } else {
        ProbeTruthyIff(net, endpoint, k + 1, d);
        assert ProbeFrom(net, endpoint, k, last) == ProbeFrom(net, endpoint, k + 1, d);
        assert (exists j :: k <= j < |Conceitos| && Truthy(Fetched(net, endpoint, Tab, j))) ==>
          exists j :: k + 1 <= j < |Conceitos| && Truthy(Fetched(net, endpoint, Tab, j));
      }
    }
  }

  /** The probe yields the first truthy answer, in concept order. */
  lemma {:induction false} ProbeFindsFirstAnswer(net: Network, endpoint: string, k: nat, last: Value)
    requires k <= |Conceitos|
    ensures forall j ::
      (k <= j < |Conceitos| && Truthy(Fetched(net, endpoint, Tab, j)) &&
       forall l :: k <= l < j ==> !Truthy(Fetched(net, endpoint, Tab, l))) ==>
      ProbeFrom(net, endpoint, k, last) == Fetched(net, endpoint, Tab, j)
    decreases |Conceitos| - k
  {
    if k < |Conceitos| {
      var d := Fetched(net, endpoint, Tab, k);
      if Truthy(d) {
        forall j | k < j < |Conceitos| && Truthy(Fetched(net, endpoint, Tab, j))
          ensures !(forall l :: k <= l < j ==> !Truthy(Fetched(net, endpoint, Tab, l)))
        {
        }
      } else {
        ProbeFindsFirstAnswer(net, endpoint, k + 1, d);
        assert ProbeFrom(net, endpoint, k, last) == ProbeFrom(net, endpoint, k + 1, d);
      }
    }
  }

  /** The header `run` writes, or the exception building it raises. */
  function HeaderOf(probe: Network, endpoint: string): Result<seq<string>>
  {
    match HeaderKeys(ProbeFrom(probe, endpoint, 0, Null))
    case Err(e) => Err(e)
    case Ok(keys) => Ok(HeaderPrefix + keys)
  }

  /** When a record has the same keys as the record the header came from,
      its row is as long as the header, the client, concept description and
      concept code sit under the first, second and fourth header names, and
      each value column sits under its own key. */
  lemma RowMatchesHeader(first: seq<(string, Value)>, item: Value, cliente: string, codigo: int, descricao: string, dumps: Value -> string)
    requires item.Object? && Text.Elements(Keys(item.fields)) == Text.Elements(Keys(first))
    requires ItemRow(item, cliente, codigo, descricao, dumps).Ok?
    ensures |ItemRow(item, cliente, codigo, descricao, dumps).value| == |HeaderPrefix + Text.SortedDistinct(Keys(first))|
    ensures var row := ItemRow(item, cliente, codigo, descricao, dumps).value;
      row[0] == Str(cliente) && row[1] == Str(descricao) && row[3] == Int(codigo)
    ensures var header := HeaderPrefix + Text.SortedDistinct(Keys(first));
      var row := ItemRow(item, cliente, codigo, descricao, dumps).value;
      forall j :: 6 <= j < |row| ==> header[j] in Keys(item.fields) && row[j] == Normalize(Get(item.fields, header[j]).value, dumps)
  {
    SameKeysSameOrder(Keys(item.fields), Keys(first));
    ItemRowColumns(item, cliente, codigo, descricao, dumps);
    var row := ItemRow(item, cliente, codigo, descricao, dumps).value;
    var header := HeaderPrefix + Text.SortedDistinct(Keys(first));
    assert header[6..] == Text.SortedDistinct(Keys(item.fields));
    assert |row| == 6 + |row[6..]| == 6 + |SortedValues(item.fields, dumps)|;
    ValuesUnderKeys(item.fields, dumps, row, header);
  }

  /** Past the six fixed columns, a row of sorted values sits under the
      sorted keys. */
  lemma ValuesUnderKeys(fs: seq<(string, Value)>, dumps: Value -> string, row: seq<Value>, header: seq<string>)
    requires |row| == |header| >= 6
    requires row[6..] == SortedValues(fs, dumps) && header[6..] == Text.SortedDistinct(Keys(fs))
    ensures forall j :: 6 <= j < |row| ==> header[j] in Keys(fs) && row[j] == Normalize(Get(fs, header[j]).value, dumps)
  {
    forall j | 6 <= j < |row|
      ensures header[j] in Keys(fs) && row[j] == Normalize(Get(fs, header[j]).value, dumps)
    {
      assert row[j] == row[6..][j - 6] && header[j] == header[6..][j - 6];
    }
  }

  /** Two key lists with the same keys sort to the same header. */
  lemma SameKeysSameOrder(xs: seq<string>, ys: seq<string>)
    requires Text.Elements(xs) == Text.Elements(ys)
    ensures Text.SortedDistinct(xs) == Text.SortedDistinct(ys)
  {
    var a := Text.SortedDistinct(xs);
    var b := Text.SortedDistinct(ys);
    forall y
      ensures y in a <==> y in b
    {
      assert y in a <==> y in Text.Elements(xs);
      assert y in b <==> y in Text.Elements(ys);
    }
    Text.SortedUnique(a, b);
  }

  // ---------------------------------------------------------------------------
  // The run
  // ---------------------------------------------------------------------------

  /** How `run` cuts the rows into `append_rows` calls: no call is empty,
      and every call but the last carries at least `BatchSize` rows. */
  predicate Batched(batches: seq<seq<Row>>)
  {
    (forall j :: 0 <= j < |batches| ==> batches[j] != []) &&
    (forall j :: 0 <= j < |batches| - 1 ==> |batches[j]| >= BatchSize)
  }

  /** The rows of each of the first `n` concepts, one entry per concept, or
      the first exception. */
  function ChunksUpTo(net: Network, endpoint: string, rowOf: RowOf, n: nat): Result<seq<seq<Row>>>
    requires n <= |Conceitos|
  {
    if n == 0 then Ok([])
    else match ChunksUpTo(net, endpoint, rowOf, n - 1)
      case Err(e) => Err(e)
      case Ok(chunks) =>
        match ConceptRows(net, endpoint, Tab, rowOf, n - 1)
        case Err(e) => Err(e)
        case Ok(rows) => Ok(chunks + [rows])
  }

  /** The batches the main loop of `run` appends while it takes in the rows
      `chunks`, one entry per concept, and the buffer it is left holding:
      each concept's rows join the buffer, which is appended and emptied as
      soon as it holds `BatchSize` rows or more. */
  function Cut(chunks: seq<seq<Row>>): (seq<seq<Row>>, seq<Row>)
  {
    if chunks == [] then ([], [])
    else
      var earlier := Cut(chunks[..|chunks| - 1]);
      var buffer := earlier.1 + chunks[|chunks| - 1];
      if |buffer| >= BatchSize then (earlier.0 + [buffer], []) else (earlier.0, buffer)
  }

  /** Every `append_rows` call of `run` for the rows `chunks`: the batches
      of the loop, then what is left in the buffer, if anything. */
  function BatchesOf(chunks: seq<seq<Row>>): seq<seq<Row>>
  {
    Cut(chunks).0 + (if Cut(chunks).1 == [] then [] else [Cut(chunks).1])
  }

  /** The loop appends only batches of `BatchSize` rows or more, the
      buffer left over is short, and no row is lost, added or moved. */
  lemma {:induction false} CutShape(chunks: seq<seq<Row>>)
    ensures |Cut(chunks).1| < BatchSize
    ensures forall j :: 0 <= j < |Cut(chunks).0| ==> |Cut(chunks).0[j]| >= BatchSize
    ensures Concat(Cut(chunks).0) + Cut(chunks).1 == Concat(chunks)
  {
    if chunks != [] {
      var init := chunks[..|chunks| - 1];
      var last := chunks[|chunks| - 1];
      CutShape(init);
      var earlier := Cut(init);
      var buffer := earlier.1 + last;
      if |buffer| >= BatchSize {
        ConcatAppend(earlier.0, buffer);
      }
      Associative(Concat(earlier.0), earlier.1, last);
    }
  }

  /** The flush rule: every batch the loop appends was still short before
      its last concept's rows joined it, so the buffer is appended as soon
      as it reaches `BatchSize` rows at the end of a concept. */
  lemma {:induction false} CutFlushRule(chunks: seq<seq<Row>>)
    ensures forall j :: 0 <= j < |Cut(chunks).0| ==>
      exists k :: 0 <= k < |chunks| && EndsShortWith(Cut(chunks).0[j], chunks[k])
  {
    if chunks != [] {
      var init := chunks[..|chunks| - 1];
      var last := chunks[|chunks| - 1];
      CutFlushRule(init);
      var earlier := Cut(init);
      var buffer := earlier.1 + last;
      if |buffer| >= BatchSize {
        CutShape(init);
        assert buffer[|buffer| - |last|..] == last;
      }
      var batches := Cut(chunks).0;
      forall j | 0 <= j < |batches|
        ensures exists k :: 0 <= k < |chunks| && EndsShortWith(batches[j], chunks[k])
      {
        if j < |earlier.0| {
          var k :| 0 <= k < |init| && EndsShortWith(earlier.0[j], init[k]);
          assert batches[j] == earlier.0[j] && chunks[k] == init[k];
        } else {
          assert batches[j] == buffer && EndsShortWith(buffer, chunks[|chunks| - 1]);
        }
      }
    } else {
      assert Cut(chunks).0 == [];
    }
  }

  /** `batch` ends with the rows `chunk`, and held fewer than `BatchSize`
      rows before them. */
  predicate EndsShortWith(batch: seq<Row>, chunk: seq<Row>)
  {
    |chunk| <= |batch| && batch[|batch| - |chunk|..] == chunk && |batch| - |chunk| < BatchSize
  }

  /** The batches of `run` are `Batched`, hold every row in order, and the
      last one is short unless the loop appended it. */
  lemma BatchesOfShape(chunks: seq<seq<Row>>)
    ensures Batched(BatchesOf(chunks))
    ensures Concat(BatchesOf(chunks)) == Concat(chunks)
    ensures Cut(chunks).1 != [] ==> |BatchesOf(chunks)[|BatchesOf(chunks)| - 1]| < BatchSize
  {
    CutShape(chunks);
    var loop := Cut(chunks).0;
    var left := Cut(chunks).1;
    if left != [] {
      ConcatAppend(loop, left);
    } else {
      assert BatchesOf(chunks) == loop;
    }
  }

  /** The concepts' rows one entry per concept are the concepts' rows
      concatenated, and both stop at the same exception. */
  lemma {:induction false} ChunksRows(net: Network, endpoint: string, rowOf: RowOf, n: nat)
    requires n <= |Conceitos|
    ensures ChunksUpTo(net, endpoint, rowOf, n).Ok? <==> RowsUpTo(net, endpoint, Tab, rowOf, n).Ok?
    ensures ChunksUpTo(net, endpoint, rowOf, n).Ok? ==>
      Concat(ChunksUpTo(net, endpoint, rowOf, n).value) == RowsUpTo(net, endpoint, Tab, rowOf, n).value
    ensures ChunksUpTo(net, endpoint, rowOf, n).Err? ==>
      ChunksUpTo(net, endpoint, rowOf, n).error == RowsUpTo(net, endpoint, Tab, rowOf, n).error
  {
    if n > 0 {
      ChunksRows(net, endpoint, rowOf, n - 1);
      var earlier := ChunksUpTo(net, endpoint, rowOf, n - 1);
      var more := ConceptRows(net, endpoint, Tab, rowOf, n - 1);
      if earlier.Ok? && more.Ok? {
        ConcatAppend(earlier.value, more.value);
      }
    }
  }

  /** What the main loop of `run` has written when concept `i` raises: the
      batches it appended so far, all from earlier concepts' rows. */
  lemma StopsAt(net: Network, endpoint: string, rowOf: RowOf, i: nat, chunks: seq<seq<Row>>)
    requires i < |Conceitos| && ChunksUpTo(net, endpoint, rowOf, i) == Ok(chunks)
    requires ConceptRows(net, endpoint, Tab, rowOf, i).Err?
    ensures RowsUpTo(net, endpoint, Tab, rowOf, |Conceitos|) == Err(ConceptRows(net, endpoint, Tab, rowOf, i).error)
    ensures RowsUpTo(net, endpoint, Tab, rowOf, i).Ok?
    ensures Concat(Cut(chunks).0) <= RowsUpTo(net, endpoint, Tab, rowOf, i).value
    ensures Batched(Cut(chunks).0)
  {
    ChunksRows(net, endpoint, rowOf, i);
    CutShape(chunks);
    RowsStopAt(net, endpoint, Tab, rowOf, i);
  }

  /** The loop of `run` that looks for a header example: concepts are
      fetched in order until one answers with a truthy value. */
  method Probe(probe: Network, endpoint: string) returns (exemplo: Value)
    ensures exemplo == ProbeFrom(probe, endpoint, 0, Null)
  {
    exemplo := Null;
    var k := 0;
    while k < |Conceitos|
      invariant k <= |Conceitos|
      invariant ProbeFrom(probe, endpoint, k, exemplo) == ProbeFrom(probe, endpoint, 0, Null)
      decreases |Conceitos| - k
    {
      var pauses;
      exemplo, pauses := FetchJson(ConceptReplies(probe, endpoint, Tab, Conceitos[k].0), Retries);
      if Truthy(exemplo) {
        return;
      }
      k := k + 1;
    }
  }

  /** The tab after the main loop has appended the batches `written`. */
  ghost predicate Written(sheet: OutputSheet, before: seq<seq<Row>>, start: seq<Row>, written: seq<seq<Row>>)
    reads sheet
  {
    sheet.batches == before + written && sheet.rows == start + Concat(written)
  }

  /** `ws.append_rows(buffer, ...)` in the main loop: the tab's rows below
      the header stay the concatenation of the batches written. */
  method Flush(sheet: OutputSheet, buffer: seq<Row>, ghost before: seq<seq<Row>>, ghost start: seq<Row>, ghost written: seq<seq<Row>>)
    requires Written(sheet, before, start, written)
    modifies sheet
    ensures Written(sheet, before, start, written + [buffer])
    ensures Concat(written + [buffer]) == Concat(written) + buffer
  {
    sheet.AppendRows(buffer);
    ConcatAppend(written, buffer);
    Associative(start, Concat(written), buffer);
    Associative(before, written, [buffer]);
  }

  /** The main loop of `run`: the rows of every concept go into a buffer
      that is appended to the tab whenever it holds `BatchSize` rows or
      more, and once more at the end if anything is left; the result is the
      row count `total`, or the exception that stopped the loop, in which
      case the buffer is never appended. */
  method AppendConcepts(net: Network, endpoint: string, rowOf: RowOf, sheet: OutputSheet)
    returns (result: Result<nat>)
    modifies sheet
    ensures |sheet.batches| >= |old(sheet.batches)| && sheet.batches[..|old(sheet.batches)|] == old(sheet.batches)
    ensures sheet.rows == old(sheet.rows) + Concat(sheet.batches[|old(sheet.batches)|..])
    ensures Batched(sheet.batches[|old(sheet.batches)|..])
    ensures var all := RowsUpTo(net, endpoint, Tab, rowOf, |Conceitos|);
      (result.Ok? <==> all.Ok?) &&
      (result.Ok? ==> Concat(sheet.batches[|old(sheet.batches)|..]) == all.value && result.value == |all.value|) &&
      (result.Err? ==> result.error == all.error)
    ensures result.Ok? ==>
      ChunksUpTo(net, endpoint, rowOf, |Conceitos|).Ok? &&
      sheet.batches[|old(sheet.batches)|..] == BatchesOf(ChunksUpTo(net, endpoint, rowOf, |Conceitos|).value)
    ensures result.Err? ==>
      exists k :: 0 <= k < |Conceitos| && RowsUpTo(net, endpoint, Tab, rowOf, k).Ok? &&
        ConceptRows(net, endpoint, Tab, rowOf, k).Err? &&
        Concat(sheet.batches[|old(sheet.batches)|..]) <= RowsUpTo(net, endpoint, Tab, rowOf, k).value &&
        ChunksUpTo(net, endpoint, rowOf, k).Ok? &&
        sheet.batches[|old(sheet.batches)|..] == Cut(ChunksUpTo(net, endpoint, rowOf, k).value).0
  {
    ghost var before := sheet.batches;
    ghost var start := sheet.rows;
    ghost var written: seq<seq<Row>> := [];
    ghost var chunks: seq<seq<Row>> := [];
    var total := 0;
    var buffer: seq<Row> := [];
    var i := 0;
    while i < |Conceitos|
      invariant i <= |Conceitos|
      invariant Written(sheet, before, start, written)
      invariant ChunksUpTo(net, endpoint, rowOf, i) == Ok(chunks)
      invariant Cut(chunks) == (written, buffer)
      invariant total == |Concat(chunks)|
    {
      var rows := FetchConcept(net, endpoint, Tab, rowOf, i);
      if rows.Err? {
        StopsAt(net, endpoint, rowOf, i, chunks);
        SplitAppended(before, written);
        return Err(rows.error);
      }
      CutStep(chunks, rows.value);
      ConcatAppend(chunks, rows.value);
      chunks := chunks + [rows.value];
      buffer := buffer + rows.value;
      total := total + |rows.value|;
      if |buffer| >= BatchSize {
        Flush(sheet, buffer, before, start, written);
        written := written + [buffer];
        buffer := [];
      }
      i := i + 1;
    }
    BatchesOfShape(chunks);
    ChunksRows(net, endpoint, rowOf, |Conceitos|);
    if buffer != [] {
      Flush(sheet, buffer, before, start, written);
      written := written + [buffer];
      buffer := [];
    }
    assert written == BatchesOf(chunks);
    SplitAppended(before, written);
    result := Ok(total);
  }

  /** One more concept's rows: `Cut` takes them in after the earlier ones. */
  lemma CutStep(chunks: seq<seq<Row>>, rows: seq<Row>)
    ensures var buffer := Cut(chunks).1 + rows;
      Cut(chunks + [rows]) == if |buffer| >= BatchSize then (Cut(chunks).0 + [buffer], []) else (Cut(chunks).0, buffer)
  {
    assert (chunks + [rows])[..|chunks|] == chunks;
  }

  /** `run(url_base, cookies, cliente)`: the tab is cleared, the header
      probed and written to row 1, then the rows of every concept appended;
      `probe` answers the header probe and `net` the main loop. The result
      is the number of rows written, or the exception that stopped the
      script. */
  method Run(urlBase: string, cliente: string, probe: Network, net: Network, dumps: Value -> string, sheet: OutputSheet)
    returns (result: Result<nat>)
    modifies sheet
    ensures var header := HeaderOf(probe, Endpoint(urlBase, EndpointPath));
      header.Err? ==> result == Err(header.error) && sheet.rows == [] && sheet.batches == old(sheet.batches)
    ensures var header := HeaderOf(probe, Endpoint(urlBase, EndpointPath));
      var all := RowsUpTo(net, Endpoint(urlBase, EndpointPath), Tab, InfoRow(cliente, dumps), |Conceitos|);
      header.Ok? ==>
        |sheet.batches| >= |old(sheet.batches)| && sheet.batches[..|old(sheet.batches)|] == old(sheet.batches) &&
        var added := sheet.batches[|old(sheet.batches)|..];
        sheet.rows == [Cells(header.value)] + Concat(added) && Batched(added) &&
        (result.Ok? <==> all.Ok?) &&
        (result.Ok? ==> Concat(added) == all.value && result.value == |all.value|) &&
        (result.Err? ==> result.error == all.error)
    ensures var header := HeaderOf(probe, Endpoint(urlBase, EndpointPath));
      var chunks := ChunksUpTo(net, Endpoint(urlBase, EndpointPath), InfoRow(cliente, dumps), |Conceitos|);
      header.Ok? && result.Ok? ==> chunks.Ok? && sheet.batches[|old(sheet.batches)|..] == BatchesOf(chunks.value)
    ensures var header := HeaderOf(probe, Endpoint(urlBase, EndpointPath));
      var endpoint := Endpoint(urlBase, EndpointPath);
      header.Ok? && result.Err? ==>
        exists k :: 0 <= k < |Conceitos| && ChunksUpTo(net, endpoint, InfoRow(cliente, dumps), k).Ok? &&
          ConceptRows(net, endpoint, Tab, InfoRow(cliente, dumps), k).Err? &&
          sheet.batches[|old(sheet.batches)|..] == Cut(ChunksUpTo(net, endpoint, InfoRow(cliente, dumps), k).value).0
  {
    sheet.Clear();
    var endpoint := Endpoint(urlBase, EndpointPath);
    var exemplo := Probe(probe, endpoint);
    var keys: seq<string>;
    match HeaderKeys(exemplo) {
      case Err(e) =>
        assert HeaderOf(probe, endpoint) == Err(e);
        return Err(e);
      case Ok(ks) => keys := ks;
    }
    var header := HeaderPrefix + keys;
    assert HeaderOf(probe, endpoint) == Ok(header);
    sheet.WriteHeader(Cells(header));
    assert sheet.rows == [Cells(header)] && sheet.batches == old(sheet.batches);
    result := AppendConcepts(net, endpoint, InfoRow(cliente, dumps), sheet);
  }
}
