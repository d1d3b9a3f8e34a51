/** What both fetch scripts do with one concept: post the query, retrying,
    and turn every record of the answer into a spreadsheet row with the
    script's own row function (`parse_rows`). */
module Records {
  import opened Results
  import opened Json
  import opened Portal
  import opened Sheets

  /** A script's row for one record, given the concept's code and name, or
      the text of the exception building it raises. */
  type RowOf = (Value, int, string) -> Result<Row>

  /** The rows of a list of records, in order, or the first record's
      exception. */
  function RowsOf(items: seq<Value>, rowOf: RowOf, codigo: int, descricao: string): Result<seq<Row>>
  {
    if items == [] then Ok([])
    else match rowOf(items[0], codigo, descricao)
      case Err(e) => Err(e)
      case Ok(row) =>
        match RowsOf(items[1..], rowOf, codigo, descricao)
        case Err(e) => Err(e)
        case Ok(rows) => Ok([row] + rows)
  }

  /** `parse_rows` succeeds exactly when every record has a row; it then
      gives one row per record, in the records' order, and otherwise fails
      with the exception of the first record that has none. */
  lemma {:induction false} RowsOfOnePerItem(items: seq<Value>, rowOf: RowOf, codigo: int, descricao: string)
    ensures RowsOf(items, rowOf, codigo, descricao).Ok? <==>
      forall i :: 0 <= i < |items| ==> rowOf(items[i], codigo, descricao).Ok?
    ensures RowsOf(items, rowOf, codigo, descricao).Ok? ==>
      var rows := RowsOf(items, rowOf, codigo, descricao).value;
      |rows| == |items| &&
      forall i :: 0 <= i < |items| ==> rows[i] == rowOf(items[i], codigo, descricao).value
    ensures RowsOf(items, rowOf, codigo, descricao).Err? ==>
      exists i :: 0 <= i < |items| &&
        rowOf(items[i], codigo, descricao).Err? &&
        rowOf(items[i], codigo, descricao).error == RowsOf(items, rowOf, codigo, descricao).error &&
        forall j :: 0 <= j < i ==> rowOf(items[j], codigo, descricao).Ok?
  {
    if items != [] {
      var tail := items[1..];
      RowsOfOnePerItem(tail, rowOf, codigo, descricao);
      assert forall i :: 1 <= i < |items| ==> items[i] == tail[i - 1];
      var r := RowsOf(items, rowOf, codigo, descricao);
      if r.Err? && rowOf(items[0], codigo, descricao).Ok? {
        var i :| 0 <= i < |tail| &&
          rowOf(tail[i], codigo, descricao).Err? &&
          rowOf(tail[i], codigo, descricao).error == RowsOf(tail, rowOf, codigo, descricao).error &&
          forall j :: 0 <= j < i ==> rowOf(tail[j], codigo, descricao).Ok?;
        assert items[i + 1] == tail[i];
      }
      if !rowOf(items[0], codigo, descricao).Ok? {
        assert !(forall i :: 0 <= i < |items| ==> rowOf(items[i], codigo, descricao).Ok?);
      }
    }
  }

  /** What `parse_rows(data, ...)` returns, or the exception it raises:
      `for item in data` walks a list's elements, a dict's keys or a
      string's characters. */
  function ParsedRows(data: Value, rowOf: RowOf, codigo: int, descricao: string): Result<seq<Row>>
  {
    match Iterate(data)
    case Err(e) => Err(e)
    case Ok(items) => RowsOf(items, rowOf, codigo, descricao)
  }

  /** `parse_rows`. */
  method ParseRows(data: Value, rowOf: RowOf, codigo: int, descricao: string)
    returns (rows: Result<seq<Row>>)
    ensures rows == ParsedRows(data, rowOf, codigo, descricao)
  {
    var items: seq<Value>;
    match Iterate(data) {
      case Err(e) => return Err(e);
      case Ok(xs) => items := xs;
    }
    var acc: seq<Row> := [];
    var i := 0;
    assert items[0..] == items;
    match RowsOf(items, rowOf, codigo, descricao) {
      case Err(_) =>
      case Ok(rest) => assert acc + rest == rest;
    }
    while i < |items|
      invariant 0 <= i <= |items|
      invariant RowsOf(items, rowOf, codigo, descricao) ==
        match RowsOf(items[i..], rowOf, codigo, descricao)
        case Err(e) => Err(e)
        case Ok(rest) => Ok(acc + rest)
    {
      assert items[i..][1..] == items[i + 1..];
      match rowOf(items[i], codigo, descricao) {
        case Err(e) =>
          return Err(e);
        case Ok(row) =>
          match RowsOf(items[i + 1..], rowOf, codigo, descricao) {
            case Err(_) =>
            case Ok(rest) => assert acc + ([row] + rest) == (acc + [row]) + rest;
          }
          acc := acc + [row];
      }
      i := i + 1;
    }
    assert acc + [] == acc;
    rows := Ok(acc);
  }

  /** What the fetch of concept `k` returns. */
  function Fetched(net: Network, endpoint: string, tab: string, k: nat): Value
    requires k < |Conceitos|
  {
    FetchFrom(ConceptReplies(net, endpoint, tab, Conceitos[k].0), 1, Retries).0
  }

  // ---------------------------------------------------------------------------
  // All concepts
  // ---------------------------------------------------------------------------

  /** The rows of concept `k`, or the exception parsing them raises. */
  function ConceptRows(net: Network, endpoint: string, tab: string, rowOf: RowOf, k: nat): Result<seq<Row>>
    requires k < |Conceitos|
  {
    ParsedRows(Fetched(net, endpoint, tab, k), rowOf, Conceitos[k].0, Conceitos[k].1)
  }

  /** The rows of the first `n` concepts, in concept order, or the first
      exception. */
  function RowsUpTo(net: Network, endpoint: string, tab: string, rowOf: RowOf, n: nat): Result<seq<Row>>
    requires n <= |Conceitos|
  {
    if n == 0 then Ok([])
    else match RowsUpTo(net, endpoint, tab, rowOf, n - 1)
      case Err(e) => Err(e)
      case Ok(rows) =>
        match ConceptRows(net, endpoint, tab, rowOf, n - 1)
        case Err(e) => Err(e)
        case Ok(more) => Ok(rows + more)
  }

  /** Once a concept fails, so does every longer run of concepts, with the
      same exception. */
  lemma {:induction false} RowsUpToErrStays(net: Network, endpoint: string, tab: string, rowOf: RowOf, k: nat, n: nat)
    requires k <= n <= |Conceitos|
    requires RowsUpTo(net, endpoint, tab, rowOf, k).Err?
    ensures RowsUpTo(net, endpoint, tab, rowOf, n) == RowsUpTo(net, endpoint, tab, rowOf, k)
    decreases n - k
  {
    if k < n {
      RowsUpToErrStays(net, endpoint, tab, rowOf, k, n - 1);
    }
  }

  /** A concept that raises ends every longer run of concepts with its
      exception. */
  lemma RowsStopAt(net: Network, endpoint: string, tab: string, rowOf: RowOf, i: nat)
    requires i < |Conceitos| && RowsUpTo(net, endpoint, tab, rowOf, i).Ok?
    requires ConceptRows(net, endpoint, tab, rowOf, i).Err?
    ensures RowsUpTo(net, endpoint, tab, rowOf, |Conceitos|) == Err(ConceptRows(net, endpoint, tab, rowOf, i).error)
  {
    RowsUpToErrStays(net, endpoint, tab, rowOf, i + 1, |Conceitos|);
  }

  /** A concept that parses extends the rows of the concepts before it. */
  lemma RowsStep(net: Network, endpoint: string, tab: string, rowOf: RowOf, i: nat)
    requires i < |Conceitos| && RowsUpTo(net, endpoint, tab, rowOf, i).Ok?
    requires ConceptRows(net, endpoint, tab, rowOf, i).Ok?
    ensures RowsUpTo(net, endpoint, tab, rowOf, i + 1) ==
      Ok(RowsUpTo(net, endpoint, tab, rowOf, i).value + ConceptRows(net, endpoint, tab, rowOf, i).value)
  {
  }

  /** One concept's turn of the main loop of `run`, up to the buffer: fetch
      the concept's records and turn them into rows. */
  method FetchConcept(net: Network, endpoint: string, tab: string, rowOf: RowOf, k: nat)
    returns (rows: Result<seq<Row>>)
    requires k < |Conceitos|
    ensures rows == ConceptRows(net, endpoint, tab, rowOf, k)
  {
    var data, pauses := FetchJson(ConceptReplies(net, endpoint, tab, Conceitos[k].0), Retries);
    rows := ParseRows(data, rowOf, Conceitos[k].0, Conceitos[k].1);
  }
}
