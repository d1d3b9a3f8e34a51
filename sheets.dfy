/** The spreadsheet tabs the scripts work on, reduced to what they read and
    write: the fetch scripts clear a tab, write a header into row 1 and append
    rows in batches; the save scripts read row 1 and the rows under it, make
    sure a `resultado` column exists and write one cell per record. */
module Sheets {
  import opened Results
  import opened Json

  /** One spreadsheet row as the fetch scripts build it. */
  type Row = seq<Value>

  /** A list of names as spreadsheet cells. */
  function Cells(names: seq<string>): (r: Row)
    ensures |r| == |names| && forall i :: 0 <= i < |r| ==> r[i] == Str(names[i])
  {
    seq(|names|, i requires 0 <= i < |names| => Str(names[i]))
  }

  /** The concatenation of a list of row batches. */
  function Concat(batches: seq<seq<Row>>): seq<Row>
  {
    if batches == [] then [] else Concat(batches[..|batches| - 1]) + batches[|batches| - 1]
  }

  lemma ConcatAppend(batches: seq<seq<Row>>, batch: seq<Row>)
    ensures Concat(batches + [batch]) == Concat(batches) + batch
  {
    assert (batches + [batch])[..|batches|] == batches;
  }

  lemma Associative<T>(a: seq<T>, b: seq<T>, c: seq<T>)
    ensures (a + b) + c == a + (b + c)
  {
  }

  lemma SplitAppended<T>(before: seq<T>, added: seq<T>)
    ensures (before + added)[..|before|] == before && (before + added)[|before|..] == added
  {
  }

  /** A tab the fetch scripts fill. */
  class OutputSheet {
    /** The rows of the tab, row 1 first. */
    var rows: seq<Row>
    /** The row lists handed to `append_rows`, in call order. */
    var batches: seq<seq<Row>>

    constructor (initial: seq<Row>)
      ensures rows == initial && batches == []
    {
      rows := initial;
      batches := [];
    }

    /** `ws.clear()`. */
    method Clear()
      modifies this
      ensures rows == [] && batches == old(batches)
    {
      rows := [];
    }

    /** `ws.update("A1", [header])`: row 1 becomes the header. */
    method WriteHeader(header: Row)
      modifies this
      ensures rows == [header] + (if old(rows) == [] then [] else old(rows)[1..])
      ensures batches == old(batches)
    {
      rows := [header] + (if rows == [] then [] else rows[1..]);
    }

    /** `ws.append_rows(batch, value_input_option="RAW")`. */
    method AppendRows(batch: seq<Row>)
      modifies this
      ensures rows == old(rows) + batch
      ensures batches == old(batches) + [batch]
    {
      rows := rows + batch;
      batches := batches + [batch];
    }
  }

  // ---------------------------------------------------------------------------
  // Reading a tab back: dict(zip(header, row))
  // ---------------------------------------------------------------------------

  function Min(a: nat, b: nat): nat { if a < b then a else b }

  /** The dict built from pairs `(keys[i], cells[i])` in order: a later pair
      overwrites an earlier one with the same key. */
  function Pairs(keys: seq<string>, cells: seq<string>): map<string, string>
    requires |keys| == |cells|
  {
    if keys == [] then map[]
    else Pairs(keys[..|keys| - 1], cells[..|cells| - 1])[keys[|keys| - 1] := cells[|cells| - 1]]
  }

  /** `dict(zip(header, row))`: the pairs stop at the shorter of the two. */
  function RowMap(header: seq<string>, row: seq<string>): map<string, string>
  {
    var n := Min(|header|, |row|);
    Pairs(header[..n], row[..n])
  }

  /** The keys are the header names, and each maps to the cell under its
      last occurrence. */
  lemma {:induction false} PairsLastWins(keys: seq<string>, cells: seq<string>)
    requires |keys| == |cells|
    ensures forall k :: k in Pairs(keys, cells) <==> k in keys
    ensures forall i :: 0 <= i < |keys| && keys[i] !in keys[i + 1..] ==> Pairs(keys, cells)[keys[i]] == cells[i]
  {
    if keys != [] {
      var n := |keys| - 1;
      PairsLastWins(keys[..n], cells[..n]);
      assert keys == keys[..n] + [keys[n]];
      forall i | 0 <= i < |keys| && keys[i] !in keys[i + 1..]
        ensures Pairs(keys, cells)[keys[i]] == cells[i]
      {
        if i < n {
          assert keys[i + 1..] == keys[..n][i + 1..] + [keys[n]];
          assert keys[..n][i] == keys[i];
        }
      }
    }
  }

  /** `dict(zip(header, row))` has a key per header name that has a cell,
      holding the cell of that name's last column among them. */
  lemma RowMapLastWins(header: seq<string>, row: seq<string>)
    ensures forall k :: k in RowMap(header, row) <==> k in header[..Min(|header|, |row|)]
    ensures forall i :: 0 <= i < Min(|header|, |row|) && header[i] !in header[i + 1..Min(|header|, |row|)] ==>
      RowMap(header, row)[header[i]] == row[i]
  {
    var n := Min(|header|, |row|);
    PairsLastWins(header[..n], row[..n]);
    forall i | 0 <= i < n && header[i] !in header[i + 1..n]
      ensures RowMap(header, row)[header[i]] == row[i]
    {
      assert header[..n][i + 1..] == header[i + 1..n];
      assert header[..n][i] == header[i];
    }
  }

  /** The length of the longest row. */
  function Width(rows: seq<seq<string>>): (w: nat)
    ensures forall i :: 0 <= i < |rows| ==> |rows[i]| <= w
    ensures rows != [] ==> exists i :: 0 <= i < |rows| && |rows[i]| == w
  {
    if rows == [] then 0
    else
      var w := Width(rows[1..]);
      assert forall i :: 1 <= i < |rows| ==> rows[i] == rows[1..][i - 1];
      if |rows[0]| >= w then |rows[0]| else w
  }

  /** The grid `get_all_values()` returns: gspread pads every row with empty
      cells to the width of the longest one. */
  function Padded(rows: seq<seq<string>>): (r: seq<seq<string>>)
    ensures |r| == |rows|
    ensures forall i :: 0 <= i < |r| ==>
      |r[i]| == Width(rows) && r[i][..|rows[i]|] == rows[i] &&
      forall j :: |rows[i]| <= j < |r[i]| ==> r[i][j] == ""
  {
    var w := Width(rows);
    seq(|rows|, i requires 0 <= i < |rows| => rows[i] + seq(w - |rows[i]|, _ => ""))
  }

  /** `get_rows_as_text`: one dict per row under the first, pairing the first
      row's names with the row's cells; an empty grid has no first row. */
  function RowsAsText(data: seq<seq<string>>): (r: Result<seq<map<string, string>>>)
    ensures data == [] <==> r.Err?
    ensures r.Ok? ==> |r.value| == |data| - 1 && forall i :: 0 <= i < |r.value| ==> r.value[i] == RowMap(data[0], data[i + 1])
  {
    if data == [] then Err("list index out of range")
    else Ok(seq(|data| - 1, i requires 0 <= i < |data| - 1 => RowMap(data[0], data[i + 1])))
  }

  /** On a grid from `get_all_values()` every row is as wide as the header,
      so each dict has every header name, holding the cell of its last
      column under that name. */
  lemma RowsAsTextFullRows(rows: seq<seq<string>>, i: nat, k: nat)
    requires rows != [] && i + 1 < |rows|
    requires k < |Padded(rows)[0]| && Padded(rows)[0][k] !in Padded(rows)[0][k + 1..]
    ensures var data := Padded(rows);
      var m := RowsAsText(data).value[i];
      (forall name :: name in m <==> name in data[0]) &&
      m[data[0][k]] == data[i + 1][k]
  {
    var data := Padded(rows);
    RowMapLastWins(data[0], data[i + 1]);
    assert Min(|data[0]|, |data[i + 1]|) == |data[0]|;
    assert data[0][..|data[0]|] == data[0];
  }

  // ---------------------------------------------------------------------------
  // The result column
  // ---------------------------------------------------------------------------

  const ResultColumnName := "resultado"

  /** `header.index(name)`. */
  function IndexOfName(header: seq<string>, name: string): (i: nat)
    requires name in header
    ensures i < |header| && header[i] == name && name !in header[..i]
  {
    if header[0] == name then 0
    else
      var i := IndexOfName(header[1..], name);
      assert header[..i + 1] == [header[0]] + header[1..][..i];
      i + 1
  }

  /** The 1-based column `garantir_coluna_resultado` returns. */
  function ResultColumn(header: seq<string>): nat
  {
    if ResultColumnName in header then IndexOfName(header, ResultColumnName) + 1 else |header| + 1
  }

  /** Row 1 after `garantir_coluna_resultado`. */
  function WithResultColumn(header: seq<string>): seq<string>
  {
    if ResultColumnName in header then header else header + [ResultColumnName]
  }

  /** The column returned holds `resultado` in the new header, and a second
      call finds the same column and changes nothing. */
  lemma ResultColumnStable(header: seq<string>)
    ensures 1 <= ResultColumn(header) <= |WithResultColumn(header)|
    ensures WithResultColumn(header)[ResultColumn(header) - 1] == ResultColumnName
    ensures ResultColumnName !in WithResultColumn(header)[..ResultColumn(header) - 1]
    ensures ResultColumn(WithResultColumn(header)) == ResultColumn(header)
    ensures WithResultColumn(WithResultColumn(header)) == WithResultColumn(header)
  {
    var h := WithResultColumn(header);
    if ResultColumnName !in header {
      assert h[..|header|] == header;
      assert ResultColumnName in h;
    }
  }

  /** One `update_cell(row, col, value)` that went through. */
  datatype CellUpdate = CellUpdate(row: nat, col: nat, value: Value)

  /** A tab the save scripts read and annotate. */
  class Worksheet {
    /** Row 1, as `row_values(1)` returns it. */
    var header: seq<string>
    /** Rows 2 and below, as `get_all_values()` returns them. */
    var body: seq<seq<string>>
    /** The number of columns of the grid. */
    var colCount: nat
    /** The cell writes that succeeded, in order. */
    var updates: seq<CellUpdate>

    ghost predicate Valid()
      reads this
    {
      |header| <= colCount
    }

    constructor (header: seq<string>, body: seq<seq<string>>, colCount: nat)
      requires |header| <= colCount
      ensures Valid()
      ensures this.header == header && this.body == body && this.colCount == colCount && updates == []
    {
      this.header := header;
      this.body := body;
      this.colCount := colCount;
      updates := [];
    }

    /** `get_all_values()`. */
    function AllValues(): seq<seq<string>>
      reads this
    {
      Padded([header] + body)
    }

    /** `garantir_coluna_resultado(ws)`: when row 1 lacks `resultado`, one
        column is added and `resultado` is written at the end of row 1. */
    method EnsureResultColumn() returns (col: nat)
      requires Valid()
      modifies this
      ensures Valid()
      ensures col == ResultColumn(old(header))
      ensures header == WithResultColumn(old(header))
      ensures header[col - 1] == ResultColumnName
      ensures body == old(body)
      ensures ResultColumnName in old(header) ==> colCount == old(colCount) && updates == old(updates)
      ensures ResultColumnName !in old(header) ==>
        colCount == old(colCount) + 1 && updates == old(updates) + [CellUpdate(1, col, Str(ResultColumnName))]
    {
      ResultColumnStable(header);
      if ResultColumnName in header {
        col := IndexOfName(header, ResultColumnName) + 1;
      } else {
        col := |header| + 1;
        colCount := colCount + 1;
        updates := updates + [CellUpdate(1, col, Str(ResultColumnName))];
        header := header + [ResultColumnName];
      }
    }

    /** `ws.update_cell(row, col, value)`; `fails` says whether the call
        raises, in which case nothing is written. */
    method UpdateCell(row: nat, col: nat, value: Value, fails: bool) returns (written: bool)
      modifies this
      ensures written == !fails
      ensures updates == if fails then old(updates) else old(updates) + [CellUpdate(row, col, value)]
      ensures header == old(header) && body == old(body) && colCount == old(colCount)
    {
      written := !fails;
      if written {
        updates := updates + [CellUpdate(row, col, value)];
      }
    }
  }
}
