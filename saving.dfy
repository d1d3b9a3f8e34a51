/** The loop both save scripts run over the rows of their tab: build the
    form of the record, post it, and write the message that comes back into
    the `resultado` column of the record's own row. */
module Saving {
  import opened Results
  import opened Json
  import opened Portal
  import opened Sheets

  /** A script's form for one record, or the text of the exception building
      it raises. */
  type PayloadOf = map<string, string> -> Result<map<string, Value>>

  /** A script's `enviar_registro`: the message an outcome of the post
      gives. */
  type MessageOf = Outcome -> Value

  /** The portal's answer to the post of the i-th record (0-based). */
  type Replies = (nat, Request) -> Outcome

  /** Every one of the first `n` records has a form. */
  predicate FormsUpTo(records: seq<map<string, string>>, payloadOf: PayloadOf, n: nat)
  {
    n <= |records| && forall i :: 0 <= i < n ==> payloadOf(records[i]).Ok?
  }

  /** Record `k` is the first whose form cannot be built. */
  predicate StopsAt(records: seq<map<string, string>>, payloadOf: PayloadOf, k: nat)
  {
    k < |records| && FormsUpTo(records, payloadOf, k) && payloadOf(records[k]).Err?
  }

  /** The message written for record `i`. */
  function MessageFor(records: seq<map<string, string>>, payloadOf: PayloadOf, messageOf: MessageOf,
                      send: Replies, endpoint: string, i: nat): Value
    requires i < |records| && payloadOf(records[i]).Ok?
  {
    messageOf(send(i, Request(endpoint, payloadOf(records[i]).value)))
  }

  /** The cell writes that go through for the first `n` records: record `i`
      sits on sheet row `i + 2`, and a write that raises is skipped. */
  function Writes(records: seq<map<string, string>>, payloadOf: PayloadOf, messageOf: MessageOf,
                  send: Replies, endpoint: string, col: nat, writeFails: nat -> bool, n: nat): seq<CellUpdate>
    requires FormsUpTo(records, payloadOf, n)
  {
    if n == 0 then []
    else
      var earlier := Writes(records, payloadOf, messageOf, send, endpoint, col, writeFails, n - 1);
      if writeFails(n - 1) then earlier
      else earlier + [CellUpdate(n + 1, col, MessageFor(records, payloadOf, messageOf, send, endpoint, n - 1))]
  }

  /** The message of record `i` goes to row `i + 2` of the result column
      unless that one write raises; a failed write does not stop the later
      ones. */
  lemma {:induction false} WritesEveryRow(records: seq<map<string, string>>, payloadOf: PayloadOf, messageOf: MessageOf,
                                          send: Replies, endpoint: string, col: nat, writeFails: nat -> bool, n: nat)
    requires FormsUpTo(records, payloadOf, n)
    ensures forall i :: 0 <= i < n && !writeFails(i) ==>
      CellUpdate(i + 2, col, MessageFor(records, payloadOf, messageOf, send, endpoint, i)) in Writes(records, payloadOf, messageOf, send, endpoint, col, writeFails, n)
  {
    if n > 0 {
      WritesEveryRow(records, payloadOf, messageOf, send, endpoint, col, writeFails, n - 1);
      var prev := Writes(records, payloadOf, messageOf, send, endpoint, col, writeFails, n - 1);
      assert forall u :: u in prev ==> u in Writes(records, payloadOf, messageOf, send, endpoint, col, writeFails, n);
    }
  }

  /** Nothing else is written: every write is the message of some record to
      that record's row. */
  lemma {:induction false} WritesOnlyRows(records: seq<map<string, string>>, payloadOf: PayloadOf, messageOf: MessageOf,
                                          send: Replies, endpoint: string, col: nat, writeFails: nat -> bool, n: nat)
    requires FormsUpTo(records, payloadOf, n)
    ensures forall u :: u in Writes(records, payloadOf, messageOf, send, endpoint, col, writeFails, n) ==>
      exists i :: 0 <= i < n && !writeFails(i) &&
        u == CellUpdate(i + 2, col, MessageFor(records, payloadOf, messageOf, send, endpoint, i))
  {
    if n > 0 {
      WritesOnlyRows(records, payloadOf, messageOf, send, endpoint, col, writeFails, n - 1);
      var prev := Writes(records, payloadOf, messageOf, send, endpoint, col, writeFails, n - 1);
      forall u | u in Writes(records, payloadOf, messageOf, send, endpoint, col, writeFails, n)
        ensures exists i :: (0 <= i < n && !writeFails(i) &&
                             u == CellUpdate(i + 2, col, MessageFor(records, payloadOf, messageOf, send, endpoint, i)))
      {
        if u !in prev {
          assert u == CellUpdate(n + 1, col, MessageFor(records, payloadOf, messageOf, send, endpoint, n - 1));
        }
      }
    }
  }

  /** The rows are written top to bottom, each between row 2 and row
      `n + 1`. */
  lemma {:induction false} WritesInOrder(records: seq<map<string, string>>, payloadOf: PayloadOf, messageOf: MessageOf,
                                          send: Replies, endpoint: string, col: nat, writeFails: nat -> bool, n: nat)
    requires FormsUpTo(records, payloadOf, n)
    ensures forall a, b :: 0 <= a < b < |Writes(records, payloadOf, messageOf, send, endpoint, col, writeFails, n)| ==> Writes(records, payloadOf, messageOf, send, endpoint, col, writeFails, n)[a].row < Writes(records, payloadOf, messageOf, send, endpoint, col, writeFails, n)[b].row
    ensures forall a :: 0 <= a < |Writes(records, payloadOf, messageOf, send, endpoint, col, writeFails, n)| ==> 2 <= Writes(records, payloadOf, messageOf, send, endpoint, col, writeFails, n)[a].row <= n + 1
  {
    if n > 0 {
      WritesInOrder(records, payloadOf, messageOf, send, endpoint, col, writeFails, n - 1);
      var prev := Writes(records, payloadOf, messageOf, send, endpoint, col, writeFails, n - 1);
      var w := Writes(records, payloadOf, messageOf, send, endpoint, col, writeFails, n);
      if !writeFails(n - 1) {
        var last := CellUpdate(n + 1, col, MessageFor(records, payloadOf, messageOf, send, endpoint, n - 1));
        assert w == prev + [last];
        assert forall a :: 0 <= a < |prev| ==> w[a] == prev[a];
        assert w[|prev|] == last;
      }
    }
  }

  /** The loop of `run`: one post and one cell write per record, in order;
      a record whose form cannot be built stops the script with that
      exception. */
  method SendAll(records: seq<map<string, string>>, payloadOf: PayloadOf, messageOf: MessageOf,
                 send: Replies, endpoint: string, col: nat, writeFails: nat -> bool, ws: Worksheet)
    returns (result: Result<()>)
    modifies ws
    ensures ws.header == old(ws.header) && ws.body == old(ws.body) && ws.colCount == old(ws.colCount)
    ensures result.Ok? <==> FormsUpTo(records, payloadOf, |records|)
    ensures result.Ok? ==>
      ws.updates == old(ws.updates) + Writes(records, payloadOf, messageOf, send, endpoint, col, writeFails, |records|)
    ensures result.Err? ==>
      exists k: nat :: StopsAt(records, payloadOf, k) &&
        result.error == payloadOf(records[k]).error &&
        ws.updates == old(ws.updates) + Writes(records, payloadOf, messageOf, send, endpoint, col, writeFails, k)
  {
    var i := 0;
    while i < |records|
      invariant i <= |records|
      invariant FormsUpTo(records, payloadOf, i)
      invariant ws.header == old(ws.header) && ws.body == old(ws.body) && ws.colCount == old(ws.colCount)
      invariant ws.updates == old(ws.updates) + Writes(records, payloadOf, messageOf, send, endpoint, col, writeFails, i)
    {
      var built := payloadOf(records[i]);
      if built.Err? {
        assert StopsAt(records, payloadOf, i);
        assert !FormsUpTo(records, payloadOf, |records|);
        return Err(built.error);
      }
      ghost var done := Writes(records, payloadOf, messageOf, send, endpoint, col, writeFails, i);
      ghost var added := WriteRecord(records, payloadOf, messageOf, send, endpoint, col, writeFails, i, ws);
      WritesStep(records, payloadOf, messageOf, send, endpoint, col, writeFails, i);
      Associative(old(ws.updates), done, added);
      i := i + 1;
    }
    result := Ok(());
  }

  /** Post record `i` and write the message into row `i + 2`, unless that
      write raises. */
  method WriteRecord(records: seq<map<string, string>>, payloadOf: PayloadOf, messageOf: MessageOf,
                     send: Replies, endpoint: string, col: nat, writeFails: nat -> bool, i: nat, ws: Worksheet)
    returns (ghost added: seq<CellUpdate>)
    requires i < |records| && payloadOf(records[i]).Ok?
    modifies ws
    ensures added == if writeFails(i) then [] else [CellUpdate(i + 2, col, MessageFor(records, payloadOf, messageOf, send, endpoint, i))]
    ensures ws.updates == old(ws.updates) + added
    ensures ws.header == old(ws.header) && ws.body == old(ws.body) && ws.colCount == old(ws.colCount)
  {
    var mensagem := messageOf(send(i, Request(endpoint, payloadOf(records[i]).value)));
    var written := ws.UpdateCell(i + 2, col, mensagem, writeFails(i));
    added := if written then [CellUpdate(i + 2, col, mensagem)] else [];
  }

  /** One more record adds its own write, unless that write raises. */
  lemma WritesStep(records: seq<map<string, string>>, payloadOf: PayloadOf, messageOf: MessageOf,
                   send: Replies, endpoint: string, col: nat, writeFails: nat -> bool, i: nat)
    requires FormsUpTo(records, payloadOf, i) && i < |records| && payloadOf(records[i]).Ok?
    ensures FormsUpTo(records, payloadOf, i + 1)
    ensures Writes(records, payloadOf, messageOf, send, endpoint, col, writeFails, i + 1) ==
      Writes(records, payloadOf, messageOf, send, endpoint, col, writeFails, i) +
      (if writeFails(i) then [] else [CellUpdate(i + 2, col, MessageFor(records, payloadOf, messageOf, send, endpoint, i))])
  {
  }
}
