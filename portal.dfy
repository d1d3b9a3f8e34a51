/** The HR portal as the scripts reach it: a POST of a form to an endpoint,
    answered by a response or by an exception from the HTTP library; the
    concept table both fetch scripts walk; and the retry loop both fetch
    scripts use to get one concept's list. */
module Portal {
  import opened Results
  import opened Json
  import Text

  /** What `resp.json()` makes of a response body. */
  datatype Body = Parsed(json: Value) | NotJson

  /** What one `session.post(...)` comes to. */
  datatype Outcome = Reply(status: nat, body: Body) | Raised(error: string)

  /** A form POST: the endpoint and the form fields. */
  datatype Request = Request(url: string, form: map<string, Value>)

  /** The portal's answer to the attempt-th sending of a request. */
  type Network = (Request, nat) -> Outcome

  /** The concepts both fetch scripts query, in the order of their
      `CONCEITOS` dict. */
  const Conceitos: seq<(int, string)> := [
    (1000, "Centro de Custos"),
    (1002, "Órgão Responsável"),
    (1016, "Cargo"),
    (1019, "Dependente"),
    (1020, "Pensionista"),
    (1028, "Sindicato"),
    (1029, "Pessoa"),
    (1031, "Unidade Organizacional"),
    (1032, "Estabelecimento"),
    (1034, "Colaborador"),
    (1077, "Evento"),
    (1183, "Fornecedor"),
    (1194, "Autônomo")
  ]

  /** The default `retries` of both fetch functions. */
  const Retries := 3

  /** `base.rstrip("/")`. */
  function TrimTrailingSlashes(s: string): (r: string)
    ensures |r| <= |s| && r == s[..|r|]
    ensures r == [] || r[|r| - 1] != '/'
    ensures forall i :: |r| <= i < |s| ==> s[i] == '/'
  {
    if s != [] && s[|s| - 1] == '/' then TrimTrailingSlashes(s[..|s| - 1]) else s
  }

  /** `url_base.rstrip("/") + ENDPOINT_PATH`. */
  function Endpoint(base: string, path: string): string
  {
    TrimTrailingSlashes(base) + path
  }

  /** The form the fetch functions post for one concept. */
  function FetchForm(tab: string, conceito: int): map<string, Value>
  {
    map["identificadorDaAba" := Str(tab), "conceito" := Str(Text.IntToDecimal(conceito))]
  }

  /** The answers to the successive attempts at fetching one concept. */
  function ConceptReplies(net: Network, endpoint: string, tab: string, conceito: int): nat -> Outcome
  {
    (attempt: nat) => net(Request(endpoint, FetchForm(tab, conceito)), attempt)
  }

  // ---------------------------------------------------------------------------
  // The retry loop
  // ---------------------------------------------------------------------------

  /** How the loop treats one attempt: a 200 whose body parses ends it; any
      other status moves on at once; an exception (raised by the library or
      by `resp.json()`) moves on after a pause. */
  datatype Attempt = Succeeded(json: Value) | Skipped | Failed

  function Classify(o: Outcome): Attempt
  {
    match o
    case Raised(_) => Failed
    case Reply(status, body) =>
      if status != 200 then Skipped
      else match body
        case Parsed(j) => Succeeded(j)
        case NotJson => Failed
  }

  /** The result and the pauses (in seconds) of attempts `attempt` to
      `retries`. */
  function FetchFrom(reply: nat -> Outcome, attempt: nat, retries: int): (Value, seq<nat>)
    decreases retries - attempt
  {
    if attempt > retries then (List([]), [])
    else match Classify(reply(attempt))
      case Succeeded(j) => (j, [])
      case Skipped => FetchFrom(reply, attempt + 1, retries)
      case Failed =>
        var rest := FetchFrom(reply, attempt + 1, retries);
        (rest.0, [attempt] + rest.1)
  }

  /** `fetch_informacoes` / `fetch_grupos_por_conceito`: up to `retries`
      attempts; the pause list records each `time.sleep(attempt)`. */
  method FetchJson(reply: nat -> Outcome, retries: int) returns (result: Value, pauses: seq<nat>)
    ensures result == FetchFrom(reply, 1, retries).0
    ensures pauses == FetchFrom(reply, 1, retries).1
  {
    ghost var whole := FetchFrom(reply, 1, retries);
    pauses := [];
    var attempt := 1;
    assert whole.1 == pauses + whole.1;
    while attempt <= retries
      invariant attempt >= 1
      invariant whole.0 == FetchFrom(reply, attempt, retries).0
      invariant whole.1 == pauses + FetchFrom(reply, attempt, retries).1
      decreases retries - attempt
    {
      ghost var here := FetchFrom(reply, attempt, retries);
      ghost var rest := FetchFrom(reply, attempt + 1, retries);
      var c := Classify(reply(attempt));
      if c.Succeeded? {
        assert here == (c.json, []);
        assert pauses + [] == pauses;
        return c.json, pauses;
      } else if c.Failed? {
        assert here == (rest.0, [attempt] + rest.1);
        assert pauses + ([attempt] + rest.1) == (pauses + [attempt]) + rest.1;
        pauses := pauses + [attempt];
      } else {
        assert here == rest;
      }
      attempt := attempt + 1;
    }
    assert FetchFrom(reply, attempt, retries) == (List([]), []);
    assert pauses + [] == pauses;
    result := List([]);
  }

  /** The loop returns the JSON of the first attempt that succeeds. */
  lemma {:induction false} FetchReturnsFirstSuccess(reply: nat -> Outcome, from: nat, retries: int, a: nat)
    requires from <= a <= retries
    requires Classify(reply(a)).Succeeded?
    requires forall b :: from <= b < a ==> !Classify(reply(b)).Succeeded?
    ensures FetchFrom(reply, from, retries).0 == Classify(reply(a)).json
    decreases a - from
  {
    if from < a {
      FetchReturnsFirstSuccess(reply, from + 1, retries, a);
    }
  }

  /** When no attempt succeeds the loop returns an empty list. */
  lemma {:induction false} FetchEmptyWithoutSuccess(reply: nat -> Outcome, from: nat, retries: int)
    requires forall b :: from <= b <= retries ==> !Classify(reply(b)).Succeeded?
    ensures FetchFrom(reply, from, retries).0 == List([])
    decreases retries - from
  {
    if from <= retries {
      FetchEmptyWithoutSuccess(reply, from + 1, retries);
    }
  }

  /** The loop pauses only after an exception, for as many seconds as the
      attempt's number, in increasing order and never past `retries`. */
  lemma {:induction false} FetchPausesFollowExceptions(reply: nat -> Outcome, from: nat, retries: int)
    ensures forall k :: 0 <= k < |FetchFrom(reply, from, retries).1| ==>
      var p := FetchFrom(reply, from, retries).1[k];
      from <= p <= retries && Classify(reply(p)) == Failed
    ensures forall k, l :: 0 <= k < l < |FetchFrom(reply, from, retries).1| ==>
      FetchFrom(reply, from, retries).1[k] < FetchFrom(reply, from, retries).1[l]
    decreases retries - from
  {
    if from <= retries {
      FetchPausesFollowExceptions(reply, from + 1, retries);
    }
  }

  /** Every exception before the first success is followed by a pause. */
  lemma {:induction false} FetchPausesAfterEveryException(reply: nat -> Outcome, from: nat, retries: int, b: nat)
    requires from <= b <= retries
    requires Classify(reply(b)) == Failed
    requires forall c :: from <= c < b ==> !Classify(reply(c)).Succeeded?
    ensures b in FetchFrom(reply, from, retries).1
    decreases b - from
  {
    if from < b {
      FetchPausesAfterEveryException(reply, from + 1, retries, b);
    }
  }
}
