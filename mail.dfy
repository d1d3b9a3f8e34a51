/** The two-factor code both login scripts read from the mailbox: the newest
    unread message from the portal is searched, part by part, for a
    six-digit code, and the mailbox is polled a bounded number of times. */
module Mail {
  import opened Results
  import opened Json
  import Text

  // ---------------------------------------------------------------------------
  // re.search(r"\b\d{6}\b", text)
  // ---------------------------------------------------------------------------

  /** Six digits start at `i`, with a word boundary before and after them. */
  predicate CodeAt(t: string, i: nat)
  {
    && i + 6 <= |t|
    && (forall j :: i <= j < i + 6 ==> Text.IsDigit(t[j]))
    && (i == 0 || !Text.IsWordChar(t[i - 1]))
    && (i + 6 == |t| || !Text.IsWordChar(t[i + 6]))
  }

  /** The leftmost position at or after `i` where a code starts. */
  function FindCodeFrom(t: string, i: nat): (r: Option<nat>)
    ensures r.Some? ==> i <= r.value && CodeAt(t, r.value) && forall j: nat :: i <= j < r.value ==> !CodeAt(t, j)
    ensures r.None? ==> forall j: nat :: i <= j ==> !CodeAt(t, j)
    decreases |t| - i
  {
    if i + 6 > |t| then None
    else if CodeAt(t, i) then Some(i)
    else FindCodeFrom(t, i + 1)
  }

  /** `m.group(0) if m else None`: the leftmost code of the text. */
  function FindCode(t: string): (r: Option<string>)
    ensures r.None? <==> forall i: nat :: !CodeAt(t, i)
    ensures r.Some? ==> exists i: nat :: CodeAt(t, i) && r.value == t[i..i + 6] && forall j: nat :: j < i ==> !CodeAt(t, j)
    ensures r.Some? ==> |r.value| == 6 && Text.AllDigits(r.value)
  {
    match FindCodeFrom(t, 0)
    case None => None
    case Some(i) => Some(t[i..i + 6])
  }

  /** In a text whose lead-in has no digit, a code standing on its own is
      the one found, whatever follows it. */
  lemma FindsCodeAfterLeadIn(lead: string, code: string, rest: string)
    requires forall i :: 0 <= i < |lead| ==> !Text.IsDigit(lead[i])
    requires lead == [] || !Text.IsWordChar(lead[|lead| - 1])
    requires |code| == 6 && Text.AllDigits(code)
    requires rest == [] || !Text.IsWordChar(rest[0])
    ensures FindCode(lead + code + rest) == Some(code)
  {
    var t := lead + code + rest;
    var n := |lead|;
    assert t[n..n + 6] == code;
    assert CodeAt(t, n);
    forall j: nat | j < n
      ensures !CodeAt(t, j)
    {
      assert t[j] == lead[j];
    }
    var r := FindCodeFrom(t, 0);
    assert r == Some(n);
  }

  // ---------------------------------------------------------------------------
  // decode_part / extrair_texto, extrair_codigo_email
  // ---------------------------------------------------------------------------

  /** What searching one part comes to: a code, none, or an exception. */
  datatype Decoded = Code(code: string) | NoCode | Raises

  /** `decode_part(part)` (and `extrair_texto`): a part whose `body.data` is
      missing or empty has no code; otherwise the data is decoded (`decode`
      gives `None` where the base64 decoding raises) and searched. A part or
      a body that is not a dict, and data that is not text, raise. */
  function DecodePart(part: Value, decode: string -> Option<string>): (r: Decoded)
    ensures r.Code? ==> |r.code| == 6 && Text.AllDigits(r.code)
  {
    match DictGet(part, "body", Object([]))
    case Err(_) => Raises
    case Ok(body) =>
      match DictGet(body, "data", Null)
      case Err(_) => Raises
      case Ok(data) =>
        if !Truthy(data) then NoCode
        else if !data.Str? then Raises
        else match decode(data.s)
          case None => Raises
          case Some(text) =>
            match FindCode(text)
            case None => NoCode
            case Some(c) => Code(c)
  }

  /** The loop over `payload["parts"]`: the first part with a code wins, and
      an exception in any part before it ends the search. */
  function FirstPartCode(parts: seq<Value>, decode: string -> Option<string>): (r: Decoded)
    ensures r.Code? ==> |r.code| == 6 && Text.AllDigits(r.code)
  {
    if parts == [] then NoCode
    else match DecodePart(parts[0], decode)
      case Code(c) => Code(c)
      case Raises => Raises
      case NoCode => FirstPartCode(parts[1..], decode)
  }

  /** Part `k` has a code and every part before it has none. */
  predicate FirstWithCode(parts: seq<Value>, decode: string -> Option<string>, k: nat)
  {
    k < |parts| && DecodePart(parts[k], decode).Code? &&
    forall j :: 0 <= j < k ==> DecodePart(parts[j], decode) == NoCode
  }

  /** The code comes from the first part that has one. */
  lemma {:induction false} FirstPartCodeFinds(parts: seq<Value>, decode: string -> Option<string>, k: nat)
    requires FirstWithCode(parts, decode, k)
    ensures FirstPartCode(parts, decode) == DecodePart(parts[k], decode)
  {
    if k > 0 {
      assert DecodePart(parts[0], decode) == NoCode;
      var rest := parts[1..];
      assert rest[k - 1] == parts[k];
      forall j | 0 <= j < k - 1
        ensures DecodePart(rest[j], decode) == NoCode
      {
        assert rest[j] == parts[j + 1];
      }
      FirstPartCodeFinds(rest, decode, k - 1);
    }
  }

  /** A code found has a first part that has it. */
  lemma {:induction false} FirstPartCodeHasFirst(parts: seq<Value>, decode: string -> Option<string>)
    ensures FirstPartCode(parts, decode).Code? ==> exists k: nat :: FirstWithCode(parts, decode, k)
  {
    if parts != [] && DecodePart(parts[0], decode) == NoCode && FirstPartCode(parts, decode).Code? {
      var rest := parts[1..];
      FirstPartCodeHasFirst(rest, decode);
      var k: nat :| FirstWithCode(rest, decode, k);
      assert rest[k] == parts[k + 1];
      forall j | 0 <= j < k + 1
        ensures DecodePart(parts[j], decode) == NoCode
      {
        if j > 0 {
          assert parts[j] == rest[j - 1];
        }
      }
      assert FirstWithCode(parts, decode, k + 1);
    }
    if parts != [] && DecodePart(parts[0], decode).Code? {
      assert FirstWithCode(parts, decode, 0);
    }
  }

  /** There is a code exactly when some part has one with none before it. */
  lemma FirstPartCodeIff(parts: seq<Value>, decode: string -> Option<string>)
    ensures FirstPartCode(parts, decode).Code? <==> exists k: nat :: FirstWithCode(parts, decode, k)
  {
    FirstPartCodeHasFirst(parts, decode);
    if exists k: nat :: FirstWithCode(parts, decode, k) {
      var k: nat :| FirstWithCode(parts, decode, k);
      FirstPartCodeFinds(parts, decode, k);
    }
  }

  /** Parts that all lack a code give none. */
  lemma {:induction false} FirstPartCodeNone(parts: seq<Value>, decode: string -> Option<string>)
    requires forall k :: 0 <= k < |parts| ==> DecodePart(parts[k], decode) == NoCode
    ensures FirstPartCode(parts, decode) == NoCode
  {
    if parts != [] {
      assert forall k :: 0 <= k < |parts[1..]| ==> parts[1..][k] == parts[k + 1];
      FirstPartCodeNone(parts[1..], decode);
    }
  }

  /** What searching a payload comes to: part by part when it has `parts`,
      as one part otherwise; a payload that is not a dict, or parts that
      cannot be iterated, raise. */
  function PayloadCode(payload: Value, decode: string -> Option<string>): (r: Decoded)
    ensures r.Code? ==> |r.code| == 6 && Text.AllDigits(r.code)
  {
    if !payload.Object? then Raises
    else if "parts" in Keys(payload.fields) then
      match Iterate(Get(payload.fields, "parts").value)
      case Err(_) => Raises
      case Ok(parts) => FirstPartCode(parts, decode)
    else DecodePart(payload, decode)
  }

  /** `extrair_codigo_email(msg)`: a message without a dict payload, and any
      exception, give no code. */
  function ExtractCode(msg: Value, decode: string -> Option<string>): (r: Option<string>)
    ensures r.Some? ==> |r.value| == 6 && Text.AllDigits(r.value)
  {
    if !msg.Object? || "payload" !in Keys(msg.fields) then None
    else
      var found := PayloadCode(Get(msg.fields, "payload").value, decode);
      if found.Code? then Some(found.code) else None
  }

  /** A payload with a list of parts has a code exactly when some part has
      one with none before it, and it is that part's code. */
  lemma PayloadPartsCode(payload: Value, decode: string -> Option<string>)
    requires payload.Object? && "parts" in Keys(payload.fields) && Get(payload.fields, "parts").value.List?
    ensures var parts := Get(payload.fields, "parts").value.items;
      && (PayloadCode(payload, decode).Code? <==> exists k: nat :: FirstWithCode(parts, decode, k))
      && forall k: nat :: FirstWithCode(parts, decode, k) ==> PayloadCode(payload, decode) == DecodePart(parts[k], decode)
  {
    var parts := Get(payload.fields, "parts").value.items;
    assert Iterate(Get(payload.fields, "parts").value) == Ok(parts);
    FirstPartCodeIff(parts, decode);
    forall k: nat | FirstWithCode(parts, decode, k)
      ensures FirstPartCode(parts, decode) == DecodePart(parts[k], decode)
    {
      FirstPartCodeFinds(parts, decode, k);
    }
  }

  // ---------------------------------------------------------------------------
  // buscar_codigo_2fa and the poll
  // ---------------------------------------------------------------------------

  /** What one look at the mailbox finds: the mail service failed, no
      unread message from the portal, or the newest such message in full. */
  datatype Inbox = Unavailable | NoUnread | Newest(msg: Value)

  /** `buscar_codigo_2fa(gmail_service)`. */
  function SearchCode(inbox: Inbox, decode: string -> Option<string>): (r: Option<string>)
    ensures r.Some? ==> |r.value| == 6 && Text.AllDigits(r.value)
    ensures inbox.Newest? ==> r == ExtractCode(inbox.msg, decode)
    ensures !inbox.Newest? ==> r.None?
  {
    match inbox
    case Newest(msg) => ExtractCode(msg, decode)
    case _ => None
  }

  /** `modo_autenticacao.upper() == "2FA"`. */
  predicate TwoFactor(mode: string)
  {
    Text.Upper(mode) == "2FA"
  }

  /** The mode check ignores case, and only the four spellings of `2fa`
      pass it. */
  lemma TwoFactorSpellings(mode: string)
    ensures TwoFactor(mode) <==>
      |mode| == 3 && mode[0] == '2' && (mode[1] == 'f' || mode[1] == 'F') && (mode[2] == 'a' || mode[2] == 'A')
  {
    if TwoFactor(mode) {
      var u := Text.Upper(mode);
      assert |mode| == 3;
      assert Text.UpperChar(mode[0]) == u[0] == '2';
      assert Text.UpperChar(mode[1]) == u[1] == 'F';
      assert Text.UpperChar(mode[2]) == u[2] == 'A';
    }
    if |mode| == 3 && mode[0] == '2' && (mode[1] == 'f' || mode[1] == 'F') && (mode[2] == 'a' || mode[2] == 'A') {
      assert Text.Upper(mode) == "2FA";
    }
  }

  /** `range(12)` in both login loops. */
  const PollAttempts := 12

  /** What each look at the mailbox gives: `mail(k)` is what the k-th look
      (from 0) finds. */
  function Looks(mail: nat -> Inbox, decode: string -> Option<string>): nat -> Option<string>
  {
    (k: nat) => SearchCode(mail(k), decode)
  }

  /** The first attempt at or after `k` whose look gives a code. */
  function FirstCodeFrom(look: nat -> Option<string>, k: nat): (r: Option<nat>)
    ensures r.Some? ==>
      && k <= r.value < PollAttempts
      && look(r.value).Some?
      && forall j :: k <= j < r.value ==> look(j).None?
    ensures r.None? ==> forall j :: k <= j < PollAttempts ==> look(j).None?
    decreases PollAttempts - k
  {
    if k >= PollAttempts then None
    else if look(k).Some? then Some(k)
    else FirstCodeFrom(look, k + 1)
  }

  /** The two-factor loop: look at most `PollAttempts` times, stop at the
      first code, and pause `pause` seconds after every look that found
      none. */
  method Poll(mail: nat -> Inbox, decode: string -> Option<string>, pause: nat)
    returns (code: Option<string>, pauses: seq<nat>)
    ensures match FirstCodeFrom(Looks(mail, decode), 0)
      case Some(k) => code == SearchCode(mail(k), decode) && code.Some? && pauses == seq(k, _ => pause)
      case None => code.None? && pauses == seq(PollAttempts, _ => pause)
    ensures code.Some? ==> |code.value| == 6 && Text.AllDigits(code.value)
  {
    var look := Looks(mail, decode);
    pauses := [];
    var tent := 0;
    while tent < PollAttempts
      invariant tent <= PollAttempts
      invariant FirstCodeFrom(look, 0) == FirstCodeFrom(look, tent)
      invariant pauses == seq(tent, _ => pause)
    {
      code := SearchCode(mail(tent), decode);
      if code.Some? {
        return;
      }
      pauses := pauses + [pause];
      tent := tent + 1;
    }
    code := None;
  }
}
