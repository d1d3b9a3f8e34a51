/** `login_lg_sem_selenium.py`: log in to the portal with plain HTTP
    requests — fetch the login page, post the credentials with the page's
    anti-forgery token, answer the two-factor step with the code from the
    mailbox — and hand back the base URL and the session's cookies. */
module LoginHttp {
  import opened Results
  import opened Mail
  import opened Web
  import Text

  /** A response after redirects: status, final URL, body text and the
      cookies the server set on the way, in order. */
  datatype Response = Response(status: nat, url: string, text: string, cookies: seq<(string, string)>)

  /** The portal behind the session: its answer to a GET of a URL and to a
      form POST to a URL. */
  datatype Server = Server(get: string -> Response, post: (string, map<string, string>) -> Response)

  /** The seconds `executar_login` waits after a look at the mailbox that
      found no code. */
  const PollPause := 5

  const TokenKey := "__RequestVerificationToken"
  const ModeError := "Conta exige 2FA mas modo_autenticacao!='2FA'"
  const NoCodeError := "Código 2FA não recebido."

  // ---------------------------------------------------------------------------
  // The anti-forgery token
  // ---------------------------------------------------------------------------

  /** The literal text in front of the token in the login page. */
  const Marker := "name=\"__RequestVerificationToken\" value=\""

  /** The index of the first quote at or after `j`. */
  function QuoteFrom(t: string, j: nat): (r: Option<nat>)
    ensures r.Some? ==> j <= r.value < |t| && t[r.value] == '"'
    decreases |t| - j
  {
    if j >= |t| then None
    else if t[j] == '"' then Some(j)
    else QuoteFrom(t, j + 1)
  }

  /** No quote lies between `j` and the one `QuoteFrom` finds. */
  lemma {:induction false} QuoteFromFirst(t: string, j: nat)
    ensures QuoteFrom(t, j).Some? ==> forall k :: j <= k < QuoteFrom(t, j).value ==> t[k] != '"'
    decreases |t| - j
  {
    if j < |t| && t[j] != '"' {
      QuoteFromFirst(t, j + 1);
    }
  }

  /** A quote with none between `j` and it is the one `QuoteFrom` finds. */
  lemma {:induction false} QuoteFromFinds(t: string, j: nat, e: nat)
    requires j <= e < |t| && t[e] == '"'
    requires forall k :: j <= k < e ==> t[k] != '"'
    ensures QuoteFrom(t, j) == Some(e)
    decreases e - j
  {
    if j < e {
      QuoteFromFinds(t, j + 1, e);
    }
  }

  /** The index of the quote that closes a token starting at `j`, when the
      token is not empty. */
  function TokenEnd(t: string, j: nat): (r: Option<nat>)
    ensures r.Some? ==> j < r.value < |t| && t[r.value] == '"'
  {
    match QuoteFrom(t, j)
    case None => None
    case Some(k) => if k > j then Some(k) else None
  }

  /** The pattern `m([^"]+)"` matches at `i`: the text `m`, then one or
      more characters other than a quote, then a quote. */
  predicate TokenAt(t: string, m: string, i: nat)
  {
    Text.OccursAt(t, m, i) && TokenEnd(t, i + |m|).Some?
  }

  /** The leftmost match at or after `i`. */
  function TokenFrom(t: string, m: string, i: nat): (r: Option<nat>)
    ensures r.Some? ==> i <= r.value && TokenAt(t, m, r.value)
    decreases |t| - i
  {
    if i + |m| > |t| then None
    else if TokenAt(t, m, i) then Some(i)
    else TokenFrom(t, m, i + 1)
  }

  /** Nothing matches between `i` and the match `TokenFrom` finds, nor
      anywhere from `i` on when it finds none. */
  lemma {:induction false} TokenFromLeftmost(t: string, m: string, i: nat)
    ensures var r := TokenFrom(t, m, i);
      r.Some? ==> forall j: nat :: i <= j < r.value ==> !TokenAt(t, m, j)
    ensures TokenFrom(t, m, i).None? ==> forall j: nat :: i <= j ==> !TokenAt(t, m, j)
    decreases |t| - i
  {
    if i + |m| <= |t| && !TokenAt(t, m, i) {
      TokenFromLeftmost(t, m, i + 1);
    }
  }

  /** A match with no match between `i` and it is the one `TokenFrom`
      finds. */
  lemma {:induction false} TokenFromFinds(t: string, m: string, i: nat, n: nat)
    requires i <= n && TokenAt(t, m, n)
    requires forall k: nat :: i <= k < n ==> !TokenAt(t, m, k)
    ensures TokenFrom(t, m, i) == Some(n)
    decreases n - i
  {
    if i < n {
      TokenFromFinds(t, m, i + 1, n);
    }
  }

  /** The group of the leftmost match of `m([^"]+)"`, which is never empty
      and has no quote. */
  function TokenOf(t: string, m: string): (r: Option<string>)
    ensures r.Some? ==> r.value != [] && '"' !in r.value
  {
    match TokenFrom(t, m, 0)
    case None => None
    case Some(i) =>
      var j := i + |m|;
      var e := TokenEnd(t, j).value;
      QuoteFromFirst(t, j);
      assert forall k :: 0 <= k < e - j ==> t[j..e][k] == t[j + k];
      Some(t[j..e])
  }

  /** There is a token exactly when the pattern matches somewhere, and it is
      the one of the leftmost match. */
  lemma TokenOfLeftmost(t: string, m: string)
    ensures TokenOf(t, m).None? <==> forall i: nat :: !TokenAt(t, m, i)
    ensures forall i: nat :: TokenAt(t, m, i) && (forall k: nat :: k < i ==> !TokenAt(t, m, k)) ==>
      TokenOf(t, m) == Some(t[i + |m|..TokenEnd(t, i + |m|).value])
  {
    TokenFromLeftmost(t, m, 0);
    forall i: nat | TokenAt(t, m, i) && (forall k: nat :: k < i ==> !TokenAt(t, m, k))
      ensures TokenOf(t, m) == Some(t[i + |m|..TokenEnd(t, i + |m|).value])
    {
      TokenFromFinds(t, m, 0, i);
    }
  }

  /** `m.group(1) if m else None` for the pattern
      `name="__RequestVerificationToken" value="([^"]+)"`. */
  function CsrfToken(t: string): Option<string>
  {
    TokenOf(t, Marker)
  }

  /** A page whose text before the marker has no quote yields the token
      written after the marker. */
  lemma CsrfTokenOf(pre: string, token: string, post: string)
    requires '"' !in pre
    requires token != [] && '"' !in token
    ensures CsrfToken(pre + Marker + token + "\"" + post) == Some(token)
  {
    assert Marker[5] == '"' && '"' !in Marker[..5];
    TokenOfPage(pre, Marker, 5, token, post);
  }

  /** The same for any marker whose first quote is at `q`. */
  lemma TokenOfPage(pre: string, m: string, q: nat, token: string, post: string)
    requires q < |m| && m[q] == '"' && '"' !in m[..q]
    requires '"' !in pre
    requires token != [] && '"' !in token
    ensures TokenOf(pre + m + token + "\"" + post, m) == Some(token)
  {
    var t := pre + m + token + "\"" + post;
    TokenAfterMarker(pre, m, token, post);
    forall i: nat | i < |pre|
      ensures !TokenAt(t, m, i)
    {
      NoMarkerInside(pre, m, q, t, i);
    }
    LeftmostToken(t, m, |pre|, token);
  }

  /** The marker right after `pre`, then the token and its closing quote. */
  lemma TokenAfterMarker(pre: string, m: string, token: string, post: string)
    requires token != [] && '"' !in token
    ensures var t := pre + m + token + "\"" + post;
      var j := |pre| + |m|;
      && t[..j] == pre + m
      && TokenEnd(t, j) == Some(j + |token|)
      && t[j..j + |token|] == token
      && TokenAt(t, m, |pre|)
  {
    var t := pre + m + token + "\"" + post;
    var j := |pre| + |m|;
    PageLayout(pre, m, token, post);
    QuotedAt(t, j, token);
  }

  /** Where the parts of a login page sit in its text. */
  lemma PageLayout(pre: string, m: string, token: string, post: string)
    ensures var t := pre + m + token + "\"" + post;
      var j := |pre| + |m|;
      && j + |token| < |t|
      && t[..j] == pre + m
      && t[|pre|..j] == m
      && (forall k :: 0 <= k < |token| ==> t[j + k] == token[k])
      && t[j + |token|] == '"'
  {
    var t := pre + m + token + "\"" + post;
    var j := |pre| + |m|;
    var rest := token + "\"" + post;
    assert t == (pre + m) + rest;
    assert rest[|token|] == '"';
  }

  /** A nonempty quote-free token at `j` closed by a quote is what
      `TokenEnd` delimits. */
  lemma QuotedAt(t: string, j: nat, token: string)
    requires token != [] && '"' !in token
    requires j + |token| < |t| && t[j + |token|] == '"'
    requires forall k :: 0 <= k < |token| ==> t[j + k] == token[k]
    ensures TokenEnd(t, j) == Some(j + |token|)
    ensures t[j..j + |token|] == token
  {
    forall k | j <= k < j + |token|
      ensures t[k] != '"'
    {
      assert t[k] == token[k - j];
    }
    QuoteFromFinds(t, j, j + |token|);
  }

  /** A match with none before it is the one `TokenOf` reads. */
  lemma LeftmostToken(t: string, m: string, i: nat, token: string)
    requires TokenAt(t, m, i) && forall k: nat :: k < i ==> !TokenAt(t, m, k)
    requires TokenEnd(t, i + |m|) == Some(i + |m| + |token|)
    requires t[i + |m|..i + |m| + |token|] == token
    ensures TokenOf(t, m) == Some(token)
  {
    TokenFromFinds(t, m, 0, i);
  }

  /** A marker cannot start inside quote-free text that the marker itself
      follows: its first quote would fall in that text or before the
      marker's own first quote. */
  lemma NoMarkerInside(pre: string, m: string, q: nat, t: string, i: nat)
    requires q < |m| && m[q] == '"' && '"' !in m[..q]
    requires '"' !in pre && i < |pre|
    requires |pre| + |m| <= |t| && t[..|pre| + |m|] == pre + m
    ensures !Text.OccursAt(t, m, i)
  {
    var n := |pre|;
    var c := t[i + q];
    assert c == (pre + m)[i + q];
    if i + q < n {
      assert c == pre[i + q];
    } else {
      assert c == m[..q][i + q - n];
    }
    assert c != m[q];
    if i + |m| <= |t| {
      assert t[i..i + |m|][q] == c;
    }
  }

  // ---------------------------------------------------------------------------
  // The login flow
  // ---------------------------------------------------------------------------

  /** The credentials form, with the token only when there is one. */
  function LoginForm(user: string, password: string, token: Option<string>): map<string, string>
  {
    var payload := map["Login" := user, "Senha" := password];
    if token.Some? && token.value != "" then payload[TokenKey := token.value] else payload
  }

  /** The form has the two credentials and, exactly when the page has a
      token, that token. */
  lemma LoginFormCarriesToken(user: string, password: string, page: string)
    ensures var form := LoginForm(user, password, CsrfToken(page));
      && form["Login"] == user && form["Senha"] == password
      && (TokenKey in form <==> CsrfToken(page).Some?)
      && (TokenKey in form ==> form[TokenKey] == CsrfToken(page).value)
      && form.Keys <= {"Login", "Senha", TokenKey}
  {
  }

  /** A login page carrying a token in the expected place gets that token
      posted back with the credentials. */
  lemma LoginFormOfPage(user: string, password: string, pre: string, token: string, post: string)
    requires '"' !in pre
    requires token != [] && '"' !in token
    ensures LoginForm(user, password, CsrfToken(pre + Marker + token + "\"" + post)) ==
      map["Login" := user, "Senha" := password, TokenKey := token]
  {
    CsrfTokenOf(pre, token, post);
  }

  /** The jar after both responses has one cookie per name and holds each
      cookie the second response set last under its name. */
  lemma JarHasSecond(first: seq<(string, string)>, second: seq<(string, string)>)
    ensures var jar := StoreAll(StoreAll([], first), second);
      && DistinctNames(jar)
      && (forall i :: 0 <= i < |second| && (forall j :: i < j < |second| ==> second[j].0 != second[i].0) ==>
            second[i] in jar)
  {
    StoreAllLastWins([], first);
    StoreAllLastWins(StoreAll([], first), second);
  }

  /** The jar after both responses still holds each cookie the first
      response set last under its name, unless the second sets that name. */
  lemma JarKeepsFirst(first: seq<(string, string)>, second: seq<(string, string)>)
    ensures var jar := StoreAll(StoreAll([], first), second);
      forall i :: (0 <= i < |first| && (forall j :: i < j < |first| ==> first[j].0 != first[i].0) &&
                   (forall j :: 0 <= j < |second| ==> second[j].0 != first[i].0)) ==>
        first[i] in jar
  {
    var mid := StoreAll([], first);
    StoreAllLastWins([], first);
    forall i | 0 <= i < |first| && (forall j :: i < j < |first| ==> first[j].0 != first[i].0) &&
      (forall j :: 0 <= j < |second| ==> second[j].0 != first[i].0)
      ensures first[i] in StoreAll(mid, second)
    {
      StoreAllKeeps(mid, second, first[i]);
    }
  }

  /** The cookies the session header joins come in strictly ascending name
      order, after the login post and after the code post alike. */
  lemma SessionJarByName(first: seq<(string, string)>, second: seq<(string, string)>,
                         third: seq<(string, string)>)
    ensures var jar := StoreAll(StoreAll([], first), second);
      NamesAscending(ByName(jar)) && NamesAscending(ByName(StoreAll(jar, third)))
  {
    var jar := StoreAll(StoreAll([], first), second);
    JarHasSecond(first, second);
    StoreAllLastWins(jar, third);
    ByNameAscending(jar);
    ByNameAscending(StoreAll(jar, third));
  }

  /** `"ValideCodigo" in r2.url`: the portal asks for the second factor. */
  predicate AsksForCode(url: string)
  {
    Text.Find(url, "ValideCodigo", 0).Some?
  }

  /** `executar_login(url_login, modo_autenticacao)`: the session's cookies
      are every cookie the responses set, the latest value per name, joined
      in the order the jar is iterated, which is by name. */
  method ExecutarLogin(urlLogin: string, mode: string, user: string, password: string, server: Server,
                       mail: nat -> Inbox, decode: string -> Option<string>)
    returns (result: Result<Session>, pauses: seq<nat>)
    ensures var r1 := server.get(urlLogin);
      r1.status != 200 && r1.status != 302 ==>
        result == Err("Falha ao acessar login (" + Text.IntToDecimal(r1.status) + ")") && pauses == []
    ensures var r1 := server.get(urlLogin);
      var r2 := server.post(urlLogin, LoginForm(user, password, CsrfToken(r1.text)));
      var jar := StoreAll(StoreAll([], r1.cookies), r2.cookies);
      (r1.status == 200 || r1.status == 302) ==>
        && (!AsksForCode(r2.url) ==> result == Ok(Session(UrlBase(r2.url), CookieHeader(ByName(jar)))) && pauses == [])
        && (AsksForCode(r2.url) && !TwoFactor(mode) ==> result == Err(ModeError) && pauses == [])
        && (AsksForCode(r2.url) && TwoFactor(mode) ==>
          match FirstCodeFrom(Looks(mail, decode), 0)
          case None => result == Err(NoCodeError) && pauses == seq(PollAttempts, _ => PollPause)
          case Some(k) =>
            var r3 := server.post(r2.url, map["Codigo" := SearchCode(mail(k), decode).value]);
            result == Ok(Session(UrlBase(r3.url), CookieHeader(ByName(StoreAll(jar, r3.cookies))))) &&
            pauses == seq(k, _ => PollPause))
  {
    pauses := [];
    var jar: seq<(string, string)> := [];
    var r1 := server.get(urlLogin);
    jar := StoreAll(jar, r1.cookies);
    if r1.status != 200 && r1.status != 302 {
      return Err("Falha ao acessar login (" + Text.IntToDecimal(r1.status) + ")"), pauses;
    }
    var csrf := CsrfToken(r1.text);
    var r2 := server.post(urlLogin, LoginForm(user, password, csrf));
    jar := StoreAll(jar, r2.cookies);
    var final := r2;
    if AsksForCode(r2.url) {
      if !TwoFactor(mode) {
        return Err(ModeError), pauses;
      }
      var codigo;
      codigo, pauses := Poll(mail, decode, PollPause);
      if codigo.None? {
        return Err(NoCodeError), pauses;
      }
      var r3 := server.post(r2.url, map["Codigo" := codigo.value]);
      jar := StoreAll(jar, r3.cookies);
      final := r3;
    }
    result := Ok(Session(UrlBase(final.url), CookieHeader(ByName(jar))));
  }
}
