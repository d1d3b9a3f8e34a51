/** `login_lg.py`: log in to the portal with a headless browser, type the
    two-factor code from the mailbox when the mode asks for it, and hand back
    the base URL and the cookies of the page the login ends on. */
module LoginBrowser {
  import opened Results
  import opened Mail
  import opened Web

  /** The login page of a client is this prefix followed by its name. */
  const LoginPage := "https://login.lg.com.br/login/gente/"

  /** The seconds `login_lg` waits after a look at the mailbox that found
      no code. */
  const PollPause := 4

  const NoCodeError := "Não foi possível obter o código 2FA do Gmail."

  /** Where the browser ends up: the final page URL and the context's
      cookies, given the login page it opened and the code it typed, if
      any. */
  type Browser = (string, Option<string>) -> (string, seq<(string, string)>)

  function LoginUrl(cliente: string): string
  {
    LoginPage + cliente
  }

  /** The `{"url": ..., "cookies": ...}` result for the final page. */
  function Finish(page: (string, seq<(string, string)>)): Session
  {
    Session(UrlBase(page.0), CookieHeader(page.1))
  }

  /** `login_lg(cliente, modo_autenticacao)`: without two factors the
      browser's final page gives the session at once; with them the mailbox
      is polled, a missing code raises, and the first code found is typed. */
  method LoginLg(cliente: string, mode: string, mail: nat -> Inbox, decode: string -> Option<string>, browser: Browser)
    returns (result: Result<Session>, pauses: seq<nat>)
    ensures !TwoFactor(mode) ==> result == Ok(Finish(browser(LoginUrl(cliente), None))) && pauses == []
    ensures TwoFactor(mode) ==>
      match FirstCodeFrom(Looks(mail, decode), 0)
      case None => result == Err(NoCodeError) && pauses == seq(PollAttempts, _ => PollPause)
      case Some(k) =>
        result == Ok(Finish(browser(LoginUrl(cliente), SearchCode(mail(k), decode)))) &&
        pauses == seq(k, _ => PollPause)
  {
    var url := LoginUrl(cliente);
    var codigo: Option<string> := None;
    pauses := [];
    if TwoFactor(mode) {
      codigo, pauses := Poll(mail, decode, PollPause);
      if codigo.None? {
        return Err(NoCodeError), pauses;
      }
    }
    result := Ok(Finish(browser(url, codigo)));
  }

  /** The session of a login reads back as the browser's cookies and as a
      base URL that is its own base. */
  lemma SessionReadsBack(page: (string, seq<(string, string)>))
    requires SplitScheme(page.0).0 != []
    requires forall i :: 0 <= i < |page.1| ==> Plain(page.1[i])
    ensures ParseCookies(Finish(page).cookies) == page.1
    ensures UrlBase(Finish(page).url) == Finish(page).url
  {
    CookieHeaderRoundTrip(page.1);
    UrlBaseIdempotent(page.0);
  }
}
