/** What both login scripts hand back to the rest of the tool: the portal's
    base URL, `scheme://netloc` of the page the login ends on, and the
    session cookies as one `Cookie` header value. */
module Web {
  import opened Results
  import Text

  /** The result of a login that went through. */
  datatype Session = Session(url: string, cookies: string)

  // ---------------------------------------------------------------------------
  // urlparse(url) -> f"{scheme}://{netloc}"
  // ---------------------------------------------------------------------------

  predicate IsSchemeChar(c: char)
  {
    Text.IsLetter(c) || Text.IsDigit(c) || c == '+' || c == '-' || c == '.'
  }

  /** The characters that end the network location. */
  predicate IsDelimiter(c: char)
  {
    c == '/' || c == '?' || c == '#'
  }

  /** `urlsplit`'s scheme: the text before the first `:` when it starts with
      a letter and has only scheme characters, lower-cased; the rest of the
      URL follows it. */
  function SplitScheme(url: string): (r: (string, string))
  {
    match Text.IndexOf(url, ':')
    case None => ("", url)
    case Some(i) =>
      if i > 0 && Text.IsLetter(url[0]) && forall j :: 0 <= j < i ==> IsSchemeChar(url[j])
      then (Text.Lower(url[..i]), url[i + 1..])
      else ("", url)
  }

  /** The index of the first delimiter at or after `i`, or the length. */
  function NetlocEnd(s: string, i: nat): (e: nat)
    requires i <= |s|
    ensures i <= e <= |s| && (e == |s| || IsDelimiter(s[e]))
    ensures forall j :: i <= j < e ==> !IsDelimiter(s[j])
    decreases |s| - i
  {
    if i == |s| || IsDelimiter(s[i]) then i else NetlocEnd(s, i + 1)
  }

  /** `urlsplit`'s network location: after a leading `//`, up to the first
      delimiter. */
  function Netloc(rest: string): string
  {
    if |rest| >= 2 && rest[..2] == "//" then rest[2..NetlocEnd(rest, 2)] else ""
  }

  /** `f"{parsed.scheme}://{parsed.netloc}"`. */
  function UrlBase(url: string): string
  {
    var (scheme, rest) := SplitScheme(url);
    scheme + "://" + Netloc(rest)
  }

  /** The base of `scheme://host/path...` is `scheme://host`, the scheme
      lower-cased, whatever path, query or fragment follows. */
  lemma UrlBaseOf(scheme: string, host: string, rest: string)
    requires |scheme| >= 1 && Text.IsLetter(scheme[0])
    requires forall j :: 0 <= j < |scheme| ==> IsSchemeChar(scheme[j])
    requires forall j :: 0 <= j < |host| ==> !IsDelimiter(host[j])
    requires rest == [] || IsDelimiter(rest[0])
    ensures UrlBase(scheme + "://" + host + rest) == Text.Lower(scheme) + "://" + host
  {
    var url := scheme + "://" + host + rest;
    var n := |scheme|;
    assert url[..n] == scheme && url[n] == ':';
    Text.IndexOfAt(url, ':', n);
    var after := url[n + 1..];
    assert after == "//" + host + rest;
    assert SplitScheme(url) == (Text.Lower(scheme), after);
    assert forall j :: 2 <= j < 2 + |host| ==> after[j] == host[j - 2];
    assert 2 + |host| == |after| || after[2 + |host|] == rest[0];
    var e := NetlocEnd(after, 2);
    assert e == 2 + |host|;
    assert after[2..e] == host;
  }

  /** The base of a base is itself when it has a scheme. */
  lemma UrlBaseIdempotent(url: string)
    requires SplitScheme(url).0 != []
    ensures UrlBase(UrlBase(url)) == UrlBase(url)
  {
    var i := Text.IndexOf(url, ':').value;
    var scheme := url[..i];
    var host := Netloc(SplitScheme(url).1);
    var rest := SplitScheme(url).1;
    if |rest| >= 2 && rest[..2] == "//" {
      var e := NetlocEnd(rest, 2);
      forall j | 0 <= j < |host|
        ensures !IsDelimiter(host[j])
      {
        assert host[j] == rest[2 + j];
      }
    }
    var lower := Text.Lower(scheme);
    forall j | 0 <= j < |lower|
      ensures IsSchemeChar(lower[j])
    {
      assert IsSchemeChar(scheme[j]);
    }
    Text.LowerNormalForm(scheme);
    UrlBaseOf(lower, host, []);
    assert lower + "://" + host + [] == lower + "://" + host;
  }

  // ---------------------------------------------------------------------------
  // "; ".join(f"{name}={value}" ...)
  // ---------------------------------------------------------------------------

  /** One cookie as `name=value`. */
  function Pair(c: (string, string)): string
  {
    c.0 + "=" + c.1
  }

  /** The cookie header: the pairs in order, separated by `; `. */
  function CookieHeader(cookies: seq<(string, string)>): string
  {
    if cookies == [] then ""
    else if |cookies| == 1 then Pair(cookies[0])
    else Pair(cookies[0]) + "; " + CookieHeader(cookies[1..])
  }

  /** The pieces of a cookie header between the `;` separators. */
  function Pieces(cookies: seq<(string, string)>): (r: seq<string>)
    ensures |r| == |cookies|
  {
    seq(|cookies|, i requires 0 <= i < |cookies| => if i == 0 then Pair(cookies[i]) else " " + Pair(cookies[i]))
  }

  /** A cookie whose name has no `=` or `;` and whose value has no `;`
      survives the header. */
  predicate Plain(c: (string, string))
  {
    '=' !in c.0 && ';' !in c.0 && ';' !in c.1
  }

  /** Reading one piece back: an optional leading space, then the name up to
      the first `=`. */
  function ParsePair(piece: string, first: bool): (string, string)
  {
    var p := if !first && piece != [] && piece[0] == ' ' then piece[1..] else piece;
    match Text.IndexOf(p, '=')
    case None => (p, "")
    case Some(i) => (p[..i], p[i + 1..])
  }

  /** Reading a cookie header back into its pairs. */
  function ParseCookies(header: string): seq<(string, string)>
  {
    if header == "" then []
    else
      var ps := Text.Split(header, ';');
      seq(|ps|, i requires 0 <= i < |ps| => ParsePair(ps[i], i == 0))
  }

  lemma {:induction false} HeaderJoinsPieces(cookies: seq<(string, string)>)
    requires cookies != []
    ensures CookieHeader(cookies) == Text.Join(Pieces(cookies), ';')
  {
    if |cookies| > 1 {
      HeaderJoinsPieces(cookies[1..]);
      var ps := Pieces(cookies);
      var rest := Pieces(cookies[1..]);
      assert ps[1..] == [" " + Pair(cookies[1])] + rest[1..];
      assert Text.Join(ps[1..], ';') == " " + Text.Join(rest, ';') by {
        JoinLeadingSpace(ps[1..], rest);
      }
    }
  }

  lemma JoinLeadingSpace(spaced: seq<string>, plain: seq<string>)
    requires |plain| >= 1 && |spaced| == |plain|
    requires spaced[0] == " " + plain[0] && spaced[1..] == plain[1..]
    ensures Text.Join(spaced, ';') == " " + Text.Join(plain, ';')
  {
    if |plain| > 1 {
      assert Text.Join(spaced, ';') == spaced[0] + [';'] + Text.Join(spaced[1..], ';');
    }
  }

  /** The cookie header reads back as the cookies it was made from. */
  lemma CookieHeaderRoundTrip(cookies: seq<(string, string)>)
    requires forall i :: 0 <= i < |cookies| ==> Plain(cookies[i])
    ensures ParseCookies(CookieHeader(cookies)) == cookies
  {
    if cookies != [] {
      var ps := Pieces(cookies);
      HeaderJoinsPieces(cookies);
      forall i | 0 <= i < |ps|
        ensures ';' !in ps[i]
      {
        PieceReadsBack(cookies, i);
      }
      Text.SplitJoin(ps, ';');
      HeaderNotEmpty(ps);
      forall i | 0 <= i < |ps|
        ensures ParsePair(ps[i], i == 0) == cookies[i]
      {
        PieceReadsBack(cookies, i);
      }
    }
  }

  lemma HeaderNotEmpty(ps: seq<string>)
    requires |ps| >= 1 && |ps[0]| >= 1
    ensures Text.Join(ps, ';') != ""
  {
    if |ps| > 1 {
      assert Text.Join(ps, ';') == ps[0] + [';'] + Text.Join(ps[1..], ';');
    }
  }

  /** One piece of the header has no separator and reads back as its
      cookie. */
  lemma PieceReadsBack(cookies: seq<(string, string)>, i: nat)
    requires i < |cookies| && Plain(cookies[i])
    ensures ';' !in Pieces(cookies)[i]
    ensures ParsePair(Pieces(cookies)[i], i == 0) == cookies[i]
  {
    var c := cookies[i];
    var p := Pair(c);
    var piece := Pieces(cookies)[i];
    assert piece == if i == 0 then p else " " + p;
    assert (if i == 0 then piece else piece[1..]) == p;
    Text.IndexOfAt(p, '=', |c.0|);
    assert p[..|c.0|] == c.0 && p[|c.0| + 1..] == c.1;
  }

  // ---------------------------------------------------------------------------
  // The session's cookie jar
  // ---------------------------------------------------------------------------

  /** The names of a list of cookies, in order. */
  function Names(jar: seq<(string, string)>): (r: seq<string>)
    ensures |r| == |jar| && forall i :: 0 <= i < |jar| ==> r[i] == jar[i].0
  {
    seq(|jar|, i requires 0 <= i < |jar| => jar[i].0)
  }

  /** A cookie the server sets: a known name keeps its place and takes the
      new value, a new name goes last. This is the order of setting, not
      the order in which the jar is read; `ByName` gives that. */
  function Store(jar: seq<(string, string)>, c: (string, string)): (r: seq<(string, string)>)
    ensures |r| == if c.0 in Names(jar) then |jar| else |jar| + 1
  {
    if jar == [] then [c]
    else if jar[0].0 == c.0 then [c] + jar[1..]
    else
      assert Names(jar[1..]) == Names(jar)[1..];
      [jar[0]] + Store(jar[1..], c)
  }

  /** Every cookie of a response, in order. */
  function StoreAll(jar: seq<(string, string)>, set_: seq<(string, string)>): seq<(string, string)>
    decreases |set_|
  {
    if set_ == [] then jar else StoreAll(Store(jar, set_[0]), set_[1..])
  }

  predicate DistinctNames(jar: seq<(string, string)>)
  {
    forall i, j :: 0 <= i < j < |jar| ==> jar[i].0 != jar[j].0
  }

  /** Storing keeps one cookie per name, holds the new value under its name,
      and leaves every other cookie as it was. */
  lemma {:induction false} StoreKeepsOnePerName(jar: seq<(string, string)>, c: (string, string))
    requires DistinctNames(jar)
    ensures DistinctNames(Store(jar, c))
    ensures c in Store(jar, c)
    ensures forall d :: d in Store(jar, c) ==> d == c || (d in jar && d.0 != c.0)
    ensures forall d :: d in jar && d.0 != c.0 ==> d in Store(jar, c)
  {
    if jar != [] && jar[0].0 != c.0 {
      StoreKeepsOnePerName(jar[1..], c);
      var r := Store(jar, c);
      assert r == [jar[0]] + Store(jar[1..], c);
      forall d | d in jar && d.0 != c.0
        ensures d in r
      {
        if d != jar[0] {
          assert d in jar[1..];
        }
      }
      forall i, j | 0 <= i < j < |r|
        ensures r[i].0 != r[j].0
      {
        if i == 0 {
          assert r[j] in Store(jar[1..], c);
          if r[j] != c {
            var k :| 0 <= k < |jar[1..]| && jar[1..][k] == r[j];
            assert jar[k + 1] == r[j];
          }
        }
      }
    }
    if jar != [] && jar[0].0 == c.0 {
      var r := Store(jar, c);
      forall d | d in r
        ensures d == c || (d in jar && d.0 != c.0)
      {
        if d != c {
          var k :| 1 <= k < |r| && r[k] == d;
          assert jar[k] == d;
        }
      }
      forall d | d in jar && d.0 != c.0
        ensures d in r
      {
        var k :| 0 <= k < |jar| && jar[k] == d;
        assert k != 0;
        assert r[k] == d;
      }
    }
  }

  /** A cookie no later response sets again stays in the jar. */
  lemma {:induction false} StoreAllKeeps(jar: seq<(string, string)>, set_: seq<(string, string)>, d: (string, string))
    requires DistinctNames(jar) && d in jar
    requires forall i :: 0 <= i < |set_| ==> set_[i].0 != d.0
    ensures d in StoreAll(jar, set_) && DistinctNames(StoreAll(jar, set_))
    decreases |set_|
  {
    if set_ != [] {
      StoreKeepsOnePerName(jar, set_[0]);
      StoreAllKeeps(Store(jar, set_[0]), set_[1..], d);
    }
  }

  /** After a response, the jar still has one cookie per name, and each
      cookie the response sets holds the last value set under its name. */
  lemma {:induction false} StoreAllLastWins(jar: seq<(string, string)>, set_: seq<(string, string)>)
    requires DistinctNames(jar)
    ensures DistinctNames(StoreAll(jar, set_))
    ensures forall i :: 0 <= i < |set_| && (forall j :: i < j < |set_| ==> set_[j].0 != set_[i].0) ==>
      set_[i] in StoreAll(jar, set_)
    decreases |set_|
  {
    if set_ != [] {
      StoreKeepsOnePerName(jar, set_[0]);
      var next := Store(jar, set_[0]);
      StoreAllLastWins(next, set_[1..]);
      forall i | 0 <= i < |set_| && (forall j :: i < j < |set_| ==> set_[j].0 != set_[i].0)
        ensures set_[i] in StoreAll(jar, set_)
      {
        if i == 0 {
          StoreAllKeeps(next, set_[1..], set_[0]);
        } else {
          assert set_[1..][i - 1] == set_[i];
          assert forall j :: i - 1 < j < |set_[1..]| ==> set_[1..][j] == set_[j + 1];
        }
      }
    }
  }

  // ---------------------------------------------------------------------------
  // Iterating the jar: `for c in s.cookies`
  // ---------------------------------------------------------------------------

  /** The names strictly ascend. */
  predicate NamesAscending(jar: seq<(string, string)>)
  {
    forall i, j :: 0 <= i < j < |jar| ==> Text.Less(jar[i].0, jar[j].0)
  }

  /** Puts `c` before the first cookie whose name does not sort before its
      own. */
  function InsertByName(c: (string, string), jar: seq<(string, string)>): (r: seq<(string, string)>)
    ensures multiset(r) == multiset(jar) + multiset{c}
  {
    if jar == [] || !Text.Less(jar[0].0, c.0) then [c] + jar
    else
      assert jar == [jar[0]] + jar[1..];
      [jar[0]] + InsertByName(c, jar[1..])
  }

  /** The jar as iterating a `requests` cookie jar yields it for the one
      host and path of the portal: ordered by cookie name, whatever the
      order of setting. */
  function ByName(jar: seq<(string, string)>): (r: seq<(string, string)>)
    ensures multiset(r) == multiset(jar)
  {
    if jar == [] then []
    else
      assert jar == [jar[0]] + jar[1..];
      InsertByName(jar[0], ByName(jar[1..]))
  }

  /** Inserting a cookie whose name is new keeps the names ascending. */
  lemma {:induction false} InsertByNameAscending(c: (string, string), jar: seq<(string, string)>)
    requires NamesAscending(jar)
    requires forall d :: d in jar ==> d.0 != c.0
    ensures NamesAscending(InsertByName(c, jar))
  {
    if jar != [] {
      if !Text.Less(jar[0].0, c.0) {
        assert jar[0] in jar;
        Text.LessTotal(c.0, jar[0].0);
        PrependAscending(c, jar);
      } else {
        var tail := jar[1..];
        TailAscending(jar);
        forall d | d in tail
          ensures d.0 != c.0
        {
          assert d in jar;
        }
        InsertByNameAscending(c, tail);
        var t := InsertByName(c, tail);
        forall d | d in t
          ensures Text.Less(jar[0].0, d.0)
        {
          assert d in multiset(t);
          if d != c {
            assert d in multiset(tail);
            var k :| 0 <= k < |tail| && tail[k] == d;
            assert jar[k + 1] == d;
          }
        }
        ConsAscending(jar[0], t);
      }
    }
  }

  lemma TailAscending(jar: seq<(string, string)>)
    requires NamesAscending(jar) && jar != []
    ensures NamesAscending(jar[1..])
  {
    var tail := jar[1..];
    forall i, j | 0 <= i < j < |tail|
      ensures Text.Less(tail[i].0, tail[j].0)
    {
      assert tail[i] == jar[i + 1] && tail[j] == jar[j + 1];
    }
  }

  /** A cookie whose name sorts before every other name goes in front. */
  lemma ConsAscending(h: (string, string), t: seq<(string, string)>)
    requires NamesAscending(t)
    requires forall d :: d in t ==> Text.Less(h.0, d.0)
    ensures NamesAscending([h] + t)
  {
    var r := [h] + t;
    forall i, j | 0 <= i < j < |r|
      ensures Text.Less(r[i].0, r[j].0)
    {
      if i == 0 {
        assert r[j] == t[j - 1] && r[j] in t;
      } else {
        assert r[i] == t[i - 1] && r[j] == t[j - 1];
      }
    }
  }

  /** A cookie whose name sorts before the first one goes in front. */
  lemma PrependAscending(c: (string, string), jar: seq<(string, string)>)
    requires NamesAscending(jar) && jar != [] && Text.Less(c.0, jar[0].0)
    ensures NamesAscending([c] + jar)
  {
    forall j | 0 < j < |jar|
      ensures Text.Less(c.0, jar[j].0)
    {
      Text.LessTransitive(c.0, jar[0].0, jar[j].0);
    }
    var r := [c] + jar;
    forall i, j | 0 <= i < j < |r|
      ensures Text.Less(r[i].0, r[j].0)
    {
      if i > 0 {
        assert r[i] == jar[i - 1] && r[j] == jar[j - 1];
      } else {
        assert r[j] == jar[j - 1];
      }
    }
  }

  /** A jar with one cookie per name is read in ascending name order. */
  lemma {:induction false} ByNameAscending(jar: seq<(string, string)>)
    requires DistinctNames(jar)
    ensures NamesAscending(ByName(jar))
  {
    if jar != [] {
      var tail := jar[1..];
      forall i, j | 0 <= i < j < |tail|
        ensures tail[i].0 != tail[j].0
      {
        assert tail[i] == jar[i + 1] && tail[j] == jar[j + 1];
      }
      ByNameAscending(tail);
      forall d | d in ByName(tail)
        ensures d.0 != jar[0].0
      {
        assert d in multiset(ByName(tail));
        var k :| 0 <= k < |tail| && tail[k] == d;
        assert jar[k + 1] == d;
      }
      InsertByNameAscending(jar[0], ByName(tail));
    }
  }

  /** Two lists with ascending names and the same cookies are equal. */
  lemma {:induction false} AscendingUnique(a: seq<(string, string)>, b: seq<(string, string)>)
    requires NamesAscending(a) && NamesAscending(b)
    requires forall c :: c in a <==> c in b
    ensures a == b
  {
    if a != [] {
      assert a[0] in a;
    }
    if b != [] {
      assert b[0] in b;
    }
    if a != [] && b != [] {
      if a[0] != b[0] {
        var i :| 0 <= i < |a| && a[i] == b[0];
        var j :| 0 <= j < |b| && b[j] == a[0];
        assert Text.Less(a[0].0, b[0].0) && Text.Less(b[0].0, a[0].0);
        Text.LessAsymmetric(a[0].0, b[0].0);
      }
      forall c
        ensures c in a[1..] <==> c in b[1..]
      {
        if c in a[1..] {
          var i :| 1 <= i < |a| && a[i] == c;
          assert c in b;
          if c == b[0] {
            Text.LessIrreflexive(a[0].0);
          }
        }
        if c in b[1..] {
          var j :| 1 <= j < |b| && b[j] == c;
          assert c in a;
          if c == a[0] {
            Text.LessIrreflexive(b[0].0);
          }
        }
      }
      AscendingUnique(a[1..], b[1..]);
    }
  }

  /** The order in which cookies were set does not show in the jar as it
      is read: jars with the same cookies, one per name, read the same. */
  lemma ByNameIgnoresSettingOrder(a: seq<(string, string)>, b: seq<(string, string)>)
    requires DistinctNames(a) && DistinctNames(b)
    requires multiset(a) == multiset(b)
    ensures ByName(a) == ByName(b)
  {
    ByNameAscending(a);
    ByNameAscending(b);
    forall c
      ensures c in ByName(a) <==> c in ByName(b)
    {
      assert c in ByName(a) <==> c in multiset(ByName(a));
      assert c in ByName(b) <==> c in multiset(ByName(b));
    }
    AscendingUnique(ByName(a), ByName(b));
  }

  /** Set `b` and then `a`, the header reads `a` first. */
  lemma HeaderFollowsNames()
    ensures CookieHeader(ByName([("b", "1"), ("a", "2")])) == "a=2; b=1"
  {
    assert Text.Less("a", "b");
    assert ByName([("a", "2")]) == [("a", "2")];
  }
}
