/** The string operations the scripts borrow from Python's `str` and `int`:
    character classes, `strip`, `upper`/`lower`/`capitalize`, `replace`,
    `split`/`join`, ordering of `str` values, `sorted` over dictionary keys,
    and `int(text)` / `str(int)` for decimal text. Only ASCII letters and
    digits are classified (see README). */
module Text {
  import opened Results

  // ---------------------------------------------------------------------------
  // Character classes
  // ---------------------------------------------------------------------------

  predicate IsDigit(c: char) { '0' <= c <= '9' }

  predicate IsLetter(c: char) { 'a' <= c <= 'z' || 'A' <= c <= 'Z' }

  /** The characters `\w` matches. */
  predicate IsWordChar(c: char) { IsDigit(c) || IsLetter(c) || c == '_' }

  /** The characters `str.isspace` accepts among code points below 256. */
  predicate IsSpace(c: char)
  {
    c == ' ' || '\t' <= c <= '\r' || '\U{1C}' <= c <= '\U{1F}' || c == '\U{85}' || c == '\U{A0}'
  }

  function UpperChar(c: char): char
  {
    if 'a' <= c <= 'z' then (c as int - 32) as char else c
  }

  function LowerChar(c: char): char
  {
    if 'A' <= c <= 'Z' then (c as int + 32) as char else c
  }

  // ---------------------------------------------------------------------------
  // upper, lower, capitalize
  // ---------------------------------------------------------------------------

  function Upper(s: string): string
  {
    seq(|s|, i requires 0 <= i < |s| => UpperChar(s[i]))
  }

  function Lower(s: string): string
  {
    seq(|s|, i requires 0 <= i < |s| => LowerChar(s[i]))
  }

  /** `str.capitalize`: first character upper-case, the rest lower-case. */
  function Capitalize(s: string): string
  {
    if s == [] then [] else [UpperChar(s[0])] + Lower(s[1..])
  }

  /** Capitalizing twice changes nothing, and the result has no lower-case
      letter in front and no upper-case letter after it. */
  lemma CapitalizeNormalForm(s: string)
    ensures Capitalize(Capitalize(s)) == Capitalize(s)
    ensures |Capitalize(s)| == |s|
    ensures s != [] ==> !('a' <= Capitalize(s)[0] <= 'z')
    ensures forall i :: 1 <= i < |s| ==> !('A' <= Capitalize(s)[i] <= 'Z')
  {
    if s != [] {
      var c := Capitalize(s);
      assert c[1..] == Lower(s[1..]);
      assert Lower(c[1..]) == c[1..];
    }
  }

  /** Lower-casing twice changes nothing and leaves no upper-case letter. */
  lemma LowerNormalForm(s: string)
    ensures Lower(Lower(s)) == Lower(s)
    ensures forall i :: 0 <= i < |s| ==> !('A' <= Lower(s)[i] <= 'Z')
  {
  }

  // ---------------------------------------------------------------------------
  // strip
  // ---------------------------------------------------------------------------

  function LStrip(s: string): (r: string)
    ensures |r| <= |s| && r == s[|s| - |r|..]
    ensures r == [] || !IsSpace(r[0])
    ensures forall i :: 0 <= i < |s| - |r| ==> IsSpace(s[i])
  {
    if s != [] && IsSpace(s[0]) then LStrip(s[1..]) else s
  }

  function RStrip(s: string): (r: string)
    ensures |r| <= |s| && r == s[..|r|]
    ensures r == [] || !IsSpace(r[|r| - 1])
    ensures forall i :: |r| <= i < |s| ==> IsSpace(s[i])
  {
    if s != [] && IsSpace(s[|s| - 1]) then RStrip(s[..|s| - 1]) else s
  }

  /** `str.strip()`: the input without the white space at either end;
      every character of the result is a character of the input, and
      `StripIsSlice` shows which. */
  function Strip(s: string): (r: string)
    ensures r == [] || (!IsSpace(r[0]) && !IsSpace(r[|r| - 1]))
    ensures forall i :: 0 <= i < |r| ==> r[i] in s
  {
    var l := LStrip(s);
    var r := RStrip(l);
    forall i | 0 <= i < |r|
      ensures r[i] in s
    {
      assert r[i] == l[i] == s[|s| - |l| + i];
    }
    r
  }

  /** `str.strip()` keeps one slice of the input, and everything before
      and after it is white space: nothing else is removed. */
  lemma StripIsSlice(s: string)
    ensures exists a: nat :: StrippedAt(s, Strip(s), a)
  {
    var l := LStrip(s);
    var r := RStrip(l);
    assert Strip(s) == r;
    SliceBetween(s, l, r);
    assert StrippedAt(s, r, |s| - |l|);
  }

  /** A prefix of a suffix of `s`, with only white space cut off at either
      end, is the slice that `StrippedAt` describes. */
  lemma SliceBetween(s: string, l: string, r: string)
    requires |l| <= |s| && l == s[|s| - |l|..]
    requires forall i :: 0 <= i < |s| - |l| ==> IsSpace(s[i])
    requires |r| <= |l| && r == l[..|r|]
    requires forall i :: |r| <= i < |l| ==> IsSpace(l[i])
    ensures StrippedAt(s, r, |s| - |l|)
  {
    var a := |s| - |l|;
    forall k | 0 <= k < |r|
      ensures r[k] == s[a + k]
    {
      assert r[k] == l[k];
    }
    forall i | a + |r| <= i < |s|
      ensures IsSpace(s[i])
    {
      assert s[i] == l[i - a];
    }
    assert r == s[a..a + |r|];
  }

  /** `r` is the slice of `s` that starts at `a`, and everything of `s`
      before or after it is white space. */
  predicate StrippedAt(s: string, r: string, a: nat)
  {
    a + |r| <= |s| && r == s[a..a + |r|] &&
    (forall i :: 0 <= i < a ==> IsSpace(s[i])) &&
    (forall i :: a + |r| <= i < |s| ==> IsSpace(s[i]))
  }

  /** Text that neither starts nor ends with white space is its own strip. */
  lemma StripUnchanged(s: string)
    requires s == [] || (!IsSpace(s[0]) && !IsSpace(s[|s| - 1]))
    ensures Strip(s) == s
  {
  }

  // ---------------------------------------------------------------------------
  // replace, count, split, join
  // ---------------------------------------------------------------------------

  /** `s.replace(a, b)` for single characters. */
  function ReplaceChar(s: string, a: char, b: char): (r: string)
    ensures |r| == |s|
    ensures a != b ==> a !in r
    ensures forall i :: 0 <= i < |s| && s[i] != a ==> r[i] == s[i]
    ensures forall i :: 0 <= i < |s| && s[i] == a ==> r[i] == b
  {
    seq(|s|, i requires 0 <= i < |s| => if s[i] == a then b else s[i])
  }

  /** `s.count(c)`. */
  function Count(s: string, c: char): nat
  {
    if s == [] then 0 else (if s[0] == c then 1 else 0) + Count(s[1..], c)
  }

  lemma {:induction false} CountAppend(a: string, b: string, c: char)
    ensures Count(a + b, c) == Count(a, c) + Count(b, c)
  {
    if a == [] {
      assert a + b == b;
    } else {
      assert (a + b)[1..] == a[1..] + b;
      CountAppend(a[1..], b, c);
    }
  }

  lemma {:induction false} CountAbsent(s: string, c: char)
    ensures Count(s, c) == 0 <==> c !in s
  {
    if s != [] {
      CountAbsent(s[1..], c);
      assert c in s <==> s[0] == c || c in s[1..];
    }
  }

  /** `s.find(c)`, as an option. */
  function IndexOf(s: string, c: char): (r: Option<nat>)
    ensures r.Some? ==> r.value < |s| && s[r.value] == c && c !in s[..r.value]
    ensures r.None? ==> c !in s
  {
    if s == [] then None
    else if s[0] == c then Some(0)
    else match IndexOf(s[1..], c)
      case None => None
      case Some(i) =>
        assert s[..i + 1] == [s[0]] + s[1..][..i];
        Some(i + 1)
  }

  /** `s.split(sep)` for a one-character separator: one piece more than
      there are separators, and no piece contains the separator. */
  function Split(s: string, sep: char): (parts: seq<string>)
    ensures |parts| == Count(s, sep) + 1
    ensures forall i :: 0 <= i < |parts| ==> sep !in parts[i]
    decreases |s|
  {
    match IndexOf(s, sep)
    case None =>
      CountAbsent(s, sep);
      [s]
    case Some(i) =>
      var rest := Split(s[i + 1..], sep);
      assert s == s[..i] + ([sep] + s[i + 1..]);
      CountAppend(s[..i], [sep] + s[i + 1..], sep);
      CountAppend([sep], s[i + 1..], sep);
      CountAbsent(s[..i], sep);
      [s[..i]] + rest
  }

  /** `sep.join(parts)`. */
  function Join(parts: seq<string>, sep: char): string
  {
    if parts == [] then []
    else if |parts| == 1 then parts[0]
    else parts[0] + [sep] + Join(parts[1..], sep)
  }

  /** Joining the pieces of a split gives back the text. */
  lemma {:induction false} JoinSplit(s: string, sep: char)
    ensures Join(Split(s, sep), sep) == s
    decreases |s|
  {
    match IndexOf(s, sep)
    case None =>
    case Some(i) =>
      JoinSplit(s[i + 1..], sep);
      assert s == s[..i] + [sep] + s[i + 1..];
  }

  /** Splitting a join of separator-free pieces gives back the pieces. */
  lemma {:induction false} SplitJoin(parts: seq<string>, sep: char)
    requires |parts| >= 1
    requires forall i :: 0 <= i < |parts| ==> sep !in parts[i]
    ensures Split(Join(parts, sep), sep) == parts
  {
    if |parts| > 1 {
      var s := Join(parts, sep);
      assert s == parts[0] + ([sep] + Join(parts[1..], sep));
      var i := |parts[0]|;
      assert s[..i] == parts[0] && s[i] == sep;
      assert IndexOf(s, sep) == Some(i) by {
        IndexOfAt(s, sep, i);
      }
      assert s[i + 1..] == Join(parts[1..], sep);
      SplitJoin(parts[1..], sep);
    }
  }

  lemma {:induction false} IndexOfAt(s: string, c: char, i: nat)
    requires i < |s| && s[i] == c && c !in s[..i]
    ensures IndexOf(s, c) == Some(i)
  {
    if i > 0 {
      assert s[0] == s[..i][0];
      assert s[1..][..i - 1] == s[..i][1..];
      IndexOfAt(s[1..], c, i - 1);
    }
  }

  // ---------------------------------------------------------------------------
  // Ordering of str values and sorted()
  // ---------------------------------------------------------------------------

  /** `a < b` on Python strings: code point by code point, a proper prefix
      first. */
  predicate Less(a: string, b: string)
  {
    if a == [] then b != []
    else if b == [] then false
    else if a[0] != b[0] then a[0] < b[0]
    else Less(a[1..], b[1..])
  }

  lemma {:induction false} LessIrreflexive(a: string)
    ensures !Less(a, a)
  {
    if a != [] {
      LessIrreflexive(a[1..]);
    }
  }

  lemma {:induction false} LessTransitive(a: string, b: string, c: string)
    requires Less(a, b) && Less(b, c)
    ensures Less(a, c)
  {
    if a != [] && b != [] && c != [] && a[0] == b[0] == c[0] {
      LessTransitive(a[1..], b[1..], c[1..]);
    }
  }

  lemma {:induction false} LessTotal(a: string, b: string)
    requires a != b
    ensures Less(a, b) || Less(b, a)
  {
    if a != [] && b != [] && a[0] == b[0] {
      assert a == [a[0]] + a[1..] && b == [b[0]] + b[1..];
      LessTotal(a[1..], b[1..]);
    }
  }

  lemma LessAsymmetric(a: string, b: string)
    requires Less(a, b)
    ensures !Less(b, a)
  {
    if Less(b, a) {
      LessTransitive(a, b, a);
      LessIrreflexive(a);
    }
  }

  predicate StrictlySorted(s: seq<string>)
  {
    forall i, j :: 0 <= i < j < |s| ==> Less(s[i], s[j])
  }

  /** Inserts `x` into a strictly sorted sequence, keeping one copy. */
  function Insert(x: string, s: seq<string>): (r: seq<string>)
    requires StrictlySorted(s)
    ensures StrictlySorted(r)
    ensures forall y :: y in r <==> y == x || y in s
  {
    if s == [] then [x]
    else if x == s[0] then s
    else if Less(x, s[0]) then
      assert forall j :: 0 < j < |s| ==> Less(x, s[j]) by {
        forall j | 0 < j < |s| ensures Less(x, s[j]) {
          LessTransitive(x, s[0], s[j]);
        }
      }
      [x] + s
    else
      LessTotal(x, s[0]);
      var t := Insert(x, s[1..]);
      assert forall y :: y in t ==> Less(s[0], y);
      [s[0]] + t
  }

  /** `sorted(set(ks))`: the distinct elements of `ks` in ascending order. */
  function SortedDistinct(ks: seq<string>): (r: seq<string>)
    ensures StrictlySorted(r)
    ensures forall y :: y in r <==> y in ks
  {
    if ks == [] then [] else Insert(ks[0], SortedDistinct(ks[1..]))
  }

  /** Two strictly sorted sequences with the same elements are equal: the
      sorted order of a key set does not depend on where the keys came from. */
  lemma {:induction false} SortedUnique(a: seq<string>, b: seq<string>)
    requires StrictlySorted(a) && StrictlySorted(b)
    requires forall y :: y in a <==> y in b
    ensures a == b
  {
    if a != [] {
      assert a[0] in a;
    }
    if b != [] {
      assert b[0] in b;
    }
    if a != [] && b != [] {
      if a[0] != b[0] {
        var i :| 0 <= i < |a| && a[i] == b[0];
        var j :| 0 <= j < |b| && b[j] == a[0];
        assert Less(a[0], b[0]) && Less(b[0], a[0]);
        LessAsymmetric(a[0], b[0]);
      }
      forall y
        ensures y in a[1..] <==> y in b[1..]
      {
        if y in a[1..] {
          var i :| 1 <= i < |a| && a[i] == y;
          assert y in b;
          if y == b[0] {
            LessIrreflexive(a[0]);
          }
        }
        if y in b[1..] {
          var j :| 1 <= j < |b| && b[j] == y;
          assert y in a;
          if y == a[0] {
            LessIrreflexive(b[0]);
          }
        }
      }
      SortedUnique(a[1..], b[1..]);
    }
  }

  function Elements(s: seq<string>): set<string>
  {
    set y | y in s
  }

  /** Sorting without duplicates keeps one entry per distinct element. */
  lemma SortedDistinctCount(ks: seq<string>)
    ensures |SortedDistinct(ks)| == |Elements(ks)|
  {
    var r := SortedDistinct(ks);
    SortedLength(r);
    assert Elements(r) == Elements(ks);
  }

  /** A strictly sorted sequence has one entry per distinct element. */
  lemma {:induction false} SortedLength(s: seq<string>)
    requires StrictlySorted(s)
    ensures |s| == |Elements(s)|
  {
    if s != [] {
      SortedLength(s[1..]);
      assert Elements(s) == {s[0]} + Elements(s[1..]);
      if s[0] in s[1..] {
        LessIrreflexive(s[0]);
      }
    }
  }

  // ---------------------------------------------------------------------------
  // Decimal text: str(int) and int(str)
  // ---------------------------------------------------------------------------

  function DigitChar(d: nat): char
    requires d < 10
  {
    ('0' as int + d) as char
  }

  predicate AllDigits(s: string)
  {
    forall i :: 0 <= i < |s| ==> IsDigit(s[i])
  }

  /** `str(n)` for a natural number. */
  function NatToDecimal(n: nat): (r: string)
    ensures |r| >= 1 && AllDigits(r)
  {
    if n < 10 then [DigitChar(n)] else NatToDecimal(n / 10) + [DigitChar(n % 10)]
  }

  /** `str(i)` for any integer. */
  function IntToDecimal(i: int): string
  {
    if i < 0 then "-" + NatToDecimal(-i) else NatToDecimal(i)
  }

  /** The value of a run of decimal digits, ignoring `_` separators. */
  function DigitsValue(s: string): nat
  {
    if s == [] then 0
    else if s[|s| - 1] == '_' then DigitsValue(s[..|s| - 1])
    else
      var d := s[|s| - 1] as int - '0' as int;
      DigitsValue(s[..|s| - 1]) * 10 + (if 0 <= d < 10 then d else 0)
  }

  /** The digit part `int()` accepts: digits, with single underscores only
      between two digits. */
  predicate DigitGroup(s: string)
  {
    && |s| >= 1
    && IsDigit(s[0]) && IsDigit(s[|s| - 1])
    && (forall i :: 0 <= i < |s| ==> IsDigit(s[i]) || s[i] == '_')
    && (forall i :: 0 <= i < |s| - 1 ==> !(s[i] == '_' && s[i + 1] == '_'))
  }

  /** `int(s)` for base 10: surrounding white space, an optional sign and a
      digit group; anything else raises `ValueError` (here `None`). */
  function ParseInt(s: string): Option<int>
  {
    ParseSigned(Strip(s))
  }

  /** `int()` of text without surrounding white space. */
  function ParseSigned(t: string): Option<int>
  {
    if t == [] then None
    else
      var negative := t[0] == '-';
      var body := if t[0] == '-' || t[0] == '+' then t[1..] else t;
      var magnitude: int := DigitsValue(body);
      if DigitGroup(body) then Some(if negative then -magnitude else magnitude) else None
  }

  lemma {:induction false} NatToDecimalValue(n: nat)
    ensures DigitsValue(NatToDecimal(n)) == n
  {
    if n >= 10 {
      NatToDecimalValue(n / 10);
      var s := NatToDecimal(n);
      assert s[..|s| - 1] == NatToDecimal(n / 10);
    }
  }

  /** The digits of `str(n)` form a digit group whose value is `n`. */
  lemma NatDecimalParses(n: nat)
    ensures DigitGroup(NatToDecimal(n)) && DigitsValue(NatToDecimal(n)) == n
  {
    NatToDecimalValue(n);
  }

  /** Text that begins and ends with something other than white space
      parses as it is. */
  lemma ParseUnstripped(t: string)
    requires t != [] && !IsSpace(t[0]) && !IsSpace(t[|t| - 1])
    ensures ParseInt(t) == ParseSigned(t)
  {
    StripUnchanged(t);
  }

  /** `int()` of a digit group is its value. */
  lemma ParseUnsigned(d: string)
    requires DigitGroup(d)
    ensures ParseInt(d) == Some(DigitsValue(d) as int)
  {
    assert d[0] != '-' && d[0] != '+';
    assert ParseSigned(d) == Some(DigitsValue(d) as int);
    ParseUnstripped(d);
  }

  /** `int()` of a minus sign and a digit group is the negated value. */
  lemma ParseNegative(d: string, n: nat)
    requires DigitGroup(d) && DigitsValue(d) == n
    ensures ParseInt("-" + d) == Some(-(n as int))
  {
    var s := "-" + d;
    assert s[0] == '-' && s[1..] == d;
    assert ParseSigned(s) == Some(-(n as int));
    assert s[|s| - 1] == d[|d| - 1];
    ParseUnstripped(s);
  }

  /** `int(str(i)) == i`. */
  lemma IntDecimalRoundTrip(i: int)
    ensures ParseInt(IntToDecimal(i)) == Some(i)
  {
    if i < 0 {
      NegativeRoundTrip(-i);
    } else {
      NatDecimalParses(i);
      ParseUnsigned(NatToDecimal(i));
    }
  }

  /** `int(str(-n)) == -n` for a positive `n`. */
  lemma NegativeRoundTrip(n: nat)
    requires n > 0
    ensures ParseInt(IntToDecimal(-(n as int))) == Some(-(n as int))
  {
    NatDecimalParses(n);
    ParseNegative(NatToDecimal(n), n);
    assert IntToDecimal(-(n as int)) == "-" + NatToDecimal(n);
  }

  // ---------------------------------------------------------------------------
  // substrings
  // ---------------------------------------------------------------------------

  /** `p` occurs in `t` starting at `i`. */
  predicate OccursAt(t: string, p: string, i: nat)
  {
    i + |p| <= |t| && t[i..i + |p|] == p
  }

  /** `t.find(p, i)`, as an option: the leftmost occurrence at or after `i`. */
  function Find(t: string, p: string, i: nat): (r: Option<nat>)
    ensures r.Some? ==> i <= r.value && OccursAt(t, p, r.value) && forall j: nat :: i <= j < r.value ==> !OccursAt(t, p, j)
    ensures r.None? ==> forall j: nat :: i <= j ==> !OccursAt(t, p, j)
    decreases |t| - i
  {
    if i + |p| > |t| then None
    else if OccursAt(t, p, i) then Some(i)
    else Find(t, p, i + 1)
  }
}
