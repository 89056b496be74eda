/** The JavaScript string built-ins the core relies on, written out:
    `String.prototype.trim`, `parseInt(s, 10)`, `String(n)` for integers,
    `String.prototype.includes`, `String.prototype.startsWith` and
    `String.prototype.split` with a one-character separator. */
module JsText {
  import opened Wrappers

  /** The WhiteSpace and LineTerminator code points of ECMA-262, which both
      `trim` and `parseInt` skip. */
  predicate IsWhitespace(c: char) {
    || c == '\t' || c == '\n' || c == '\U{000B}' || c == '\U{000C}' || c == '\r'
    || c == ' ' || c == '\U{00A0}' || c == '\U{1680}'
    || ('\U{2000}' <= c <= '\U{200A}')
    || c == '\U{2028}' || c == '\U{2029}' || c == '\U{202F}' || c == '\U{205F}'
    || c == '\U{3000}' || c == '\U{FEFF}'
  }

  /** JavaScript truthiness of a string that may be `null` or `undefined`. */
  predicate Truthy(s: Option<string>) {
    s.Some? && s.value != ""
  }

  predicate AllWhitespace(s: string) {
    forall i :: 0 <= i < |s| ==> IsWhitespace(s[i])
  }

  /** `s` with its leading whitespace removed. */
  function TrimStart(s: string): (r: string)
    ensures |r| <= |s|
  {
    if s != [] && IsWhitespace(s[0]) then TrimStart(s[1..]) else s
  }

  /** `s` with its trailing whitespace removed. */
  function TrimEnd(s: string): (r: string)
    ensures |r| <= |s|
  {
    if s != [] && IsWhitespace(s[|s| - 1]) then TrimEnd(s[..|s| - 1]) else s
  }

  /** `TrimStart` cuts a run of whitespace and stops at the first other
      character. */
  lemma {:induction false} TrimStartCuts(s: string)
    ensures var r := TrimStart(s); var n := |s| - |r|;
      && r == s[n..]
      && (forall k :: 0 <= k < n ==> IsWhitespace(s[k]))
      && (r == [] || !IsWhitespace(r[0]))
    decreases |s|
  {
    if s != [] && IsWhitespace(s[0]) {
      var t := s[1..];
      TrimStartCuts(t);
      var n := |t| - |TrimStart(t)|;
      assert t[n..] == s[n + 1..];
      forall k | 1 <= k < n + 1
        ensures IsWhitespace(s[k])
      {
        assert s[k] == t[k - 1];
      }
    }
  }

  /** `TrimEnd` cuts a run of whitespace from the end and stops at the last
      other character. */
  lemma {:induction false} TrimEndCuts(s: string)
    ensures var r := TrimEnd(s);
      && r == s[..|r|]
      && (forall k :: |r| <= k < |s| ==> IsWhitespace(s[k]))
      && (r == [] || !IsWhitespace(r[|r| - 1]))
    decreases |s|
  {
    if s != [] && IsWhitespace(s[|s| - 1]) {
      var t := s[..|s| - 1];
      TrimEndCuts(t);
      var m := |TrimEnd(t)|;
      assert t[..m] == s[..m];
      forall k | m <= k < |t|
        ensures IsWhitespace(s[k])
      {
        assert s[k] == t[k];
      }
    }
  }

  /** `s.trim()`. */
  function Trim(s: string): string {
    TrimEnd(TrimStart(s))
  }

  /** What `trim` keeps: the slice of `s` that starts after its leading
      whitespace and neither starts nor ends with whitespace; only
      whitespace is cut on either side. */
  lemma TrimSlice(s: string)
    ensures var r := Trim(s); var i := |s| - |TrimStart(s)|;
      && i + |r| <= |s| && r == s[i..i + |r|]
      && (forall k :: 0 <= k < i ==> IsWhitespace(s[k]))
      && (forall k :: i + |r| <= k < |s| ==> IsWhitespace(s[k]))
      && (r == [] || (!IsWhitespace(r[0]) && !IsWhitespace(r[|r| - 1])))
  {
    var t := TrimStart(s);
    var i := |s| - |t|;
    var r := TrimEnd(t);
    TrimStartCuts(s);
    TrimEndCuts(t);
    SuffixPrefix(s, i, |r|);
    WhitespaceShift(s, i, |r|);
    assert r != [] ==> r[0] == t[0];
  }

  lemma SuffixPrefix(s: string, i: nat, m: nat)
    requires i + m <= |s|
    ensures s[i..][..m] == s[i..i + m]
  {
  }

  /** Whitespace after position `m` of `s[i..]` is whitespace after
      position `i + m` of `s`. */
  lemma WhitespaceShift(s: string, i: nat, m: nat)
    requires i + m <= |s|
    requires forall k :: m <= k < |s[i..]| ==> IsWhitespace(s[i..][k])
    ensures forall k :: i + m <= k < |s| ==> IsWhitespace(s[k])
  {
    forall k | i + m <= k < |s|
      ensures IsWhitespace(s[k])
    {
      assert s[k] == s[i..][k - i];
    }
  }

  /** `s.trim() === ''` exactly when `s` is all whitespace. */
  lemma TrimEmptyIff(s: string)
    ensures Trim(s) == [] <==> AllWhitespace(s)
  {
    var r := Trim(s);
    var i := |s| - |TrimStart(s)|;
    TrimSlice(s);
    if r != [] {
      assert s[i] == r[0];
    }
  }

  // ---------------------------------------------------------------- digits

  predicate IsDigit(c: char) {
    '0' <= c <= '9'
  }

  function DigitValue(c: char): (d: nat)
    requires IsDigit(c)
    ensures d < 10
  {
    (c as int) - ('0' as int)
  }

  function DigitChar(d: nat): (c: char)
    requires d < 10
    ensures IsDigit(c) && DigitValue(c) == d
  {
    (('0' as int) + d) as char
  }

  predicate AllDigits(s: string) {
    forall i :: 0 <= i < |s| ==> IsDigit(s[i])
  }

  /** The longest prefix of `s` made of decimal digits. */
  function DigitPrefix(s: string): (r: string)
    ensures AllDigits(r)
  {
    if s != [] && IsDigit(s[0]) then [s[0]] + DigitPrefix(s[1..]) else []
  }

  /** `DigitPrefix` is a prefix of `s`, and the character after it (if
      any) is not a digit. */
  lemma {:induction false} DigitPrefixLongest(s: string)
    ensures var r := DigitPrefix(s);
      && |r| <= |s| && r == s[..|r|]
      && (|r| == |s| || !IsDigit(s[|r|]))
    decreases |s|
  {
    if s != [] && IsDigit(s[0]) {
      DigitPrefixLongest(s[1..]);
      var r := DigitPrefix(s[1..]);
      assert s[1..][..|r|] == s[1..|r| + 1];
      if |r| < |s| - 1 {
        assert s[1..][|r|] == s[|r| + 1];
      }
    }
  }

  /** The value of a run of decimal digits, most significant first. */
  function DigitsValue(s: string): nat
    requires AllDigits(s)
  {
    if s == [] then 0 else DigitsValue(s[..|s| - 1]) * 10 + DigitValue(s[|s| - 1])
  }

  /** `parseInt(s, 10)`: skip leading whitespace, read an optional sign, then
      the longest run of decimal digits; `None` stands for `NaN` (no digit). */
  function ParseInt(s: string): (r: Option<int>)
    ensures r.None? <==> DigitPrefix(SignStripped(TrimStart(s))) == []
  {
    var t := TrimStart(s);
    var digits := DigitPrefix(SignStripped(t));
    if digits == [] then None
    else
      var v: int := DigitsValue(digits);
      if t[0] == '-' then Some(-v) else Some(v)
  }

  /** What follows the optional leading `+` or `-`. */
  function SignStripped(t: string): (r: string)
    ensures r == t || (t != [] && (t[0] == '-' || t[0] == '+') && r == t[1..])
  {
    if t != [] && (t[0] == '-' || t[0] == '+') then t[1..] else t
  }

  /** `String(n)` for a non-negative integer: its decimal digits, no leading zero. */
  function NatToString(n: nat): (s: string)
    ensures s != [] && AllDigits(s)
    ensures s[0] != '0' || n == 0
  {
    if n < 10 then [DigitChar(n)] else NatToString(n / 10) + [DigitChar(n % 10)]
  }

  /** `String(n)` for an integer. */
  function IntToString(n: int): (s: string)
    ensures s != []
  {
    if n < 0 then "-" + NatToString(-n) else NatToString(n)
  }

  lemma {:induction false} DigitsValueOfNatToString(n: nat)
    ensures DigitsValue(NatToString(n)) == n
  {
    if n >= 10 {
      DigitsValueOfNatToString(n / 10);
      var s := NatToString(n);
      assert s[..|s| - 1] == NatToString(n / 10);
    }
  }

  lemma {:induction false} DigitPrefixStops(ds: string, rest: string)
    requires AllDigits(ds)
    requires rest == [] || !IsDigit(rest[0])
    ensures DigitPrefix(ds + rest) == ds
  {
    if ds == [] {
      assert ds + rest == rest;
    } else {
      assert (ds + rest)[0] == ds[0];
      assert (ds + rest)[1..] == ds[1..] + rest;
      DigitPrefixStops(ds[1..], rest);
      assert [ds[0]] + ds[1..] == ds;
    }
  }

  /** Leading characters that are not whitespace are kept by `TrimStart`. */
  lemma TrimStartKeeps(s: string)
    requires s != [] && !IsWhitespace(s[0])
    ensures TrimStart(s) == s
  {
  }

  /** `parseInt` of a run of digits followed by a non-digit. */
  lemma ParseIntOfDigits(ds: string, rest: string)
    requires ds != [] && AllDigits(ds)
    requires rest == [] || !IsDigit(rest[0])
    ensures ParseInt(ds + rest) == Some(DigitsValue(ds) as int)
  {
    DigitPrefixStops(ds, rest);
    assert (ds + rest)[0] == ds[0];
    ParseIntUnsigned(ds + rest);
  }

  /** `parseInt` of a `-`, a run of digits and then a non-digit. */
  lemma ParseIntOfNegativeDigits(s: string, ds: string, rest: string)
    requires ds != [] && AllDigits(ds)
    requires rest == [] || !IsDigit(rest[0])
    requires |s| >= 1 && s[0] == '-' && s[1..] == ds + rest
    ensures ParseInt(s) == Some(-(DigitsValue(ds) as int))
  {
    DigitPrefixStops(ds, rest);
    ParseIntNegative(s);
  }

  /** Text that starts with a digit is read as its leading digits. */
  lemma ParseIntUnsigned(t: string)
    requires t != [] && IsDigit(t[0])
    ensures DigitPrefix(t) != [] && ParseInt(t) == Some(DigitsValue(DigitPrefix(t)) as int)
  {
    assert !IsWhitespace(t[0]);
    TrimStartKeeps(t);
  }

  /** A `-` followed by a digit is read as the negated leading digits. */
  lemma ParseIntNegative(s: string)
    requires |s| >= 2 && s[0] == '-' && IsDigit(s[1])
    ensures DigitPrefix(s[1..]) != [] && ParseInt(s) == Some(-(DigitsValue(DigitPrefix(s[1..])) as int))
  {
    TrimStartKeeps(s);
  }

  /** `parseInt` reads back the decimal form of any integer, also when
      something that is not a digit follows it ("120 seconds"). */
  lemma ParseIntOfIntToString(n: int, rest: string)
    requires rest == [] || !IsDigit(rest[0])
    ensures ParseInt(IntToString(n) + rest) == Some(n)
  {
    if n < 0 {
      NegativeText(-n, rest);
      DigitsValueOfNatToString(-n);
      ParseIntOfNegativeDigits(IntToString(n) + rest, NatToString(-n), rest);
    } else {
      DigitsValueOfNatToString(n);
      ParseIntOfDigits(NatToString(n), rest);
    }
  }

  /** The text of a negative integer: a `-`, then the digits of its magnitude. */
  lemma NegativeText(m: nat, rest: string)
    requires m > 0
    ensures var s := IntToString(-(m as int)) + rest;
      |s| >= 1 && s[0] == '-' && s[1..] == NatToString(m) + rest
  {
  }

  /** A string whose first character is neither whitespace, a sign nor a digit
      (an HTTP-date such as "Wed, 21 Oct 2015 07:28:00 GMT") is `NaN`. */
  lemma ParseIntRejectsNonNumeric(s: string)
    requires s != [] && !IsWhitespace(s[0]) && !IsDigit(s[0]) && s[0] != '-' && s[0] != '+'
    ensures ParseInt(s) == None
  {
    assert TrimStart(s) == s;
  }

  // --------------------------------------------------------------- search

  /** `s.startsWith(p)`. */
  predicate StartsWith(s: string, p: string) {
    |p| <= |s| && s[..|p|] == p
  }

  /** `sub` occurs in `s` starting at offset `i`. */
  predicate OccursAt(s: string, sub: string, i: int) {
    0 <= i <= |s| - |sub| && s[i..i + |sub|] == sub
  }

  /** `s.includes(sub)`. */
  predicate Includes(s: string, sub: string)
    decreases |s|
  {
    StartsWith(s, sub) || (s != [] && Includes(s[1..], sub))
  }

  /** `includes` holds exactly when `sub` occurs at some offset of `s`. */
  lemma {:induction false} IncludesIff(s: string, sub: string)
    ensures Includes(s, sub) <==> exists i :: OccursAt(s, sub, i)
    decreases |s|
  {
    if StartsWith(s, sub) {
      assert OccursAt(s, sub, 0);
    } else if s != [] {
      IncludesIff(s[1..], sub);
      if Includes(s[1..], sub) {
        var i :| OccursAt(s[1..], sub, i);
        assert s[1..][i..i + |sub|] == s[i + 1..i + 1 + |sub|];
        assert OccursAt(s, sub, i + 1);
      }
      if exists i :: OccursAt(s, sub, i) {
        var i :| OccursAt(s, sub, i);
        assert i != 0;
        assert s[1..][i - 1..i - 1 + |sub|] == s[i..i + |sub|];
        assert OccursAt(s[1..], sub, i - 1);
      }
    }
  }

  // ---------------------------------------------------------------- split

  /** `s.split(sep)` for a one-character separator: the pieces between
      occurrences of `sep`, always at least one. */
  function Split(s: string, sep: char): (parts: seq<string>)
    ensures |parts| >= 1
  {
    if s == [] then [[]]
    else if s[0] == sep then [[]] + Split(s[1..], sep)
    else
      var tail := Split(s[1..], sep);
      [[s[0]] + tail[0]] + tail[1..]
  }

  /** No piece of a split holds the separator. */
  lemma {:induction false} SplitPiecesFree(s: string, sep: char)
    ensures forall k :: 0 <= k < |Split(s, sep)| ==> sep !in Split(s, sep)[k]
    decreases |s|
  {
    if s != [] {
      var tail := Split(s[1..], sep);
      SplitPiecesFree(s[1..], sep);
      var parts := Split(s, sep);
      forall k | 0 <= k < |parts|
        ensures sep !in parts[k]
      {
        if s[0] == sep {
          if k > 0 {
            assert parts[k] == tail[k - 1];
          }
        } else if k > 0 {
          assert parts[k] == tail[k];
        } else {
          assert parts[0] == [s[0]] + tail[0];
        }
      }
    }
  }

  /** The pieces joined back with `sep`. */
  function Join(parts: seq<string>, sep: char): string
    requires |parts| >= 1
  {
    if |parts| == 1 then parts[0] else parts[0] + [sep] + Join(parts[1..], sep)
  }

  /** Splitting loses nothing: joining the pieces gives the string back. */
  lemma {:induction false} JoinSplit(s: string, sep: char)
    ensures Join(Split(s, sep), sep) == s
  {
    if s != [] {
      JoinSplit(s[1..], sep);
      var tail := Split(s[1..], sep);
      if s[0] != sep && |tail| > 1 {
        assert [[s[0]] + tail[0]] + tail[1..] == Split(s, sep);
        assert (Split(s, sep))[1..] == tail[1..];
      }
    }
  }

  /** A string without the separator splits into itself. */
  lemma {:induction false} SplitWithout(s: string, sep: char)
    requires sep !in s
    ensures Split(s, sep) == [s]
  {
    if s != [] {
      assert s[0] in s;
      assert forall c :: c in s[1..] ==> c in s;
      SplitWithout(s[1..], sep);
      assert [s[0]] + s[1..] == s;
    }
  }

  /** Splitting a string that starts with `sep` gives an empty first piece. */
  lemma SplitSep(s: string, sep: char)
    ensures Split([sep] + s, sep) == [[]] + Split(s, sep)
  {
    assert ([sep] + s)[1..] == s;
  }

  /** Splitting a string that starts with a character other than `sep`
      glues that character to the first piece of the rest. */
  lemma SplitCons(c: char, s: string, sep: char)
    requires c != sep
    ensures var t := Split(s, sep); Split([c] + s, sep) == [[c] + t[0]] + t[1..]
  {
    assert ([c] + s)[1..] == s;
  }

  /** The pieces of `a + b` when the pieces of `a` are `pa` and of `b` are `pb`. */
  function Glue(pa: seq<string>, pb: seq<string>): seq<string>
    requires |pa| >= 1 && |pb| >= 1
  {
    pa[..|pa| - 1] + [pa[|pa| - 1] + pb[0]] + pb[1..]
  }

  /** Splitting a concatenation: the last piece of `a` is glued to the first
      piece of `b`, every other piece is kept. */
  lemma {:induction false} SplitAppend(a: string, b: string, sep: char)
    ensures Split(a + b, sep) == Glue(Split(a, sep), Split(b, sep))
  {
    if a == [] {
      var pb := Split(b, sep);
      assert a + b == b;
      assert Glue([[]], pb) == [[] + pb[0]] + pb[1..];
      assert [] + pb[0] == pb[0];
      assert [pb[0]] + pb[1..] == pb;
    } else {
      SplitAppend(a[1..], b, sep);
      assert a + b == [a[0]] + (a[1..] + b);
      assert a == [a[0]] + a[1..];
      if a[0] == sep {
        SplitSep(a[1..] + b, sep);
        SplitSep(a[1..], sep);
        GlueSep(Split(a[1..], sep), Split(b, sep));
      } else {
        SplitCons(a[0], a[1..] + b, sep);
        SplitCons(a[0], a[1..], sep);
        GlueCons(a[0], Split(a[1..], sep), Split(b, sep));
      }
    }
  }

  lemma GlueSep(pt: seq<string>, pb: seq<string>)
    requires |pt| >= 1 && |pb| >= 1
    ensures [[]] + Glue(pt, pb) == Glue([[]] + pt, pb)
  {
    assert ([[]] + pt)[..|pt|] == [[]] + pt[..|pt| - 1];
  }

  lemma GlueCons(c: char, pt: seq<string>, pb: seq<string>)
    requires |pt| >= 1 && |pb| >= 1
    ensures var g := Glue(pt, pb); var pa := [[c] + pt[0]] + pt[1..];
      [[c] + g[0]] + g[1..] == Glue(pa, pb)
  {
    var g := Glue(pt, pb);
    if |pt| == 1 {
      assert [c] + (pt[0] + pb[0]) == ([c] + pt[0]) + pb[0];
    } else {
      assert g[0] == pt[0];
      assert g[1..] == pt[1..|pt| - 1] + [pt[|pt| - 1] + pb[0]] + pb[1..];
    }
  }
}
