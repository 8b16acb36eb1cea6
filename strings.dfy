/** The JavaScript string operations the listings code relies on:
    `trim`, `toLowerCase` (ASCII letters only), `includes`, `Array.join`,
    `split` on one character, and the decimal rendering of a count in a
    template literal. */
module Strings {

  /** ECMAScript WhiteSpace and LineTerminator code points, which `trim`
      removes. */
  predicate IsWhitespace(c: char)
  {
    || c == ' ' || c == '\t' || c == '\n' || c == '\r'
    || c == '\U{000B}' || c == '\U{000C}' || c == '\U{00A0}' || c == '\U{1680}'
    || ('\U{2000}' <= c <= '\U{200A}')
    || c == '\U{2028}' || c == '\U{2029}' || c == '\U{202F}' || c == '\U{205F}'
    || c == '\U{3000}' || c == '\U{FEFF}'
  }

  /** Every character is whitespace: `s.trim()` is the empty, falsy string. */
  predicate IsBlank(s: string)
  {
    forall i :: 0 <= i < |s| ==> IsWhitespace(s[i])
  }

  /** Neither end is whitespace. */
  predicate IsTrimmed(s: string)
  {
    s == [] || (!IsWhitespace(s[0]) && !IsWhitespace(s[|s| - 1]))
  }

  function TrimStart(s: string): string
  {
    if s != [] && IsWhitespace(s[0]) then TrimStart(s[1..]) else s
  }

  lemma {:induction false} TrimStartFacts(s: string)
    ensures |TrimStart(s)| <= |s| && TrimStart(s) == s[|s| - |TrimStart(s)|..]
    ensures forall i :: 0 <= i < |s| - |TrimStart(s)| ==> IsWhitespace(s[i])
    ensures TrimStart(s) == [] || !IsWhitespace(TrimStart(s)[0])
  {
    if s != [] && IsWhitespace(s[0]) {
      var u := s[1..];
      TrimStartFacts(u);
      var t := TrimStart(u);
      assert TrimStart(s) == t;
      assert u[|u| - |t|..] == s[|s| - |t|..];
      forall i | 1 <= i < |s| - |t| ensures IsWhitespace(s[i]) {
        assert s[i] == u[i - 1];
      }
    }
  }

  function TrimEnd(s: string): string
  {
    if s != [] && IsWhitespace(s[|s| - 1]) then TrimEnd(s[..|s| - 1]) else s
  }

  lemma {:induction false} TrimEndFacts(s: string)
    ensures |TrimEnd(s)| <= |s| && TrimEnd(s) == s[..|TrimEnd(s)|]
    ensures forall i :: |TrimEnd(s)| <= i < |s| ==> IsWhitespace(s[i])
    ensures TrimEnd(s) == [] || !IsWhitespace(TrimEnd(s)[|TrimEnd(s)| - 1])
  {
    if s != [] && IsWhitespace(s[|s| - 1]) {
      var u := s[..|s| - 1];
      TrimEndFacts(u);
      var t := TrimEnd(u);
      assert TrimEnd(s) == t;
      assert u[..|t|] == s[..|t|];
      forall i | |t| <= i < |s| - 1 ensures IsWhitespace(s[i]) {
        assert s[i] == u[i];
      }
    }
  }

  /** `s.trim()`: empty exactly when `s` is blank, never starting or ending
      with whitespace, and made of characters of `s`. */
  function Trim(s: string): (r: string)
    ensures r == [] <==> IsBlank(s)
    ensures IsTrimmed(r)
    ensures IsTrimmed(s) ==> r == s
    ensures forall i :: 0 <= i < |r| ==> r[i] in s
    ensures exists i, j :: 0 <= i <= j <= |s| && r == s[i..j] && IsBlank(s[..i]) && IsBlank(s[j..])
  {
    var t := TrimStart(s);
    TrimStartFacts(s);
    assert t != [] ==> t[0] == s[|s| - |t|];
    var r := TrimEnd(t);
    TrimEndFacts(t);
    assert r != [] ==> r[0] == t[0];
    assert forall i :: 0 <= i < |r| ==> r[i] == s[|s| - |t| + i];
    var i := |s| - |t|;
    var j := i + |r|;
    assert r == s[i..j];
    assert IsBlank(s[..i]) by {
      assert forall k :: 0 <= k < i ==> s[..i][k] == s[k];
    }
    assert IsBlank(s[j..]) by {
      assert forall k :: 0 <= k < |s| - j ==> s[j..][k] == t[|r| + k];
    }
    r
  }

  /** A leading space never survives `trim`; the reason `", "`-joined skills
      read back unchanged. */
  lemma TrimLeadingSpace(s: string)
    ensures Trim([' '] + s) == Trim(s)
  {
    assert ([' '] + s)[1..] == s;
  }

  /** `toLowerCase` on one character, for the ASCII letters. */
  function LowerChar(c: char): char
  {
    if 'A' <= c <= 'Z' then (c as int + 32) as char else c
  }

  /** `s.toLowerCase()`, character by character. */
  function Lower(s: string): (r: string)
    ensures |r| == |s|
    ensures forall i :: 0 <= i < |s| ==> r[i] == LowerChar(s[i])
  {
    seq(|s|, i requires 0 <= i < |s| => LowerChar(s[i]))
  }

  /** Folding case twice is folding it once. */
  lemma LowerIdempotent(s: string)
    ensures Lower(Lower(s)) == Lower(s)
  {
  }

  /** Case folding leaves whitespace alone, so it commutes with `trim`. */
  lemma {:induction false} LowerTrimCommute(s: string)
    ensures Lower(Trim(s)) == Trim(Lower(s))
  {
    LowerTrimStart(s);
    LowerTrimEnd(TrimStart(s));
  }

  lemma LowerCharWhitespace(c: char)
    ensures IsWhitespace(LowerChar(c)) == IsWhitespace(c)
  {
  }

  lemma {:induction false} LowerTrimStart(s: string)
    ensures Lower(TrimStart(s)) == TrimStart(Lower(s))
  {
    if s != [] {
      var l := Lower(s);
      assert l[0] == LowerChar(s[0]);
      LowerCharWhitespace(s[0]);
      if IsWhitespace(s[0]) {
        assert l[1..] == Lower(s[1..]);
        LowerTrimStart(s[1..]);
        assert TrimStart(s) == TrimStart(s[1..]);
        assert TrimStart(l) == TrimStart(l[1..]);
      } else {
        assert TrimStart(s) == s;
        assert TrimStart(l) == l;
      }
    }
  }

  lemma {:induction false} LowerTrimEnd(s: string)
    ensures Lower(TrimEnd(s)) == TrimEnd(Lower(s))
  {
    if s != [] {
      var l := Lower(s);
      assert l[|s| - 1] == LowerChar(s[|s| - 1]);
      LowerCharWhitespace(s[|s| - 1]);
      if IsWhitespace(s[|s| - 1]) {
        assert l[..|s| - 1] == Lower(s[..|s| - 1]);
        LowerTrimEnd(s[..|s| - 1]);
        assert TrimEnd(s) == TrimEnd(s[..|s| - 1]);
        assert TrimEnd(l) == TrimEnd(l[..|l| - 1]);
      } else {
        assert TrimEnd(s) == s;
        assert TrimEnd(l) == l;
      }
    }
  }

  predicate StartsWith(s: string, prefix: string)
  {
    |prefix| <= |s| && s[..|prefix|] == prefix
  }

  /** `hay.includes(needle)`: `needle` occurs somewhere in `hay`. The empty
      needle is found everywhere, a prefix is found, and a needle longer
      than the haystack never is. */
  predicate Contains(hay: string, needle: string): (b: bool)
    ensures needle == [] ==> b
    ensures StartsWith(hay, needle) ==> b
    ensures b ==> |needle| <= |hay|
    decreases |hay|
  {
    StartsWith(hay, needle) || (hay != [] && Contains(hay[1..], needle))
  }

  /** `needle` occurs in `hay` starting at position `i`. */
  ghost predicate OccursAt(hay: string, needle: string, i: int)
  {
    0 <= i <= |hay| - |needle| && hay[i..i + |needle|] == needle
  }

  /** The scanning definition of `includes` agrees with the positional one. */
  lemma {:induction false} ContainsIffOccurs(hay: string, needle: string)
    ensures Contains(hay, needle) <==> exists i :: OccursAt(hay, needle, i)
  {
    if StartsWith(hay, needle) {
      assert OccursAt(hay, needle, 0);
    } else if hay == [] {
      assert forall i :: !OccursAt(hay, needle, i);
    } else {
      ContainsIffOccurs(hay[1..], needle);
      if Contains(hay[1..], needle) {
        var i :| OccursAt(hay[1..], needle, i);
        assert hay[1..][i..i + |needle|] == hay[i + 1..i + 1 + |needle|];
        assert OccursAt(hay, needle, i + 1);
      } else {
        assert !OccursAt(hay, needle, 0) by {
          assert |needle| <= |hay| ==> hay[..|needle|] == hay[0..|needle|];
        }
        forall i | 1 <= i && OccursAt(hay, needle, i) ensures OccursAt(hay[1..], needle, i - 1) {
          assert i + |needle| <= |hay| && hay[i..i + |needle|] == needle;
          assert hay[1..][i - 1..i - 1 + |needle|] == hay[i..i + |needle|];
        }
      }
    }
  }

  /** `parts.join(sep)`: every part is included in the result, and a single
      part is the result itself. */
  function Join(sep: string, parts: seq<string>): (r: string)
    ensures |parts| == 1 ==> r == parts[0]
    ensures forall k :: 0 <= k < |parts| ==> Contains(r, parts[k])
  {
    if parts == [] then []
    else if |parts| == 1 then
      assert StartsWith(parts[0], parts[0]);
      parts[0]
    else
      var rest := Join(sep, parts[1..]);
      assert parts[0] + sep + rest == parts[0] + (sep + rest);
      assert StartsWith(parts[0] + (sep + rest), parts[0]);
      forall k | 1 <= k < |parts| ensures Contains(parts[0] + sep + rest, parts[k]) {
        assert parts[k] == parts[1..][k - 1];
        ContainsAfter(parts[0] + sep, rest, parts[k]);
      }
      parts[0] + sep + rest
  }

  /** What `rest` includes, `pre + rest` includes. */
  lemma {:induction false} ContainsAfter(pre: string, rest: string, needle: string)
    requires Contains(rest, needle)
    ensures Contains(pre + rest, needle)
    decreases |pre|
  {
    if pre != [] {
      assert (pre + rest)[1..] == pre[1..] + rest;
      ContainsAfter(pre[1..], rest, needle);
    } else {
      assert pre + rest == rest;
    }
  }

  /** Inclusion survives folding the case of both strings. */
  lemma {:induction false} LowerContains(hay: string, needle: string)
    requires Contains(hay, needle)
    ensures Contains(Lower(hay), Lower(needle))
    decreases |hay|
  {
    if StartsWith(hay, needle) {
      assert Lower(hay)[..|needle|] == Lower(hay[..|needle|]);
    } else {
      assert Lower(hay)[1..] == Lower(hay[1..]);
      LowerContains(hay[1..], needle);
    }
  }

  /** `s.split(delim)` for a one-character delimiter: the pieces between the
      delimiters, one more than there are delimiters. */
  function Split(s: string, delim: char): (r: seq<string>)
    ensures |r| >= 1
    ensures forall k :: 0 <= k < |r| ==> delim !in r[k]
    decreases |s|
  {
    if s == [] then [[]]
    else
      var rest := Split(s[1..], delim);
      if s[0] == delim then [[]] + rest
      else [[s[0]] + rest[0]] + rest[1..]
  }

  /** Joining the pieces of a split with the delimiter gives the string back. */
  lemma {:induction false} JoinSplit(s: string, delim: char)
    ensures Join([delim], Split(s, delim)) == s
    decreases |s|
  {
    if s != [] {
      var rest := Split(s[1..], delim);
      JoinSplit(s[1..], delim);
      if s[0] == delim {
        assert Split(s, delim) == [[]] + rest;
        assert ([[]] + rest)[1..] == rest;
      } else {
        var r := [[s[0]] + rest[0]] + rest[1..];
        assert Split(s, delim) == r;
        if |rest| == 1 {
          assert s == [s[0]] + s[1..];
        } else {
          assert r[1..] == rest[1..];
          assert Join([delim], rest) == rest[0] + [delim] + Join([delim], rest[1..]);
          assert s == [s[0]] + s[1..];
        }
      }
    }
  }

  /** Splitting text that starts with a character other than the delimiter
      puts that character at the head of the first piece. */
  lemma SplitCons(c: char, s: string, delim: char)
    requires c != delim
    ensures Split([c] + s, delim) == [[c] + Split(s, delim)[0]] + Split(s, delim)[1..]
  {
    assert ([c] + s)[1..] == s;
  }

  /** Splitting `a + delim + b` where `a` holds no delimiter yields `a` and
      then the pieces of `b`. */
  lemma {:induction false} SplitAfterPiece(a: string, b: string, delim: char)
    requires delim !in a
    ensures Split(a + [delim] + b, delim) == [a] + Split(b, delim)
  {
    if a == [] {
      assert ([delim] + b)[1..] == b;
      assert a + [delim] + b == [delim] + b;
    } else {
      SplitAfterPiece(a[1..], b, delim);
      assert a + [delim] + b == [a[0]] + (a[1..] + [delim] + b);
      SplitCons(a[0], a[1..] + [delim] + b, delim);
      assert [a[0]] + a[1..] == a;
    }
  }

  /** A string without the delimiter splits into itself alone. */
  lemma {:induction false} SplitWhole(a: string, delim: char)
    requires delim !in a
    ensures Split(a, delim) == [a]
  {
    if a != [] {
      SplitWhole(a[1..], delim);
      SplitCons(a[0], a[1..], delim);
      assert [a[0]] + a[1..] == a;
    }
  }

  predicate IsDigit(c: char)
  {
    '0' <= c <= '9'
  }

  function DigitChar(d: nat): char
    requires d < 10
  {
    ('0' as int + d) as char
  }

  /** The decimal digits of `n`, as a template literal `${n}` prints a
      non-negative integer. */
  function Decimal(n: nat): (r: string)
    ensures |r| >= 1
    ensures forall i :: 0 <= i < |r| ==> IsDigit(r[i])
    ensures r[0] == '0' ==> n == 0
  {
    if n < 10 then [DigitChar(n)] else Decimal(n / 10) + [DigitChar(n % 10)]
  }

  function DigitValue(c: char): nat
    requires IsDigit(c)
  {
    c as int - '0' as int
  }

  /** The value of a string of decimal digits. */
  function DecimalValue(s: string): nat
    requires forall i :: 0 <= i < |s| ==> IsDigit(s[i])
  {
    if s == [] then 0
    else DecimalValue(s[..|s| - 1]) * 10 + DigitValue(s[|s| - 1])
  }

  /** Reading the printed digits gives the count back. */
  lemma {:induction false} DecimalRoundTrip(n: nat)
    ensures DecimalValue(Decimal(n)) == n
  {
    if n >= 10 {
      DecimalRoundTrip(n / 10);
      var d := Decimal(n);
      assert d[..|d| - 1] == Decimal(n / 10);
    }
  }

  /** The number of leading decimal digits of `s`. */
  function DigitRun(s: string): (k: nat)
    ensures k <= |s|
    ensures forall i :: 0 <= i < k ==> IsDigit(s[i])
    ensures k < |s| ==> !IsDigit(s[k])
  {
    if s != [] && IsDigit(s[0]) then 1 + DigitRun(s[1..]) else 0
  }

  /** The digit run of a decimal followed by a non-digit is that decimal. */
  lemma {:induction false} DigitRunOfDecimal(d: string, t: string)
    requires forall i :: 0 <= i < |d| ==> IsDigit(d[i])
    requires t == [] || !IsDigit(t[0])
    ensures DigitRun(d + t) == |d|
  {
    if d != [] {
      assert (d + t)[1..] == d[1..] + t;
      DigitRunOfDecimal(d[1..], t);
    }
  }
}
