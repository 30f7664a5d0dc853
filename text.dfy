/**
 * The string operations of Python that the codec and the colour types lean on:
 * `str(int)`, `"{:x}".format(int)`, `int(str)`, `str.split` and `str.join`.
 */
module Text {
  import opened Base

  /** The digit alphabet, lowercase as `"{:x}"` prints it. */
  function DigitChar(d: nat): (c: char)
    requires d < 16
  {
    if d < 10 then ('0' as int + d) as char else ('a' as int + d - 10) as char
  }

  /** The value of a digit character, or -1 for any other character. */
  function DigitValue(c: char): int
  {
    if '0' <= c <= '9' then c as int - '0' as int
    else if 'a' <= c <= 'f' then c as int - 'a' as int + 10
    else -1
  }

  predicate IsDigit(c: char, base: nat)
  {
    0 <= DigitValue(c) < base
  }

  predicate AllDigits(s: string, base: nat)
  {
    forall i :: 0 <= i < |s| ==> IsDigit(s[i], base)
  }

  /** The numeral of `n` in `base`, most significant digit first, without padding. */
  function Numeral(n: nat, base: nat): (s: string)
    requires 2 <= base <= 16
    ensures |s| >= 1 && AllDigits(s, base)
    ensures |s| > 1 ==> s[0] != '0'
    ensures n == 0 <==> s == "0"
  {
    if n < base then [DigitChar(n)]
    else
      DivStep(n, base);
      Numeral(n / base, base) + [DigitChar(n % base)]
  }

  lemma DivStep(n: nat, base: nat)
    requires 2 <= base <= n
    ensures 1 <= n / base < n && n % base < base && n == n / base * base + n % base
  {
    var q, r := n / base, n % base;
    assert n == q * base + r;
    if q == 0 {
      assert false;
    }
    assert q * base >= q * 2;
    assert q < n;
  }

  /** The value of a numeral; the inverse of `Numeral`. */
  function ParseNumeral(s: string, base: nat): nat
    requires AllDigits(s, base)
  {
    if |s| == 0 then 0
    else ParseNumeral(s[..|s| - 1], base) * base + DigitValue(s[|s| - 1])
  }

  lemma {:induction false} ParseNumeralOfNumeral(n: nat, base: nat)
    requires 2 <= base <= 16
    ensures ParseNumeral(Numeral(n, base), base) == n
  {
    if n >= base {
      DivStep(n, base);
      var s := Numeral(n, base);
      assert s[..|s| - 1] == Numeral(n / base, base);
      ParseNumeralOfNumeral(n / base, base);
    }
  }

  /** Python's `str(n)` for an integer. */
  function Decimal(n: int): string
  {
    if n < 0 then "-" + Numeral(-n, 10) else Numeral(n, 10)
  }

  /** Python's `"{:x}".format(n)`: lowercase hexadecimal, a minus sign and no padding. */
  function Hex(n: int): string
  {
    if n < 0 then "-" + Numeral(-n, 16) else Numeral(n, 16)
  }

  predicate IsSpace(c: char)
  {
    c == ' ' || c == '\t' || c == '\n' || c == '\r' || c == '\U{b}' || c == '\U{c}'
  }

  /** `s` without its leading whitespace. */
  function StripLeft(s: string): (t: string)
    ensures |t| <= |s| && t == s[|s| - |t|..]
    ensures |t| > 0 ==> !IsSpace(t[0])
  {
    if |s| > 0 && IsSpace(s[0]) then StripLeft(s[1..]) else s
  }

  /** `s` without its trailing whitespace. */
  function StripRight(s: string): (t: string)
    ensures |t| <= |s| && t == s[..|t|]
    ensures |t| > 0 ==> !IsSpace(t[|t| - 1])
  {
    if |s| > 0 && IsSpace(s[|s| - 1]) then StripRight(s[..|s| - 1]) else s
  }

  /**
   * Python's `int(s)` on a string: surrounding whitespace, an optional sign and
   * at least one decimal digit; anything else raises, here `None`.
   */
  function PyInt(s: string): (r: Option<int>)
    ensures r.Some? ==> exists k :: 0 <= k < |s| && IsDigit(s[k], 10)
    ensures |s| > 0 && AllDigits(s, 10) ==> r == Some(ParseNumeral(s, 10))
  {
    var l := StripLeft(s);
    var t := StripRight(l);
    assert |s| > 0 && AllDigits(s, 10) ==> t == s by {
      if |s| > 0 && AllDigits(s, 10) {
        NoSurroundingSpace(s, s);
      }
    }
    if |t| > 1 && (t[0] == '-' || t[0] == '+') && AllDigits(t[1..], 10) then
      assert t[1..][0] == l[1] == s[|s| - |l| + 1];
      var v: int := ParseNumeral(t[1..], 10);
      Some(if t[0] == '-' then -v else v)
    else if |t| > 0 && AllDigits(t, 10) then
      assert t[0] == l[0] == s[|s| - |l|];
      Some(ParseNumeral(t, 10))
    else
      None
  }

  predicate IntChar(c: char)
  {
    IsDigit(c, 10) || c == '-' || c == '+' || IsSpace(c)
  }

  /** `int` accepts a string only if every character is a digit, a sign or whitespace. */
  lemma PyIntRejects(s: string, k: nat)
    requires k < |s| && !IntChar(s[k])
    ensures PyInt(s) == None
  {
    var l := StripLeft(s);
    var t := StripRight(l);
    var off := |s| - |l|;
    if k < off {
      StripLeftDropsSpaces(s, k);
      assert false;
    } else if k - off >= |t| {
      StripRightDropsSpaces(l, k - off);
      assert false;
    } else {
      var m := k - off;
      assert t[m] == s[k];
      assert !IsDigit(t[m], 10);
      if m > 0 {
        assert t[1..][m - 1] == t[m];
      }
    }
  }

  lemma {:induction false} StripLeftDropsSpaces(s: string, k: nat)
    requires k < |s| - |StripLeft(s)|
    ensures IsSpace(s[k])
  {
    if k > 0 {
      StripLeftDropsSpaces(s[1..], k - 1);
    }
  }

  lemma {:induction false} StripRightDropsSpaces(s: string, k: nat)
    requires |StripRight(s)| <= k < |s|
    ensures IsSpace(s[k])
  {
    if k < |s| - 1 {
      StripRightDropsSpaces(s[..|s| - 1], k);
    }
  }

  /** `int(str(n)) == n`. */
  lemma PyIntOfDecimal(n: int)
    ensures PyInt(Decimal(n)) == Some(n)
  {
    var d := Numeral(if n < 0 then -n else n, 10);
    NoSurroundingSpace(Decimal(n), d);
    if n < 0 {
      SignedNumeral(Decimal(n), d, -n);
    } else {
      BareNumeral(d, n);
    }
  }

  /** A string that starts and ends with a digit is left alone by stripping. */
  lemma NoSurroundingSpace(s: string, d: string)
    requires |d| >= 1 && AllDigits(d, 10)
    requires s == d || s == "-" + d
    ensures StripRight(StripLeft(s)) == s
  {
    assert IsDigit(d[0], 10) && IsDigit(d[|d| - 1], 10);
    assert s[|s| - 1] == d[|d| - 1];
    assert !IsSpace(s[0]) && !IsSpace(s[|s| - 1]);
  }

  lemma SignedNumeral(s: string, d: string, m: nat)
    requires d == Numeral(m, 10) && s == "-" + d && StripRight(StripLeft(s)) == s
    ensures PyInt(s) == Some(-(m as int))
  {
    assert s[1..] == d;
    ParseNumeralOfNumeral(m, 10);
  }

  lemma BareNumeral(d: string, m: nat)
    requires d == Numeral(m, 10) && StripRight(StripLeft(d)) == d
    ensures PyInt(d) == Some(m)
  {
    assert IsDigit(d[0], 10);
    ParseNumeralOfNumeral(m, 10);
  }

  /** Python's `s.split(sep)` for a one-character separator: always at least one part. */
  function Split(s: string, sep: char): (parts: seq<string>)
    ensures |parts| >= 1
    ensures forall i, j :: 0 <= i < |parts| && 0 <= j < |parts[i]| ==> parts[i][j] != sep
  {
    if |s| == 0 then [""]
    else if s[0] == sep then [""] + Split(s[1..], sep)
    else
      var rest := Split(s[1..], sep);
      [[s[0]] + rest[0]] + rest[1..]
  }

  /** Python's `sep.join(parts)`: the only character it adds is the separator. */
  function Join(parts: seq<string>, sep: char): (r: string)
    ensures forall c :: c != sep && (forall i :: 0 <= i < |parts| ==> Free(parts[i], c)) ==> Free(r, c)
  {
    if |parts| == 0 then ""
    else if |parts| == 1 then parts[0]
    else
      var rest := Join(parts[1..], sep);
      assert forall c :: c != sep && (forall i :: 0 <= i < |parts| ==> Free(parts[i], c)) ==> Free(parts[0] + [sep] + rest, c) by {
        forall c | c != sep && (forall i :: 0 <= i < |parts| ==> Free(parts[i], c))
          ensures Free(parts[0] + [sep] + rest, c)
        {
          assert forall i :: 0 <= i < |parts[1..]| ==> Free(parts[1..][i], c) by {
            forall i | 0 <= i < |parts[1..]|
              ensures Free(parts[1..][i], c)
            {
              assert parts[1..][i] == parts[i + 1];
            }
          }
          FreeAppend(parts[0], [sep], c);
          FreeAppend(parts[0] + [sep], rest, c);
        }
      }
      parts[0] + [sep] + rest
  }

  predicate Free(s: string, sep: char)
  {
    forall j :: 0 <= j < |s| ==> s[j] != sep
  }

  lemma FreeAppend(a: string, b: string, c: char)
    ensures Free(a + b, c) <==> Free(a, c) && Free(b, c)
  {
    if Free(a, c) && Free(b, c) {
      forall j | 0 <= j < |a + b|
        ensures (a + b)[j] != c
      {
        if j >= |a| {
          assert (a + b)[j] == b[j - |a|];
        }
      }
    }
    if Free(a + b, c) {
      forall j | 0 <= j < |a|
        ensures a[j] != c
      {
        assert (a + b)[j] == a[j];
      }
      forall j | 0 <= j < |b|
        ensures b[j] != c
      {
        assert (a + b)[|a| + j] == b[j];
      }
    }
  }

  lemma DigitsFree(s: string, c: char)
    requires AllDigits(s, 10) && !IsDigit(c, 10)
    ensures Free(s, c)
  {
  }

  lemma DecimalDigits(n: nat)
    ensures Decimal(n) == Numeral(n, 10) && AllDigits(Decimal(n), 10) && |Decimal(n)| > 0
  {
  }

  /** Splitting what was joined gives the parts back, when no part holds the separator. */
  lemma {:induction false} SplitJoin(parts: seq<string>, sep: char)
    requires |parts| >= 1
    requires forall i :: 0 <= i < |parts| ==> Free(parts[i], sep)
    ensures Split(Join(parts, sep), sep) == parts
  {
    if |parts| == 1 {
      SplitFree(parts[0], sep);
    } else {
      SplitJoin(parts[1..], sep);
      SplitPrefix(parts[0], sep, Join(parts[1..], sep));
    }
  }

  lemma {:induction false} SplitFree(s: string, sep: char)
    requires Free(s, sep)
    ensures Split(s, sep) == [s]
  {
    if |s| > 0 {
      SplitFree(s[1..], sep);
      assert [s[0]] + s[1..] == s;
    }
  }

  lemma {:induction false} SplitPrefix(p: string, sep: char, rest: string)
    requires Free(p, sep)
    ensures Split(p + [sep] + rest, sep) == [p] + Split(rest, sep)
  {
    if |p| == 0 {
      assert p + [sep] + rest == [sep] + rest;
      assert ([sep] + rest)[1..] == rest;
    } else {
      assert (p + [sep] + rest)[1..] == p[1..] + [sep] + rest;
      SplitPrefix(p[1..], sep, rest);
      assert [p[0]] + p[1..] == p;
    }
  }

  /** Joining what was split gives the string back. */
  lemma {:induction false} JoinSplit(s: string, sep: char)
    ensures Join(Split(s, sep), sep) == s
  {
    if |s| > 0 {
      JoinSplit(s[1..], sep);
      var rest := Split(s[1..], sep);
      if s[0] == sep {
        assert Split(s, sep) == [""] + rest;
        assert ([""] + rest)[1..] == rest;
      } else {
        var parts := [[s[0]] + rest[0]] + rest[1..];
        if |rest| == 1 {
          assert Join(parts, sep) == [s[0]] + rest[0];
        } else {
          assert parts[1..] == rest[1..];
          assert Join(rest, sep) == rest[0] + [sep] + Join(rest[1..], sep);
        }
      }
    }
  }

  /** Number of occurrences of `c` in `s`. */
  function Count(s: string, c: char): nat
  {
    if |s| == 0 then 0 else (if s[0] == c then 1 else 0) + Count(s[1..], c)
  }

  /** `split` yields one more part than there are separators. */
  lemma {:induction false} SplitCount(s: string, sep: char)
    ensures |Split(s, sep)| == Count(s, sep) + 1
  {
    if |s| > 0 {
      SplitCount(s[1..], sep);
    }
  }

  /** A join of `k` parts holds `k - 1` separators, none of them from the parts. */
  lemma {:induction false} JoinCount(parts: seq<string>, sep: char)
    requires |parts| >= 1
    requires forall i :: 0 <= i < |parts| ==> Free(parts[i], sep)
    ensures Count(Join(parts, sep), sep) == |parts| - 1
  {
    SplitJoin(parts, sep);
    SplitCount(Join(parts, sep), sep);
  }

  /** The first part of a split runs up to the first separator. */
  lemma {:induction false} SplitHead(p: string, rest: string, sep: char)
    requires Free(p, sep)
    ensures Split(p + rest, sep)[0] == p + Split(rest, sep)[0]
    ensures |Split(p + rest, sep)| == |Split(rest, sep)|
  {
    if |p| > 0 {
      assert (p + rest)[1..] == p[1..] + rest;
      SplitHead(p[1..], rest, sep);
      assert [p[0]] + p[1..] == p;
    } else {
      assert p + rest == rest;
    }
  }

  /** A text that starts with a character other than the separator starts its first part with it. */
  lemma SplitStart(s: string, sep: char)
    requires |s| > 0 && s[0] != sep
    ensures |Split(s, sep)[0]| > 0 && Split(s, sep)[0][0] == s[0]
  {
  }

  /** Text appended after a join extends the last part. */
  lemma {:induction false} JoinLast(parts: seq<string>, sep: char, suffix: string)
    requires |parts| >= 1
    ensures Join(parts, sep) + suffix == Join(parts[..|parts| - 1] + [parts[|parts| - 1] + suffix], sep)
  {
    var n := |parts|;
    var q := parts[..n - 1] + [parts[n - 1] + suffix];
    if n > 1 {
      JoinLast(parts[1..], sep, suffix);
      assert q[0] == parts[0];
      assert q[1..] == parts[1..][..n - 2] + [parts[1..][n - 2] + suffix];
    }
  }

  /** Splitting a join followed by a separator-free suffix: the suffix stays on the last part. */
  lemma SplitJoinSuffix(parts: seq<string>, sep: char, suffix: string)
    requires |parts| >= 1
    requires forall i :: 0 <= i < |parts| ==> Free(parts[i], sep)
    requires Free(suffix, sep)
    ensures Split(Join(parts, sep) + suffix, sep) == parts[..|parts| - 1] + [parts[|parts| - 1] + suffix]
  {
    var n := |parts|;
    var q := parts[..n - 1] + [parts[n - 1] + suffix];
    JoinLast(parts, sep, suffix);
    var last := parts[n - 1] + suffix;
    forall j | 0 <= j < |last|
      ensures last[j] != sep
    {
      if j >= |parts[n - 1]| {
        assert last[j] == suffix[j - |parts[n - 1]|];
      }
    }
    assert forall i :: 0 <= i < |q| ==> Free(q[i], sep);
    SplitJoin(q, sep);
  }
}
