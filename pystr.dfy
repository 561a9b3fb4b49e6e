/**
 * The parts of Python's `str` and `int` that the artifact translation relies on:
 * `str.split` with a one-character separator, `str.join`, `str.replace`,
 * `str.upper` (on ASCII letters), `str(n)`, `int(text, base)` for bases 10 and
 * 16, and the code-point order in which `sorted` compares strings.
 */
module PyStr {
  import opened Wrappers
  import opened Errors

  // ---------------------------------------------------------------------------
  // split and join

  /** Number of occurrences of `c` in `s`. */
  function Count(s: string, c: char): nat
  {
    if s == [] then 0 else (if s[0] == c then 1 else 0) + Count(s[1..], c)
  }

  lemma {:induction false} CountPositive(s: string, c: char, i: int)
    requires 0 <= i < |s| && s[i] == c
    ensures Count(s, c) > 0
  {
    if i > 0 {
      CountPositive(s[1..], c, i - 1);
    }
  }

  /** Python's `s.split(sep)`: the pieces between occurrences of `sep`, always at least one. */
  function Split(s: string, sep: char): (parts: seq<string>)
    ensures |parts| == Count(s, sep) + 1
    ensures forall i :: 0 <= i < |parts| ==> sep !in parts[i]
  {
    if s == [] then [""]
    else
      var rest := Split(s[1..], sep);
      if s[0] == sep then [""] + rest
      else [[s[0]] + rest[0]] + rest[1..]
  }

  /** The first piece of a split is a prefix of the string. */
  lemma {:induction false} SplitFirstIsPrefix(s: string, sep: char)
    ensures Split(s, sep)[0] <= s
  {
    if s != [] && s[0] != sep {
      SplitFirstIsPrefix(s[1..], sep);
      assert [s[0]] + s[1..] == s;
    }
  }

  /** Python's `sep.join(parts)`. */
  function Join(parts: seq<string>, sep: string): string
  {
    if |parts| == 0 then ""
    else if |parts| == 1 then parts[0]
    else Join(parts[..|parts| - 1], sep) + sep + parts[|parts| - 1]
  }

  lemma JoinSnoc(parts: seq<string>, p: string, sep: string)
    ensures Join(parts + [p], sep) == if parts == [] then p else Join(parts, sep) + sep + p
  {
    assert (parts + [p])[..|parts|] == parts;
  }

  lemma {:induction false} JoinCons(p: string, parts: seq<string>, sep: string)
    requires parts != []
    ensures Join([p] + parts, sep) == p + sep + Join(parts, sep)
  {
    if |parts| == 1 {
      assert [p] + parts == [p, parts[0]];
      assert [p, parts[0]][..1] == [p];
    } else {
      var n := |parts| - 1;
      JoinCons(p, parts[..n], sep);
      assert ([p] + parts)[..|parts|] == [p] + parts[..n];
    }
  }

  /** Joining the pieces of a split with the separator gives the string back. */
  lemma {:induction false} SplitJoin(s: string, sep: char)
    ensures Join(Split(s, sep), [sep]) == s
  {
    if s != [] {
      var rest := Split(s[1..], sep);
      SplitJoin(s[1..], sep);
      assert [s[0]] + s[1..] == s;
      if s[0] == sep {
        assert Split(s, sep) == [""] + rest;
        JoinCons("", rest, [sep]);
        assert "" + [sep] + s[1..] == s;
      } else if |rest| == 1 {
        assert Split(s, sep) == [[s[0]] + rest[0]];
      } else {
        var first := [s[0]] + rest[0];
        var tail := Join(rest[1..], [sep]);
        assert Split(s, sep) == [first] + rest[1..];
        JoinCons(first, rest[1..], [sep]);
        assert [rest[0]] + rest[1..] == rest;
        JoinCons(rest[0], rest[1..], [sep]);
        assert rest[0] + [sep] + tail == s[1..];
        assert first + [sep] + tail == [s[0]] + (rest[0] + [sep] + tail);
      }
    }
  }

  /** Splitting a string with no separator in it gives the string itself. */
  lemma {:induction false} SplitNoSeparator(s: string, sep: char)
    requires sep !in s
    ensures Split(s, sep) == [s]
  {
    if s != [] {
      SplitNoSeparator(s[1..], sep);
      assert [s[0]] + s[1..] == s;
    }
  }

  /** The first piece of a split is everything before the first separator. */
  lemma {:induction false} SplitAtFirst(a: string, sep: char, b: string)
    requires sep !in a
    ensures Split(a + [sep] + b, sep) == [a] + Split(b, sep)
  {
    if a == [] {
      assert [] + [sep] + b == [sep] + b;
      assert ([sep] + b)[1..] == b;
    } else {
      SplitAtFirst(a[1..], sep, b);
      assert (a + [sep] + b)[1..] == a[1..] + [sep] + b;
      assert [a[0]] + a[1..] == a;
    }
  }

  /** Splitting the join of pieces free of the separator gives the pieces back. */
  lemma {:induction false} SplitOfJoin(parts: seq<string>, sep: char)
    requires parts != []
    requires forall i :: 0 <= i < |parts| ==> sep !in parts[i]
    ensures Split(Join(parts, [sep]), sep) == parts
  {
    if |parts| == 1 {
      SplitNoSeparator(parts[0], sep);
    } else {
      var rest := parts[1..];
      assert parts == [parts[0]] + rest;
      JoinCons(parts[0], rest, [sep]);
      SplitOfJoin(rest, sep);
      SplitAtFirst(parts[0], sep, Join(rest, [sep]));
    }
  }

  // ---------------------------------------------------------------------------
  // replace and upper

  /** Python's `s.replace(c, d)` for single characters. */
  function ReplaceChar(s: string, c: char, d: char): (r: string)
    ensures |r| == |s|
    ensures forall i :: 0 <= i < |s| && s[i] != c ==> r[i] == s[i]
    ensures forall i :: 0 <= i < |s| && s[i] == c ==> r[i] == d
    ensures c != d ==> c !in r
  {
    if s == [] then []
    else [if s[0] == c then d else s[0]] + ReplaceChar(s[1..], c, d)
  }

  /** Python's `s.replace(pat, '')`: occurrences are removed left to right without overlap. */
  function RemoveAll(s: string, pat: string): (r: string)
    requires pat != []
    ensures |r| <= |s|
    ensures forall c :: c in r ==> c in s
    decreases |s|
  {
    if |pat| <= |s| && s[..|pat|] == pat then RemoveAll(s[|pat|..], pat)
    else if s == [] then []
    else [s[0]] + RemoveAll(s[1..], pat)
  }

  /** A string that cannot hold the pattern's last character is left alone. */
  lemma {:induction false} RemoveAllAbsent(s: string, pat: string)
    requires pat != [] && pat[|pat| - 1] !in s
    ensures RemoveAll(s, pat) == s
  {
    if s != [] {
      if |pat| <= |s| {
        assert s[..|pat|][|pat| - 1] != pat[|pat| - 1];
      }
      RemoveAllAbsent(s[1..], pat);
      assert [s[0]] + s[1..] == s;
    }
  }

  /**
   * A leading occurrence is stripped and the rest, which cannot hold the
   * pattern, is kept: `('0x' + h).replace('0x', '') == h` when `'x' not in h`.
   */
  lemma RemoveAllPrefix(pat: string, h: string)
    requires pat != [] && pat[|pat| - 1] !in h
    ensures RemoveAll(pat + h, pat) == h
  {
    assert (pat + h)[..|pat|] == pat;
    assert (pat + h)[|pat|..] == h;
    RemoveAllAbsent(h, pat);
  }

  /** Python's `upper()` on one character, for the ASCII letters. */
  function UpperChar(c: char): char
  {
    if 'a' <= c <= 'z' then (c as int - 32) as char else c
  }

  /**
   * Python's `upper()` restricted to ASCII: no lower-case letter is left, every
   * lower-case letter becomes its capital, and every other character is kept.
   */
  function Upper(s: string): (r: string)
    ensures |r| == |s|
    ensures forall i :: 0 <= i < |r| ==> !('a' <= r[i] <= 'z')
    ensures forall i :: 0 <= i < |s| && 'a' <= s[i] <= 'z' ==> r[i] as int == s[i] as int - ('a' as int - 'A' as int)
    ensures forall i :: 0 <= i < |s| && !('a' <= s[i] <= 'z') ==> r[i] == s[i]
  {
    seq(|s|, i requires 0 <= i < |s| => UpperChar(s[i]))
  }

  /** Upper-casing twice is upper-casing once. */
  lemma UpperIdempotent(s: string)
    ensures Upper(Upper(s)) == Upper(s)
  {
    var u := Upper(s);
    assert forall i :: 0 <= i < |u| ==> Upper(u)[i] == u[i];
  }

  // ---------------------------------------------------------------------------
  // str(n) and int(text, base)

  /** The value of a digit character: 0..15 for `0-9a-fA-F`, 36 (a digit in no base used here) otherwise. */
  function DigitValue(c: char): nat
  {
    if '0' <= c <= '9' then c as int - '0' as int
    else if 'a' <= c <= 'f' then c as int - 'a' as int + 10
    else if 'A' <= c <= 'F' then c as int - 'A' as int + 10
    else 36
  }

  predicate IsDigit(c: char, base: nat)
  {
    DigitValue(c) < base
  }

  function DecimalDigit(d: nat): (c: char)
    requires d < 10
    ensures IsDigit(c, 10) && DigitValue(c) == d
  {
    ('0' as int + d) as char
  }

  /** Python's `str(n)` for a non-negative integer. */
  function NatString(n: nat): (r: string)
    ensures r != [] && forall i :: 0 <= i < |r| ==> IsDigit(r[i], 10)
  {
    if n < 10 then [DecimalDigit(n)] else NatString(n / 10) + [DecimalDigit(n % 10)]
  }

  /** Python's `str(n)`. */
  function IntString(n: int): string
  {
    if n < 0 then "-" + NatString(-n) else NatString(n)
  }

  /** Digits of `base`, with single underscores allowed between two digits (Python's integer syntax). */
  predicate WellFormedDigits(s: string, base: nat)
  {
    && s != []
    && IsDigit(s[0], base)
    && IsDigit(s[|s| - 1], base)
    && (forall i :: 0 <= i < |s| ==> IsDigit(s[i], base) || s[i] == '_')
    && (forall i :: 0 <= i < |s| - 1 && s[i] == '_' ==> s[i + 1] != '_')
  }

  function RemoveUnderscores(s: string): string
  {
    if s == [] then [] else (if s[0] == '_' then [] else [s[0]]) + RemoveUnderscores(s[1..])
  }

  /** Positional value of a digit string, most significant digit first. */
  function DigitsValue(ds: string, base: nat): nat
  {
    if ds == [] then 0 else DigitsValue(ds[..|ds| - 1], base) * base + DigitValue(ds[|ds| - 1])
  }

  /** Digits after an optional base prefix: `0x`/`0X` in base 16, which may be followed by one underscore. */
  function StripBasePrefix(s: string, base: nat): string
  {
    if base == 16 && |s| >= 2 && s[0] == '0' && (s[1] == 'x' || s[1] == 'X') then
      (if |s| > 2 && s[2] == '_' then s[3..] else s[2..])
    else s
  }

  /** An unsigned integer literal: optional base prefix, then digits with single underscores between them. */
  function ParseUnsigned(s: string, base: nat): Option<nat>
  {
    var digits := StripBasePrefix(s, base);
    if WellFormedDigits(digits, base) then Some(DigitsValue(RemoveUnderscores(digits), base)) else None
  }

  /**
   * Python's `int(text, base)` for bases 10 and 16: an optional sign, then an
   * unsigned literal. `None` stands for the `ValueError`.
   */
  function ParseInt(text: string, base: nat): Option<int>
    requires base == 10 || base == 16
  {
    if text != [] && text[0] == '-' then
      match ParseUnsigned(text[1..], base)
      case Some(m) => Some(-(m as int))
      case None => None
    else if text != [] && text[0] == '+' then
      match ParseUnsigned(text[1..], base)
      case Some(m) => Some(m)
      case None => None
    else
      match ParseUnsigned(text, base)
      case Some(m) => Some(m)
      case None => None
  }

  /** `int(text, base)` with its exception. */
  function ToInt(text: string, base: nat): (r: Result<int, Error>)
    requires base == 10 || base == 16
    ensures r.Ok? <==> ParseInt(text, base).Some?
    ensures r.Ok? ==> Some(r.value) == ParseInt(text, base)
    ensures r.Err? ==> r.error == InvalidLiteral(text, base)
  {
    match ParseInt(text, base)
    case Some(n) => Ok(n)
    case None => Err(InvalidLiteral(text, base))
  }

  lemma {:induction false} NoUnderscoresKept(s: string, base: nat)
    requires forall i :: 0 <= i < |s| ==> IsDigit(s[i], base)
    requires base <= 16
    ensures RemoveUnderscores(s) == s
  {
    if s != [] {
      assert IsDigit(s[0], base);
      NoUnderscoresKept(s[1..], base);
      assert [s[0]] + s[1..] == s;
    }
  }

  lemma {:induction false} NatStringValue(n: nat)
    ensures DigitsValue(NatString(n), 10) == n
  {
    if n >= 10 {
      NatStringValue(n / 10);
      var s := NatString(n);
      assert s[..|s| - 1] == NatString(n / 10);
    }
  }

  lemma ParseNatString(n: nat)
    ensures ParseUnsigned(NatString(n), 10) == Some(n)
  {
    var digits := NatString(n);
    assert IsDigit(digits[0], 10);
    assert StripBasePrefix(digits, 10) == digits;
    NoUnderscoresKept(digits, 10);
    NatStringValue(n);
  }

  /** `int(str(n))` is `n`. */
  lemma ParseIntString(n: int)
    ensures ParseInt(IntString(n), 10) == Some(n)
  {
    var text := IntString(n);
    if n < 0 {
      ParseNatString(-n);
      assert text[0] == '-' && text[1..] == NatString(-n);
    } else {
      ParseNatString(n);
      assert text == NatString(n);
      assert IsDigit(text[0], 10);
      assert text[0] != '-' && text[0] != '+';
    }
  }

  /** `str` is injective on integers. */
  lemma IntStringInjective(a: int, b: int)
    requires IntString(a) == IntString(b)
    ensures a == b
  {
    ParseIntString(a);
    ParseIntString(b);
  }

  /** `int(str(n), 10)` succeeds with `n`. */
  lemma ToIntRoundTrip(n: int)
    ensures ToInt(IntString(n), 10) == Ok(n)
  {
    ParseIntString(n);
  }

  /** A non-empty string of digits of `base` is its positional value. */
  lemma ToIntDigits(s: string, base: nat)
    requires base == 10 || base == 16
    requires s != [] && forall i :: 0 <= i < |s| ==> IsDigit(s[i], base)
    ensures ToInt(s, base) == Ok(DigitsValue(s, base))
  {
    UnsignedDigits(s, base);
    assert IsDigit(s[0], base);
    assert s[0] != '-' && s[0] != '+';
  }

  lemma UnsignedDigits(s: string, base: nat)
    requires base == 10 || base == 16
    requires s != [] && forall i :: 0 <= i < |s| ==> IsDigit(s[i], base)
    ensures ParseUnsigned(s, base) == Some(DigitsValue(s, base))
  {
    if |s| >= 2 {
      assert IsDigit(s[1], base);
    }
    assert StripBasePrefix(s, base) == s;
    assert WellFormedDigits(s, base);
    NoUnderscoresKept(s, base);
  }

  /** The empty string, a lone sign and a leading underscore are rejected. */
  lemma ToIntRejects(s: string, base: nat)
    requires base == 10 || base == 16
    ensures ToInt("", base) == Err(InvalidLiteral("", base))
    ensures ToInt("-", base) == Err(InvalidLiteral("-", base))
    ensures ToInt("_" + s, base) == Err(InvalidLiteral("_" + s, base))
  {
    assert ("_" + s)[0] == '_';
  }

  /** A leading `-` negates the value of an unsigned literal and rejects what it rejects. */
  lemma ToIntNegative(s: string, base: nat)
    requires base == 10 || base == 16
    requires s == [] || (s[0] != '-' && s[0] != '+')
    ensures ToInt("-" + s, base) == match ToInt(s, base)
      case Ok(v) => Ok(-v)
      case Err(_) => Err(InvalidLiteral("-" + s, base))
  {
    var t := "-" + s;
    assert t[0] == '-' && t[1..] == s;
    assert ParseInt(s, base) == match ParseUnsigned(s, base) case Some(m) => Some(m as int) case None => None;
    assert ParseInt(t, base) == match ParseUnsigned(s, base) case Some(m) => Some(-(m as int)) case None => None;
  }

  lemma NatStringIsIntString(n: nat)
    ensures IntString(n) == NatString(n)
  {
  }

  // ---------------------------------------------------------------------------
  // string order

  /** Python's `a <= b` on strings: lexicographic by code point, a prefix first. */
  predicate LexLeq(a: string, b: string)
  {
    a == [] || (b != [] && (a[0] < b[0] || (a[0] == b[0] && LexLeq(a[1..], b[1..]))))
  }

  lemma {:induction false} LexLeqTotal(a: string, b: string)
    ensures LexLeq(a, b) || LexLeq(b, a)
  {
    if a != [] && b != [] && a[0] == b[0] {
      LexLeqTotal(a[1..], b[1..]);
    }
  }
}
