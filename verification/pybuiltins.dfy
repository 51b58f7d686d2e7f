/** The three Python built-ins the GSTools version gate leans on:
    `str.split(sep)`, `int(text)` on a decimal string, and `<` between two
    lists of integers. */
module PyBuiltins {
  import opened Wrappers

  // ---------------------------------------------------------------------------
  // str.split(sep) with a one-character separator
  // ---------------------------------------------------------------------------

  /** `s.split(sep)`: the pieces between separators, in order. Like Python it
      never returns an empty list: "" gives [""] and "a..b" gives ["a", "", "b"]. */
  function Split(s: string, sep: char): (parts: seq<string>)
    ensures |parts| >= 1
    ensures forall i :: 0 <= i < |parts| ==> sep !in parts[i]
    decreases |s|
  {
    if s == [] then [""]
    else
      var rest := Split(s[1..], sep);
      if s[0] == sep then [""] + rest
      else [[s[0]] + rest[0]] + rest[1..]
  }

  /** `sep.join(parts)`: the inverse of `Split`. */
  function Join(parts: seq<string>, sep: char): string
    requires |parts| >= 1
  {
    if |parts| == 1 then parts[0] else parts[0] + [sep] + Join(parts[1..], sep)
  }

  /** Joining the pieces of a split gives back the original text. */
  lemma {:induction false} JoinSplit(s: string, sep: char)
    ensures Join(Split(s, sep), sep) == s
    decreases |s|
  {
    if s != [] {
      JoinSplit(s[1..], sep);
      var rest := Split(s[1..], sep);
      if s[0] != sep {
        var parts := Split(s, sep);
        assert parts[1..] == rest[1..];
        if |rest| > 1 {
          assert rest == [rest[0]] + rest[1..];
        }
      }
    }
  }

  /** A text without the separator splits into itself alone. */
  lemma {:induction false} SplitNoSeparator(s: string, sep: char)
    requires sep !in s
    ensures Split(s, sep) == [s]
    decreases |s|
  {
    if s != [] {
      SplitNoSeparator(s[1..], sep);
      assert [s[0]] + s[1..] == s;
    }
  }

  /** Splitting `a + sep + b` where `a` has no separator: `a` is the first piece. */
  lemma {:induction false} SplitAtFirstSeparator(a: string, b: string, sep: char)
    requires sep !in a
    ensures Split(a + [sep] + b, sep) == [a] + Split(b, sep)
    decreases |a|
  {
    if a == [] {
      assert a + [sep] + b == [sep] + b;
      assert ([sep] + b)[1..] == b;
    } else {
      var s := a + [sep] + b;
      assert s[0] == a[0];
      assert s[1..] == a[1..] + [sep] + b;
      SplitAtFirstSeparator(a[1..], b, sep);
      assert [a[0]] + a[1..] == a;
    }
  }

  /** Splitting a join of separator-free pieces gives back the pieces. */
  lemma {:induction false} SplitJoin(parts: seq<string>, sep: char)
    requires |parts| >= 1
    requires forall i :: 0 <= i < |parts| ==> sep !in parts[i]
    ensures Split(Join(parts, sep), sep) == parts
    decreases |parts|
  {
    if |parts| == 1 {
      SplitNoSeparator(parts[0], sep);
    } else {
      SplitJoin(parts[1..], sep);
      SplitAtFirstSeparator(parts[0], Join(parts[1..], sep), sep);
      assert [parts[0]] + parts[1..] == parts;
    }
  }

  // ---------------------------------------------------------------------------
  // int(text) in base 10
  // ---------------------------------------------------------------------------

  /** The ASCII characters Python's `str.isspace` accepts; `int` ignores them
      around the number. */
  predicate IsSpace(c: char) {
    c == ' ' || ('\t' <= c <= '\r') || ('\U{1C}' <= c <= '\U{1F}')
  }

  predicate IsDigit(c: char) {
    '0' <= c <= '9'
  }

  function DigitValue(c: char): (d: nat)
    requires IsDigit(c)
    ensures d < 10
  {
    (c as int) - ('0' as int)
  }

  function DigitChar(d: nat): (c: char)
    requires d < 10
    ensures IsDigit(c) && DigitValue(c) == d
  {
    (('0' as int) + d) as char
  }

  function TrimStart(s: string): (t: string)
    ensures |t| <= |s| && t == s[|s| - |t|..]
    ensures t == [] || !IsSpace(t[0])
  {
    if s != [] && IsSpace(s[0]) then TrimStart(s[1..]) else s
  }

  function TrimEnd(s: string): (t: string)
    ensures |t| <= |s| && t == s[..|t|]
    ensures t == [] || !IsSpace(t[|t| - 1])
  {
    if s != [] && IsSpace(s[|s| - 1]) then TrimEnd(s[..|s| - 1]) else s
  }

  /** `s.strip()` for the whitespace above. */
  function Strip(s: string): string {
    TrimEnd(TrimStart(s))
  }

  /** The digits of an integer literal body: digits, with single underscores
      allowed only between two digits (so "1_000" but not "_1", "1_" or "1__0"). */
  predicate WellFormedDigits(s: string) {
    && |s| > 0
    && IsDigit(s[0])
    && IsDigit(s[|s| - 1])
    && (forall i :: 0 <= i < |s| ==> IsDigit(s[i]) || s[i] == '_')
    // no two adjacent underscores: s[j - 1] and s[j] are never both '_'
    // (stated over the pair i, j with i == j - 1 so that s[i] and s[j] are
    // separate trigger terms and instantiation cannot chain along s)
    && (forall j, i :: 0 < j < |s| && 0 <= i < j && i == j - 1 ==> !(s[i] == '_' && s[j] == '_'))
  }

  function RemoveUnderscores(s: string): (t: string)
    ensures (forall i :: 0 <= i < |s| ==> IsDigit(s[i]) || s[i] == '_') ==>
              (forall j :: 0 <= j < |t| ==> IsDigit(t[j]))
  {
    if s == [] then []
    else if s[|s| - 1] == '_' then RemoveUnderscores(s[..|s| - 1])
    else RemoveUnderscores(s[..|s| - 1]) + [s[|s| - 1]]
  }

  /** The value of a string of decimal digits, most significant first. */
  function DigitsValue(s: string): nat
    requires forall i :: 0 <= i < |s| ==> IsDigit(s[i])
  {
    if s == [] then 0 else 10 * DigitsValue(s[..|s| - 1]) + DigitValue(s[|s| - 1])
  }

  /** `int(text)`: `Some(n)` when Python returns n, `None` when it raises
      ValueError. */
  function ParseInt(text: string): Option<int> {
    var t := Strip(text);
    var negative := |t| > 0 && t[0] == '-';
    var body := if |t| > 0 && (t[0] == '-' || t[0] == '+') then t[1..] else t;
    if !WellFormedDigits(body) then None
    else
      var magnitude: int := DigitsValue(RemoveUnderscores(body));
      Some(if negative then -magnitude else magnitude)
  }

  /** `str(n)` for a natural number: its decimal digits, no leading zeros. */
  function DecimalString(n: nat): (s: string)
    ensures |s| > 0
    ensures forall i :: 0 <= i < |s| ==> IsDigit(s[i])
  {
    if n < 10 then [DigitChar(n)] else DecimalString(n / 10) + [DigitChar(n % 10)]
  }

  lemma {:induction false} DecimalStringValue(n: nat)
    ensures DigitsValue(DecimalString(n)) == n
  {
    if n >= 10 {
      DecimalStringValue(n / 10);
      var s := DecimalString(n);
      assert s[..|s| - 1] == DecimalString(n / 10);
    }
  }

  lemma {:induction false} RemoveUnderscoresOfDigits(s: string)
    requires forall i :: 0 <= i < |s| ==> IsDigit(s[i])
    ensures RemoveUnderscores(s) == s
  {
    if s != [] {
      RemoveUnderscoresOfDigits(s[..|s| - 1]);
      assert s[..|s| - 1] + [s[|s| - 1]] == s;
    }
  }

  /** `int(str(n)) == n`: the decimal text of a number parses back to it. */
  lemma ParseDecimalString(n: nat)
    ensures ParseInt(DecimalString(n)) == Some(n)
  {
    var s := DecimalString(n);
    assert !IsSpace(s[0]) && !IsSpace(s[|s| - 1]);
    assert TrimStart(s) == s;
    assert TrimEnd(s) == s;
    assert Strip(s) == s;
    assert s[0] != '-' && s[0] != '+';
    assert WellFormedDigits(s);
    RemoveUnderscoresOfDigits(s);
    DecimalStringValue(n);
  }

  /** A single digit needs no underscore removal and is worth its digit. */
  lemma SingleDigit(d: char)
    requires IsDigit(d)
    ensures WellFormedDigits([d])
    ensures RemoveUnderscores([d]) == [d]
    ensures DigitsValue([d]) == DigitValue(d)
  {
    assert [d][..0] == [];
    assert RemoveUnderscores([d]) == RemoveUnderscores([]) + [d];
  }

  /** A text with no whitespace at either end is its own strip. */
  lemma StripUnchanged(s: string)
    requires s != [] && !IsSpace(s[0]) && !IsSpace(s[|s| - 1])
    ensures Strip(s) == s
  {
    assert TrimStart(s) == s;
  }

  /** Leading whitespace is dropped one character at a time. */
  lemma TrimStartSpace(c: char, rest: string)
    requires IsSpace(c)
    ensures TrimStart([c] + rest) == TrimStart(rest)
  {
    assert ([c] + rest)[1..] == rest;
  }

  /** Trailing whitespace is dropped one character at a time. */
  lemma TrimEndSpace(rest: string, c: char)
    requires IsSpace(c)
    ensures TrimEnd(rest + [c]) == TrimEnd(rest)
  {
    assert (rest + [c])[..|rest|] == rest;
  }

  lemma TrimStartOne(before: char, d: char, after: char)
    requires IsSpace(before) && !IsSpace(d)
    ensures TrimStart([before, d, after]) == [d, after]
  {
    TrimStartSpace(before, [d, after]);
    assert [before] + [d, after] == [before, d, after];
  }

  lemma TrimEndOne(d: char, after: char)
    requires !IsSpace(d) && IsSpace(after)
    ensures TrimEnd([d, after]) == [d]
  {
    TrimEndSpace([d], after);
    assert [d] + [after] == [d, after];
  }

  /** Stripping one whitespace character from each side of a digit. */
  lemma StripAround(before: char, d: char, after: char)
    requires IsSpace(before) && IsDigit(d) && IsSpace(after)
    ensures Strip([before, d, after]) == [d]
  {
    TrimStartOne(before, d, after);
    TrimEndOne(d, after);
  }

  /** `int` ignores surrounding whitespace: int(" 7 ") is 7. */
  lemma ParseIntStrips(before: char, d: char, after: char)
    requires IsSpace(before) && IsDigit(d) && IsSpace(after)
    ensures ParseInt([before, d, after]) == Some(DigitValue(d))
  {
    StripAround(before, d, after);
    SingleDigit(d);
  }

  /** A leading sign is accepted and a minus negates: int("-3") is -3. */
  lemma ParseIntSigned(sign: char, d: char)
    requires sign == '+' || sign == '-'
    requires IsDigit(d)
    ensures ParseInt([sign, d]) == Some(if sign == '-' then -(DigitValue(d) as int) else DigitValue(d) as int)
  {
    var s := [sign, d];
    StripUnchanged(s);
    assert s[1..] == [d];
    SingleDigit(d);
  }

  /** The digits "a_b": well formed, the underscore dropped, worth 10a + b. */
  lemma UnderscoreDigits(a: char, b: char)
    requires IsDigit(a) && IsDigit(b)
    ensures WellFormedDigits([a, '_', b])
    ensures RemoveUnderscores([a, '_', b]) == [a, b]
    ensures DigitsValue([a, b]) == 10 * DigitValue(a) + DigitValue(b)
  {
    var s := [a, '_', b];
    SingleDigit(a);
    assert s[..2] == [a, '_'] && [a, '_'][..1] == [a];
    assert RemoveUnderscores([a, '_']) == [a];
    assert [a] + [b] == [a, b] && [a, b][..1] == [a];
  }

  /** A single underscore between digits is dropped: int("1_0") is 10. */
  lemma ParseIntUnderscore(a: char, b: char)
    requires IsDigit(a) && IsDigit(b)
    ensures ParseInt([a, '_', b]) == Some(10 * DigitValue(a) + DigitValue(b))
  {
    StripUnchanged([a, '_', b]);
    UnderscoreDigits(a, b);
  }

  /** Two underscores in a row are rejected: int("1__0") raises. */
  lemma ParseIntRejectsDoubleUnderscore(a: char, b: char)
    requires IsDigit(a) && IsDigit(b)
    ensures ParseInt([a, '_', '_', b]) == None
  {
    var s := [a, '_', '_', b];
    assert TrimStart(s) == s;
    assert TrimEnd(s) == s;
    assert s[1] == '_' && s[2] == '_';
  }

  /** A text of whitespace only, the empty text included, is rejected:
      int("") raises. */
  lemma ParseIntRejectsBlank(s: string)
    requires forall i :: 0 <= i < |s| ==> IsSpace(s[i])
    ensures ParseInt(s) == None
  {
  }

  /** A character that is not a digit, a sign or whitespace is rejected:
      int("x") raises. */
  lemma ParseIntRejectsNonDigit(c: char)
    requires !IsDigit(c) && !IsSpace(c) && c != '+' && c != '-'
    ensures ParseInt([c]) == None
  {
    assert TrimStart([c]) == [c];
    assert TrimEnd([c]) == [c];
  }

  // ---------------------------------------------------------------------------
  // list < list
  // ---------------------------------------------------------------------------

  /** Python's `a < b` on two lists of integers: the first differing element
      decides; when one list is a prefix of the other, the shorter is smaller. */
  function ListLess(a: seq<int>, b: seq<int>): bool {
    if a == [] then b != []
    else if b == [] then false
    else if a[0] != b[0] then a[0] < b[0]
    else ListLess(a[1..], b[1..])
  }

  /** `ListLess` is a strict total order: exactly one of `a < b`, `a == b`,
      `b < a` holds. */
  lemma {:induction false} ListLessTrichotomy(a: seq<int>, b: seq<int>)
    ensures a == b <==> !ListLess(a, b) && !ListLess(b, a)
    ensures !(ListLess(a, b) && ListLess(b, a))
  {
    if a != [] && b != [] && a[0] == b[0] {
      ListLessTrichotomy(a[1..], b[1..]);
      if a[1..] == b[1..] {
        assert a == [a[0]] + a[1..] && b == [b[0]] + b[1..];
      }
    }
  }

  lemma {:induction false} ListLessTransitive(a: seq<int>, b: seq<int>, c: seq<int>)
    requires ListLess(a, b) && ListLess(b, c)
    ensures ListLess(a, c)
  {
    if a != [] && b != [] && c != [] && a[0] == b[0] && b[0] == c[0] {
      ListLessTransitive(a[1..], b[1..], c[1..]);
    }
  }
}
