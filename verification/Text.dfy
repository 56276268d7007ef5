/**
 The few string operations the driver relies on: splitting at a separator, and printing and parsing
 numbers. Go's `strings.Split` with a one-character separator, `fmt.Sprintf` with %d and %02x, and
 `strconv.ParseUint` in base 10.
 */
module Text {
  datatype Option<+T> = None | Some(value: T)

  function Split(s: string, sep: char): (parts: seq<string>)
    ensures |parts| >= 1
  {
    if s == "" then [""]
    else
      var rest := Split(s[1..], sep);
      if s[0] == sep then [""] + rest else [[s[0]] + rest[0]] + rest[1..]
  }

  function Join(parts: seq<string>, sep: char): string
    requires |parts| >= 1
  {
    if |parts| == 1 then parts[0] else parts[0] + [sep] + Join(parts[1..], sep)
  }

  function Count(s: string, c: char): nat {
    if s == "" then 0 else (if s[0] == c then 1 else 0) + Count(s[1..], c)
  }

  /** Splitting loses nothing: joining gives the string back, and there is one more part than separators. */
  lemma {:induction false} JoinSplit(s: string, sep: char)
    ensures Join(Split(s, sep), sep) == s
    ensures |Split(s, sep)| == Count(s, sep) + 1
    ensures forall part <- Split(s, sep) :: sep !in part
  {
    if s != "" {
      JoinSplit(s[1..], sep);
      var rest := Split(s[1..], sep);
      if s[0] == sep {
        assert ([""] + rest)[1..] == rest;
        assert Join([""] + rest, sep) == [sep] + Join(rest, sep);
      } else {
        var parts := [[s[0]] + rest[0]] + rest[1..];
        assert parts[1..] == rest[1..];
        assert Join(parts, sep) == [s[0]] + Join(rest, sep);
      }
      assert s == [s[0]] + s[1..];
    }
  }

  /** Joining loses nothing as long as no part contains the separator. */
  lemma {:induction false} SplitJoin(parts: seq<string>, sep: char)
    requires |parts| >= 1 && forall part <- parts :: sep !in part
    ensures Split(Join(parts, sep), sep) == parts
  {
    if |parts| == 1 {
      SplitWord(parts[0], sep);
    } else {
      SplitJoin(parts[1..], sep);
      SplitAtSeparator(parts[0], Join(parts[1..], sep), sep);
      assert parts == [parts[0]] + parts[1..];
    }
  }

  lemma SplitWord(word: string, sep: char)
    requires sep !in word
    ensures Split(word, sep) == [word]
  {
    if word != "" {
      SplitWord(word[1..], sep);
      assert word == [word[0]] + word[1..];
    }
  }

  lemma {:induction false} SplitAtSeparator(word: string, rest: string, sep: char)
    requires sep !in word
    ensures Split(word + [sep] + rest, sep) == [word] + Split(rest, sep)
  {
    var s := word + [sep] + rest;
    if word == "" {
      assert s[1..] == rest;
    } else {
      assert s[1..] == word[1..] + [sep] + rest;
      SplitAtSeparator(word[1..], rest, sep);
      assert word == [word[0]] + word[1..];
    }
  }

  lemma SeparatorInside(a: string, b: string, s: string, sep: char)
    requires a + [sep] <= s && b + [sep] <= s && |a| < |b|
    ensures sep in b
  {
    assert b[|a|] == (b + [sep])[|a|] == s[|a|] == (a + [sep])[|a|];
  }

  /** A word up to a separator is determined by any string it begins. */
  lemma WordIsDetermined(a: string, b: string, s: string, sep: char)
    requires sep !in a && sep !in b && a + [sep] <= s && b + [sep] <= s
    ensures a == b
  {
    if |a| < |b| {
      SeparatorInside(a, b, s, sep);
    } else if |b| < |a| {
      SeparatorInside(b, a, s, sep);
    } else {
      assert a == s[..|a|] && b == s[..|b|];
    }
  }

  /******* Numbers *******/

  newtype uint32 = x: int | 0 <= x < 0x1_0000_0000

  predicate IsDigit(c: char) {
    '0' <= c <= '9'
  }

  function Digit(d: nat): char
    requires d < 10
  {
    '0' + d as char
  }

  /** %d */
  function Decimal(n: nat): (s: string)
    ensures s != ""
  {
    if n < 10 then [Digit(n)] else Decimal(n / 10) + [Digit(n % 10)]
  }

  datatype Parsed = Value(n: nat) | SyntaxError

  /** The value of a decimal numeral of any length. */
  function ParseDecimal(s: string): Parsed {
    if s == "" || !IsDigit(s[|s| - 1]) then SyntaxError
    else
      var d := (s[|s| - 1] - '0') as nat;
      if |s| == 1 then Value(d)
      else
        match ParseDecimal(s[..|s| - 1])
        case Value(n) => Value(10 * n + d)
        case SyntaxError => SyntaxError
  }

  lemma {:induction false} ParsePrinted(n: nat)
    ensures ParseDecimal(Decimal(n)) == Value(n)
  {
    if n >= 10 {
      ParsePrinted(n / 10);
      var s := Decimal(n);
      assert s[..|s| - 1] == Decimal(n / 10);
    }
  }

  function HexDigit(d: nat): char
    requires d < 16
  {
    if d < 10 then '0' + d as char else 'a' + (d - 10) as char
  }

  /** The value of a lower-case hexadecimal digit, and -1 for any other character. */
  function HexValue(c: char): int {
    if '0' <= c <= '9' then (c - '0') as int
    else if 'a' <= c <= 'f' then 10 + (c - 'a') as int
    else -1
  }

  /** The value of a lower-case hexadecimal numeral, and -1 for any other string. */
  function ParseHex(s: string): int {
    if s == "" then -1
    else
      var d := HexValue(s[|s| - 1]);
      if d < 0 || |s| == 1 then d
      else
        var n := ParseHex(s[..|s| - 1]);
        if n < 0 then -1 else 16 * n + d
  }

  /** %x */
  function Hex(n: nat): (s: string)
    ensures s != "" && (|s| == 1 <==> n < 16)
    ensures n > 0 ==> s[0] != '0'
    ensures ':' !in s && '.' !in s
  {
    if n < 16 then [HexDigit(n)] else Hex(n / 16) + [HexDigit(n % 16)]
  }

  lemma {:induction false} HexIsInjective(m: nat, n: nat)
    requires Hex(m) == Hex(n)
    ensures m == n
  {
    if m >= 16 && n >= 16 {
      var s, t := Hex(m), Hex(n);
      assert s[..|s| - 1] == Hex(m / 16) && t[..|t| - 1] == Hex(n / 16);
      HexIsInjective(m / 16, n / 16);
      assert s[|s| - 1] == HexDigit(m % 16) && t[|t| - 1] == HexDigit(n % 16);
    }
  }

  /** What is printed in hexadecimal has that value. */
  lemma {:induction false} ParseHexPrinted(n: nat)
    ensures ParseHex(Hex(n)) == n
  {
    if n >= 16 {
      ParseHexPrinted(n / 16);
      var s := Hex(n);
      assert s[..|s| - 1] == Hex(n / 16);
    }
  }

  lemma HexDigitByValue(c: char, d: nat)
    requires d < 16
    ensures HexValue(c) == d <==> c == HexDigit(d)
  {
  }

  lemma TwoHexDigits(n: nat)
    requires n < 256
    ensures Hex2(n) == [HexDigit(n / 16), HexDigit(n % 16)]
  {
    if n >= 16 {
      assert Hex(n / 16) == [HexDigit(n / 16)];
    }
  }

  lemma ParseTwo(s: string)
    requires |s| == 2
    ensures var a, b := HexValue(s[0]), HexValue(s[1]); ParseHex(s) == if a < 0 || b < 0 then -1 else 16 * a + b
  {
    assert s[..1] == [s[0]];
  }

  /** Below 256, %02x prints two digits, and two digits of that value are always those. */
  lemma ParseHex2(n: nat, s: string)
    requires n < 256 && |s| == 2
    ensures ParseHex(s) == n <==> s == Hex2(n)
  {
    ParseTwo(s);
    TwoHexDigits(n);
    HexDigitByValue(s[0], n / 16);
    HexDigitByValue(s[1], n % 16);
    var a, b := HexValue(s[0]), HexValue(s[1]);
    if a >= 0 && b >= 0 && 16 * a + b == n {
      assert a == n / 16 && b == n % 16;
    }
  }

  lemma {:induction false} ParseZeros(s: string)
    ensures ParseHex(s) == 0 <==> s != "" && forall i :: 0 <= i < |s| ==> s[i] == '0'
  {
    if |s| > 1 {
      var most := s[..|s| - 1];
      ParseZeros(most);
      assert forall i :: 0 <= i < |most| ==> most[i] == s[i];
    }
  }

  /** %02x */
  function Hex2(n: nat): (s: string)
    ensures ':' !in s && '.' !in s
  {
    if n < 16 then "0" + Hex(n) else Hex(n)
  }

  lemma Hex2IsInjective(m: nat, n: nat)
    requires Hex2(m) == Hex2(n)
    ensures m == n
  {
    if m < 16 && n < 16 {
      assert Hex(m) == Hex2(m)[1..] && Hex(n) == Hex2(n)[1..];
    }
    HexIsInjective(m, n);
  }
}
