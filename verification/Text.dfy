/** Strings as sequences of bytes: letter case, prefixes and suffixes, and decimal integers
    the way Go's strconv reads and writes 64-bit ones. */
module Text {
  function LowerChar(c: char): char
  {
    if 'A' <= c <= 'Z' then c - 'A' + 'a' else c
  }

  /** Lower case of ASCII letters; every other byte stays. */
  function Lower(s: string): (r: string)
    ensures |r| == |s|
    ensures forall i :: 0 <= i < |s| ==> r[i] == LowerChar(s[i])
  {
    seq(|s|, i requires 0 <= i < |s| => LowerChar(s[i]))
  }

  lemma LowerTwice(s: string)
    ensures Lower(Lower(s)) == Lower(s)
  {
  }

  ghost predicate SameLetter(a: char, b: char)
  {
    || a == b
    || ('A' <= a <= 'Z' && 'a' <= b <= 'z' && a - 'A' == b - 'a')
    || ('a' <= a <= 'z' && 'A' <= b <= 'Z' && a - 'a' == b - 'A')
  }

  /** The strings agree but for the case of letters. */
  ghost predicate EqualFold(a: string, b: string)
  {
    |a| == |b| && forall i :: 0 <= i < |a| ==> SameLetter(a[i], b[i])
  }

  /** Strings have the same lower case exactly when they agree but for the case of letters; no letter
      of it is upper case. */
  lemma LowerIffEqualFold(a: string, b: string)
    ensures Lower(a) == Lower(b) <==> EqualFold(a, b)
    ensures EqualFold(Lower(a), a) && forall i :: 0 <= i < |a| ==> !('A' <= Lower(a)[i] <= 'Z')
  {
    var x, y := Lower(a), Lower(b);
    if x == y {
      forall i | 0 <= i < |a|
        ensures SameLetter(a[i], b[i])
      {
        assert x[i] == y[i];
      }
    }
    if EqualFold(a, b) {
      forall i | 0 <= i < |a|
        ensures x[i] == y[i]
      {
        assert SameLetter(a[i], b[i]);
      }
    }
  }

  predicate HasPrefix(s: string, prefix: string) { prefix <= s }

  predicate HasSuffix(s: string, suffix: string)
  {
    |suffix| <= |s| && s[|s| - |suffix|..] == suffix
  }

  function TrimSuffix(s: string, suffix: string): string
  {
    if HasSuffix(s, suffix) then s[..|s| - |suffix|] else s
  }

  // ----- Splitting

  /** The parts between the separators; one more than there are separators. */
  function Split(s: string, sep: char): (parts: seq<string>)
    ensures parts != [] && forall i :: 0 <= i < |parts| ==> sep !in parts[i]
  {
    if s == [] then [""]
    else
      var rest := Split(s[1..], sep);
      if s[0] == sep then [""] + rest else [[s[0]] + rest[0]] + rest[1..]
  }

  function Join(parts: seq<string>, sep: char): string
    requires parts != []
  {
    if |parts| == 1 then parts[0] else parts[0] + [sep] + Join(parts[1..], sep)
  }

  /** Splitting loses nothing. */
  lemma {:induction false} JoinSplit(s: string, sep: char)
    ensures Join(Split(s, sep), sep) == s
    decreases s
  {
    if s != [] {
      JoinSplit(s[1..], sep);
      var rest := Split(s[1..], sep);
      if s[0] == sep {
        assert Split(s, sep)[1..] == rest;
      } else if |rest| == 1 {
        assert Split(s, sep) == [[s[0]] + rest[0]];
      } else {
        assert Split(s, sep)[1..] == rest[1..];
      }
    }
  }

  lemma {:induction false} SplitAcross(head: string, rest: string, sep: char)
    requires sep !in head
    ensures Split(head + [sep] + rest, sep) == [head] + Split(rest, sep)
    decreases head
  {
    var s := head + [sep] + rest;
    if head == "" {
      assert s[1..] == rest;
    } else {
      assert head[0] in head && sep !in head[1..];
      SplitAcross(head[1..], rest, sep);
      assert s[1..] == head[1..] + [sep] + rest;
      assert [head[0]] + head[1..] == head;
    }
  }

  lemma {:induction false} SplitOne(s: string, sep: char)
    requires sep !in s
    ensures Split(s, sep) == [s]
    decreases s
  {
    if s != "" {
      assert s[0] in s && sep !in s[1..];
      SplitOne(s[1..], sep);
      assert [s[0]] + s[1..] == s;
    }
  }

  /** Parts that do not contain the separator are found again. */
  lemma {:induction false} SplitJoin(parts: seq<string>, sep: char)
    requires parts != [] && forall i :: 0 <= i < |parts| ==> sep !in parts[i]
    ensures Split(Join(parts, sep), sep) == parts
    decreases |parts|
  {
    if |parts| == 1 {
      SplitOne(parts[0], sep);
    } else {
      SplitJoin(parts[1..], sep);
      SplitAcross(parts[0], Join(parts[1..], sep), sep);
      assert parts == [parts[0]] + parts[1..];
    }
  }

  lemma {:induction false} JoinAppend(a: seq<string>, b: seq<string>, sep: char)
    requires a != [] && b != []
    ensures Join(a + b, sep) == Join(a, sep) + [sep] + Join(b, sep)
    decreases |a|
  {
    if |a| == 1 {
      assert (a + b)[1..] == b;
    } else {
      JoinAppend(a[1..], b, sep);
      assert (a + b)[1..] == a[1..] + b;
    }
  }

  // ----- Decimal integers

  const MAX_INT := 0x7fff_ffff_ffff_ffff
  const MIN_INT := -0x8000_0000_0000_0000

  predicate IsDigit(c: char) { '0' <= c <= '9' }

  predicate AllDigits(s: string) { forall i :: 0 <= i < |s| ==> IsDigit(s[i]) }

  function Digit(n: nat): (c: char)
    requires n < 10
    ensures IsDigit(c) && DigitValue(c) == n
  {
    '0' + n as char
  }

  function DigitValue(c: char): (n: nat)
    requires IsDigit(c)
    ensures n < 10
  {
    (c - '0') as nat
  }

  /** The ten digits and what they stand for. */
  lemma DigitMeans(c: char)
    ensures IsDigit(c) <==> c in "0123456789"
    ensures forall n: nat :: n < 10 ==> DigitValue("0123456789"[n]) == n
  {
    if IsDigit(c) {
      assert "0123456789"[DigitValue(c)] == c;
    }
  }

  lemma LetterMeans(c: char)
    ensures 'a' <= c <= 'z' <==> c in "abcdefghijklmnopqrstuvwxyz"
  {
    if 'a' <= c <= 'z' {
      assert "abcdefghijklmnopqrstuvwxyz"[(c - 'a') as nat] == c;
    }
  }

  function Value(s: string): nat
    requires AllDigits(s)
  {
    if s == [] then 0 else 10 * Value(s[..|s| - 1]) + DigitValue(s[|s| - 1])
  }

  /** The decimal digits of a natural number, without leading zeros. */
  function Digits(n: nat): (s: string)
    ensures s != [] && AllDigits(s)
  {
    if n < 10 then [Digit(n)] else Digits(n / 10) + [Digit(n % 10)]
  }

  lemma {:induction false} ValueOfDigits(n: nat)
    ensures Value(Digits(n)) == n
    decreases n
  {
    var s := Digits(n);
    if n < 10 {
      assert s[..0] == [];
    } else {
      ValueOfDigits(n / 10);
      assert s[..|s| - 1] == Digits(n / 10);
    }
  }

  /** Every digit string without leading zeros is the one written for its value. */
  lemma {:induction false} DigitsOfValue(s: string)
    requires s != [] && AllDigits(s) && (|s| > 1 ==> s[0] != '0')
    ensures Digits(Value(s)) == s
    decreases |s|
  {
    var n := |s| - 1;
    if n == 0 {
      assert s[..0] == [];
      assert s == [s[0]];
    } else {
      var head := s[..n];
      assert head[0] == s[0];
      DigitsOfValue(head);
      PositiveValue(head);
      assert s == head + [s[n]];
    }
  }

  lemma {:induction false} PositiveValue(s: string)
    requires s != [] && AllDigits(s) && s[0] != '0'
    ensures Value(s) > 0
    decreases |s|
  {
    if |s| > 1 {
      PositiveValue(s[..|s| - 1]);
    }
  }

  /** Leading zeros do not count. */
  lemma {:induction false} LeadingZero(s: string)
    requires AllDigits(s)
    ensures AllDigits("0" + s) && Value("0" + s) == Value(s)
    decreases |s|
  {
    if s != [] {
      LeadingZero(s[..|s| - 1]);
      assert ("0" + s)[..|s|] == "0" + s[..|s| - 1];
    }
  }

  function Itoa(n: int): string
  {
    if n < 0 then "-" + Digits(-n) else Digits(n)
  }

  datatype Parsed = Parsed(value: int) | Malformed

  /** A decimal integer with an optional sign, refused outside 64 bits. */
  function Atoi(s: string): Parsed
  {
    var negative := s != [] && s[0] == '-';
    var digits := if s != [] && (s[0] == '-' || s[0] == '+') then s[1..] else s;
    if digits == [] || !AllDigits(digits) then Malformed
    else
      var n: int := if negative then -(Value(digits) as int) else Value(digits);
      if MIN_INT <= n <= MAX_INT then Parsed(n) else Malformed
  }

  /** What is read: digits with at most one sign before them, whose value fits in 64 bits. */
  lemma AtoiMeans(digits: string)
    requires digits != [] && AllDigits(digits)
    ensures Atoi(digits) == if Value(digits) <= MAX_INT then Parsed(Value(digits)) else Malformed
    ensures Atoi("+" + digits) == Atoi(digits)
    ensures Atoi("-" + digits) == if 0 - Value(digits) >= MIN_INT then Parsed(0 - Value(digits)) else Malformed
  {
    assert IsDigit(digits[0]);
    hide Value;
    assert ("+" + digits)[1..] == digits && ("-" + digits)[1..] == digits;
  }

  /** Every 64-bit integer is read back from what is written for it. */
  lemma AtoiItoa(n: int)
    requires MIN_INT <= n <= MAX_INT
    ensures Atoi(Itoa(n)) == Parsed(n) && (AllDigits(Itoa(n)) <==> n >= 0)
  {
    var digits := Digits(if n < 0 then -n else n);
    hide Atoi, Digits, Value, AllDigits;
    ValueOfDigits(if n < 0 then -n else n);
    AtoiMeans(digits);
  }

  /** Nothing else is read. */
  lemma AtoiReads(s: string)
    requires Atoi(s).Parsed?
    ensures s != []
    ensures (AllDigits(s) || s[0] in {'+', '-'}) && AllDigits(s[1..]) && (s[0] in {'+', '-'} ==> |s| > 1)
  {
    if s[0] !in {'+', '-'} {
      assert AllDigits(s);
      assert forall i :: 0 <= i < |s| - 1 ==> s[1..][i] == s[i + 1];
    }
  }

  /** Two's complement wrap-around of an integer to 64 bits. */
  function Wrap(n: int): (r: int)
    ensures MIN_INT <= r <= MAX_INT
    ensures MIN_INT <= n <= MAX_INT ==> r == n
    ensures (n - r) % 0x1_0000_0000_0000_0000 == 0
  {
    var m := n % 0x1_0000_0000_0000_0000;
    if m > MAX_INT then m - 0x1_0000_0000_0000_0000 else m
  }
}
