/** Repository names and ports of images to warm: internal/daemon/operations.go. The names are those
    of the section "Pulling manifests" of the OCI Distribution Specification:
      component ::= alphanumerics (separator alphanumerics)*
      separator ::= "." | "_" | "__" | "-"+
      name      ::= component ("/" component)* */
module ImageName {
  import opened Text

  const MAX_LENGTH := 255
  const MAX_PORT := 65535

  predicate IsLowerAlphanumeric(c: char) { 'a' <= c <= 'z' || IsDigit(c) }

  lemma AlphanumericMeans(c: char)
    ensures IsLowerAlphanumeric(c) <==> c in "abcdefghijklmnopqrstuvwxyz" || c in "0123456789"
  {
    DigitMeans(c);
    LetterMeans(c);
  }

  // ----- The grammar

  predicate AllAlphanumeric(s: string) { forall i :: 0 <= i < |s| ==> IsLowerAlphanumeric(s[i]) }

  predicate AllDashes(s: string) { forall i :: 0 <= i < |s| ==> s[i] == '-' }

  predicate Separator(s: string) { s == "." || s == "_" || s == "__" || (s != "" && AllDashes(s)) }

  ghost predicate Component(s: string)
  {
    (s != "" && AllAlphanumeric(s)) || exists i, j :: Splits(s, i, j) && Component(s[j..])
  }

  /** The string starts with alphanumerics up to i and a separator from there to j. */
  ghost predicate Splits(s: string, i: int, j: int)
  {
    0 < i < j < |s| && AllAlphanumeric(s[..i]) && Separator(s[i..j])
  }

  ghost predicate Name(s: string)
  {
    exists parts: seq<string> {:trigger Join(parts, '/')} ::
      parts != [] && s == Join(parts, '/') && forall i :: 0 <= i < |parts| ==> Component(parts[i])
  }

  // ----- What the scanner reads, one position at a time

  function DashRun(s: string): (n: nat)
    ensures n <= |s| && AllDashes(s[..n]) && (n < |s| ==> s[n] != '-')
  {
    if s == "" || s[0] != '-' then 0
    else
      assert forall k :: 0 < k < |s| ==> s[k] == s[1..][k - 1];
      1 + DashRun(s[1..])
  }

  /** The length of the separator at the start, zero when there is none. */
  function SeparatorLength(s: string): (n: nat)
    requires s != ""
    ensures n <= |s|
  {
    if s[0] == '-' then DashRun(s)
    else if s[0] == '.' then 1
    else if s[0] == '_' then if |s| > 1 && s[1] == '_' then 2 else 1
    else 0
  }

  /** What may follow an alphanumeric. */
  predicate Rest(s: string)
    decreases |s|
  {
    if s == "" then true
    else if IsLowerAlphanumeric(s[0]) then Rest(s[1..])
    else
      var n := SeparatorLength(s);
      n > 0 && n < |s| && IsLowerAlphanumeric(s[n]) && Rest(s[n + 1..])
  }

  predicate Scanned(s: string) { s != "" && IsLowerAlphanumeric(s[0]) && Rest(s[1..]) }

  lemma {:induction false} RestAfterAlphanumerics(a: string, t: string)
    requires AllAlphanumeric(a)
    ensures Rest(a + t) <==> Rest(t)
    decreases |a|
  {
    if a == "" {
      assert a + t == t;
    } else {
      assert (a + t)[1..] == a[1..] + t;
      RestAfterAlphanumerics(a[1..], t);
    }
  }

  /** An alphanumeric ends a separator, so there is one way only to read it. */
  lemma SeparatorIsUnique(s: string, n: nat)
    requires 0 < n < |s| && Separator(s[..n]) && IsLowerAlphanumeric(s[n])
    ensures SeparatorLength(s) == n
  {
    assert s[0] == s[..n][0];
    if s[0] == '-' {
      assert AllDashes(s[..n]);
    } else if s[0] == '_' {
      assert n == 1 || s[1] == s[..n][1];
    }
  }

  lemma SeparatorIsRead(s: string)
    requires s != "" && SeparatorLength(s) > 0
    ensures Separator(s[..SeparatorLength(s)])
  {
  }

  lemma ScannedFromSplit(s: string, i: int, j: int)
    requires Splits(s, i, j) && Scanned(s[j..])
    ensures Scanned(s)
  {
    var t := s[i..];
    assert t[..j - i] == s[i..j] && t[j - i] == s[j] == s[j..][0];
    SeparatorIsUnique(t, j - i);
    assert t[j - i + 1..] == s[j..][1..];
    assert t[0] == s[i..j][0];
    hide SeparatorLength;
    assert Rest(t);
    assert s[..i][0] == s[0];
    assert s[1..] == s[..i][1..] + t;
    RestAfterAlphanumerics(s[..i][1..], t);
  }

  lemma {:induction false} GrammarIsScanned(s: string)
    requires Component(s)
    ensures Scanned(s)
    decreases |s|
  {
    if s != "" && AllAlphanumeric(s) {
      RestAfterAlphanumerics(s[1..], "");
      assert s[1..] + "" == s[1..];
    } else {
      var i, j :| Splits(s, i, j) && Component(s[j..]);
      GrammarIsScanned(s[j..]);
      ScannedFromSplit(s, i, j);
    }
  }

  function AlphanumericRun(s: string): (n: nat)
    ensures n <= |s| && AllAlphanumeric(s[..n]) && (n < |s| ==> !IsLowerAlphanumeric(s[n]))
  {
    if s == "" || !IsLowerAlphanumeric(s[0]) then 0
    else
      assert forall k :: 0 < k < |s| ==> s[k] == s[1..][k - 1];
      1 + AlphanumericRun(s[1..])
  }

  lemma {:induction false} ScannedIsGrammar(s: string)
    requires Scanned(s)
    ensures Component(s)
    decreases |s|
  {
    var i := AlphanumericRun(s);
    assert s[..|s|] == s;
    if i < |s| {
      var t := s[i..];
      assert s[..i][0] == s[0];
      assert s[1..] == s[..i][1..] + t;
      RestAfterAlphanumerics(s[..i][1..], t);
      var n := SeparatorLength(t);
      var j := i + n;
      assert t[n] == s[j] && t[n + 1..] == s[j..][1..] && t[..n] == s[i..j];
      SeparatorIsRead(t);
      hide SeparatorLength;
      ScannedIsGrammar(s[j..]);
      assert Splits(s, i, j);
    }
  }

  lemma ComponentHasNoSlash(s: string)
    requires Component(s)
    ensures '/' !in s
  {
    GrammarIsScanned(s);
    RestHasNoSlash(s[1..]);
    assert s == [s[0]] + s[1..];
  }

  lemma {:induction false} RestHasNoSlash(s: string)
    requires Rest(s)
    ensures '/' !in s
    decreases |s|
  {
    if s != "" && IsLowerAlphanumeric(s[0]) {
      RestHasNoSlash(s[1..]);
      assert s == [s[0]] + s[1..];
    } else if s != "" {
      var n := SeparatorLength(s);
      RestHasNoSlash(s[n + 1..]);
      SeparatorIsRead(s);
      assert s == s[..n] + [s[n]] + s[n + 1..];
    }
  }

  /** A string is a name exactly when every part between its slashes is a component. */
  lemma NameIffComponents(s: string)
    ensures Name(s) <==> forall i :: 0 <= i < |Split(s, '/')| ==> Component(Split(s, '/')[i])
  {
    hide Component;
    JoinSplit(s, '/');
    if Name(s) {
      var parts :| parts != [] && s == Join(parts, '/') && forall i :: 0 <= i < |parts| ==> Component(parts[i]);
      forall i | 0 <= i < |parts|
        ensures '/' !in parts[i]
      {
        ComponentHasNoSlash(parts[i]);
      }
      SplitJoin(parts, '/');
    }
  }

  // ----- The scanner

  method ValidComponent(value: string) returns (ok: bool)
    ensures ok <==> Component(value)
  {
    if Component(value) {
      GrammarIsScanned(value);
    }
    if Scanned(value) {
      ScannedIsGrammar(value);
    }
    ok := ScanComponent(value);
  }

  method ScanComponent(value: string) returns (ok: bool)
    ensures ok <==> Scanned(value)
  {
    if value == "" || !IsLowerAlphanumeric(value[0]) {
      return false;
    }
    var index := 1;
    while index < |value|
      invariant 1 <= index <= |value|
      invariant Rest(value[1..]) <==> Rest(value[index..])
    {
      var character := value[index];
      ghost var t := value[index..];
      if IsLowerAlphanumeric(character) {
        assert t[1..] == value[index + 1..];
        index := index + 1;
        continue;
      }
      ghost var start := index;
      if character == '-' {
        index := SkipDashes(value, index);
      } else if character == '.' || character == '_' {
        index := index + 1;
        if character == '_' && index < |value| && value[index] == '_' {
          index := index + 1;
        }
      } else {
        return false;
      }
      assert index == start + SeparatorLength(t);
      if index == |value| || !IsLowerAlphanumeric(value[index]) {
        return false;
      }
      assert t[SeparatorLength(t) + 1..] == value[index..][1..];
    }
    ok := true;
  }

  method SkipDashes(value: string, start: nat) returns (index: nat)
    requires start < |value|
    ensures index == start + DashRun(value[start..])
    ensures start <= index <= |value|
  {
    index := start;
    while index < |value| && value[index] == '-'
      invariant start <= index <= |value|
      invariant start + DashRun(value[start..]) == index + DashRun(value[index..])
    {
      assert value[index..][1..] == value[index + 1..];
      index := index + 1;
    }
  }

  /** A repository is accepted exactly when it has at most 255 bytes and is a name. */
  method ValidRepository(value: string) returns (ok: bool)
    ensures ok <==> |value| <= 255 && Name(value)
  {
    hide Component;
    NameIffComponents(value);
    if value == "" || |value| > MAX_LENGTH {
      EmptyIsNoName();
      return false;
    }
    var parts := Split(value, '/');
    for i := 0 to |parts|
      invariant forall j :: 0 <= j < i ==> Component(parts[j])
    {
      var good := ValidComponent(parts[i]);
      if !good {
        return false;
      }
    }
    ok := true;
  }

  lemma EmptyIsNoName()
    ensures !Name("")
  {
    NameIffComponents("");
    assert Split("", '/')[0] == "";
    assert !Component("");
  }

  // ----- Ports

  lemma {:induction false} PrefixValue(s: string, i: nat)
    requires i <= |s| && AllDigits(s)
    ensures Value(s[..i]) <= Value(s)
    decreases |s|
  {
    if i == |s| {
      assert s[..i] == s;
    } else {
      PrefixValue(s[..|s| - 1], i);
      assert s[..|s| - 1][..i] == s[..i];
    }
  }

  /** A port is accepted exactly when it is written in digits and lies in 1..65535, however many
      digits there are; the number being built up never leaves that range. */
  method ValidPort(value: string) returns (ok: bool)
    ensures ok <==> value != "" && AllDigits(value) && 1 <= Value(value) <= 65535
  {
    if value == "" || !AllDigits(value) {
      return false;
    }
    var port := 0;
    for i := 0 to |value|
      invariant port == Value(value[..i]) && port <= MAX_PORT
    {
      var digit := DigitValue(value[i]);
      assert value[..i + 1][..i] == value[..i];
      if port > (MAX_PORT - digit) / 10 {
        PrefixValue(value, i + 1);
        return false;
      }
      port := port * 10 + digit;
    }
    assert value[..|value|] == value;
    ok := port > 0;
  }
}
