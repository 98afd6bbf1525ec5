/** Cluster domains: internal/domain/domain.go. */
module Domains {
  import opened Text

  const MAX_NAME := 253
  const MAX_LABEL := 63
  const DEFAULT_SUFFIX := "k8s.test"

  predicate IsAlphanumeric(c: char) { 'a' <= c <= 'z' || IsDigit(c) }

  /** Lower-case letters, digits and inner hyphens, at least one character. */
  predicate IsLabel(s: string)
  {
    && s != [] && IsAlphanumeric(s[0]) && IsAlphanumeric(s[|s| - 1])
    && forall i :: 0 <= i < |s| ==> IsAlphanumeric(s[i]) || s[i] == '-'
  }

  /** A label is one letter or digit, or two with letters, digits and hyphens between them. */
  lemma LabelMeans(first: char, middle: string, last: char)
    ensures IsAlphanumeric(first) <==> first in "abcdefghijklmnopqrstuvwxyz" || first in "0123456789"
    ensures !IsLabel("") && (IsLabel([first]) <==> IsAlphanumeric(first))
    ensures IsLabel([first] + middle + [last]) <==>
      IsAlphanumeric(first) && IsAlphanumeric(last) && forall c :: c in middle ==> IsAlphanumeric(c) || c == '-'
  {
    DigitMeans(first);
    LetterMeans(first);
    var s := [first] + middle + [last];
    assert s[|s| - 1] == last;
    assert forall i :: 0 <= i < |middle| ==> s[i + 1] == middle[i];
    hide IsAlphanumeric;
    if IsLabel(s) {
      forall c | c in middle
        ensures IsAlphanumeric(c) || c == '-'
      {
        var i :| 0 <= i < |middle| && middle[i] == c;
        assert s[i + 1] == c;
      }
    }
    if IsAlphanumeric(first) && IsAlphanumeric(last) && forall c :: c in middle ==> IsAlphanumeric(c) || c == '-' {
      forall i | 0 <= i < |s|
        ensures IsAlphanumeric(s[i]) || s[i] == '-'
      {
        if 0 < i < |s| - 1 {
          assert s[i] == middle[i - 1] && middle[i - 1] in middle;
        }
      }
    }
  }

  function Labels(name: string): (labels: seq<string>)
    ensures labels != []
  {
    Split(name, '.')
  }

  function LastLabel(name: string): string { Labels(name)[|Labels(name)| - 1] }

  predicate Safe(name: string)
  {
    LastLabel(name) in {"test", "internal"} || name == "home.arpa" || HasSuffix(name, ".home.arpa")
  }

  /** The policy for a name that is already lower case and without its trailing dot. */
  predicate Usable(name: string, allowUnsafe: bool)
  {
    && |name| <= MAX_NAME
    && |Labels(name)| >= 2
    && (forall i :: 0 <= i < |Labels(name)| ==> |Labels(name)[i]| <= MAX_LABEL && IsLabel(Labels(name)[i]))
    && LastLabel(name) !in {"local", "localhost", "invalid"}
    && name != DEFAULT_SUFFIX
    && (Safe(name) || allowUnsafe)
  }

  datatype Verdict = Canonical(name: string) | Refused

  function Validate(input: string, allowUnsafe: bool): Verdict
  {
    var name := Lower(TrimSuffix(input, "."));
    if Usable(name, allowUnsafe) then Canonical(name) else Refused
  }

  lemma {:induction false} TrailingDot(name: string)
    requires name != [] && name[|name| - 1] == '.'
    ensures |Labels(name)| >= 2 && LastLabel(name) == ""
  {
    if |name| > 1 {
      TrailingDot(name[1..]);
    } else {
      assert Split(name[1..], '.') == [""];
    }
  }

  /** Validating what validation returned changes nothing, whichever way the input was spelled. */
  lemma ValidateTwice(input: string, allowUnsafe: bool)
    requires Validate(input, allowUnsafe).Canonical?
    ensures Validate(Validate(input, allowUnsafe).name, allowUnsafe) == Validate(input, allowUnsafe)
    ensures Validate(input, allowUnsafe).name != ""
  {
    var name := Validate(input, allowUnsafe).name;
    LowerTwice(TrimSuffix(input, "."));
    NoTrailingDot(name, allowUnsafe);
    hide Usable;
    assert TrimSuffix(name, ".") == name;
  }

  lemma NoTrailingDot(name: string, allowUnsafe: bool)
    requires Usable(name, allowUnsafe)
    ensures name != [] && !HasSuffix(name, ".")
  {
    var last := Labels(name)[|Labels(name)| - 1];
    assert IsLabel(last) && last == LastLabel(name);
    hide Labels, Safe, IsLabel;
    EndsWithDot(name);
  }

  lemma EndsWithDot(name: string)
    ensures HasSuffix(name, ".") ==> LastLabel(name) == ""
    ensures name == [] ==> LastLabel(name) == ""
  {
    if HasSuffix(name, ".") {
      assert name[|name| - 1] == name[|name| - 1..][0];
      TrailingDot(name);
    }
  }

  lemma ThreeLabels(a: string, b: string, c: string)
    requires '.' !in a && '.' !in b && '.' !in c
    ensures Labels(a + "." + (b + "." + c)) == [a, b, c]
  {
    SplitAcross(a, b + "." + c, '.');
    SplitAcross(b, c, '.');
    SplitOne(c, '.');
    hide Split;
  }

  /** A name of three proper labels under .test is its own canonical form. */
  lemma CanonicalThree(a: string, b: string, c: string)
    requires IsLabel(a) && IsLabel(b) && c == "test"
    requires '.' !in a && '.' !in b && |a| <= MAX_LABEL && |b| <= MAX_LABEL
    ensures Validate(a + "." + (b + "." + c), true) == Canonical(a + "." + (b + "." + c))
  {
    var name := a + "." + (b + "." + c);
    ThreeLabels(a, b, c);
    hide Labels, Safe;
    assert TrimSuffix(name, ".") == name by {
      assert name[|name| - 1] == 't';
    }
    assert Lower(name) == name;
    assert name[|a|] == '.' && |name| == |a| + |b| + 6;
    assert |name| != 8 || name != DEFAULT_SUFFIX;
  }

  lemma LastDot(s: string)
    ensures HasSuffix(s, ".") <==> s != [] && s[|s| - 1] == '.'
  {
    if s != [] {
      assert s[|s| - 1..] == [s[|s| - 1]];
    }
  }

  /** Validation does not care about letter case or one trailing dot, and changes nothing else. */
  lemma SpellingIrrelevant(a: string, b: string, allowUnsafe: bool)
    requires EqualFold(a, b) && !HasSuffix(b, ".")
    ensures Validate(a, allowUnsafe) == Validate(b, allowUnsafe) == Validate(b + ".", allowUnsafe)
    ensures Validate(a, allowUnsafe).Canonical? ==> EqualFold(Validate(a, allowUnsafe).name, a)
  {
    LastDot(a);
    LastDot(b);
    assert a != [] ==> SameLetter(a[|a| - 1], b[|b| - 1]);
    assert (b + ".")[..|b|] == b && (b + ".")[|b|..] == ".";
    LowerIffEqualFold(a, b);
    hide Usable, EqualFold;
  }

  lemma {:induction false} LowerCaseAlready(labels: seq<string>)
    requires labels != [] && forall i :: 0 <= i < |labels| ==> IsLabel(labels[i])
    ensures var name := Join(labels, '.');
      Lower(name) == name && name != [] && name[|name| - 1] != '.'
    decreases |labels|
  {
    var name := Join(labels, '.');
    assert IsLabel(labels[0]);
    if |labels| > 1 {
      LowerCaseAlready(labels[1..]);
      var rest := Join(labels[1..], '.');
      assert name == labels[0] + "." + rest;
      assert Lower(name) == Lower(labels[0]) + "." + Lower(rest);
    }
  }

  ghost predicate DotFree(labels: seq<string>)
  {
    labels != [] && forall i :: 0 <= i < |labels| ==> '.' !in labels[i]
  }

  /** A name of these labels begins with other labels and ends with the given ones. */
  lemma LabelsEnd(labels: seq<string>, end: seq<string>, head: string)
    requires DotFree(labels) && DotFree(end) && Join(labels, '.') == head + ['.'] + Join(end, '.')
    ensures labels == Split(head, '.') + end
  {
    JoinSplit(head, '.');
    hide Join, Split;
    JoinAppend(Split(head, '.'), end, '.');
    SplitJoin(Split(head, '.') + end, '.');
    SplitJoin(labels, '.');
  }

  lemma SuffixOf(head: string, tail: string)
    ensures HasSuffix(head + ['.'] + tail, ['.'] + tail)
  {
    var s := head + ['.'] + tail;
    assert s[|s| - |tail| - 1..] == ['.'] + tail;
  }

  lemma HeadOf(s: string, tail: string) returns (head: string)
    requires HasSuffix(s, ['.'] + tail)
    ensures s == head + ['.'] + tail
  {
    var n := |s| - |tail| - 1;
    head := s[..n];
    assert s == s[..n] + s[n..];
  }

  lemma NameEnds(labels: seq<string>, end: seq<string>)
    requires DotFree(labels) && DotFree(end) && |labels| > |end| && labels[|labels| - |end|..] == end
    ensures HasSuffix(Join(labels, '.'), ['.'] + Join(end, '.'))
  {
    var n := |labels| - |end|;
    assert labels == labels[..n] + end;
    hide *;
    JoinAppend(labels[..n], end, '.');
    SuffixOf(Join(labels[..n], '.'), Join(end, '.'));
  }

  lemma EndsLabels(labels: seq<string>, end: seq<string>)
    requires DotFree(labels) && DotFree(end) && HasSuffix(Join(labels, '.'), ['.'] + Join(end, '.'))
    ensures |labels| > |end| && labels[|labels| - |end|..] == end
  {
    hide Join, Split, HasSuffix;
    var head := HeadOf(Join(labels, '.'), Join(end, '.'));
    LabelsEnd(labels, end, head);
  }

  /** A name lies at or under another one when its labels end with the other's. */
  lemma UnderIff(labels: seq<string>, end: seq<string>)
    requires DotFree(labels) && DotFree(end)
    ensures var name, under := Join(labels, '.'), Join(end, '.');
      name == under || HasSuffix(name, ['.'] + under) <==>
        |labels| >= |end| && labels[|labels| - |end|..] == end
  {
    SplitJoin(labels, '.');
    SplitJoin(end, '.');
    hide *;
    var name, under, n := Join(labels, '.'), Join(end, '.'), |labels| - |end|;
    if name == under {
      assert labels[0..] == labels;
    } else if HasSuffix(name, ['.'] + under) {
      EndsLabels(labels, end);
    }
    if n == 0 && labels[n..] == end {
      assert labels == end;
    } else if n > 0 && labels[n..] == end {
      NameEnds(labels, end);
    }
  }

  lemma TwoLabels(a: string, b: string)
    requires '.' !in a && '.' !in b
    ensures Join([a, b], '.') == a + "." + b && Split(a + "." + b, '.') == [a, b]
  {
    SplitJoin([a, b], '.');
    assert Join([a, b][1..], '.') == b;
  }

  /** Which names are their own canonical form, told from their labels: two or more, each of at most
      63 letters, digits and inner hyphens, 253 characters in all, not the default suffix itself, not
      under a special-use top-level domain, and without leave only under .test, .internal and
      home.arpa. */
  lemma CanonicalIff(labels: seq<string>, allowUnsafe: bool)
    requires labels != [] && DotFree(labels)
    ensures var name, top := Join(labels, '.'), labels[|labels| - 1];
      Validate(name, allowUnsafe) == Canonical(name) <==>
        && |name| <= 253 && |labels| >= 2
        && (forall i :: 0 <= i < |labels| ==> |labels[i]| <= 63 && IsLabel(labels[i]))
        && top !in {"local", "localhost", "invalid"} && labels != ["k8s", "test"]
        && (allowUnsafe || top in {"test", "internal"} || (top == "arpa" && labels[|labels| - 2] == "home"))
  {
    hide *;
    ValidateIs(Join(labels, '.'), allowUnsafe);
    UsableIff(labels, allowUnsafe);
    if forall i :: 0 <= i < |labels| ==> IsLabel(labels[i]) {
      LowerCaseAlready(labels);
      NothingToTrim(Join(labels, '.'));
    }
  }

  lemma ValidateIs(name: string, allowUnsafe: bool)
    ensures Validate(name, allowUnsafe) == Canonical(name) <==>
      Lower(TrimSuffix(name, ".")) == name && Usable(name, allowUnsafe)
  {
    hide Usable, Lower, TrimSuffix;
  }

  lemma NothingToTrim(name: string)
    requires name != [] && name[|name| - 1] != '.'
    ensures TrimSuffix(name, ".") == name
  {
    LastDot(name);
  }

  /** The names with a meaning of their own, taken apart. */
  lemma SpecialNames()
    ensures DotFree(["home", "arpa"]) && Join(["home", "arpa"], '.') == "home.arpa"
    ensures ['.'] + "home.arpa" == ".home.arpa"
    ensures DotFree(["k8s", "test"]) && Join(["k8s", "test"], '.') == DEFAULT_SUFFIX
  {
    TwoLabels("home", "arpa");
    TwoLabels("k8s", "test");
    hide Join, Split;
  }

  lemma LastTwo(labels: seq<string>, a: string, b: string)
    ensures |labels| >= 2 && labels[|labels| - 2..] == [a, b] <==>
      |labels| >= 2 && labels[|labels| - 2] == a && labels[|labels| - 1] == b
  {
    if |labels| >= 2 {
      assert labels[|labels| - 2..] == [labels[|labels| - 2], labels[|labels| - 1]];
    }
  }

  lemma SafeIff(labels: seq<string>)
    requires DotFree(labels)
    ensures Safe(Join(labels, '.')) <==>
      || labels[|labels| - 1] in {"test", "internal"}
      || (|labels| >= 2 && labels[|labels| - 2] == "home" && labels[|labels| - 1] == "arpa")
  {
    hide Split, Join, HasSuffix, DotFree;
    SpecialNames();
    assert LastLabel(Join(labels, '.')) == labels[|labels| - 1] by {
      DotFreeMeans(labels);
      SplitJoin(labels, '.');
    }
    hide LastLabel;
    UnderIff(labels, ["home", "arpa"]);
    LastTwo(labels, "home", "arpa");
  }

  lemma DotFreeMeans(labels: seq<string>)
    requires DotFree(labels)
    ensures labels != [] && forall i :: 0 <= i < |labels| ==> '.' !in labels[i]
  {
  }

  lemma SameNameSameLabels(a: seq<string>, b: seq<string>)
    requires DotFree(a) && DotFree(b)
    ensures Join(a, '.') == Join(b, '.') <==> a == b
    ensures Labels(Join(a, '.')) == a
  {
    SplitJoin(a, '.');
    SplitJoin(b, '.');
  }

  lemma UsableIff(labels: seq<string>, allowUnsafe: bool)
    requires labels != [] && DotFree(labels)
    ensures var name, top := Join(labels, '.'), labels[|labels| - 1];
      Usable(name, allowUnsafe) <==>
        && |name| <= 253 && |labels| >= 2
        && (forall i :: 0 <= i < |labels| ==> |labels[i]| <= 63 && IsLabel(labels[i]))
        && top !in {"local", "localhost", "invalid"} && labels != ["k8s", "test"]
        && (allowUnsafe || top in {"test", "internal"} || (top == "arpa" && labels[|labels| - 2] == "home"))
  {
    SafeIff(labels);
    SpecialNames();
    SameNameSameLabels(labels, ["k8s", "test"]);
    hide Join, IsLabel, Safe, DotFree, Labels;
  }
}
