/**
 * The domain-name pattern of `Target.DOMAIN_RE`,
 *
 *   ^(?:[a-z0-9](?:[a-z0-9-]{0,61}[a-z0-9])?\.)+[a-z]{2,6}\.?$   with re.IGNORECASE,
 *
 * given twice: as a grammar (`MatchesDomainRe`, the reference definition: the string
 * decomposes into labels each followed by a dot, a top label and an optional dot) and as
 * a label-by-label recogniser (`Accepts`). `AcceptsIffMatches` proves they agree.
 */
module DomainSyntax {

  /** `[a-z]` under IGNORECASE: the ASCII letters of either case. */
  predicate IsLetter(c: char) { 'a' <= c <= 'z' || 'A' <= c <= 'Z' }

  predicate IsDigit(c: char) { '0' <= c <= '9' }

  predicate IsAlnum(c: char) { IsLetter(c) || IsDigit(c) }

  /** `[a-z0-9-]` under IGNORECASE. */
  predicate IsLabelChar(c: char) { IsAlnum(c) || c == '-' }

  predicate NoDot(s: string) { forall i :: 0 <= i < |s| ==> s[i] != '.' }

  /** `[a-z0-9](?:[a-z0-9-]{0,61}[a-z0-9])?`: 1 to 63 characters, alphanumeric at both ends. */
  predicate IsLabel(l: string) {
    1 <= |l| <= 63 && IsAlnum(l[0]) && IsAlnum(l[|l| - 1]) &&
    forall i :: 0 <= i < |l| ==> IsLabelChar(l[i])
  }

  /** `[a-z]{2,6}`: the top label. */
  predicate IsTopLabel(t: string) {
    2 <= |t| <= 6 && forall i :: 0 <= i < |t| ==> IsLetter(t[i])
  }

  /** The labels, each followed by its dot. */
  function Dotted(labels: seq<string>): string {
    if labels == [] then "" else labels[0] + "." + Dotted(labels[1..])
  }

  function OptionalDot(present: bool): string { if present then "." else "" }

  /** `s` is one or more labels each followed by a dot, then a top label, then an optional dot. */
  ghost predicate Decomposes(s: string, labels: seq<string>, top: string, trailingDot: bool) {
    |labels| >= 1 &&
    (forall i :: 0 <= i < |labels| ==> IsLabel(labels[i])) &&
    IsTopLabel(top) &&
    s == Dotted(labels) + top + OptionalDot(trailingDot)
  }

  /** The whole string matches the pattern. */
  ghost predicate MatchesDomainRe(s: string) {
    exists labels: seq<string>, top: string, trailingDot: bool :: Decomposes(s, labels, top, trailingDot)
  }

  // ---------------------------------------------------------------------------------------
  // The recogniser

  /** The dot-separated parts of `s`, scanned one character at a time. */
  function SplitDots(s: string): (parts: seq<string>)
    ensures |parts| >= 1
  {
    if s == [] then [""]
    else
      var rest := SplitDots(s[1..]);
      if s[0] == '.' then [""] + rest else [[s[0]] + rest[0]] + rest[1..]
  }

  function StripTrailingDot(s: string): string {
    if |s| > 0 && s[|s| - 1] == '.' then s[..|s| - 1] else s
  }

  /** Label by label: every part but the last is a label, the last is a top label. */
  predicate Accepts(s: string) {
    var parts := SplitDots(StripTrailingDot(s));
    |parts| >= 2 &&
    (forall i :: 0 <= i < |parts| - 1 ==> IsLabel(parts[i])) &&
    IsTopLabel(parts[|parts| - 1])
  }

  // ---------------------------------------------------------------------------------------
  // Splitting and joining are inverse

  lemma {:induction false} SplitSingle(t: string)
    requires NoDot(t)
    ensures SplitDots(t) == [t]
  {
    if t != [] {
      SplitSingle(t[1..]);
      assert [t[0]] + t[1..] == t;
    }
  }

  lemma {:induction false} SplitAfterLabel(l: string, rest: string)
    requires NoDot(l)
    ensures SplitDots(l + "." + rest) == [l] + SplitDots(rest)
  {
    var s := l + "." + rest;
    if l == [] {
      assert s[1..] == rest;
    } else {
      assert s[1..] == l[1..] + "." + rest;
      SplitAfterLabel(l[1..], rest);
      assert [l[0]] + l[1..] == l;
    }
  }

  lemma {:induction false} SplitDotted(labels: seq<string>, top: string)
    requires forall i :: 0 <= i < |labels| ==> NoDot(labels[i])
    requires NoDot(top)
    ensures SplitDots(Dotted(labels) + top) == labels + [top]
  {
    if labels == [] {
      assert Dotted(labels) + top == top;
      SplitSingle(top);
    } else {
      var tail := Dotted(labels[1..]) + top;
      assert Dotted(labels) + top == labels[0] + "." + tail;
      SplitAfterLabel(labels[0], tail);
      SplitDotted(labels[1..], top);
      assert labels == [labels[0]] + labels[1..];
    }
  }

  lemma {:induction false} JoinSplit(s: string)
    ensures var parts := SplitDots(s);
      s == Dotted(parts[..|parts| - 1]) + parts[|parts| - 1] &&
      forall i :: 0 <= i < |parts| ==> NoDot(parts[i])
  {
    if s != [] {
      JoinSplit(s[1..]);
      var rest := SplitDots(s[1..]);
      var parts := SplitDots(s);
      if s[0] == '.' {
        assert parts == [""] + rest;
        assert parts[..|parts| - 1] == [""] + rest[..|rest| - 1];
        assert s == [s[0]] + s[1..];
      } else {
        assert parts == [[s[0]] + rest[0]] + rest[1..];
        if |rest| == 1 {
          assert s == [s[0]] + s[1..];
        } else {
          var init := rest[..|rest| - 1];
          assert init == [rest[0]] + init[1..];
          assert parts[..|parts| - 1] == [[s[0]] + rest[0]] + init[1..];
          assert s == [s[0]] + s[1..];
        }
      }
    }
  }

  lemma LabelHasNoDot(l: string)
    requires IsLabel(l)
    ensures NoDot(l)
  {
    forall i | 0 <= i < |l| ensures l[i] != '.' {
      assert IsLabelChar(l[i]);
    }
  }

  lemma AcceptedDecomposes(s: string)
    requires Accepts(s)
    ensures MatchesDomainRe(s)
  {
    var body := StripTrailingDot(s);
    var parts := SplitDots(body);
    JoinSplit(body);
    var dot := |s| > 0 && s[|s| - 1] == '.';
    assert s == body + OptionalDot(dot);
    assert Decomposes(s, parts[..|parts| - 1], parts[|parts| - 1], dot);
  }

  lemma MatchedIsAccepted(s: string)
    requires MatchesDomainRe(s)
    ensures Accepts(s)
  {
    var labels: seq<string>, top: string, dot: bool :| Decomposes(s, labels, top, dot);
    forall i | 0 <= i < |labels| ensures NoDot(labels[i]) {
      LabelHasNoDot(labels[i]);
    }
    var body := Dotted(labels) + top;
    assert body[|body| - 1] == top[|top| - 1];
    assert StripTrailingDot(s) == body;
    SplitDotted(labels, top);
  }

  /** The recogniser accepts exactly the strings the pattern matches. */
  lemma AcceptsIffMatches(s: string)
    ensures Accepts(s) <==> MatchesDomainRe(s)
  {
    if Accepts(s) {
      AcceptedDecomposes(s);
    }
    if MatchesDomainRe(s) {
      MatchedIsAccepted(s);
    }
  }

  lemma {:induction false} DottedAlphabet(labels: seq<string>)
    requires forall i :: 0 <= i < |labels| ==> IsLabel(labels[i])
    ensures forall i :: 0 <= i < |Dotted(labels)| ==> IsLabelChar(Dotted(labels)[i]) || Dotted(labels)[i] == '.'
  {
    if labels != [] {
      DottedAlphabet(labels[1..]);
      var d := Dotted(labels);
      var l := labels[0];
      assert d == l + "." + Dotted(labels[1..]);
      forall i | 0 <= i < |d| ensures IsLabelChar(d[i]) || d[i] == '.' {
        if i < |l| {
          assert d[i] == l[i];
        } else if i > |l| {
          assert d[i] == Dotted(labels[1..])[i - |l| - 1];
        }
      }
    }
  }

  /** A matching string holds nothing but letters, digits, hyphens and dots. */
  lemma MatchedAlphabet(s: string)
    requires MatchesDomainRe(s)
    ensures forall i :: 0 <= i < |s| ==> IsLabelChar(s[i]) || s[i] == '.'
  {
    var labels: seq<string>, top: string, dot: bool :| Decomposes(s, labels, top, dot);
    DottedAlphabet(labels);
    var d := Dotted(labels);
    assert s == d + top + OptionalDot(dot);
    forall i | 0 <= i < |s| ensures IsLabelChar(s[i]) || s[i] == '.' {
      if i < |d| {
        assert s[i] == d[i];
        assert IsLabelChar(d[i]) || d[i] == '.';
      } else if i < |d| + |top| {
        assert s[i] == top[i - |d|] && IsLetter(top[i - |d|]);
      } else {
        assert dot && s[i] == OptionalDot(dot)[i - |d| - |top|];
        assert s[i] == '.';
      }
    }
  }

  // ---------------------------------------------------------------------------------------
  // Case

  /** ASCII lower-casing. On the strings the pattern accepts it agrees with Python's `lower()`. */
  function LowerChar(c: char): char {
    if 'A' <= c <= 'Z' then (c as int - 'A' as int + 'a' as int) as char else c
  }

  function Lower(s: string): (r: string)
    ensures |r| == |s|
    ensures forall i :: 0 <= i < |r| ==> !('A' <= r[i] <= 'Z')
    ensures forall i :: 0 <= i < |s| && !('A' <= s[i] <= 'Z') ==> r[i] == s[i]
    ensures forall i :: 0 <= i < |s| && 'A' <= s[i] <= 'Z' ==> r[i] as int == s[i] as int + 32
  {
    seq(|s|, i requires 0 <= i < |s| => LowerChar(s[i]))
  }

  function LowerAll(parts: seq<string>): seq<string> {
    seq(|parts|, i requires 0 <= i < |parts| => Lower(parts[i]))
  }

  lemma LowerConcat(a: string, b: string)
    ensures Lower(a + b) == Lower(a) + Lower(b)
  {
    assert forall i :: 0 <= i < |a + b| ==> Lower(a + b)[i] == (Lower(a) + Lower(b))[i];
  }

  lemma LowerAllCons(p: string, ps: seq<string>)
    ensures LowerAll([p] + ps) == [Lower(p)] + LowerAll(ps)
  {
    assert forall i :: 0 <= i < |ps| + 1 ==> LowerAll([p] + ps)[i] == ([Lower(p)] + LowerAll(ps))[i];
  }

  lemma {:induction false} SplitLower(s: string)
    ensures SplitDots(Lower(s)) == LowerAll(SplitDots(s))
  {
    if s == [] {
      assert Lower(s) == [];
    } else {
      SplitLower(s[1..]);
      var rest := SplitDots(s[1..]);
      assert s == [s[0]] + s[1..];
      LowerConcat([s[0]], s[1..]);
      assert Lower([s[0]]) == [LowerChar(s[0])];
      LowerCharKeepsClasses(s[0]);
      assert Lower(s)[0] == LowerChar(s[0]) && Lower(s)[1..] == Lower(s[1..]);
      if s[0] == '.' {
        LowerAllCons("", rest);
        assert Lower("") == "";
      } else {
        LowerConcat([s[0]], rest[0]);
        assert rest == [rest[0]] + rest[1..];
        LowerAllCons(rest[0], rest[1..]);
        LowerAllCons([s[0]] + rest[0], rest[1..]);
      }
    }
  }

  lemma LowerCharKeepsClasses(c: char)
    ensures IsLetter(LowerChar(c)) <==> IsLetter(c)
    ensures IsAlnum(LowerChar(c)) <==> IsAlnum(c)
    ensures IsLabelChar(LowerChar(c)) <==> IsLabelChar(c)
    ensures LowerChar(c) == '.' <==> c == '.'
  {
  }

  lemma LowerKeepsClasses(l: string)
    ensures IsLabel(Lower(l)) <==> IsLabel(l)
    ensures IsTopLabel(Lower(l)) <==> IsTopLabel(l)
  {
    forall i | 0 <= i < |l| ensures LowerChar(l[i]) == Lower(l)[i] {
      LowerCharKeepsClasses(l[i]);
    }
  }

  /** The recogniser ignores case, as the IGNORECASE flag demands. */
  lemma AcceptsIgnoresCase(s: string)
    ensures Accepts(Lower(s)) <==> Accepts(s)
  {
    var body := StripTrailingDot(s);
    assert StripTrailingDot(Lower(s)) == Lower(body);
    SplitLower(body);
    var parts := SplitDots(body);
    forall i | 0 <= i < |parts| ensures IsLabel(LowerAll(parts)[i]) <==> IsLabel(parts[i])
      ensures IsTopLabel(LowerAll(parts)[i]) <==> IsTopLabel(parts[i])
    {
      LowerKeepsClasses(parts[i]);
    }
  }

  lemma LowerIdempotent(s: string)
    ensures Lower(Lower(s)) == Lower(s)
  {
  }
}
