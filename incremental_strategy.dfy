/**
 * IncrementalVersionStrategy::process: "" becomes "1"; otherwise the version
 * is matched against `#^(.*\D?)(\d+)$#U` and its trailing number, read as an
 * integer and printed with `%d`, is incremented; a version the pattern does
 * not match is declined with "".
 *
 * The pattern is read with PCRE's defaults: `.` matches anything but a line
 * feed, `\d` is an ASCII digit, `$` also matches just before a line feed that
 * ends the subject, and the `U` flag makes every quantifier lazy, so the match
 * found first is the one with the shortest first group.
 *
 * A match is kept as two positions in the version: the first group is
 * `version[..start]`, the number `version[start..end]`, and what `$` leaves
 * unmatched is `version[end..]`.
 */
module IncrementalStrategy {
  import opened Outcomes

  predicate IsDigit(c: char) { '0' <= c <= '9' }

  predicate AllDigits(s: string) { forall i :: 0 <= i < |s| ==> IsDigit(s[i]) }

  /** No line feed anywhere (the language of `.*`). */
  predicate NoLineFeed(s: string) { forall i :: 0 <= i < |s| ==> s[i] != '\n' }

  /** The language of the first group `.*\D?`, written as the pattern reads. */
  predicate InLeadGroup(p: string)
  {
    NoLineFeed(p) || (p != [] && NoLineFeed(p[..|p| - 1]) && !IsDigit(p[|p| - 1]))
  }

  /** No line feed except possibly as the last character. */
  predicate LineFeedOnlyLast(p: string) { forall i :: 0 <= i < |p| - 1 ==> p[i] != '\n' }

  /** The first group's language is exactly the strings whose only line feed,
      if any, is the last character. */
  lemma LeadGroupIff(p: string)
    ensures InLeadGroup(p) <==> LineFeedOnlyLast(p)
  {
    if p != [] && InLeadGroup(p) && !NoLineFeed(p) {
      forall i | 0 <= i < |p| - 1 ensures p[i] != '\n' {
        assert p[i] == p[..|p| - 1][i];
      }
    }
    if LineFeedOnlyLast(p) && !NoLineFeed(p) {
      assert p[|p| - 1] == '\n';
      assert NoLineFeed(p[..|p| - 1]);
    }
  }

  /** `version[start..end]` is a match of the whole pattern: a first group in
      the language of LeadGroupIff, a non-empty digit run, then `$`. */
  predicate MatchesAt(version: string, start: nat, end: nat)
  {
    start < end <= |version|
    && (forall i :: 0 <= i < start - 1 ==> version[i] != '\n')
    && (forall i :: start <= i < end ==> IsDigit(version[i]))
    && (end == |version| || (end == |version| - 1 && version[end] == '\n'))
  }

  /** The same match, for a version given as its three parts. */
  predicate MatchesPattern(prefix: string, digits: string, tail: string)
  {
    LineFeedOnlyLast(prefix) && digits != [] && AllDigits(digits) && (tail == "" || tail == "\n")
  }

  function DigitValue(c: char): nat
    requires IsDigit(c)
  {
    c as int - '0' as int
  }

  function DigitChar(d: nat): (c: char)
    requires d < 10
    ensures IsDigit(c) && DigitValue(c) == d
  {
    ('0' as int + d) as char
  }

  /** `(int)` of the digits `s[lo..hi]`. */
  function ValueBetween(s: string, lo: nat, hi: nat): nat
    requires lo <= hi <= |s|
    requires forall i :: lo <= i < hi ==> IsDigit(s[i])
    decreases hi
  {
    if hi == lo then 0 else ValueBetween(s, lo, hi - 1) * 10 + DigitValue(s[hi - 1])
  }

  /** `(int)` of a string of decimal digits. */
  function DigitsValue(s: string): nat
    requires AllDigits(s)
  {
    ValueBetween(s, 0, |s|)
  }

  /** The value of a digit run does not depend on what surrounds it. */
  lemma {:induction false} ValueBetweenShift(a: string, d: string, b: string, k: nat)
    requires k <= |d| && AllDigits(d)
    ensures ValueBetween(a + d + b, |a|, |a| + k) == ValueBetween(d, 0, k)
  {
    if k > 0 {
      ValueBetweenShift(a, d, b, k - 1);
      assert (a + d + b)[|a| + k - 1] == d[k - 1];
    }
  }

  /** `sprintf('%d', n)`: decimal digits, no leading zero. */
  function Decimal(n: nat): (s: string)
    ensures s != [] && AllDigits(s) && DigitsValue(s) == n
    ensures s[0] == '0' ==> s == "0"
  {
    if n < 10 then
      var s := [DigitChar(n)];
      assert ValueBetween(s, 0, 1) == ValueBetween(s, 0, 0) * 10 + DigitValue(s[0]);
      s
    else
      var p := Decimal(n / 10);
      var c := DigitChar(n % 10);
      var s := p + [c];
      ValueBetweenShift([], p, [c], |p|);
      assert [] + p + [c] == s;
      assert ValueBetween(s, 0, |s|) == ValueBetween(s, 0, |p|) * 10 + DigitValue(c);
      s
  }

  /** Length of the maximal run of digits that ends just before index `end`. */
  function TrailingDigits(s: string, end: nat): (n: nat)
    requires end <= |s|
    ensures n <= end
    ensures forall i :: end - n <= i < end ==> IsDigit(s[i])
    ensures n < end ==> !IsDigit(s[end - n - 1])
  {
    if end == 0 || !IsDigit(s[end - 1]) then 0 else 1 + TrailingDigits(s, end - 1)
  }

  /** Where `$` matches: before a line feed that ends the subject, else at the end. */
  function EndOfBody(version: string): (end: nat)
    ensures end <= |version|
  {
    if version != [] && version[|version| - 1] == '\n' then |version| - 1 else |version|
  }

  /** The two groups of a match, as positions in the version. */
  datatype VersionMatch = VersionMatch(start: nat, end: nat)

  /** `preg_match` of the pattern: the first match the lazy engine finds. */
  function ParseVersion(version: string): (r: Option<VersionMatch>)
    ensures r.Some? ==> MatchesAt(version, r.value.start, r.value.end)
    ensures r.Some? ==> r.value.start == 0 || !IsDigit(version[r.value.start - 1])
  {
    var end := EndOfBody(version);
    var start := end - TrailingDigits(version, end);
    if start < end && forall i :: 0 <= i < start - 1 ==> version[i] != '\n' then
      Some(VersionMatch(start, end))
    else None
  }

  /** The string a match is replaced by: its first group and the number
      plus one. */
  function Proposal(version: string, start: nat, end: nat): string
    requires MatchesAt(version, start, end)
  {
    version[..start] + Decimal(ValueBetween(version, start, end) + 1)
  }

  /** IncrementalVersionStrategy::process. */
  function Process(currentVersion: string): string
  {
    if currentVersion == "" then "1"
    else match ParseVersion(currentVersion)
      case None => ""
      case Some(m) => Proposal(currentVersion, m.start, m.end)
  }

  // ---------------------------------------------------------------------------
  // Properties.

  lemma {:induction false} TrailingDigitsAtLeast(s: string, end: nat, k: nat)
    requires k <= end <= |s|
    requires forall i :: end - k <= i < end ==> IsDigit(s[i])
    ensures TrailingDigits(s, end) >= k
  {
    if k > 0 {
      TrailingDigitsAtLeast(s, end - 1, k - 1);
    }
  }

  /** A match whose first group does not end in a digit is exactly the match
      preg_match finds. */
  lemma ParseVersionAt(version: string, start: nat, end: nat)
    requires MatchesAt(version, start, end)
    requires start == 0 || !IsDigit(version[start - 1])
    ensures ParseVersion(version) == Some(VersionMatch(start, end))
  {
    assert EndOfBody(version) == end by {
      assert IsDigit(version[end - 1]);
    }
    TrailingDigitsAtLeast(version, end, end - start);
  }

  /** The lazy engine finds the match with the shortest first group: whenever
      the version has a match, preg_match succeeds, its digit run ends where
      that match's does, and its first group is no longer. */
  lemma ParseVersionShortestPrefix(version: string, start: nat, end: nat)
    requires MatchesAt(version, start, end)
    ensures ParseVersion(version).Some?
    ensures ParseVersion(version).value.start <= start
    ensures ParseVersion(version).value.end == end
  {
    assert EndOfBody(version) == end by {
      assert IsDigit(version[end - 1]);
    }
    TrailingDigitsAtLeast(version, end, end - start);
  }

  /** A version split as `prefix + digits + tail` matches where the split says. */
  lemma MatchesAtSplit(prefix: string, digits: string, tail: string)
    requires MatchesPattern(prefix, digits, tail)
    ensures var v := prefix + digits + tail;
            MatchesAt(v, |prefix|, |prefix| + |digits|)
            && (prefix == [] || !IsDigit(prefix[|prefix| - 1]) ==>
                  |prefix| == 0 || !IsDigit(v[|prefix| - 1]))
  {
    var v := prefix + digits + tail;
    forall i | 0 <= i < |prefix| - 1 ensures v[i] != '\n' {
      assert v[i] == prefix[i];
    }
    forall i | |prefix| <= i < |prefix| + |digits| ensures IsDigit(v[i]) {
      assert v[i] == digits[i - |prefix|];
    }
    if prefix != [] {
      assert v[|prefix| - 1] == prefix[|prefix| - 1];
    }
    if tail != "" {
      assert v[|prefix| + |digits|] == '\n';
    }
  }

  /** For a match, the result keeps the first group and prints the number
      plus one; what `$` left unmatched is dropped. */
  lemma IncrementAt(version: string, start: nat, end: nat)
    requires MatchesAt(version, start, end)
    requires start == 0 || !IsDigit(version[start - 1])
    ensures Process(version) == Proposal(version, start, end)
  {
    ParseVersionAt(version, start, end);
    assert version != "" by { assert |version| >= end; }
  }

  /** The proposal for a version given as `prefix + digits + tail`. */
  lemma ProposalOfSplit(prefix: string, digits: string, tail: string)
    requires MatchesPattern(prefix, digits, tail)
    ensures MatchesAt(prefix + digits + tail, |prefix|, |prefix| + |digits|)
    ensures Proposal(prefix + digits + tail, |prefix|, |prefix| + |digits|)
              == prefix + Decimal(DigitsValue(digits) + 1)
  {
    var v := prefix + digits + tail;
    MatchesAtSplit(prefix, digits, tail);
    ValueBetweenShift(prefix, digits, tail, |digits|);
    assert v[..|prefix|] == prefix;
  }

  /** The same for a version given as `prefix + digits + tail`, with `digits`
      the maximal trailing run. */
  lemma IncrementOf(prefix: string, digits: string, tail: string)
    requires MatchesPattern(prefix, digits, tail)
    requires prefix == [] || !IsDigit(prefix[|prefix| - 1])
    ensures Process(prefix + digits + tail) == prefix + Decimal(DigitsValue(digits) + 1)
  {
    var v := prefix + digits + tail;
    MatchesAtSplit(prefix, digits, tail);
    ProposalOfSplit(prefix, digits, tail);
    IncrementAt(v, |prefix|, |prefix| + |digits|);
  }

  /** Process declines only what the pattern cannot match: any match makes it
      propose a version. */
  lemma DeclinesOnlyWithoutMatch(version: string, start: nat, end: nat)
    requires MatchesAt(version, start, end)
    ensures Process(version) != ""
  {
    ParseVersionShortestPrefix(version, start, end);
    assert version != "" by { assert |version| >= end; }
  }

  /** Process declines exactly the non-empty versions the pattern cannot
      match anywhere. */
  lemma DeclinesIff(version: string)
    ensures Process(version) == "" <==>
              version != "" && !exists start: nat, end: nat :: MatchesAt(version, start, end)
  {
    if exists start: nat, end: nat :: MatchesAt(version, start, end) {
      var start: nat, end: nat :| MatchesAt(version, start, end);
      DeclinesOnlyWithoutMatch(version, start, end);
    }
  }

  /** A version whose last character (before a final line feed) is not a
      digit is declined. */
  lemma DeclinesWithoutTrailingDigit(version: string)
    requires version != ""
    requires var body := if version[|version| - 1] == '\n' then version[..|version| - 1] else version;
             body == [] || !IsDigit(body[|body| - 1])
    ensures Process(version) == ""
  {
    var end := EndOfBody(version);
    assert end == 0 || !IsDigit(version[end - 1]);
  }

  predicate AllZeros(z: string) { forall i :: 0 <= i < |z| ==> z[i] == '0' }

  lemma {:induction false} ZeroRunValue(s: string, k: nat)
    requires k <= |s| && forall i :: 0 <= i < k ==> s[i] == '0'
    ensures ValueBetween(s, 0, k) == 0
  {
    if k > 0 {
      ZeroRunValue(s, k - 1);
    }
  }

  lemma {:induction false} ZerosThenDigits(z: string, d: string, k: nat)
    requires AllZeros(z) && AllDigits(d) && k <= |d|
    ensures AllDigits(z + d)
    ensures ValueBetween(z + d, 0, |z| + k) == ValueBetween(d, 0, k)
  {
    var s := z + d;
    assert forall i :: 0 <= i < |s| ==> IsDigit(s[i]) by {
      forall i | 0 <= i < |s| ensures IsDigit(s[i]) {
        if i < |z| { assert s[i] == z[i]; } else { assert s[i] == d[i - |z|]; }
      }
    }
    if k == 0 {
      forall i | 0 <= i < |z| ensures s[i] == '0' { assert s[i] == z[i]; }
      ZeroRunValue(s, |z|);
    } else {
      ZerosThenDigits(z, d, k - 1);
      assert s[|z| + k - 1] == d[k - 1];
    }
  }

  /** The increment is numeric, not textual: zeros leading the digit run
      make no difference to the result ("v09" and "v9" both give "v10"). */
  lemma LeadingZerosDropped(prefix: string, zeros: string, digits: string, tail: string)
    requires MatchesPattern(prefix, digits, tail) && AllZeros(zeros)
    requires prefix == [] || !IsDigit(prefix[|prefix| - 1])
    ensures Process(prefix + (zeros + digits) + tail) == Process(prefix + digits + tail)
  {
    var padded := zeros + digits;
    ZerosThenDigits(zeros, digits, |digits|);
    assert MatchesPattern(prefix, padded, tail);
    var x := Process(prefix + padded + tail);
    var y := Process(prefix + digits + tail);
    IncrementOf(prefix, padded, tail);
    assert x == prefix + Decimal(DigitsValue(padded) + 1);
    IncrementOf(prefix, digits, tail);
    assert y == prefix + Decimal(DigitsValue(digits) + 1);
  }

  /** A line feed ending the version changes nothing but is not kept:
      "v1\n" gets the same proposal as "v1". */
  lemma FinalLineFeedDropped(prefix: string, digits: string)
    requires MatchesPattern(prefix, digits, "")
    requires prefix == [] || !IsDigit(prefix[|prefix| - 1])
    ensures Process(prefix + digits + "\n") == Process(prefix + digits + "")
  {
    var x := Process(prefix + digits + "\n");
    var y := Process(prefix + digits + "");
    IncrementOf(prefix, digits, "\n");
    assert x == prefix + Decimal(DigitsValue(digits) + 1);
    IncrementOf(prefix, digits, "");
    assert y == prefix + Decimal(DigitsValue(digits) + 1);
  }

  /** A proposal is matched again as the whole of itself, with the same
      first group, and holds the number plus one. */
  lemma ProposalMatches(version: string, start: nat, end: nat)
    requires MatchesAt(version, start, end)
    requires start == 0 || !IsDigit(version[start - 1])
    ensures var r := Proposal(version, start, end);
            ParseVersion(r) == Some(VersionMatch(start, |r|))
            && ValueBetween(r, start, |r|) == ValueBetween(version, start, end) + 1
  {
    var r := Proposal(version, start, end);
    ProposalIsMatch(version, start, end);
    ParseVersionAt(r, start, |r|);
  }

  /** The proposal, as a whole, is a match whose first group is the old one
      and whose number is the old number plus one. */
  lemma ProposalIsMatch(version: string, start: nat, end: nat)
    requires MatchesAt(version, start, end)
    requires start == 0 || !IsDigit(version[start - 1])
    ensures var r := Proposal(version, start, end);
            MatchesAt(r, start, |r|) && (start == 0 || !IsDigit(r[start - 1]))
            && ValueBetween(r, start, |r|) == ValueBetween(version, start, end) + 1
  {
    var next := Decimal(ValueBetween(version, start, end) + 1);
    var r := version[..start] + next;
    assert r == Proposal(version, start, end);
    forall i | 0 <= i < start - 1 ensures r[i] != '\n' {
      assert r[i] == version[i];
    }
    forall i | start <= i < |r| ensures IsDigit(r[i]) {
      assert r[i] == next[i - start];
    }
    if start > 0 {
      assert r[start - 1] == version[start - 1];
    }
    assert version[..start] + next + "" == r;
    ValueBetweenShift(version[..start], next, "", |next|);
  }

  /** A proposal differs from the version it was made from. */
  lemma ProposalDiffers(version: string, start: nat, end: nat)
    requires MatchesAt(version, start, end)
    ensures Proposal(version, start, end) != version
  {
    var r := Proposal(version, start, end);
    var next := Decimal(ValueBetween(version, start, end) + 1);
    assert r[start..] == next;
    if end == |version| {
      var digits := version[start..];
      ValueBetweenShift(version[..start], digits, "", |digits|);
      assert version[..start] + digits + "" == version;
      assert DigitsValue(digits) != DigitsValue(next);
      assert r[start..] != version[start..];
    } else {
      assert r[|r| - 1] == next[|next| - 1];
      assert version[|version| - 1] == '\n';
    }
  }

  /** The proposal for the empty version, "1", is matched as a whole. */
  lemma EmptyVersionGivesOne()
    ensures Process("") == "1"
    ensures ParseVersion("1") == Some(VersionMatch(0, 1)) && ValueBetween("1", 0, 1) == 1
  {
    ParseVersionAt("1", 0, 1);
  }

  /** A proposed version differs from the current one and ends in a digit, so
      the strategy never declines its own output. */
  lemma ProposalShape(version: string)
    requires Process(version) != ""
    ensures var r := Process(version);
            r != version && IsDigit(r[|r| - 1]) && Process(r) != ""
  {
    var r := Process(version);
    if version == "" {
      EmptyVersionGivesOne();
      DeclinesOnlyWithoutMatch(r, 0, 1);
    } else {
      var m := ParseVersion(version).value;
      IncrementAt(version, m.start, m.end);
      ProposalMatches(version, m.start, m.end);
      ProposalDiffers(version, m.start, m.end);
      DeclinesOnlyWithoutMatch(r, m.start, |r|);
    }
  }

  // Worked cases of the strategy.

  /** `(int)` of a single digit is that digit's value. */
  lemma OneDigitValue(c: char)
    requires IsDigit(c)
    ensures DigitsValue([c]) == DigitValue(c)
  {
    assert ValueBetween([c], 0, 1) == ValueBetween([c], 0, 0) * 10 + DigitValue(c);
  }

  /** `%d` of 2 is "2". */
  lemma TwoDecimal()
    ensures Decimal(2) == "2"
  {
  }

  /** `%d` of 10 is "10". */
  lemma TenDecimal()
    ensures Decimal(10) == "10"
  {
    assert Decimal(1) == "1";
  }

  /** A version ending in the number 1 gets 2. */
  lemma IncrementOne(prefix: string, tail: string)
    requires LineFeedOnlyLast(prefix) && (prefix == [] || !IsDigit(prefix[|prefix| - 1]))
    requires tail == "" || tail == "\n"
    ensures Process(prefix + "1" + tail) == prefix + "2"
  {
    OneDigitValue('1');
    TwoDecimal();
    IncrementOf(prefix, "1", tail);
  }

  /** A version ending in the number 9 gets 10: the number grows a digit. */
  lemma IncrementNine(prefix: string, tail: string)
    requires LineFeedOnlyLast(prefix) && (prefix == [] || !IsDigit(prefix[|prefix| - 1]))
    requires tail == "" || tail == "\n"
    ensures Process(prefix + "9" + tail) == prefix + "10"
  {
    OneDigitValue('9');
    TenDecimal();
    IncrementOf(prefix, "9", tail);
  }

  /** "v1" becomes "v2". */
  lemma ExampleSimple()
    ensures Process("v1") == "v2"
  {
    var prefix := "v";
    assert prefix + "1" + "" == "v1";
    IncrementOne(prefix, "");
  }

  /** "v9" becomes "v10". */
  lemma ExampleCarry()
    ensures Process("v9") == "v10"
  {
    var prefix := "v";
    assert prefix + "9" + "" == "v9";
    IncrementNine(prefix, "");
  }

  /** "v09" becomes "v10" as well: the padding is not kept. */
  lemma ExamplePadded()
    ensures Process("v09") == "v10"
  {
    var prefix, zeros, digits := "v", "0", "9";
    assert prefix + (zeros + digits) + "" == "v09";
    assert prefix + digits + "" == "v9";
    LeadingZerosDropped(prefix, zeros, digits, "");
    ExampleCarry();
  }

  /** "v0.9" becomes "v0.10": only the last number is incremented. */
  lemma ExampleDotted()
    ensures Process("v0.9") == "v0.10"
  {
    var prefix := "v0.";
    assert prefix + "9" + "" == "v0.9";
    IncrementNine(prefix, "");
  }

  /** "release-9" becomes "release-10". */
  lemma ExampleReleaseCarry()
    ensures Process("release-9") == "release-10"
  {
    var prefix := "release-";
    assert prefix + "9" + "" == "release-9";
    IncrementNine(prefix, "");
  }

  /** "release-009" becomes "release-10": the run "009" is read as the
      integer 9 and 10 is printed without padding. */
  lemma ExampleRelease()
    ensures Process("release-009") == "release-10"
  {
    var prefix, zeros, digits := "release-", "00", "9";
    assert prefix + (zeros + digits) + "" == "release-009";
    assert prefix + digits + "" == "release-9";
    LeadingZerosDropped(prefix, zeros, digits, "");
    ExampleReleaseCarry();
  }

  /** "v1\n" becomes "v2": the line feed `$` skipped is not kept. */
  lemma ExampleFinalLineFeed()
    ensures Process("v1\n") == "v2"
  {
    var prefix := "v";
    assert prefix + "1" + "\n" == "v1\n";
    IncrementOne(prefix, "\n");
  }

  /** "no-digits" is declined. */
  lemma ExampleDeclined()
    ensures Process("no-digits") == ""
  {
    DeclinesWithoutTrailingDigit("no-digits");
  }

  /** "a\nb1" is declined although it ends in a digit: `.` stops at the line feed. */
  lemma ExampleInnerLineFeed()
    ensures Process("a\nb1") == ""
  {
    var v := "a\nb1";
    assert EndOfBody(v) == 4;
    assert TrailingDigits(v, 4) == 1 by { assert !IsDigit(v[2]); }
    assert v[1] == '\n';
  }

  /** "a", line feed, "1" becomes "a", line feed, "2": `\D?` takes a line feed
      directly in front of the number. */
  lemma ExampleLineFeedBeforeDigits()
    ensures Process("a\n1") == "a\n2"
  {
    var prefix := "a\n";
    assert prefix + "1" + "" == "a\n1";
    IncrementOne(prefix, "");
  }
}
