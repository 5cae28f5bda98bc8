/** The Python string operations the bot relies on, over `seq<char>`:
    `str.strip()`, the `in` operator, `str.replace`, `str.split(sep, n)`,
    `str(int)` and `str.isdigit()` on ASCII digits. */
module Text {
  import opened Wrappers

  /** The characters for which Python's `str.isspace()` holds. */
  const Whitespace: string := " \U{9}\U{A}\U{B}\U{C}\U{D}\U{1C}\U{1D}\U{1E}\U{1F}\U{85}\U{A0}\U{1680}"
    + "\U{2000}\U{2001}\U{2002}\U{2003}\U{2004}\U{2005}\U{2006}\U{2007}\U{2008}\U{2009}\U{200A}"
    + "\U{2028}\U{2029}\U{202F}\U{205F}\U{3000}"

  predicate OneOf(c: char, cs: string) {
    |cs| > 0 && (c == cs[0] || OneOf(c, cs[1..]))
  }

  /** Python's `str.isspace()` on one character: the characters
      `str.strip()` removes. */
  predicate IsSpace(c: char) {
    OneOf(c, Whitespace)
  }

  lemma {:induction false} OneOfIff(c: char, cs: string)
    ensures OneOf(c, cs) <==> c in cs
  {
    if |cs| > 0 {
      OneOfIff(c, cs[1..]);
      assert cs == [cs[0]] + cs[1..];
    }
  }

  /** No printable ASCII character is whitespace. */
  lemma PrintableNotSpace(c: char)
    requires '!' <= c <= '~'
    ensures !IsSpace(c)
  {
    OneOfIff(c, Whitespace);
    forall i | 0 <= i < |Whitespace| ensures Whitespace[i] != c {
    }
  }

  /** A string that starts and ends with printable ASCII is stripped. */
  lemma PrintableEnds(s: string)
    requires |s| > 0 && '!' <= s[0] <= '~' && '!' <= s[|s| - 1] <= '~'
    ensures IsStripped(s)
  {
    PrintableNotSpace(s[0]);
    PrintableNotSpace(s[|s| - 1]);
  }

  /** Neither end of `s` is whitespace. */
  predicate IsStripped(s: string) {
    |s| == 0 || (!IsSpace(s[0]) && !IsSpace(s[|s| - 1]))
  }

  /** The index of the first non-whitespace character at or after `i`,
      or `|s|`. */
  function SkipSpaces(s: string, i: nat): (k: nat)
    requires i <= |s|
    ensures i <= k <= |s|
    ensures forall j :: i <= j < k ==> IsSpace(s[j])
    ensures k < |s| ==> !IsSpace(s[k])
    decreases |s| - i
  {
    if i < |s| && IsSpace(s[i]) then SkipSpaces(s, i + 1) else i
  }

  /** The end of `s[lo..hi]` once its trailing whitespace is dropped. */
  function TrimEnd(s: string, lo: nat, hi: nat): (k: nat)
    requires lo <= hi <= |s|
    ensures lo <= k <= hi
    ensures forall j :: k <= j < hi ==> IsSpace(s[j])
    ensures k > lo ==> !IsSpace(s[k - 1])
  {
    if hi > lo && IsSpace(s[hi - 1]) then TrimEnd(s, lo, hi - 1) else hi
  }

  /** Python's `str.strip()` with no argument: the longest infix of `s`
      whose removed prefix and suffix are all whitespace. */
  function Strip(s: string): (r: string)
    ensures IsStripped(r)
    ensures exists a :: StrippedFrom(s, r, a)
  {
    var a := SkipSpaces(s, 0);
    var b := TrimEnd(s, a, |s|);
    assert StrippedFrom(s, s[a..b], a);
    s[a..b]
  }

  /** `r` is `s[a..a + |r|]` and everything around it in `s` is whitespace. */
  predicate StrippedFrom(s: string, r: string, a: int) {
    0 <= a && a + |r| <= |s| && r == s[a..a + |r|]
    && (forall i :: 0 <= i < a ==> IsSpace(s[i]))
    && (forall i :: a + |r| <= i < |s| ==> IsSpace(s[i]))
  }

  lemma StripOfStripped(s: string)
    requires IsStripped(s)
    ensures Strip(s) == s
  {
  }

  predicate StartsWith(s: string, p: string) {
    |p| <= |s| && s[..|p|] == p
  }

  predicate EndsWith(s: string, p: string) {
    |p| <= |s| && s[|s| - |p|..] == p
  }

  /** `p` occurs in `s` starting at index `i`. */
  predicate OccursAt(s: string, p: string, i: int) {
    0 <= i && i + |p| <= |s| && s[i..i + |p|] == p
  }

  /** Python's `p in s` on strings. */
  predicate Contains(s: string, p: string)
    decreases |s|
  {
    StartsWith(s, p) || (|s| > 0 && Contains(s[1..], p))
  }

  lemma {:induction false} ContainsIff(s: string, p: string)
    ensures Contains(s, p) <==> exists i :: OccursAt(s, p, i)
    decreases |s|
  {
    if Contains(s, p) {
      if StartsWith(s, p) {
        assert OccursAt(s, p, 0);
      } else {
        ContainsIff(s[1..], p);
        var i :| OccursAt(s[1..], p, i);
        assert s[1..][i..i + |p|] == s[i + 1..i + 1 + |p|];
        assert OccursAt(s, p, i + 1);
      }
    }
    if exists i :: OccursAt(s, p, i) {
      var i :| OccursAt(s, p, i);
      if i > 0 {
        assert s[1..][i - 1..i - 1 + |p|] == s[i..i + |p|];
        assert OccursAt(s[1..], p, i - 1);
        ContainsIff(s[1..], p);
      }
    }
  }

  lemma ContainsInRight(a: string, b: string, p: string)
    requires Contains(b, p)
    ensures Contains(a + b, p)
  {
    ContainsIff(b, p);
    var i :| OccursAt(b, p, i);
    assert (a + b)[|a| + i..|a| + i + |p|] == b[i..i + |p|];
    assert OccursAt(a + b, p, |a| + i);
    ContainsIff(a + b, p);
  }

  /** An occurrence of `p + q` is an occurrence of `p`. */
  lemma ContainsPrefixOf(s: string, p: string, q: string)
    requires Contains(s, p + q)
    ensures Contains(s, p)
  {
    ContainsIff(s, p + q);
    var i :| OccursAt(s, p + q, i);
    assert s[i..i + |p|] == s[i..i + |p + q|][..|p|];
    assert OccursAt(s, p, i);
    ContainsIff(s, p);
  }

  /** Every character of an occurring `p` is a character of `s`. */
  lemma ContainsChars(s: string, p: string)
    requires Contains(s, p)
    ensures forall k :: 0 <= k < |p| ==> p[k] in s
  {
    ContainsIff(s, p);
    var i :| OccursAt(s, p, i);
    forall k | 0 <= k < |p|
      ensures p[k] in s
    {
      assert s[i..i + |p|][k] == s[i + k];
    }
  }

  /** `p` cannot occur in a string lacking one of its characters. */
  lemma MissingCharAbsent(s: string, p: string, k: nat)
    requires k < |p| && p[k] !in s
    ensures !Contains(s, p)
  {
    if Contains(s, p) {
      ContainsChars(s, p);
    }
  }

  /** The `k`-th character of an occurrence at `i` is `s[i + k]`. */
  lemma OccurrenceAt(s: string, p: string, i: int, k: int)
    ensures OccursAt(s, p, i) && 0 <= k < |p| ==> p[k] == s[i + k]
  {
    if OccursAt(s, p, i) && 0 <= k < |p| {
      assert s[i..i + |p|][k] == s[i + k];
    }
  }

  /** An occurrence of a `c`-free pattern in `a + [c] + b` lies in `a` or
      in `b`. */
  lemma ContainsAcross(a: string, c: char, b: string, p: string)
    requires c !in p && Contains(a + [c] + b, p)
    ensures Contains(a, p) || Contains(b, p)
  {
    var s := a + [c] + b;
    ContainsIff(s, p);
    var i :| OccursAt(s, p, i);
    if i + |p| <= |a| {
      assert a[i..i + |p|] == s[i..i + |p|];
      assert OccursAt(a, p, i);
      ContainsIff(a, p);
    } else if i > |a| {
      var j := i - |a| - 1;
      assert s[|a| + 1..] == b;
      assert s[|a| + 1..][j..j + |p|] == s[i..i + |p|];
      assert OccursAt(b, p, j);
      ContainsIff(b, p);
    } else {
      OccurrenceAt(s, p, i, |a| - i);
      assert false;
    }
  }

  /** Regrouping a string that is itself a concatenation. */
  lemma ConcatSplit(x: string, y: string, z: string, w: string)
    requires x == y + z
    ensures x + w == y + z + w && x + w == y + (z + w)
  {
  }

  /** `p` occurs in `a + p + b`. */
  lemma ContainsMiddle(a: string, p: string, b: string)
    ensures Contains(a + p + b, p)
  {
    assert StartsWith(p + b, p);
    ContainsInRight(a, p + b, p);
    assert a + p + b == a + (p + b);
  }

  /** An occurrence of `p + q` contains an occurrence of `q`. */
  lemma ContainsSuffixOf(s: string, p: string, q: string)
    requires Contains(s, p + q)
    ensures Contains(s, q)
  {
    ContainsIff(s, p + q);
    var i :| OccursAt(s, p + q, i);
    assert s[i + |p|..i + |p| + |q|] == s[i..i + |p + q|][|p|..];
    assert OccursAt(s, q, i + |p|);
    ContainsIff(s, q);
  }

  /** No occurrence of `p` can start inside a prefix lacking `p[0]`. */
  lemma ContainsAfter(a: string, b: string, p: string)
    requires |p| > 0 && p[0] !in a && Contains(a + b, p)
    ensures Contains(b, p)
  {
    var s := a + b;
    ContainsIff(s, p);
    var i :| OccursAt(s, p, i);
    if i < |a| {
      OccurrenceAt(s, p, i, 0);
      assert false;
    }
    assert s[|a|..] == b;
    assert s[|a|..][i - |a|..i - |a| + |p|] == s[i..i + |p|];
    assert OccursAt(b, p, i - |a|);
    ContainsIff(b, p);
  }

  /** A `/`-free pattern absent from the path and missing a character of
      the part before the `/` is absent from the whole. */
  lemma AbsentAcrossSlash(pre: string, path: string, p: string, k: nat)
    requires '/' !in p && k < |p| && p[k] !in pre && !Contains(path, p)
    ensures !Contains(pre + ['/'] + path, p)
  {
    MissingCharAbsent(pre, p, k);
    if Contains(pre + ['/'] + path, p) {
      ContainsAcross(pre, '/', path, p);
    }
  }

  /** Python's `s.replace(pat, rep)`: every non-overlapping occurrence of
      `pat`, scanning left to right, is replaced by `rep`. */
  function ReplaceAll(s: string, pat: string, rep: string): string
    requires |pat| > 0
    decreases |s|
  {
    if |s| < |pat| then s
    else if s[..|pat|] == pat then rep + ReplaceAll(s[|pat|..], pat, rep)
    else [s[0]] + ReplaceAll(s[1..], pat, rep)
  }

  lemma {:induction false} ReplaceAbsent(s: string, pat: string, rep: string)
    requires |pat| > 0 && !Contains(s, pat)
    ensures ReplaceAll(s, pat, rep) == s
    decreases |s|
  {
    if |s| >= |pat| {
      assert !StartsWith(s, pat);
      ReplaceAbsent(s[1..], pat, rep);
      assert [s[0]] + s[1..] == s;
    }
  }

  /** No occurrence of `pat` in `s` starts before index `n`. */
  predicate NoStartBefore(s: string, pat: string, n: int) {
    forall i :: 0 <= i < n ==> !OccursAt(s, pat, i)
  }

  /** A witness character: if `pat[k]` is missing from `s[k..n + k]`, no
      occurrence of `pat` starts before `n`. */
  lemma NoStartBeforeByChar(s: string, pat: string, n: nat, k: nat)
    requires k < |pat| && n + k <= |s| && pat[k] !in s[k..n + k]
    ensures NoStartBefore(s, pat, n)
  {
  }

  lemma NoStartShift(s: string, pat: string, n: int)
    requires 0 < |s| && NoStartBefore(s, pat, n)
    ensures NoStartBefore(s[1..], pat, n - 1)
  {
    forall i | 0 <= i < n - 1
      ensures !OccursAt(s[1..], pat, i)
    {
      if OccursAt(s[1..], pat, i) {
        assert s[1..][i..i + |pat|] == s[i + 1..i + 1 + |pat|];
        assert OccursAt(s, pat, i + 1);
      }
    }
  }

  /** A prefix `a` in which no occurrence of `pat` starts is copied. */
  lemma {:induction false} ReplaceSkip(a: string, b: string, pat: string, rep: string)
    requires |pat| > 0 && NoStartBefore(a + b, pat, |a|)
    ensures ReplaceAll(a + b, pat, rep) == a + ReplaceAll(b, pat, rep)
    decreases |a|
  {
    if a != [] {
      var s := a + b;
      ReplaceNoStart(s, pat, rep);
      NoStartShift(s, pat, |a|);
      assert s[1..] == a[1..] + b;
      ReplaceSkip(a[1..], b, pat, rep);
      assert s[0] == a[0];
      assert [a[0]] + (a[1..] + ReplaceAll(b, pat, rep)) == a + ReplaceAll(b, pat, rep);
    } else {
      assert a + b == b;
    }
  }

  /** Where no occurrence starts at the front, the first character is kept. */
  lemma ReplaceNoStart(s: string, pat: string, rep: string)
    requires |pat| > 0 && 0 < |s| && !OccursAt(s, pat, 0)
    ensures ReplaceAll(s, pat, rep) == [s[0]] + ReplaceAll(s[1..], pat, rep)
  {
  }

  /** When the first character of `pat` does not occur in `a`, the
      occurrence right after `a` is the only one replaced. */
  lemma ReplaceAfter(a: string, pat: string, b: string, rep: string)
    requires |pat| > 0 && pat[0] !in a && !Contains(b, pat)
    ensures ReplaceAll(a + pat + b, pat, rep) == a + rep + b
  {
    var s := a + pat + b;
    assert s[0..|a|] == a;
    NoStartBeforeByChar(s, pat, |a|, 0);
    ReplaceOnce(a, pat, b, rep);
  }

  /** Replacing the one occurrence of `pat` in `a + pat + b`, when none
      starts inside `a` and none occurs in `b`. */
  lemma ReplaceOnce(a: string, pat: string, b: string, rep: string)
    requires |pat| > 0 && NoStartBefore(a + pat + b, pat, |a|) && !Contains(b, pat)
    ensures ReplaceAll(a + pat + b, pat, rep) == a + rep + b
  {
    assert a + pat + b == a + (pat + b);
    ReplaceSkip(a, pat + b, pat, rep);
    assert (pat + b)[..|pat|] == pat && (pat + b)[|pat|..] == b;
    ReplaceAbsent(b, pat, rep);
  }

  lemma {:induction false} ReplaceIntroduces(s: string, pat: string, rep: string)
    requires |pat| > 0 && Contains(s, pat)
    ensures Contains(ReplaceAll(s, pat, rep), rep)
    decreases |s|
  {
    if |s| < |pat| {
      ContainsIff(s, pat);
    } else if s[..|pat|] == pat {
      assert StartsWith(rep + ReplaceAll(s[|pat|..], pat, rep), rep);
    } else {
      ReplaceIntroduces(s[1..], pat, rep);
      ContainsInRight([s[0]], ReplaceAll(s[1..], pat, rep), rep);
    }
  }

  /** Replacing by something no longer never lengthens, and strictly
      shortens when an occurrence exists and `rep` is shorter. */
  lemma {:induction false} ReplaceLength(s: string, pat: string, rep: string)
    requires 0 < |pat| && |rep| <= |pat|
    ensures |ReplaceAll(s, pat, rep)| <= |s|
    ensures Contains(s, pat) && |rep| < |pat| ==> |ReplaceAll(s, pat, rep)| < |s|
    decreases |s|
  {
    if |s| < |pat| {
      ContainsIff(s, pat);
    } else if s[..|pat|] == pat {
      ReplaceLength(s[|pat|..], pat, rep);
    } else {
      ReplaceLength(s[1..], pat, rep);
    }
  }

  /** The first and last characters of a replacement come from `s` or `rep`. */
  lemma {:induction false} ReplaceEnds(s: string, pat: string, rep: string)
    requires 0 < |pat| && 0 < |rep| && 0 < |s|
    ensures var r := ReplaceAll(s, pat, rep);
      && 0 < |r|
      && (r[0] == s[0] || r[0] == rep[0])
      && (r[|r| - 1] == s[|s| - 1] || r[|r| - 1] == rep[|rep| - 1])
    decreases |s|
  {
    if |s| < |pat| {
    } else if s[..|pat|] == pat {
      var rest := s[|pat|..];
      ReplaceAtStart(s, pat, rep);
      if |rest| > 0 {
        ReplaceEnds(rest, pat, rep);
        EndsOfAppend(rep, ReplaceAll(rest, pat, rep));
      } else {
        assert ReplaceAll(rest, pat, rep) == [];
        assert rep + [] == rep;
      }
    } else {
      var rest := s[1..];
      assert !OccursAt(s, pat, 0);
      ReplaceNoStart(s, pat, rep);
      if |rest| > 0 {
        ReplaceEnds(rest, pat, rep);
        EndsOfAppend([s[0]], ReplaceAll(rest, pat, rep));
      } else {
        assert ReplaceAll(rest, pat, rep) == [];
        assert [s[0]] + [] == [s[0]];
      }
    }
  }

  lemma ReplaceAtStart(s: string, pat: string, rep: string)
    requires 0 < |pat| <= |s| && s[..|pat|] == pat
    ensures ReplaceAll(s, pat, rep) == rep + ReplaceAll(s[|pat|..], pat, rep)
  {
  }

  lemma EndsOfAppend(a: string, b: string)
    requires 0 < |a| && 0 < |b|
    ensures (a + b)[0] == a[0] && (a + b)[|a + b| - 1] == b[|b| - 1]
  {
  }

  lemma ReplaceKeepsStripped(s: string, pat: string, rep: string)
    requires 0 < |pat| && 0 < |rep| && IsStripped(s)
    requires !IsSpace(rep[0]) && !IsSpace(rep[|rep| - 1])
    ensures IsStripped(ReplaceAll(s, pat, rep))
  {
    if |s| > 0 {
      ReplaceEnds(s, pat, rep);
    }
  }

  predicate IsDigit(c: char) {
    '0' <= c <= '9'
  }

  predicate AllDigits(s: string) {
    forall i :: 0 <= i < |s| ==> IsDigit(s[i])
  }

  function DigitChar(d: nat): (c: char)
    requires d < 10
    ensures IsDigit(c) && c as int - '0' as int == d
  {
    ('0' as int + d) as char
  }

  /** The value of a string of decimal digits (`int(s)` on such strings). */
  function DigitsToNat(s: string): nat
    requires AllDigits(s)
  {
    if s == [] then 0
    else DigitsToNat(s[..|s| - 1]) * 10 + (s[|s| - 1] as int - '0' as int)
  }

  /** Python's `str(n)` for a non-negative integer: its decimal digits,
      without leading zeros, which read back as `n`. */
  function NatToString(n: nat): (r: string)
    ensures 0 < |r| && AllDigits(r)
    ensures DigitsToNat(r) == n
    ensures r[0] == '0' ==> n == 0
  {
    if n < 10 then [DigitChar(n)]
    else
      var r := NatToString(n / 10) + [DigitChar(n % 10)];
      assert r[..|r| - 1] == NatToString(n / 10);
      r
  }

  /** Distinct numbers print differently. */
  lemma NatToStringInjective(a: nat, b: nat)
    ensures NatToString(a) == NatToString(b) ==> a == b
  {
  }

  /** `[c for c in s if c.isdigit()]`, joined (ASCII digits). */
  function KeepDigits(s: string): (r: string)
    ensures AllDigits(r) && |r| <= |s|
  {
    if s == [] then []
    else (if IsDigit(s[0]) then [s[0]] else []) + KeepDigits(s[1..])
  }

  lemma {:induction false} KeepDigitsOfDigits(s: string)
    requires AllDigits(s)
    ensures KeepDigits(s) == s
  {
    if s != [] {
      KeepDigitsOfDigits(s[1..]);
    }
  }

  lemma {:induction false} KeepDigitsAppend(a: string, b: string)
    ensures KeepDigits(a + b) == KeepDigits(a) + KeepDigits(b)
  {
    if a == [] {
      assert a + b == b;
    } else {
      assert (a + b)[0] == a[0];
      assert (a + b)[1..] == a[1..] + b;
      KeepDigitsAppend(a[1..], b);
    }
  }

  /** Index of the first `c` in `s` at or after `i`, if any. */
  function FindFrom(s: string, c: char, i: nat): (r: Option<nat>)
    requires i <= |s|
    ensures r.None? ==> forall j :: i <= j < |s| ==> s[j] != c
    ensures r.Some? ==> i <= r.value < |s| && s[r.value] == c
    ensures r.Some? ==> forall j :: i <= j < r.value ==> s[j] != c
    decreases |s| - i
  {
    if i == |s| then None
    else if s[i] == c then Some(i)
    else FindFrom(s, c, i + 1)
  }

  /** Index of the first `c` in `s`, if any. */
  function FirstIndex(s: string, c: char): (r: Option<nat>)
    ensures r.None? <==> c !in s
    ensures r.Some? ==> r.value < |s| && s[r.value] == c && c !in s[..r.value]
  {
    var r := FindFrom(s, c, 0);
    if r.Some? then
      assert forall j :: 0 <= j < r.value ==> s[..r.value][j] != c;
      r
    else r
  }

  /** `sep.join(parts)` for a one-character separator. */
  function JoinWith(parts: seq<string>, sep: char): string {
    if parts == [] then []
    else if |parts| == 1 then parts[0]
    else parts[0] + [sep] + JoinWith(parts[1..], sep)
  }

  /** Python's `s.split(sep, maxsplit)` for a one-character separator:
      cut at the first `maxsplit` separators, left to right. */
  function Split(s: string, sep: char, maxsplit: nat): (parts: seq<string>)
    ensures 1 <= |parts| <= maxsplit + 1
    ensures forall k :: 0 <= k < |parts| - 1 ==> sep !in parts[k]
    ensures |parts| < maxsplit + 1 ==> sep !in parts[|parts| - 1]
    decreases maxsplit
  {
    if maxsplit == 0 then [s]
    else match FirstIndex(s, sep)
      case None => [s]
      case Some(i) =>
        var rest := Split(s[i + 1..], sep, maxsplit - 1);
        assert ([s[..i]] + rest)[1..] == rest;
        [s[..i]] + rest
  }

  /** Joining the parts with the separator gives back the string. */
  lemma {:induction false} SplitJoins(s: string, sep: char, maxsplit: nat)
    ensures JoinWith(Split(s, sep, maxsplit), sep) == s
  {
    SplitJoinsBack(s, sep, maxsplit);
  }

  /** The round trip of SplitJoins, as one fact per string. */
  predicate JoinsBack(s: string, sep: char, maxsplit: nat) {
    JoinWith(Split(s, sep, maxsplit), sep) == s
  }

  lemma {:induction false} SplitJoinsBack(s: string, sep: char, maxsplit: nat)
    ensures JoinsBack(s, sep, maxsplit)
    decreases maxsplit
  {
    if maxsplit == 0 {
      SplitWhole(s, sep, maxsplit);
    } else {
      match FirstIndex(s, sep)
      case None =>
        SplitWhole(s, sep, maxsplit);
      case Some(i) =>
        SplitJoinsBack(s[i + 1..], sep, maxsplit - 1);
        SplitJoinsStep(s, sep, maxsplit, i);
    }
  }

  /** The inductive step of SplitJoins. */
  lemma SplitJoinsStep(s: string, sep: char, maxsplit: nat, i: nat)
    requires maxsplit > 0 && FirstIndex(s, sep) == Some(i)
    requires JoinsBack(s[i + 1..], sep, maxsplit - 1)
    ensures JoinsBack(s, sep, maxsplit)
  {
    SplitCut(s, sep, maxsplit, i);
    SplitStep(s, sep, i, Split(s[i + 1..], sep, maxsplit - 1), Split(s, sep, maxsplit));
  }

  /** Before the last cut, Split keeps the text up to the first separator. */
  lemma SplitCut(s: string, sep: char, maxsplit: nat, i: nat)
    requires maxsplit > 0 && FirstIndex(s, sep) == Some(i)
    ensures Split(s, sep, maxsplit) == [s[..i]] + Split(s[i + 1..], sep, maxsplit - 1)
  {
  }

  /** With no cut left or no separator, Split returns the whole string. */
  lemma SplitWhole(s: string, sep: char, maxsplit: nat)
    requires maxsplit == 0 || FirstIndex(s, sep).None?
    ensures Split(s, sep, maxsplit) == [s] && JoinsBack(s, sep, maxsplit)
  {
  }

  /** Cutting at the first separator and joining back. */
  lemma SplitStep(s: string, sep: char, i: nat, rest: seq<string>, parts: seq<string>)
    requires i < |s| && s[i] == sep
    requires parts == [s[..i]] + rest && 1 <= |rest|
    requires JoinWith(rest, sep) == s[i + 1..]
    ensures JoinWith(parts, sep) == s
  {
    assert parts[1..] == rest;
    assert s == s[..i] + [sep] + s[i + 1..];
  }

  /** The first separator of `a + [sep] + b` ends a separator-free `a`. */
  lemma FirstIndexAfter(a: string, sep: char, b: string)
    requires sep !in a
    ensures FirstIndex(a + [sep] + b, sep) == Some(|a|)
  {
    var s := a + [sep] + b;
    assert s[|a|] == sep;
    assert s[..|a|] == a;
  }

  /** Splitting after a separator-free head. */
  lemma SplitAfter(a: string, sep: char, b: string, maxsplit: nat)
    requires sep !in a
    ensures Split(a + ([sep] + b), sep, maxsplit + 1) == [a] + Split(b, sep, maxsplit)
  {
    var s := a + ([sep] + b);
    assert s[|a|] == sep;
    assert s[..|a|] == a;
    assert s[|a| + 1..] == b;
  }

  /** Joining separator-free parts (the last one excepted) puts exactly one
      separator between neighbours. */
  lemma {:induction false} JoinCount(parts: seq<string>, sep: char)
    requires |parts| >= 1
    requires forall k :: 0 <= k < |parts| - 1 ==> sep !in parts[k]
    ensures multiset(JoinWith(parts, sep))[sep] == |parts| - 1 + multiset(parts[|parts| - 1])[sep]
    decreases |parts|
  {
    if |parts| > 1 {
      JoinCount(parts[1..], sep);
      assert multiset(parts[0])[sep] == 0;
    }
  }

  /** Four fields joined by a separator that only the last may hold split
      back into those fields. */
  lemma SplitFour(a: string, b: string, c: string, d: string, sep: char)
    requires sep !in a && sep !in b && sep !in c
    ensures Split(a + ([sep] + (b + ([sep] + (c + ([sep] + d))))), sep, 3) == [a, b, c, d]
  {
    var y := c + ([sep] + d);
    var x := b + ([sep] + y);
    assert Split(d, sep, 0) == [d];
    SplitAfter(c, sep, d, 0);
    SplitAfter(b, sep, y, 1);
    SplitAfter(a, sep, x, 2);
    ConsFour(a, b, c, d);
  }

  /** A four-element sequence built up from the back. */
  lemma ConsFour<T>(a: T, b: T, c: T, d: T)
    ensures [a] + ([b] + ([c] + [d])) == [a, b, c, d]
  {
  }

  /** Joining four parts. */
  lemma JoinFour(parts: seq<string>, sep: char)
    requires |parts| == 4
    ensures JoinWith(parts, sep) == parts[0] + ([sep] + (parts[1] + ([sep] + (parts[2] + ([sep] + parts[3])))))
  {
    assert parts[1..][1..][1..] == [parts[3]];
    assert JoinWith(parts[1..][1..], sep) == parts[2] + [sep] + parts[3];
    assert JoinWith(parts[1..], sep) == parts[1] + [sep] + (parts[2] + [sep] + parts[3]);
  }
}
