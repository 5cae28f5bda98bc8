/** bot/utils.py: `extract_url`, a leftmost search for the pattern
      https?://(x|twitter|mobile\.twitter|t\.co)\.com?/[\w\-_/%.?=&]+
    matched case-insensitively. The regular expression is written out as a
    hand-made recogniser; the Unicode class `\w` is a parameter `isWord`. */
module Utils {
  import opened Wrappers
  import opened Text

  /** The alternatives of each fixed part of the pattern. In each list no
      two alternatives can match at the same place (AlternativesExclusive),
      so taking the first one that matches is what the backtracking regular
      expression engine ends up with. */
  const Schemes: seq<string> := ["http://", "https://"]
  const Hosts: seq<string> := ["x", "twitter", "mobile.twitter", "t.co"]
  const Domains: seq<string> := [".co/", ".com/"]

  /** Under `re.IGNORECASE` a lower-case letter of the pattern matches its
      upper-case form and, for `i` and `s`, the characters Python's regular
      expression engine folds onto them (dotless i, dotted capital I, long s);
      any other pattern character matches only itself. */
  predicate FoldsTo(c: char, lit: char) {
    c == lit
    || ('a' <= lit <= 'z' && c as int == lit as int - 32)
    || (lit == 'i' && (c == '\U{131}' || c == '\U{130}'))
    || (lit == 's' && c == '\U{17F}')
  }

  /** `lit` matches case-insensitively in `s` from index `i`. */
  predicate FoldMatches(s: string, i: nat, lit: string) {
    i + |lit| <= |s| && forall k :: 0 <= k < |lit| ==> FoldsTo(s[i + k], lit[k])
  }

  /** The ASCII part of `\w`. */
  predicate IsAsciiWord(c: char) {
    ('a' <= c <= 'z') || ('A' <= c <= 'Z') || ('0' <= c <= '9') || c == '_'
  }

  /** What the model assumes of Python's Unicode `\w`: it agrees with
      [A-Za-z0-9_] on ASCII and never holds of whitespace. */
  predicate IsWordClass(isWord: char -> bool) {
    && (forall c: char :: c < '\U{80}' ==> (isWord(c) <==> IsAsciiWord(c)))
    && (forall c: char :: IsSpace(c) ==> !isWord(c))
  }

  /** The class `[\w\-_/%.?=&]` of the path part. */
  predicate InPathClass(c: char, isWord: char -> bool) {
    isWord(c) || c == '-' || c == '_' || c == '/' || c == '%' || c == '.'
    || c == '?' || c == '=' || c == '&'
  }

  function PrefixLength(a: nat, b: nat, d: nat): nat
    requires a < |Schemes| && b < |Hosts| && d < |Domains|
  {
    |Schemes[a]| + |Hosts[b]| + |Domains[d]|
  }

  /** Scheme `a`, host `b` and domain `d` match one after the other from `i`. */
  predicate PrefixAt(s: string, i: nat, a: nat, b: nat, d: nat)
    requires a < |Schemes| && b < |Hosts| && d < |Domains|
  {
    && FoldMatches(s, i, Schemes[a])
    && FoldMatches(s, i + |Schemes[a]|, Hosts[b])
    && FoldMatches(s, i + |Schemes[a]| + |Hosts[b]|, Domains[d])
  }

  /** The pattern matches in `s` from index `i` (with at least one path character). */
  predicate MatchStartsAt(s: string, i: nat, isWord: char -> bool) {
    exists a: nat, b: nat, d: nat | a < |Schemes| && b < |Hosts| && d < |Domains| ::
      PrefixAt(s, i, a, b, d) && i + PrefixLength(a, b, d) < |s|
      && InPathClass(s[i + PrefixLength(a, b, d)], isWord)
  }

  /** `u` as a whole matches the pattern. */
  predicate IsUrlShape(u: string, isWord: char -> bool) {
    exists a: nat, b: nat, d: nat | a < |Schemes| && b < |Hosts| && d < |Domains| ::
      PrefixAt(u, 0, a, b, d) && PrefixLength(a, b, d) < |u|
      && forall k :: PrefixLength(a, b, d) <= k < |u| ==> InPathClass(u[k], isWord)
  }

  /** `u` is the match `re.search` reports in `s`, found at index `i`: it is
      the infix of `s` at `i`, it has the pattern's shape, its path part
      cannot be extended, and no match starts anywhere before `i`. */
  predicate IsLeftmostMatch(s: string, i: nat, u: string, isWord: char -> bool) {
    && i + |u| <= |s| && u == s[i..i + |u|]
    && MatchStartsAt(s, i, isWord) && IsUrlShape(u, isWord)
    && (i + |u| == |s| || !InPathClass(s[i + |u|], isWord))
    && forall j: nat :: j < i ==> !MatchStartsAt(s, j, isWord)
  }

  /** The first alternative of `alts` that matches from `i`. */
  function FirstAlternative(s: string, i: nat, alts: seq<string>): (r: Option<nat>)
    ensures r.Some? ==> r.value < |alts| && FoldMatches(s, i, alts[r.value])
  {
    if alts == [] then None
    else if FoldMatches(s, i, alts[0]) then Some(0)
    else match FirstAlternative(s, i, alts[1..])
      case None => None
      case Some(k) => Some(k + 1)
  }

  lemma {:induction false} FirstAlternativeFinds(s: string, i: nat, alts: seq<string>, k: nat)
    requires k < |alts| && FoldMatches(s, i, alts[k])
    ensures FirstAlternative(s, i, alts).Some?
    ensures FirstAlternative(s, i, alts).value <= k
  {
    if k > 0 && !FoldMatches(s, i, alts[0]) {
      FirstAlternativeFinds(s, i, alts[1..], k - 1);
    }
  }

  lemma FoldsAt(s: string, i: nat, lit: string, p: nat)
    ensures FoldMatches(s, i, lit) && p < |lit| ==> FoldsTo(s[i + p], lit[p])
  {
  }

  /** No character folds onto two different characters of the pattern, so
      two alternatives of one part, which differ at some position, cannot
      both match at the same place. */
  lemma AlternativesExclusive(s: string, i: nat, alts: seq<string>, k1: nat, k2: nat)
    requires alts == Schemes || alts == Hosts || alts == Domains
    requires k1 < |alts| && k2 < |alts|
    requires FoldMatches(s, i, alts[k1]) && FoldMatches(s, i, alts[k2])
    ensures k1 == k2
  {
    if k1 != k2 {
      var p := if alts == Schemes then 4
        else if alts == Domains then 3
        else if (k1 == 1 && k2 == 3) || (k1 == 3 && k2 == 1) then 1
        else 0;
      FoldsAt(s, i, alts[k1], p);
      FoldsAt(s, i, alts[k2], p);
      assert false;
    }
  }

  /** The one alternative of `alts` that matches from `i`, if any. */
  lemma AlternativeUnique(s: string, i: nat, alts: seq<string>, k: nat)
    requires alts == Schemes || alts == Hosts || alts == Domains
    requires k < |alts| && FoldMatches(s, i, alts[k])
    ensures FirstAlternative(s, i, alts) == Some(k)
  {
    FirstAlternativeFinds(s, i, alts, k);
    AlternativesExclusive(s, i, alts, k, FirstAlternative(s, i, alts).value);
  }

  /** The scheme, host and domain of the pattern that match one after the
      other from `i`, if any. */
  function PrefixMatch(s: string, i: nat): (r: Option<(nat, nat, nat)>)
    ensures r.Some? ==> (r.value.0 < |Schemes| && r.value.1 < |Hosts| && r.value.2 < |Domains|
      && PrefixAt(s, i, r.value.0, r.value.1, r.value.2))
  {
    match FirstAlternative(s, i, Schemes)
    case None => None
    case Some(a) =>
      match FirstAlternative(s, i + |Schemes[a]|, Hosts)
      case None => None
      case Some(b) =>
        match FirstAlternative(s, i + |Schemes[a]| + |Hosts[b]|, Domains)
        case None => None
        case Some(d) => Some((a, b, d))
  }

  /** Whatever prefix matches is the one PrefixMatch reports. */
  lemma PrefixMatchComplete(s: string, i: nat, a: nat, b: nat, d: nat)
    requires a < |Schemes| && b < |Hosts| && d < |Domains|
    requires PrefixAt(s, i, a, b, d)
    ensures PrefixMatch(s, i) == Some((a, b, d))
  {
    AlternativeUnique(s, i, Schemes, a);
    AlternativeUnique(s, i + |Schemes[a]|, Hosts, b);
    AlternativeUnique(s, i + |Schemes[a]| + |Hosts[b]|, Domains, d);
  }

  /** Length of the longest run of path-class characters from `j`. */
  function PathRun(s: string, j: nat, isWord: char -> bool): (n: nat)
    ensures j + n <= |s| || n == 0
    ensures forall k :: j <= k < j + n ==> InPathClass(s[k], isWord)
    ensures j + n >= |s| || !InPathClass(s[j + n], isWord)
    decreases |s| - j
  {
    if j < |s| && InPathClass(s[j], isWord) then 1 + PathRun(s, j + 1, isWord) else 0
  }

  /** Length of the match starting at `i`, if the pattern matches there:
      the prefix, then as many path characters as there are (at least one). */
  function MatchLength(s: string, i: nat, isWord: char -> bool): Option<nat> {
    match PrefixMatch(s, i)
    case None => None
    case Some(t) =>
      var p := PrefixLength(t.0, t.1, t.2);
      var run := PathRun(s, i + p, isWord);
      if run == 0 then None else Some(p + run)
  }

  /** The recogniser finds a match exactly where one starts. */
  lemma MatchLengthIff(s: string, i: nat, isWord: char -> bool)
    ensures MatchLength(s, i, isWord).Some? <==> MatchStartsAt(s, i, isWord)
  {
    if MatchStartsAt(s, i, isWord) {
      var a: nat, b: nat, d: nat :| a < |Schemes| && b < |Hosts| && d < |Domains|
        && PrefixAt(s, i, a, b, d) && i + PrefixLength(a, b, d) < |s|
        && InPathClass(s[i + PrefixLength(a, b, d)], isWord);
      PrefixMatchComplete(s, i, a, b, d);
    }
    if MatchLength(s, i, isWord).Some? {
      var t := PrefixMatch(s, i).value;
      assert PrefixAt(s, i, t.0, t.1, t.2);
    }
  }

  /** The match the recogniser finds has the pattern's shape, and its path
      part cannot be extended. */
  lemma MatchLengthShape(s: string, i: nat, isWord: char -> bool)
    requires MatchLength(s, i, isWord).Some?
    ensures var n := MatchLength(s, i, isWord).value;
      && i + n <= |s|
      && IsUrlShape(s[i..i + n], isWord)
      && (i + n == |s| || !InPathClass(s[i + n], isWord))
  {
    var t := PrefixMatch(s, i).value;
    var p := PrefixLength(t.0, t.1, t.2);
    var n := MatchLength(s, i, isWord).value;
    var u := s[i..i + n];
    PrefixShifts(s, i, n, t.0, t.1, t.2);
    assert forall k :: p <= k < |u| ==> u[k] == s[i + k];
  }

  lemma SliceOfSlice(s: string, i: nat, n: nat, x: nat, y: nat)
    requires i + n <= |s| && x <= y <= n
    ensures s[i..i + n][x..y] == s[i + x..i + y]
  {
    var l, r := s[i..i + n][x..y], s[i + x..i + y];
    forall k | 0 <= k < |l| ensures l[k] == r[k] {
      assert l[k] == s[i..i + n][x + k] == s[i + x + k];
    }
  }

  /** A prefix found in `s` at `i` is found at 0 in the infix starting at `i`. */
  lemma PrefixShifts(s: string, i: nat, n: nat, a: nat, b: nat, d: nat)
    requires a < |Schemes| && b < |Hosts| && d < |Domains|
    requires PrefixAt(s, i, a, b, d) && i + n <= |s| && PrefixLength(a, b, d) <= n
    ensures PrefixAt(s[i..i + n], 0, a, b, d)
  {
    var u := s[i..i + n];
    var sa, hb, db := |Schemes[a]|, |Hosts[b]|, |Domains[d]|;
    SliceOfSlice(s, i, n, 0, sa);
    FoldMatchesShift(s, u, i, 0, Schemes[a]);
    SliceOfSlice(s, i, n, sa, sa + hb);
    FoldMatchesShift(s, u, i + sa, sa, Hosts[b]);
    SliceOfSlice(s, i, n, sa + hb, sa + hb + db);
    FoldMatchesShift(s, u, i + sa + hb, sa + hb, Domains[d]);
  }

  lemma FoldMatchesShift(s: string, u: string, i: nat, j: nat, lit: string)
    requires FoldMatches(s, i, lit) && j + |lit| <= |u|
    requires u[j..j + |lit|] == s[i..i + |lit|]
    ensures FoldMatches(u, j, lit)
  {
    forall k | 0 <= k < |lit| ensures FoldsTo(u[j + k], lit[k]) {
      assert u[j + k] == u[j..j + |lit|][k] == s[i..i + |lit|][k] == s[i + k];
    }
  }

  /** The first index from `i` at which the recogniser finds a match. */
  function FirstMatchFrom(s: string, i: nat, isWord: char -> bool): (r: Option<nat>)
    ensures r.Some? ==> i <= r.value < |s| && MatchLength(s, r.value, isWord).Some?
    ensures r.Some? ==> forall j :: i <= j < r.value ==> MatchLength(s, j, isWord).None?
    ensures r.None? ==> forall j :: i <= j < |s| ==> MatchLength(s, j, isWord).None?
    decreases |s| - i
  {
    if |s| <= i then None
    else if MatchLength(s, i, isWord).Some? then Some(i)
    else
      var r := FirstMatchFrom(s, i + 1, isWord);
      var hi := if r.Some? then r.value else |s|;
      NoMatchExtends(s, i, hi, isWord);
      r
  }

  /** No match in `[i + 1, hi)` and none at `i` is none in `[i, hi)`. */
  lemma NoMatchExtends(s: string, i: nat, hi: nat, isWord: char -> bool)
    requires MatchLength(s, i, isWord).None?
    requires forall j :: i + 1 <= j < hi ==> MatchLength(s, j, isWord).None?
    ensures forall j :: i <= j < hi ==> MatchLength(s, j, isWord).None?
  {
  }

  lemma NoMatchAtEnd(s: string, j: nat, isWord: char -> bool)
    requires |s| <= j
    ensures !MatchStartsAt(s, j, isWord)
  {
  }

  lemma NoMatchAnywhere(s: string, isWord: char -> bool)
    requires forall j :: 0 <= j < |s| ==> MatchLength(s, j, isWord).None?
    ensures forall i: nat :: !MatchStartsAt(s, i, isWord)
  {
    forall i: nat ensures !MatchStartsAt(s, i, isWord) {
      if i < |s| {
        MatchLengthIff(s, i, isWord);
      } else {
        NoMatchAtEnd(s, i, isWord);
      }
    }
  }

  lemma FirstMatchIsLeftmost(s: string, i: nat, isWord: char -> bool)
    requires MatchLength(s, i, isWord).Some?
    requires forall j :: 0 <= j < i ==> MatchLength(s, j, isWord).None?
    ensures var n := MatchLength(s, i, isWord).value;
      i + n <= |s| && IsLeftmostMatch(s, i, s[i..i + n], isWord)
  {
    MatchLengthShape(s, i, isWord);
    MatchLengthIff(s, i, isWord);
    NoEarlierMatch(s, i, isWord);
    var n := MatchLength(s, i, isWord).value;
    assert |s[i..i + n]| == n;
  }

  lemma NoEarlierMatch(s: string, i: nat, isWord: char -> bool)
    requires forall j :: 0 <= j < i ==> MatchLength(s, j, isWord).None?
    ensures forall j: nat :: j < i ==> !MatchStartsAt(s, j, isWord)
  {
    forall j: nat | j < i ensures !MatchStartsAt(s, j, isWord) {
      MatchLengthIff(s, j, isWord);
    }
  }

  /** `X_URL_RE.search(s)`, reported as `match.group(0)`. */
  function Search(s: string, isWord: char -> bool): (r: Option<string>)
    ensures r.Some? ==> exists i: nat :: IsLeftmostMatch(s, i, r.value, isWord)
    ensures r.None? ==> forall i: nat :: !MatchStartsAt(s, i, isWord)
  {
    match FirstMatchFrom(s, 0, isWord)
    case None =>
      NoMatchAnywhere(s, isWord);
      None
    case Some(i) =>
      FirstMatchIsLeftmost(s, i, isWord);
      Some(s[i..i + MatchLength(s, i, isWord).value])
  }

  /** bot/utils.py `extract_url`: `None` for empty text, otherwise the
      leftmost match of the pattern in `text.strip()`. */
  function ExtractUrl(text: string, isWord: char -> bool): (r: Option<string>)
    ensures text == [] ==> r == None
    ensures r.Some? ==> exists i: nat :: IsLeftmostMatch(Strip(text), i, r.value, isWord)
    ensures text != [] && r.None? ==> forall i: nat :: !MatchStartsAt(Strip(text), i, isWord)
  {
    if text == [] then None else Search(Strip(text), isWord)
  }

  /** A bare short link is not recognised: after `t.co` the pattern still
      requires `.co` or `.com` before the slash. */
  lemma ShortLinkNotRecognised(isWord: char -> bool)
    ensures ExtractUrl("https://t.co/abc", isWord) == None
  {
    var s := "https://t.co/abc";
    PrintableEnds(s);
    StripOfStripped(s);
    forall j: nat ensures !MatchStartsAt(s, j, isWord) {
      forall a: nat, b: nat, d: nat | a < |Schemes| && b < |Hosts| && d < |Domains|
        ensures !PrefixAt(s, j, a, b, d)
      {
        ShortLinkNoPrefix(j, a, b, d);
      }
    }
  }

  lemma ShortLinkNoPrefix(j: nat, a: nat, b: nat, d: nat)
    requires a < |Schemes| && b < |Hosts| && d < |Domains|
    ensures !PrefixAt("https://t.co/abc", j, a, b, d)
  {
    var s := "https://t.co/abc";
    if PrefixAt(s, j, a, b, d) {
      if j == 0 {
        FoldsAt(s, 0, Schemes[a], 4);
        FoldsAt(s, 8, Hosts[b], 0);
        FoldsAt(s, 8, Hosts[b], 1);
        FoldsAt(s, 12, Domains[d], 0);
      } else {
        FoldsAt(s, j, Schemes[a], 0);
      }
      assert false;
    }
  }

  lemma WordClassAscii(isWord: char -> bool, c: char)
    requires IsWordClass(isWord) && c < '\U{80}'
    ensures isWord(c) <==> IsAsciiWord(c)
  {
  }

  /** The letters of the pattern match in either case. */
  lemma UpperCaseRecognised(isWord: char -> bool)
    requires IsWordClass(isWord)
    ensures ExtractUrl("HTTPS://X.COM/a", isWord) == Some("HTTPS://X.COM/a")
  {
    var s := "HTTPS://X.COM/a";
    PrintableEnds(s);
    StripOfStripped(s);
    assert PrefixAt(s, 0, 1, 0, 1);
    PrefixMatchComplete(s, 0, 1, 0, 1);
    WordClassAscii(isWord, 'a');
    assert PathRun(s, 15, isWord) == 0;
    assert MatchLength(s, 0, isWord) == Some(15);
    assert s[0..15] == s;
  }

  /** `x.co` is accepted as well as `x.com`, and a `#` ends the match. */
  lemma FragmentEndsMatch(isWord: char -> bool)
    requires IsWordClass(isWord)
    ensures ExtractUrl("https://x.co/ab#c", isWord) == Some("https://x.co/ab")
  {
    var s := "https://x.co/ab#c";
    assert s[..15] == "https://x.co/ab";
    PrintableEnds(s);
    StripOfStripped(s);
    FragmentMatchLength(isWord);
  }

  lemma FragmentMatchLength(isWord: char -> bool)
    requires IsWordClass(isWord)
    ensures MatchLength("https://x.co/ab#c", 0, isWord) == Some(15)
  {
    var s := "https://x.co/ab#c";
    assert PrefixAt(s, 0, 1, 0, 0);
    PrefixMatchComplete(s, 0, 1, 0, 0);
    WordClassAscii(isWord, 'a');
    WordClassAscii(isWord, 'b');
    WordClassAscii(isWord, '#');
    assert PathRun(s, 15, isWord) == 0;
    assert PathRun(s, 14, isWord) == 1;
  }
}
