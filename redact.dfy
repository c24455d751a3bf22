/**
 * Global replacement (`String.prototype.replace` with the `g` flag) for a
 * regular expression given by its matcher.
 */
module GlobalReplace {

  /**
   * `s.replace(re, ph)` for a global regular expression that cannot match the
   * empty string, given by its matcher `m` (the length of the match at the
   * start of a string, 0 for none): scan left to right, replace each match by
   * `ph` and resume after it. A matcher never reports more than what is left;
   * the scan keeps a character when it would.
   */
  function ReplaceAll(m: string -> nat, s: string, ph: string): string
    decreases |s|
  {
    if s == [] then []
    else
      var n := m(s);
      if 0 < n <= |s| then ph + ReplaceAll(m, s[n..], ph) else [s[0]] + ReplaceAll(m, s[1..], ph)
  }

  /** No match of `m` reaches into `b`: what it matches before `b` is what it matches without it. */
  ghost predicate Separates(m: string -> nat, b: string) {
    forall t: string :: m(t + b) == m(t)
  }

  /** A pass over `a + b` is a pass over `a` then a pass over `b` when no match reaches into `b`. */
  lemma {:induction false} ReplaceAllSplitsAt(m: string -> nat, a: string, b: string, ph: string)
    requires Separates(m, b)
    requires forall s :: m(s) <= |s|
    ensures ReplaceAll(m, a + b, ph) == ReplaceAll(m, a, ph) + ReplaceAll(m, b, ph)
    decreases |a|
  {
    if a == [] {
      assert a + b == b;
    } else {
      assert m(a + b) == m(a);
      var k := if m(a) > 0 then m(a) else 1;
      ReplaceAllSplitsAt(m, a[k..], b, ph);
      SplitStep(m, a, b, ph, k);
    }
  }

  /** One step of the split: both scans take the same first step. */
  lemma SplitStep(m: string -> nat, a: string, b: string, ph: string, k: nat)
    requires a != [] && m(a + b) == m(a) <= |a|
    requires k == if m(a) > 0 then m(a) else 1
    requires ReplaceAll(m, a[k..] + b, ph) == ReplaceAll(m, a[k..], ph) + ReplaceAll(m, b, ph)
    ensures ReplaceAll(m, a + b, ph) == ReplaceAll(m, a, ph) + ReplaceAll(m, b, ph)
  {
    assert (a + b)[k..] == a[k..] + b;
    assert (a + b)[0] == a[0];
    var head := if m(a) > 0 then ph else [a[0]];
    assert ReplaceAll(m, a + b, ph) == head + ReplaceAll(m, a[k..] + b, ph);
    assert ReplaceAll(m, a, ph) == head + ReplaceAll(m, a[k..], ph);
    Assoc(head, ReplaceAll(m, a[k..], ph), ReplaceAll(m, b, ph));
  }

  lemma Assoc(x: string, y: string, z: string)
    ensures x + (y + z) == (x + y) + z
  {
  }

  /** No match of `m` starts anywhere in `s`. */
  predicate NoMatch(m: string -> nat, s: string) {
    forall i :: 0 <= i < |s| ==> m(s[i..]) == 0
  }

  /** A replacement pass over a string in which the pattern never matches changes nothing. */
  lemma {:induction false} ReplaceAllNoMatch(m: string -> nat, s: string, ph: string)
    requires NoMatch(m, s)
    ensures ReplaceAll(m, s, ph) == s
    decreases |s|
  {
    if s != [] {
      assert m(s[0..]) == 0 by { assert s[0..] == s; }
      assert NoMatch(m, s[1..]) by {
        forall i | 0 <= i < |s[1..]| ensures m(s[1..][i..]) == 0 {
          assert s[1..][i..] == s[i + 1..];
        }
      }
      ReplaceAllNoMatch(m, s[1..], ph);
    }
  }

  /** One step of the scan: a match at the start is replaced, otherwise the first character is kept. */
  lemma ReplaceAllStep(m: string -> nat, s: string, ph: string)
    requires s != [] && m(s) <= |s|
    ensures m(s) > 0 ==> ReplaceAll(m, s, ph) == ph + ReplaceAll(m, s[m(s)..], ph)
    ensures m(s) == 0 ==> ReplaceAll(m, s, ph) == [s[0]] + ReplaceAll(m, s[1..], ph)
  {
  }

  /** Shifting the scan start by one keeps "no match before position k". */
  lemma ShiftNoMatchBefore(m: string -> nat, s: string, k: nat)
    requires 0 < k < |s|
    requires forall i :: 0 <= i < k ==> m(s[i..]) == 0
    ensures m(s) == 0
    ensures s[1..][k - 1..] == s[k..]
    ensures forall i :: 0 <= i < k - 1 ==> m(s[1..][i..]) == 0
  {
    assert s[0..] == s;
    forall i | 0 <= i < k - 1 ensures m(s[1..][i..]) == 0 {
      assert s[1..][i..] == s[i + 1..];
    }
  }

  /** Putting back the first character of a string before a prefix of its tail. */
  lemma ConsPrefix(s: string, k: nat, x: string, y: string)
    requires 0 < k <= |s|
    ensures [s[0]] + (s[1..][..k - 1] + x + y) == s[..k] + x + y
  {
    assert s[..k] == [s[0]] + s[1..][..k - 1];
  }

  /** The first-match law when the match is at the start. */
  lemma FirstMatchHere(m: string -> nat, s: string, ph: string)
    requires s != [] && 0 < m(s) <= |s|
    ensures ReplaceAll(m, s, ph) == s[..0] + ph + ReplaceAll(m, s[0 + m(s[0..])..], ph)
  {
    assert s[0..] == s;
    ReplaceAllStep(m, s, ph);
  }

  /** The first-match law for `s` from the law for its tail, when `s` does not match at the start. */
  lemma FirstMatchLater(m: string -> nat, s: string, ph: string, k: nat, tail: string)
    requires 0 < k < |s| && 0 < m(s[k..]) <= |s| - k
    requires forall i :: 0 <= i < k ==> m(s[i..]) == 0
    requires tail == ReplaceAll(m, s[k + m(s[k..])..], ph)
    requires ReplaceAll(m, s[1..], ph) == s[1..][..k - 1] + ph + ReplaceAll(m, s[1..][k - 1 + m(s[1..][k - 1..])..], ph)
    ensures ReplaceAll(m, s, ph) == s[..k] + ph + tail
  {
    ShiftNoMatchBefore(m, s, k);
    ReplaceAllStep(m, s, ph);
    assert s[1..][k - 1 + m(s[k..])..] == s[k + m(s[k..])..];
    ConsPrefix(s, k, ph, tail);
  }

  /**
   * The leftmost match is the one replaced: when no match starts before
   * position `k` and one starts at `k`, the text before `k` is kept, the match
   * becomes the placeholder and scanning resumes after it.
   */
  lemma {:induction false} ReplaceAllFirstMatch(m: string -> nat, s: string, ph: string, k: nat)
    requires k < |s| && 0 < m(s[k..]) <= |s| - k
    requires forall i :: 0 <= i < k ==> m(s[i..]) == 0
    ensures ReplaceAll(m, s, ph) == s[..k] + ph + ReplaceAll(m, s[k + m(s[k..])..], ph)
    decreases k
  {
    if k == 0 {
      assert s[0..] == s;
      FirstMatchHere(m, s, ph);
    } else {
      ShiftNoMatchBefore(m, s, k);
      ReplaceAllFirstMatch(m, s[1..], ph, k - 1);
      FirstMatchLater(m, s, ph, k, ReplaceAll(m, s[k + m(s[k..])..], ph));
    }
  }

  /** A string matched to its end becomes the placeholder alone. */
  lemma WholeMatch(m: string -> nat, s: string, ph: string)
    requires s != [] && m(s) == |s|
    ensures ReplaceAll(m, s, ph) == ph
  {
    ReplaceAllStep(m, s, ph);
    assert s[|s|..] == [];
  }

  /** A prefix at none of whose positions the pattern matches is kept as it is. */
  lemma {:induction false} KeepPrefix(m: string -> nat, p: string, s: string, ph: string)
    requires forall i :: 0 <= i < |p| ==> m(p[i..] + s) == 0
    ensures ReplaceAll(m, p + s, ph) == p + ReplaceAll(m, s, ph)
    decreases |p|
  {
    if p == [] {
      assert p + s == s;
    } else {
      assert p[0..] == p;
      assert (p + s)[1..] == p[1..] + s;
      forall i | 0 <= i < |p[1..]| ensures m(p[1..][i..] + s) == 0 {
        assert p[1..][i..] == p[i + 1..];
      }
      KeepPrefix(m, p[1..], s, ph);
      assert [p[0]] + (p[1..] + ReplaceAll(m, s, ph)) == p + ReplaceAll(m, s, ph);
    }
  }

  // A pass leaves nothing for the patterns to match.

  /** No match of `m` starts inside the placeholder, whatever follows it. */
  ghost predicate Inert(m: string -> nat, ph: string) {
    forall j, y: string :: 0 <= j < |ph| ==> m(ph[j..] + y) == 0
  }

  /**
   * Putting the placeholder where `m2` matched creates no match of `m1` that
   * starts before it: where `m1` did not match before the match of `m2`, it
   * does not match before the placeholder, whatever follows.
   */
  ghost predicate Blocks(m1: string -> nat, m2: string -> nat, ph: string) {
    forall x: string, t: string, y: string :: m1(x + t) == 0 && m2(t) > 0 ==> m1(x + ph + y) == 0
  }

  lemma UseBlocks(m1: string -> nat, m2: string -> nat, ph: string, x: string, t: string, y: string)
    requires Blocks(m1, m2, ph) && m1(x + t) == 0 && m2(t) > 0
    ensures m1(x + ph + y) == 0
  {
  }

  /** A pass of `m2` over `t` keeps `m1` from matching at the start of `x + t`. */
  lemma {:induction false} PassKeepsNoMatchAt(m1: string -> nat, m2: string -> nat, ph: string, x: string, t: string)
    requires Blocks(m1, m2, ph) && m1(x + t) == 0
    ensures m1(x + ReplaceAll(m2, t, ph)) == 0
    decreases |t|
  {
    if t == [] {
      assert x + ReplaceAll(m2, t, ph) == x + t;
    } else {
      var n := m2(t);
      if 0 < n <= |t| {
        var y := ReplaceAll(m2, t[n..], ph);
        assert ReplaceAll(m2, t, ph) == ph + y;
        UseBlocks(m1, m2, ph, x, t, y);
        Assoc(x, ph, y);
      } else {
        var r := ReplaceAll(m2, t[1..], ph);
        assert ReplaceAll(m2, t, ph) == [t[0]] + r;
        var x' := x + [t[0]];
        assert x' + t[1..] == x + t;
        PassKeepsNoMatchAt(m1, m2, ph, x', t[1..]);
        Assoc(x, [t[0]], r);
      }
    }
  }

  /** No match in `head + rest` when none starts in `head` or in `rest`. */
  lemma NoMatchAppend(m: string -> nat, head: string, rest: string)
    requires forall i :: 0 <= i < |head| ==> m(head[i..] + rest) == 0
    requires NoMatch(m, rest)
    ensures NoMatch(m, head + rest)
  {
    forall i | 0 <= i < |head + rest| ensures m((head + rest)[i..]) == 0 {
      if i < |head| {
        assert (head + rest)[i..] == head[i..] + rest;
      } else {
        assert (head + rest)[i..] == rest[i - |head|..];
      }
    }
  }

  /**
   * After a pass of `m2` with an inert placeholder that blocks `m1`, `m1`
   * matches nowhere, provided that wherever `m1` matches in the input, `m2`
   * matches too.
   */
  lemma {:induction false} PassLeavesNoMatch(m1: string -> nat, m2: string -> nat, ph: string, s: string)
    requires Inert(m1, ph) && Blocks(m1, m2, ph)
    requires forall i :: 0 <= i < |s| ==> m1(s[i..]) == 0 || 0 < m2(s[i..]) <= |s| - i
    ensures NoMatch(m1, ReplaceAll(m2, s, ph))
    decreases |s|
  {
    if s != [] {
      var n := m2(s);
      assert s[0..] == s;
      var k := if 0 < n <= |s| then n else 1;
      forall i | 0 <= i < |s[k..]| ensures m1(s[k..][i..]) == 0 || 0 < m2(s[k..][i..]) <= |s[k..]| - i {
        assert s[k..][i..] == s[k + i..];
      }
      PassLeavesNoMatch(m1, m2, ph, s[k..]);
      var rest := ReplaceAll(m2, s[k..], ph);
      if 0 < n <= |s| {
        forall i | 0 <= i < |ph| ensures m1(ph[i..] + rest) == 0 {
        }
        NoMatchAppend(m1, ph, rest);
      } else {
        assert [s[0]] + s[1..] == s;
        PassKeepsNoMatchAt(m1, m2, ph, [s[0]], s[1..]);
        assert [s[0]][0..] == [s[0]];
        NoMatchAppend(m1, [s[0]], rest);
      }
    }
  }

  /** A pass leaves no match of its own pattern when its placeholder is inert and blocks it. */
  lemma PassRemovesMatches(m: string -> nat, s: string, ph: string)
    requires forall t :: m(t) <= |t|
    requires Inert(m, ph) && Blocks(m, m, ph)
    ensures NoMatch(m, ReplaceAll(m, s, ph))
  {
    forall i | 0 <= i < |s| ensures m(s[i..]) == 0 || 0 < m(s[i..]) <= |s| - i {
      assert |s[i..]| == |s| - i;
    }
    PassLeavesNoMatch(m, m, ph, s);
  }

  /** A pass of `m2` creates no match of `m1` in text that had none. */
  lemma PassKeepsNoMatch(m1: string -> nat, m2: string -> nat, s: string, ph: string)
    requires Inert(m1, ph) && Blocks(m1, m2, ph) && NoMatch(m1, s)
    ensures NoMatch(m1, ReplaceAll(m2, s, ph))
  {
    PassLeavesNoMatch(m1, m2, ph, s);
  }
}

/**
 * `redactSensitive` (apps/backend/src/services/hf.ts): three global
 * regular-expression replacements applied in sequence,
 *   /https?:\/\/[\S]+/gi               -> "[LINK]"
 *   /www\.[\S]+/gi                     -> "[LINK]"
 *   /[\w.-]+@[\w.-]+\.[A-Za-z]{2,6}/gi -> "[EMAIL]"
 * Each pattern is hand-coded as a matcher that gives the length of the
 * leftmost-greedy match at the start of a string (0 for none), following
 * the backtracking semantics of JavaScript regular expressions.
 */
module Redact {
  import opened Text
  import opened GlobalReplace

  const LINK := "[LINK]"
  const EMAIL := "[EMAIL]"

  /** `[\w.-]`: the characters of the local part and the domain of an e-mail address. */
  predicate IsEmailChar(c: char) { IsWordChar(c) || c == '.' || c == '-' }

  /** Length of the longest prefix of `s` of non-whitespace characters (`[\S]*`). */
  function NonSpaceRun(s: string): (n: nat)
    ensures n <= |s| && (n < |s| ==> IsSpace(s[n]))
    ensures forall i :: 0 <= i < n ==> !IsSpace(s[i])
  {
    if s == [] || IsSpace(s[0]) then 0 else 1 + NonSpaceRun(s[1..])
  }

  /** Length of the longest prefix of `s` of `[\w.-]` characters. */
  function EmailRun(s: string): (n: nat)
    ensures n <= |s| && (n < |s| ==> !IsEmailChar(s[n]))
    ensures forall i :: 0 <= i < n ==> IsEmailChar(s[i])
  {
    if s == [] || !IsEmailChar(s[0]) then 0 else 1 + EmailRun(s[1..])
  }

  /** Length of the longest prefix of `s` of ASCII letters. */
  function LetterRun(s: string): (n: nat)
    ensures n <= |s| && (n < |s| ==> !IsAsciiLetter(s[n]))
    ensures forall i :: 0 <= i < n ==> IsAsciiLetter(s[i])
  {
    if s == [] || !IsAsciiLetter(s[0]) then 0 else 1 + LetterRun(s[1..])
  }

  /** `s` starts with `p` (ignoring ASCII case) followed by at least one non-whitespace character. */
  predicate PrefixThenNonSpace(s: string, p: string) {
    StartsWithCI(s, p) && |s| > |p| && !IsSpace(s[|p|])
  }

  /** Length of the match of /https?:\/\/[\S]+/i at the start of `s`, 0 for none. */
  function UrlMatch(s: string): (n: nat)
    ensures n <= |s|
    ensures n > 0 <==> PrefixThenNonSpace(s, "https://") || PrefixThenNonSpace(s, "http://")
  {
    if PrefixThenNonSpace(s, "https://") then 8 + NonSpaceRun(s[8..])
    else if PrefixThenNonSpace(s, "http://") then 7 + NonSpaceRun(s[7..])
    else 0
  }

  /** Length of the match of /www\.[\S]+/i at the start of `s`, 0 for none. */
  function WwwMatch(s: string): (n: nat)
    ensures n <= |s|
    ensures n > 0 <==> PrefixThenNonSpace(s, "www.")
  {
    if PrefixThenNonSpace(s, "www.") then 4 + NonSpaceRun(s[4..]) else 0
  }

  /**
   * The domain split of an e-mail match: the largest `k` with `1 <= k <= hi`
   * such that `d[k]` is a dot followed by at least two letters, 0 when there is
   * none. This is where the greedy `[\w.-]+` of the domain stops after
   * backtracking.
   */
  function DomainDot(d: string, hi: nat): (k: nat)
    requires hi <= |d|
    ensures k <= hi
    ensures k > 0 ==> DotBeforeLetters(d, k)
  {
    if hi == 0 then 0
    else if DotBeforeLetters(d, hi) then hi
    else DomainDot(d, hi - 1)
  }

  /** `d[j]` is a dot followed by at least two letters. */
  predicate DotBeforeLetters(d: string, j: nat) {
    j < |d| && d[j] == '.' && LetterRun(d[j + 1..]) >= 2
  }

  /** The dot found is the last one up to `hi` that is followed by two letters. */
  lemma {:induction false} DomainDotIsLast(d: string, hi: nat)
    requires hi <= |d|
    ensures forall j: nat :: DomainDot(d, hi) < j <= hi ==> !DotBeforeLetters(d, j)
    decreases hi
  {
    if hi > 0 && !DotBeforeLetters(d, hi) {
      DomainDotIsLast(d, hi - 1);
    }
  }

  /** Length of the match of /[\w.-]+@[\w.-]+\.[A-Za-z]{2,6}/i at the start of `s`, 0 for none. */
  function EmailMatch(s: string): (n: nat)
    ensures n <= |s|
    ensures n > 0 ==> 0 < EmailRun(s) < |s| && s[EmailRun(s)] == '@' && DomainLength(s[EmailRun(s) + 1..]) > 0
  {
    var local := EmailRun(s);
    if local == 0 || local == |s| || s[local] != '@' then 0
    else
      var n := DomainLength(s[local + 1..]);
      if n == 0 then 0 else local + 1 + n
  }

  /** Length of the match of `[\w.-]+\.[A-Za-z]{2,6}` at the start of the text after the `@`, 0 for none. */
  function DomainLength(d: string): (n: nat)
    ensures n <= |d|
  {
    var k := DomainDot(d, EmailRun(d));
    if k == 0 then 0
    else
      var letters := LetterRun(d[k + 1..]);
      k + 1 + (if letters > 6 then 6 else letters)
  }

  /**
   * `redactSensitive(input)`. Text in which none of the three patterns
   * occurs, the empty text included, is returned unchanged.
   */
  function RedactSensitive(input: string): (r: string)
    ensures NoMatch(UrlMatch, input) && NoMatch(WwwMatch, input) && NoMatch(EmailMatch, input) ==> r == input
  {
    if input == [] then input
    else
      PassesUnchanged(input);
      ReplaceAll(EmailMatch, ReplaceAll(WwwMatch, ReplaceAll(UrlMatch, input, LINK), LINK), EMAIL)
  }

  /** The three passes leave text without matches unchanged. */
  lemma PassesUnchanged(input: string)
    ensures NoMatch(UrlMatch, input) && NoMatch(WwwMatch, input) && NoMatch(EmailMatch, input) ==>
      Passes(input) == input
  {
    if NoMatch(UrlMatch, input) && NoMatch(WwwMatch, input) && NoMatch(EmailMatch, input) {
      ReplaceAllNoMatch(UrlMatch, input, LINK);
      ReplaceAllNoMatch(WwwMatch, input, LINK);
      ReplaceAllNoMatch(EmailMatch, input, EMAIL);
    }
  }

  lemma PrefixCI(p: string, rest: string)
    ensures StartsWithCI(p + rest, p)
  {
    assert forall i :: 0 <= i < |p| ==> (p + rest)[i] == p[i];
  }

  lemma {:induction false} NonSpaceRunAll(s: string)
    requires forall i :: 0 <= i < |s| ==> !IsSpace(s[i])
    ensures NonSpaceRun(s) == |s|
  {
    if s != [] {
      NonSpaceRunAll(s[1..]);
    }
  }

  /** A URL followed only by non-whitespace is matched to the end. */
  lemma UrlMatchesWhole(rest: string)
    requires rest != [] && forall i :: 0 <= i < |rest| ==> !IsSpace(rest[i])
    ensures UrlMatch("http://" + rest) == 7 + |rest|
    ensures UrlMatch("https://" + rest) == 8 + |rest|
  {
    NonSpaceRunAll(rest);
    var s := "http://" + rest;
    assert s[7..] == rest;
    PrefixCI("http://", rest);
    assert !StartsWithCI(s, "https://") by { assert Lower(s[4]) != Lower("https://"[4]); }
    var t := "https://" + rest;
    assert t[8..] == rest;
    PrefixCI("https://", rest);
  }

  /** A whole-string URL becomes a single link placeholder in the first pass. */
  lemma UrlBecomesLink(rest: string)
    requires rest != [] && forall i :: 0 <= i < |rest| ==> !IsSpace(rest[i])
    ensures ReplaceAll(UrlMatch, "http://" + rest, LINK) == LINK
    ensures ReplaceAll(UrlMatch, "https://" + rest, LINK) == LINK
  {
    UrlMatchesWhole(rest);
    WholeMatch(UrlMatch, "http://" + rest, LINK);
    WholeMatch(UrlMatch, "https://" + rest, LINK);
  }

  /** A `www.` token followed by non-whitespace becomes a link placeholder in the second pass. */
  lemma WwwBecomesLink(rest: string)
    requires rest != [] && forall i :: 0 <= i < |rest| ==> !IsSpace(rest[i])
    ensures ReplaceAll(WwwMatch, "www." + rest, LINK) == LINK
  {
    NonSpaceRunAll(rest);
    var s := "www." + rest;
    assert s[4..] == rest;
    PrefixCI("www.", rest);
    WholeMatch(WwwMatch, s, LINK);
  }

  /** `local@domain.tld` with a two-to-six-letter top-level domain is matched whole. */
  lemma EmailMatched(local: string, domain: string, tld: string)
    requires local != [] && forall i :: 0 <= i < |local| ==> IsEmailChar(local[i])
    requires domain != [] && forall i :: 0 <= i < |domain| ==> IsEmailChar(domain[i])
    requires 2 <= |tld| <= 6 && forall i :: 0 <= i < |tld| ==> IsAsciiLetter(tld[i])
    ensures EmailMatch(local + "@" + domain + "." + tld) == |local + "@" + domain + "." + tld|
  {
    var d := domain + "." + tld;
    assert local + "@" + domain + "." + tld == local + "@" + d;
    AddressShape(local, d);
    DomainLengthSplit(domain, tld);
  }

  /** An address splits at its `@` into the local part and the domain. */
  lemma AddressShape(local: string, d: string)
    requires local != [] && forall i :: 0 <= i < |local| ==> IsEmailChar(local[i])
    ensures var s := local + "@" + d;
      s == local + ("@" + d) && EmailRun(s) == |local| && s[|local|] == '@' && s[|local| + 1..] == d
  {
    var s := local + "@" + d;
    assert s == local + ("@" + d);
    EmailRunStops(local, "@" + d);
  }

  /** A domain followed by a dot and two to six letters is matched whole. */
  lemma DomainLengthSplit(domain: string, tld: string)
    requires domain != [] && forall i :: 0 <= i < |domain| ==> IsEmailChar(domain[i])
    requires 2 <= |tld| <= 6 && forall i :: 0 <= i < |tld| ==> IsAsciiLetter(tld[i])
    ensures DomainLength(domain + "." + tld) == |domain| + 1 + |tld|
  {
    var d := domain + "." + tld;
    DomainSplit(domain, tld);
    DomainLengthOf(d, |d|, |domain|, |tld|);
  }

  /** In `domain.tld` the whole text is domain characters and the split falls on the dot before the top-level domain. */
  lemma DomainSplit(domain: string, tld: string)
    requires domain != [] && forall i :: 0 <= i < |domain| ==> IsEmailChar(domain[i])
    requires 2 <= |tld| <= 6 && forall i :: 0 <= i < |tld| ==> IsAsciiLetter(tld[i])
    ensures var d := domain + "." + tld;
      EmailRun(d) == |d| && DomainDot(d, |d|) == |domain| && LetterRun(d[|domain| + 1..]) == |tld|
  {
    var d := domain + "." + tld;
    var dt := "." + tld;
    EmailRunAll(tld);
    EmailRunAppend(domain, dt);
    EmailRunAll(dt);
    assert EmailRun(d) == |d| by { assert d == domain + dt; }
    assert d[|domain| + 1..] == tld;
    LetterRunAll(tld);
    DomainDotFinds(d, |d|, |domain|);
  }

  lemma {:induction false} DomainDotFinds(d: string, hi: nat, k: nat)
    requires k <= hi <= |d| && 1 <= k < |d| && d[k] == '.' && LetterRun(d[k + 1..]) >= 2
    requires forall j :: k < j < |d| ==> d[j] != '.'
    ensures DomainDot(d, hi) == k
    decreases hi
  {
    if hi != k {
      DomainDotFinds(d, hi - 1, k);
    }
  }

  lemma {:induction false} EmailRunAll(s: string)
    requires forall i :: 0 <= i < |s| ==> IsEmailChar(s[i])
    ensures EmailRun(s) == |s|
  {
    if s != [] {
      EmailRunAll(s[1..]);
    }
  }

  lemma {:induction false} EmailRunAppend(a: string, b: string)
    requires forall i :: 0 <= i < |a| ==> IsEmailChar(a[i])
    ensures EmailRun(a + b) == |a| + EmailRun(b)
  {
    if a != [] {
      assert (a + b)[1..] == a[1..] + b;
      EmailRunAppend(a[1..], b);
    } else {
      assert a + b == b;
    }
  }

  lemma EmailRunStops(a: string, b: string)
    requires forall i :: 0 <= i < |a| ==> IsEmailChar(a[i])
    requires b != [] && !IsEmailChar(b[0])
    ensures EmailRun(a + b) == |a|
  {
    EmailRunAppend(a, b);
  }

  lemma {:induction false} LetterRunAll(s: string)
    requires forall i :: 0 <= i < |s| ==> IsAsciiLetter(s[i])
    ensures LetterRun(s) == |s|
  {
    if s != [] {
      LetterRunAll(s[1..]);
    }
  }

  // Whitespace separates what the three patterns match.

  /** `m` never matches past what is left of the string. */
  ghost predicate Bounded(m: string -> nat) {
    forall s :: m(s) <= |s|
  }

  /** What `m` matches at the start of `t` does not depend on text after `t` that starts with whitespace. */
  ghost predicate StopsAtSpace(m: string -> nat) {
    forall t: string, u: string :: (u == [] || IsSpace(u[0])) ==> m(t + u) == m(t)
  }

  /** The three runs stop at whitespace. */
  lemma RunsStopAtSpace(t: string, u: string)
    requires u == [] || IsSpace(u[0])
    ensures NonSpaceRun(t + u) == NonSpaceRun(t)
    ensures EmailRun(t + u) == EmailRun(t)
    ensures LetterRun(t + u) == LetterRun(t)
  {
    NonSpaceRunAtSpace(t, u);
    EmailRunAtSpace(t, u);
    LetterRunAtSpace(t, u);
  }

  lemma {:induction false} NonSpaceRunAtSpace(t: string, u: string)
    requires u == [] || IsSpace(u[0])
    ensures NonSpaceRun(t + u) == NonSpaceRun(t)
  {
    if t == [] {
      assert t + u == u;
    } else {
      assert (t + u)[0] == t[0];
      assert (t + u)[1..] == t[1..] + u;
      NonSpaceRunAtSpace(t[1..], u);
    }
  }

  lemma {:induction false} EmailRunAtSpace(t: string, u: string)
    requires u == [] || IsSpace(u[0])
    ensures EmailRun(t + u) == EmailRun(t)
  {
    if t == [] {
      assert t + u == u;
    } else {
      assert (t + u)[0] == t[0];
      assert (t + u)[1..] == t[1..] + u;
      EmailRunAtSpace(t[1..], u);
    }
  }

  lemma {:induction false} LetterRunAtSpace(t: string, u: string)
    requires u == [] || IsSpace(u[0])
    ensures LetterRun(t + u) == LetterRun(t)
  {
    if t == [] {
      assert t + u == u;
    } else {
      assert (t + u)[0] == t[0];
      assert (t + u)[1..] == t[1..] + u;
      LetterRunAtSpace(t[1..], u);
    }
  }

  /** Whether `t` starts with a prefix free of whitespace followed by a non-space character does not depend on what follows a space. */
  lemma {:induction false} PrefixStopsAtSpace(t: string, u: string, p: string)
    requires u == [] || IsSpace(u[0])
    requires forall j :: 0 <= j < |p| ==> '!' <= p[j] <= '~'
    ensures PrefixThenNonSpace(t + u, p) <==> PrefixThenNonSpace(t, p)
    ensures PrefixThenNonSpace(t, p) ==> NonSpaceRun((t + u)[|p|..]) == NonSpaceRun(t[|p|..])
  {
    var s := t + u;
    if u == [] {
      assert s == t;
    } else if |t| > |p| {
      assert forall j :: 0 <= j <= |p| ==> s[j] == t[j];
      assert s[|p|..] == t[|p|..] + u;
      RunsStopAtSpace(t[|p|..], u);
    } else if |t| < |p| {
      assert s[|t|] == u[0];
      assert Lower(s[|t|]) == s[|t|];
      assert '!' <= Lower(p[|t|]) <= '~';
    } else {
      assert s[|p|] == u[0];
    }
  }

  lemma {:induction false} UrlStopsAtSpace(t: string, u: string)
    requires u == [] || IsSpace(u[0])
    ensures UrlMatch(t + u) == UrlMatch(t)
  {
    PrefixStopsAtSpace(t, u, "https://");
    PrefixStopsAtSpace(t, u, "http://");
  }

  lemma {:induction false} WwwStopsAtSpace(t: string, u: string)
    requires u == [] || IsSpace(u[0])
    ensures WwwMatch(t + u) == WwwMatch(t)
  {
    PrefixStopsAtSpace(t, u, "www.");
  }

  /** A dot followed by two letters is found the same way when a space-led text follows. */
  lemma {:induction false} DotStopsAtSpace(d: string, u: string, j: nat)
    requires u == [] || IsSpace(u[0])
    requires j <= |d|
    ensures DotBeforeLetters(d + u, j) <==> DotBeforeLetters(d, j)
  {
    if j < |d| {
      assert (d + u)[j] == d[j];
      assert (d + u)[j + 1..] == d[j + 1..] + u;
      RunsStopAtSpace(d[j + 1..], u);
    } else if u != [] {
      assert (d + u)[j] == u[0];
    }
  }

  lemma {:induction false} DomainDotStopsAtSpace(d: string, u: string, hi: nat)
    requires u == [] || IsSpace(u[0])
    requires hi <= |d|
    ensures DomainDot(d + u, hi) == DomainDot(d, hi)
    decreases hi
  {
    if hi > 0 {
      DotStopsAtSpace(d, u, hi);
      DomainDotStopsAtSpace(d, u, hi - 1);
      if DotBeforeLetters(d, hi) {
        assert DomainDot(d + u, hi) == hi && DomainDot(d, hi) == hi;
      } else {
        assert DomainDot(d + u, hi) == DomainDot(d + u, hi - 1) && DomainDot(d, hi) == DomainDot(d, hi - 1);
      }
    }
  }

  /** The domain part of an e-mail match is found the same way when a space-led text follows. */
  lemma {:induction false} DomainStopsAtSpace(dt: string, u: string)
    requires u == [] || IsSpace(u[0])
    ensures DomainLength(dt + u) == DomainLength(dt)
  {
    var d := dt + u;
    RunsStopAtSpace(dt, u);
    var hi := EmailRun(dt);
    DomainDotStopsAtSpace(dt, u, hi);
    var k := DomainDot(dt, hi);
    if k > 0 {
      LettersAfterDotStop(dt, u, k);
      DomainLengthOf(d, hi, k, LetterRun(dt[k + 1..]));
      DomainLengthOf(dt, hi, k, LetterRun(dt[k + 1..]));
    } else {
      DomainLengthOf(d, hi, 0, 0);
      DomainLengthOf(dt, hi, 0, 0);
    }
  }

  /** `DomainLength` from its three parts. */
  lemma DomainLengthOf(d: string, hi: nat, k: nat, letters: nat)
    requires hi == EmailRun(d) && k == DomainDot(d, hi)
    requires k > 0 ==> k < |d| && letters == LetterRun(d[k + 1..])
    ensures DomainLength(d) == if k == 0 then 0 else k + 1 + (if letters > 6 then 6 else letters)
  {
  }

  lemma LettersAfterDotStop(dt: string, u: string, k: nat)
    requires u == [] || IsSpace(u[0])
    requires k < |dt|
    ensures LetterRun((dt + u)[k + 1..]) == LetterRun(dt[k + 1..])
  {
    assert (dt + u)[k + 1..] == dt[k + 1..] + u;
    RunsStopAtSpace(dt[k + 1..], u);
  }

  lemma {:induction false} EmailStopsAtSpace(t: string, u: string)
    requires u == [] || IsSpace(u[0])
    ensures EmailMatch(t + u) == EmailMatch(t)
  {
    var s := t + u;
    EmailRunAtSpace(t, u);
    var local := EmailRun(t);
    EmailMatchOf(s, local);
    EmailMatchOf(t, local);
    if u == [] {
      assert s == t;
    } else if local == |t| {
      assert s[local] == u[0];
    } else {
      assert s[local] == t[local];
      if t[local] == '@' {
        assert s[local + 1..] == t[local + 1..] + u;
        DomainStopsAtSpace(t[local + 1..], u);
      }
    }
  }

  /** `EmailMatch` unfolded at a local part of known length. */
  lemma EmailMatchOf(s: string, local: nat)
    requires local == EmailRun(s)
    ensures EmailMatch(s) ==
      if local == 0 || local == |s| || s[local] != '@' then 0
      else if DomainLength(s[local + 1..]) == 0 then 0
      else local + 1 + DomainLength(s[local + 1..])
  {
    if local == 0 || local == |s| || s[local] != '@' {
      assert EmailMatch(s) == 0;
    } else {
      var n := DomainLength(s[local + 1..]);
      assert EmailMatch(s) == if n == 0 then 0 else local + 1 + n;
    }
  }

  /** The three matchers are bounded and stop at whitespace. */
  lemma MatchersStopAtSpace()
    ensures Bounded(UrlMatch) && Bounded(WwwMatch) && Bounded(EmailMatch)
    ensures StopsAtSpace(UrlMatch) && StopsAtSpace(WwwMatch) && StopsAtSpace(EmailMatch)
  {
    forall t: string, u: string | u == [] || IsSpace(u[0])
      ensures UrlMatch(t + u) == UrlMatch(t) && WwwMatch(t + u) == WwwMatch(t) && EmailMatch(t + u) == EmailMatch(t)
    {
      UrlStopsAtSpace(t, u);
      WwwStopsAtSpace(t, u);
      EmailStopsAtSpace(t, u);
    }
  }

  /** No match starts at a whitespace character, so the scan keeps it. */
  lemma ReplaceAllKeepsSpace(m: string -> nat, x: string, ph: string)
    requires Bounded(m) && StopsAtSpace(m)
    requires x != [] && IsSpace(x[0])
    ensures ReplaceAll(m, x, ph) == [x[0]] + ReplaceAll(m, x[1..], ph)
  {
    assert [] + x == x;
    assert m([] + x) == m([]);
    ReplaceAllStep(m, x, ph);
  }

  /**
   * A pass over `a + b`, where `b` is empty or starts with whitespace, is the
   * pass over `a` followed by the pass over `b`, and the latter still starts
   * with that whitespace.
   */
  lemma ReplaceAllSplits(m: string -> nat, a: string, b: string, ph: string)
    requires Bounded(m) && StopsAtSpace(m)
    requires b == [] || IsSpace(b[0])
    ensures ReplaceAll(m, a + b, ph) == ReplaceAll(m, a, ph) + ReplaceAll(m, b, ph)
    ensures var r := ReplaceAll(m, b, ph); (r == [] || IsSpace(r[0])) && (b != [] ==> r != [] && r[0] == b[0])
    decreases |a|
  {
    if b != [] {
      ReplaceAllKeepsSpace(m, b, ph);
    }
    assert Separates(m, b) by {
      forall t: string ensures m(t + b) == m(t) {
      }
    }
    ReplaceAllSplitsAt(m, a, b, ph);
  }

  /** The three passes, one after the other. */
  function Passes(x: string): string {
    ReplaceAll(EmailMatch, ReplaceAll(WwwMatch, ReplaceAll(UrlMatch, x, LINK), LINK), EMAIL)
  }

  /**
   * Redaction works word by word: text split before a whitespace character
   * is redacted as its two parts are, since no pattern matches across
   * whitespace.
   */
  lemma RedactSplits(a: string, b: string)
    requires b == [] || IsSpace(b[0])
    ensures RedactSensitive(a + b) == RedactSensitive(a) + RedactSensitive(b)
  {
    MatchersStopAtSpace();
    var a1, b1 := ReplaceAll(UrlMatch, a, LINK), ReplaceAll(UrlMatch, b, LINK);
    ReplaceAllSplits(UrlMatch, a, b, LINK);
    var a2, b2 := ReplaceAll(WwwMatch, a1, LINK), ReplaceAll(WwwMatch, b1, LINK);
    ReplaceAllSplits(WwwMatch, a1, b1, LINK);
    ReplaceAllSplits(EmailMatch, a2, b2, EMAIL);
    assert RedactSensitive(a + b) == Passes(a + b);
    assert RedactSensitive(a) == Passes(a);
    assert RedactSensitive(b) == Passes(b);
  }

  /** A leading whitespace character is kept. */
  lemma RedactKeepsSpace(c: char, x: string)
    requires IsSpace(c)
    ensures RedactSensitive([c] + x) == [c] + RedactSensitive(x)
  {
    MatchersStopAtSpace();
    var s := [c] + x;
    assert s[1..] == x;
    var x1 := ReplaceAll(UrlMatch, x, LINK);
    ReplaceAllKeepsSpace(UrlMatch, s, LINK);
    assert ([c] + x1)[1..] == x1;
    var x2 := ReplaceAll(WwwMatch, x1, LINK);
    ReplaceAllKeepsSpace(WwwMatch, [c] + x1, LINK);
    assert ([c] + x2)[1..] == x2;
    ReplaceAllKeepsSpace(EmailMatch, [c] + x2, EMAIL);
    assert RedactSensitive(x) == Passes(x);
  }

  /** A word between two spaces is redacted on its own, and so are the texts around it. */
  lemma RedactWordInText(pre: string, w: string, post: string)
    ensures RedactSensitive(pre + " " + w + " " + post) ==
      RedactSensitive(pre) + " " + RedactSensitive(w) + " " + RedactSensitive(post)
  {
    var tail := " " + post;
    var mid := w + tail;
    RedactSplits(w, tail);
    RedactKeepsSpace(' ', post);
    var rpost := RedactSensitive(post);
    assert RedactSensitive(mid) == RedactSensitive(w) + " " + rpost;
    RedactKeepsSpace(' ', mid);
    RedactSplits(pre, " " + mid);
    WordInTextShape(pre, w, post, RedactSensitive(pre), RedactSensitive(w), rpost);
  }

  lemma WordInTextShape(pre: string, w: string, post: string, a: string, b: string, c: string)
    ensures pre + " " + w + " " + post == pre + (" " + (w + (" " + post)))
    ensures a + (" " + (b + " " + c)) == a + " " + b + " " + c
  {
  }

  /** Neither the second nor the third pattern occurs in the link placeholder. */
  lemma LinkIsInert()
    ensures NoMatch(WwwMatch, LINK) && NoMatch(EmailMatch, LINK)
  {
    PlaceholdersBracketed();
    forall i | 0 <= i < |LINK| ensures WwwMatch(LINK[i..]) == 0 && EmailMatch(LINK[i..]) == 0 {
      assert LINK[i..] + [] == LINK[i..];
      LinkInertAt(LINK, i, []);
      EmailInertAt(LINK, i, []);
    }
  }

  /** The placeholder of the first two passes goes through the later passes unchanged. */
  lemma LinkSurvives()
    ensures ReplaceAll(EmailMatch, ReplaceAll(WwwMatch, LINK, LINK), EMAIL) == LINK
  {
    LinkIsInert();
    ReplaceAllNoMatch(WwwMatch, LINK, LINK);
    ReplaceAllNoMatch(EmailMatch, LINK, EMAIL);
  }

  /** An `http://` or `https://` link is redacted to the link placeholder. */
  lemma UrlRedacted(rest: string)
    requires rest != [] && forall i :: 0 <= i < |rest| ==> !IsSpace(rest[i])
    ensures RedactSensitive("http://" + rest) == LINK
    ensures RedactSensitive("https://" + rest) == LINK
  {
    UrlBecomesLink(rest);
    LinkSurvives();
  }

  /** A text without a colon holds no `http://` or `https://` link. */
  lemma NoColonNoUrl(s: string)
    requires forall i :: 0 <= i < |s| ==> s[i] != ':'
    ensures NoMatch(UrlMatch, s)
  {
    forall i | 0 <= i < |s| ensures UrlMatch(s[i..]) == 0 {
      var t := s[i..];
      assert |t| < 6 || (Lower(t[4]) != ':' && Lower(t[5]) != ':');
    }
  }

  /**
   * A `www.` link is redacted to the link placeholder, even when an
   * `http(s)://` link inside it was replaced first.
   */
  lemma WwwRedacted(rest: string)
    requires rest != [] && forall i :: 0 <= i < |rest| ==> !IsSpace(rest[i])
    ensures RedactSensitive("www." + rest) == LINK
  {
    var s := "www." + rest;
    var r1 := ReplaceAll(UrlMatch, rest, LINK);
    WwwFirstPass(rest);
    LinkHasNoSpace();
    ReplaceAllNonSpace(UrlMatch, rest, LINK);
    WwwBecomesLink(r1);
    var r2 := ReplaceAll(WwwMatch, ReplaceAll(UrlMatch, s, LINK), LINK);
    assert r2 == LINK;
    LinkIsInert();
    ReplaceAllNoMatch(EmailMatch, LINK, EMAIL);
    assert RedactSensitive(s) == ReplaceAll(EmailMatch, r2, EMAIL);
  }

  lemma LinkHasNoSpace()
    ensures LINK != [] && forall i :: 0 <= i < |LINK| ==> !IsSpace(LINK[i])
  {
    forall i | 0 <= i < |LINK| ensures !IsSpace(LINK[i]) {
      assert 'A' <= LINK[i] <= ']';
    }
  }

  /** The first pass keeps the `www.` and works on what follows it. */
  lemma WwwFirstPass(rest: string)
    ensures ReplaceAll(UrlMatch, "www." + rest, LINK) == "www." + ReplaceAll(UrlMatch, rest, LINK)
  {
    var head := "www.";
    forall i | 0 <= i < |head| ensures UrlMatch(head[i..] + rest) == 0 {
      var t := head[i..] + rest;
      assert t[0] == head[i];
      MatchHeads(t);
    }
    KeepPrefix(UrlMatch, head, rest, LINK);
  }

  /** A pass over non-empty text without whitespace, with a placeholder without whitespace, gives such text. */
  lemma {:induction false} ReplaceAllNonSpace(m: string -> nat, s: string, ph: string)
    requires forall i :: 0 <= i < |s| ==> !IsSpace(s[i])
    requires ph != [] && forall i :: 0 <= i < |ph| ==> !IsSpace(ph[i])
    ensures var r := ReplaceAll(m, s, ph); (s != [] ==> r != []) && forall i :: 0 <= i < |r| ==> !IsSpace(r[i])
    decreases |s|
  {
    if s != [] {
      var n := m(s);
      var k := if 0 < n <= |s| then n else 1;
      var head := if 0 < n <= |s| then ph else [s[0]];
      ReplaceAllNonSpace(m, s[k..], ph);
      assert ReplaceAll(m, s, ph) == head + ReplaceAll(m, s[k..], ph);
    }
  }

  /**
   * An e-mail address is redacted to the e-mail placeholder, unless the
   * second pattern finds a `www.` in it first.
   */
  lemma EmailRedacted(local: string, domain: string, tld: string)
    requires local != [] && forall i :: 0 <= i < |local| ==> IsEmailChar(local[i])
    requires domain != [] && forall i :: 0 <= i < |domain| ==> IsEmailChar(domain[i])
    requires 2 <= |tld| <= 6 && forall i :: 0 <= i < |tld| ==> IsAsciiLetter(tld[i])
    requires NoMatch(WwwMatch, local + "@" + domain + "." + tld)
    ensures RedactSensitive(local + "@" + domain + "." + tld) == EMAIL
  {
    var s := local + "@" + domain + "." + tld;
    assert forall i :: 0 <= i < |s| ==> s[i] != ':' by {
      forall i | 0 <= i < |s| ensures s[i] != ':' {
        if i < |local| {
          assert s[i] == local[i];
        } else if i == |local| {
          assert s[i] == '@';
        } else if i < |local| + 1 + |domain| {
          assert s[i] == domain[i - |local| - 1];
        } else if i == |local| + 1 + |domain| {
          assert s[i] == '.';
        } else {
          assert s[i] == tld[i - |local| - 2 - |domain|];
        }
      }
    }
    NoColonNoUrl(s);
    ReplaceAllNoMatch(UrlMatch, s, LINK);
    ReplaceAllNoMatch(WwwMatch, s, LINK);
    EmailMatched(local, domain, tld);
    WholeMatch(EmailMatch, s, EMAIL);
  }

  /** A link between spaces is replaced in place; the text around it is redacted on its own. */
  lemma UrlInText(pre: string, rest: string, post: string)
    requires rest != [] && forall i :: 0 <= i < |rest| ==> !IsSpace(rest[i])
    ensures RedactSensitive(pre + " " + ("https://" + rest) + " " + post) ==
      RedactSensitive(pre) + " " + LINK + " " + RedactSensitive(post)
    ensures RedactSensitive(pre + " " + ("http://" + rest) + " " + post) ==
      RedactSensitive(pre) + " " + LINK + " " + RedactSensitive(post)
  {
    UrlRedacted(rest);
    RedactWordInText(pre, "https://" + rest, post);
    RedactWordInText(pre, "http://" + rest, post);
  }

  /**
   * The `www.` pass runs before the e-mail pass, so an address whose local
   * part starts with `www.` is redacted as a link.
   */
  lemma WwwAddressIsLink()
    ensures RedactSensitive("www.me@site.org") == LINK
  {
    var rest := "me@site.org";
    assert "www.me@site.org" == "www." + rest;
    WwwRedacted(rest);
  }

  // Redacted text holds nothing left to redact.

  /** Every match of `m` starts with a non-whitespace character. */
  ghost predicate StartsNonSpace(m: string -> nat) {
    forall t :: m(t) > 0 ==> t != [] && !IsSpace(t[0])
  }

  /** A link starts with `h` or `w` (up to case), an e-mail address with a `[\w.-]` character. */
  lemma MatchHeads(t: string)
    ensures UrlMatch(t) > 0 ==> t != [] && Lower(t[0]) == 'h'
    ensures WwwMatch(t) > 0 ==> t != [] && Lower(t[0]) == 'w'
    ensures EmailMatch(t) > 0 ==> t != [] && IsEmailChar(t[0])
  {
    if PrefixThenNonSpace(t, "https://") {
      StartsWithCIAt(t, "https://", 0);
    }
    if PrefixThenNonSpace(t, "http://") {
      StartsWithCIAt(t, "http://", 0);
    }
    if PrefixThenNonSpace(t, "www.") {
      StartsWithCIAt(t, "www.", 0);
    }
    EmailMatchOf(t, EmailRun(t));
  }

  lemma MatchersStartNonSpace()
    ensures StartsNonSpace(UrlMatch) && StartsNonSpace(WwwMatch) && StartsNonSpace(EmailMatch)
  {
    forall t: string
      ensures (UrlMatch(t) > 0 ==> t != [] && !IsSpace(t[0])) && (WwwMatch(t) > 0 ==> t != [] && !IsSpace(t[0]))
      ensures EmailMatch(t) > 0 ==> t != [] && !IsSpace(t[0])
    {
      MatchHeads(t);
    }
  }

  /** A prefix that does not occur before a non-space character does not occur before a `[` either. */
  lemma PrefixBlocked(x: string, t: string, ph: string, y: string, p: string)
    requires t != [] && !IsSpace(t[0]) && ph != [] && ph[0] == '['
    requires forall i :: 0 <= i < |p| ==> Lower(p[i]) != '['
    ensures PrefixThenNonSpace(x + ph + y, p) ==> PrefixThenNonSpace(x + t, p)
  {
    var o, e := x + ph + y, x + t;
    if |x| < |p| {
      assert o[|x|] == '[';
      assert Lower(o[|x|]) != Lower(p[|x|]);
    } else {
      assert forall i :: 0 <= i < |p| ==> e[i] == o[i];
      if |x| == |p| {
        assert e[|p|] == t[0];
      } else {
        assert e[|p|] == o[|p|];
      }
    }
  }

  /** A `[`-led placeholder put where a match started creates no link before it. */
  lemma LinkBlocked(m2: string -> nat, ph: string)
    requires StartsNonSpace(m2) && ph != [] && ph[0] == '['
    ensures Blocks(UrlMatch, m2, ph) && Blocks(WwwMatch, m2, ph)
  {
    forall x: string, t: string, y: string | m2(t) > 0
      ensures UrlMatch(x + t) == 0 ==> UrlMatch(x + ph + y) == 0
      ensures WwwMatch(x + t) == 0 ==> WwwMatch(x + ph + y) == 0
    {
      PrefixBlocked(x, t, ph, y, "https://");
      PrefixBlocked(x, t, ph, y, "http://");
      PrefixBlocked(x, t, ph, y, "www.");
    }
  }

  lemma LetterRunTwo(s: string)
    requires |s| >= 2 && IsAsciiLetter(s[0]) && IsAsciiLetter(s[1])
    ensures LetterRun(s) >= 2
  {
    assert s[1..][0] == s[1];
    assert LetterRun(s[1..]) >= 1;
  }

  lemma {:induction false} EmailRunAtLeast(s: string, k: nat)
    requires k <= |s| && forall i :: 0 <= i < k ==> IsEmailChar(s[i])
    ensures EmailRun(s) >= k
  {
    if k > 0 {
      EmailRunAtLeast(s[1..], k - 1);
    }
  }

  lemma DomainDotAtLeast(d: string, hi: nat, k: nat)
    requires hi <= |d| && 1 <= k <= hi && DotBeforeLetters(d, k)
    ensures DomainDot(d, hi) >= k
  {
    DomainDotIsLast(d, hi);
  }

  /**
   * A domain match before a placeholder that starts with a non-`[\w.-]`
   * character lies wholly before it, so it is a match whatever follows.
   */
  lemma DomainBlocked(xx: string, t: string, ph: string, y: string)
    requires ph != [] && !IsEmailChar(ph[0])
    ensures DomainLength(xx + ph + y) > 0 ==> DomainLength(xx + t) > 0
  {
    var o, e := xx + ph + y, xx + t;
    assert o[|xx|] == ph[0];
    var hi := EmailRun(o);
    var k := DomainDot(o, hi);
    if k > 0 {
      var lo, le := o[k + 1..], e[k + 1..];
      assert IsAsciiLetter(lo[0]) && IsAsciiLetter(lo[1]);
      assert k + 2 < |xx|;
      assert le[0] == lo[0] && le[1] == lo[1];
      LetterRunTwo(le);
      assert DotBeforeLetters(e, k);
      forall i | 0 <= i < k ensures IsEmailChar(e[i]) {
        assert e[i] == o[i];
      }
      EmailRunAtLeast(e, k);
      var hiE := EmailRun(e);
      DomainDotAtLeast(e, hiE, k);
      var kE := DomainDot(e, hiE);
      DomainLengthOf(e, hiE, kE, LetterRun(e[kE + 1..]));
    } else {
      DomainLengthOf(o, hi, 0, 0);
    }
  }

  /**
   * An e-mail match before a placeholder that starts with neither a `[\w.-]`
   * character nor `@` lies wholly before it, so it is a match whatever follows.
   */
  lemma EmailBlocked(x: string, t: string, ph: string, y: string)
    requires ph != [] && !IsEmailChar(ph[0]) && ph[0] != '@'
    ensures EmailMatch(x + ph + y) > 0 ==> EmailMatch(x + t) > 0
  {
    var o, e := x + ph + y, x + t;
    var local := EmailRun(o);
    if EmailMatch(o) > 0 {
      LocalBeforePlaceholder(x, t, ph, y, local);
      SlicesAfter(x, t, ph, y, local + 1);
      DomainBlocked(x[local + 1..], t, ph, y);
      EmailMatchFromParts(e, local);
    }
  }

  lemma EmailMatchFromParts(s: string, local: nat)
    requires local == EmailRun(s) && 0 < local < |s| && s[local] == '@' && DomainLength(s[local + 1..]) > 0
    ensures EmailMatch(s) > 0
  {
    EmailMatchOf(s, local);
  }

  lemma SlicesAfter(x: string, t: string, ph: string, y: string, k: nat)
    requires k <= |x|
    ensures (x + ph + y)[k..] == x[k..] + ph + y && (x + t)[k..] == x[k..] + t
  {
  }

  /** The local part and the `@` of a match before the placeholder lie before it. */
  lemma LocalBeforePlaceholder(x: string, t: string, ph: string, y: string, local: nat)
    requires ph != [] && !IsEmailChar(ph[0]) && ph[0] != '@'
    requires local == EmailRun(x + ph + y) && local < |x + ph + y| && (x + ph + y)[local] == '@'
    ensures local < |x| && EmailRun(x + t) == local && (x + t)[local] == '@'
  {
    var o, e := x + ph + y, x + t;
    assert o[|x|] == ph[0];
    assert local < |x|;
    var a, b := x[..local], x[local..] + t;
    forall i | 0 <= i < local ensures IsEmailChar(a[i]) {
      assert a[i] == o[i];
    }
    assert e == a + b;
    assert b[0] == o[local];
    EmailRunStops(a, b);
  }

  lemma EmailPlaceholderBlocks()
    ensures Blocks(EmailMatch, EmailMatch, EMAIL)
  {
    forall x: string, t: string, y: string ensures EmailMatch(x + t) == 0 ==> EmailMatch(x + EMAIL + y) == 0 {
      EmailBlocked(x, t, EMAIL, y);
    }
  }

  /** `[`, then upper-case letters other than `H` and `W`, then `]`: the shape of both placeholders. */
  predicate Bracketed(ph: string) {
    2 <= |ph| && ph[0] == '[' && ph[|ph| - 1] == ']' &&
    forall i :: 0 < i < |ph| - 1 ==> 'A' <= ph[i] <= 'Z' && ph[i] != 'H' && ph[i] != 'W'
  }

  lemma PlaceholdersBracketed()
    ensures Bracketed(LINK) && Bracketed(EMAIL)
  {
  }

  /** No link starts inside a bracketed placeholder: none of its characters is `h` or `w`. */
  lemma LinkInertAt(ph: string, j: nat, y: string)
    requires Bracketed(ph) && j < |ph|
    ensures UrlMatch(ph[j..] + y) == 0 && WwwMatch(ph[j..] + y) == 0
  {
    var s := ph[j..] + y;
    assert s[0] == ph[j];
    MatchHeads(s);
  }

  /** No e-mail address starts inside a bracketed placeholder: its letters run into `]`, not `@`. */
  lemma EmailInertAt(ph: string, j: nat, y: string)
    requires Bracketed(ph) && j < |ph|
    ensures EmailMatch(ph[j..] + y) == 0
  {
    var s := ph[j..] + y;
    var last := |ph| - 1;
    assert s[0] == ph[j];
    if 0 < j < last {
      var a, b := ph[j..last], ph[last..] + y;
      forall i | 0 <= i < |a| ensures IsEmailChar(a[i]) {
        assert a[i] == ph[j + i];
      }
      assert s == a + b;
      assert b[0] == ']';
      EmailRunStops(a, b);
      assert s[|a|] == ']';
    } else {
      assert !IsEmailChar(s[0]);
      assert EmailRun(s) == 0;
    }
  }

  lemma PlaceholderInert(ph: string)
    requires Bracketed(ph)
    ensures Inert(UrlMatch, ph) && Inert(WwwMatch, ph) && Inert(EmailMatch, ph)
  {
    forall j, y: string | 0 <= j < |ph|
      ensures UrlMatch(ph[j..] + y) == 0 && WwwMatch(ph[j..] + y) == 0 && EmailMatch(ph[j..] + y) == 0
    {
      LinkInertAt(ph, j, y);
      EmailInertAt(ph, j, y);
    }
  }

  /** No pattern starts inside either placeholder, whatever follows it. */
  lemma PlaceholdersInert()
    ensures Inert(UrlMatch, LINK) && Inert(WwwMatch, LINK) && Inert(EmailMatch, LINK)
    ensures Inert(UrlMatch, EMAIL) && Inert(WwwMatch, EMAIL) && Inert(EmailMatch, EMAIL)
  {
    PlaceholdersBracketed();
    PlaceholderInert(LINK);
    PlaceholderInert(EMAIL);
  }

  /** None of the three patterns matches anywhere in redacted text. */
  lemma RedactLeavesNoMatch(s: string)
    ensures var r := RedactSensitive(s); NoMatch(UrlMatch, r) && NoMatch(WwwMatch, r) && NoMatch(EmailMatch, r)
  {
    if s != [] {
      MatchersStopAtSpace();
      MatchersStartNonSpace();
      PlaceholdersInert();
      LinkBlocked(UrlMatch, LINK);
      LinkBlocked(WwwMatch, LINK);
      LinkBlocked(EmailMatch, EMAIL);
      EmailPlaceholderBlocks();
      var r1 := ReplaceAll(UrlMatch, s, LINK);
      var r2 := ReplaceAll(WwwMatch, r1, LINK);
      PassRemovesMatches(UrlMatch, s, LINK);
      PassKeepsNoMatch(UrlMatch, WwwMatch, r1, LINK);
      PassRemovesMatches(WwwMatch, r1, LINK);
      PassKeepsNoMatch(UrlMatch, EmailMatch, r2, EMAIL);
      PassKeepsNoMatch(WwwMatch, EmailMatch, r2, EMAIL);
      PassRemovesMatches(EmailMatch, r2, EMAIL);
      assert RedactSensitive(s) == ReplaceAll(EmailMatch, r2, EMAIL);
    }
  }

  /** Redacting twice is redacting once. */
  lemma RedactIdempotent(s: string)
    ensures RedactSensitive(RedactSensitive(s)) == RedactSensitive(s)
  {
    RedactLeavesNoMatch(s);
  }
}
