/** The handful of Python `str` operations the header parser relies on, over `seq<char>`. */
module Strings {
  import opened Wrappers

  /** The characters for which Python's `str.isspace()` holds: what `strip()` with no argument removes. */
  predicate IsSpace(c: char) {
    || '\t' <= c <= '\r' || '\U{1C}' <= c <= ' ' || c == '\U{85}' || c == '\U{A0}' || c == '\U{1680}'
    || '\U{2000}' <= c <= '\U{200A}' || c == '\U{2028}' || c == '\U{2029}' || c == '\U{202F}' || c == '\U{205F}'
    || c == '\U{3000}'
  }

  /** The same characters as a set, the argument `strip()` passes to `strip(cs)`. */
  const Whitespace: set<char> := set c: char | '\t' <= c <= '\U{3000}' && IsSpace(c)

  /** An ASCII decimal digit. */
  predicate IsDigit(c: char) {
    '0' <= c <= '9'
  }

  predicate AllDigits(s: string) {
    forall k :: 0 <= k < |s| ==> IsDigit(s[k])
  }

  /** A run of digits has no separator or space in it and no whitespace at either end. */
  lemma DigitsStripped(digits: string)
    requires digits != [] && AllDigits(digits)
    ensures ',' !in digits && ':' !in digits && ' ' !in digits
    ensures digits[|digits| - 1] !in Whitespace && digits[|digits| - 1] !in {' ', ')'}
    ensures digits[0] !in Whitespace
  {
    assert IsDigit(digits[0]) && IsDigit(digits[|digits| - 1]);
  }

  /** `sub` occurs in `s` starting at index `i`. */
  predicate OccursAt(s: string, sub: string, i: nat) {
    i + |sub| <= |s| && s[i..i + |sub|] == sub
  }

  /** Python's `sub in s`. */
  predicate Contains(s: string, sub: string)
    ensures Contains(s, sub) ==> |sub| <= |s|
    ensures |sub| <= |s| && s[..|sub|] == sub ==> Contains(s, sub)
  {
    assert |sub| <= |s| && s[..|sub|] == sub ==> OccursAt(s, sub, 0);
    exists i: nat | i <= |s| :: OccursAt(s, sub, i)
  }

  /** Neither end of `s` is a character of `cs`: what `strip(cs)` leaves. */
  predicate Stripped(s: string, cs: set<char>) {
    s == [] || (s[0] !in cs && s[|s| - 1] !in cs)
  }

  /** Every character of `s` is in `cs`. */
  predicate AllIn(s: string, cs: set<char>) {
    forall k :: 0 <= k < |s| ==> s[k] in cs
  }

  /** The index of the first `c` in `s` (`s.find(c)` when that is not -1). */
  function IndexOf(s: string, c: char): (r: Option<nat>)
    ensures r.None? <==> c !in s
    ensures r.Some? ==> r.value < |s| && s[r.value] == c && c !in s[..r.value]
  {
    if s == [] then None
    else if s[0] == c then Some(0)
    else
      match IndexOf(s[1..], c)
      case None => None
      case Some(i) =>
        assert s[..i + 1] == [s[0]] + s[1..][..i];
        Some(i + 1)
  }

  /** The index of the last `c` in `s` (`s.rfind(c)` when that is not -1). */
  function LastIndexOf(s: string, c: char): (r: Option<nat>)
    ensures r.None? <==> c !in s
    ensures r.Some? ==> r.value < |s| && s[r.value] == c && c !in s[r.value + 1..]
  {
    if s == [] then None
    else if s[|s| - 1] == c then Some(|s| - 1)
    else
      var r := LastIndexOf(s[..|s| - 1], c);
      assert r.None? ==> s == s[..|s| - 1] + [s[|s| - 1]];
      assert r.Some? ==> s[r.value + 1..] == s[..|s| - 1][r.value + 1..] + [s[|s| - 1]];
      r
  }

  /** `s.split(c, 1)[0]`: the text before the first `c`, or all of `s` when it has none. */
  function Before(s: string, c: char): (r: string)
    ensures c !in r
    ensures |r| <= |s| && r == s[..|r|]
    ensures |r| == |s| || s[|r|] == c
  {
    match IndexOf(s, c)
    case None => s
    case Some(i) => s[..i]
  }

  /** `s.split(c, 1)[1]`: the text after the first `c`; absent (an IndexError) when `s` has no `c`. */
  function After(s: string, c: char): (r: Option<string>)
    ensures r.None? <==> c !in s
    ensures r.Some? ==> s == Before(s, c) + [c] + r.value
  {
    match IndexOf(s, c)
    case None => None
    case Some(i) =>
      assert s == s[..i] + [c] + s[i + 1..];
      Some(s[i + 1..])
  }

  /** `s.rsplit(c, 1)[1]`: the text after the last `c`; absent (an IndexError) when `s` has no `c`. */
  function AfterLast(s: string, c: char): (r: Option<string>)
    ensures r.None? <==> c !in s
    ensures r.Some? ==> c !in r.value && |r.value| < |s| && s == s[..|s| - |r.value| - 1] + [c] + r.value
  {
    match LastIndexOf(s, c)
    case None => None
    case Some(i) =>
      assert s == s[..i] + [c] + s[i + 1..];
      Some(s[i + 1..])
  }

  /** `c.join(parts)`. */
  function Join(parts: seq<string>, c: char): string
    decreases |parts|
  {
    if parts == [] then ""
    else if |parts| == 1 then parts[0]
    else parts[0] + [c] + Join(parts[1..], c)
  }

  /** `s.split(c)`: the pieces of `s` between its occurrences of `c`. */
  function Split(s: string, c: char): (r: seq<string>)
    ensures |r| >= 1 && r[0] == Before(s, c)
    ensures |r| >= 2 <==> c in s
    ensures c in s ==> r[1] == Before(After(s, c).value, c)
    ensures forall k :: 0 <= k < |r| ==> c !in r[k]
    ensures Join(r, c) == s
    decreases |s|
  {
    match IndexOf(s, c)
    case None => [s]
    case Some(i) =>
      var rest := Split(s[i + 1..], c);
      assert s == s[..i] + [c] + s[i + 1..];
      [s[..i]] + rest
  }

  /** The index of the first character at or after `i` that is not in `cs`, or `|s|` when there is none. */
  function SkipFrom(s: string, cs: set<char>, i: nat): (n: nat)
    requires i <= |s|
    ensures i <= n <= |s|
    decreases |s| - i
  {
    if i < |s| && s[i] in cs then SkipFrom(s, cs, i + 1) else i
  }

  /** `SkipFrom` stops exactly at the end of the run of `cs` characters that starts at `i`. */
  lemma {:induction false} SkipFromIs(s: string, cs: set<char>, i: nat, m: nat)
    requires i <= m <= |s|
    ensures SkipFrom(s, cs, i) == m <==> (forall k :: i <= k < m ==> s[k] in cs) && (m == |s| || s[m] !in cs)
    decreases |s| - i
  {
    if i < |s| && s[i] in cs && i < m {
      SkipFromIs(s, cs, i + 1, m);
    } else if i < |s| && s[i] in cs {
      assert SkipFrom(s, cs, i + 1) > m;
    }
  }

  /** The index just past the last character before `j` that is not in `cs`, or 0 when there is none. */
  function KeepTo(s: string, cs: set<char>, j: nat): (n: nat)
    requires j <= |s|
    ensures n <= j
  {
    if j > 0 && s[j - 1] in cs then KeepTo(s, cs, j - 1) else j
  }

  /** `KeepTo` stops exactly at the start of the run of `cs` characters that ends at `j`. */
  lemma {:induction false} KeepToIs(s: string, cs: set<char>, j: nat, m: nat)
    requires m <= j <= |s|
    ensures KeepTo(s, cs, j) == m <==> (forall k :: m <= k < j ==> s[k] in cs) && (m == 0 || s[m - 1] !in cs)
  {
    if j > 0 && s[j - 1] in cs && m < j {
      KeepToIs(s, cs, j - 1, m);
    } else if j > 0 && s[j - 1] in cs {
      assert KeepTo(s, cs, j - 1) < m;
    }
  }

  /** `s.lstrip(cs)`. */
  function TrimStart(s: string, cs: set<char>): string {
    s[SkipFrom(s, cs, 0)..]
  }

  /** `s.rstrip(cs)`. */
  function TrimEnd(s: string, cs: set<char>): string {
    s[..KeepTo(s, cs, |s|)]
  }

  /** `s.strip(cs)`: `s` without its leading and trailing characters from `cs`. */
  function StripChars(s: string, cs: set<char>): (r: string)
    ensures Stripped(r, cs)
    ensures |r| <= |s|
  {
    var t := TrimStart(s, cs);
    SkipFromIs(s, cs, 0, SkipFrom(s, cs, 0));
    KeepToIs(t, cs, |t|, KeepTo(t, cs, |t|));
    TrimEnd(t, cs)
  }

  /** `strip(cs)` introduces no character. */
  lemma StripKeepsOut(s: string, cs: set<char>, ch: char)
    requires ch !in s
    ensures ch !in StripChars(s, cs)
  {
    var i := SkipFrom(s, cs, 0);
    var r := StripChars(s, cs);
    assert forall k :: 0 <= k < |r| ==> r[k] == s[i + k];
  }

  /** What `lstrip(cs)` drops is made of characters from `cs`. */
  lemma SkippedAllIn(s: string, cs: set<char>)
    ensures AllIn(s[..SkipFrom(s, cs, 0)], cs)
  {
    var i := SkipFrom(s, cs, 0);
    SkipFromIs(s, cs, 0, i);
    forall k | 0 <= k < i ensures s[..i][k] in cs {
      assert s[..i][k] == s[k];
    }
  }

  /** What `rstrip(cs)` drops is made of characters from `cs`. */
  lemma KeptTailAllIn(t: string, cs: set<char>)
    ensures AllIn(t[KeepTo(t, cs, |t|)..], cs)
  {
    var n := KeepTo(t, cs, |t|);
    KeepToIs(t, cs, |t|, n);
    forall k | 0 <= k < |t| - n ensures t[n..][k] in cs {
      assert t[n..][k] == t[n + k];
    }
  }

  /** What `strip(cs)` keeps is a contiguous piece of `s`, and everything it drops is in `cs`. */
  lemma StripIsInfix(s: string, cs: set<char>)
    ensures var r := StripChars(s, cs);
      exists i :: 0 <= i <= |s| - |r| && r == s[i..i + |r|] && AllIn(s[..i], cs) && AllIn(s[i + |r|..], cs)
  {
    var i := SkipFrom(s, cs, 0);
    var t := s[i..];
    var n := KeepTo(t, cs, |t|);
    SkippedAllIn(s, cs);
    KeptTailAllIn(t, cs);
    assert s[i + n..] == t[n..];
    assert StripChars(s, cs) == t[..n] == s[i..i + n];
  }

  /** Padding made only of characters from `cs` is exactly what `strip(cs)` removes. */
  lemma StripPadded(pre: string, core: string, post: string, cs: set<char>)
    requires AllIn(pre, cs) && AllIn(post, cs) && Stripped(core, cs)
    ensures StripChars(pre + core + post, cs) == core
  {
    var s := pre + core + post;
    if core == [] {
      assert forall k :: 0 <= k < |s| ==> s[k] in cs by {
        forall k | 0 <= k < |s| ensures s[k] in cs {
          if k < |pre| { assert s[k] == pre[k]; } else { assert s[k] == post[k - |pre|]; }
        }
      }
      SkipFromIs(s, cs, 0, |s|);
    } else {
      assert forall k :: 0 <= k < |pre| ==> s[k] == pre[k];
      assert s[|pre|] == core[0];
      SkipFromIs(s, cs, 0, |pre|);
      var t := s[|pre|..];
      assert t == core + post;
      assert forall k :: |core| <= k < |t| ==> t[k] == post[k - |core|];
      KeepToIs(t, cs, |t|, |core|);
      assert t[..|core|] == core;
    }
  }

  /** Leading padding made only of characters from `cs` is exactly what `strip(cs)` removes. */
  lemma StripFront(pre: string, core: string, cs: set<char>)
    requires AllIn(pre, cs) && Stripped(core, cs)
    ensures StripChars(pre + core, cs) == core
  {
    assert pre + core + [] == pre + core;
    StripPadded(pre, core, [], cs);
  }

  /** `strip(cs)` leaves a string unchanged when neither end is in `cs`. */
  lemma StripFixed(core: string, cs: set<char>)
    requires Stripped(core, cs)
    ensures StripChars(core, cs) == core
  {
    assert [] + core + [] == core;
    StripPadded([], core, [], cs);
  }

  /** Python's `s.strip()`. */
  function Strip(s: string): (r: string)
    ensures Stripped(r, Whitespace) && |r| <= |s|
  {
    StripChars(s, Whitespace)
  }

  /** The first `c` of `a + [c] + b` is the one after `a`, when `a` has none. */
  lemma SplitAtFirst(a: string, c: char, b: string)
    requires c !in a
    ensures Before(a + [c] + b, c) == a
    ensures After(a + [c] + b, c) == Some(b)
  {
    var s := a + [c] + b;
    assert s[|a|] == c;
    assert s[..|a|] == a;
    assert s == a + [c] + After(s, c).value;
  }

  /** `Before` of a string without `c` is the whole string. */
  lemma BeforeAbsent(s: string, c: char)
    requires c !in s
    ensures Before(s, c) == s
  {
  }

  /** The text before `c` ignores whatever follows the first `c`. */
  lemma BeforeOfPrefix(a: string, b: string, c: char)
    requires c !in a && (b == [] || b[0] == c)
    ensures Before(a + b, c) == a
  {
    if b == [] {
      assert a + b == a;
    } else {
      assert a + b == a + [c] + b[1..];
      SplitAtFirst(a, c, b[1..]);
    }
  }

  /** The last `c` of `a + [c] + b` is the one before `b`, when `b` has none. */
  lemma SplitAtLast(a: string, c: char, b: string)
    requires c !in b
    ensures AfterLast(a + [c] + b, c) == Some(b)
  {
    var s := a + [c] + b;
    assert s[|a|] == c;
    var t := AfterLast(s, c).value;
    assert s[|s| - |b|..] == b;
    assert t == s[|s| - |t|..];
  }
}
