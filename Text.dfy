/**
 * The parts of Python's `str` that the sorter relies on: `isspace`, `strip`,
 * the `in` operator, `split` with a literal separator and `''.join`.
 * Strings are sequences of code points.
 */
module Text {
  import opened Wrappers

  /** Python's `str.isspace()` for one character: what `strip()` removes and `\s` matches. */
  predicate IsSpace(c: char) {
    c == ' ' || ('\t' <= c <= '\r') || ('\U{1c}' <= c <= '\U{1f}') ||
    c == '\U{85}' || c == '\U{a0}' || c == '\U{1680}' || ('\U{2000}' <= c <= '\U{200a}') ||
    c == '\U{2028}' || c == '\U{2029}' || c == '\U{202f}' || c == '\U{205f}' || c == '\U{3000}'
  }

  predicate IsDigit(c: char) {
    '0' <= c <= '9'
  }

  predicate AllDigits(s: string) {
    forall k :: 0 <= k < |s| ==> IsDigit(s[k])
  }

  function DigitValue(c: char): (v: nat)
    requires IsDigit(c)
    ensures v < 10
  {
    c as int - '0' as int
  }

  function DigitChar(n: nat): (c: char)
    requires n < 10
    ensures IsDigit(c) && DigitValue(c) == n
  {
    ('0' as int + n) as char
  }

  /** The number a run of decimal digits denotes (Python's `int(s)` on ASCII digits). */
  function DecimalValue(s: string): nat
    requires AllDigits(s)
  {
    if s == [] then 0 else DecimalValue(s[..|s| - 1]) * 10 + DigitValue(s[|s| - 1])
  }

  /** `sub` occurs in `s` starting at index `k`. */
  predicate OccursAt(s: string, sub: string, k: nat) {
    k + |sub| <= |s| && s[k..k + |sub|] == sub
  }

  /** Python's `s.find(sub, i)`: the first occurrence of `sub` at or after `i`. */
  function FindFrom(s: string, sub: string, i: nat): (r: Option<nat>)
    requires i <= |s|
    ensures r.Some? ==> i <= r.value && OccursAt(s, sub, r.value)
    ensures r.Some? ==> forall k :: i <= k < r.value ==> !OccursAt(s, sub, k)
    ensures r.None? ==> forall k :: i <= k ==> !OccursAt(s, sub, k)
    decreases |s| - i
  {
    if OccursAt(s, sub, i) then Some(i)
    else if i == |s| then None
    else FindFrom(s, sub, i + 1)
  }

  /** Python's `s.find(sub)`, absent instead of -1. */
  function Find(s: string, sub: string): (r: Option<nat>)
    ensures r.Some? ==> OccursAt(s, sub, r.value) && forall k :: 0 <= k < r.value ==> !OccursAt(s, sub, k)
    ensures r.None? ==> forall k :: !OccursAt(s, sub, k)
  {
    FindFrom(s, sub, 0)
  }

  /** Python's `sub in s`. */
  predicate Contains(s: string, sub: string) {
    Find(s, sub).Some?
  }

  /** `in` holds exactly when some index starts an occurrence. */
  lemma ContainsIff(s: string, sub: string, k: nat)
    ensures OccursAt(s, sub, k) ==> Contains(s, sub)
    ensures Contains(s, sub) ==> OccursAt(s, sub, Find(s, sub).value)
  {
  }

  /** What a string contains, any longer string starting with it contains too. */
  lemma ContainsInLonger(a: string, b: string, sub: string)
    requires Contains(a, sub)
    ensures Contains(a + b, sub)
  {
    var k := Find(a, sub).value;
    assert (a + b)[k..k + |sub|] == a[k..k + |sub|];
    ContainsIff(a + b, sub, k);
  }

  /** A string without a character does not contain it as a one-character string. */
  lemma CharAbsent(s: string, c: char)
    requires c !in s
    ensures !Contains(s, [c])
  {
    forall k: nat | k + 1 <= |s| ensures !OccursAt(s, [c], k) {
      assert s[k..k + 1][0] == s[k];
    }
  }

  /** An occurrence inside a prefix is an occurrence in the whole string. */
  lemma OccursInPrefix(s: string, sub: string, i: nat, k: nat)
    requires i <= |s|
    requires OccursAt(s[..i], sub, k)
    ensures OccursAt(s, sub, k) && k + |sub| <= i
  {
    assert s[..i][k..k + |sub|] == s[k..k + |sub|];
  }

  /** Python's `s.split(sep)` for a non-empty separator: cut at every occurrence, left to right. */
  function Split(s: string, sep: string): (r: seq<string>)
    requires sep != []
    ensures |r| >= 1
    decreases |s|
  {
    match Find(s, sep)
    case None => [s]
    case Some(i) => [s[..i]] + Split(s[i + |sep|..], sep)
  }

  /** Python's `sep.join(parts)`. */
  function JoinWith(parts: seq<string>, sep: string): string
    requires |parts| >= 1
  {
    if |parts| == 1 then parts[0] else parts[0] + sep + JoinWith(parts[1..], sep)
  }

  /** Splitting loses nothing: joining the pieces with the separator gives the string back. */
  lemma {:induction false} SplitJoin(s: string, sep: string)
    requires sep != []
    ensures JoinWith(Split(s, sep), sep) == s
    decreases |s|
  {
    match Find(s, sep)
    case None =>
    case Some(i) =>
      var rest := Split(s[i + |sep|..], sep);
      SplitJoin(s[i + |sep|..], sep);
      assert ([s[..i]] + rest)[1..] == rest;
      assert JoinWith(Split(s, sep), sep) == s[..i] + sep + JoinWith(rest, sep);
      assert s == s[..i] + sep + s[i + |sep|..];
  }

  /** No piece of a split contains the separator. */
  lemma {:induction false} SplitPiecesFree(s: string, sep: string)
    requires sep != []
    ensures forall j :: 0 <= j < |Split(s, sep)| ==> !Contains(Split(s, sep)[j], sep)
    decreases |s|
  {
    match Find(s, sep)
    case None =>
    case Some(i) =>
      SplitPiecesFree(s[i + |sep|..], sep);
      if Contains(s[..i], sep) {
        OccursInPrefix(s, sep, i, Find(s[..i], sep).value);
        assert false;
      }
  }

  /** A string without the separator splits into itself alone. */
  lemma SplitFree(s: string, sep: string)
    requires sep != [] && !Contains(s, sep)
    ensures Split(s, sep) == [s]
  {
  }

  /** Cutting `a + c + b` at the one-character separator `c`, where `a` holds no `c`,
      yields `a` and then the pieces of `b`. */
  lemma SplitAfterFree(a: string, c: char, b: string)
    requires !Contains(a, [c])
    ensures Split(a + [c] + b, [c]) == [a] + Split(b, [c])
  {
    var s := a + [c] + b;
    assert OccursAt(s, [c], |a|) by { assert s[|a|..|a| + 1] == [c]; }
    var i := Find(s, [c]).value;
    if i < |a| {
      assert s[i..i + 1] == a[i..i + 1];
      assert OccursAt(a, [c], i);
      assert false;
    }
    assert s[..i] == a && s[i + 1..] == b;
  }

  /** Python's `s.lstrip()`: drop the leading whitespace. */
  function StripLeft(s: string): (r: string)
    ensures |r| <= |s| && r == s[|s| - |r|..]
    ensures r == [] || !IsSpace(r[0])
    ensures forall k :: 0 <= k < |s| - |r| ==> IsSpace(s[k])
  {
    if s != [] && IsSpace(s[0]) then StripLeft(s[1..]) else s
  }

  /** Python's `s.rstrip()`: drop the trailing whitespace. */
  function StripRight(s: string): (r: string)
    ensures |r| <= |s| && r == s[..|r|]
    ensures r == [] || !IsSpace(r[|r| - 1])
    ensures forall k :: |r| <= k < |s| ==> IsSpace(s[k])
  {
    if s != [] && IsSpace(s[|s| - 1]) then StripRight(s[..|s| - 1]) else s
  }

  /** Python's `s.strip()`. */
  function Strip(s: string): string {
    StripRight(StripLeft(s))
  }

  predicate AllSpace(s: string) {
    forall k :: 0 <= k < |s| ==> IsSpace(s[k])
  }

  /** `strip()` recovers a text from any whitespace padding around it,
      provided the text itself neither starts nor ends with whitespace. */
  lemma {:induction false} StripPadded(before: string, t: string, after: string)
    requires AllSpace(before) && AllSpace(after)
    requires t != [] && !IsSpace(t[0]) && !IsSpace(t[|t| - 1])
    ensures Strip(before + t + after) == t
  {
    assert before + t + after == before + (t + after);
    StripLeftPadded(before, t + after);
    StripRightPadded(t, after);
  }

  lemma {:induction false} StripLeftPadded(before: string, rest: string)
    requires AllSpace(before)
    requires rest == [] || !IsSpace(rest[0])
    ensures StripLeft(before + rest) == rest
    decreases |before|
  {
    if before != [] {
      assert (before + rest)[1..] == before[1..] + rest;
      StripLeftPadded(before[1..], rest);
    } else {
      assert before + rest == rest;
    }
  }

  lemma {:induction false} StripRightPadded(t: string, after: string)
    requires AllSpace(after)
    requires t == [] || !IsSpace(t[|t| - 1])
    ensures StripRight(t + after) == t
    decreases |after|
  {
    if after != [] {
      var last := |after| - 1;
      assert (t + after)[..|t + after| - 1] == t + after[..last];
      StripRightPadded(t, after[..last]);
    } else {
      assert t + after == t;
    }
  }

  /** Appending "/" and a piece without '/' adds exactly one last piece to a split. */
  lemma {:induction false} SplitLast(a: string, c: char, b: string)
    requires !Contains(b, [c])
    ensures Split(a + [c] + b, [c]) == Split(a, [c]) + [b]
    decreases |a|
  {
    match Find(a, [c])
    case None =>
      SplitAfterFree(a, c, b);
      SplitFree(b, [c]);
      SplitFree(a, [c]);
    case Some(i) =>
      SplitAtFirst(a, c);
      SplitLast(a[i + 1..], c, b);
      SplitLastStep(a, c, b, a[..i], a[i + 1..]);
  }

  /** The inductive step of SplitLast: a leading piece free of the separator is split off on both sides. */
  lemma SplitLastStep(a: string, c: char, b: string, a1: string, a2: string)
    requires a == a1 + [c] + a2 && !Contains(a1, [c])
    requires Split(a2 + [c] + b, [c]) == Split(a2, [c]) + [b]
    ensures Split(a + [c] + b, [c]) == Split(a, [c]) + [b]
  {
    RegroupText(a1, c, a2, b);
    SplitAfterFree(a1, c, a2 + [c] + b);
    SplitAfterFree(a1, c, a2);
    RegroupPieces(a1, Split(a2, [c]), b);
  }

  lemma RegroupText(a1: string, c: char, a2: string, b: string)
    ensures a1 + [c] + a2 + [c] + b == a1 + [c] + (a2 + [c] + b)
  {
  }

  lemma RegroupPieces(a1: string, pieces: seq<string>, b: string)
    ensures [a1] + (pieces + [b]) == [a1] + pieces + [b]
  {
  }

  /** The text before the first occurrence of a character is free of it. */
  lemma SplitAtFirst(a: string, c: char)
    requires Find(a, [c]).Some?
    ensures var i := Find(a, [c]).value;
      i < |a| && a == a[..i] + [c] + a[i + 1..] && !Contains(a[..i], [c])
  {
    var i := Find(a, [c]).value;
    assert a == a[..i] + [c] + a[i + 1..] by { assert a[i..i + 1] == [c]; }
    if Contains(a[..i], [c]) {
      OccursInPrefix(a, [c], i, Find(a[..i], [c]).value);
    }
  }

}
