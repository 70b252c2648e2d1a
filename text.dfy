/** The handful of Python `str` operations the core relies on, over `seq<char>`.
    Case mapping covers ASCII letters only. */
module Text {

  /** Python's `str.isspace()` for one character. */
  predicate IsSpace(c: char) {
    c == ' ' || '\t' <= c <= '\r' || '\U{1c}' <= c <= '\U{1f}' || c == '\U{85}' || c == '\U{a0}'
    || c == '\U{1680}' || '\U{2000}' <= c <= '\U{200a}' || c == '\U{2028}' || c == '\U{2029}'
    || c == '\U{202f}' || c == '\U{205f}' || c == '\U{3000}'
  }

  predicate IsDigit(c: char) { '0' <= c <= '9' }

  predicate IsLetter(c: char) { 'a' <= c <= 'z' || 'A' <= c <= 'Z' }

  predicate IsHexDigit(c: char) { IsDigit(c) || 'a' <= c <= 'f' || 'A' <= c <= 'F' }

  function HexValue(c: char): (v: nat)
    requires IsHexDigit(c)
    ensures v < 16
  {
    if IsDigit(c) then c as int - '0' as int
    else if 'a' <= c <= 'f' then c as int - 'a' as int + 10
    else c as int - 'A' as int + 10
  }

  /** No whitespace at either end. */
  predicate IsStripped(s: string) {
    |s| == 0 || (!IsSpace(s[0]) && !IsSpace(s[|s| - 1]))
  }

  /** `s.lstrip()`. */
  function TrimLeft(s: string): string {
    if |s| > 0 && IsSpace(s[0]) then TrimLeft(s[1..]) else s
  }

  /** `s.rstrip()`. */
  function TrimRight(s: string): string {
    if |s| > 0 && IsSpace(s[|s| - 1]) then TrimRight(s[..|s| - 1]) else s
  }

  /** What `lstrip` removes is leading whitespace, and what it keeps starts with none. */
  lemma {:induction false} TrimLeftSpec(s: string)
    ensures var r := TrimLeft(s);
      |r| <= |s| && r == s[|s| - |r|..] && (|r| == 0 || !IsSpace(r[0]))
      && forall i :: 0 <= i < |s| - |r| ==> IsSpace(s[i])
  {
    if |s| > 0 && IsSpace(s[0]) {
      TrimLeftSpec(s[1..]);
    }
  }

  /** What `rstrip` removes is trailing whitespace, and what it keeps ends with none. */
  lemma {:induction false} TrimRightSpec(s: string)
    ensures var r := TrimRight(s);
      |r| <= |s| && r == s[..|r|] && (|r| == 0 || !IsSpace(r[|r| - 1]))
      && forall i :: |r| <= i < |s| ==> IsSpace(s[i])
  {
    if |s| > 0 && IsSpace(s[|s| - 1]) {
      TrimRightSpec(s[..|s| - 1]);
    }
  }

  /** Python's `str.strip()`. */
  function Strip(s: string): (r: string)
    ensures IsStripped(r)
  {
    var l := TrimLeft(s);
    TrimLeftSpec(s);
    TrimRightSpec(l);
    var r := TrimRight(l);
    assert |r| > 0 ==> r[0] == l[0];
    r
  }

  lemma StripOfStripped(s: string)
    requires IsStripped(s)
    ensures Strip(s) == s
  {
  }

  lemma StripIdempotent(s: string)
    ensures Strip(Strip(s)) == Strip(s)
  {
    StripOfStripped(Strip(s));
  }

  function LowerChar(c: char): char {
    if 'A' <= c <= 'Z' then (c as int + 32) as char else c
  }

  function UpperChar(c: char): char {
    if 'a' <= c <= 'z' then (c as int - 32) as char else c
  }

  /** `str.lower()` on ASCII letters. */
  function Lower(s: string): (r: string)
    ensures |r| == |s|
    ensures forall i :: 0 <= i < |s| ==> r[i] == LowerChar(s[i])
  {
    if |s| == 0 then "" else [LowerChar(s[0])] + Lower(s[1..])
  }

  /** `str.upper()` on ASCII letters. */
  function Upper(s: string): (r: string)
    ensures |r| == |s|
    ensures forall i :: 0 <= i < |s| ==> r[i] == UpperChar(s[i])
  {
    if |s| == 0 then "" else [UpperChar(s[0])] + Upper(s[1..])
  }

  predicate StartsWith(s: string, p: string) {
    |p| <= |s| && s[..|p|] == p
  }

  /** Python's `p in s` for strings. */
  predicate Contains(s: string, p: string) {
    exists i :: 0 <= i <= |s| && MatchAt(s, p, i)
  }

  /** `p` occurs in `s` starting at index `i`. */
  predicate MatchAt(s: string, p: string, i: int) {
    0 <= i && i + |p| <= |s| && s[i..i + |p|] == p
  }

  lemma ContainsEmpty(s: string)
    ensures Contains(s, "")
  {
    assert MatchAt(s, "", 0);
  }

  /** `s.find(c)`: the first index of `c`, or -1. */
  function IndexOf(s: string, c: char): (k: int)
    ensures -1 <= k < |s|
    ensures k == -1 ==> forall j :: 0 <= j < |s| ==> s[j] != c
    ensures k >= 0 ==> s[k] == c && forall j :: 0 <= j < k ==> s[j] != c
  {
    if |s| == 0 then -1
    else if s[0] == c then 0
    else
      var k := IndexOf(s[1..], c);
      if k < 0 then -1 else k + 1
  }

  /** `s.rfind(c)`: the last index of `c`, or -1. */
  function LastIndexOf(s: string, c: char): (k: int)
    ensures -1 <= k < |s|
    ensures k == -1 ==> forall j :: 0 <= j < |s| ==> s[j] != c
    ensures k >= 0 ==> s[k] == c && forall j :: k < j < |s| ==> s[j] != c
  {
    if |s| == 0 then -1
    else if s[|s| - 1] == c then |s| - 1
    else
      var k := LastIndexOf(s[..|s| - 1], c);
      if k < 0 then -1 else k
  }

  /** `s.split(c)` for a one-character separator: never empty. */
  function Split(s: string, c: char): (parts: seq<string>)
    ensures |parts| >= 1
    decreases |s|
  {
    var k := IndexOf(s, c);
    if k < 0 then [s] else [s[..k]] + Split(s[k + 1..], c)
  }

  /** No piece of `s.split(c)` holds `c`. */
  lemma {:induction false} SplitPiecesFree(s: string, c: char)
    ensures forall i :: 0 <= i < |Split(s, c)| ==> c !in Split(s, c)[i]
    decreases |s|
  {
    var k := IndexOf(s, c);
    if k >= 0 {
      SplitPiecesFree(s[k + 1..], c);
    }
  }

  /** `c.join(parts)`. */
  function Join(parts: seq<string>, c: char): string {
    if |parts| == 0 then ""
    else if |parts| == 1 then parts[0]
    else parts[0] + [c] + Join(parts[1..], c)
  }

  lemma JoinCons(a: string, ps: seq<string>, c: char)
    requires |ps| >= 1
    ensures Join([a] + ps, c) == a + [c] + Join(ps, c)
  {
    assert ([a] + ps)[1..] == ps;
  }

  lemma {:induction false} JoinSplit(s: string, c: char)
    ensures Join(Split(s, c), c) == s
    decreases |s|
  {
    var k := IndexOf(s, c);
    if k >= 0 {
      var rest := s[k + 1..];
      JoinSplit(rest, c);
      JoinCons(s[..k], Split(rest, c), c);
      assert s == s[..k] + [c] + rest;
    }
  }

  lemma {:induction false} SplitAppend(a: string, c: char, b: string)
    requires c !in a
    ensures Split(a + [c] + b, c) == [a] + Split(b, c)
  {
    var s := a + [c] + b;
    assert s[|a|] == c;
    assert c !in s[..|a|] by { assert s[..|a|] == a; }
    assert IndexOf(s, c) == |a|;
    assert s[..|a|] == a;
    assert s[|a| + 1..] == b;
  }

  /** The first separator of `b + [c] + a` is the first one of `b`, or the one after `b`. */
  lemma IndexOfAppend(b: string, c: char, a: string)
    ensures IndexOf(b + [c] + a, c) == if IndexOf(b, c) < 0 then |b| else IndexOf(b, c)
  {
    var s := b + [c] + a;
    var k := IndexOf(b, c);
    assert s[|b|] == c;
    assert forall j :: 0 <= j < |b| ==> s[j] == b[j];
    IndexOfUnique(s, c, if k < 0 then |b| else k);
  }

  lemma IndexOfUnique(s: string, c: char, k: int)
    requires 0 <= k < |s| && s[k] == c && forall j :: 0 <= j < k ==> s[j] != c
    ensures IndexOf(s, c) == k
  {
  }

  /** Splitting at a last separator adds the text after it as the final piece. */
  lemma {:induction false} SplitSnoc(b: string, c: char, a: string)
    requires c !in a
    ensures Split(b + [c] + a, c) == Split(b, c) + [a]
    decreases |b|
  {
    IndexOfAppend(b, c, a);
    var k := IndexOf(b, c);
    if k < 0 {
      SplitSnocLast(b, c, a);
    } else {
      SplitSnoc(b[k + 1..], c, a);
      SplitSnocStep(b, c, a, k);
    }
  }

  lemma SplitSnocLast(b: string, c: char, a: string)
    requires c !in a && IndexOf(b, c) < 0 && IndexOf(b + [c] + a, c) == |b|
    ensures Split(b + [c] + a, c) == Split(b, c) + [a]
  {
    SplitAtEnd(b, c, a);
    SplitNoSep(a, c);
    SplitNoSep(b, c);
  }

  lemma SplitAtEnd(b: string, c: char, a: string)
    requires IndexOf(b + [c] + a, c) == |b|
    ensures Split(b + [c] + a, c) == [b] + Split(a, c)
  {
    var s := b + [c] + a;
    SplitAt(s, c, |b|);
    assert s[..|b|] == b && s[|b| + 1..] == a;
  }

  lemma SplitSnocStep(b: string, c: char, a: string, k: int)
    requires 0 <= k < |b| && IndexOf(b, c) == k && IndexOf(b + [c] + a, c) == k
    requires Split(b[k + 1..] + [c] + a, c) == Split(b[k + 1..], c) + [a]
    ensures Split(b + [c] + a, c) == Split(b, c) + [a]
  {
    SplitAtInner(b, c, a, k);
    SplitAt(b, c, k);
    ConsSnocSwap(Split(b + [c] + a, c), Split(b, c), b[..k], Split(b[k + 1..], c), Split(b[k + 1..] + [c] + a, c), a);
  }

  /** `[h] + (p + [a]) == ([h] + p) + [a]`, stated on names so that no function is unfolded. */
  lemma ConsSnocSwap(x: seq<string>, y: seq<string>, h: string, p: seq<string>, q: seq<string>, a: string)
    requires x == [h] + q && q == p + [a] && y == [h] + p
    ensures x == y + [a]
  {
    assert [h] + (p + [a]) == ([h] + p) + [a];
  }

  lemma SplitAtInner(b: string, c: char, a: string, k: int)
    requires 0 <= k < |b| && IndexOf(b + [c] + a, c) == k
    ensures Split(b + [c] + a, c) == [b[..k]] + Split(b[k + 1..] + [c] + a, c)
  {
    var s := b + [c] + a;
    SplitAt(s, c, k);
    assert s[..k] == b[..k];
    assert s[k + 1..] == b[k + 1..] + [c] + a;
  }

  /** Splitting at the first separator. */
  lemma SplitAt(s: string, c: char, k: int)
    requires 0 <= k < |s| && IndexOf(s, c) == k
    ensures Split(s, c) == [s[..k]] + Split(s[k + 1..], c)
  {
  }

  lemma SplitNoSep(a: string, c: char)
    requires IndexOf(a, c) < 0
    ensures Split(a, c) == [a]
  {
  }

  /** `s.replace(a, b)` for single characters. */
  function ReplaceChar(s: string, a: char, b: char): (r: string)
    ensures |r| == |s|
    ensures forall i :: 0 <= i < |s| ==> r[i] == (if s[i] == a then b else s[i])
  {
    if |s| == 0 then "" else [if s[0] == a then b else s[0]] + ReplaceChar(s[1..], a, b)
  }

  function DigitChar(d: nat): (c: char)
    requires d < 10
    ensures IsDigit(c)
  {
    ('0' as int + d) as char
  }

  /** `str(n)` for a natural number. */
  function NatToString(n: nat): (s: string)
    ensures |s| > 0
    ensures forall i :: 0 <= i < |s| ==> IsDigit(s[i])
  {
    if n < 10 then [DigitChar(n)] else NatToString(n / 10) + [DigitChar(n % 10)]
  }
}
