/** The string helpers of Go's standard library that the modelled code leans on, over Unicode strings. */
module Text {

  /** White space as unicode.IsSpace sees it. */
  predicate IsSpace(c: char) {
    || c in {'\t', '\n', '\r', ' '}
    || c in {'\U{0B}', '\U{0C}', '\U{85}', '\U{A0}', '\U{1680}', '\U{2028}', '\U{2029}', '\U{202F}', '\U{205F}', '\U{3000}'}
    || '\U{2000}' <= c <= '\U{200A}'
  }

  /** Where the characters of the cut set that start at i end. */
  function EndOfCut(s: string, cut: char -> bool, i: nat): (n: nat)
    requires i <= |s|
    ensures i <= n <= |s|
    ensures forall k :: i <= k < n ==> cut(s[k])
    ensures n < |s| ==> !cut(s[n])
    decreases |s| - i
  {
    if i < |s| && cut(s[i]) then EndOfCut(s, cut, i + 1) else i
  }

  function TrimLeft(s: string, cut: char -> bool): (r: string)
    ensures |r| <= |s| && r == s[|s| - |r|..]
    ensures forall i :: 0 <= i < |s| - |r| ==> cut(s[i])
    ensures r != [] ==> !cut(r[0])
    ensures s != [] && !cut(s[0]) ==> r == s
  {
    s[EndOfCut(s, cut, 0)..]
  }

  function TrimRight(s: string, cut: char -> bool): (r: string)
    ensures r <= s
    ensures forall i :: |r| <= i < |s| ==> cut(s[i])
    ensures r != [] ==> !cut(r[|r| - 1])
    ensures s != [] && !cut(s[|s| - 1]) ==> r == s
  {
    if s != [] && cut(s[|s| - 1]) then TrimRight(s[..|s| - 1], cut) else s
  }

  /** The string without leading and trailing characters of the cut set. */
  function Trim(s: string, cut: char -> bool): (r: string)
    ensures |r| <= |s|
    ensures r != [] ==> !cut(r[0]) && !cut(r[|r| - 1])
  {
    TrimRight(TrimLeft(s, cut), cut)
  }

  function TrimSpace(s: string): (r: string)
    ensures |r| <= |s|
    ensures r != [] ==> !IsSpace(r[0]) && !IsSpace(r[|r| - 1])
  {
    Trim(s, IsSpace)
  }

  lemma LeftPart(s: string, cut: char -> bool) returns (before: string)
    ensures s == before + TrimLeft(s, cut)
    ensures forall i :: 0 <= i < |before| ==> cut(before[i])
  {
    before := s[..|s| - |TrimLeft(s, cut)|];
  }

  lemma RightPart(s: string, cut: char -> bool) returns (after: string)
    ensures s == TrimRight(s, cut) + after
    ensures forall i :: 0 <= i < |after| ==> cut(after[i])
  {
    after := s[|TrimRight(s, cut)|..];
  }

  /** Trimming cuts off characters of the cut set at both ends, and nothing else. */
  lemma TrimParts(s: string, cut: char -> bool) returns (before: string, after: string)
    ensures s == before + Trim(s, cut) + after
    ensures forall i :: 0 <= i < |before| ==> cut(before[i])
    ensures forall i :: 0 <= i < |after| ==> cut(after[i])
  {
    before := LeftPart(s, cut);
    after := RightPart(TrimLeft(s, cut), cut);
    Glue(before, Trim(s, cut), after);
  }

  lemma Glue(a: string, b: string, c: string)
    ensures a + (b + c) == a + b + c
  {}

  ghost predicate AllCut(s: string, cut: char -> bool) {
    forall i :: 0 <= i < |s| ==> cut(s[i])
  }

  lemma LeftIsCut(before: string, rest: string, cut: char -> bool)
    requires AllCut(before, cut) && rest != [] && !cut(rest[0])
    ensures TrimLeft(before + rest, cut) == rest
  {
    var s := before + rest;
    var r := TrimLeft(s, cut);
    assert s[|before|] == rest[0];
    assert forall i :: 0 <= i < |before| ==> s[i] == before[i];
    assert r == s[|s| - |r|..] && s[|before|..] == rest;
  }

  lemma RightIsCut(core: string, after: string, cut: char -> bool)
    requires AllCut(after, cut) && core != [] && !cut(core[|core| - 1])
    ensures TrimRight(core + after, cut) == core
  {
    var s := core + after;
    var r := TrimRight(s, cut);
    assert s[|core| - 1] == core[|core| - 1];
    assert forall i :: |core| <= i < |s| ==> s[i] == after[i - |core|];
    assert r == s[..|r|] && s[..|core|] == core;
  }

  /** What is trimmed of a core is what was put around it. */
  lemma TrimUnwraps(before: string, core: string, after: string, cut: char -> bool)
    requires AllCut(before, cut) && AllCut(after, cut)
    requires core != [] && !cut(core[0]) && !cut(core[|core| - 1])
    ensures Trim(before + core + after, cut) == core
  {
    Glue(before, core, after);
    LeftIsCut(before, core + after, cut);
    RightIsCut(core, after, cut);
  }

  /** A string whose ends are not cut stays as it is. */
  lemma TrimIsIdentity(s: string, cut: char -> bool)
    ensures Trim(s, cut) == s <==> (s == [] || (!cut(s[0]) && !cut(s[|s| - 1])))
  {
  }

  /** Lower case, as far as it can produce the letters a to z. */
  function ToLowerChar(c: char): char {
    if 'A' <= c <= 'Z' then (c as int - 'A' as int + 'a' as int) as char
    else if c == '\U{0130}' then 'i'
    else if c == '\U{212A}' then 'k'
    else c
  }

  function ToLower(s: string): (r: string)
    ensures |r| == |s|
    ensures forall i :: 0 <= i < |s| ==> r[i] == ToLowerChar(s[i])
  {
    seq(|s|, i requires 0 <= i < |s| => ToLowerChar(s[i]))
  }
}
