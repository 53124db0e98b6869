/** The string operations the type names go through, on ASCII strings. */
module Text {

  function UpperChar(c: char): char {
    if 'a' <= c <= 'z' then (c as int - 32) as char else c
  }

  function LowerChar(c: char): char {
    if 'A' <= c <= 'Z' then (c as int + 32) as char else c
  }

  function Upper(s: string): (u: string)
    ensures |u| == |s|
  {
    seq(|s|, i requires 0 <= i < |s| => UpperChar(s[i]))
  }

  function Lower(s: string): (u: string)
    ensures |u| == |s|
  {
    seq(|s|, i requires 0 <= i < |s| => LowerChar(s[i]))
  }

  /** s.split("(")[0] */
  function BeforeParen(s: string): (r: string)
    ensures r <= s && '(' !in r
    ensures r == s || s[|r|] == '('
  {
    if s == [] || s[0] == '(' then []
    else
      var t := BeforeParen(s[1..]);
      assert s == [s[0]] + s[1..];
      [s[0]] + t
  }

  predicate Space(c: char) {
    c == ' ' || 9 <= c as int <= 13 || 28 <= c as int <= 31
  }

  /** str.lstrip() */
  function StripLeft(s: string): (r: string)
    ensures r != [] ==> !Space(r[0])
    ensures |r| <= |s| && r == s[|s| - |r|..]
  {
    if s != [] && Space(s[0]) then StripLeft(s[1..]) else s
  }

  /** str.rstrip() */
  function StripRight(s: string): (r: string)
    ensures r != [] ==> !Space(r[|r| - 1])
    ensures r <= s
  {
    if s != [] && Space(s[|s| - 1]) then StripRight(s[..|s| - 1]) else s
  }

  /** str.strip() */
  function Strip(s: string): string {
    StripRight(StripLeft(s))
  }

  lemma UpperTwice(s: string)
    ensures Upper(Upper(s)) == Upper(s)
    ensures Lower(Upper(s)) == Lower(s)
  {
  }

  const SMALL := "abcdefghijklmnopqrstuvwxyz"
  const CAPITAL := "ABCDEFGHIJKLMNOPQRSTUVWXYZ"

  /** Case conversion exchanges the letters of the two alphabets, position by position, and
      leaves every other character alone. */
  lemma LettersExactly(c: char)
    ensures |SMALL| == |CAPITAL| == 26
    ensures forall i :: 0 <= i < 26 ==> UpperChar(SMALL[i]) == CAPITAL[i] && LowerChar(CAPITAL[i]) == SMALL[i]
    ensures c !in SMALL ==> UpperChar(c) == c
    ensures c !in CAPITAL ==> LowerChar(c) == c
  {
    if 'a' <= c <= 'z' { assert SMALL[c as int - 97] == c; }
    if 'A' <= c <= 'Z' { assert CAPITAL[c as int - 65] == c; }
  }

  /** What Python takes for white space: tab to carriage return, the separators, the blank. */
  lemma SpaceExactly(c: char)
    ensures Space(c) <==> c as int in [9, 10, 11, 12, 13, 28, 29, 30, 31, 32]
  {
  }

  predicate AllSpace(s: string) {
    forall i :: 0 <= i < |s| ==> Space(s[i])
  }

  /** Stripping takes away the white space around a string and nothing else. */
  lemma StripExactly(a: string, core: string, b: string)
    requires AllSpace(a) && AllSpace(b)
    requires core != [] ==> !Space(core[0]) && !Space(core[|core| - 1])
    ensures Strip(a + core + b) == core
  {
    hide Space;
    assert a + core + b == a + (core + b);
    StripLeftSpace(a, core + b);
    StripRightSpace(core, b);
    if core == [] {
      StripLeftSpace(b, []);
      assert core + b == b == b + [];
    } else {
      assert (core + b)[0] == core[0];
    }
  }

  lemma {:induction false} StripLeftSpace(a: string, rest: string)
    requires AllSpace(a)
    ensures StripLeft(a + rest) == StripLeft(rest)
    decreases |a|
  {
    hide Space;
    if a == [] {
      assert a + rest == rest;
    } else {
      assert (a + rest)[1..] == a[1..] + rest;
      StripLeftSpace(a[1..], rest);
    }
  }

  lemma {:induction false} StripRightSpace(rest: string, b: string)
    requires AllSpace(b)
    ensures StripRight(rest + b) == StripRight(rest)
    decreases |b|
  {
    hide Space;
    if b == [] {
      assert rest + b == rest;
    } else {
      assert (rest + b)[..|rest + b| - 1] == rest + b[..|b| - 1];
      StripRightSpace(rest, b[..|b| - 1]);
    }
  }
}
