/** The few functions of Go's `strings` package that the modelled code calls.
    A Go string is modelled as the sequence of its Unicode characters. */
module Text {

  /** unicode.IsSpace */
  predicate IsSpace(c: char) {
    var i := c as int;
    9 <= i <= 13 || i == 0x20 || i == 0x85 || i == 0xA0 || i == 0x1680 || 0x2000 <= i <= 0x200A
    || i == 0x2028 || i == 0x2029 || i == 0x202F || i == 0x205F || i == 0x3000
  }

  /** The 25 characters with the property White_Space. */
  lemma SpacesAreWhiteSpace(c: char)
    ensures IsSpace(c) <==>
              c as int in {0x09, 0x0A, 0x0B, 0x0C, 0x0D, 0x20, 0x85, 0xA0, 0x1680,
                           0x2000, 0x2001, 0x2002, 0x2003, 0x2004, 0x2005, 0x2006, 0x2007, 0x2008, 0x2009, 0x200A,
                           0x2028, 0x2029, 0x202F, 0x205F, 0x3000}
  {}

  ghost predicate AllSpace(s: string) {
    forall i | 0 <= i < |s| :: IsSpace(s[i])
  }

  function TrimLeft(s: string): string {
    if s != "" && IsSpace(s[0]) then TrimLeft(s[1..]) else s
  }

  function TrimRight(s: string): string {
    if s != "" && IsSpace(s[|s| - 1]) then TrimRight(s[..|s| - 1]) else s
  }

  /** strings.TrimSpace */
  function TrimSpace(s: string): string {
    TrimRight(TrimLeft(s))
  }

  /** strings.TrimRight(s, " ") */
  function TrimTrailingBlanks(s: string): string {
    if s != "" && s[|s| - 1] == ' ' then TrimTrailingBlanks(s[..|s| - 1]) else s
  }

  function Blanks(n: nat): string {
    seq(n, _ => ' ')
  }

  /** The same text but for blanks at its end. */
  ghost predicate SameButBlanks(a: string, b: string) {
    exists core: string, i, j :: a == core + Blanks(i) && b == core + Blanks(j)
  }

  lemma {:induction false} TrailingBlanks(s: string) returns (n: nat)
    ensures s == TrimTrailingBlanks(s) + Blanks(n)
  {
    if s != "" && s[|s| - 1] == ' ' {
      var p := s[..|s| - 1];
      n := TrailingBlanks(p);
      n := n + 1;
      assert s == p + [' '];
      assert TrimTrailingBlanks(p) + (Blanks(n - 1) + [' ']) == TrimTrailingBlanks(p) + Blanks(n);
    } else {
      n := 0;
    }
  }

  lemma {:induction false} TrimIgnoresBlanks(s: string, n: nat)
    ensures TrimTrailingBlanks(s + Blanks(n)) == TrimTrailingBlanks(s)
  {
    var t := s + Blanks(n);
    if n == 0 {
      assert t == s;
    } else {
      TrimIgnoresBlanks(s, n - 1);
      assert t[..|t| - 1] == s + Blanks(n - 1);
    }
  }

  /** What comparing trimmed texts means. */
  lemma SameTrimmed(a: string, b: string)
    ensures TrimTrailingBlanks(a) == TrimTrailingBlanks(b) <==> SameButBlanks(a, b)
  {
    if core: string, i: nat, j: nat :| a == core + Blanks(i) && b == core + Blanks(j) {
      TrimIgnoresBlanks(core, i);
      TrimIgnoresBlanks(core, j);
    }
    var i := TrailingBlanks(a);
    var j := TrailingBlanks(b);
  }

  /** strings.Contains */
  predicate Contains(s: string, sub: string) {
    sub <= s || (s != "" && Contains(s[1..], sub))
  }

  /** What containing means: the text is somewhere inside. */
  lemma {:induction false} ContainsMeans(s: string, sub: string)
    ensures Contains(s, sub) <==> exists a, b :: s == a + sub + b
  {
    if Contains(s, sub) {
      var a, b := Occurrence(s, sub);
    }
    if a, b :| s == a + sub + b {
      ContainsInside(a, sub, b);
    }
  }

  lemma {:induction false} Occurrence(s: string, sub: string) returns (a: string, b: string)
    requires Contains(s, sub)
    ensures s == a + sub + b
  {
    if sub <= s {
      a, b := "", s[|sub|..];
    } else {
      a, b := Occurrence(s[1..], sub);
      a := [s[0]] + a;
    }
  }

  lemma {:induction false} ContainsInside(a: string, sub: string, b: string)
    ensures Contains(a + sub + b, sub)
  {
    if a == "" {
      assert a + sub + b == sub + b;
    } else {
      ContainsInside(a[1..], sub, b);
      assert (a + sub + b)[1..] == a[1..] + sub + b;
    }
  }

  /** A text holds no longer one. */
  lemma LongerIsNotContained(s: string, sub: string)
    requires |sub| > |s|
    ensures !Contains(s, sub)
  {
    if Contains(s, sub) {
      var a, b := Occurrence(s, sub);
    }
  }

  lemma ContainedHas(s: string, sub: string, i: nat)
    requires Contains(s, sub) && i < |sub|
    ensures |sub| <= |s| && sub[i] in s[..|s| - |sub| + i + 1]
  {
    var a, b := Occurrence(s, sub);
    assert s[..|s| - |sub| + i + 1][|a| + i] == sub[i];
  }

  /** Where character `i` of `sub` would have to be, there is none like it. */
  lemma MissingIsNotContained(s: string, sub: string, i: nat)
    requires i < |sub| <= |s| && sub[i] !in s[..|s| - |sub| + i + 1]
    ensures !Contains(s, sub)
  {
    if Contains(s, sub) {
      ContainedHas(s, sub, i);
    }
  }

  lemma ContainsBehind(c: char, s: string, sub: string)
    requires sub != "" && sub[0] != c
    ensures Contains([c] + s, sub) <==> Contains(s, sub)
  {
    assert ([c] + s)[1..] == s;
  }

  /** A text that holds none of the separators is not found across one. */
  lemma {:induction false} ContainsApart(front: string, rest: string, sub: string, separators: set<char>)
    requires sub != "" && (forall c :: c in sub ==> c !in separators)
    requires rest != "" ==> rest[0] in separators
    ensures Contains(front + rest, sub) <==> Contains(front, sub) || Contains(rest, sub)
  {
    var s := front + rest;
    if front == "" {
      assert s == rest;
    } else {
      ContainsApart(front[1..], rest, sub, separators);
      assert s[1..] == front[1..] + rest;
      PrefixApart(front, rest, sub, separators);
    }
  }

  lemma PrefixApart(front: string, rest: string, sub: string, separators: set<char>)
    requires forall c :: c in sub ==> c !in separators
    requires rest != "" ==> rest[0] in separators
    ensures sub <= front + rest <==> sub <= front
  {
    if |front| < |sub| && rest != "" {
      assert sub[|front|] != rest[0] == (front + rest)[|front|];
    }
  }

  /** The ASCII letters in upper case. */
  function AsciiUpper(c: char): char {
    if 'a' <= c <= 'z' then ((c as int) - 32) as char else c
  }

  /** The same letter in the other case. */
  predicate OtherCase(c: char, d: char) {
    ('A' <= c <= 'Z' && d as int == c as int + 32) || ('a' <= c <= 'z' && c as int == d as int + 32)
  }

  lemma SameUpper(c: char, d: char)
    ensures AsciiUpper(c) == AsciiUpper(d) <==> c == d || OtherCase(c, d)
  {}

  /** strings.EqualFold(s, t) when `t` is ASCII without 'k' and 's', the only ASCII
      letters that fold with a character outside ASCII */
  predicate EqualFoldAscii(s: string, t: string) {
    |s| == |t| && forall i | 0 <= i < |s| :: AsciiUpper(s[i]) == AsciiUpper(t[i])
  }

  /** `TrimLeft` drops the blank prefix `s[..k]`. */
  lemma {:induction false} TrimLeftDrops(s: string) returns (k: nat)
    ensures k <= |s| && AllSpace(s[..k]) && TrimLeft(s) == s[k..]
    ensures k < |s| ==> !IsSpace(s[k])
  {
    if s != "" && IsSpace(s[0]) {
      var m := TrimLeftDrops(s[1..]);
      k := m + 1;
      assert s[..k] == [s[0]] + s[1..][..m];
    } else {
      k := 0;
    }
  }

  /** `TrimRight` drops the blank suffix `s[k..]`. */
  lemma {:induction false} TrimRightDrops(s: string) returns (k: nat)
    ensures k <= |s| && AllSpace(s[k..]) && TrimRight(s) == s[..k]
    ensures k > 0 ==> !IsSpace(s[k - 1])
  {
    if s != "" && IsSpace(s[|s| - 1]) {
      var p := s[..|s| - 1];
      k := TrimRightDrops(p);
      assert s[k..] == p[k..] + [s[|s| - 1]];
      assert p[..k] == s[..k];
    } else {
      k := |s|;
    }
  }

  /** What trimming means: the text between a blank margin on either side. Nothing
      remains exactly when all of it was blank. */
  lemma TrimSpaceMargins(s: string) returns (i: nat, j: nat)
    ensures i <= j <= |s| && TrimSpace(s) == s[i..j] && AllSpace(s[..i]) && AllSpace(s[j..])
    ensures i < j ==> !IsSpace(s[i]) && !IsSpace(s[j - 1])
    ensures TrimSpace(s) == "" <==> AllSpace(s)
  {
    i := TrimLeftDrops(s);
    var l := s[i..];
    var k := TrimRightDrops(l);
    j := i + k;
    assert l[k..] == s[j..] && l[..k] == s[i..j];
    if i < j {
      assert l[k - 1] == s[j - 1] && !IsSpace(s[j - 1]);
      if k > 0 && i < |s| { assert !IsSpace(s[i]); }
    } else {
      assert s == s[..i] + s[j..];
    }
  }
}
