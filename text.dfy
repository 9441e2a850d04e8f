/** String helpers matching the JavaScript operations the bot applies to user input:
    the `\s` character class and `trim`, `/\s+/g` replacement, ASCII case mapping,
    substring search and digit checks. */
module Text {

  /** JavaScript's `\s` (WhiteSpace and LineTerminator); `String.prototype.trim` strips the same set. */
  predicate IsSpace(c: char) {
    c == ' ' || c == '\t' || c == '\n' || c == '\r' || c == '\U{B}' || c == '\U{C}'
    || c == '\U{A0}' || c == '\U{1680}' || ('\U{2000}' <= c <= '\U{200A}')
    || c == '\U{2028}' || c == '\U{2029}' || c == '\U{202F}' || c == '\U{205F}'
    || c == '\U{3000}' || c == '\U{FEFF}'
  }

  predicate IsDigit(c: char) {
    '0' <= c <= '9'
  }

  predicate AllDigits(s: string) {
    forall i :: 0 <= i < |s| ==> IsDigit(s[i])
  }

  /** `trimStart`: drops the leading white space, keeping a suffix of `s`. */
  function TrimStart(s: string): (r: string)
    ensures |r| <= |s| && r == s[|s| - |r|..]
    ensures r == [] || !IsSpace(r[0])
    ensures forall i :: 0 <= i < |s| - |r| ==> IsSpace(s[i])
  {
    if s != [] && IsSpace(s[0]) then TrimStart(s[1..]) else s
  }

  /** `trimEnd`: drops the trailing white space, keeping a prefix of `s`. */
  function TrimEnd(s: string): (r: string)
    ensures |r| <= |s| && r == s[..|r|]
    ensures r == [] || !IsSpace(r[|r| - 1])
    ensures forall i :: |r| <= i < |s| ==> IsSpace(s[i])
  {
    if s != [] && IsSpace(s[|s| - 1]) then TrimEnd(s[..|s| - 1]) else s
  }

  /** `trim`: a contiguous piece of `s` with no white space at either end. */
  function Trim(s: string): (r: string)
    ensures |r| <= |TrimStart(s)| <= |s|
    ensures r == s[|s| - |TrimStart(s)|..|s| - |TrimStart(s)| + |r|]
    ensures r == [] || (!IsSpace(r[0]) && !IsSpace(r[|r| - 1]))
  {
    TrimEnd(TrimStart(s))
  }

  /** `s.trim() === ""`. */
  predicate IsBlank(s: string) {
    Trim(s) == []
  }

  predicate IsNonBlank(s: string) {
    !IsBlank(s)
  }

  /** A trimmed non-blank string is still non-blank. */
  lemma TrimNonBlank(s: string)
    requires IsNonBlank(s)
    ensures IsNonBlank(Trim(s))
  {
    var t := Trim(s);
    assert TrimStart(t) == t;
    assert !IsSpace(t[0]);
  }

  /** Only the plain space U+0020 occurs among the white-space characters of `s`. */
  predicate OnlyPlainSpaces(s: string) {
    forall i :: 0 <= i < |s| && IsSpace(s[i]) ==> s[i] == ' '
  }

  /** No two spaces are adjacent. */
  predicate NoDoubleSpace(s: string) {
    forall i :: 0 <= i < |s| - 1 ==> !(s[i] == ' ' && s[i + 1] == ' ')
  }

  /** `s.replace(/\s+/g, " ")`: every maximal run of white space becomes one plain space. */
  function CollapseSpaces(s: string): (r: string)
    ensures s == [] <==> r == []
    ensures s != [] && IsSpace(s[0]) ==> r[0] == ' '
    ensures s != [] && !IsSpace(s[0]) ==> r[0] == s[0]
    ensures OnlyPlainSpaces(r) && NoDoubleSpace(r)
    decreases |s|
  {
    if s == [] then []
    else if IsSpace(s[0]) then
      var rest := CollapseSpaces(TrimStart(s[1..]));
      ConsKeepsSpacing(' ', rest);
      [' '] + rest
    else
      var rest := CollapseSpaces(s[1..]);
      ConsKeepsSpacing(s[0], rest);
      [s[0]] + rest
  }

  /** Putting one character in front keeps both shape properties, unless it makes two spaces meet. */
  lemma ConsKeepsSpacing(c: char, r: string)
    requires OnlyPlainSpaces(r) && NoDoubleSpace(r)
    requires IsSpace(c) ==> c == ' ' && (r == [] || r[0] != ' ')
    ensures OnlyPlainSpaces([c] + r) && NoDoubleSpace([c] + r)
  {
    var t := [c] + r;
    forall k | 0 <= k < |t| - 1
      ensures !(t[k] == ' ' && t[k + 1] == ' ')
    {
      assert t[k + 1] == r[k];
      if k > 0 {
        assert t[k] == r[k - 1];
      }
    }
    forall k | 0 <= k < |t| && IsSpace(t[k])
      ensures t[k] == ' '
    {
      if k > 0 {
        assert t[k] == r[k - 1];
      }
    }
  }

  /** Taking a contiguous piece keeps both shape properties. */
  lemma SliceKeepsSpacing(s: string, i: nat, j: nat)
    requires i <= j <= |s|
    requires OnlyPlainSpaces(s) && NoDoubleSpace(s)
    ensures OnlyPlainSpaces(s[i..j]) && NoDoubleSpace(s[i..j])
  {
    var t := s[i..j];
    forall k | 0 <= k < |t| - 1
      ensures !(t[k] == ' ' && t[k + 1] == ' ')
    {
      assert t[k] == s[i + k] && t[k + 1] == s[i + k + 1];
    }
  }

  /** Trimming keeps both shape properties. */
  lemma TrimKeepsSpacing(s: string)
    requires OnlyPlainSpaces(s) && NoDoubleSpace(s)
    ensures OnlyPlainSpaces(Trim(s)) && NoDoubleSpace(Trim(s))
  {
    var u := TrimStart(s);
    SliceKeepsSpacing(s, |s| - |u|, |s|);
    SliceKeepsSpacing(u, 0, |TrimEnd(u)|);
  }

  /** A string whose only white space is single plain spaces is a fixed point of the collapse. */
  lemma {:induction false} CollapseKeepsNormalized(s: string)
    requires OnlyPlainSpaces(s) && NoDoubleSpace(s)
    ensures CollapseSpaces(s) == s
    decreases |s|
  {
    if s != [] {
      var t := s[1..];
      SliceKeepsSpacing(s, 1, |s|);
      if IsSpace(s[0]) {
        assert s[0] == ' ';
        assert TrimStart(t) == t;
      }
      CollapseKeepsNormalized(t);
      assert s == [s[0]] + t;
    }
  }

  /** A string that is its own trim and collapse is unchanged by trimming. */
  lemma TrimKeepsTrimmed(s: string)
    requires s == [] || (!IsSpace(s[0]) && !IsSpace(s[|s| - 1]))
    ensures Trim(s) == s
  {
    assert TrimStart(s) == s;
  }

  function LowerChar(c: char): char {
    if 'A' <= c <= 'Z' then (c as int + 32) as char else c
  }

  function UpperChar(c: char): char {
    if 'a' <= c <= 'z' then (c as int - 32) as char else c
  }

  /** ASCII `toLowerCase`. */
  function Lower(s: string): (r: string)
    ensures |r| == |s| && forall i :: 0 <= i < |s| ==> r[i] == LowerChar(s[i])
  {
    seq(|s|, i requires 0 <= i < |s| => LowerChar(s[i]))
  }

  /** ASCII `toUpperCase`. */
  function Upper(s: string): (r: string)
    ensures |r| == |s| && forall i :: 0 <= i < |s| ==> r[i] == UpperChar(s[i])
  {
    seq(|s|, i requires 0 <= i < |s| => UpperChar(s[i]))
  }

  /** Two strings are equal up to ASCII case, which is how a `/i` pattern compares letters. */
  predicate EqualsIgnoringCase(a: string, b: string) {
    Lower(a) == Lower(b)
  }

  predicate OccursAt(s: string, p: string, i: nat) {
    i + |p| <= |s| && EqualsIgnoringCase(s[i..i + |p|], p)
  }

  /** A case-insensitive search for the literal `p` anywhere in `s`. */
  predicate ContainsIgnoringCase(s: string, p: string) {
    exists i: nat :: i <= |s| && OccursAt(s, p, i)
  }
}
