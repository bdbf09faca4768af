/** ASCII text: letters and case, occurrences of one text in another, word boundaries. */
module Text {

  predicate IsUpper(c: char) { 'A' <= c <= 'Z' }

  predicate IsLower(c: char) { 'a' <= c <= 'z' }

  predicate IsLetter(c: char) { IsUpper(c) || IsLower(c) }

  predicate IsDigit(c: char) { '0' <= c <= '9' }

  /** What the regular expressions call a word character. */
  predicate IsWord(c: char) { IsLetter(c) || IsDigit(c) || c == '_' }

  function ToUpper(c: char): char
  {
    if IsLower(c) then 'A' + (c - 'a') else c
  }

  function ToLower(c: char): char
  {
    if IsUpper(c) then 'a' + (c - 'A') else c
  }

  /** All letters in lower case: equal for texts that differ in case only. */
  function Fold(s: string): (r: string)
    ensures |r| == |s|
    ensures forall i :: 0 <= i < |s| ==> r[i] == ToLower(s[i])
  {
    seq(|s|, i requires 0 <= i < |s| => ToLower(s[i]))
  }

  predicate IsLetters(s: string)
  {
    forall i :: 0 <= i < |s| ==> IsLetter(s[i])
  }

  predicate OccursAt(text: string, part: string, i: nat)
  {
    i + |part| <= |text| && text[i..i + |part|] == part
  }

  predicate Contains(text: string, part: string)
  {
    exists i :: 0 <= i <= |text| && OccursAt(text, part, i)
  }

  /** Exactly one of the characters around position i is a word character. */
  predicate Boundary(text: string, i: nat)
    requires i <= |text|
  {
    (i > 0 && IsWord(text[i - 1])) != (i < |text| && IsWord(text[i]))
  }

  lemma ContainsPart(a: string, b: string, c: string, part: string)
    requires Contains(b, part)
    ensures Contains(a + b + c, part)
  {
    var i :| 0 <= i <= |b| && OccursAt(b, part, i);
    var text := a + b + c;
    assert text[|a| + i..|a| + i + |part|] == b[i..i + |part|];
    assert OccursAt(text, part, |a| + i);
  }

  lemma ContainsItself(text: string)
    ensures Contains(text, text)
  {
    assert OccursAt(text, text, 0);
  }

  lemma ContainsFurther(a: string, b: string, c: string)
    requires Contains(a, b) && Contains(b, c)
    ensures Contains(a, c)
  {
    var i :| 0 <= i <= |a| && OccursAt(a, b, i);
    var front, behind := a[..i], a[i + |b|..];
    assert a == front + b + behind;
    ContainsPart(front, b, behind, c);
  }

  lemma FoldSlice(s: string, i: nat, j: nat)
    requires i <= j <= |s|
    ensures Fold(s[i..j]) == Fold(s)[i..j]
  {
  }
}
